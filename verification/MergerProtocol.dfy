/**
 The merger as a state machine: the bundler's steps interleave with the store that runs in
 the background, with the pruner, and with crashes and restarts, in any order.
 */
module MergerProtocol {
  import opened Options
  import opened Multiples
  import opened Bundler
  import opened Partition

  /** Where ProcessBlock is while it closes bundles for `obf`; `last` is the block it keeps over. */
  datatype Pc =
    | Idle
    | Launched(obf: OneBlockFile, last: OneBlockFile)
    | Skipping(obf: OneBlockFile, last: OneBlockFile)
    | SkipStoring(obf: OneBlockFile, last: OneBlockFile)
    | SkipStored(obf: OneBlockFile, last: OneBlockFile)

  /** A store in progress, which holds the inProcess lock, and the forks to move once it is done. */
  datatype Flight = Flight(job: Job, forks: set<OneBlockFile>)

  /** `store` and `deleted` survive a crash; `pos` counts the chain blocks fed since the start. */
  datatype Machine = Machine(
    store: map<nat, Files>, deleted: set<OneBlockFile>,
    base: nat, irr: Files, enforce: bool, seen: set<OneBlockFile>,
    flight: Option<Flight>, pc: Pc, pos: nat)

  datatype Event =
    | See(f: OneBlockFile)
    | Feed
    | Finish
    | Advance
    | Skip
    | SkipAdvance
    | Prune(files: set<OneBlockFile>)
    | Crash(top: nat, lib: nat)

  /** The chain of irreversible blocks, the bundle size and the first base. */
  datatype World = World(chain: Files, cfg: Config, base0: nat)

  function InitMachine(w: World): Machine {
    Machine(map[], {}, w.base0, [], true, {}, None, Idle, 0)
  }

  function Forks(m: Machine, size: nat): set<OneBlockFile> {
    set f | f in m.seen && f !in m.irr && f.num < m.base + size
  }

  /** The next irreversible block reaches ProcessBlock; closing a bundle waits for the lock. */
  function FeedStep(m: Machine, w: World): Option<Machine> {
    if !m.pc.Idle? || |w.chain| <= m.pos then None
    else
      var f := w.chain[m.pos];
      var size := w.cfg.size;
      if f.num < m.base then Some(m.(pos := m.pos + 1))
      else if m.enforce && f.num != m.base && f.num != w.cfg.first then None
      else if f.num < m.base + size then Some(m.(irr := m.irr + [f], enforce := false, pos := m.pos + 1))
      else if m.irr == [] || m.flight.Some? then None
      else
        Some(m.(flight := Some(Flight(Job(m.base, m.irr), Forks(m, size))),
                seen := m.seen - Forks(m, size) - (set g | g in m.irr),
                enforce := false, pc := Launched(f, m.irr[|m.irr| - 1])))
  }

  function FinishStep(m: Machine): Option<Machine> {
    match m.flight
    case None => None
    case Some(fl) =>
      Some(m.(store := m.store[fl.job.base := From(fl.job.blocks, fl.job.base)],
              deleted := m.deleted + fl.forks,
              flight := None,
              pc := if m.pc.SkipStoring? then SkipStored(m.pc.obf, m.pc.last) else m.pc))
  }

  function SkipStep(m: Machine, size: nat): Option<Machine> {
    if !m.pc.Skipping? then None
    else if m.pc.obf.num > m.base + size then
      if m.flight.Some? then None
      else Some(m.(flight := Some(Flight(Job(m.base, [m.pc.last]), {})), pc := SkipStoring(m.pc.obf, m.pc.last)))
    else Some(m.(pc := Idle, pos := m.pos + 1))
  }

  /** The base below which one-block files may go, read while no store is in progress. */
  function PruningTarget(base: nat, size: nat): nat {
    if size > base then 0 else base - size
  }

  /** What NextBundle finds: the first boundary with no stored bundle. */
  ghost predicate IsFirstMissing(store: map<nat, Files>, w: World, top: nat)
    requires 0 < w.cfg.size
  {
    Cut(w, top) && top !in store && forall k: nat | Cut(w, k) && k < top :: k in store
  }

  /** A crash loses everything but the stores; the restart resumes from the last stored block. */
  ghost function CrashStep(m: Machine, w: World, top: nat, lib: nat): Option<Machine>
    requires 0 < w.cfg.size
  {
    var m' := m.(base := top, irr := [], seen := {}, flight := None, pc := Idle);
    if !IsFirstMissing(m.store, w, top) then None
    else if top == w.base0 then Some(m'.(enforce := true, pos := 0))
    else if top < w.cfg.size || top - w.cfg.size !in m.store then None
    else
      var last := m.store[top - w.cfg.size];
      if last == [] || |w.chain| <= lib || w.chain[lib] != last[|last| - 1] then None
      else Some(m'.(enforce := false, pos := lib))
  }

  /** One step, or None when the event cannot happen in this state. */
  ghost function Step(m: Machine, e: Event, w: World): Option<Machine>
    requires 0 < w.cfg.size
  {
    match e
    case See(f) => Some(m.(seen := m.seen + {f}))
    case Feed => FeedStep(m, w)
    case Finish => FinishStep(m)
    case Advance =>
      if !m.pc.Launched? then None
      else Some(m.(base := m.base + w.cfg.size, irr := [m.pc.last, m.pc.obf], pc := Skipping(m.pc.obf, m.pc.last)))
    case Skip => SkipStep(m, w.cfg.size)
    case SkipAdvance =>
      if !m.pc.SkipStored? then None
      else Some(m.(base := m.base + w.cfg.size, pc := Skipping(m.pc.obf, m.pc.last)))
    case Prune(files) =>
      if m.flight.None? && forall f | f in files :: f.num < PruningTarget(m.base, w.cfg.size)
      then Some(m.(deleted := m.deleted + files)) else None
    case Crash(top, lib) => CrashStep(m, w, top, lib)
  }

  // ---- the invariant

  /** A boundary from the first base up. */
  predicate Cut(w: World, k: nat)
    requires 0 < w.cfg.size
  {
    w.base0 <= k && k % w.cfg.size == 0
  }

  /** Block `i`, on a boundary, comes right after a bundle without blocks. */
  ghost predicate SkipsAt(w: World, i: nat)
    requires 0 < w.cfg.size
  {
    SkipsOntoBoundary(w.chain, i, w.cfg.size) && w.base0 <= w.chain[i - 1].num
  }

  ghost predicate SkipsBefore(w: World, n: nat)
    requires 0 < w.cfg.size
  {
    exists i: nat :: i < n && SkipsAt(w, i)
  }

  /** The chain skips onto a boundary and then goes on. */
  ghost predicate Skips(w: World)
    requires 0 < w.cfg.size
  {
    exists i: nat :: i + 1 < |w.chain| && SkipsAt(w, i)
  }

  /** A bundle's own blocks; only a chain that skips onto a boundary can add that boundary's block. */
  ghost predicate Content(w: World, k: nat, blocks: Files)
    requires 0 < w.cfg.size
  {
    || blocks == Within(w.chain, k, k + w.cfg.size)
    || (Skips(w) && blocks == Within(w.chain, k, k + w.cfg.size + 1))
  }

  ghost predicate WorldOk(w: World) {
    0 < w.cfg.size && w.base0 % w.cfg.size == 0 && Rising(w.chain)
  }

  /** `top` is the first boundary that is not stored. */
  ghost predicate StoreInv(m: Machine, w: World, top: nat)
    requires WorldOk(w)
  {
    && Cut(w, top)
    && (forall k: nat :: k in m.store <==> Cut(w, k) && k < top)
    && (forall k | k in m.store :: Content(w, k, m.store[k]))
    && (forall f | f in m.deleted && f in w.chain :: f.num < top)
  }

  /** How far the store is behind the bundler. */
  ghost predicate PcInv(m: Machine, w: World, top: nat)
    requires WorldOk(w)
  {
    match m.pc
    case Idle => if m.flight.Some? then m.base == top + w.cfg.size else m.base == top
    case Skipping(_, _) => if m.flight.Some? then m.base == top + w.cfg.size else m.base == top
    case Launched(_, _) => if m.flight.Some? then m.base == top else m.base + w.cfg.size == top
    case SkipStoring(_, _) => m.flight.Some? && m.base == top
    case SkipStored(_, _) => m.flight.None? && m.base + w.cfg.size == top
  }

  ghost predicate FlightInv(m: Machine, w: World, top: nat)
    requires WorldOk(w)
  {
    m.flight.Some? ==>
      && m.flight.value.job.base == top
      && Content(w, top, From(m.flight.value.job.blocks, top))
      && forall f | f in m.flight.value.forks && f in w.chain :: f.num < top
  }

  /** The pending blocks are those of the fed part of the chain, from the base up. */
  ghost predicate PendingInv(m: Machine, w: World)
    requires WorldOk(w)
  {
    && m.pos <= |w.chain|
    && From(m.irr, m.base) == From(w.chain[..m.pos], m.base)
    && (if m.irr == [] then AllBelow(w.chain[..m.pos], m.base)
        else
          && 0 < m.pos && m.irr[|m.irr| - 1] == w.chain[m.pos - 1]
          && m.base <= w.chain[m.pos - 1].num <= m.base + w.cfg.size
          && (w.chain[m.pos - 1].num == m.base + w.cfg.size ==> SkipsBefore(w, m.pos)))
  }

  /** While bundles are closed for `obf`, the kept-over block does not lie above the base. */
  ghost predicate ClosingInv(m: Machine, w: World)
    requires WorldOk(w)
  {
    match m.pc
    case Idle => PendingInv(m, w)
    case Launched(obf, last) =>
      && OnChain(m, w, obf, last) && m.base + w.cfg.size <= obf.num
      && last.num <= m.base + w.cfg.size && (last.num == m.base + w.cfg.size ==> SkipsBefore(w, m.pos))
    case Skipping(obf, last) =>
      && OnChain(m, w, obf, last) && m.irr == [last, obf] && m.base <= obf.num
      && last.num <= m.base && (last.num == m.base ==> SkipsBefore(w, m.pos))
    case SkipStoring(obf, last) =>
      OnChain(m, w, obf, last) && m.irr == [last, obf] && m.base + w.cfg.size < obf.num && last.num <= m.base
    case SkipStored(obf, last) =>
      OnChain(m, w, obf, last) && m.irr == [last, obf] && m.base + w.cfg.size < obf.num && last.num <= m.base
  }

  ghost predicate OnChain(m: Machine, w: World, obf: OneBlockFile, last: OneBlockFile) {
    0 < m.pos < |w.chain| && w.chain[m.pos] == obf && w.chain[m.pos - 1] == last && w.base0 <= last.num
  }

  ghost predicate Inv(m: Machine, w: World, top: nat) {
    && WorldOk(w)
    && StoreInv(m, w, top)
    && PcInv(m, w, top)
    && FlightInv(m, w, top)
    && ClosingInv(m, w)
  }

  // ---- every step keeps it

  lemma {:induction false} FromOfPrefix(files: Files, n: nat, lo: nat, hi: nat)
    requires Rising(files) && n <= |files| && (n < |files| ==> hi <= files[n].num)
    ensures Rising(files[..n]) && Within(files, lo, hi) == Within(files[..n], lo, hi)
  {
    if n < |files| {
      var low := files[..|files| - 1];
      var f := files[|files| - 1];
      if n < |files| - 1 {
        RisingAt(files, n, |files| - 1);
      }
      FromOfPrefix(low, n, lo, hi);
      assert low[..n] == files[..n];
      assert files == low + [f];
      WithinAppend(low, f, lo, hi);
    } else {
      assert files[..n] == files;
    }
  }

  /** What is fed before the block that closes a bundle, from the base up, is the bundle's content. */
  lemma ClosingContent(m: Machine, w: World)
    requires WorldOk(w) && PendingInv(m, w) && m.irr != [] && m.pos < |w.chain|
    requires m.base + w.cfg.size <= w.chain[m.pos].num
    ensures Content(w, m.base, From(m.irr, m.base))
  {
    var hi := m.base + w.cfg.size;
    if w.chain[m.pos - 1].num == hi {
      var i: nat :| i < m.pos && SkipsAt(w, i);
      RisingAt(w.chain, m.pos - 1, m.pos);
      FedFull(w.chain, m.pos, m.base, hi);
    } else {
      FedShort(w.chain, m.pos, m.base, hi);
    }
  }

  lemma LastFed(chain: Files, n: nat)
    requires Rising(chain) && 0 < n <= |chain|
    ensures Rising(chain[..n]) && forall f | f in chain[..n] :: f.num <= chain[n - 1].num
  {
    RisingPrefix(chain, n);
    AllUpToLast(chain[..n]);
    assert chain[..n][n - 1] == chain[n - 1];
  }

  lemma FedShort(chain: Files, n: nat, lo: nat, hi: nat)
    requires Rising(chain) && 0 < n < |chain| && lo <= hi && chain[n - 1].num < hi <= chain[n].num
    ensures From(chain[..n], lo) == Within(chain, lo, hi)
  {
    LastFed(chain, n);
    FromOfPrefix(chain, n, lo, hi);
    FromIsWithin(chain[..n], lo, hi);
    NoneWithin(chain[..n], hi, hi + 1);
  }

  lemma FedFull(chain: Files, n: nat, lo: nat, hi: nat)
    requires Rising(chain) && 0 < n < |chain| && lo <= hi && chain[n - 1].num == hi < chain[n].num
    ensures From(chain[..n], lo) == Within(chain, lo, hi + 1)
  {
    LastFed(chain, n);
    FromOfPrefix(chain, n, lo, hi + 1);
    FromIsWithin(chain[..n], lo, hi);
    WithinSplit(chain[..n], lo, hi);
  }

  lemma {:induction false} WithinSplit(files: Files, lo: nat, hi: nat)
    requires Rising(files) && lo <= hi && forall f | f in files :: f.num <= hi
    ensures Within(files, lo, hi + 1) == Within(files, lo, hi) + Within(files, hi, hi + 1)
  {
    if files != [] {
      var low := files[..|files| - 1];
      NoneWithin(low, hi, hi + 1);
      WithinSplit(low, lo, hi);
    }
  }

  /** A skipped bundle gets the kept-over block only if that is its own. */
  lemma SkippedContent(m: Machine, w: World, obf: OneBlockFile, last: OneBlockFile)
    requires WorldOk(w) && OnChain(m, w, obf, last) && m.base + w.cfg.size < obf.num && last.num <= m.base
    ensures From([last], m.base) == Within(w.chain, m.base, m.base + w.cfg.size)
  {
    SkippedFed(w.chain, m.pos, m.base, m.base + w.cfg.size);
  }

  lemma SkippedFed(chain: Files, n: nat, lo: nat, hi: nat)
    requires Rising(chain) && 0 < n < |chain| && chain[n - 1].num <= lo < hi <= chain[n].num
    ensures From([chain[n - 1]], lo) == Within(chain, lo, hi)
  {
    FromOfPrefix(chain, n, lo, hi);
    assert chain[..n][n - 1] == chain[n - 1];
    LastOwn(chain[..n], lo, hi);
  }

  lemma CutNext(w: World, top: nat)
    requires 0 < w.cfg.size && Cut(w, top)
    ensures Cut(w, top + w.cfg.size)
    ensures forall k: nat :: Cut(w, k) && k < top + w.cfg.size <==> (Cut(w, k) && k < top) || k == top
  {
    NextMultiple(top, w.cfg.size);
    forall k: nat | Cut(w, k) && top <= k < top + w.cfg.size
      ensures k == top
    {
      BetweenMultiples(top, k, w.cfg.size);
    }
  }

  lemma FinishKeeps(m: Machine, w: World, top: nat)
    requires Inv(m, w, top) && m.flight.Some?
    ensures FinishStep(m).Some? && Inv(FinishStep(m).value, w, top + w.cfg.size)
  {
    CutNext(w, top);
  }

  lemma ForksAreNotOfTheChain(m: Machine, w: World)
    requires WorldOk(w) && PendingInv(m, w) && m.pos < |w.chain| && m.base + w.cfg.size <= w.chain[m.pos].num
    ensures forall f | f in Forks(m, w.cfg.size) && f in w.chain :: f.num < m.base
  {
    forall f | f in Forks(m, w.cfg.size) && f in w.chain && m.base <= f.num
      ensures false
    {
      var i :| 0 <= i < |w.chain| && w.chain[i] == f;
      if m.pos < i {
        RisingAt(w.chain, m.pos, i);
      }
      InFrom(w.chain[..m.pos], f, m.base);
      assert w.chain[..m.pos][i] == f;
      InFrom(m.irr, f, m.base);
    }
  }

  lemma {:induction false} InFrom(files: Files, g: OneBlockFile, lo: nat)
    ensures g in From(files, lo) <==> g in files && lo <= g.num
  {
    if files != [] {
      assert files == files[..|files| - 1] + [files[|files| - 1]];
      InFrom(files[..|files| - 1], g, lo);
    }
  }

  /** When a closing bundle is stored, every other file seen below its upper boundary is moved, and no more. */
  lemma ForksAreMoved(m: Machine, w: World)
    requires FeedStep(m, w).Some? && m.base + w.cfg.size <= w.chain[m.pos].num
    ensures var closing := FeedStep(m, w).value;
            && FinishStep(closing).Some?
            && FinishStep(closing).value.deleted
               == m.deleted + (set f | f in m.seen && f !in m.irr && f.num < m.base + w.cfg.size)
            && FinishStep(closing).value.seen == set f | f in m.seen && f !in m.irr && m.base + w.cfg.size <= f.num
  {
  }

  lemma FeedKeeps(m: Machine, w: World, top: nat)
    requires Inv(m, w, top) && FeedStep(m, w).Some?
    ensures Inv(FeedStep(m, w).value, w, top)
  {
    var f := w.chain[m.pos];
    if f.num < m.base {
      PendingSkips(m, w, f);
    } else if f.num < m.base + w.cfg.size {
      PendingGrows(m, w, f);
    } else {
      ClosingKeeps(m, w, top);
    }
  }

  lemma ClosingKeeps(m: Machine, w: World, top: nat)
    requires Inv(m, w, top) && FeedStep(m, w).Some? && m.base + w.cfg.size <= w.chain[m.pos].num
    ensures Inv(FeedStep(m, w).value, w, top)
  {
    ClosingContent(m, w);
    ForksAreNotOfTheChain(m, w);
    ClosingFlight(m, w, top);
  }

  /** The bundle handed over is the first missing one, with its own content. */
  lemma ClosingFlight(m: Machine, w: World, top: nat)
    requires Inv(m, w, top) && FeedStep(m, w).Some? && m.base + w.cfg.size <= w.chain[m.pos].num
    requires Content(w, m.base, From(m.irr, m.base))
    requires forall f | f in Forks(m, w.cfg.size) && f in w.chain :: f.num < m.base
    ensures m.base == top && m.irr != [] && FlightInv(FeedStep(m, w).value, w, top)
    ensures w.base0 <= m.irr[|m.irr| - 1].num
  {
  }

  /** A block below the base is dropped. */
  lemma PendingSkips(m: Machine, w: World, f: OneBlockFile)
    requires WorldOk(w) && PendingInv(m, w) && m.pos < |w.chain| && f == w.chain[m.pos] && f.num < m.base
    ensures PendingInv(m.(pos := m.pos + 1), w)
  {
    assert w.chain[..m.pos + 1] == w.chain[..m.pos] + [f];
    FromAppend(w.chain[..m.pos], f, m.base);
    FedSoFar(m, w);
  }

  /** A block of the current bundle is held. */
  lemma PendingGrows(m: Machine, w: World, f: OneBlockFile)
    requires WorldOk(w) && PendingInv(m, w) && m.pos < |w.chain| && f == w.chain[m.pos]
    requires m.base <= f.num < m.base + w.cfg.size
    ensures PendingInv(m.(irr := m.irr + [f], enforce := false, pos := m.pos + 1), w)
  {
    assert w.chain[..m.pos + 1] == w.chain[..m.pos] + [f];
    FromAppend(w.chain[..m.pos], f, m.base);
    FromAppend(m.irr, f, m.base);
  }

  lemma FedSoFar(m: Machine, w: World)
    requires WorldOk(w) && m.pos < |w.chain|
    ensures AllBelow(w.chain[..m.pos], w.chain[m.pos].num)
    ensures 0 < m.pos ==> w.chain[m.pos - 1].num < w.chain[m.pos].num
  {
    forall f | f in w.chain[..m.pos]
      ensures f.num < w.chain[m.pos].num
    {
      var i :| 0 <= i < m.pos && w.chain[i] == f;
      RisingAt(w.chain, i, m.pos);
    }
    if 0 < m.pos {
      RisingAt(w.chain, m.pos - 1, m.pos);
    }
  }

  lemma SkipKeeps(m: Machine, w: World, top: nat)
    requires Inv(m, w, top) && SkipStep(m, w.cfg.size).Some?
    ensures Inv(SkipStep(m, w.cfg.size).value, w, top)
  {
    var obf, last := m.pc.obf, m.pc.last;
    BaseIsCut(m, w, top);
    if obf.num > m.base + w.cfg.size {
      SkippedContent(m, w, obf, last);
    } else {
      EndOfClosing(m, w, obf, last);
      var m' := SkipStep(m, w.cfg.size).value;
      assert m' == m.(pc := Idle, pos := m.pos + 1);
      assert StoreInv(m', w, top) && FlightInv(m', w, top) && PcInv(m', w, top);
    }
  }

  lemma BaseIsCut(m: Machine, w: World, top: nat)
    requires WorldOk(w) && StoreInv(m, w, top) && PcInv(m, w, top)
    ensures m.pc.Skipping? ==> m.base % w.cfg.size == 0
  {
    NextMultiple(top, w.cfg.size);
  }

  /** When the loop ends, the two kept blocks are what the fed chain has from the base up. */
  lemma EndOfClosing(m: Machine, w: World, obf: OneBlockFile, last: OneBlockFile)
    requires WorldOk(w) && m.base % w.cfg.size == 0
    requires OnChain(m, w, obf, last) && m.irr == [last, obf] && m.base <= obf.num <= m.base + w.cfg.size
    requires last.num <= m.base && (last.num == m.base ==> SkipsBefore(w, m.pos))
    ensures PendingInv(m.(pc := Idle, pos := m.pos + 1), w)
  {
    FedAndNext(w.chain, m.pos);
    KeptLast(w.chain[..m.pos], obf, m.base);
    if obf.num == m.base + w.cfg.size {
      HeldEarly(m, w, obf, last);
    }
  }

  lemma FedAndNext(chain: Files, n: nat)
    requires Rising(chain) && 0 < n < |chain|
    ensures Rising(chain[..n]) && chain[..n][n - 1] == chain[n - 1] && chain[..n + 1] == chain[..n] + [chain[n]]
    ensures chain[n - 1].num < chain[n].num
  {
    RisingPrefix(chain, n);
    RisingAt(chain, n - 1, n);
  }

  /** A block is held early only after a skip. */
  lemma HeldEarly(m: Machine, w: World, obf: OneBlockFile, last: OneBlockFile)
    requires WorldOk(w) && m.base % w.cfg.size == 0 && OnChain(m, w, obf, last)
    requires obf.num == m.base + w.cfg.size && last.num <= m.base && (last.num == m.base ==> SkipsBefore(w, m.pos))
    ensures SkipsBefore(w, m.pos + 1)
  {
    NextMultiple(m.base, w.cfg.size);
    if last.num < m.base {
      assert SkipsAt(w, m.pos);
    }
  }

  lemma AdvanceKeeps(m: Machine, w: World, top: nat)
    requires Inv(m, w, top)
    ensures Step(m, Advance, w).Some? ==> Inv(Step(m, Advance, w).value, w, top)
    ensures Step(m, SkipAdvance, w).Some? ==> Inv(Step(m, SkipAdvance, w).value, w, top)
  {
  }

  /** Pruning reaches only blocks whose bundle is stored. */
  lemma PruneKeeps(m: Machine, w: World, top: nat, files: set<OneBlockFile>)
    requires Inv(m, w, top)
    ensures Step(m, Prune(files), w).Some? ==> Inv(Step(m, Prune(files), w).value, w, top)
  {
    if Step(m, Prune(files), w).Some? {
      PrunedIsStored(m, w, top, files);
    }
  }

  lemma PrunedIsStored(m: Machine, w: World, top: nat, files: set<OneBlockFile>)
    requires WorldOk(w) && StoreInv(m, w, top) && PcInv(m, w, top) && m.flight.None?
    requires forall f | f in files :: f.num < PruningTarget(m.base, w.cfg.size)
    ensures StoreInv(m.(deleted := m.deleted + files), w, top)
  {
    assert m.base <= top + w.cfg.size;
  }

  /** Pruning may take exactly the files that lie more than a bundle below the base; the last bundle's stay. */
  lemma PruneLeavesTheLastBundle(m: Machine, w: World, files: set<OneBlockFile>)
    requires 0 < w.cfg.size
    ensures Step(m, Prune(files), w).Some? <==> m.flight.None? && forall f | f in files :: f.num + w.cfg.size < m.base
  {
  }

  lemma FirstMissingIsTop(m: Machine, w: World, top: nat, t: nat)
    requires WorldOk(w) && StoreInv(m, w, top) && IsFirstMissing(m.store, w, t)
    ensures t == top
  {
    assert top < t ==> top in m.store;
  }

  /** A restart at the first missing base, fed again from a block below which all is stored. */
  lemma ResumeKeeps(m: Machine, w: World, top: nat, enforce: bool, pos: nat)
    requires WorldOk(w) && StoreInv(m, w, top) && pos <= |w.chain|
    requires AllBelow(w.chain[..pos], top) && From(w.chain[..pos], top) == []
    ensures Inv(m.(base := top, irr := [], seen := {}, flight := None, pc := Idle, enforce := enforce, pos := pos),
                w, top)
  {
  }

  lemma LastStoredIsBelow(m: Machine, w: World, top: nat, k: nat, lib: nat)
    requires WorldOk(w) && StoreInv(m, w, top) && k in m.store && k + w.cfg.size == top
    requires m.store[k] != [] && lib < |w.chain| && w.chain[lib] == m.store[k][|m.store[k]| - 1]
    ensures AllBelow(w.chain[..lib], top) && From(w.chain[..lib], top) == []
  {
    var last := m.store[k];
    ContentIsBelow(w, k, last, last[|last| - 1]);
    LibIsBelow(w, lib, top);
  }

  /** Resuming from the last stored block: nothing fed before it is missing from the store. */
  lemma CrashKeeps(m: Machine, w: World, top: nat, t: nat, lib: nat)
    requires Inv(m, w, top)
    ensures CrashStep(m, w, t, lib).Some? ==> t == top && Inv(CrashStep(m, w, t, lib).value, w, top)
  {
    if CrashStep(m, w, t, lib).Some? {
      FirstMissingIsTop(m, w, top, t);
      if top == w.base0 {
        assert w.chain[..0] == [];
        ResumeKeeps(m, w, top, true, 0);
      } else {
        LastStoredIsBelow(m, w, top, top - w.cfg.size, lib);
        ResumeKeeps(m, w, top, false, lib);
      }
    }
  }

  lemma ContentIsBelow(w: World, k: nat, blocks: Files, f: OneBlockFile)
    requires WorldOk(w) && Content(w, k, blocks) && f in blocks
    ensures f in w.chain && k <= f.num <= k + w.cfg.size
  {
    InWithin(w.chain, f, k, k + w.cfg.size);
    InWithin(w.chain, f, k, k + w.cfg.size + 1);
  }

  lemma LibIsBelow(w: World, lib: nat, top: nat)
    requires WorldOk(w) && lib < |w.chain| && w.chain[lib].num <= top
    ensures AllBelow(w.chain[..lib], top) && From(w.chain[..lib], top) == []
  {
    forall f | f in w.chain[..lib]
      ensures f.num < top
    {
      var i :| 0 <= i < lib && w.chain[i] == f;
      RisingAt(w.chain, i, lib);
    }
    NoneFrom(w.chain[..lib], top);
  }

  ghost function TopAfter(m: Machine, e: Event, w: World, top: nat): nat {
    if e.Finish? then top + w.cfg.size else top
  }

  lemma StepKeeps(m: Machine, e: Event, w: World, top: nat)
    requires Inv(m, w, top) && Step(m, e, w).Some?
    ensures Inv(Step(m, e, w).value, w, TopAfter(m, e, w, top))
  {
    match e
    case See(f) => SeeKeeps(m, w, top, f);
    case Feed => FeedKeeps(m, w, top);
    case Finish => FinishKeeps(m, w, top);
    case Advance => AdvanceKeeps(m, w, top);
    case Skip => SkipKeeps(m, w, top);
    case SkipAdvance => AdvanceKeeps(m, w, top);
    case Prune(files) => PruneKeeps(m, w, top, files);
    case Crash(t, lib) => CrashKeeps(m, w, top, t, lib);
  }

  lemma SeeKeeps(m: Machine, w: World, top: nat, f: OneBlockFile)
    requires Inv(m, w, top)
    ensures Inv(m.(seen := m.seen + {f}), w, top)
  {
  }

  // ---- every run

  /** A run that follows the events; events that cannot happen are passed over. */
  ghost function Play(m: Machine, events: seq<Event>, w: World): Machine
    requires 0 < w.cfg.size
    decreases |events|
  {
    if events == [] then m
    else
      var next := Step(m, events[0], w);
      Play(if next.Some? then next.value else m, events[1..], w)
  }

  lemma {:induction false} PlayKeeps(m: Machine, events: seq<Event>, w: World, top: nat) returns (end: nat)
    requires Inv(m, w, top)
    ensures top <= end && Inv(Play(m, events, w), w, end)
    decreases |events|
  {
    end := top;
    if events != [] {
      var next := Step(m, events[0], w);
      if next.Some? {
        StepKeeps(m, events[0], w, top);
        end := PlayKeeps(next.value, events[1..], w, TopAfter(m, events[0], w, top));
      } else {
        end := PlayKeeps(m, events[1..], w, top);
      }
    }
  }

  lemma InitKeeps(w: World)
    requires WorldOk(w)
    ensures Inv(InitMachine(w), w, w.base0)
  {
    assert w.chain[..0] == [];
  }

  /** The blocks of the chain that a bundle should hold are in it. */
  lemma StoredInItsBundle(m: Machine, w: World, top: nat, f: OneBlockFile)
    requires Inv(m, w, top) && f in w.chain && w.base0 <= f.num < top
    ensures var k := ToBase(f.num, w.cfg.size); k in m.store && f in m.store[k]
  {
    var k := ToBase(f.num, w.cfg.size);
    OwnBase(w.base0, f.num, w.cfg.size);
    InWithin(w.chain, f, k, k + w.cfg.size);
    InWithin(w.chain, f, k, k + w.cfg.size + 1);
    assert Content(w, k, m.store[k]);
  }

  /**
   In every interleaving of bundling, background stores, pruning, fork moves, crashes and
   restarts, no one-block file of an irreversible block is deleted before its bundle is stored.
   */
  lemma NothingIsLost(w: World, events: seq<Event>, f: OneBlockFile)
    requires WorldOk(w) && f in w.chain && w.base0 <= f.num
    requires f in Play(InitMachine(w), events, w).deleted
    ensures var m := Play(InitMachine(w), events, w);
            var k := ToBase(f.num, w.cfg.size);
            k in m.store && f in m.store[k]
  {
    InitKeeps(w);
    var top := PlayKeeps(InitMachine(w), events, w, w.base0);
    StoredInItsBundle(Play(InitMachine(w), events, w), w, top, f);
  }

  /**
   Unless the chain skips onto a boundary, the store is always the exact partition of the
   chain up to some boundary, however often the merger crashed and resumed.
   */
  lemma AlwaysAPartition(w: World, events: seq<Event>) returns (top: nat)
    requires WorldOk(w) && !Skips(w)
    ensures var m := Play(InitMachine(w), events, w);
            && Cut(w, top)
            && (forall k: nat :: k in m.store <==> Cut(w, k) && k < top)
            && (forall k | k in m.store :: m.store[k] == Within(w.chain, k, k + w.cfg.size))
  {
    InitKeeps(w);
    top := PlayKeeps(InitMachine(w), events, w, w.base0);
  }

  // ---- when a restart is possible

  /** A merger can resume exactly when nothing is stored yet or the last stored bundle has a block. */
  lemma RestartNeedsABlock(m: Machine, w: World, top: nat)
    requires Inv(m, w, top)
    ensures (exists t: nat, lib: nat :: CrashStep(m, w, t, lib).Some?)
            <==> top == w.base0 || m.store[LastStored(m, w, top)] != []
  {
    var k := LastStored(m, w, top);
    if top == w.base0 {
      assert CrashStep(m, w, top, 0).Some?;
    } else if m.store[k] != [] {
      var last := m.store[k];
      ContentIsBelow(w, k, last, last[|last| - 1]);
      var lib: nat :| lib < |w.chain| && w.chain[lib] == last[|last| - 1];
      assert CrashStep(m, w, top, lib).Some?;
    }
    forall t: nat, lib: nat | CrashStep(m, w, t, lib).Some?
      ensures top == w.base0 || m.store[k] != []
    {
      FirstMissingIsTop(m, w, top, t);
    }
  }

  /** What a restart is fed first: the whole chain when nothing is stored, else the last stored block itself. */
  lemma RestartFeedsTheLastBlock(m: Machine, w: World, top: nat, t: nat, lib: nat)
    requires Inv(m, w, top) && CrashStep(m, w, t, lib).Some?
    ensures var m' := CrashStep(m, w, t, lib).value;
            if m.store == map[] then m'.pos == 0
            else
              && t >= w.cfg.size && t - w.cfg.size in m.store && m.store[t - w.cfg.size] != [] && m'.pos < |w.chain|
              && w.chain[m'.pos] == m.store[t - w.cfg.size][|m.store[t - w.cfg.size]| - 1]
  {
    FirstMissingIsTop(m, w, top, t);
    if t == w.base0 {
      assert m.store.Keys == {};
    }
  }

  ghost function LastStored(m: Machine, w: World, top: nat): (k: nat)
    requires Inv(m, w, top)
    ensures top != w.base0 ==> k in m.store && k == top - w.cfg.size
  {
    if top == w.base0 then top
    else
      var size := w.cfg.size;
      assert top >= w.base0 + size && (top - size) % size == 0 by {
        if top < w.base0 + size {
          BetweenMultiples(w.base0, top, size);
        }
        PreviousMultiple(top, size);
      }
      top - size
  }

  // ---- the small steps add up to the bundler's step

  function StoreJobs(store: map<nat, Files>, jobs: seq<Job>): map<nat, Files>
    decreases |jobs|
  {
    if jobs == [] then store
    else StoreJobs(store[jobs[0].base := From(jobs[0].blocks, jobs[0].base)], jobs[1..])
  }

  lemma {:induction false} PlayBoth(m: Machine, a: seq<Event>, b: seq<Event>, w: World)
    requires 0 < w.cfg.size
    ensures Play(m, a + b, w) == Play(Play(m, a, w), b, w)
    decreases |a|
  {
    if a == [] {
      assert a + b == b;
    } else {
      var next := Step(m, a[0], w);
      PlayBoth(if next.Some? then next.value else m, a[1..], b, w);
      assert (a + b)[1..] == a[1..] + b;
    }
  }

  ghost predicate Uncrashed(events: seq<Event>) {
    forall e | e in events :: !e.Crash?
  }

  lemma PlayOne(m: Machine, e: Event, w: World)
    requires 0 < w.cfg.size && Step(m, e, w).Some?
    ensures Play(m, [e], w) == Step(m, e, w).value
  {
    assert [e][1..] == [];
  }

  /** One round of the skip loop stores the bundle at the base and moves on. */
  lemma SkipOnce(m: Machine, w: World)
    requires 0 < w.cfg.size && m.pc.Skipping? && m.flight.None? && m.pc.obf.num > m.base + w.cfg.size
    ensures Play(m, [Skip] + [Finish] + [SkipAdvance], w)
            == m.(store := m.store[m.base := From([m.pc.last], m.base)], base := m.base + w.cfg.size)
  {
    var obf, last := m.pc.obf, m.pc.last;
    var m1 := m.(flight := Some(Flight(Job(m.base, [last]), {})), pc := SkipStoring(obf, last));
    var m2 := m.(store := m.store[m.base := From([last], m.base)], pc := SkipStored(obf, last));
    assert m.deleted + {} == m.deleted;
    PlayOne(m, Skip, w);
    PlayOne(m1, Finish, w);
    PlayOne(m2, SkipAdvance, w);
    PlayBoth(m, [Skip], [Finish], w);
    PlayBoth(m, [Skip] + [Finish], [SkipAdvance], w);
  }

  /** The skip loop, store by store. */
  lemma {:induction false} SkipLoop(m: Machine, w: World, b: nat, js: seq<Job>) returns (events: seq<Event>)
    requires 0 < w.cfg.size && m.pc.Skipping? && m.flight.None?
    requires (b, js) == SkipTo(m.base, m.pc.obf.num, m.pc.last, w.cfg.size)
    ensures Play(m, events, w) == m.(base := b, store := StoreJobs(m.store, js), pc := Idle, pos := m.pos + 1)
    ensures Uncrashed(events)
    decreases if m.base < m.pc.obf.num then m.pc.obf.num - m.base else 0
  {
    var obf, last, size := m.pc.obf, m.pc.last, w.cfg.size;
    if obf.num > m.base + size {
      var next := m.(store := m.store[m.base := From([last], m.base)], base := m.base + size);
      SkipToNext(m.base, obf.num, last, size, m.store);
      var rest := SkipLoop(next, w, b, SkipTo(m.base + size, obf.num, last, size).1);
      events := SkipRound(m, next, rest, w);
    } else {
      PlayOne(m, Skip, w);
      events := [Skip];
    }
  }

  lemma SkipRound(m: Machine, next: Machine, rest: seq<Event>, w: World) returns (events: seq<Event>)
    requires 0 < w.cfg.size && m.pc.Skipping? && m.flight.None? && m.pc.obf.num > m.base + w.cfg.size
    requires next == m.(store := m.store[m.base := From([m.pc.last], m.base)], base := m.base + w.cfg.size)
    requires Uncrashed(rest)
    ensures Play(m, events, w) == Play(next, rest, w) && Uncrashed(events)
  {
    SkipOnce(m, w);
    PlayBoth(m, [Skip] + [Finish] + [SkipAdvance], rest, w);
    events := [Skip] + [Finish] + [SkipAdvance] + rest;
  }

  lemma SkipToNext(base: nat, n: nat, last: OneBlockFile, size: nat, store: map<nat, Files>)
    requires 0 < size && n > base + size
    ensures SkipTo(base, n, last, size).0 == SkipTo(base + size, n, last, size).0
    ensures StoreJobs(store, SkipTo(base, n, last, size).1)
            == StoreJobs(store[base := From([last], base)], SkipTo(base + size, n, last, size).1)
  {
    JobsAfterOne(store, Job(base, [last]), SkipTo(base + size, n, last, size).1);
  }

  lemma JobsAfterOne(store: map<nat, Files>, j: Job, js: seq<Job>)
    ensures StoreJobs(store, [j] + js) == StoreJobs(store[j.base := From(j.blocks, j.base)], js)
  {
    assert ([j] + js)[1..] == js;
  }

  /**
   Once the store in progress is done, the machine can take the next block through all its
   small steps, and ends in the state, and with the stored bundles, of the bundler's step.
   */
  lemma SmallStepsRefineAccept(m: Machine, w: World) returns (events: seq<Event>)
    requires 0 < w.cfg.size && m.pc.Idle? && m.flight.None? && m.pos < |w.chain|
    requires var out := Accept(Core(m.base, m.irr, m.enforce), w.chain[m.pos], w.cfg).2;
             !out.NotOnBoundary? && !out.NothingPending?
    ensures var m' := Play(m, events, w);
            var (c, js, out) := Accept(Core(m.base, m.irr, m.enforce), w.chain[m.pos], w.cfg);
            && Core(m'.base, m'.irr, m'.enforce) == c && m'.store == StoreJobs(m.store, js)
            && m'.pc.Idle? && m'.flight.None? && m'.pos == m.pos + 1
    ensures Uncrashed(events)
  {
    if w.chain[m.pos].num < m.base + w.cfg.size {
      PlayOne(m, Feed, w);
      events := [Feed];
    } else {
      events := CloseSteps(m, w);
    }
  }

  lemma CloseSteps(m: Machine, w: World) returns (events: seq<Event>)
    requires 0 < w.cfg.size && m.pc.Idle? && m.flight.None? && m.pos < |w.chain| && m.irr != []
    requires m.base + w.cfg.size <= w.chain[m.pos].num && (m.enforce ==> w.chain[m.pos].num == w.cfg.first)
    ensures var m' := Play(m, events, w);
            var f := w.chain[m.pos];
            var last := m.irr[|m.irr| - 1];
            var (b, js) := SkipTo(m.base + w.cfg.size, f.num, last, w.cfg.size);
            && m'.base == b && m'.irr == [last, f] && !m'.enforce
            && m'.store == StoreJobs(m.store, [Job(m.base, m.irr)] + js)
            && m'.pc.Idle? && m'.flight.None? && m'.pos == m.pos + 1
    ensures Uncrashed(events)
  {
    var opening := OpenClosing(m, w);
    var closing := Play(m, opening, w);
    var (b, js) := SkipTo(closing.base, closing.pc.obf.num, closing.pc.last, w.cfg.size);
    var rest := SkipLoop(closing, w, b, js);
    PlayBoth(m, opening, rest, w);
    events := opening + rest;
  }

  /** Launching the closing bundle, letting it finish, and moving to the next base. */
  lemma OpenClosing(m: Machine, w: World) returns (events: seq<Event>)
    requires 0 < w.cfg.size && m.pc.Idle? && m.flight.None? && m.pos < |w.chain| && m.irr != []
    requires m.base + w.cfg.size <= w.chain[m.pos].num && (m.enforce ==> w.chain[m.pos].num == w.cfg.first)
    ensures var f := w.chain[m.pos];
            var last := m.irr[|m.irr| - 1];
            var m' := Play(m, events, w);
            && m'.store == m.store[m.base := From(m.irr, m.base)]
            && m'.base == m.base + w.cfg.size && m'.irr == [last, f] && !m'.enforce
            && m'.flight.None? && m'.pc == Skipping(f, last) && m'.pos == m.pos
    ensures var f := w.chain[m.pos];
            var (b, js) := SkipTo(m.base + w.cfg.size, f.num, m.irr[|m.irr| - 1], w.cfg.size);
            StoreJobs(m.store, [Job(m.base, m.irr)] + js)
            == StoreJobs(m.store[m.base := From(m.irr, m.base)], js)
    ensures Uncrashed(events)
  {
    var m1 := FeedStep(m, w).value;
    var m2 := FinishStep(m1).value;
    PlayOne(m, Feed, w);
    PlayOne(m1, Finish, w);
    PlayOne(m2, Advance, w);
    PlayBoth(m, [Feed], [Finish], w);
    PlayBoth(m, [Feed] + [Finish], [Advance], w);
    events := [Feed] + [Finish] + [Advance];
    var (b, js) := SkipTo(m.base + w.cfg.size, w.chain[m.pos].num, m.irr[|m.irr| - 1], w.cfg.size);
    assert ([Job(m.base, m.irr)] + js)[1..] == js;
  }

  lemma {:induction false} StoreBoth(store: map<nat, Files>, a: seq<Job>, b: seq<Job>)
    ensures StoreJobs(store, a + b) == StoreJobs(StoreJobs(store, a), b)
    decreases |a|
  {
    if a == [] {
      assert a + b == b;
    } else {
      StoreBoth(store[a[0].base := From(a[0].blocks, a[0].base)], a[1..], b);
      assert (a + b)[1..] == a[1..] + b;
    }
  }

  /** Contiguous jobs have distinct bases, so each leaves its own bundle in the store. */
  lemma {:induction false} EachJobStored(store: map<nat, Files>, jobs: seq<Job>, base0: nat, end: nat, size: nat)
    requires 0 < size && Contiguous(jobs, base0, end, size) && base0 % size == 0
    ensures forall j | j in jobs ::
              j.base in StoreJobs(store, jobs) && StoreJobs(store, jobs)[j.base] == From(j.blocks, j.base)
  {
    if jobs != [] {
      var low, j := jobs[..|jobs| - 1], jobs[|jobs| - 1];
      assert jobs == low + [j];
      EachJobStored(store, low, base0, end - size, size);
      ContiguousBases(low, base0, end - size, size);
      StoreBoth(store, low, [j]);
      JobsAfterOne(StoreJobs(store, low), j, []);
      assert [j] + [] == [j];
    }
  }
}
