/**
 Without a crash every interleaving of the merger is the bundler: in whatever order stores
 finish, bundles are skipped and files are pruned, what it comes to is what the bundler's
 steps give for the blocks fed.
 */
module MergerRefinement {
  import opened Options
  import opened Multiples
  import opened Bundler
  import opened Partition
  import opened MergerProtocol

  ghost predicate AtRest(m: Machine) {
    m.pc.Idle? && m.flight.None?
  }

  /** What the work in progress comes to: the bundler's state, the store, the number of blocks fed. */
  datatype Outlook = Outlook(core: Core, store: map<nat, Files>, fed: nat)

  function Settled(m: Machine): map<nat, Files> {
    match m.flight
    case None => m.store
    case Some(fl) => m.store[fl.job.base := From(fl.job.blocks, fl.job.base)]
  }

  function Closed(m: Machine, base: nat, irr: Files, size: nat): Outlook
    requires 0 < size && !m.pc.Idle?
  {
    var (b, js) := SkipTo(base, m.pc.obf.num, m.pc.last, size);
    Outlook(Core(b, irr, m.enforce), StoreJobs(Settled(m), js), m.pos + 1)
  }

  function Ahead(m: Machine, size: nat): Outlook
    requires 0 < size
  {
    match m.pc
    case Idle => Outlook(Core(m.base, m.irr, m.enforce), Settled(m), m.pos)
    case Launched(obf, last) => Closed(m, m.base + size, [last, obf], size)
    case Skipping(_, _) => Closed(m, m.base, m.irr, size)
    case SkipStoring(_, _) => Closed(m, m.base + size, m.irr, size)
    case SkipStored(_, _) => Closed(m, m.base + size, m.irr, size)
  }

  /** The bundler's step on the outlook. */
  function Next(o: Outlook, f: OneBlockFile, cfg: Config): Outlook
    requires 0 < cfg.size
  {
    var (c, js, _) := Accept(o.core, f, cfg);
    Outlook(c, StoreJobs(o.store, js), o.fed + 1)
  }

  // ---- each step

  lemma FeedRefines(m: Machine, w: World)
    requires 0 < w.cfg.size && FeedStep(m, w).Some?
    ensures var o, o' := Ahead(m, w.cfg.size), Ahead(FeedStep(m, w).value, w.cfg.size);
            && o.fed < |w.chain| && o' == Next(o, w.chain[o.fed], w.cfg)
            && !Accept(o.core, w.chain[o.fed], w.cfg).2.NotOnBoundary?
            && !Accept(o.core, w.chain[o.fed], w.cfg).2.NothingPending?
  {
    if m.base + w.cfg.size <= w.chain[m.pos].num {
      CloseRefines(m, w);
    }
  }

  lemma CloseRefines(m: Machine, w: World)
    requires 0 < w.cfg.size && FeedStep(m, w).Some? && m.base + w.cfg.size <= w.chain[m.pos].num
    ensures var o := Ahead(m, w.cfg.size);
            && Ahead(FeedStep(m, w).value, w.cfg.size) == Next(o, w.chain[m.pos], w.cfg)
            && !Accept(o.core, w.chain[m.pos], w.cfg).2.NotOnBoundary?
            && !Accept(o.core, w.chain[m.pos], w.cfg).2.NothingPending?
  {
    var f, size := w.chain[m.pos], w.cfg.size;
    var (b, js) := SkipTo(m.base + size, f.num, m.irr[|m.irr| - 1], size);
    JobsAfterOne(m.store, Job(m.base, m.irr), js);
  }

  lemma FinishRefines(m: Machine, size: nat)
    requires 0 < size && FinishStep(m).Some?
    ensures Ahead(FinishStep(m).value, size) == Ahead(m, size)
  {
  }

  lemma SkipRefines(m: Machine, size: nat)
    requires 0 < size && SkipStep(m, size).Some?
    ensures Ahead(SkipStep(m, size).value, size) == Ahead(m, size)
  {
    if m.pc.obf.num > m.base + size {
      SkipToNext(m.base, m.pc.obf.num, m.pc.last, size, m.store);
    }
  }

  lemma AdvanceRefines(m: Machine, e: Event, w: World)
    requires 0 < w.cfg.size && Step(m, e, w).Some? && (e.Advance? || e.SkipAdvance?)
    ensures Ahead(Step(m, e, w).value, w.cfg.size) == Ahead(m, w.cfg.size)
  {
  }

  lemma SameAhead(m: Machine, m': Machine, size: nat)
    requires 0 < size && m'.(seen := m.seen, deleted := m.deleted) == m
    ensures Ahead(m', size) == Ahead(m, size)
  {
    assert Settled(m') == Settled(m);
  }

  /** Only feeding a block changes the outlook, and it does so as the bundler's step. */
  lemma StepRefines(m: Machine, e: Event, w: World)
    requires 0 < w.cfg.size && !e.Crash? && Step(m, e, w).Some?
    ensures var o, o' := Ahead(m, w.cfg.size), Ahead(Step(m, e, w).value, w.cfg.size);
            if !e.Feed? then o' == o
            else
              var out := Accept(o.core, w.chain[o.fed], w.cfg).2;
              o.fed < |w.chain| && o' == Next(o, w.chain[o.fed], w.cfg) && !out.NotOnBoundary? && !out.NothingPending?
  {
    match e
    case Feed => FeedRefines(m, w);
    case Finish => FinishRefines(m, w.cfg.size);
    case Skip => SkipRefines(m, w.cfg.size);
    case Advance => AdvanceRefines(m, e, w);
    case SkipAdvance => AdvanceRefines(m, e, w);
    case See(_) => SameAhead(m, Step(m, e, w).value, w.cfg.size);
    case Prune(_) => SameAhead(m, Step(m, e, w).value, w.cfg.size);
    case Crash(_, _) =>
  }

  // ---- every run

  /** From `o` to `o'` by the bundler's run over the blocks fed in between. */
  ghost predicate BundlerRun(o: Outlook, o': Outlook, w: World)
    requires 0 < w.cfg.size
  {
    && o.fed <= o'.fed <= |w.chain|
    && var (c, jobs, n, out) := Bundler.Feed(o.core, w.chain[o.fed..o'.fed], w.cfg.(stop := 0));
       GoesOn(out) && o' == Outlook(c, StoreJobs(o.store, jobs), o.fed + n)
  }

  lemma OneMoreFed(o: Outlook, o': Outlook, w: World)
    requires 0 < w.cfg.size && BundlerRun(o, o', w) && o'.fed < |w.chain|
    requires var out := Accept(o'.core, w.chain[o'.fed], w.cfg).2; !out.NotOnBoundary? && !out.NothingPending?
    ensures BundlerRun(o, Next(o', w.chain[o'.fed], w.cfg), w)
  {
    var f, cfg := w.chain[o'.fed], w.cfg.(stop := 0);
    var files := w.chain[o.fed..o'.fed];
    assert w.chain[o.fed..o'.fed + 1] == files + [f] && (files + [f])[..|files|] == files;
    WithoutStop(o'.core, f, w.cfg);
    StoreBoth(o.store, Bundler.Feed(o.core, files, cfg).1, Accept(o'.core, f, cfg).1);
  }

  /** The stop block changes nothing but the outcome. */
  lemma WithoutStop(c: Core, f: OneBlockFile, cfg: Config)
    requires 0 < cfg.size
    ensures var (a, b) := (Accept(c, f, cfg), Accept(c, f, cfg.(stop := 0)));
            && a.0 == b.0 && a.1 == b.1
            && (!a.2.NotOnBoundary? && !a.2.NothingPending? ==> GoesOn(b.2))
  {
  }

  /**
   Whatever the interleaving, without a crash the machine's outlook is the bundler's run over
   the blocks fed; at rest the outlook is the machine itself.
   */
  lemma {:induction false} RunRefines(m: Machine, events: seq<Event>, w: World)
    requires 0 < w.cfg.size && Uncrashed(events) && Ahead(m, w.cfg.size).fed <= |w.chain|
    ensures BundlerRun(Ahead(m, w.cfg.size), Ahead(Play(m, events, w), w.cfg.size), w)
    decreases |events|
  {
    if events == [] {
      var o := Ahead(m, w.cfg.size);
      assert w.chain[o.fed..o.fed] == [];
    } else {
      var low, e := events[..|events| - 1], events[|events| - 1];
      assert events == low + [e];
      RunRefines(m, low, w);
      PlayBoth(m, low, [e], w);
      var m' := Play(m, low, w);
      assert [e][1..] == [];
      if Step(m', e, w).Some? {
        StepRefines(m', e, w);
        if e.Feed? {
          OneMoreFed(Ahead(m, w.cfg.size), Ahead(m', w.cfg.size), w);
        }
      }
    }
  }

  // ---- what one life of the merger stores

  /** All bundles of `a` are in `b`, unchanged. */
  ghost predicate Kept(a: map<nat, Files>, b: map<nat, Files>) {
    forall k | k in a :: k in b && b[k] == a[k]
  }

  /** Contiguous jobs add the bundles of their own bases and leave those below alone. */
  lemma {:induction false} StoreJobsIs(store: map<nat, Files>, jobs: seq<Job>, lo: nat, end: nat, size: nat)
    requires 0 < size && Contiguous(jobs, lo, end, size) && lo % size == 0
    requires forall k | k in store :: k < lo
    ensures Kept(store, StoreJobs(store, jobs))
    ensures forall k: nat :: k in StoreJobs(store, jobs) <==> k in store || (lo <= k < end && k % size == 0)
  {
    if jobs != [] {
      var low, j := jobs[..|jobs| - 1], jobs[|jobs| - 1];
      assert jobs == low + [j] && [j][1..] == [];
      StoreJobsIs(store, low, lo, end - size, size);
      ContiguousBases(low, lo, end - size, size);
      StoreBoth(store, low, [j]);
      OneBundle(end - size, size);
    }
  }

  lemma OneBundle(b: nat, size: nat)
    requires 0 < size && b % size == 0
    ensures forall k: nat :: b <= k < b + size && k % size == 0 <==> k == b
  {
    forall k: nat | b <= k < b + size && k % size == 0
      ensures k == b
    {
      BetweenMultiples(b, k, size);
    }
  }

  /** A life that starts at `t`, with nothing in progress and all bundles below `t` stored. */
  ghost predicate Begins(m: Machine, w: World, t: nat) {
    && Inv(m, w, t) && AtRest(m) && m.irr == [] && m.base == t
    && (m.enforce <==> t == w.base0) && IsFirstMissing(m.store, w, t)
  }

  /** The whole chain is fed and stored as far as it goes. */
  ghost predicate Ends(m: Machine, w: World) {
    AtRest(m) && m.pos == |w.chain|
  }

  /**
   What a life over the blocks `rec` adds to the store `before`: from `t` up to `end` each
   bundle with what the partition says, `end` being as far as the last block goes.
   */
  ghost predicate LifeStore(store: map<nat, Files>, before: map<nat, Files>, rec: Files, t: nat, end: nat, size: nat)
    requires 0 < size
  {
    && Kept(before, store)
    && (forall k: nat :: k in store <==> k in before || (t <= k < end && k % size == 0))
    && (forall k | k in store && t <= k :: store[k] == Stored(rec, k, size))
    && t <= end && end % size == 0
    && if rec == [] then end == t else
         && end <= rec[|rec| - 1].num <= end + size
         && (Late(rec, |rec| - 1, size) <==> rec[|rec| - 1].num == end + size)
  }

  lemma JobsAreLife(before: map<nat, Files>, c: Core, jobs: seq<Job>, rec: Files, t: nat, size: nat)
    requires Tracks(c, jobs, rec, t, size) && forall k | k in before :: k < t
    ensures LifeStore(StoreJobs(before, jobs), before, rec, t, c.base, size)
  {
    StoreJobsIs(before, jobs, t, c.base, size);
    ContiguousBases(jobs, t, c.base, size);
    EachJobStored(before, jobs, t, c.base, size);
    var store := StoreJobs(before, jobs);
    forall k | k in store && t <= k
      ensures store[k] == Stored(rec, k, size)
    {
      var j := JobAt(jobs, t, c.base, size, k);
    }
  }

  lemma FromSplit(a: Files, low: Files, f: OneBlockFile, lo: nat)
    ensures From(a, lo) + From(low, lo) + (if lo <= f.num then [f] else []) == From(a, lo) + From(low + [f], lo)
  {
    FromAppend(low, f, lo);
  }

  lemma {:induction false} FromBoth(a: Files, b: Files, lo: nat)
    ensures From(a + b, lo) == From(a, lo) + From(b, lo)
  {
    if b == [] {
      assert a + b == a;
    } else {
      var low, f := b[..|b| - 1], b[|b| - 1];
      FromBoth(a, low, lo);
      assert a + b == (a + low) + [f];
      FromAppend(a + low, f, lo);
      assert b == low + [f];
      FromSplit(a, low, f, lo);
    }
  }

  lemma {:induction false} RisingRest(files: Files, n: nat)
    requires Rising(files) && n <= |files|
    ensures Rising(files[n..])
    decreases |files|
  {
    if n < |files| {
      var low, f := files[..|files| - 1], files[|files| - 1];
      RisingRest(low, n);
      assert files[n..] == low[n..] + [f];
    }
  }

  /** In any order of steps, a life without a crash that takes the whole chain stores the same. */
  lemma LifeStores(m: Machine, events: seq<Event>, w: World, t: nat)
    requires Begins(m, w, t) && Uncrashed(events) && Ends(Play(m, events, w), w)
    ensures var m' := Play(m, events, w); LifeStore(m'.store, m.store, From(w.chain, t), t, m'.base, w.cfg.size)
  {
    var cfg := w.cfg.(stop := 0);
    RunRefines(m, events, w);
    var files := w.chain[m.pos..];
    assert w.chain[m.pos..|w.chain|] == files && files[..|files|] == files && w.chain == w.chain[..m.pos] + files;
    var (c, jobs, n, out) := Bundler.Feed(Core(t, [], m.enforce), files, cfg);
    RisingRest(w.chain, m.pos);
    EveryRunPartitions(files, t, m.enforce, cfg, c, jobs, n, out);
    FromBoth(w.chain[..m.pos], files, t);
    assert [] + From(files, t) == From(files, t);
    JobsAreLife(m.store, c, jobs, From(files, t), t, cfg.size);
  }

  /** So any two such lives from the same start end with the same store. */
  lemma OneEnd(m: Machine, a: seq<Event>, b: seq<Event>, w: World)
    requires 0 < w.cfg.size && AtRest(m) && m.pos <= |w.chain| && Uncrashed(a) && Uncrashed(b)
    requires Ends(Play(m, a, w), w) && Ends(Play(m, b, w), w)
    ensures Play(m, a, w).store == Play(m, b, w).store
  {
    RunRefines(m, a, w);
    RunRefines(m, b, w);
  }

  // ---- a run that is cut short has stored a part of it

  lemma {:induction false} JobsGrow(c: Core, files: Files, n: nat, cfg: Config)
    requires 0 < cfg.size && n <= |files| && GoesOn(Bundler.Feed(c, files, cfg).3)
    ensures GoesOn(Bundler.Feed(c, files[..n], cfg).3)
    ensures Bundler.Feed(c, files[..n], cfg).1 <= Bundler.Feed(c, files, cfg).1
  {
    if n == |files| {
      assert files[..n] == files;
    } else {
      JobsGrow(c, files[..|files| - 1], n, cfg);
      assert files[..|files| - 1][..n] == files[..n];
    }
  }

  lemma {:induction false} SkipJobs(base: nat, n: nat, last: OneBlockFile, size: nat, b: nat, js: seq<Job>)
    requires 0 < size && (b, js) == SkipTo(base, n, last, size)
    ensures Contiguous(js, base, b, size)
    decreases if base < n then n - base else 0
  {
    if n > base + size {
      var rest := SkipTo(base + size, n, last, size).1;
      SkipJobs(base + size, n, last, size, b, rest);
      OneJob(Job(base, [last]), rest, base + size, b, size);
    }
  }

  /** The work in progress adds bundles from the first missing one up. */
  lemma SettledKeeps(m: Machine, w: World, top: nat)
    requires WorldOk(w) && StoreInv(m, w, top) && PcInv(m, w, top) && FlightInv(m, w, top)
    ensures Kept(m.store, Settled(m))
    ensures !m.pc.Idle? ==>
              var base := if m.pc.Skipping? then m.base else m.base + w.cfg.size;
              base % w.cfg.size == 0 && forall k | k in Settled(m) :: k < base
  {
    NextMultiple(top, w.cfg.size);
  }

  lemma ClosedKeeps(m: Machine, base: nat, irr: Files, size: nat)
    requires 0 < size && !m.pc.Idle? && base % size == 0 && forall k | k in Settled(m) :: k < base
    ensures Kept(Settled(m), Closed(m, base, irr, size).store)
  {
    var (b, js) := SkipTo(base, m.pc.obf.num, m.pc.last, size);
    SkipJobs(base, m.pc.obf.num, m.pc.last, size, b, js);
    StoreJobsIs(Settled(m), js, base, b, size);
  }

  /** What is stored already is in the outlook. */
  lemma StoredIsAhead(m: Machine, w: World, top: nat)
    requires Inv(m, w, top)
    ensures Kept(m.store, Ahead(m, w.cfg.size).store)
  {
    SettledKeeps(m, w, top);
    match m.pc
    case Idle =>
    case Launched(obf, last) => ClosedKeeps(m, m.base + w.cfg.size, [last, obf], w.cfg.size);
    case Skipping(_, _) => ClosedKeeps(m, m.base, m.irr, w.cfg.size);
    case SkipStoring(_, _) => ClosedKeeps(m, m.base + w.cfg.size, m.irr, w.cfg.size);
    case SkipStored(_, _) => ClosedKeeps(m, m.base + w.cfg.size, m.irr, w.cfg.size);
  }

  /** Without a crash, whatever is stored at any moment is what the whole run stores. */
  lemma StoredForGood(w: World, a: seq<Event>, c: seq<Event>)
    requires WorldOk(w) && Uncrashed(a) && Uncrashed(c) && Ends(Play(InitMachine(w), c, w), w)
    ensures Kept(Play(InitMachine(w), a, w).store, Play(InitMachine(w), c, w).store)
  {
    var cfg, core := w.cfg.(stop := 0), Core(w.base0, [], true);
    var m := Play(InitMachine(w), a, w);
    InitKeeps(w);
    var top := PlayKeeps(InitMachine(w), a, w, w.base0);
    StoredIsAhead(m, w, top);
    RunRefines(InitMachine(w), a, w);
    RunRefines(InitMachine(w), c, w);
    var n := Ahead(m, w.cfg.size).fed;
    assert w.chain[0..n] == w.chain[..n] && w.chain[0..|w.chain|] == w.chain;
    JobsGrow(core, w.chain, n, cfg);
    PartKept(w, n, core, cfg);
  }

  lemma PartKept(w: World, n: nat, core: Core, cfg: Config)
    requires WorldOk(w) && n <= |w.chain| && core == Core(w.base0, [], true) && cfg == w.cfg.(stop := 0)
    requires GoesOn(Bundler.Feed(core, w.chain, cfg).3) && GoesOn(Bundler.Feed(core, w.chain[..n], cfg).3)
    requires Bundler.Feed(core, w.chain[..n], cfg).1 <= Bundler.Feed(core, w.chain, cfg).1
    ensures Kept(StoreJobs(map[], Bundler.Feed(core, w.chain[..n], cfg).1),
                 StoreJobs(map[], Bundler.Feed(core, w.chain, cfg).1))
  {
    var (c, jobs, k, out) := Bundler.Feed(core, w.chain[..n], cfg);
    var (c', jobs', k', out') := Bundler.Feed(core, w.chain, cfg);
    RisingPrefix(w.chain, n);
    EveryRunPartitions(w.chain[..n], w.base0, true, cfg, c, jobs, k, out);
    EveryRunPartitions(w.chain, w.base0, true, cfg, c', jobs', k', out');
    EachJobStored(map[], jobs, w.base0, c.base, cfg.size);
    EachJobStored(map[], jobs', w.base0, c'.base, cfg.size);
    StoreJobsIs(map[], jobs, w.base0, c.base, cfg.size);
    forall b | b in StoreJobs(map[], jobs)
      ensures b in StoreJobs(map[], jobs') && StoreJobs(map[], jobs')[b] == StoreJobs(map[], jobs)[b]
    {
      var j := JobAt(jobs, w.base0, c.base, cfg.size, b);
      assert j in jobs';
    }
  }
}
