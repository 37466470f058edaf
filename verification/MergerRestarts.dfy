/**
 What a merger that is left to run ends with, after a crash and restart or without one: when
 the store is complete, and when it is the very store of a run without a crash.
 */
module MergerRestarts {
  import opened Options
  import opened Multiples
  import opened Bundler
  import opened Partition
  import opened MergerProtocol
  import opened MergerRefinement

  /** The place of the first file, from `i` on, that is not below `n`. */
  function FirstFrom(files: Files, i: nat, n: nat): (p: nat)
    requires i <= |files|
    ensures i <= p <= |files| && (p < |files| ==> n <= files[p].num)
    ensures forall j | i <= j < p :: files[j].num < n
    decreases |files| - i
  {
    if i == |files| || n <= files[i].num then i else FirstFrom(files, i + 1, n)
  }

  /**
   The next block from the base up, if any, passes the boundary check, and with nothing pending
   it falls in the bundle.
   */
  ghost predicate CanGoOn(m: Machine, w: World) {
    m.pos <= |w.chain| &&
    var p := FirstFrom(w.chain, m.pos, m.base);
    p < |w.chain| ==>
      && (m.enforce ==> w.chain[p].num == m.base || w.chain[p].num == w.cfg.first)
      && (m.irr == [] ==> w.chain[p].num < m.base + w.cfg.size)
  }

  // ---- feeding what is left of the chain

  lemma FeedOne(m: Machine, w: World) returns (events: seq<Event>)
    requires 0 < w.cfg.size && AtRest(m) && m.pos < |w.chain| && CanGoOn(m, w)
    ensures var m' := Play(m, events, w);
            var f := w.chain[m.pos];
            var (c, js, out) := Accept(Core(m.base, m.irr, m.enforce), f, w.cfg);
            && AtRest(m') && m'.pos == m.pos + 1 && CanGoOn(m', w)
            && !out.NotOnBoundary? && !out.NothingPending?
            && Core(m'.base, m'.irr, m'.enforce) == c && m'.store == StoreJobs(m.store, js)
            && (if f.num < m.base then m'.base == m.base && m'.irr == m.irr else m'.irr != [])
    ensures Uncrashed(events)
  {
    var f := w.chain[m.pos];
    assert FirstFrom(w.chain, m.pos, m.base) == if f.num < m.base then FirstFrom(w.chain, m.pos + 1, m.base) else m.pos;
    events := SmallStepsRefineAccept(m, w);
    AcceptGoesOn(Core(m.base, m.irr, m.enforce), f, w.cfg);
  }

  /** After a block that is not below the base, something is pending and nothing enforced. */
  lemma AcceptGoesOn(c: Core, f: OneBlockFile, cfg: Config)
    requires 0 < cfg.size
    ensures var (c', js, out) := Accept(c, f, cfg);
            && (f.num < c.base ==> c' == c)
            && (c.base <= f.num && !out.NotOnBoundary? && !out.NothingPending? ==> c'.irr != [] && !c'.enforce)
  {
  }

  lemma {:induction false} FeedRest(m: Machine, w: World) returns (events: seq<Event>)
    requires 0 < w.cfg.size && AtRest(m) && CanGoOn(m, w)
    ensures var m' := Play(m, events, w);
            && Ends(m', w)
            && (m.irr != [] || FirstFrom(w.chain, m.pos, m.base) < |w.chain| ==> m'.irr != [])
    ensures Uncrashed(events)
    decreases |w.chain| - m.pos
  {
    events := [];
    if m.pos < |w.chain| {
      var one := FeedOne(m, w);
      var rest := FeedRest(Play(m, one, w), w);
      PlayBoth(m, one, rest, w);
      events := one + rest;
    }
  }

  // ---- the final store

  /** Every bundle below the last block's own, each with exactly its blocks. */
  ghost predicate Complete(store: map<nat, Files>, w: World)
    requires 0 < w.cfg.size && w.chain != []
  {
    && (forall k: nat :: k in store <==> Cut(w, k) && k < ToBase(w.chain[|w.chain| - 1].num, w.cfg.size))
    && ExactStore(store, w)
  }

  ghost predicate ExactStore(store: map<nat, Files>, w: World) {
    forall k | k in store :: store[k] == Within(w.chain, k, k + w.cfg.size)
  }

  /** A block from the second one at or above `t` on skips onto a boundary. */
  ghost predicate SkipsFrom(w: World, t: nat)
    requires 0 < w.cfg.size
  {
    exists i: nat :: SkipsOntoBoundary(w.chain, i, w.cfg.size) && t <= w.chain[i - 1].num
  }

  lemma BaseOf(b: nat, n: nat, size: nat)
    requires 0 < size && b % size == 0 && b <= n < b + size
    ensures ToBase(n, size) == b
  {
    var k := ToBase(n, size);
    if k < b {
      BetweenMultiples(k, b, size);
    } else {
      BetweenMultiples(b, k, size);
    }
  }

  lemma {:induction false} WithinOfFrom(files: Files, base0: nat, lo: nat, hi: nat)
    requires base0 <= lo
    ensures Within(From(files, base0), lo, hi) == Within(files, lo, hi)
  {
    if files != [] {
      var low, f := files[..|files| - 1], files[|files| - 1];
      WithinOfFrom(low, base0, lo, hi);
      WithinOneMore(From(low, base0), f, base0, lo, hi);
    }
  }

  lemma WithinOneMore(rec: Files, f: OneBlockFile, base0: nat, lo: nat, hi: nat)
    requires base0 <= lo
    ensures Within(rec + (if base0 <= f.num then [f] else []), lo, hi)
            == Within(rec, lo, hi) + if lo <= f.num < hi then [f] else []
  {
    if base0 <= f.num {
      WithinAppend(rec, f, lo, hi);
    } else {
      assert rec + [] == rec;
    }
  }

  lemma {:induction false} FromIsTail(files: Files, lo: nat, p: nat)
    requires p <= |files| && (forall j | 0 <= j < p :: files[j].num < lo)
    requires forall j | p <= j < |files| :: lo <= files[j].num
    ensures From(files, lo) == files[p..]
  {
    if p == |files| {
      NoneFrom(files, lo);
    } else {
      var low, f := files[..|files| - 1], files[|files| - 1];
      FromIsTail(low, lo, p);
      assert files[p..] == low[p..] + [f];
    }
  }

  lemma AcceptedIsTail(chain: Files, base0: nat)
    requires Rising(chain)
    ensures From(chain, base0) == chain[FirstFrom(chain, 0, base0)..]
  {
    var p := FirstFrom(chain, 0, base0);
    forall j | p <= j < |chain|
      ensures base0 <= chain[j].num
    {
      if p < j {
        RisingAt(chain, p, j);
      }
    }
    FromIsTail(chain, base0, p);
  }

  lemma LateSkips(w: World, t: nat, rec: Files, i: nat)
    requires WorldOk(w) && rec == From(w.chain, t) && i < |rec| && Late(rec, i, w.cfg.size)
    ensures SkipsFrom(w, t)
  {
    AcceptedIsTail(w.chain, t);
    var j := LateNeedsSkip(rec, i, w.cfg.size);
    FromIsPart(w.chain, t);
    assert rec[j - 1] in rec;
    SkipInChain(w, t, FirstFrom(w.chain, 0, t), j);
  }

  lemma SkipInChain(w: World, t: nat, p: nat, j: nat)
    requires 0 < w.cfg.size && p <= |w.chain| && SkipsOntoBoundary(w.chain[p..], j, w.cfg.size)
    requires t <= w.chain[p..][j - 1].num
    ensures SkipsFrom(w, t)
  {
    assert SkipsOntoBoundary(w.chain, p + j, w.cfg.size);
  }

  /** Without such a skip no block fed in this life is late. */
  lemma NoneLate(w: World, t: nat, rec: Files)
    requires WorldOk(w) && !SkipsFrom(w, t) && rec == From(w.chain, t)
    ensures forall i: nat | i < |rec| :: !Late(rec, i, w.cfg.size)
  {
    forall i: nat | i < |rec| && Late(rec, i, w.cfg.size)
      ensures false
    {
      LateSkips(w, t, rec, i);
    }
  }

  lemma LastFrom(chain: Files, t: nat)
    requires chain != [] && t <= chain[|chain| - 1].num
    ensures var rec := From(chain, t); rec != [] && rec[|rec| - 1] == chain[|chain| - 1]
  {
  }

  lemma ExactBundle(w: World, t: nat, rec: Files, k: nat)
    requires 0 < w.cfg.size && rec == From(w.chain, t) && t <= k
    requires forall i: nat | i < |rec| :: !Late(rec, i, w.cfg.size)
    ensures Stored(rec, k, w.cfg.size) == Within(w.chain, k, k + w.cfg.size)
  {
    WithinOfFrom(w.chain, t, k, k + w.cfg.size);
    assert Within(rec, k, k + w.cfg.size) + [] == Within(rec, k, k + w.cfg.size);
  }

  lemma ExactBundles(w: World, t: nat, rec: Files)
    requires WorldOk(w) && !SkipsFrom(w, t) && rec == From(w.chain, t)
    ensures forall k: nat | t <= k :: Stored(rec, k, w.cfg.size) == Within(w.chain, k, k + w.cfg.size)
    ensures rec != [] ==> !Late(rec, |rec| - 1, w.cfg.size)
  {
    NoneLate(w, t, rec);
    forall k: nat | t <= k
      ensures Stored(rec, k, w.cfg.size) == Within(w.chain, k, k + w.cfg.size)
    {
      ExactBundle(w, t, rec, k);
    }
  }

  lemma LifeIsComplete(store: map<nat, Files>, before: map<nat, Files>, w: World, t: nat, rec: Files, end: nat)
    requires 0 < w.cfg.size && LifeStore(store, before, rec, t, end, w.cfg.size) && ExactStore(before, w)
    requires forall k: nat :: k in before <==> Cut(w, k) && k < t
    requires forall k: nat | t <= k :: Stored(rec, k, w.cfg.size) == Within(w.chain, k, k + w.cfg.size)
    requires w.chain != [] && w.base0 <= t && end == ToBase(w.chain[|w.chain| - 1].num, w.cfg.size)
    ensures Complete(store, w)
  {
  }

  lemma EndCompletes(m: Machine, b: seq<Event>, w: World, t: nat)
    requires Begins(m, w, t) && Uncrashed(b) && Ends(Play(m, b, w), w)
    requires w.chain != [] && t <= w.chain[|w.chain| - 1].num
    requires ExactStore(m.store, w) && !SkipsFrom(w, t)
    ensures Complete(Play(m, b, w).store, w)
  {
    var rec, m' := From(w.chain, t), Play(m, b, w);
    LifeStores(m, b, w, t);
    ExactBundles(w, t, rec);
    LastFrom(w.chain, t);
    BaseOf(m'.base, rec[|rec| - 1].num, w.cfg.size);
    LifeIsComplete(m'.store, m.store, w, t, rec, m'.base);
  }

  // ---- a machine that cannot go on

  /** Nothing is pending, and the next block is refused or crashes the bundler; block `p` is that block. */
  ghost predicate Stuck(m: Machine, w: World, t: nat, p: nat)
    requires 0 < w.cfg.size
  {
    && AtRest(m) && m.irr == [] && m.base == t && m.pos <= p < |w.chain|
    && t <= w.chain[p].num && (forall j | 0 <= j < p :: w.chain[j].num < t)
    && (m.enforce <==> t == w.base0)
    && ((m.enforce && w.chain[p].num != t && w.chain[p].num != w.cfg.first) || t + w.cfg.size <= w.chain[p].num)
    && IsFirstMissing(m.store, w, t)
  }

  /** No step, not even another crash, gets a stuck machine on. */
  lemma StuckStays(m: Machine, e: Event, w: World, t: nat, p: nat)
    requires Inv(m, w, t) && Stuck(m, w, t, p) && Step(m, e, w).Some?
    ensures var m' := Step(m, e, w).value; Inv(m', w, t) && Stuck(m', w, t, p) && m'.store == m.store
  {
    StepKeeps(m, e, w, t);
    if e.Crash? {
      CrashStaysStuck(m, w, t, p, e.top, e.lib);
    } else {
      StepStaysStuck(m, e, w, t, p);
    }
  }

  lemma StepStaysStuck(m: Machine, e: Event, w: World, t: nat, p: nat)
    requires 0 < w.cfg.size && Stuck(m, w, t, p) && Step(m, e, w).Some? && !e.Crash?
    ensures var m' := Step(m, e, w).value; !e.Finish? && Stuck(m', w, t, p) && m'.store == m.store
  {
    if e.Feed? {
      assert w.chain[m.pos].num < t;
    }
  }

  lemma CrashStaysStuck(m: Machine, w: World, t: nat, p: nat, top: nat, lib: nat)
    requires Inv(m, w, t) && Stuck(m, w, t, p) && CrashStep(m, w, top, lib).Some?
    ensures Stuck(CrashStep(m, w, top, lib).value, w, t, p)
  {
    CrashKeeps(m, w, t, top, lib);
    if t != w.base0 {
      var k := t - w.cfg.size;
      ContentIsBelow(w, k, m.store[k], m.store[k][|m.store[k]| - 1]);
      if p < lib {
        RisingAt(w.chain, p, lib);
      }
    }
  }

  lemma {:induction false} StuckForever(m: Machine, events: seq<Event>, w: World, t: nat, p: nat)
    requires Inv(m, w, t) && Stuck(m, w, t, p)
    ensures var m' := Play(m, events, w); Stuck(m', w, t, p) && m'.store == m.store
    decreases |events|
  {
    if events != [] {
      var next := Step(m, events[0], w);
      if next.Some? {
        StuckStays(m, events[0], w, t, p);
        StuckForever(next.value, events[1..], w, t, p);
      } else {
        StuckForever(m, events[1..], w, t, p);
      }
    }
  }

  lemma CannotGoOn(m: Machine, w: World, t: nat)
    requires Begins(m, w, t) && !CanGoOn(m, w)
    ensures Stuck(m, w, t, FirstFrom(w.chain, m.pos, t))
  {
    var p := FirstFrom(w.chain, m.pos, t);
    forall j | 0 <= j < p
      ensures w.chain[j].num < t
    {
      if j < m.pos {
        assert w.chain[j] in w.chain[..m.pos];
      }
    }
  }

  /** Only a life that could go on gets to the end of the chain. */
  lemma EndsWentOn(m: Machine, b: seq<Event>, w: World, t: nat)
    requires Begins(m, w, t) && Ends(Play(m, b, w), w)
    ensures CanGoOn(m, w)
  {
    if !CanGoOn(m, w) {
      CannotGoOn(m, w, t);
      StuckForever(m, b, w, t, FirstFrom(w.chain, m.pos, t));
    }
  }

  // ---- what no crash undoes

  lemma FinishStays(m: Machine, w: World, top: nat)
    requires WorldOk(w) && StoreInv(m, w, top) && FlightInv(m, w, top) && FinishStep(m).Some?
    ensures Kept(m.store, FinishStep(m).value.store)
  {
    assert top !in m.store;
  }

  lemma OnlyFinishStores(m: Machine, e: Event, w: World)
    requires 0 < w.cfg.size && Step(m, e, w).Some? && !e.Finish?
    ensures Step(m, e, w).value.store == m.store
  {
  }

  /** Every step leaves what is stored as it is. */
  lemma StoredStays(m: Machine, e: Event, w: World, top: nat)
    requires Inv(m, w, top) && Step(m, e, w).Some?
    ensures Kept(m.store, Step(m, e, w).value.store)
  {
    if e.Finish? {
      FinishStays(m, w, top);
    } else {
      OnlyFinishStores(m, e, w);
    }
  }

  lemma {:induction false} StoredStaysForever(m: Machine, events: seq<Event>, w: World, top: nat)
    requires Inv(m, w, top)
    ensures Kept(m.store, Play(m, events, w).store)
    decreases |events|
  {
    if events != [] {
      var next := Step(m, events[0], w);
      if next.Some? {
        StoredStays(m, events[0], w, top);
        StepKeeps(m, events[0], w, top);
        StoredStaysForever(next.value, events[1..], w, TopAfter(m, events[0], w, top));
      } else {
        StoredStaysForever(m, events[1..], w, top);
      }
    }
  }

  /** The bundle at `k` is not stored as an empty one, nor about to be. */
  ghost predicate NotEmpty(m: Machine, k: nat) {
    && (k in m.store ==> m.store[k] != [])
    && (m.flight.Some? && m.flight.value.job.base == k ==> From(m.flight.value.job.blocks, k) != [])
  }

  /** Block `i` is on the upper boundary of the bundle at `k`, which has no block of its own. */
  ghost predicate SkipsOver(w: World, i: nat, k: nat) {
    0 < i < |w.chain| && w.chain[i].num == k + w.cfg.size && w.chain[i - 1].num < k
  }

  /** The bundle that a block skips over gets that block, whenever it is stored at all. */
  lemma NotEmptyStays(m: Machine, e: Event, w: World, top: nat, i: nat, k: nat)
    requires Inv(m, w, top) && Step(m, e, w).Some? && SkipsOver(w, i, k) && NotEmpty(m, k)
    ensures NotEmpty(Step(m, e, w).value, k)
  {
    if e.Feed? {
      if m.base == k && k + w.cfg.size <= w.chain[m.pos].num {
        ClosesNotEmpty(m, w, i, k);
      }
    } else if e.Skip? {
      if m.base == k && m.pc.obf.num > k + w.cfg.size {
        NoSkipPast(w, m.pos, i, k);
      }
    }
  }

  lemma ClosesNotEmpty(m: Machine, w: World, i: nat, k: nat)
    requires WorldOk(w) && PendingInv(m, w) && m.irr != [] && m.pos < |w.chain| && SkipsOver(w, i, k)
    requires m.base == k && k + w.cfg.size <= w.chain[m.pos].num
    ensures From(m.irr, k) != []
  {
    if m.pos < i {
      RisingAt(w.chain, m.pos, i);
    }
    assert i < m.pos;
    assert w.chain[..m.pos][i] == w.chain[i];
    InFrom(w.chain[..m.pos], w.chain[i], k);
  }

  lemma NoSkipPast(w: World, n: nat, i: nat, k: nat)
    requires WorldOk(w) && SkipsOver(w, i, k) && 0 < n < |w.chain| && w.chain[n].num > k + w.cfg.size
    ensures k < w.chain[n - 1].num
  {
    if n < i {
      RisingAt(w.chain, n, i);
    } else if i < n - 1 {
      RisingAt(w.chain, i, n - 1);
    }
  }

  lemma {:induction false} NeverEmpty(m: Machine, events: seq<Event>, w: World, top: nat, i: nat, k: nat)
    requires Inv(m, w, top) && SkipsOver(w, i, k) && NotEmpty(m, k)
    ensures NotEmpty(Play(m, events, w), k)
    decreases |events|
  {
    if events != [] {
      var next := Step(m, events[0], w);
      if next.Some? {
        NotEmptyStays(m, events[0], w, top, i, k);
        StepKeeps(m, events[0], w, top);
        NeverEmpty(next.value, events[1..], w, TopAfter(m, events[0], w, top), i, k);
      } else {
        NeverEmpty(m, events[1..], w, top, i, k);
      }
    }
  }

  lemma NoOwnBlock(w: World, i: nat, k: nat)
    requires WorldOk(w) && SkipsOver(w, i, k)
    ensures Within(w.chain, k, k + w.cfg.size) == []
  {
    forall f | f in w.chain
      ensures !(k <= f.num < k + w.cfg.size)
    {
      var j :| 0 <= j < |w.chain| && w.chain[j] == f;
      if j < i - 1 {
        RisingAt(w.chain, j, i - 1);
      } else if i < j {
        RisingAt(w.chain, i, j);
      }
    }
    NoneWithin(w.chain, k, k + w.cfg.size);
  }

  lemma SkippedBundle(w: World, t: nat, i: nat) returns (k: nat)
    requires 0 < w.cfg.size && Cut(w, t) && SkipsOntoBoundary(w.chain, i, w.cfg.size) && t <= w.chain[i - 1].num
    ensures Cut(w, k) && t <= k && SkipsOver(w, i, k)
  {
    PreviousMultiple(w.chain[i].num, w.cfg.size);
    k := w.chain[i].num - w.cfg.size;
  }

  lemma NotEmptyIsInexact(m: Machine, w: World, i: nat, k: nat)
    requires WorldOk(w) && SkipsOver(w, i, k) && NotEmpty(m, k)
    ensures k in m.store ==> !ExactStore(m.store, w)
  {
    NoOwnBlock(w, i, k);
  }

  lemma NotYet(m: Machine, w: World, t: nat, k: nat)
    requires Begins(m, w, t) && t <= k
    ensures NotEmpty(m, k) && Cut(w, t)
  {
  }

  /** So no run from `t` on, crashes and all, ever stores that bundle exactly. */
  lemma NeverExact(m: Machine, events: seq<Event>, w: World, t: nat, i: nat) returns (k: nat)
    requires Begins(m, w, t) && SkipsOntoBoundary(w.chain, i, w.cfg.size) && t <= w.chain[i - 1].num
    ensures Cut(w, k) && t <= k && k + w.cfg.size == w.chain[i].num
    ensures var store := Play(m, events, w).store; k in store ==> !ExactStore(store, w)
  {
    NotYet(m, w, t, t);
    k := SkippedBundle(w, t, i);
    NotYet(m, w, t, k);
    NeverEmpty(m, events, w, t, i, k);
    NotEmptyIsInexact(Play(m, events, w), w, i, k);
  }

  // ---- after a crash

  lemma InitBegins(w: World)
    requires WorldOk(w)
    ensures Begins(InitMachine(w), w, w.base0)
  {
    InitKeeps(w);
  }

  lemma RestartBegins(w: World, a: seq<Event>, t: nat, lib: nat)
    requires WorldOk(w) && CrashStep(Play(InitMachine(w), a, w), w, t, lib).Some?
    ensures var m := CrashStep(Play(InitMachine(w), a, w), w, t, lib).value;
            Begins(m, w, t) && m.store == Play(InitMachine(w), a, w).store
  {
    InitKeeps(w);
    var top := PlayKeeps(InitMachine(w), a, w, w.base0);
    CrashKeeps(Play(InitMachine(w), a, w), w, top, t, lib);
  }

  lemma AfterCrash(m: Machine, w: World, t: nat, lib: nat, b: seq<Event>)
    requires 0 < w.cfg.size && CrashStep(m, w, t, lib).Some?
    ensures Play(m, [Crash(t, lib)] + b, w) == Play(CrashStep(m, w, t, lib).value, b, w)
  {
    assert ([Crash(t, lib)] + b)[1..] == b;
  }

  /** Bundles are stored only once the chain has got past them. */
  ghost predicate Passed(m: Machine, w: World) {
    && (forall k | k in m.store :: w.chain != [] && k + w.cfg.size <= w.chain[|w.chain| - 1].num)
    && (m.flight.Some? ==>
          w.chain != [] && m.flight.value.job.base + w.cfg.size <= w.chain[|w.chain| - 1].num)
  }

  lemma PassedStays(m: Machine, e: Event, w: World, top: nat)
    requires Inv(m, w, top) && Passed(m, w) && Step(m, e, w).Some?
    ensures Passed(Step(m, e, w).value, w)
  {
    if e.Feed? {
      FeedPasses(m, w);
    } else if e.Skip? {
      SkipPasses(m, w);
    }
  }

  lemma FeedPasses(m: Machine, w: World)
    requires Rising(w.chain) && Passed(m, w) && FeedStep(m, w).Some?
    ensures Passed(FeedStep(m, w).value, w)
  {
    if m.pos < |w.chain| - 1 {
      RisingAt(w.chain, m.pos, |w.chain| - 1);
    }
  }

  lemma SkipPasses(m: Machine, w: World)
    requires WorldOk(w) && ClosingInv(m, w) && Passed(m, w) && SkipStep(m, w.cfg.size).Some?
    ensures Passed(SkipStep(m, w.cfg.size).value, w)
  {
    if m.pos < |w.chain| - 1 {
      RisingAt(w.chain, m.pos, |w.chain| - 1);
    }
  }

  lemma {:induction false} AlwaysPassed(m: Machine, events: seq<Event>, w: World, top: nat)
    requires Inv(m, w, top) && Passed(m, w)
    ensures Passed(Play(m, events, w), w)
    decreases |events|
  {
    if events != [] {
      var next := Step(m, events[0], w);
      if next.Some? {
        PassedStays(m, events[0], w, top);
        StepKeeps(m, events[0], w, top);
        AlwaysPassed(next.value, events[1..], w, TopAfter(m, events[0], w, top));
      } else {
        AlwaysPassed(m, events[1..], w, top);
      }
    }
  }

  lemma RestartIsPassed(w: World, a: seq<Event>, t: nat, lib: nat)
    requires WorldOk(w) && CrashStep(Play(InitMachine(w), a, w), w, t, lib).Some?
    ensures t == w.base0 || (w.chain != [] && t <= w.chain[|w.chain| - 1].num)
  {
    InitKeeps(w);
    AlwaysPassed(InitMachine(w), a, w, w.base0);
  }

  /** Whether some continuation, with or without more crashes, ends with the complete store. */
  ghost predicate CanComplete(m: Machine, w: World)
    requires 0 < w.cfg.size && w.chain != []
  {
    exists b :: Complete(Play(m, b, w).store, w)
  }

  lemma CompletesBy(m: Machine, b: seq<Event>, w: World)
    requires 0 < w.cfg.size && w.chain != [] && Complete(Play(m, b, w).store, w)
    ensures CanComplete(m, w)
  {
  }

  /** What completing takes, whatever the continuation. */
  lemma CompleteNeeds(m: Machine, b: seq<Event>, w: World, t: nat)
    requires Begins(m, w, t) && w.chain != [] && Complete(Play(m, b, w).store, w)
    ensures ExactStore(m.store, w) && !SkipsFrom(w, t)
    ensures CanGoOn(m, w) || w.chain[|w.chain| - 1].num < t + w.cfg.size
  {
    StoredStaysForever(m, b, w, t);
    var last := w.chain[|w.chain| - 1].num;
    if SkipsFrom(w, t) {
      var i: nat :| SkipsOntoBoundary(w.chain, i, w.cfg.size) && t <= w.chain[i - 1].num;
      if i < |w.chain| - 1 {
        RisingAt(w.chain, i, |w.chain| - 1);
      }
      OwnBase(w.chain[i].num, last, w.cfg.size);
      var k := NeverExact(m, b, w, t, i);
    }
    if !CanGoOn(m, w) && t + w.cfg.size <= last {
      CannotGoOn(m, w, t);
      StuckForever(m, b, w, t, FirstFrom(w.chain, m.pos, t));
      StillMissing(m.store, w, t);
    }
  }

  /**
   Fed to the end, whatever the order of steps, a life leaves the complete store if and only if it
   began on exact bundles and no block after its first one skips onto a boundary.
   */
  lemma EndIsComplete(m: Machine, b: seq<Event>, w: World, t: nat)
    requires Begins(m, w, t) && Uncrashed(b) && Ends(Play(m, b, w), w)
    requires w.chain != [] && t <= w.chain[|w.chain| - 1].num
    ensures Complete(Play(m, b, w).store, w) <==> ExactStore(m.store, w) && !SkipsFrom(w, t)
  {
    if Complete(Play(m, b, w).store, w) {
      CompleteNeeds(m, b, w, t);
    } else if ExactStore(m.store, w) && !SkipsFrom(w, t) {
      EndCompletes(m, b, w, t);
    }
  }

  lemma NothingMissing(m: Machine, w: World, t: nat)
    requires Begins(m, w, t) && w.chain != [] && ExactStore(m.store, w)
    requires t == w.base0 || t <= w.chain[|w.chain| - 1].num
    requires w.chain[|w.chain| - 1].num < t + w.cfg.size
    ensures Complete(m.store, w)
  {
    if t <= w.chain[|w.chain| - 1].num {
      BaseOf(t, w.chain[|w.chain| - 1].num, w.cfg.size);
    }
  }

  lemma StillMissing(store: map<nat, Files>, w: World, t: nat)
    requires 0 < w.cfg.size && IsFirstMissing(store, w, t)
    requires w.chain != [] && t + w.cfg.size <= w.chain[|w.chain| - 1].num
    ensures !Complete(store, w)
  {
    assert t < ToBase(w.chain[|w.chain| - 1].num, w.cfg.size);
  }

  lemma CompletesExactly(m: Machine, w: World, t: nat)
    requires Begins(m, w, t) && w.chain != [] && (t == w.base0 || t <= w.chain[|w.chain| - 1].num)
    ensures CanComplete(m, w) <==>
              && ExactStore(m.store, w) && !SkipsFrom(w, t)
              && (CanGoOn(m, w) || w.chain[|w.chain| - 1].num < t + w.cfg.size)
  {
    if CanComplete(m, w) {
      var b :| Complete(Play(m, b, w).store, w);
      CompleteNeeds(m, b, w, t);
    } else if ExactStore(m.store, w) && !SkipsFrom(w, t) {
      if w.chain[|w.chain| - 1].num < t + w.cfg.size {
        NothingMissing(m, w, t);
        CompletesBy(m, [], w);
      } else if CanGoOn(m, w) {
        var b := FeedRest(m, w);
        EndCompletes(m, b, w, t);
        CompletesBy(m, b, w);
      }
    }
  }

  /**
   The exact condition, on every chain: a restarted merger can end with the complete store if and
   only if what is stored so far is exact, no block after the first new one skips onto a boundary,
   and that first one passes and falls in the resumed bundle, or no bundle was missing anyway.
   */
  lemma ResumeIsExact(w: World, a: seq<Event>, t: nat, lib: nat)
    requires WorldOk(w) && w.chain != []
    requires CrashStep(Play(InitMachine(w), a, w), w, t, lib).Some?
    ensures var m := CrashStep(Play(InitMachine(w), a, w), w, t, lib).value;
            CanComplete(m, w) <==>
              && ExactStore(m.store, w) && !SkipsFrom(w, t)
              && (CanGoOn(m, w) || w.chain[|w.chain| - 1].num < t + w.cfg.size)
  {
    RestartBegins(w, a, t, lib);
    RestartIsPassed(w, a, t, lib);
    CompletesExactly(CrashStep(Play(InitMachine(w), a, w), w, t, lib).value, w, t);
  }

  lemma StoredByTheEnd(store: map<nat, Files>, before: map<nat, Files>, w: World, t: nat, end: nat, i: nat, k: nat)
    requires WorldOk(w) && LifeStore(store, before, From(w.chain, t), t, end, w.cfg.size)
    requires t <= k && k % w.cfg.size == 0 && i + 1 < |w.chain| && k + w.cfg.size == w.chain[i].num
    ensures k in store
  {
    RisingAt(w.chain, i, |w.chain| - 1);
    LastFrom(w.chain, t);
  }

  /** A skip onto a boundary, once the chain has gone on, has spilled into the bundle below. */
  lemma SkipSpills(w: World, i: nat) returns (events: seq<Event>)
    requires WorldOk(w) && CanGoOn(InitMachine(w), w) && i + 1 < |w.chain| && SkipsAt(w, i)
    ensures !ExactStore(Play(InitMachine(w), events, w).store, w)
  {
    InitBegins(w);
    events := FeedRest(InitMachine(w), w);
    var k := NeverExact(InitMachine(w), events, w, w.base0, i);
    LifeStores(InitMachine(w), events, w, w.base0);
    var m := Play(InitMachine(w), events, w);
    StoredByTheEnd(m.store, map[], w, w.base0, m.base, i, k);
  }

  /** On the machine, too: every store of every run is exact if and only if no skip is followed by another block. */
  lemma ExactUnlessSkips(w: World)
    requires WorldOk(w) && CanGoOn(InitMachine(w), w)
    ensures (forall events :: ExactStore(Play(InitMachine(w), events, w).store, w)) <==> !Skips(w)
  {
    if Skips(w) {
      var i: nat :| i + 1 < |w.chain| && SkipsAt(w, i);
      var events := SkipSpills(w, i);
    } else {
      forall events: seq<Event>
        ensures ExactStore(Play(InitMachine(w), events, w).store, w)
      {
        var top := AlwaysAPartition(w, events);
      }
    }
  }
}
