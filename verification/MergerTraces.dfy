/**
 When a crash and restart leave no trace: the resumed run's store against that of a run
 without a crash, on every chain.
 */
module MergerTraces {
  import opened Options
  import opened Multiples
  import opened Bundler
  import opened Partition
  import opened MergerProtocol
  import opened MergerRefinement
  import opened MergerRestarts

  // ---- lateness forgets what came before the restart

  /** Block `d` is held one bundle early, and so is then the next one, which is one bundle further. */
  ghost predicate CascadesAt(rec: Files, d: nat, size: nat)
    requires 0 < size
  {
    d + 1 < |rec| && Late(rec, d, size) && rec[d + 1].num == rec[d].num + size
  }

  /** In a run without a crash the block at `t` is held early and the next one after it, too. */
  ghost predicate Cascades(w: World, t: nat)
    requires 0 < w.cfg.size
  {
    var rec := From(w.chain, w.base0);
    exists d: nat :: CascadesAt(rec, d, w.cfg.size) && rec[d].num == t
  }

  /** A life that begins with block `d` of `rec`, which is in its first bundle. */
  ghost predicate TailAt(rec: Files, d: nat, t: nat, size: nat) {
    && Rising(rec) && d < |rec| && 0 < size && t % size == 0 && t <= rec[d].num < t + size
    && forall j | 0 <= j < d :: rec[j].num < t
  }

  lemma {:induction false} LateInTail(rec: Files, d: nat, t: nat, size: nat, j: nat)
    requires TailAt(rec, d, t, size) && !CascadesAt(rec, d, size) && 0 < j < |rec| - d
    ensures Late(rec[d..], j, size) <==> Late(rec, d + j, size)
  {
    if 1 < j {
      LateInTail(rec, d, t, size, j - 1);
    }
  }

  lemma LateAtInTail(rec: Files, d: nat, t: nat, size: nat, n: nat)
    requires TailAt(rec, d, t, size) && !CascadesAt(rec, d, size) && t + size <= n
    ensures LateAt(rec[d..], n, size) <==> LateAt(rec, n, size)
  {
    if LateAt(rec, n, size) {
      var i: nat :| i < |rec| && rec[i].num == n && Late(rec, i, size);
      LateInTail(rec, d, t, size, i - d);
      assert rec[d..][i - d].num == n;
    }
    if LateAt(rec[d..], n, size) {
      var j: nat :| j < |rec[d..]| && rec[d..][j].num == n && Late(rec[d..], j, size);
      LateInTail(rec, d, t, size, j);
      assert rec[d + j].num == n;
    }
  }

  lemma TailIsFrom(rec: Files, d: nat, t: nat, size: nat)
    requires TailAt(rec, d, t, size)
    ensures From(rec, t) == rec[d..]
  {
    forall j | d <= j < |rec|
      ensures t <= rec[j].num
    {
      if d < j {
        RisingAt(rec, d, j);
      }
    }
    FromIsTail(rec, t, d);
  }

  lemma WithinInTail(rec: Files, d: nat, t: nat, size: nat, lo: nat, hi: nat)
    requires TailAt(rec, d, t, size) && t <= lo
    ensures Within(rec[d..], lo, hi) == Within(rec, lo, hi)
  {
    TailIsFrom(rec, d, t, size);
    WithinOfFrom(rec, t, lo, hi);
  }

  /** What both lives store above the restart. */
  lemma StoredInTail(rec: Files, d: nat, t: nat, size: nat, k: nat)
    requires TailAt(rec, d, t, size) && !CascadesAt(rec, d, size) && t <= k
    ensures Stored(rec[d..], k, size) == Stored(rec, k, size)
  {
    var tail := rec[d..];
    WithinInTail(rec, d, t, size, k, k + size);
    WithinInTail(rec, d, t, size, k + size, k + size + 1);
    LateAtInTail(rec, d, t, size, k + size);
    SameStored(tail, rec, k, size);
  }

  lemma SameStored(a: Files, b: Files, k: nat, size: nat)
    requires 0 < size && Within(a, k, k + size) == Within(b, k, k + size)
    requires Within(a, k + size, k + size + 1) == Within(b, k + size, k + size + 1)
    requires LateAt(a, k + size, size) <==> LateAt(b, k + size, size)
    ensures Stored(a, k, size) == Stored(b, k, size)
  {
  }

  // ---- how far the two runs get

  lemma OneEndBase(a: nat, b: nat, n: nat, size: nat)
    requires 0 < size && a % size == 0 && b % size == 0 && a <= n <= a + size && b <= n <= b + size
    requires n == a + size <==> n == b + size
    ensures a == b
  {
    if a < b {
      BetweenMultiples(a, b, size);
    } else if b < a {
      BetweenMultiples(b, a, size);
    }
  }

  lemma SameEnd(rec: Files, d: nat, t: nat, size: nat, a: nat, b: nat)
    requires TailAt(rec, d, t, size) && !CascadesAt(rec, d, size) && t <= a && t <= b
    requires a % size == 0 && b % size == 0
    requires var n := rec[|rec| - 1].num; a <= n <= a + size && b <= n <= b + size
    requires Late(rec, |rec| - 1, size) <==> rec[|rec| - 1].num == a + size
    requires Late(rec[d..], |rec| - d - 1, size) <==> rec[|rec| - 1].num == b + size
    ensures a == b
  {
    if d < |rec| - 1 {
      LateInTail(rec, d, t, size, |rec| - d - 1);
    }
    OneEndBase(a, b, rec[|rec| - 1].num, size);
  }

  /** The first missing bundle lies within a run that has all bundles below it. */
  lemma EndIsAbove(before: map<nat, Files>, u: map<nat, Files>, base0: nat, t: nat, end: nat, size: nat)
    requires 0 < size && base0 % size == 0 && t % size == 0 && end % size == 0 && base0 <= t && base0 <= end
    requires forall k: nat :: k in before <==> base0 <= k < t && k % size == 0
    requires forall k | k in u :: k < end
    requires Kept(before, u)
    ensures t <= end
  {
    assert end in before <==> end < t;
  }

  lemma NoCascadeNoTrace(u: map<nat, Files>, r: map<nat, Files>, before: map<nat, Files>, rec: Files, d: nat,
                         base0: nat, t: nat, endU: nat, endR: nat, size: nat)
    requires TailAt(rec, d, t, size) && !CascadesAt(rec, d, size) && base0 % size == 0 && base0 <= t
    requires LifeStore(u, map[], rec, base0, endU, size) && LifeStore(r, before, rec[d..], t, endR, size)
    requires forall k: nat :: k in before <==> base0 <= k < t && k % size == 0
    requires Kept(before, u)
    ensures u == r
  {
    EndIsAbove(before, u, base0, t, endU, size);
    SameEnd(rec, d, t, size, endU, endR);
    assert u.Keys == r.Keys;
    forall k | k in u
      ensures u[k] == r[k]
    {
      if t <= k {
        StoredInTail(rec, d, t, size, k);
      } else {
        assert k in before;
      }
    }
  }

  lemma CascadeLate(rec: Files, d: nat, t: nat, size: nat)
    requires TailAt(rec, d, t, size) && CascadesAt(rec, d, size) && rec[d].num == t
    ensures Late(rec, d + 1, size) && !Late(rec[d..], 1, size)
  {
    NextMultiple(t, size);
  }

  lemma LateIsStored(rec: Files, i: nat, t: nat, size: nat)
    requires 0 < size && i < |rec| && rec[i].num == t + size && Late(rec, i, size)
    ensures rec[i] in Stored(rec, t, size)
  {
    assert LateAt(rec, t + size, size);
    InWithin(rec, rec[i], t + size, t + size + 1);
  }

  lemma NotLateIsNotStored(rec: Files, i: nat, t: nat, size: nat)
    requires 0 < size && Rising(rec) && i < |rec| && rec[i].num == t + size && !Late(rec, i, size)
    ensures rec[i] !in Stored(rec, t, size)
  {
    forall j: nat | j < |rec| && rec[j].num == t + size
      ensures j == i
    {
      if j < i {
        RisingAt(rec, j, i);
      } else if i < j {
        RisingAt(rec, i, j);
      }
    }
    InWithin(rec, rec[i], t, t + size);
  }

  /** The bundle at `t` gets the next boundary block in the one run and not in the other. */
  lemma CascadeStored(rec: Files, d: nat, t: nat, size: nat)
    requires TailAt(rec, d, t, size) && CascadesAt(rec, d, size) && rec[d].num == t
    ensures Stored(rec, t, size) != Stored(rec[d..], t, size)
  {
    var tail := rec[d..];
    CascadeLate(rec, d, t, size);
    RisingRest(rec, d);
    LateIsStored(rec, d + 1, t, size);
    NotLateIsNotStored(tail, 1, t, size);
  }

  /** The run goes on after the cascade: both lives store the bundle at `t`, with different blocks. */
  lemma CascadeInside(u: map<nat, Files>, r: map<nat, Files>, before: map<nat, Files>, rec: Files, tail: Files,
                      base0: nat, t: nat, endU: nat, endR: nat, size: nat)
    requires 0 < size && base0 <= t && t % size == 0 && rec != [] && tail != [] && rec[|rec| - 1] == tail[|tail| - 1]
    requires LifeStore(u, map[], rec, base0, endU, size) && LifeStore(r, before, tail, t, endR, size)
    requires t + size < rec[|rec| - 1].num && Stored(rec, t, size) != Stored(tail, t, size)
    ensures u != r
  {
    assert t in u && t in r;
  }

  /** It ends with the cascade: only the resumed life stores the bundle at `t`. */
  lemma CascadeAtTheEnd(u: map<nat, Files>, r: map<nat, Files>, before: map<nat, Files>, rec: Files, tail: Files,
                        base0: nat, t: nat, endU: nat, endR: nat, size: nat)
    requires 0 < size && t % size == 0 && rec != [] && tail != [] && rec[|rec| - 1] == tail[|tail| - 1]
    requires LifeStore(u, map[], rec, base0, endU, size) && LifeStore(r, before, tail, t, endR, size)
    requires rec[|rec| - 1].num == t + size && Late(rec, |rec| - 1, size) && !Late(tail, |tail| - 1, size)
    ensures u != r
  {
    assert t in r && t !in u;
  }

  lemma CascadeLeavesTrace(u: map<nat, Files>, r: map<nat, Files>, before: map<nat, Files>, rec: Files, d: nat,
                           base0: nat, t: nat, endU: nat, endR: nat, size: nat)
    requires TailAt(rec, d, t, size) && CascadesAt(rec, d, size) && rec[d].num == t && base0 <= t
    requires LifeStore(u, map[], rec, base0, endU, size) && LifeStore(r, before, rec[d..], t, endR, size)
    ensures u != r
  {
    var tail := rec[d..];
    if d + 1 < |rec| - 1 {
      RisingAt(rec, d + 1, |rec| - 1);
      CascadeStored(rec, d, t, size);
      CascadeInside(u, r, before, rec, tail, base0, t, endU, endR, size);
    } else {
      CascadeLate(rec, d, t, size);
      CascadeAtTheEnd(u, r, before, rec, tail, base0, t, endU, endR, size);
    }
  }

  // ---- on the machine

  lemma {:induction false} FromOfFrom(files: Files, base0: nat, t: nat)
    requires base0 <= t
    ensures From(From(files, base0), t) == From(files, t)
  {
    if files != [] {
      var low, f := files[..|files| - 1], files[|files| - 1];
      FromOfFrom(low, base0, t);
      if base0 <= f.num {
        FromAppend(From(low, base0), f, t);
      } else {
        assert From(low, base0) + [] == From(low, base0);
        assert From(low, t) + [] == From(low, t);
      }
    }
  }

  /** What a life at `t` records is a tail of what a life from the first base on does. */
  lemma TailOfRecord(w: World, t: nat) returns (d: nat)
    requires WorldOk(w) && w.base0 <= t
    ensures var rec := From(w.chain, w.base0);
            && Rising(rec) && d <= |rec| && From(w.chain, t) == rec[d..]
            && (forall j | 0 <= j < d :: rec[j].num < t) && (d < |rec| ==> t <= rec[d].num)
  {
    var rec := From(w.chain, w.base0);
    AcceptedIsTail(w.chain, w.base0);
    RisingRest(w.chain, FirstFrom(w.chain, 0, w.base0));
    FromOfFrom(w.chain, w.base0, t);
    AcceptedIsTail(rec, t);
    d := FirstFrom(rec, 0, t);
  }

  lemma CascadesIsAt(w: World, t: nat, d: nat)
    requires 0 < w.cfg.size && TailAt(From(w.chain, w.base0), d, t, w.cfg.size)
    ensures Cascades(w, t) <==> CascadesAt(From(w.chain, w.base0), d, w.cfg.size)
    ensures Cascades(w, t) ==> From(w.chain, w.base0)[d].num == t
  {
    var rec := From(w.chain, w.base0);
    if CascadesAt(rec, d, w.cfg.size) && rec[d].num != t {
      BetweenMultiples(t, rec[d].num, w.cfg.size);
    }
    if Cascades(w, t) {
      var i: nat :| CascadesAt(rec, i, w.cfg.size) && rec[i].num == t;
      if d < i {
        RisingAt(rec, d, i);
      }
    }
  }

  lemma FirstInBundle(m: Machine, w: World, t: nat, d: nat)
    requires Begins(m, w, t) && CanGoOn(m, w)
    requires var rec := From(w.chain, w.base0); d < |rec| && From(w.chain, t) == rec[d..]
    ensures From(w.chain, w.base0)[d].num < t + w.cfg.size
  {
    AcceptedIsTail(w.chain, t);
    var p := FirstFrom(w.chain, m.pos, t);
    forall j | 0 <= j < p
      ensures w.chain[j].num < t
    {
      if j < m.pos {
        assert w.chain[j] in w.chain[..m.pos];
      }
    }
  }

  lemma SameTrace(u: map<nat, Files>, r: map<nat, Files>, m: Machine, w: World, t: nat, d: nat, endU: nat, endR: nat)
    requires Begins(m, w, t) && TailAt(From(w.chain, w.base0), d, t, w.cfg.size)
    requires From(w.chain, t) == From(w.chain, w.base0)[d..]
    requires LifeStore(u, map[], From(w.chain, w.base0), w.base0, endU, w.cfg.size)
    requires LifeStore(r, m.store, From(w.chain, t), t, endR, w.cfg.size)
    ensures u == r <==> Kept(m.store, u) && !Cascades(w, t)
  {
    var rec, size := From(w.chain, w.base0), w.cfg.size;
    CascadesIsAt(w, t, d);
    if CascadesAt(rec, d, size) {
      CascadeLeavesTrace(u, r, m.store, rec, d, w.base0, t, endU, endR, size);
    } else if Kept(m.store, u) {
      NoCascadeNoTrace(u, r, m.store, rec, d, w.base0, t, endU, endR, size);
    }
  }

  /** With nothing to feed from the first base up, nothing is ever stored. */
  lemma NoTraceOfNothing(u: map<nat, Files>, r: map<nat, Files>, m: Machine, w: World, endU: nat, endR: nat)
    requires Begins(m, w, w.base0) && From(w.chain, w.base0) == []
    requires LifeStore(u, map[], [], w.base0, endU, w.cfg.size)
    requires LifeStore(r, m.store, [], w.base0, endR, w.cfg.size)
    ensures u == r && Kept(m.store, u) && !Cascades(w, w.base0)
  {
    assert u.Keys == r.Keys;
  }

  /** A restart ends as a run without a crash does, or it does not, whatever the order of the steps. */
  lemma RestartAgainstRun(m: Machine, b: seq<Event>, c: seq<Event>, w: World, t: nat)
    requires Begins(m, w, t) && Uncrashed(b) && Uncrashed(c)
    requires t == w.base0 || (w.chain != [] && t <= w.chain[|w.chain| - 1].num)
    requires Ends(Play(m, b, w), w) && Ends(Play(InitMachine(w), c, w), w)
    ensures var u := Play(InitMachine(w), c, w).store;
            Play(m, b, w).store == u <==> Kept(m.store, u) && !Cascades(w, t)
  {
    var u, r := Play(InitMachine(w), c, w), Play(m, b, w);
    InitBegins(w);
    LifeStores(InitMachine(w), c, w, w.base0);
    LifeStores(m, b, w, t);
    var d := TailOfRecord(w, t);
    if d < |From(w.chain, w.base0)| {
      EndsWentOn(m, b, w, t);
      FirstInBundle(m, w, t, d);
      SameTrace(u.store, r.store, m, w, t, d, u.base, r.base);
    } else {
      NothingLeft(w, t);
      NoTraceOfNothing(u.store, r.store, m, w, u.base, r.base);
    }
  }

  lemma NothingLeft(w: World, t: nat)
    requires From(w.chain, t) == []
    requires t == w.base0 || (w.chain != [] && t <= w.chain[|w.chain| - 1].num)
    ensures t == w.base0
  {
    if t != w.base0 {
      LastFrom(w.chain, t);
    }
  }

  /**
   Crash anywhere and restart, on any chain. Fed to its end, the resumed run leaves the very store
   of a run without a crash if and only if what was stored before the crash is part of that store
   and the late block at the restart, if there is one, is not followed by the next boundary's
   block. After a run without an earlier crash the first condition always holds.
   */
  lemma CrashesLeaveNoTrace(w: World, a: seq<Event>, t: nat, lib: nat, b: seq<Event>, c: seq<Event>)
    requires WorldOk(w) && Uncrashed(b) && Uncrashed(c)
    requires CrashStep(Play(InitMachine(w), a, w), w, t, lib).Some?
    requires Ends(Play(InitMachine(w), a + ([Crash(t, lib)] + b), w), w) && Ends(Play(InitMachine(w), c, w), w)
    ensures var before, u := Play(InitMachine(w), a, w).store, Play(InitMachine(w), c, w).store;
            && (Play(InitMachine(w), a + ([Crash(t, lib)] + b), w).store == u
                <==> Kept(before, u) && !Cascades(w, t))
            && (Uncrashed(a) ==> Kept(before, u))
  {
    var m := Play(InitMachine(w), a, w);
    RestartBegins(w, a, t, lib);
    RestartIsPassed(w, a, t, lib);
    PlayBoth(InitMachine(w), a, [Crash(t, lib)] + b, w);
    AfterCrash(m, w, t, lib, b);
    RestartAgainstRun(CrashStep(m, w, t, lib).value, b, c, w, t);
    if Uncrashed(a) {
      StoredForGood(w, a, c);
    }
  }

  /** There is such an end exactly when the restarted merger can go on at all. */
  lemma EndIsReached(m: Machine, w: World, t: nat)
    requires Begins(m, w, t)
    ensures CanGoOn(m, w) <==> exists b :: Uncrashed(b) && Ends(Play(m, b, w), w)
  {
    if CanGoOn(m, w) {
      var b := FeedRest(m, w);
    } else {
      forall b: seq<Event> | Ends(Play(m, b, w), w)
        ensures false
      {
        EndsWentOn(m, b, w, t);
      }
    }
  }

  /** Where no block skips onto a boundary, a restart never leaves a trace, and both stores are complete. */
  lemma NoSkipNoTrace(w: World, a: seq<Event>, t: nat, lib: nat, b: seq<Event>, c: seq<Event>)
    requires WorldOk(w) && Uncrashed(b) && Uncrashed(c) && !SkipsFrom(w, w.base0)
    requires CrashStep(Play(InitMachine(w), a, w), w, t, lib).Some?
    requires Ends(Play(InitMachine(w), a + ([Crash(t, lib)] + b), w), w) && Ends(Play(InitMachine(w), c, w), w)
    requires w.chain != [] && t <= w.chain[|w.chain| - 1].num
    ensures var r := Play(InitMachine(w), a + ([Crash(t, lib)] + b), w).store;
            r == Play(InitMachine(w), c, w).store && Complete(r, w)
  {
    var m := Play(InitMachine(w), a, w);
    RestartBegins(w, a, t, lib);
    InitBegins(w);
    PlayBoth(InitMachine(w), a, [Crash(t, lib)] + b, w);
    AfterCrash(m, w, t, lib, b);
    var top := AlwaysAPartition(w, a);
    EndCompletes(CrashStep(m, w, t, lib).value, b, w, t);
    EndCompletes(InitMachine(w), c, w, w.base0);
    OneCompleteStore(Play(InitMachine(w), a + ([Crash(t, lib)] + b), w).store, Play(InitMachine(w), c, w).store, w);
  }

  lemma OneCompleteStore(a: map<nat, Files>, b: map<nat, Files>, w: World)
    requires 0 < w.cfg.size && w.chain != [] && Complete(a, w) && Complete(b, w)
    ensures a == b
  {
    assert a.Keys == b.Keys;
  }

  // ---- a cascade cut by a crash

  function CutChain(): (chain: Files)
    ensures |chain| == 6
  {
    [OneBlockFile("", 100), OneBlockFile("", 199), OneBlockFile("", 300),
     OneBlockFile("", 400), OneBlockFile("", 500), OneBlockFile("", 600)]
  }

  function CutWorld(): World {
    World(CutChain(), Config(100, 0, 100), 100)
  }

  lemma CutIsRising()
    ensures WorldOk(CutWorld())
  {
    var chain := CutChain();
    assert Rising([]);
    RisingAppend([], chain[0]);
    assert [] + [chain[0]] == chain[..1];
    RisingAppend(chain[..1], chain[1]);
    assert chain[..1] + [chain[1]] == chain[..2];
    RisingAppend(chain[..2], chain[2]);
    assert chain[..2] + [chain[2]] == chain[..3];
    RisingAppend(chain[..3], chain[3]);
    assert chain[..3] + [chain[3]] == chain[..4];
    RisingAppend(chain[..4], chain[4]);
    assert chain[..4] + [chain[4]] == chain[..5];
    RisingAppend(chain[..5], chain[5]);
    assert chain[..5] + [chain[5]] == chain;
  }

  /** One block after the other, as the bundler takes them. */
  lemma CutBlock(m: Machine, c: Core, js: seq<Job>) returns (events: seq<Event>)
    requires AtRest(m) && m.pos < 6 && CanGoOn(m, CutWorld())
    requires var r := Accept(Core(m.base, m.irr, m.enforce), CutChain()[m.pos], CutWorld().cfg); r.0 == c && r.1 == js
    ensures var m' := Play(m, events, CutWorld());
            && AtRest(m') && m'.pos == m.pos + 1 && CanGoOn(m', CutWorld()) && Uncrashed(events)
            && m'.base == c.base && m'.irr == c.irr && m'.enforce == c.enforce && m'.store == StoreJobs(m.store, js)
  {
    events := FeedOne(m, CutWorld());
  }

  lemma FromTwo(f: OneBlockFile, g: OneBlockFile, lo: nat)
    requires lo <= g.num
    ensures From([f, g], lo) == if lo <= f.num then [f, g] else [g]
  {
    FromAppend([], f, lo);
    FromAppend([f], g, lo);
    assert [] + [f] == [f] && [f] + [g] == [f, g] && [] + [g] == [g];
  }

  lemma CutBegin() returns (a: seq<Event>)
    ensures var x := CutChain();
            var m := Play(InitMachine(CutWorld()), a, CutWorld());
            && Uncrashed(a) && AtRest(m) && m.pos == 2 && CanGoOn(m, CutWorld())
            && Core(m.base, m.irr, m.enforce) == Core(100, [x[0], x[1]], false) && m.store == map[]
  {
    var x, w := CutChain(), CutWorld();
    var m0 := InitMachine(w);
    assert [] + [x[0]] == [x[0]] && [x[0]] + [x[1]] == [x[0], x[1]];
    var e1 := CutBlock(m0, Core(100, [x[0]], false), []);
    var e2 := CutBlock(Play(m0, e1, w), Core(100, [x[0], x[1]], false), []);
    a := e1 + e2;
    PlayBoth(m0, e1, e2, w);
  }

  lemma CutClose(m: Machine) returns (a: seq<Event>)
    requires AtRest(m) && m.pos == 2 && CanGoOn(m, CutWorld()) && m.store == map[]
    requires var x := CutChain(); Core(m.base, m.irr, m.enforce) == Core(100, [x[0], x[1]], false)
    ensures var x := CutChain();
            Uncrashed(a) && Play(m, a, CutWorld()).store == map[100 := [x[0], x[1]], 200 := [x[2]]]
  {
    var x, w := CutChain(), CutWorld();
    var e3 := CutBlock(m, Core(200, [x[1], x[2]], false), [Job(100, [x[0], x[1]])]);
    var e4 := CutBlock(Play(m, e3, w), Core(300, [x[2], x[3]], false), [Job(200, [x[1], x[2]])]);
    a := e3 + e4;
    PlayBoth(m, e3, e4, w);
    FromTwo(x[0], x[1], 100);
    FromTwo(x[1], x[2], 200);
  }

  /** Four blocks: the second bundle has no block of its own and gets block 300. */
  lemma CutRun() returns (a: seq<Event>)
    ensures var x := CutChain();
            && Uncrashed(a)
            && Play(InitMachine(CutWorld()), a, CutWorld()).store == map[100 := [x[0], x[1]], 200 := [x[2]]]
  {
    var begin := CutBegin();
    var close := CutClose(Play(InitMachine(CutWorld()), begin, CutWorld()));
    PlayBoth(InitMachine(CutWorld()), begin, close, CutWorld());
    a := begin + close;
  }

  lemma CutCascades()
    ensures Cascades(CutWorld(), 300)
  {
    var chain := CutChain();
    CutIsRising();
    AcceptedIsTail(chain, 100);
    assert chain[0..] == chain;
    assert Late(chain, 2, 100);
    assert CascadesAt(chain, 2, 100) && chain[2].num == 300;
  }

  lemma CutIsInexact(w: World, store: map<nat, Files>)
    requires w == CutWorld() && 200 in store && store[200] == [CutChain()[2]]
    ensures !ExactStore(store, w)
  {
    CutIsRising();
    NoOwnBlock(w, 2, 200);
  }

  lemma CutMissing(store: map<nat, Files>)
    requires store.Keys == {100, 200}
    ensures IsFirstMissing(store, CutWorld(), 300)
  {
    forall k: nat | Cut(CutWorld(), k) && k < 300
      ensures k in store
    {
      BetweenMultiples(if k < 200 then 100 else 200, k, 100);
    }
  }

  /**
   Blocks 100, 199, 300, 400, 500, 600 in bundles of 100, and a crash once the bundles at 100 and
   200 are stored. The merger can restart and go on, but not to the complete store, and what it
   ends with is not what a run without the crash stores.
   */
  lemma CutCascade() returns (a: seq<Event>)
    ensures var w := CutWorld();
            && WorldOk(w) && Uncrashed(a) && CrashStep(Play(InitMachine(w), a, w), w, 300, 2).Some?
            && var m := CrashStep(Play(InitMachine(w), a, w), w, 300, 2).value;
               && CanGoOn(m, w) && !CanComplete(m, w)
               && forall b: seq<Event>, c: seq<Event> |
                    && Uncrashed(b) && Uncrashed(c) && Ends(Play(m, b, w), w) && Ends(Play(InitMachine(w), c, w), w) ::
                    Play(m, b, w).store != Play(InitMachine(w), c, w).store
  {
    var w := CutWorld();
    CutIsRising();
    a := CutRun();
    var before := Play(InitMachine(w), a, w);
    CutIsInexact(w, before.store);
    CutMissing(before.store);
    ResumeIsExact(w, a, 300, 2);
    CutCascades();
    var m := CrashStep(before, w, 300, 2).value;
    RestartBegins(w, a, 300, 2);
    forall b: seq<Event>, c: seq<Event> |
      Uncrashed(b) && Uncrashed(c) && Ends(Play(m, b, w), w) && Ends(Play(InitMachine(w), c, w), w)
      ensures Play(m, b, w).store != Play(InitMachine(w), c, w).store
    {
      RestartAgainstRun(m, b, c, w, 300);
    }
  }
}
