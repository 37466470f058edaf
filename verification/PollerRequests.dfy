/**
 What the fetch loop asks for: the number after the last tip, or, while a tip is pending, the
 block that tip misses; and that asking so backfills the tip.
 */
module PollerRequests {
  import opened Options
  import opened ForkDB
  import opened Poller
  import opened PollerRuns
  import opened PollerRestart
  import opened PollerBackfill

  // ---- what one step asks for

  /** Fetched blocks come with the number of their parent; only restored ones do not. */
  ghost predicate ParentNumsFetched(links: Links, e: Env) {
    forall id | id in links && id !in e.restored :: links[id].parentNum == e.g.num(links[id].parentId)
  }

  ghost predicate Asking(s: State, e: Env) {
    BackInv(s, e) && ParentNumsFetched(s.db.links, e)
  }

  /**
   A tip is pending, and the block asked for is the one its walk stops on, by the number that the
   lowest block of the walk gives for its parent. That is the right one unless that block was
   restored and the tip does not descend from the LIB.
   */
  ghost predicate AsksForMissing(s: State, num: nat, id: string, e: Env) {
    && s.cur.state.Incomplete? && s.cur.incomplete.Some? && WellLinked(s.db.links)
    && var tip := s.cur.incomplete.value.id;
       && tip in s.db.links && !Reaches(s.db.links, tip, s.db.lib.id)
       && id == Root(s.db.links, tip) && num == Asked(s, tip)
       && (Descends(e.g, tip, s.db.lib.id) || Walk(s.db.links, tip)[0] !in e.restored ==> num == e.g.num(id))
  }

  /** No tip is pending; `num` is one past the tip last handed over and saved. */
  ghost predicate AsksForNext(s: State, num: nat, e: Env) {
    && s.cur.state.Continuous? && s.cur.incomplete.None? && s.saved.Some?
    && var tip := s.saved.value.lastFired.id;
       tip in s.db.links && num == e.g.num(tip) + 1
  }

  lemma LinksFetched(s: State, b: Block, cfg: Config, e: Env)
    requires Sound(e.g, b) && ParentNumsFetched(s.db.links, e) && WellLinked(AddLink(s.db.links, b))
    ensures ParentNumsFetched(Process(s, b, cfg).0.db.links, e)
  {
    if s.db.lib.num <= b.num {
      var s1 := Arrive(s, b);
      var tip := SegmentRef(s1.cur);
      if tip.Some? && Reaches(s1.db.links, tip.value.id, s1.db.lib.id) {
        FireAndSaveLinks(s1.(cur := Connected(s1.cur)), b, Walk(s1.db.links, tip.value.id), cfg);
      }
    }
  }

  /** After a step that goes on, the next request is for the missing block or for the next number. */
  lemma StepAsks(s: State, b: Block, cfg: Config, e: Env)
    requires cfg.gate == e.gate && Asking(s, e) && Sound(e.g, b)
    ensures WellLinked(AddLink(s.db.links, b))
    ensures var (s', out) := Process(s, b, cfg);
            && Asking(s', e)
            && (out.Next? && out.hash.Some? ==> AsksForMissing(s', out.num, out.hash.value, e))
            && (out.Next? && out.hash.None? ==> AsksForNext(s', out.num, e))
  {
    KeepsEverything(s, b, cfg, e);
    LinksFetched(s, b, cfg, e);
    if s.db.lib.num <= b.num {
      ArriveKeeps(s, b, e);
      var s1 := Arrive(s, b);
      var tip := SegmentRef(s1.cur).value.id;
      if Reaches(s1.db.links, tip, s1.db.lib.id) {
        ArrivedOnTheWalk(s, b, tip);
        assert Agrees(e.g, s1.db.links[b.id]);
        ConnectedAsks(s1, b, tip, cfg, e);
      } else {
        PendingAsks(s1, b, tip, cfg, e);
      }
    }
  }

  lemma HeadBelowTip(links: Links, head: string, tip: string)
    requires WellLinked(links) && head in Walk(links, tip)
    ensures tip in links && links[head].num <= links[tip].num
  {
    WalkShape(links, tip);
    var seg := Walk(links, tip);
    var i :| 0 <= i < |seg| && seg[i] == head;
    assert i < |seg| - 1 ==> links[seg[i]].num < links[seg[|seg| - 1]].num;
  }

  /** The LIB moves no higher than the fetched block. */
  lemma LibBelowHead(links: Links, lib: Ref, head: string, libNum: nat)
    requires WellLinked(links) && head in links && lib.num <= links[head].num
    ensures SetLIB(links, lib, head, libNum).num <= links[head].num
  {
  }

  lemma ConnectedAsks(s: State, b: Block, tip: string, cfg: Config, e: Env)
    requires DbInv(s.db, e) && WellLinked(s.db.links) && Reaches(s.db.links, tip, s.db.lib.id)
    requires b.id in Walk(s.db.links, tip) && s.db.lib.num <= s.db.links[b.id].num
    ensures var (s', out) := Resolve(s, b, tip, cfg);
            out.Next? ==> out.hash.None? && AsksForNext(s', out.num, e)
  {
    var seg := Walk(s.db.links, tip);
    var due := Due(s.db.links, s.db.fired, cfg.gate, seg);
    HeadBelowTip(s.db.links, b.id, tip);
    LibBelowHead(s.db.links, s.db.lib, b.id, b.libNum);
    WalkShape(s.db.links, tip);
    TipNumber(s.db, tip, e);
    FireAndSaveShape(s.(cur := Connected(s.cur)), b, seg, cfg, due, Taken(cfg.accepts, due));
  }

  lemma PendingAsks(s: State, b: Block, tip: string, cfg: Config, e: Env)
    requires WellLinked(s.db.links) && tip in s.db.links && !Reaches(s.db.links, tip, s.db.lib.id)
    requires SegmentRef(s.cur).Some? && SegmentRef(s.cur).value.id == tip
    requires Asking(Resolve(s, b, tip, cfg).0, e)
    ensures var (s', out) := Resolve(s, b, tip, cfg);
            out.Next? && out.hash.Some? && AsksForMissing(s', out.num, out.hash.value, e)
  {
    WalkShape(s.db.links, tip);
    if Descends(e.g, tip, s.db.lib.id) {
      AsksForTheMissingParent(s.db, e.g, tip);
    }
  }

  // ---- what a run asks for

  /** How many numbers were skipped since the last block came. */
  function SkipsSince(fetches: seq<Fetch>): nat {
    if fetches == [] || !fetches[|fetches| - 1].Skipped? then 0
    else 1 + SkipsSince(fetches[..|fetches| - 1])
  }

  predicate BroughtABlock(fetches: seq<Fetch>) {
    exists i :: 0 <= i < |fetches| && fetches[i].Got?
  }

  /** Where a run starts asking: its start block, or the block last fired before it was stopped. */
  function FirstNumber(start: Ref, file: Option<StateFile>): nat {
    match file
    case None => start.num
    case Some(sf) => sf.lastFired.num
  }

  /**
   What a run that started at `first` waits for: with a hash, for the block its pending tip
   misses, and nothing was skipped since; without one, for the number after the tip last handed
   over, or the first number if no block came yet, moved up by one for every skip since.
   */
  ghost predicate WaitsFor(s: State, num: nat, hash: Option<string>, fetches: seq<Fetch>, first: nat, e: Env) {
    match hash
    case Some(id) => SkipsSince(fetches) == 0 && BroughtABlock(fetches) && AsksForMissing(s, num, id, e)
    case None =>
      s.cur.state.Continuous? && s.cur.incomplete.None? && SkipsSince(fetches) <= num &&
      var from := num - SkipsSince(fetches);
      if BroughtABlock(fetches) then AsksForNext(s, from, e) else from == first
  }

  lemma {:induction false} RunWaits(s: State, first: nat, fetches: seq<Fetch>, cfg: Config, e: Env)
    requires cfg.gate == e.gate && Asking(s, e) && s.cur == START && SoundFetches(e.g, fetches)
    ensures var (s', stop) := Run(e.g, s, first, None, fetches, cfg);
            Asking(s', e) && (stop.Waiting? ==> WaitsFor(s', stop.num, stop.hash, fetches, first, e))
    decreases |fetches|
  {
    if fetches != [] {
      var front, f := fetches[..|fetches| - 1], fetches[|fetches| - 1];
      assert fetches == front + [f];
      RunWaits(s, first, front, cfg, e);
      RunOneMore(e.g, s, first, None, front, f, cfg);
      var (s1, stop) := Run(e.g, s, first, None, front, cfg);
      if stop.Waiting? && f.Got? {
        StepAsks(s1, f.blk, cfg, e);
      }
      BroughtOneMore(front, f);
    }
  }

  lemma BroughtOneMore(front: seq<Fetch>, f: Fetch)
    ensures BroughtABlock(front + [f]) <==> BroughtABlock(front) || f.Got?
    ensures SkipsSince(front + [f]) == if f.Skipped? then SkipsSince(front) + 1 else 0
  {
    var all := front + [f];
    assert all[..|front|] == front && all[|front|] == f;
    if BroughtABlock(front) {
      var i :| 0 <= i < |front| && front[i].Got?;
      assert all[i].Got?;
    }
  }

  lemma StartAsks(g: Ledger, start: Ref, file: Option<StateFile>, gate: nat)
    requires Acyclic(g) && g.num(start.id) == start.num && FileTrusted(g, file)
    ensures var (s, num) := InitState(start, file);
            && Asking(s, StartEnv(g, gate, start, file)) && num == FirstNumber(start, file)
            && s.cur == START && s.log == [] && s.saved == file
  {
    StartIsReady(g, gate, start, file);
  }

  /** A run from a start block or a cursor file. */
  ghost function RunFrom(g: Ledger, start: Ref, file: Option<StateFile>, fetches: seq<Fetch>, cfg: Config)
    : (State, Stop)
    requires Acyclic(g) && g.num(start.id) == start.num && FileTrusted(g, file) && SoundFetches(g, fetches)
  {
    StartAsks(g, start, file, cfg.gate);
    var (s, num) := InitState(start, file);
    Run(g, s, num, None, fetches, cfg)
  }

  /** Every run, whatever it is answered, waits for the right block. */
  lemma EveryRunWaits(g: Ledger, start: Ref, file: Option<StateFile>, fetches: seq<Fetch>, cfg: Config)
    requires Acyclic(g) && g.num(start.id) == start.num && FileTrusted(g, file) && SoundFetches(g, fetches)
    ensures var (s, stop) := RunFrom(g, start, file, fetches, cfg);
            stop.Waiting? ==>
              WaitsFor(s, stop.num, stop.hash, fetches, FirstNumber(start, file), StartEnv(g, cfg.gate, start, file))
  {
    StartAsks(g, start, file, cfg.gate);
    var (s, num) := InitState(start, file);
    RunWaits(s, num, fetches, cfg, StartEnv(g, cfg.gate, start, file));
  }

  // ---- the whole backfill

  /** A fetcher that answers any number on the tip's own chain with the tip's ancestor there. */
  ghost predicate ServesAncestors(g: Ledger, tip: string, fetch: nat -> Block) {
    forall x: string :: ServesAncestor(g, tip, fetch, x)
  }

  ghost predicate ServesAncestor(g: Ledger, tip: string, fetch: nat -> Block, x: string) {
    Descends(g, tip, x) ==>
      Sound(g, fetch(g.num(x))) && fetch(g.num(x)).num == g.num(x) && Descends(g, tip, fetch(g.num(x)).id)
  }

  lemma AsksAnAncestor(s: State, fetch: nat -> Block, e: Env, tip: string) returns (b: Block)
    requires BackInv(s, e) && Pending(s, e, tip) && ServesAncestors(e.g, tip, fetch)
    ensures b == fetch(Asked(s, tip)) && b.num == Asked(s, tip) && Sound(e.g, b) && Descends(e.g, tip, b.id)
  {
    b := fetch(Asked(s, tip));
    AsksForTheMissingParent(s.db, e.g, tip);
    MissingIsAboveLib(e.g, s.db.links, tip, s.db.lib.id);
    assert ServesAncestor(e.g, tip, fetch, Root(s.db.links, tip));
  }

  /** Request number `i` of the run is for a block by its hash, and the fetcher answers with that block. */
  ghost predicate AnswersAt(g: Ledger, s: State, first: nat, fetches: seq<Fetch>, i: nat, fetch: nat -> Block,
                            cfg: Config)
    requires Acyclic(g) && LinksAgree(g, s.db.links) && SoundFetches(g, fetches) && i < |fetches|
  {
    var stop := Run(g, s, first, None, fetches[..i], cfg).1;
    stop.Waiting? && fetches[i] == Got(fetch(stop.num)) && stop.hash == Some(fetch(stop.num).id)
  }

  /** From request number `n` on it is so. */
  ghost predicate AnswersFrom(g: Ledger, s: State, first: nat, fetches: seq<Fetch>, n: nat, fetch: nat -> Block,
                              cfg: Config)
    requires Acyclic(g) && LinksAgree(g, s.db.links) && SoundFetches(g, fetches)
  {
    forall i: nat | n <= i < |fetches| :: AnswersAt(g, s, first, fetches, i, fetch, cfg)
  }

  lemma AnswersOneMore(g: Ledger, s: State, first: nat, fetches: seq<Fetch>, n: nat, fetch: nat -> Block,
                       cfg: Config, b: Block)
    requires Acyclic(g) && LinksAgree(g, s.db.links) && SoundFetches(g, fetches) && SoundFetches(g, fetches + [Got(b)])
    requires AnswersFrom(g, s, first, fetches, n, fetch, cfg)
    requires var stop := Run(g, s, first, None, fetches, cfg).1;
             stop.Waiting? && stop.hash == Some(b.id) && b == fetch(stop.num)
    ensures AnswersFrom(g, s, first, fetches + [Got(b)], n, fetch, cfg)
  {
    var all := fetches + [Got(b)];
    forall i: nat | n <= i < |all|
      ensures AnswersAt(g, s, first, all, i, fetch, cfg)
    {
      if i < |fetches| {
        assert all[..i] == fetches[..i];
        assert AnswersAt(g, s, first, fetches, i, fetch, cfg);
      } else {
        assert all[..i] == fetches;
      }
    }
  }

  ghost predicate Joined(s: State, stop: Stop, e: Env, tip: string) {
    stop == Stopped(HandlerFailed) || (stop == Waiting(e.g.num(tip) + 1, None) && s.cur.state.Continuous?)
  }

  /**
   Backfill terminates. `before` left the run waiting for an ancestor of its pending tip. Answered
   request by request with the blocks it asks for, the run joins the tip to the LIB and goes on
   after it, or the handler refuses a block, after no more answers than there are numbers from the
   LIB to the first one asked for.
   */
  lemma {:induction false} AnsweredTipJoins(s0: State, first: nat, before: seq<Fetch>, n: nat, fetch: nat -> Block,
                                            cfg: Config, e: Env, s: State, tip: string) returns (all: seq<Fetch>)
    requires cfg.gate == e.gate && Acyclic(e.g) && LinksAgree(e.g, s0.db.links) && SoundFetches(e.g, before)
    requires BackInv(s, e) && Pending(s, e, tip) && ServesAncestors(e.g, tip, fetch)
    requires Run(e.g, s0, first, None, before, cfg) == (s, Waiting(Asked(s, tip), Some(Root(s.db.links, tip))))
    requires AnswersFrom(e.g, s0, first, before, n, fetch, cfg)
    ensures before < all && |all| - |before| <= Asked(s, tip) - s.db.lib.num
    ensures SoundFetches(e.g, all) && AnswersFrom(e.g, s0, first, all, n, fetch, cfg)
    ensures var r := Run(e.g, s0, first, None, all, cfg); Joined(r.0, r.1, e, tip)
    decreases Asked(s, tip)
  {
    var b := AsksAnAncestor(s, fetch, e, tip);
    BackfillFetch(s, b, cfg, e, tip);
    all := before + [Got(b)];
    RunOneMore(e.g, s0, first, None, before, Got(b), cfg);
    AnswersOneMore(e.g, s0, first, before, n, fetch, cfg, b);
    var r := Process(s, b, cfg);
    if StillBackfilling(s, r.0, r.1, b.num, e, tip) {
      all := AnsweredTipJoins(s0, first, all, n, fetch, cfg, e, r.0, tip);
    }
  }

  /** So for every run: whenever it waits by hash for a tip that descends from the LIB, asking gets it there. */
  lemma BackfillTerminates(g: Ledger, start: Ref, file: Option<StateFile>, before: seq<Fetch>, fetch: nat -> Block,
                           cfg: Config) returns (all: seq<Fetch>)
    requires Acyclic(g) && g.num(start.id) == start.num && FileTrusted(g, file) && SoundFetches(g, before)
    requires var (s, stop) := RunFrom(g, start, file, before, cfg);
             stop.Waiting? && stop.hash.Some? && s.cur.incomplete.Some? &&
             var tip := s.cur.incomplete.value.id;
             Descends(g, tip, s.db.lib.id) && ServesAncestors(g, tip, fetch)
    ensures SoundFetches(g, all) && before < all && LinksAgree(g, InitState(start, file).0.db.links)
    ensures var (s0, first) := InitState(start, file);
            AnswersFrom(g, s0, first, all, |before|, fetch, cfg)
    ensures var (s, stop) := RunFrom(g, start, file, before, cfg);
            var r := RunFrom(g, start, file, all, cfg);
            && |all| - |before| <= stop.num - s.db.lib.num
            && Joined(r.0, r.1, StartEnv(g, cfg.gate, start, file), s.cur.incomplete.value.id)
  {
    var e := StartEnv(g, cfg.gate, start, file);
    var (s0, first) := InitState(start, file);
    StartAsks(g, start, file, cfg.gate);
    RunWaits(s0, first, before, cfg, e);
    var (s, stop) := Run(g, s0, first, None, before, cfg);
    all := AnsweredTipJoins(s0, first, before, |before|, fetch, cfg, e, s, s.cur.incomplete.value.id);
  }
}
