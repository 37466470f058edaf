/** The cursor file: what it records of a run, and what a run restored from it may hand over. */
module PollerRestart {
  import opened Options
  import opened ForkDB
  import opened Poller
  import opened PollerRuns

  /** The saved blocks are one parent-linked chain with rising numbers. */
  ghost predicate SavedChain(blocks: seq<SavedBlock>) {
    && blocks != []
    && (forall i | 0 < i < |blocks| :: blocks[i].prevId == blocks[i - 1].id)
    && (forall i, j | 0 <= i < j < |blocks| :: blocks[i].num < blocks[j].num && blocks[i].id != blocks[j].id)
    && blocks[0].prevId !in SavedIds(blocks)
  }

  /** The chain holds the LIB, or hangs from the LIB the run started on. */
  ghost predicate SavedMeetsLib(sf: StateFile, anchor: string) {
    sf.blocks != [] &&
    (sf.lib.id in SavedIds(sf.blocks) || (sf.blocks[0].prevId == sf.lib.id && sf.lib.id == anchor))
  }

  ghost predicate FileInv(sf: StateFile, lib: Ref, log: seq<Block>, e: Env) {
    && Truthful(e.g, sf)
    && sf.lib == lib
    && SavedChain(sf.blocks)
    && sf.lastFired == sf.blocks[|sf.blocks| - 1]
    && SavedMeetsLib(sf, e.anchor)
    && (forall x | x in sf.blocks :: x.id in e.restored || x.id in Ids(log) || x.num < e.gate)
  }

  /** At every moment the cursor file fits the current LIB, and all it lists was handed over or is gated. */
  ghost predicate SavedInv(s: State, e: Env) {
    s.saved.Some? ==> FileInv(s.saved.value, s.db.lib, s.log, e)
  }

  lemma SavedOfWalk(g: Ledger, links: Links, tip: string)
    requires WellLinked(links) && LinksAgree(g, links) && tip in links
    ensures var blocks := SavedBlocks(links, Walk(links, tip));
            && SavedChain(blocks) && blocks[|blocks| - 1].id == tip && blocks[0].prevId == Root(links, tip)
            && (forall x | x in blocks :: x.id != "" && x.num == g.num(x.id) && x.prevId == g.parent(x.id))
            && (forall id :: id in SavedIds(blocks) <==> id in Walk(links, tip))
  {
    WalkShape(links, tip);
    WalkIsChain(links, tip);
    SavedBlockAt(links, Walk(links, tip));
    SavedIdsAre(links, Walk(links, tip));
  }

  lemma SavedBlockAt(links: Links, seg: seq<string>)
    requires forall i | 0 <= i < |seg| :: seg[i] in links && links[seg[i]].id == seg[i]
    ensures |SavedBlocks(links, seg)| == |seg|
    ensures forall i | 0 <= i < |seg| ::
              SavedBlocks(links, seg)[i] == SavedBlock(seg[i], links[seg[i]].num, links[seg[i]].parentId)
  {
  }

  lemma SavedIdsAre(links: Links, seg: seq<string>)
    requires forall i | 0 <= i < |seg| :: seg[i] in links && links[seg[i]].id == seg[i]
    ensures forall id :: id in SavedIds(SavedBlocks(links, seg)) <==> id in seg
  {
    var blocks := SavedBlocks(links, seg);
    forall id | id in seg
      ensures id in SavedIds(blocks)
    {
      var i :| 0 <= i < |seg| && seg[i] == id;
      assert blocks[i] in blocks;
    }
  }

  /** The file written once everything due in a segment was handed over. */
  lemma NewFile(db: Db, log: seq<Block>, head: string, libNum: nat, tip: string, e: Env)
    requires DbInv(db, e) && WellLinked(db.links) && Settled(db.links, db.fired, e.gate, Walk(db.links, tip))
    requires forall id | id in db.fired :: id in e.restored || id in Ids(log)
    requires tip in db.links && Reaches(db.links, tip, db.lib.id) && head in Walk(db.links, tip)
    ensures var lib := SetLIB(db.links, db.lib, head, libNum);
            FileInv(FileOf(db.links, lib, Walk(db.links, tip)), lib, log, e)
  {
    var seg := Walk(db.links, tip);
    LibAgrees(db, head, libNum, e);
    WalkShape(db.links, tip);
    SavedOfWalk(e.g, db.links, tip);
    LibStaysOnTheWalk(db, tip, head, libNum);
    SettledBlocks(db.links, db.fired, seg, log, e);
  }

  lemma LibAgrees(db: Db, head: string, libNum: nat, e: Env)
    requires DbInv(db, e) && WellLinked(db.links)
    ensures var lib := SetLIB(db.links, db.lib, head, libNum); e.g.num(lib.id) == lib.num
  {
  }

  /** Saving after a segment was fired. */
  lemma FireAndSaveSaves(s: State, b: Block, tip: string, cfg: Config, e: Env)
    requires cfg.gate == e.gate
    requires DbInv(s.db, e) && WellLinked(s.db.links) && Accounted(s.db, s.log, e) && Safe(s.log, e)
    requires tip in s.db.links && Reaches(s.db.links, tip, s.db.lib.id)
    requires b.id in Walk(s.db.links, tip) && SavedInv(s, e)
    ensures SavedInv(FireAndSave(s, b, Walk(s.db.links, tip), cfg).0, e)
  {
    var seg := Walk(s.db.links, tip);
    var due := Due(s.db.links, s.db.fired, cfg.gate, seg);
    var n := Taken(cfg.accepts, due);
    FireAndSaveShape(s, b, seg, cfg, due, n);
    if n == |due| {
      FireKeeps(s.db, s.log, tip, e);
      NewFile(s.db.(fired := s.db.fired + Ids(due)), s.log + due, b.id, b.libNum, tip, e);
    } else {
      IdsAppend(s.log, due[..n]);
    }
  }

  lemma SettledBlocks(links: Links, fired: set<string>, seg: seq<string>, log: seq<Block>, e: Env)
    requires LinksAgree(e.g, links) && Settled(links, fired, e.gate, seg)
    requires forall id | id in fired :: id in e.restored || id in Ids(log)
    ensures forall x | x in SavedBlocks(links, seg) :: x.id in e.restored || x.id in Ids(log) || x.num < e.gate
  {
  }

  lemma LibStaysOnTheWalk(db: Db, tip: string, head: string, libNum: nat)
    requires WellLinked(db.links) && head in Walk(db.links, tip) && Reaches(db.links, tip, db.lib.id)
    ensures var lib := SetLIB(db.links, db.lib, head, libNum);
            lib.id in Walk(db.links, tip) || (lib == db.lib && lib.id == Root(db.links, tip))
  {
    var seg := Walk(db.links, tip);
    var i :| 0 <= i < |seg| && seg[i] == head;
    WalkPrefix(db.links, tip, i);
  }

  /** Every step keeps the cursor file in line with what was handed over. */
  lemma ProcessSaves(s: State, b: Block, cfg: Config, e: Env)
    requires cfg.gate == e.gate && Inv(s, e) && Sound(e.g, b) && SavedInv(s, e)
    ensures WellLinked(AddLink(s.db.links, b)) && SavedInv(Process(s, b, cfg).0, e)
  {
    AddedAgrees(s.db.links, b, e.g);
    if s.db.lib.num <= b.num {
      ArriveKeeps(s, b, e);
      ResolveSaves(s, b, SegmentRef(Arrive(s, b).cur).value.id, cfg, e);
    }
  }

  lemma ResolveSaves(s: State, b: Block, tip: string, cfg: Config, e: Env)
    requires cfg.gate == e.gate && SavedInv(s, e) && Safe(s.log, e)
    requires WellLinked(s.db.links) && WellLinked(AddLink(s.db.links, b))
    requires tip != b.id ==> !Reaches(s.db.links, tip, s.db.lib.id)
    requires var s1 := Arrive(s, b); DbInv(s1.db, e) && Accounted(s1.db, s1.log, e) && tip in s1.db.links
    ensures SavedInv(Resolve(Arrive(s, b), b, tip, cfg).0, e)
  {
    var s1 := Arrive(s, b);
    if Reaches(s1.db.links, tip, s1.db.lib.id) {
      ArrivedOnTheWalk(s, b, tip);
      FireAndSaveSaves(s1.(cur := Connected(s1.cur)), b, tip, cfg, e);
    }
  }

  lemma {:induction false} RunSaves(s: State, num: nat, hash: Option<string>, fetches: seq<Fetch>, cfg: Config, e: Env)
    requires cfg.gate == e.gate && Inv(s, e) && SoundFetches(e.g, fetches) && SavedInv(s, e)
    ensures SavedInv(Run(e.g, s, num, hash, fetches, cfg).0, e)
    decreases |fetches|
  {
    if fetches != [] {
      match fetches[0]
      case Failed =>
      case Skipped =>
        if hash.None? {
          RunSaves(s, num + 1, None, fetches[1..], cfg, e);
        }
      case Got(b) =>
        ProcessSaves(s, b, cfg, e);
        ProcessKeeps(s, b, cfg, e);
        var r := Process(s, b, cfg);
        if r.1.Next? {
          RunSaves(r.0, r.1.num, r.1.hash, fetches[1..], cfg, e);
        }
    }
  }

  // ---- the restored fork database

  function IdsOf(blocks: seq<SavedBlock>): seq<string> {
    seq(|blocks|, i requires 0 <= i < |blocks| => blocks[i].id)
  }

  lemma SavedIdsAppend(blocks: seq<SavedBlock>, x: SavedBlock)
    ensures SavedIds(blocks + [x]) == SavedIds(blocks) + {x.id}
  {
  }

  lemma FrontOfChain(blocks: seq<SavedBlock>)
    requires SavedChain(blocks) && |blocks| > 1
    ensures SavedChain(blocks[..|blocks| - 1])
  {
    var low := blocks[..|blocks| - 1];
    assert blocks == low + [blocks[|blocks| - 1]];
    SavedIdsAppend(low, blocks[|blocks| - 1]);
  }

  /** The walk over the restored blocks gives back the saved segment. */
  lemma {:induction false} RestoredWalk(g: Ledger, blocks: seq<SavedBlock>)
    requires Acyclic(g) && SavedChain(blocks)
    requires forall x | x in blocks :: x.id != "" && x.num == g.num(x.id) && x.prevId == g.parent(x.id)
    ensures WellLinked(RestoreLinks(blocks))
    ensures Walk(RestoreLinks(blocks), blocks[|blocks| - 1].id) == IdsOf(blocks)
    ensures Root(RestoreLinks(blocks), blocks[|blocks| - 1].id) == blocks[0].prevId
    decreases |blocks|
  {
    var k := |blocks| - 1;
    var x := blocks[k];
    var low := blocks[..k];
    assert blocks == low + [x];
    RestoreStep(g, low, x);
    if k > 0 {
      FrontOfChain(blocks);
      RestoredWalk(g, low);
      assert x.prevId == low[k - 1].id;
    }
    IdsOfAppend(low, x);
  }

  lemma RestoreStep(g: Ledger, low: seq<SavedBlock>, x: SavedBlock)
    requires Acyclic(g) && SavedChain(low + [x])
    requires forall y | y in low + [x] :: y.id != "" && y.num == g.num(y.id) && y.prevId == g.parent(y.id)
    ensures WellLinked(RestoreLinks(low)) && WellLinked(RestoreLinks(low + [x]))
    ensures Walk(RestoreLinks(low + [x]), x.id) == Walk(RestoreLinks(low), x.prevId) + [x.id]
    ensures Root(RestoreLinks(low + [x]), x.id) == Root(RestoreLinks(low), x.prevId)
  {
    var blocks := low + [x];
    forall y | y in low
      ensures y in blocks && y.id != x.id
    {
      var i :| 0 <= i < |low| && low[i] == y;
      assert blocks[i].num < blocks[|low|].num;
    }
    RestoreAgrees(g, blocks);
    AgreeingIsWellLinked(g, RestoreLinks(blocks));
    RestoreAgrees(g, low);
    AgreeingIsWellLinked(g, RestoreLinks(low));
    assert blocks[..|blocks| - 1] == low;
    WalkNew(RestoreLinks(low), Block(x.id, x.num, x.prevId, 0, 0));
  }

  lemma IdsOfAppend(low: seq<SavedBlock>, x: SavedBlock)
    ensures IdsOf(low + [x]) == IdsOf(low) + [x.id]
  {
  }

  /**
   Save then restore refines continuing: the restored fork database has the LIB of the
   running one, the last fired block's segment meets it there, all of it is flagged as
   fired, and from the LIB up it holds the same blocks in the same order.
   */
  lemma SaveThenRestore(s: State, b: Block, cfg: Config, e: Env)
    requires cfg.gate == e.gate && Inv(s, e) && Sound(e.g, b) && SavedInv(s, e)
    requires WellLinked(AddLink(s.db.links, b))
    requires var out := Process(s, b, cfg).1; out.Next? && out.hash.None?
    ensures var s' := Process(s, b, cfg).0;
            s'.saved.Some? &&
            var sf := s'.saved.value;
            var (r, num) := InitState(s'.db.lib, Some(sf));
            var top := sf.lastFired.id;
            && num == sf.lastFired.num
            && r.db.lib == s'.db.lib
            && WellLinked(r.db.links) && WellLinked(PurgeBelow(r.db.links, r.db.lib.num)) && WellLinked(s'.db.links)
            && Reaches(r.db.links, top, r.db.lib.id)
            && (forall id | id in Walk(r.db.links, top) :: id in r.db.fired)
            && Walk(PurgeBelow(r.db.links, r.db.lib.num), top) == Walk(s'.db.links, top)
            && (forall id | id in Walk(s'.db.links, top) :: r.db.links[id].num == s'.db.links[id].num
                                                         && r.db.links[id].parentId == s'.db.links[id].parentId)
  {
    ProcessKeeps(s, b, cfg, e);
    ProcessSaves(s, b, cfg, e);
    ArriveKeeps(s, b, e);
    var s1 := Arrive(s, b);
    var tip := SegmentRef(s1.cur).value.id;
    assert Reaches(s1.db.links, tip, s1.db.lib.id);
    ArrivedOnTheWalk(s, b, tip);
    SavedWalk(s1, b, tip, cfg, e);
    var s' := Process(s, b, cfg).0;
    RestoredMeetsLib(s', e);
    RestoredIsTheSame(e, s1.db.links, s');
  }

  /** What a connected step writes down is the walk it fired, and the purge keeps its upper part. */
  lemma SavedWalk(s1: State, b: Block, tip: string, cfg: Config, e: Env)
    requires cfg.gate == e.gate && DbInv(s1.db, e) && WellLinked(s1.db.links) && tip in s1.db.links
    requires Reaches(s1.db.links, tip, s1.db.lib.id)
    requires var out := Resolve(s1, b, tip, cfg).1; out.Next? && out.hash.None?
    ensures var s' := Resolve(s1, b, tip, cfg).0;
            && s'.saved.Some? && s'.saved.value.lastFired.id == tip
            && s'.saved.value.blocks == SavedBlocks(s1.db.links, Walk(s1.db.links, tip))
            && s'.db.links == PurgeBelow(s1.db.links, s'.db.lib.num)
  {
    var seg := Walk(s1.db.links, tip);
    var due := Due(s1.db.links, s1.db.fired, cfg.gate, seg);
    WalkShape(s1.db.links, tip);
    FireAndSaveShape(s1.(cur := Connected(s1.cur)), b, seg, cfg, due, Taken(cfg.accepts, due));
  }

  lemma RestoredMeetsLib(s: State, e: Env)
    requires Acyclic(e.g) && s.saved.Some? && SavedInv(s, e)
    ensures var sf := s.saved.value;
            WellLinked(RestoreLinks(sf.blocks)) && Reaches(RestoreLinks(sf.blocks), sf.lastFired.id, sf.lib.id)
            && Walk(RestoreLinks(sf.blocks), sf.lastFired.id) == IdsOf(sf.blocks)
  {
    var sf := s.saved.value;
    RestoredWalk(e.g, sf.blocks);
    if sf.lib.id in SavedIds(sf.blocks) {
      var x :| x in sf.blocks && x.id == sf.lib.id;
      var i :| 0 <= i < |sf.blocks| && sf.blocks[i] == x;
      assert IdsOf(sf.blocks)[i] == sf.lib.id;
    }
  }

  lemma RestoredIsTheSame(e: Env, links: Links, s: State)
    requires Acyclic(e.g) && s.saved.Some? && SavedInv(s, e)
    requires WellLinked(links) && LinksAgree(e.g, links) && s.saved.value.lastFired.id in links
    requires s.saved.value.blocks == SavedBlocks(links, Walk(links, s.saved.value.lastFired.id))
    requires s.db.links == PurgeBelow(links, s.db.lib.num)
    ensures var sf := s.saved.value;
            var r := RestoreLinks(sf.blocks);
            && WellLinked(r) && WellLinked(PurgeBelow(r, sf.lib.num)) && WellLinked(s.db.links)
            && Walk(PurgeBelow(r, sf.lib.num), sf.lastFired.id) == Walk(s.db.links, sf.lastFired.id)
            && (forall id | id in Walk(s.db.links, sf.lastFired.id) ::
                  id in r && r[id].num == s.db.links[id].num && r[id].parentId == s.db.links[id].parentId)
  {
    var sf := s.saved.value;
    var r := RestoreLinks(sf.blocks);
    RestoredWalk(e.g, sf.blocks);
    RestoreAgrees(e.g, sf.blocks);
    assert IdsOf(sf.blocks) == Walk(links, sf.lastFired.id);
    SameAboveTheCut(e.g, links, r, sf.lastFired.id, s.db.lib.num);
  }

  /** Two databases with the same walk keep the same part of it when purged at the same number. */
  lemma SameAboveTheCut(g: Ledger, links: Links, r: Links, top: string, n: nat)
    requires WellLinked(links) && LinksAgree(g, links) && WellLinked(r) && LinksAgree(g, r)
    requires Walk(r, top) == Walk(links, top)
    ensures WellLinked(PurgeBelow(links, n)) && WellLinked(PurgeBelow(r, n))
    ensures Walk(PurgeBelow(r, n), top) == Walk(PurgeBelow(links, n), top)
    ensures forall id | id in Walk(PurgeBelow(links, n), top) ::
              id in r && r[id].num == links[id].num && r[id].parentId == links[id].parentId
  {
    PurgeIsWellLinked(links, n);
    PurgeIsWellLinked(r, n);
    var k := WalkPurge(links, n, top);
    var j := WalkPurge(r, n, top);
    var seg := Walk(links, top);
    forall i | 0 <= i < |seg|
      ensures seg[i] in r && r[seg[i]].num == links[seg[i]].num && r[seg[i]].parentId == links[seg[i]].parentId
    {
      assert Agrees(g, r[seg[i]]) && Agrees(g, links[seg[i]]);
    }
    assert k < |seg| ==> (k <= k <==> n <= links[seg[k]].num);
    assert j < |seg| ==> (k <= j <==> n <= links[seg[j]].num);
  }

  // ---- runs across a restart

  /** A run restored from a truthful cursor file. */
  ghost function Restart(g: Ledger, start: Ref, sf: StateFile, fetches: seq<Fetch>, cfg: Config): (State, Stop)
    requires Acyclic(g) && Truthful(g, sf) && SoundFetches(g, fetches)
  {
    RestoreAgrees(g, sf.blocks);
    Run(g, InitState(start, Some(sf)).0, sf.lastFired.num, None, fetches, cfg)
  }

  /**
   After a restart, no block of the saved segment is handed over again, and every block
   handed over comes after its parent, in the old run or in the new one, or the parent
   lies below a start gate. The one exception is a run saved before its start block was seen.
   */
  lemma RestartKeepsOrder(s: State, e: Env, start: Ref, fetches: seq<Fetch>, cfg: Config)
    requires Inv(s, e) && SavedInv(s, e) && s.saved.Some? && SoundFetches(e.g, fetches)
    ensures var sf := s.saved.value;
            var log := Restart(e.g, start, sf, fetches, cfg).0.log;
            && (forall i | 0 <= i < |log| :: log[i].id !in SavedIds(sf.blocks))
            && (forall i | 0 <= i < |log| :: FollowsItsParent(s, e, sf, log[..i], log[i], cfg.gate))
  {
    var sf := s.saved.value;
    var e' := RestoredEnv(e.g, cfg.gate, sf);
    RestoredStart(e.g, cfg.gate, start, sf);
    RunKeeps(InitState(start, Some(sf)).0, sf.lastFired.num, None, fetches, cfg, e');
    var log := Restart(e.g, start, sf, fetches, cfg).0.log;
    forall i | 0 <= i < |log|
      ensures log[i].id !in SavedIds(sf.blocks) && FollowsItsParent(s, e, sf, log[..i], log[i], cfg.gate)
    {
      SafeAt(log, i, e');
      FitsAfterRestart(s, e, log[..i], log[i], cfg.gate);
    }
  }

  /** The parent was handed over in the old run or the new one, or lies below a start gate. */
  ghost predicate FollowsItsParent(s: State, e: Env, sf: StateFile, before: seq<Block>, b: Block, gate: nat) {
    || b.parentId in Ids(before)
    || b.parentId in Ids(s.log) || b.parentId in e.restored
    || e.g.num(b.parentId) < gate || e.g.num(b.parentId) < e.gate
    || (sf.lib.id !in SavedIds(sf.blocks) && sf.lib.id == e.anchor && (b.id == e.anchor || b.parentId == e.anchor))
  }

  lemma FitsAfterRestart(s: State, e: Env, before: seq<Block>, b: Block, gate: nat)
    requires SavedInv(s, e) && s.saved.Some?
    requires Fits(before, b, RestoredEnv(e.g, gate, s.saved.value))
    ensures FollowsItsParent(s, e, s.saved.value, before, b, gate)
  {
    var sf := s.saved.value;
    if b.parentId in SavedIds(sf.blocks) {
      var x :| x in sf.blocks && x.id == b.parentId;
    }
  }

  /**
   The saved segment is all a restart remembers: a block on top of it is handed over
   again exactly when it is not one of the saved blocks, whether or not the old run
   had handed it over as part of another fork.
   */
  lemma RestartForgetsOtherForks(s: State, e: Env, start: Ref, b: Block, cfg: Config)
    requires Inv(s, e) && SavedInv(s, e) && s.saved.Some? && Sound(e.g, b) && cfg.gate <= b.num && cfg.accepts(b)
    requires b.parentId in SavedIds(s.saved.value.blocks) && s.db.lib.num <= b.num
    requires WellLinked(AddLink(RestoreLinks(s.saved.value.blocks), b))
    requires Reaches(AddLink(RestoreLinks(s.saved.value.blocks), b), b.id, s.db.lib.id)
    ensures var log := Process(InitState(start, s.saved).0, b, cfg).0.log;
            log == if b.id in SavedIds(s.saved.value.blocks) then [] else [b]
  {
    var sf := s.saved.value;
    RestoredStart(e.g, cfg.gate, start, sf);
    HandedOverAfresh(InitState(start, Some(sf)).0, b, cfg);
  }

  /** From a state in which all that is stored was handed over, only a new block is. */
  lemma HandedOverAfresh(s: State, b: Block, cfg: Config)
    requires s.log == [] && s.cur.state.Continuous? && s.db.lib.num <= b.num && cfg.gate <= b.num && cfg.accepts(b)
    requires s.db.fired == s.db.links.Keys && forall id | id in s.db.links :: s.db.links[id].id == id
    requires WellLinked(AddLink(s.db.links, b)) && Reaches(AddLink(s.db.links, b), b.id, s.db.lib.id)
    ensures Process(s, b, cfg).0.log == if b.id in s.db.links then [] else [b]
  {
    var s1 := Arrive(s, b);
    OnlyNewIsDue(s1.db.links, s1.db.fired, b, cfg);
    FireAndSaveLog(s1.(cur := Connected(s1.cur)), b, b.id, cfg);
    ContinuousStep(s, b, cfg);
  }

  /** Without a pending tip, a block that meets the LIB has its own segment fired. */
  lemma ContinuousStep(s: State, b: Block, cfg: Config)
    requires s.cur.state.Continuous? && s.db.lib.num <= b.num
    requires WellLinked(AddLink(s.db.links, b)) && Reaches(AddLink(s.db.links, b), b.id, s.db.lib.id)
    ensures var s1 := Arrive(s, b);
            Process(s, b, cfg) == FireAndSave(s1.(cur := Connected(s1.cur)), b, Walk(s1.db.links, b.id), cfg)
  {
  }

  lemma FireAndSaveLog(s: State, b: Block, tip: string, cfg: Config)
    requires WellLinked(s.db.links) && tip in s.db.links
    ensures var due := Due(s.db.links, s.db.fired, cfg.gate, Walk(s.db.links, tip));
            FireAndSave(s, b, Walk(s.db.links, tip), cfg).0.log == s.log + due[..Taken(cfg.accepts, due)]
  {
    var due := Due(s.db.links, s.db.fired, cfg.gate, Walk(s.db.links, tip));
    FireAndSaveShape(s, b, Walk(s.db.links, tip), cfg, due, Taken(cfg.accepts, due));
  }

  lemma OnlyNewIsDue(links: Links, fired: set<string>, b: Block, cfg: Config)
    requires WellLinked(links) && b.id in links && cfg.gate <= b.num && cfg.accepts(b)
    requires forall id | id in links :: links[id].id == id && (id in fired || id == b.id)
    requires b.id !in fired ==> links[b.id] == b
    ensures var due := Due(links, fired, cfg.gate, Walk(links, b.id));
            due == (if b.id in fired then [] else [b]) && due[..Taken(cfg.accepts, due)] == due
  {
    WalkShape(links, b.id);
    WalkIsChain(links, b.id);
    AllFired(links, fired, cfg.gate, Walk(links, b.id), b);
    assert Taken(cfg.accepts, [b][1..]) == 0;
  }

  lemma {:induction false} NothingDue(links: Links, fired: set<string>, gate: nat, seg: seq<string>)
    requires forall i | 0 <= i < |seg| :: seg[i] in links && links[seg[i]].id in fired
    ensures Due(links, fired, gate, seg) == []
  {
    if seg != [] {
      NothingDue(links, fired, gate, seg[..|seg| - 1]);
    }
  }

  lemma AllFired(links: Links, fired: set<string>, gate: nat, seg: seq<string>, b: Block)
    requires seg != [] && seg[|seg| - 1] == b.id && IsChain(links, seg) && gate <= b.num
    requires forall id | id in links :: links[id].id == id && (id in fired || id == b.id)
    requires b.id !in fired ==> links[b.id] == b
    ensures Due(links, fired, gate, seg) == if b.id in fired then [] else [b]
  {
    var low := seg[..|seg| - 1];
    forall i | 0 <= i < |low|
      ensures low[i] in links && links[low[i]].id in fired
    {
      assert seg[i] != seg[|seg| - 1];
    }
    NothingDue(links, fired, gate, low);
  }
}
