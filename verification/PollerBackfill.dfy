/** Backfilling: a pending tip that descends from the LIB joins it after a bounded number of fetches. */
module PollerBackfill {
  import opened Options
  import opened ForkDB
  import opened Poller
  import opened PollerRuns
  import opened PollerRestart

  /** `anc` is `id` itself or one of its ancestors on the chain. */
  ghost predicate Descends(g: Ledger, id: string, anc: string)
    decreases g.num(id)
  {
    id == anc
    || (id != "" && g.parent(id) != "" && g.num(g.parent(id)) < g.num(id) && Descends(g, g.parent(id), anc))
  }

  lemma {:induction false} DescendantIsAbove(g: Ledger, id: string, anc: string)
    requires Descends(g, id, anc)
    ensures id == anc || g.num(anc) < g.num(id)
    decreases g.num(id)
  {
    if id != anc {
      DescendantIsAbove(g, g.parent(id), anc);
    }
  }

  /** A block has at most one ancestor with a given number. */
  lemma {:induction false} OneAncestorPerNumber(g: Ledger, id: string, x: string, y: string)
    requires Descends(g, id, x) && Descends(g, id, y) && g.num(x) == g.num(y)
    ensures x == y
    decreases g.num(id)
  {
    if id == x {
      DescendantIsAbove(g, id, y);
    } else if id == y {
      DescendantIsAbove(g, id, x);
    } else {
      OneAncestorPerNumber(g, g.parent(id), x, y);
    }
  }

  /** A tip that descends from the LIB but does not meet it stops on a missing block above the LIB. */
  lemma {:induction false} MissingIsAboveLib(g: Ledger, links: Links, tip: string, lib: string)
    requires Acyclic(g) && LinksAgree(g, links) && WellLinked(links)
    requires Descends(g, tip, lib) && !Reaches(links, tip, lib)
    ensures Descends(g, tip, Root(links, tip)) && Descends(g, Root(links, tip), lib)
    ensures g.num(lib) < g.num(Root(links, tip)) <= g.num(tip) && Root(links, tip) != ""
    decreases Height(links, tip)
  {
    if tip in links {
      assert AboveParent(links, tip);
      assert Agrees(g, links[tip]);
      MissingIsAboveLib(g, links, links[tip].parentId, lib);
    } else {
      DescendantIsAbove(g, tip, lib);
    }
  }

  /**
   A restored block carries no parent number; that never matters, because its parent is
   stored or lies at or below the LIB, or the block itself does.
   */
  ghost predicate ParentNumsKnown(db: Db, g: Ledger) {
    forall id {:trigger ParentNumKnown(db, g, id)} | id in db.links :: ParentNumKnown(db, g, id)
  }

  ghost predicate ParentNumKnown(db: Db, g: Ledger, id: string)
    requires id in db.links
  {
    || db.links[id].parentNum == g.num(db.links[id].parentId)
    || db.links[id].parentId in db.links
    || g.num(db.links[id].parentId) <= db.lib.num
    || db.links[id].num <= db.lib.num
  }

  /** The number asked for is that of the missing block. */
  lemma AsksForTheMissingParent(db: Db, g: Ledger, tip: string)
    requires Acyclic(g) && LinksAgree(g, db.links) && WellLinked(db.links) && ParentNumsKnown(db, g)
    requires g.num(db.lib.id) == db.lib.num
    requires tip in db.links && Descends(g, tip, db.lib.id) && !Reaches(db.links, tip, db.lib.id)
    ensures var bottom := db.links[Walk(db.links, tip)[0]];
            && Walk(db.links, tip) != []
            && bottom.parentId == Root(db.links, tip)
            && bottom.parentNum == g.num(Root(db.links, tip))
            && db.lib.num < bottom.parentNum < bottom.num <= g.num(tip)
  {
    MissingIsAboveLib(g, db.links, tip, db.lib.id);
    WalkShape(db.links, tip);
    var seg := Walk(db.links, tip);
    assert ParentNumKnown(db, g, seg[0]);
    assert RisesFromParent(g, seg[0]) && Agrees(g, db.links[seg[0]]) && Agrees(g, db.links[tip]);
    assert |seg| > 1 ==> db.links[seg[0]].num < db.links[seg[|seg| - 1]].num;
  }

  // ---- one fetch

  ghost predicate BackInv(s: State, e: Env) {
    Inv(s, e) && SavedInv(s, e) && ParentNumsKnown(s.db, e.g)
  }

  lemma ParentNumsKept(s: State, b: Block, cfg: Config, e: Env)
    requires cfg.gate == e.gate && Inv(s, e) && Sound(e.g, b) && ParentNumsKnown(s.db, e.g)
    ensures WellLinked(AddLink(s.db.links, b)) && ParentNumsKnown(Process(s, b, cfg).0.db, e.g)
  {
    AddedAgrees(s.db.links, b, e.g);
    if s.db.lib.num <= b.num {
      ArriveKeeps(s, b, e);
      ArriveParentNums(s, b, e.g);
      var s1 := Arrive(s, b);
      var tip := SegmentRef(s1.cur).value.id;
      if Reaches(s1.db.links, tip, s1.db.lib.id) {
        FireAndSaveParentNums(s1.(cur := Connected(s1.cur)), b, tip, cfg, e);
      }
    }
  }

  lemma ArriveParentNums(s: State, b: Block, g: Ledger)
    requires Sound(g, b) && ParentNumsKnown(s.db, g)
    ensures ParentNumsKnown(Arrive(s, b).db, g)
  {
    var db := Arrive(s, b).db;
    forall id | id in db.links
      ensures ParentNumKnown(db, g, id)
    {
      assert id in s.db.links ==> ParentNumKnown(s.db, g, id);
    }
  }

  /** Only the links and the LIB matter here. */
  lemma ParentNumsOf(db: Db, db': Db, g: Ledger)
    requires ParentNumsKnown(db, g) && db'.links == db.links && db'.lib == db.lib
    ensures ParentNumsKnown(db', g)
  {
    forall id | id in db'.links
      ensures ParentNumKnown(db', g, id)
    {
      assert ParentNumKnown(db, g, id);
    }
  }

  lemma FireAndSaveParentNums(s: State, b: Block, tip: string, cfg: Config, e: Env)
    requires cfg.gate == e.gate && DbInv(s.db, e) && WellLinked(s.db.links) && ParentNumsKnown(s.db, e.g)
    requires tip in s.db.links
    ensures ParentNumsKnown(FireAndSave(s, b, Walk(s.db.links, tip), cfg).0.db, e.g)
  {
    FireAndSaveLinks(s, b, Walk(s.db.links, tip), cfg);
    var db' := FireAndSave(s, b, Walk(s.db.links, tip), cfg).0.db;
    var lib := SetLIB(s.db.links, s.db.lib, b.id, b.libNum);
    if db'.lib == s.db.lib && db'.links == s.db.links {
      ParentNumsOf(s.db, db', e.g);
    } else {
      PurgeParentNums(s.db, lib, e);
      ParentNumsOf(s.db.(links := PurgeBelow(s.db.links, lib.num), lib := lib), db', e.g);
    }
  }

  /** Links and LIB are left alone when the handler fails, and purged up to the new LIB when it does not. */
  lemma FireAndSaveLinks(s: State, b: Block, seg: seq<string>, cfg: Config)
    requires WellLinked(s.db.links) && forall i | 0 <= i < |seg| :: seg[i] in s.db.links
    ensures var db := FireAndSave(s, b, seg, cfg).0.db;
            var lib := SetLIB(s.db.links, s.db.lib, b.id, b.libNum);
            || (db.links == s.db.links && db.lib == s.db.lib)
            || (db.links == PurgeBelow(s.db.links, lib.num) && db.lib == lib)
  {
  }

  lemma PurgeParentNums(db: Db, lib: Ref, e: Env)
    requires LinksAgree(e.g, db.links) && ParentNumsKnown(db, e.g) && db.lib.num <= lib.num
    ensures ParentNumsKnown(db.(links := PurgeBelow(db.links, lib.num), lib := lib), e.g)
  {
    var db' := db.(links := PurgeBelow(db.links, lib.num), lib := lib);
    forall id | id in db'.links
      ensures ParentNumKnown(db', e.g, id)
    {
      assert ParentNumKnown(db, e.g, id);
      if db.links[id].parentId in db.links {
        assert Agrees(e.g, db.links[db.links[id].parentId]);
      }
    }
  }

  ghost predicate Pending(s: State, e: Env, tip: string) {
    && s.cur.state.Incomplete? && s.cur.incomplete.Some? && s.cur.incomplete.value.id == tip
    && Descends(e.g, tip, s.db.lib.id)
  }

  /** What a pending poller asks for. */
  function Asked(s: State, tip: string): nat
    requires WellLinked(s.db.links) && tip in s.db.links
  {
    assert Walk(s.db.links, tip) != [] by { WalkShape(s.db.links, tip); }
    s.db.links[Walk(s.db.links, tip)[0]].parentNum
  }

  /** An ancestor of the pending tip with the number asked for is the block the tip misses. */
  lemma BringsTheMissingBlock(s: State, b: Block, e: Env, tip: string)
    requires BackInv(s, e) && Pending(s, e, tip) && Sound(e.g, b)
    requires b.num == Asked(s, tip) && Descends(e.g, tip, b.id)
    ensures b.id !in s.db.links && b.id == Root(s.db.links, tip)
    ensures s.db.lib.num < b.num < e.g.num(tip)
  {
    AsksForTheMissingParent(s.db, e.g, tip);
    MissingIsAboveLib(e.g, s.db.links, tip, s.db.lib.id);
    OneAncestorPerNumber(e.g, tip, b.id, Root(s.db.links, tip));
    WalkShape(s.db.links, tip);
  }

  lemma KeepsEverything(s: State, b: Block, cfg: Config, e: Env)
    requires cfg.gate == e.gate && BackInv(s, e) && Sound(e.g, b)
    ensures WellLinked(AddLink(s.db.links, b))
    ensures BackInv(Process(s, b, cfg).0, e)
  {
    ParentNumsKept(s, b, cfg, e);
    ProcessKeeps(s, b, cfg, e);
    ProcessSaves(s, b, cfg, e);
  }

  /** A tip that joins the LIB makes the poller ask for the number after it. */
  lemma Joins(s: State, b: Block, cfg: Config, e: Env, tip: string)
    requires cfg.gate == e.gate && BackInv(s, e) && Pending(s, e, tip) && Sound(e.g, b) && s.db.lib.num <= b.num
    requires b.id !in s.db.links && WellLinked(AddLink(s.db.links, b))
    requires Reaches(AddLink(s.db.links, b), tip, s.db.lib.id)
    ensures var r := Process(s, b, cfg);
            r.1 == HandlerFailed || (r.1 == Next(e.g.num(tip) + 1, None) && r.0.cur.state.Continuous?)
  {
    ArriveKeeps(s, b, e);
    var s1 := Arrive(s, b);
    FireAndSaveOutcome(s1.(cur := Connected(s1.cur)), b, tip, cfg);
    TipNumber(s1.db, tip, e);
    ConnectedCursor(s1.(cur := Connected(s1.cur)), b, tip, cfg);
  }

  /**
   A fetch that returns an ancestor of the pending tip brings exactly its missing block:
   either the tip joins the LIB, or it stays pending and the next number asked for is
   strictly lower, and still above the LIB.
   */
  lemma BackfillFetch(s: State, b: Block, cfg: Config, e: Env, tip: string)
    requires cfg.gate == e.gate && BackInv(s, e) && Pending(s, e, tip) && Sound(e.g, b)
    requires b.num == Asked(s, tip) && Descends(e.g, tip, b.id)
    ensures b.id !in s.db.links && b.id == Root(s.db.links, tip)
    ensures s.db.lib.num < b.num < e.g.num(tip)
    ensures WellLinked(AddLink(s.db.links, b))
    ensures var r := Process(s, b, cfg);
            || r.1 == HandlerFailed
            || (r.1 == Next(e.g.num(tip) + 1, None) && r.0.cur.state.Continuous?)
            || StillBackfilling(s, r.0, r.1, b.num, e, tip)
  {
    BringsTheMissingBlock(s, b, e, tip);
    KeepsEverything(s, b, cfg, e);
    if Reaches(AddLink(s.db.links, b), tip, s.db.lib.id) {
      Joins(s, b, cfg, e, tip);
    } else {
      StillPending(s, b, cfg, e, tip);
    }
  }

  ghost predicate StillBackfilling(s: State, s': State, out: Outcome, below: nat, e: Env, tip: string) {
    && BackInv(s', e) && Pending(s', e, tip) && s'.db.lib == s.db.lib
    && tip in s'.db.links && out == Next(Asked(s', tip), Some(Root(s'.db.links, tip)))
    && s.db.lib.num < out.num < below
  }

  lemma TipNumber(db: Db, tip: string, e: Env)
    requires DbInv(db, e) && tip in db.links
    ensures db.links[tip].num == e.g.num(tip)
  {
    assert Agrees(e.g, db.links[tip]);
  }

  lemma ConnectedCursor(s: State, b: Block, tip: string, cfg: Config)
    requires WellLinked(s.db.links) && s.cur.state.Continuous?
    ensures FireAndSave(s, b, Walk(s.db.links, tip), cfg).0.cur.state.Continuous?
  {
  }

  lemma StillPending(s: State, b: Block, cfg: Config, e: Env, tip: string)
    requires cfg.gate == e.gate && BackInv(s, e) && Pending(s, e, tip) && Sound(e.g, b) && s.db.lib.num <= b.num
    requires b.id !in s.db.links && b.id == Root(s.db.links, tip)
    requires WellLinked(AddLink(s.db.links, b)) && !Reaches(AddLink(s.db.links, b), tip, s.db.lib.id)
    requires BackInv(Process(s, b, cfg).0, e)
    ensures StillBackfilling(s, Process(s, b, cfg).0, Process(s, b, cfg).1, b.num, e, tip)
  {
    var links := s.db.links[b.id := b];
    var s' := Process(s, b, cfg).0;
    assert s'.db == s.db.(links := links);
    WalkMeetsRoot(s.db.links, b, tip);
    WalkExtend(s.db.links, b, tip);
    WalkShape(links, b.id);
    AsksForTheMissingParent(s'.db, e.g, tip);
    assert Walk(links, tip)[0] == Walk(links, b.id)[0];
    LowestOf(links, b.id);
  }

  lemma LowestOf(links: Links, id: string)
    requires WellLinked(links) && id in links
    ensures Walk(links, id) != [] && links[Walk(links, id)[0]].num <= links[id].num
  {
    WalkShape(links, id);
    var seg := Walk(links, id);
    assert |seg| > 1 ==> links[seg[0]].num < links[seg[|seg| - 1]].num;
  }

  // ---- the backfill invariant holds wherever a run can be

  lemma FreshIsReady(g: Ledger, gate: nat, start: Ref)
    requires Acyclic(g) && g.num(start.id) == start.num
    ensures BackInv(InitState(start, None).0, FreshEnv(g, gate, start))
  {
  }

  /** What can be relied on in a cursor file, whoever wrote it. */
  ghost predicate Trusted(g: Ledger, sf: StateFile) {
    && Truthful(g, sf) && SavedChain(sf.blocks)
    && sf.lastFired == sf.blocks[|sf.blocks| - 1] && SavedMeetsLib(sf, sf.lib.id)
  }

  /** A saved block's parent is saved, too, or the block is not above the LIB or a child of it. */
  lemma SavedParent(g: Ledger, sf: StateFile, x: SavedBlock)
    requires Trusted(g, sf) && x in sf.blocks
    ensures x.prevId in SavedIds(sf.blocks) || g.num(x.prevId) <= sf.lib.num || x.num <= sf.lib.num
  {
    var i :| 0 <= i < |sf.blocks| && sf.blocks[i] == x;
    if i > 0 {
      assert sf.blocks[i - 1] in sf.blocks;
    } else if sf.lib.id in SavedIds(sf.blocks) {
      var y :| y in sf.blocks && y.id == sf.lib.id;
      var j :| 0 <= j < |sf.blocks| && sf.blocks[j] == y;
    }
  }

  /** A run restored from its cursor file can backfill like the one that wrote it. */
  lemma RestoredIsReady(g: Ledger, gate: nat, start: Ref, sf: StateFile)
    requires Acyclic(g) && Trusted(g, sf)
    ensures BackInv(InitState(start, Some(sf)).0, RestoredEnv(g, gate, sf))
  {
    RestoredStart(g, gate, start, sf);
    var db := InitState(start, Some(sf)).0.db;
    forall id | id in db.links
      ensures db.links[id].parentId in db.links || g.num(db.links[id].parentId) <= db.lib.num
              || db.links[id].num <= db.lib.num
    {
      var x :| x in sf.blocks && x.id == id;
      assert Agrees(g, db.links[id]);
      SavedParent(g, sf, x);
    }
  }

  ghost predicate FileTrusted(g: Ledger, file: Option<StateFile>) {
    file.Some? ==> Trusted(g, file.value)
  }

  /** Where a run starts: afresh without a cursor file, else from it. */
  ghost function StartEnv(g: Ledger, gate: nat, start: Ref, file: Option<StateFile>): Env {
    match file
    case None => FreshEnv(g, gate, start)
    case Some(sf) => RestoredEnv(g, gate, sf)
  }

  lemma StartIsReady(g: Ledger, gate: nat, start: Ref, file: Option<StateFile>)
    requires Acyclic(g) && g.num(start.id) == start.num && FileTrusted(g, file)
    ensures BackInv(InitState(start, file).0, StartEnv(g, gate, start, file))
  {
    match file
    case None => FreshIsReady(g, gate, start);
    case Some(sf) => RestoredIsReady(g, gate, start, sf);
  }

  lemma {:induction false} RunStaysReady(s: State, num: nat, hash: Option<string>, fetches: seq<Fetch>,
                                         cfg: Config, e: Env)
    requires cfg.gate == e.gate && BackInv(s, e) && SoundFetches(e.g, fetches)
    ensures BackInv(Run(e.g, s, num, hash, fetches, cfg).0, e)
    decreases |fetches|
  {
    if fetches != [] {
      match fetches[0]
      case Failed =>
      case Skipped =>
        if hash.None? {
          RunStaysReady(s, num + 1, None, fetches[1..], cfg, e);
        }
      case Got(b) =>
        KeepsEverything(s, b, cfg, e);
        var r := Process(s, b, cfg);
        if r.1.Next? {
          RunStaysReady(r.0, r.1.num, r.1.hash, fetches[1..], cfg, e);
        }
    }
  }
}
