/** What one step of the poller achieves: what it hands over, where the LIB goes, when it gives a tip up. */
module PollerSteps {
  import opened Options
  import opened ForkDB
  import opened Poller

  /** On a chain, a number finds its one block. */
  lemma {:induction false} AncestorIsFound(links: Links, head: string, id: string)
    requires WellLinked(links) && id in Walk(links, head)
    ensures AncestorAt(links, head, links[id].num) == Some(Ref(id, links[id].num))
    decreases Height(links, head)
  {
    assert AboveParent(links, head);
    if id != head {
      var parent := links[head].parentId;
      assert id in Walk(links, parent);
      WalkShape(links, head);
      AboveOnTheWalk(links, head, id);
      AncestorIsFound(links, parent, id);
    }
  }

  lemma AboveOnTheWalk(links: Links, head: string, id: string)
    requires WellLinked(links) && id in Walk(links, head) && id != head
    ensures links[id].num < links[head].num
  {
    WalkShape(links, head);
    var seg := Walk(links, head);
    var i :| 0 <= i < |seg| && seg[i] == id;
    assert links[seg[i]].num < links[seg[|seg| - 1]].num;
  }

  /** The LIB moves to the block's ancestor at its LIB number if that is stored and higher, and else stays. */
  lemma LibFollows(links: Links, lib: Ref, head: string, libNum: nat)
    requires WellLinked(links)
    ensures var lib' := SetLIB(links, lib, head, libNum);
            if lib.num < libNum && exists id :: id in Walk(links, head) && links[id].num == libNum
            then lib'.num == libNum && lib'.id in Walk(links, head) && links[lib'.id].num == libNum
            else lib' == lib
  {
    forall id | id in Walk(links, head) && links[id].num == libNum
      ensures AncestorAt(links, head, libNum) == Some(Ref(id, libNum))
    {
      AncestorIsFound(links, head, id);
    }
  }

  ghost predicate HandedOver(s: State, e: Env, links: Links, id: string)
    requires id in links
  {
    id in Ids(s.log) || id in e.restored || links[id].num < e.gate
  }

  /** What a step leaves in the database: exactly the stored blocks from the new LIB up. */
  ghost predicate Purged(links: Links, db: Db) {
    db.links == PurgeBelow(links, db.lib.num)
  }

  /**
   A step whose tip meets the LIB, if the handler takes it: every block of the tip's segment is
   now handed over, was restored, or is gated; the LIB follows the fetched block; what lies
   below it is purged and nothing else; and the number after the tip is asked for.
   */
  lemma ConnectedStep(s: State, b: Block, cfg: Config, e: Env, tip: string)
    requires cfg.gate == e.gate && Inv(s, e) && Sound(e.g, b) && s.db.lib.num <= b.num
    requires WellLinked(AddLink(s.db.links, b)) && Reaches(AddLink(s.db.links, b), tip, s.db.lib.id)
    requires SegmentRef(Arrive(s, b).cur).Some? && SegmentRef(Arrive(s, b).cur).value.id == tip
    requires Process(s, b, cfg).1 != HandlerFailed
    ensures var (s', out) := Process(s, b, cfg);
            var links := AddLink(s.db.links, b);
            && tip in links && out == Next(links[tip].num + 1, None)
            && (forall id | id in Walk(links, tip) :: HandedOver(s', e, links, id))
            && s'.db.lib == SetLIB(links, s.db.lib, b.id, b.libNum) && Purged(links, s'.db)
            && s'.cur.state.Continuous?
  {
    ArriveKeeps(s, b, e);
    var s1 := Arrive(s, b);
    FiredStep(s1.(cur := Connected(s1.cur)), b, tip, cfg, e);
  }

  lemma FiredStep(s: State, b: Block, tip: string, cfg: Config, e: Env)
    requires cfg.gate == e.gate
    requires DbInv(s.db, e) && WellLinked(s.db.links) && Accounted(s.db, s.log, e) && Safe(s.log, e)
    requires tip in s.db.links && Reaches(s.db.links, tip, s.db.lib.id)
    requires FireAndSave(s, b, Walk(s.db.links, tip), cfg).1 != HandlerFailed
    ensures var (s', out) := FireAndSave(s, b, Walk(s.db.links, tip), cfg);
            && out == Next(s.db.links[tip].num + 1, None) && s'.cur == s.cur
            && (forall id | id in Walk(s.db.links, tip) :: HandedOver(s', e, s.db.links, id))
            && s'.db.lib == SetLIB(s.db.links, s.db.lib, b.id, b.libNum) && Purged(s.db.links, s'.db)
  {
    var seg := Walk(s.db.links, tip);
    var due := Due(s.db.links, s.db.fired, cfg.gate, seg);
    FireAndSaveShape(s, b, seg, cfg, due, Taken(cfg.accepts, due));
    FireAndSaveOutcome(s, b, tip, cfg);
    FireKeeps(s.db, s.log, tip, e);
    SettledIsHandedOver(FireAndSave(s, b, seg, cfg).0, s.db.fired + Ids(due), s.db.links, seg, e);
  }

  lemma SettledIsHandedOver(s: State, fired: set<string>, links: Links, seg: seq<string>, e: Env)
    requires Settled(links, fired, e.gate, seg)
    requires forall id | id in fired :: id in e.restored || id in Ids(s.log)
    ensures forall id | id in seg :: HandedOver(s, e, links, id)
  {
  }

  /** The tip a pending poller works on: the fetched block if it and its parent are stored, else the pending one. */
  lemma TipAfter(s: State, b: Block, e: Env)
    requires Inv(s, e) && Sound(e.g, b) && s.db.lib.num <= b.num && s.cur.state.Incomplete?
    ensures var tip := SegmentRef(Arrive(s, b).cur);
            tip == if b.id in s.db.links && b.parentId in s.db.links then Some(RefOf(b)) else s.cur.incomplete
  {
  }

  /**
   A pending tip is given up only for a stored block whose parent is stored. Any other block is
   linked and no more, with the tip still pending and nothing handed over, saved or purged,
   unless it is the very block the tip missed and connects it.
   */
  lemma TipIsKept(s: State, b: Block, cfg: Config, e: Env)
    requires cfg.gate == e.gate && Inv(s, e) && Sound(e.g, b) && s.db.lib.num <= b.num && s.cur.state.Incomplete?
    requires !(b.id in s.db.links && b.parentId in s.db.links)
    ensures WellLinked(AddLink(s.db.links, b))
    ensures var (s', out) := Process(s, b, cfg);
            var tip := s.cur.incomplete.value.id;
            if Reaches(AddLink(s.db.links, b), tip, s.db.lib.id) then
              && b.id == Root(s.db.links, tip)
              && (out == HandlerFailed || out == Next(s.db.links[tip].num + 1, None))
            else
              && s' == s.(db := s.db.(links := AddLink(s.db.links, b)), cur := s.cur.(current := Some(RefOf(b))))
              && out.Next? && out.hash.Some?
  {
    AddedAgrees(s.db.links, b, e.g);
    TipAfter(s, b, e);
    var tip := s.cur.incomplete.value.id;
    if Reaches(AddLink(s.db.links, b), tip, s.db.lib.id) {
      JoinsThroughOwnLink(s.db.links, b, tip, s.db.lib.id);
      if Process(s, b, cfg).1 != HandlerFailed {
        ConnectedStep(s, b, cfg, e, tip);
      }
    } else {
      WalkShape(AddLink(s.db.links, b), tip);
    }
  }

  /**
   A poller that waits for a missing parent is back on a connected chain as soon as a stored
   block with a stored parent comes that meets the LIB: it goes on from the number after it.
   */
  lemma BackOnChain(s: State, b: Block, cfg: Config, e: Env)
    requires cfg.gate == e.gate && Inv(s, e) && Sound(e.g, b) && s.db.lib.num <= b.num && s.cur.state.Incomplete?
    requires b.id in s.db.links && b.parentId in s.db.links && Reaches(s.db.links, b.id, s.db.lib.id)
    ensures WellLinked(AddLink(s.db.links, b))
    ensures var (s', out) := Process(s, b, cfg);
            || out == HandlerFailed
            || (out == Next(b.num + 1, None) && s'.cur.state.Continuous?)
  {
    AddedAgrees(s.db.links, b, e.g);
    TipAfter(s, b, e);
    assert Agrees(e.g, s.db.links[b.id]);
    if Process(s, b, cfg).1 != HandlerFailed {
      ConnectedStep(s, b, cfg, e, b.id);
    }
  }

  /** What a step works for: a pending tip, unless the fetched block is stored with its parent; else that block. */
  function TipOf(s: State, b: Block): Option<string> {
    if s.cur.state.Continuous? || (b.id in s.db.links && b.parentId in s.db.links) then Some(b.id)
    else if s.cur.incomplete.Some? then Some(s.cur.incomplete.value.id) else None
  }

  /** A block that the step should hand over and the handler does not take. */
  ghost predicate Balks(links: Links, fired: set<string>, tip: string, cfg: Config)
    requires WellLinked(links)
  {
    exists id :: id in Walk(links, tip) && id !in fired && cfg.gate <= links[id].num && !cfg.accepts(links[id])
  }

  lemma BalksAtDue(s: State, tip: string, cfg: Config, due: seq<Block>)
    requires WellLinked(s.db.links) && forall id | id in s.db.links :: s.db.links[id].id == id
    requires due == Due(s.db.links, s.db.fired, cfg.gate, Walk(s.db.links, tip))
    ensures Taken(cfg.accepts, due) < |due| <==> Balks(s.db.links, s.db.fired, tip, cfg)
  {
    var seg := Walk(s.db.links, tip);
    DuePrefix(s.db.links, s.db.fired, cfg.gate, seg);
    var n := Taken(cfg.accepts, due);
    if n < |due| {
      assert due[n] in due;
    } else {
      forall id | id in seg && id !in s.db.fired && cfg.gate <= s.db.links[id].num
        ensures cfg.accepts(s.db.links[id])
      {
        var i :| 0 <= i < |seg| && seg[i] == id;
        assert s.db.links[id] in due;
      }
    }
  }

  lemma FireGoes(s: State, b: Block, tip: string, cfg: Config, e: Env)
    requires cfg.gate == e.gate && LinksAgree(e.g, s.db.links) && WellLinked(s.db.links) && tip in s.db.links
    ensures FireAndSave(s, b, Walk(s.db.links, tip), cfg).1
            == if Balks(s.db.links, s.db.fired, tip, cfg) then HandlerFailed else Next(s.db.links[tip].num + 1, None)
  {
    var seg := Walk(s.db.links, tip);
    var due := Due(s.db.links, s.db.fired, cfg.gate, seg);
    BalksAtDue(s, tip, cfg, due);
    WalkShape(s.db.links, tip);
    FireAndSaveShape(s, b, seg, cfg, due, Taken(cfg.accepts, due));
  }

  /**
   Where a step that works for `tip` goes from `s`, once `links` has the fetched block: it is
   refused if the tip meets the LIB and the handler does not take a due block of its segment, it
   goes on after the tip if all is taken, and else it only asks for the parent the tip misses.
   */
  ghost predicate Goes(s: State, links: Links, tip: string, cfg: Config, s': State, out: Outcome)
    requires WellLinked(links)
  {
    tip in links &&
    if Reaches(links, tip, s.db.lib.id) then
      out == if Balks(links, s.db.fired, tip, cfg) then HandlerFailed else Next(links[tip].num + 1, None)
    else
      && out.Next? && out.hash == Some(Root(links, tip))
      && s'.cur.state.Incomplete? && s'.cur.incomplete.Some? && s'.cur.incomplete.value.id == tip
      && s'.log == s.log && s'.saved == s.saved && s'.db == s.db.(links := links)
  }

  lemma ResolveGoes(s: State, b: Block, tip: string, cfg: Config, e: Env)
    requires cfg.gate == e.gate && LinksAgree(e.g, s.db.links) && WellLinked(s.db.links) && tip in s.db.links
    requires SegmentRef(s.cur).Some? && SegmentRef(s.cur).value.id == tip
    ensures Goes(s, s.db.links, tip, cfg, Resolve(s, b, tip, cfg).0, Resolve(s, b, tip, cfg).1)
  {
    if Reaches(s.db.links, tip, s.db.lib.id) {
      FireGoes(s.(cur := Connected(s.cur)), b, tip, cfg, e);
    } else {
      WalkShape(s.db.links, tip);
    }
  }

  lemma TipArrives(s: State, b: Block, cfg: Config, e: Env)
    requires cfg.gate == e.gate && Inv(s, e) && Sound(e.g, b) && s.db.lib.num <= b.num
    ensures var s1 := Arrive(s, b);
            && WellLinked(s1.db.links) && LinksAgree(e.g, s1.db.links)
            && SegmentRef(s1.cur).Some? && TipOf(s, b) == Some(SegmentRef(s1.cur).value.id)
            && TipOf(s, b).value in s1.db.links
            && Process(s, b, cfg) == Resolve(s1, b, TipOf(s, b).value, cfg)
  {
    ArriveKeeps(s, b, e);
  }

  lemma GoesBeforeArrival(s: State, b: Block, tip: string, cfg: Config, s': State, out: Outcome)
    requires WellLinked(AddLink(s.db.links, b))
    requires Goes(Arrive(s, b), AddLink(s.db.links, b), tip, cfg, s', out)
    ensures Goes(s, AddLink(s.db.links, b), tip, cfg, s', out)
  {
  }

  /** Every step goes where it should. */
  lemma StepGoes(s: State, b: Block, cfg: Config, e: Env)
    requires cfg.gate == e.gate && Inv(s, e) && Sound(e.g, b) && s.db.lib.num <= b.num
    ensures WellLinked(AddLink(s.db.links, b)) && TipOf(s, b).Some?
    ensures var (s', out) := Process(s, b, cfg);
            Goes(s, AddLink(s.db.links, b), TipOf(s, b).value, cfg, s', out)
  {
    TipArrives(s, b, cfg, e);
    var tip, r := TipOf(s, b).value, Process(s, b, cfg);
    ResolveGoes(Arrive(s, b), b, tip, cfg, e);
    GoesBeforeArrival(s, b, tip, cfg, r.0, r.1);
  }
}
