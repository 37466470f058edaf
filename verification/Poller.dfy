/**
 The block poller's step machine as functions on values, and what every step and
 every run of it keeps: parents are handed over before their children, no block is
 handed over twice, and the two "should never happen" panics are unreachable.
 */
module Poller {
  import opened Options
  import opened ForkDB

  datatype SegState = Continuous | Incomplete

  /** The cursor keeps its segment reference apart from its state, as the code does. */
  datatype Cursor = Cursor(state: SegState, incomplete: Option<Ref>, current: Option<Ref>)

  datatype SavedBlock = SavedBlock(id: string, num: nat, prevId: string)
  datatype StateFile = StateFile(lib: Ref, lastFired: SavedBlock, blocks: seq<SavedBlock>)

  /** The start gate, and which blocks the handler takes without an error. */
  datatype Config = Config(gate: nat, accepts: Block -> bool)

  /** `log` is everything handed to the handler so far, `saved` the cursor file. */
  datatype State = State(db: Db, cur: Cursor, log: seq<Block>, saved: Option<StateFile>)

  datatype Outcome =
    | Next(num: nat, hash: Option<string>)
    | BelowLib
    | HandlerFailed
    | NilSegment
    | EmptySegment

  // ---- the cursor

  const START: Cursor := Cursor(Continuous, None, None)

  function AddBlk(c: Cursor, blk: Ref, seen: bool, parentSeen: bool): Cursor {
    c.(state := if c.state.Incomplete? && seen && parentSeen then Continuous else c.state,
       current := Some(blk))
  }

  /** None is the panic on an incomplete segment that was never recorded. */
  function SegmentRef(c: Cursor): Option<Ref> {
    if c.state.Incomplete? then c.incomplete else c.current
  }

  function Connected(c: Cursor): Cursor {
    c.(state := Continuous, incomplete := None)
  }

  function NotConnected(c: Cursor): Cursor {
    if c.state.Incomplete? then c else c.(state := Incomplete, incomplete := c.current)
  }

  // ---- firing a segment

  predicate IsDue(b: Block, fired: set<string>, gate: nat) {
    b.id !in fired && gate <= b.num
  }

  /** The blocks of a segment that still have to be handed over, in order. */
  function Due(links: Links, fired: set<string>, gate: nat, seg: seq<string>): seq<Block>
    requires forall i | 0 <= i < |seg| :: seg[i] in links
  {
    if seg == [] then [] else
      var front := Due(links, fired, gate, seg[..|seg| - 1]);
      var b := links[seg[|seg| - 1]];
      if IsDue(b, fired, gate) then front + [b] else front
  }

  /** How many blocks the handler takes before its first error. */
  function Taken(accepts: Block -> bool, due: seq<Block>): (n: nat)
    ensures n <= |due| && (forall i | 0 <= i < n :: accepts(due[i])) && (n < |due| ==> !accepts(due[n]))
  {
    if due == [] || !accepts(due[0]) then 0 else 1 + Taken(accepts, due[1..])
  }

  function Ids(log: seq<Block>): set<string> {
    set b | b in log :: b.id
  }

  // ---- one step

  function Purge(db: Db): Db {
    var links := PurgeBelow(db.links, db.lib.num);
    db.(links := links, fired := db.fired * links.Keys)
  }

  function SavedOf(b: Block): SavedBlock {
    SavedBlock(b.id, b.num, b.parentId)
  }

  function SavedBlocks(links: Links, seg: seq<string>): (r: seq<SavedBlock>)
    requires forall i | 0 <= i < |seg| :: seg[i] in links
    ensures |r| == |seg| && forall i | 0 <= i < |seg| :: r[i] == SavedOf(links[seg[i]])
  {
    seq(|seg|, i requires 0 <= i < |seg| => SavedOf(links[seg[i]]))
  }

  /** The cursor file written after `seg` was fired. */
  function FileOf(links: Links, lib: Ref, seg: seq<string>): StateFile
    requires seg != [] && forall i | 0 <= i < |seg| :: seg[i] in links
  {
    StateFile(lib, SavedOf(links[seg[|seg| - 1]]), SavedBlocks(links, seg))
  }

  /** Everything that happens once the segment reaches the LIB. */
  function FireAndSave(s: State, b: Block, seg: seq<string>, cfg: Config): (State, Outcome)
    requires WellLinked(s.db.links) && forall i | 0 <= i < |seg| :: seg[i] in s.db.links
  {
    var due := Due(s.db.links, s.db.fired, cfg.gate, seg);
    var n := Taken(cfg.accepts, due);
    var fired := s.(db := s.db.(fired := s.db.fired + Ids(due[..n])), log := s.log + due[..n]);
    if n < |due| then (fired, HandlerFailed)
    else if seg == [] then (fired, EmptySegment)
    else
      var db := Purge(fired.db.(lib := SetLIB(s.db.links, s.db.lib, b.id, b.libNum)));
      (fired.(db := db, saved := Some(FileOf(s.db.links, db.lib, seg))), Next(s.db.links[seg[|seg| - 1]].num + 1, None))
  }

  /** The fetched block is stored and the cursor moves to it. */
  function Arrive(s: State, b: Block): State {
    s.(db := s.db.(links := AddLink(s.db.links, b)),
       cur := AddBlk(s.cur, RefOf(b), b.id in s.db.links, b.parentId in s.db.links))
  }

  /** The segment under `tip` is fired if it meets the LIB; else its missing parent is asked for. */
  function Resolve(s: State, b: Block, tip: string, cfg: Config): (State, Outcome)
    requires WellLinked(s.db.links)
  {
    var seg := Walk(s.db.links, tip);
    if Reaches(s.db.links, tip, s.db.lib.id) then FireAndSave(s.(cur := Connected(s.cur)), b, seg, cfg)
    else
      var s' := s.(cur := NotConnected(s.cur));
      if seg == [] then (s', EmptySegment)
      else (s', Next(s.db.links[seg[0]].parentNum, Some(s.db.links[seg[0]].parentId)))
  }

  /** One fetched block. */
  function Process(s: State, b: Block, cfg: Config): (State, Outcome)
    requires WellLinked(AddLink(s.db.links, b))
  {
    if b.num < s.db.lib.num then (s, BelowLib) else
      var s1 := Arrive(s, b);
      match SegmentRef(s1.cur)
      case None => (s1, NilSegment)
      case Some(tip) => Resolve(s1, b, tip.id, cfg)
  }

  // ---- what the poller keeps

  /** `anchor` is the LIB the run started on; `restored` the ids read back from the cursor file. */
  datatype Env = Env(g: Ledger, gate: nat, anchor: string, restored: set<string>)

  ghost predicate DbInv(db: Db, e: Env) {
    && Acyclic(e.g)
    && LinksAgree(e.g, db.links)
    && db.fired <= db.links.Keys
    && e.g.num(db.lib.id) == db.lib.num
    && (forall id | id in db.links && db.links[id].num < db.lib.num :: id in db.fired)
    && (db.lib.id in db.links ==> db.lib.id in db.fired || db.lib.num < e.gate || db.lib.id == e.anchor)
    && (db.lib.id !in db.links ==> db.lib.id == e.anchor)
  }

  ghost predicate CursorInv(db: Db, cur: Cursor)
    requires WellLinked(db.links)
  {
    cur.state.Incomplete? ==>
      cur.incomplete.Some? && cur.incomplete.value.id in db.links
      && !Reaches(db.links, cur.incomplete.value.id, db.lib.id)
  }

  /** Every fired id is still stored with its flag, or numbered below the LIB. */
  ghost predicate Accounted(db: Db, log: seq<Block>, e: Env) {
    && (forall id | id in db.fired :: id in e.restored || id in Ids(log))
    && (forall id | id in e.restored || id in Ids(log) :: id in db.fired || e.g.num(id) < db.lib.num)
  }

  /** The parent was handed over before, restored as fired, or lies below the start gate. */
  ghost predicate ParentDone(before: seq<Block>, b: Block, e: Env) {
    || b.parentId in Ids(before)
    || b.parentId in e.restored
    || e.g.num(b.parentId) < e.gate
  }

  /**
   A block may be handed over after `before`: it is not below the gate, its parent was handed
   over, it never was itself.
   Only the LIB the run started on and its direct children can come without their parent.
   */
  ghost predicate Fits(before: seq<Block>, b: Block, e: Env) {
    && Agrees(e.g, b) && e.gate <= b.num
    && b.id !in Ids(before) && b.id !in e.restored
    && (ParentDone(before, b, e) || b.id == e.anchor || b.parentId == e.anchor)
  }

  /** Every block handed over fitted at its turn. */
  ghost predicate Safe(log: seq<Block>, e: Env) {
    log != [] ==> Safe(log[..|log| - 1], e) && Fits(log[..|log| - 1], log[|log| - 1], e)
  }

  ghost predicate Inv(s: State, e: Env) {
    && DbInv(s.db, e)
    && WellLinked(s.db.links)
    && CursorInv(s.db, s.cur)
    && Accounted(s.db, s.log, e)
    && Safe(s.log, e)
  }

  // ---- firing keeps the order

  lemma IdsAppend(a: seq<Block>, b: seq<Block>)
    ensures Ids(a + b) == Ids(a) + Ids(b)
  {
  }

  lemma {:induction false} DuePrefix(links: Links, fired: set<string>, gate: nat, seg: seq<string>)
    requires forall i | 0 <= i < |seg| :: seg[i] in links
    requires forall id | id in links :: links[id].id == id
    ensures var due := Due(links, fired, gate, seg);
            && (forall b | b in due :: b.id in seg && links[b.id] == b && IsDue(b, fired, gate))
            && (forall i | 0 <= i < |seg| && IsDue(links[seg[i]], fired, gate) :: links[seg[i]] in due)
  {
    if seg != [] {
      DuePrefix(links, fired, gate, seg[..|seg| - 1]);
    }
  }

  lemma AppendSafe(before: seq<Block>, b: Block, e: Env)
    requires Safe(before, e) && Fits(before, b, e)
    ensures Safe(before + [b], e)
  {
    assert (before + [b])[..|before|] == before;
  }

  /** A parent-linked chain of stored blocks, bottom first, without repeats. */
  predicate IsChain(links: Links, seg: seq<string>) {
    && (forall i | 0 <= i < |seg| :: seg[i] in links)
    && (forall i | 0 < i < |seg| :: links[seg[i]].parentId == seg[i - 1])
    && (forall i, j | 0 <= i < j < |seg| :: seg[i] != seg[j])
  }

  /** The flags agree with what was restored or handed over. */
  ghost predicate FlagsAgree(links: Links, fired: set<string>, log: seq<Block>, e: Env) {
    && LinksAgree(e.g, links)
    && (forall id | id in fired :: id in e.restored || id in Ids(log))
    && (forall id | id in links && (id in e.restored || id in Ids(log)) :: id in fired)
  }

  /** Once everything due below it was handed over, the next block of a chain fits. */
  lemma DueFits(links: Links, fired: set<string>, low: seq<string>, id: string, log: seq<Block>, e: Env)
    requires IsChain(links, low + [id]) && FlagsAgree(links, fired, log, e)
    requires IsChain(links, low) && id in links
    requires IsDue(links[id], fired, e.gate)
    requires low == [] ==> id == e.anchor || links[id].parentId == e.anchor
    ensures Fits(log + Due(links, fired, e.gate, low), links[id], e)
  {
    var seg := low + [id];
    var due := Due(links, fired, e.gate, low);
    DuePrefix(links, fired, e.gate, low);
    IdsAppend(log, due);
    assert forall i | 0 <= i < |low| :: low[i] == seg[i] && seg[i] != seg[|low|];
    assert id !in low;
    if low != [] {
      var p := low[|low| - 1];
      assert seg[|low| - 1] == p && links[seg[|low|]].parentId == p;
      if IsDue(links[p], fired, e.gate) {
        assert links[p] in due;
      }
    }
  }

  /** Handing a chain over bottom-up keeps parents first and every id at most once. */
  lemma {:induction false} DueIsSafe(links: Links, fired: set<string>, seg: seq<string>, log: seq<Block>, e: Env)
    requires IsChain(links, seg) && FlagsAgree(links, fired, log, e) && Safe(log, e)
    requires seg != [] && IsDue(links[seg[0]], fired, e.gate) ==>
               seg[0] == e.anchor || links[seg[0]].parentId == e.anchor
    ensures Safe(log + Due(links, fired, e.gate, seg), e)
  {
    if seg == [] {
      assert log + [] == log;
    } else {
      var k := |seg| - 1;
      var low := seg[..k];
      ChainFront(links, seg);
      DueIsSafe(links, fired, low, log, e);
      if IsDue(links[seg[k]], fired, e.gate) {
        var due := Due(links, fired, e.gate, low);
        DueFits(links, fired, low, seg[k], log, e);
        AppendSafe(log + due, links[seg[k]], e);
        OneMore(log, due, links[seg[k]]);
      }
    }
  }

  lemma ChainFront(links: Links, seg: seq<string>)
    requires IsChain(links, seg) && seg != []
    ensures IsChain(links, seg[..|seg| - 1]) && seg[..|seg| - 1] + [seg[|seg| - 1]] == seg
  {
  }

  lemma OneMore(log: seq<Block>, due: seq<Block>, b: Block)
    ensures log + (due + [b]) == log + due + [b]
  {
  }

  lemma {:induction false} SafePrefix(log: seq<Block>, due: seq<Block>, n: nat, e: Env)
    requires n <= |due| && Safe(log + due, e)
    ensures Safe(log + due[..n], e)
  {
    if n < |due| {
      var k := |due| - 1;
      assert (log + due)[..|log + due| - 1] == log + due[..k];
      SafePrefix(log, due[..k], n, e);
      assert due[..k][..n] == due[..n];
    } else {
      assert due[..n] == due;
    }
  }

  /** Only the starting LIB or one of its children can be handed over at the bottom of a segment. */
  lemma BottomIsAnchored(db: Db, tip: string, e: Env)
    requires DbInv(db, e) && WellLinked(db.links) && Reaches(db.links, tip, db.lib.id)
    ensures var seg := Walk(db.links, tip);
            seg != [] && IsDue(db.links[seg[0]], db.fired, e.gate) ==>
              seg[0] == e.anchor || db.links[seg[0]].parentId == e.anchor
  {
    WalkShape(db.links, tip);
    var seg := Walk(db.links, tip);
    if seg != [] && db.lib.id in seg {
      var j :| 0 <= j < |seg| && seg[j] == db.lib.id;
      assert j > 0 ==> db.links[seg[0]].num < db.links[seg[j]].num;
    }
  }

  /** A pending tip only becomes connected through its own missing link. */
  lemma JoinsThroughOwnLink(links: Links, b: Block, tip: string, lib: string)
    requires WellLinked(links) && WellLinked(AddLink(links, b))
    requires !Reaches(links, tip, lib) && Reaches(AddLink(links, b), tip, lib)
    ensures b.id !in links && Root(links, tip) == b.id && b.id in Walk(AddLink(links, b), tip)
  {
    if b.id !in links {
      if b.id !in Walk(links[b.id := b], tip) {
        WalkFrame(links, b, tip);
      } else {
        WalkExtend(links, b, tip);
      }
    }
  }

  // ---- one step keeps everything

  /** The whole segment has been handed over, or lies below the gate. */
  ghost predicate Settled(links: Links, fired: set<string>, gate: nat, seg: seq<string>) {
    forall i | 0 <= i < |seg| :: seg[i] in links && (seg[i] in fired || links[seg[i]].num < gate)
  }

  /** Moving the LIB up a settled segment and purging below it. */
  lemma MoveLib(db: Db, log: seq<Block>, tip: string, head: string, libNum: nat, e: Env)
    requires DbInv(db, e) && WellLinked(db.links) && Accounted(db, log, e)
    requires head in Walk(db.links, tip) && Settled(db.links, db.fired, e.gate, Walk(db.links, tip))
    ensures var db' := Purge(db.(lib := SetLIB(db.links, db.lib, head, libNum)));
            DbInv(db', e) && WellLinked(db'.links) && Accounted(db', log, e) && db.lib.num <= db'.lib.num
  {
    var lib := SetLIB(db.links, db.lib, head, libNum);
    var db' := Purge(db.(lib := lib));
    AgreeingIsWellLinked(e.g, db'.links);
    if lib != db.lib {
      var seg := Walk(db.links, tip);
      var i :| 0 <= i < |seg| && seg[i] == head;
      WalkPrefix(db.links, tip, i);
      assert lib.id in seg[..i + 1];
      assert lib.id in db'.links;
    }
    forall id | id in e.restored || id in Ids(log)
      ensures id in db'.fired || e.g.num(id) < db'.lib.num
    {
      if id in db.fired && id !in db'.links {
        assert Agrees(e.g, db.links[id]);
      }
    }
  }

  /** Handing over everything due in a connected segment settles it. */
  lemma FireKeeps(db: Db, log: seq<Block>, tip: string, e: Env)
    requires DbInv(db, e) && WellLinked(db.links) && Accounted(db, log, e) && Safe(log, e)
    requires Reaches(db.links, tip, db.lib.id)
    ensures var seg := Walk(db.links, tip);
            var due := Due(db.links, db.fired, e.gate, seg);
            var db' := db.(fired := db.fired + Ids(due));
            Safe(log + due, e) && DbInv(db', e) && Accounted(db', log + due, e)
            && Settled(db.links, db'.fired, e.gate, seg)
  {
    var seg := Walk(db.links, tip);
    var due := Due(db.links, db.fired, e.gate, seg);
    WalkIsChain(db.links, tip);
    BottomIsAnchored(db, tip, e);
    Unfired(db, log, e);
    DueIsSafe(db.links, db.fired, seg, log, e);
    DuePrefix(db.links, db.fired, e.gate, seg);
    IdsAppend(log, due);
    forall i | 0 <= i < |seg| && IsDue(db.links[seg[i]], db.fired, e.gate)
      ensures seg[i] in Ids(due)
    {
      assert db.links[seg[i]] in due;
    }
  }

  /** Stopping at a refusal, after any part of what was due, keeps the order and the database in step. */
  lemma PartKeeps(db: Db, log: seq<Block>, due: seq<Block>, n: nat, e: Env)
    requires DbInv(db, e) && Accounted(db, log, e) && Safe(log + due, e)
    requires n <= |due| && forall b | b in due :: b.id in db.links
    ensures var db' := db.(fired := db.fired + Ids(due[..n]));
            Safe(log + due[..n], e) && DbInv(db', e) && Accounted(db', log + due[..n], e)
  {
    SafePrefix(log, due, n, e);
    IdsAppend(log, due[..n]);
    assert forall b | b in due[..n] :: b in due;
  }

  lemma WalkIsChain(links: Links, id: string)
    requires WellLinked(links)
    ensures IsChain(links, Walk(links, id))
  {
    WalkShape(links, id);
  }

  lemma FireAndSaveShape(s: State, b: Block, seg: seq<string>, cfg: Config, due: seq<Block>, n: nat)
    requires WellLinked(s.db.links) && forall i | 0 <= i < |seg| :: seg[i] in s.db.links
    requires due == Due(s.db.links, s.db.fired, cfg.gate, seg) && n == Taken(cfg.accepts, due) && seg != []
    ensures FireAndSave(s, b, seg, cfg).0.log == s.log + due[..n] && s.log <= s.log + due[..n]
    ensures n == |due| ==> due[..n] == due
    ensures n < |due| ==> FireAndSave(s, b, seg, cfg).1 == HandlerFailed
    ensures n == |due| ==> FireAndSave(s, b, seg, cfg).1 == Next(s.db.links[seg[|seg| - 1]].num + 1, None)
    ensures n == |due| ==> FireAndSave(s, b, seg, cfg).0.cur == s.cur
    ensures n == |due| ==>
      var db := s.db.(fired := s.db.fired + Ids(due));
      FireAndSave(s, b, seg, cfg).0.db == Purge(db.(lib := SetLIB(db.links, db.lib, b.id, b.libNum)))
    ensures n == |due| ==>
      var lib := SetLIB(s.db.links, s.db.lib, b.id, b.libNum);
      FireAndSave(s, b, seg, cfg).0.saved == Some(FileOf(s.db.links, lib, seg))
    ensures n < |due| ==> FireAndSave(s, b, seg, cfg).0.saved == s.saved
                          && FireAndSave(s, b, seg, cfg).0.db.lib == s.db.lib
  {
    assert n == |due| ==> due[..n] == due;
  }

  /** A stored tip always leaves a next block to ask for, unless the handler refuses one. */
  lemma FireAndSaveOutcome(s: State, b: Block, tip: string, cfg: Config)
    requires WellLinked(s.db.links) && tip in s.db.links
    ensures var out := FireAndSave(s, b, Walk(s.db.links, tip), cfg).1;
            out == HandlerFailed || out == Next(s.db.links[tip].num + 1, None)
  {
    assert Walk(s.db.links, tip)[|Walk(s.db.links, tip)| - 1] == tip;
  }

  /**
   Firing a connected segment, moving the LIB and saving keeps the whole invariant, and so
   does stopping at a block the handler refuses.
   */
  lemma FireAndSaveKeeps(s: State, b: Block, tip: string, cfg: Config, e: Env)
    requires cfg.gate == e.gate
    requires DbInv(s.db, e) && WellLinked(s.db.links) && Accounted(s.db, s.log, e) && Safe(s.log, e)
    requires tip in s.db.links && Reaches(s.db.links, tip, s.db.lib.id)
    requires s.cur.state.Continuous?
    requires b.id in Walk(s.db.links, tip)
    ensures var r := FireAndSave(s, b, Walk(s.db.links, tip), cfg);
            Inv(r.0, e) && s.log <= r.0.log
  {
    var seg := Walk(s.db.links, tip);
    var due := Due(s.db.links, s.db.fired, cfg.gate, seg);
    var n := Taken(cfg.accepts, due);
    FireAndSaveShape(s, b, seg, cfg, due, n);
    FireKeeps(s.db, s.log, tip, e);
    if n == |due| {
      MoveLib(s.db.(fired := s.db.fired + Ids(due)), s.log + due, tip, b.id, b.libNum, e);
    } else {
      DueIsStored(s.db.links, s.db.fired, seg, due, e);
      PartKeeps(s.db, s.log, due, n, e);
      RefusedShape(s, b, seg, cfg, due, n);
    }
  }

  lemma DueIsStored(links: Links, fired: set<string>, seg: seq<string>, due: seq<Block>, e: Env)
    requires LinksAgree(e.g, links) && (forall i | 0 <= i < |seg| :: seg[i] in links)
    requires due == Due(links, fired, e.gate, seg)
    ensures forall b | b in due :: b.id in links
  {
    DuePrefix(links, fired, e.gate, seg);
  }

  /** After a refusal only the flags and the log have changed. */
  lemma RefusedShape(s: State, b: Block, seg: seq<string>, cfg: Config, due: seq<Block>, n: nat)
    requires WellLinked(s.db.links) && forall i | 0 <= i < |seg| :: seg[i] in s.db.links
    requires due == Due(s.db.links, s.db.fired, cfg.gate, seg) && n == Taken(cfg.accepts, due) && n < |due|
    ensures FireAndSave(s, b, seg, cfg).0
            == s.(db := s.db.(fired := s.db.fired + Ids(due[..n])), log := s.log + due[..n])
  {
  }

  /** What is stored and was handed over still carries its flag. */
  lemma Unfired(db: Db, log: seq<Block>, e: Env)
    requires DbInv(db, e) && Accounted(db, log, e)
    ensures forall id | id in db.links && (id in e.restored || id in Ids(log)) :: id in db.fired
  {
    forall id | id in db.links && (id in e.restored || id in Ids(log))
      ensures id in db.fired
    {
      assert Agrees(e.g, db.links[id]);
    }
  }

  /** Storing a fetched block that is not below the LIB. */
  lemma AddKeeps(db: Db, log: seq<Block>, b: Block, e: Env)
    requires DbInv(db, e) && Accounted(db, log, e) && Sound(e.g, b) && db.lib.num <= b.num
    ensures var db' := db.(links := AddLink(db.links, b));
            DbInv(db', e) && WellLinked(db'.links) && Accounted(db', log, e)
  {
    var db' := db.(links := AddLink(db.links, b));
    AgreeingIsWellLinked(e.g, db'.links);
    if b.id == db.lib.id && b.id !in db.links {
      assert db'.lib.id == e.anchor;
    }
  }

  /** After a block arrived, the cursor points to a stored tip: the block itself or the pending one. */
  lemma ArriveKeeps(s: State, b: Block, e: Env)
    requires Inv(s, e) && Sound(e.g, b) && s.db.lib.num <= b.num
    ensures var s1 := Arrive(s, b);
            && DbInv(s1.db, e) && WellLinked(s1.db.links) && Accounted(s1.db, s1.log, e)
            && SegmentRef(s1.cur).Some? && SegmentRef(s1.cur).value.id in s1.db.links
            && (s1.cur.state.Continuous? ==> SegmentRef(s1.cur).value == RefOf(b))
            && (s1.cur.state.Incomplete? ==>
                  && SegmentRef(s1.cur) == s.cur.incomplete
                  && !Reaches(s.db.links, s.cur.incomplete.value.id, s.db.lib.id))
  {
    AddKeeps(s.db, s.log, b, e);
  }

  /** A connected tip lies on a walk through the block that just arrived. */
  lemma ArrivedOnTheWalk(s: State, b: Block, tip: string)
    requires WellLinked(s.db.links) && WellLinked(AddLink(s.db.links, b))
    requires tip != b.id ==> !Reaches(s.db.links, tip, s.db.lib.id)
    requires Reaches(AddLink(s.db.links, b), tip, s.db.lib.id)
    ensures b.id in Walk(AddLink(s.db.links, b), tip)
  {
    if tip == b.id {
      WalkShape(AddLink(s.db.links, b), tip);
    } else {
      JoinsThroughOwnLink(s.db.links, b, tip, s.db.lib.id);
    }
  }

  /** A tip that does not meet the LIB becomes the pending tip, and its parent is asked for. */
  lemma PendingKeeps(s: State, b: Block, tip: string, cfg: Config, e: Env)
    requires DbInv(s.db, e) && WellLinked(s.db.links) && Accounted(s.db, s.log, e) && Safe(s.log, e)
    requires SegmentRef(s.cur).Some? && SegmentRef(s.cur).value.id == tip && tip in s.db.links
    requires !Reaches(s.db.links, tip, s.db.lib.id)
    ensures Resolve(s, b, tip, cfg).1.Next? && Inv(Resolve(s, b, tip, cfg).0, e)
    ensures Resolve(s, b, tip, cfg).0.log == s.log
  {
  }

  /**
   One step of the poller: the panics on a missing or an empty segment cannot
   happen, what was handed over stays safe, and the invariant is kept, whether the
   handler took every block or refused one.
   */
  lemma ProcessKeeps(s: State, b: Block, cfg: Config, e: Env)
    requires cfg.gate == e.gate && Inv(s, e) && Sound(e.g, b)
    ensures WellLinked(AddLink(s.db.links, b))
    ensures var r := Process(s, b, cfg);
            && r.1 != NilSegment && r.1 != EmptySegment
            && Inv(r.0, e) && s.log <= r.0.log
    ensures Process(s, b, cfg).1 == BelowLib <==> b.num < s.db.lib.num
  {
    AddedAgrees(s.db.links, b, e.g);
    if s.db.lib.num <= b.num {
      ArriveKeeps(s, b, e);
      ResolveKeeps(s, b, SegmentRef(Arrive(s, b).cur).value.id, cfg, e);
    }
  }

  lemma ResolveKeeps(s: State, b: Block, tip: string, cfg: Config, e: Env)
    requires cfg.gate == e.gate && Safe(s.log, e)
    requires WellLinked(s.db.links) && WellLinked(AddLink(s.db.links, b))
    requires tip != b.id ==> !Reaches(s.db.links, tip, s.db.lib.id)
    requires var s1 := Arrive(s, b);
             && DbInv(s1.db, e) && Accounted(s1.db, s1.log, e) && tip in s1.db.links
             && SegmentRef(s1.cur).Some? && SegmentRef(s1.cur).value.id == tip
    ensures var r := Resolve(Arrive(s, b), b, tip, cfg);
            && (r.1.Next? || r.1.HandlerFailed?) && Inv(r.0, e) && s.log <= r.0.log
  {
    var s1 := Arrive(s, b);
    if Reaches(s1.db.links, tip, s1.db.lib.id) {
      ArrivedOnTheWalk(s, b, tip);
      FireAndSaveOutcome(s1.(cur := Connected(s1.cur)), b, tip, cfg);
      FireAndSaveKeeps(s1.(cur := Connected(s1.cur)), b, tip, cfg, e);
    } else {
      PendingKeeps(s1, b, tip, cfg, e);
    }
  }

  lemma AddedAgrees(links: Links, b: Block, g: Ledger)
    requires Acyclic(g) && Agrees(g, b) && LinksAgree(g, links)
    ensures WellLinked(AddLink(links, b)) && LinksAgree(g, AddLink(links, b))
  {
    AgreeingIsWellLinked(g, AddLink(links, b));
  }
}
