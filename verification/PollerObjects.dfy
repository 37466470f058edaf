/**
 The poller as the objects of the code: stored blocks whose fired flag is set in place,
 the fork database, the cursor and the poller that drives them. Each method is tied to
 the step functions whose runs are studied in the modules above.
 */
module PollerObjects {
  import opened Options
  import opened ForkDB
  import opened Poller
  import opened PollerRuns

  class PolledBlock {
    const blk: Block
    var fired: bool

    constructor (blk: Block, fired: bool)
      ensures this.blk == blk && this.fired == fired
    {
      this.blk := blk;
      this.fired := fired;
    }
  }

  lemma RestoreOneMore(blocks: seq<SavedBlock>, i: nat)
    requires i < |blocks|
    ensures RestoreLinks(blocks[..i + 1])
            == ForkDB.AddLink(RestoreLinks(blocks[..i]), Block(blocks[i].id, blocks[i].num, blocks[i].prevId, 0, 0))
  {
    assert blocks[..i + 1][..i] == blocks[..i];
  }

  /** The database of another library, in the simplest form that meets its contract. */
  class ForkDatabase {
    var links: map<string, PolledBlock>
    var lib: Ref

    ghost predicate Valid()
      reads this
    {
      forall id | id in links :: links[id].blk.id == id
    }

    function Blocks(): (r: Links)
      reads this
      ensures r.Keys == links.Keys
    {
      map id | id in links :: links[id].blk
    }

    ghost function View(): Db
      reads this, links.Values
    {
      Db(Blocks(), (set id | id in links && links[id].fired), lib)
    }

    constructor (lib: Ref)
      ensures Valid() && View() == Db(map[], {}, lib) && links == map[]
    {
      this.lib := lib;
      links := map[];
    }

    method AddLink(b: PolledBlock) returns (seen: bool, parentSeen: bool)
      requires Valid()
      modifies this
      ensures Valid() && lib == old(lib)
      ensures links == if b.blk.id in old(links) then old(links) else old(links)[b.blk.id := b]
      ensures links.Values <= old(links.Values) + {b}
      ensures View().links == ForkDB.AddLink(old(View().links), b.blk)
      ensures View().fired ==
              old(View().fired) + if b.blk.id !in old(links) && b.fired then {b.blk.id} else {}
      ensures seen == (b.blk.id in old(links)) && parentSeen == (b.blk.parentId in old(links))
    {
      seen, parentSeen := b.blk.id in links, b.blk.parentId in links;
      if !seen {
        links := links[b.blk.id := b];
      }
    }

    /** The database rebuilt from a cursor file: every saved block comes back as fired. */
    constructor Restore(sf: StateFile)
      ensures Valid() && View() == InitState(sf.lib, Some(sf)).0.db && fresh(links.Values)
    {
      lib := sf.lib;
      links := map[];
      new;
      for i := 0 to |sf.blocks|
        invariant Valid() && lib == sf.lib && fresh(links.Values)
        invariant Blocks() == RestoreLinks(sf.blocks[..i]) && View().fired == Blocks().Keys
      {
        var x := sf.blocks[i];
        RestoreOneMore(sf.blocks, i);
        AddRestored(x);
      }
      assert sf.blocks[..|sf.blocks|] == sf.blocks;
    }

    /** A saved block comes back as fired, and without the number of its parent. */
    method AddRestored(x: SavedBlock)
      requires Valid() && View().fired == Blocks().Keys
      modifies this
      ensures Valid() && lib == old(lib) && fresh(links.Values - old(links.Values))
      ensures Blocks() == ForkDB.AddLink(old(Blocks()), Block(x.id, x.num, x.prevId, 0, 0))
      ensures View().fired == Blocks().Keys
    {
      var b := new PolledBlock(Block(x.id, x.num, x.prevId, 0, 0), true);
      var _, _ := AddLink(b);
    }

    method CompleteSegment(tip: string) returns (seg: seq<PolledBlock>, reachLib: bool)
      requires Valid() && WellLinked(Blocks())
      ensures |seg| == |Walk(Blocks(), tip)|
      ensures forall i | 0 <= i < |seg| ::
                Walk(Blocks(), tip)[i] in links && seg[i] == links[Walk(Blocks(), tip)[i]]
      ensures reachLib == Reaches(Blocks(), tip, lib.id)
    {
      var all := Blocks();
      var ids := Walk(all, tip);
      seg := [];
      for i := 0 to |ids|
        invariant |seg| == i
        invariant forall k | 0 <= k < i :: ids[k] in links && seg[k] == links[ids[k]]
      {
        seg := seg + [links[ids[i]]];
      }
      reachLib := Reaches(all, tip, lib.id);
    }

    method SetLIB(head: string, libNum: nat)
      requires Valid() && WellLinked(Blocks())
      modifies `lib
      ensures View() == old(View()).(lib := ForkDB.SetLIB(old(Blocks()), old(lib), head, libNum))
    {
      lib := ForkDB.SetLIB(Blocks(), lib, head, libNum);
    }

    method PurgeBeforeLIB()
      requires Valid()
      modifies `links
      ensures Valid() && links.Values <= old(links.Values)
      ensures View() == Purge(old(View()))
    {
      links := map id | id in links && lib.num <= links[id].blk.num :: links[id];
    }
  }

  class BlockCursor {
    var state: SegState
    var incomplete: Option<Ref>
    var current: Option<Ref>

    ghost function View(): Cursor
      reads this
    {
      Cursor(state, incomplete, current)
    }

    constructor ()
      ensures View() == START
    {
      state, incomplete, current := Continuous, None, None;
    }

    method AddBlk(blk: Ref, seen: bool, parentSeen: bool)
      modifies this
      ensures View() == Poller.AddBlk(old(View()), blk, seen, parentSeen)
    {
      if state.Incomplete? && seen && parentSeen {
        state := Continuous;
      }
      current := Some(blk);
    }

    method BlkSegment() returns (r: Option<Ref>)
      ensures r == SegmentRef(View())
    {
      if state.Incomplete? {
        return incomplete;
      }
      return current;
    }

    method BlkIsConnectedToLib()
      modifies this
      ensures View() == Connected(old(View()))
    {
      state := Continuous;
      incomplete := None;
    }

    method BlkIsNotConnectedToLib()
      modifies this
      ensures View() == NotConnected(old(View()))
    {
      if !state.Incomplete? {
        state := Incomplete;
        incomplete := current;
      }
    }
  }

  // ---- firing in place

  lemma {:induction false} DueSplit(links: Links, fired: set<string>, gate: nat, seg: seq<string>, i: nat)
    requires i <= |seg| && forall k | 0 <= k < |seg| :: seg[k] in links
    ensures Due(links, fired, gate, seg[..i]) <= Due(links, fired, gate, seg)
  {
    if i < |seg| {
      DueSplit(links, fired, gate, seg[..|seg| - 1], i);
      assert seg[..|seg| - 1][..i] == seg[..i];
    } else {
      assert seg[..i] == seg;
    }
  }

  /** The handler's first refusal is where the accepted blocks end. */
  lemma {:induction false} TakenIs(accepts: Block -> bool, due: seq<Block>, n: nat)
    requires n <= |due| && (forall k | 0 <= k < n :: accepts(due[k])) && (n < |due| ==> !accepts(due[n]))
    ensures Taken(accepts, due) == n
  {
    if n > 0 {
      TakenIs(accepts, due[1..], n - 1);
    }
  }

  /** At its turn, a block's flag says what it said before the segment was fired. */
  lemma DueStep(links: Links, fired: set<string>, gate: nat, ids: seq<string>, i: nat)
    requires i < |ids| && IsChain(links, ids) && forall id | id in links :: links[id].id == id
    ensures var low := Due(links, fired, gate, ids[..i]);
            var b := links[ids[i]];
            && IsDue(b, fired, gate) == (ids[i] !in fired + Ids(low) && gate <= b.num)
            && Due(links, fired, gate, ids[..i + 1]) == (if IsDue(b, fired, gate) then low + [b] else low)
            && Ids(low + [b]) == Ids(low) + {ids[i]}
  {
    var low := Due(links, fired, gate, ids[..i]);
    assert ids[..i + 1][..i] == ids[..i];
    DuePrefix(links, fired, gate, ids[..i]);
    assert ids[i] !in ids[..i];
    IdsAppend(low, [links[ids[i]]]);
  }

  /** Where the handler refuses the block at `i`, the handed-over part of the whole segment ends. */
  lemma RefusedAt(links: Links, fired: set<string>, cfg: Config, ids: seq<string>, i: nat)
    requires i < |ids| && IsChain(links, ids) && forall id | id in links :: links[id].id == id
    requires forall b | b in Due(links, fired, cfg.gate, ids[..i]) :: cfg.accepts(b)
    requires IsDue(links[ids[i]], fired, cfg.gate) && !cfg.accepts(links[ids[i]])
    ensures var due := Due(links, fired, cfg.gate, ids);
            Taken(cfg.accepts, due) < |due| && due[..Taken(cfg.accepts, due)] == Due(links, fired, cfg.gate, ids[..i])
  {
    var due := Due(links, fired, cfg.gate, ids);
    var low := Due(links, fired, cfg.gate, ids[..i]);
    DueStep(links, fired, cfg.gate, ids, i);
    DueSplit(links, fired, cfg.gate, ids, i + 1);
    assert due[|low|] == links[ids[i]];
    assert forall k | 0 <= k < |low| :: due[k] == low[k] && low[k] in low;
    TakenIs(cfg.accepts, due, |low|);
  }

  lemma AllTaken(accepts: Block -> bool, due: seq<Block>)
    requires forall b | b in due :: accepts(b)
    ensures Taken(accepts, due) == |due| && due[..|due|] == due
  {
    assert forall k | 0 <= k < |due| :: due[k] in due;
    TakenIs(accepts, due, |due|);
  }

  /** The three ways a connected step can end, spelled out. */
  lemma FireAndSaveEnds(s: State, b: Block, seg: seq<string>, cfg: Config, due: seq<Block>, n: nat)
    requires WellLinked(s.db.links) && forall i | 0 <= i < |seg| :: seg[i] in s.db.links
    requires due == Due(s.db.links, s.db.fired, cfg.gate, seg) && n == Taken(cfg.accepts, due)
    ensures var db := s.db.(fired := s.db.fired + Ids(due[..n]));
            FireAndSave(s, b, seg, cfg) ==
            if n < |due| then (State(db, s.cur, s.log + due[..n], s.saved), HandlerFailed)
            else if seg == [] then (State(db, s.cur, s.log + due[..n], s.saved), EmptySegment)
            else
              var lib := SetLIB(s.db.links, s.db.lib, b.id, b.libNum);
              (State(Purge(db.(lib := lib)), s.cur, s.log + due[..n], Some(FileOf(s.db.links, lib, seg))),
               Next(s.db.links[seg[|seg| - 1]].num + 1, None))
  {
  }

  lemma ResolveEnds(s: State, b: Block, tip: string, cfg: Config, seg: seq<string>)
    requires WellLinked(s.db.links) && seg == Walk(s.db.links, tip)
    ensures Resolve(s, b, tip, cfg) ==
            if Reaches(s.db.links, tip, s.db.lib.id) then FireAndSave(s.(cur := Connected(s.cur)), b, seg, cfg)
            else (s.(cur := NotConnected(s.cur)),
                  if seg == [] then EmptySegment
                  else Next(s.db.links[seg[0]].parentNum, Some(s.db.links[seg[0]].parentId)))
  {
  }

  class BlockPoller {
    const gate: nat
    const accepts: Block -> bool
    const forkDB: ForkDatabase
    var handled: seq<Block>
    var saved: Option<StateFile>

    constructor (gate: nat, accepts: Block -> bool, forkDB: ForkDatabase)
      ensures this.gate == gate && this.accepts == accepts && this.forkDB == forkDB
      ensures handled == [] && saved == None
    {
      this.gate, this.accepts, this.forkDB := gate, accepts, forkDB;
      handled, saved := [], None;
    }

    ghost function View(cur: BlockCursor): State
      reads this, forkDB, forkDB.links.Values, cur
    {
      State(forkDB.View(), cur.View(), handled, saved)
    }

    /** Hands one block over unless it was already, or lies below the gate. */
    method Fire(b: PolledBlock) returns (ok: bool)
      requires forkDB.Valid() && b.blk.id in forkDB.links && forkDB.links[b.blk.id] == b
      modifies `handled, b`fired
      ensures ok == (old(b.fired) || b.blk.num < gate || accepts(b.blk))
      ensures var hand := !old(b.fired) && gate <= b.blk.num && accepts(b.blk);
              && handled == (if hand then old(handled) + [b.blk] else old(handled))
              && forkDB.View() == old(forkDB.View()).(
                   fired := old(forkDB.View().fired) + if hand then {b.blk.id} else {})
    {
      if b.fired {
        return true;
      }
      if b.blk.num < gate {
        return true;
      }
      if !accepts(b.blk) {
        return false;
      }
      handled := handled + [b.blk];
      b.fired := true;
      return true;
    }

    /** One block of a segment, after the blocks `low` have been handed over. */
    method FireDue(b: PolledBlock, ghost db: Db, ghost low: seq<Block>) returns (ok: bool)
      requires forkDB.Valid() && b.blk.id in forkDB.links && forkDB.links[b.blk.id] == b
      requires forkDB.View() == db.(fired := db.fired + Ids(low))
      requires IsDue(b.blk, db.fired, gate) == (b.blk.id !in db.fired + Ids(low) && gate <= b.blk.num)
      requires Ids(low + [b.blk]) == Ids(low) + {b.blk.id}
      modifies `handled, b`fired
      ensures var due := IsDue(b.blk, db.fired, gate);
              && ok == (due ==> accepts(b.blk))
              && handled == (if due && ok then old(handled) + [b.blk] else old(handled))
              && forkDB.View() == db.(fired := db.fired + Ids(if due && ok then low + [b.blk] else low))
    {
      assert b.fired == (b.blk.id in forkDB.View().fired);
      ok := Fire(b);
      assert db.fired + Ids(low) + {b.blk.id} == db.fired + (Ids(low) + {b.blk.id});
      assert db.fired + Ids(low) + {} == db.fired + Ids(low);
    }

    /** The segment is handed over bottom-up until the handler refuses a block. */
    method FireCompleteSegment(seg: seq<PolledBlock>, ghost ids: seq<string>) returns (ok: bool)
      requires forkDB.Valid() && |seg| == |ids| && IsChain(forkDB.Blocks(), ids)
      requires forall i | 0 <= i < |seg| :: ids[i] in forkDB.links && seg[i] == forkDB.links[ids[i]]
      modifies `handled, seg
      ensures var due := Due(old(forkDB.View().links), old(forkDB.View().fired), gate, ids);
              var n := Taken(accepts, due);
              && ok == (n == |due|)
              && handled == old(handled) + due[..n]
              && forkDB.View() == old(forkDB.View()).(fired := old(forkDB.View().fired) + Ids(due[..n]))
    {
      ghost var db := forkDB.View();
      ghost var low: seq<Block> := [];
      for i := 0 to |seg|
        invariant low == Due(db.links, db.fired, gate, ids[..i]) && forall b | b in low :: accepts(b)
        invariant handled == old(handled) + low
        invariant forkDB.View() == db.(fired := db.fired + Ids(low))
      {
        DueStep(db.links, db.fired, gate, ids, i);
        var b := seg[i];
        ok := FireDue(b, db, low);
        if !ok {
          RefusedAt(db.links, db.fired, Config(gate, accepts), ids, i);
          return;
        }
        OneMore(old(handled), low, b.blk);
        low := if IsDue(b.blk, db.fired, gate) then low + [b.blk] else low;
      }
      assert ids[..|seg|] == ids;
      AllTaken(accepts, low);
      ok := true;
    }

    /** The fired segment and the LIB go into the cursor file. */
    method SaveState(seg: seq<PolledBlock>, ghost all: Links, ghost ids: seq<string>)
      requires seg != [] && |seg| == |ids|
      requires forall i | 0 <= i < |seg| :: ids[i] in all && seg[i].blk == all[ids[i]]
      modifies `saved
      ensures saved == Some(FileOf(all, forkDB.lib, ids))
    {
      var blocks: seq<SavedBlock> := [];
      for i := 0 to |seg|
        invariant |blocks| == i
        invariant forall k | 0 <= k < i :: blocks[k] == SavedOf(seg[k].blk)
      {
        blocks := blocks + [SavedOf(seg[i].blk)];
      }
      var last := seg[|seg| - 1].blk;
      saved := Some(StateFile(forkDB.lib, SavedOf(last), blocks));
      assert blocks == SavedBlocks(all, ids);
    }

    /** One fetched block, as the step function says. */
    method ProcessBlock(cur: BlockCursor, b: Block) returns (out: Outcome)
      requires forkDB.Valid() && WellLinked(ForkDB.AddLink(forkDB.Blocks(), b))
      modifies this, forkDB, forkDB.links.Values, cur
      ensures forkDB.Valid() && fresh(forkDB.links.Values - old(forkDB.links.Values))
      ensures var r := Process(old(View(cur)), b, Config(gate, accepts));
              && out == r.1
              && cur.View() == r.0.cur
              && handled == r.0.log
              && saved == r.0.saved
              && forkDB.View() == r.0.db
    {
      if b.num < forkDB.lib.num {
        return BelowLib;
      }
      var stored := new PolledBlock(b, false);
      var seen, parentSeen := forkDB.AddLink(stored);
      cur.AddBlk(RefOf(b), seen, parentSeen);
      assert View(cur) == Arrive(old(View(cur)), b);
      var tip := cur.BlkSegment();
      if tip.None? {
        return NilSegment;
      }
      out := ResolveTip(cur, b, tip.value.id);
    }

    /** The segment under the cursor's tip is fired, or its missing parent asked for. */
    method ResolveTip(cur: BlockCursor, b: Block, tip: string) returns (out: Outcome)
      requires forkDB.Valid() && WellLinked(forkDB.Blocks())
      modifies this, forkDB, forkDB.links.Values, cur
      ensures forkDB.Valid() && forkDB.links.Values <= old(forkDB.links.Values)
      ensures var r := Resolve(old(View(cur)), b, tip, Config(gate, accepts));
              && out == r.1
              && cur.View() == r.0.cur
              && handled == r.0.log
              && saved == r.0.saved
              && forkDB.View() == r.0.db
    {
      var seg, reachLib := forkDB.CompleteSegment(tip);
      ghost var ids := Walk(forkDB.Blocks(), tip);
      WalkIsChain(forkDB.Blocks(), tip);
      ghost var s := View(cur);
      ghost var r := Resolve(s, b, tip, Config(gate, accepts));
      ResolveEnds(s, b, tip, Config(gate, accepts), ids);
      assert s == old(View(cur));
      if reachLib {
        cur.BlkIsConnectedToLib();
        out := FireConnected(cur, b, seg, ids);
        return;
      }
      cur.BlkIsNotConnectedToLib();
      if seg == [] {
        return EmptySegment;
      }
      return Next(seg[0].blk.parentNum, Some(seg[0].blk.parentId));
    }

    /** The connected part of a step: hand over, move the LIB, purge, save. */
    method FireConnected(cur: BlockCursor, b: Block, seg: seq<PolledBlock>, ghost ids: seq<string>)
      returns (out: Outcome)
      requires forkDB.Valid() && WellLinked(forkDB.Blocks()) && |seg| == |ids| && IsChain(forkDB.Blocks(), ids)
      requires forall i | 0 <= i < |seg| :: ids[i] in forkDB.links && seg[i] == forkDB.links[ids[i]]
      modifies this, forkDB, seg
      ensures forkDB.Valid() && forkDB.links.Values <= old(forkDB.links.Values)
      ensures var r := FireAndSave(old(View(cur)), b, ids, Config(gate, accepts));
              && out == r.1
              && cur.View() == r.0.cur
              && handled == r.0.log
              && saved == r.0.saved
              && forkDB.View() == r.0.db
    {
      ghost var s := View(cur);
      ghost var all := forkDB.Blocks();
      ghost var due := Due(s.db.links, s.db.fired, gate, ids);
      FireAndSaveEnds(s, b, ids, Config(gate, accepts), due, Taken(accepts, due));
      var ok := FireCompleteSegment(seg, ids);
      if !ok {
        return HandlerFailed;
      }
      if seg == [] {
        return EmptySegment;
      }
      MoveOn(b, seg, all, ids);
      return Next(seg[|seg| - 1].blk.num + 1, None);
    }

    /** Once a segment was handed over: the LIB moves, what is below it goes, and the cursor file is written. */
    method MoveOn(b: Block, seg: seq<PolledBlock>, ghost all: Links, ghost ids: seq<string>)
      requires forkDB.Valid() && WellLinked(forkDB.Blocks()) && all == forkDB.Blocks()
      requires seg != [] && |seg| == |ids|
      requires forall i | 0 <= i < |seg| :: ids[i] in all && seg[i].blk == all[ids[i]]
      modifies `saved, forkDB
      ensures forkDB.Valid() && forkDB.links.Values <= old(forkDB.links.Values)
      ensures var db := old(forkDB.View());
              var lib := ForkDB.SetLIB(all, db.lib, b.id, b.libNum);
              forkDB.View() == Purge(db.(lib := lib)) && saved == Some(FileOf(all, lib, ids))
    {
      forkDB.SetLIB(b.id, b.libNum);
      forkDB.PurgeBeforeLIB();
      SaveState(seg, all, ids);
    }

    /** The fetch loop: every answer is processed until one ends the run. */
    method Run(cur: BlockCursor, firstNum: nat, fetches: seq<Fetch>, ghost g: Ledger) returns (stop: Stop)
      requires forkDB.Valid() && Acyclic(g) && LinksAgree(g, forkDB.Blocks()) && SoundFetches(g, fetches)
      modifies this, forkDB, forkDB.links.Values, cur
      ensures forkDB.Valid()
      ensures (View(cur), stop) ==
              PollerRuns.Run(g, old(View(cur)), firstNum, None, fetches, Config(gate, accepts))
    {
      var num := firstNum;
      var hash: Option<string> := None;
      ghost var whole := PollerRuns.Run(g, View(cur), num, hash, fetches, Config(gate, accepts));
      for i := 0 to |fetches|
        invariant forkDB.Valid() && LinksAgree(g, forkDB.Blocks())
        invariant fresh(forkDB.links.Values - old(forkDB.links.Values))
        invariant PollerRuns.Run(g, View(cur), num, hash, fetches[i..], Config(gate, accepts)) == whole
      {
        assert fetches[i..][0] == fetches[i] && fetches[i..][1..] == fetches[i + 1..];
        match fetches[i]
        case Failed =>
          return FetchError;
        case Skipped =>
          if hash.Some? {
            return SkippedByHash;
          }
          num := num + 1;
        case Got(b) =>
          ProcessAgrees(g, View(cur), b, Config(gate, accepts));
          var out := ProcessBlock(cur, b);
          if !out.Next? {
            return Stopped(out);
          }
          num, hash := out.num, out.hash;
      }
      assert fetches[|fetches|..] == [];
      return Waiting(num, hash);
    }
  }
}
