/**
 The contract of the fork database as the block poller uses it: blocks keyed by
 id, linked by parent id, with one reference to the last irreversible block (LIB).
 The database itself belongs to another library; only what the poller relies on
 is stated here.
 */
module ForkDB {
  import opened Options

  datatype Ref = Ref(id: string, num: nat)

  datatype Block = Block(id: string, num: nat, parentId: string, parentNum: nat, libNum: nat)

  function RefOf(b: Block): Ref {
    Ref(b.id, b.num)
  }

  type Links = map<string, Block>

  /** `fired` holds the ids of the stored blocks whose fired flag is set. */
  datatype Db = Db(links: Links, fired: set<string>, lib: Ref)

  /** What the chain fixes about every id: its number and its parent. */
  datatype Ledger = Ledger(num: string -> nat, parent: string -> string)

  ghost predicate RisesFromParent(g: Ledger, id: string) {
    id != "" ==> g.parent(id) == "" || g.num(g.parent(id)) < g.num(id)
  }

  ghost predicate Acyclic(g: Ledger) {
    forall id: string :: RisesFromParent(g, id)
  }

  /** A stored block; a block restored from the cursor file has no parent number. */
  ghost predicate Agrees(g: Ledger, b: Block) {
    b.id != "" && b.num == g.num(b.id) && b.parentId == g.parent(b.id)
  }

  /** A block as the fetcher returns it. */
  ghost predicate Sound(g: Ledger, b: Block) {
    Agrees(g, b) && b.parentNum == g.num(b.parentId)
  }

  /** Every stored block sits under its own id and agrees with the chain. */
  ghost predicate LinksAgree(g: Ledger, links: Links) {
    forall id | id in links :: links[id].id == id && Agrees(g, links[id])
  }

  predicate AboveParent(links: Links, id: string)
    requires id in links
  {
    links[id].parentId in links ==> links[links[id].parentId].num < links[id].num
  }

  predicate WellLinked(links: Links) {
    forall id {:trigger AboveParent(links, id)} | id in links :: AboveParent(links, id)
  }

  function Height(links: Links, id: string): nat {
    if id in links then links[id].num + 1 else 0
  }

  function AddLink(links: Links, b: Block): Links {
    if b.id in links then links else links[b.id := b]
  }

  /** The ids from the lowest linked ancestor up to `id`: what CompleteSegment returns. */
  function Walk(links: Links, id: string): (seg: seq<string>)
    requires WellLinked(links)
    ensures forall i | 0 <= i < |seg| :: seg[i] in links
    decreases Height(links, id)
  {
    if id !in links then [] else
      assert AboveParent(links, id);
      Walk(links, links[id].parentId) + [id]
  }

  /** The id the walk stops on: the first ancestor that is not stored. */
  function Root(links: Links, id: string): string
    requires WellLinked(links)
    decreases Height(links, id)
  {
    if id !in links then id else
      assert AboveParent(links, id);
      Root(links, links[id].parentId)
  }

  /** Whether the walk from `id` meets the LIB. */
  predicate Reaches(links: Links, id: string, lib: string)
    requires WellLinked(links)
  {
    lib in Walk(links, id) || lib == Root(links, id)
  }

  /** The block numbered `n` at or below `id` on its own chain. */
  function AncestorAt(links: Links, id: string, n: nat): (r: Option<Ref>)
    requires WellLinked(links)
    ensures r.Some? ==> r.value.num == n && r.value.id in Walk(links, id) && r.value.id in links
                        && links[r.value.id].num == n
    decreases Height(links, id)
  {
    if id !in links || links[id].num < n then None
    else if links[id].num == n then Some(Ref(id, n))
    else
      assert AboveParent(links, id);
      AncestorAt(links, links[id].parentId, n)
  }

  /** SetLIB moves to the ancestor of `head` numbered `libNum`, and never backwards. */
  function SetLIB(links: Links, lib: Ref, head: string, libNum: nat): Ref
    requires WellLinked(links)
  {
    match AncestorAt(links, head, libNum)
    case Some(r) => if lib.num < r.num then r else lib
    case None => lib
  }

  function PurgeBelow(links: Links, libNum: nat): Links {
    map id | id in links && libNum <= links[id].num :: links[id]
  }

  // ---- facts about walks

  /** A walk is a parent-linked chain of stored blocks with rising numbers, from the root to `id`. */
  lemma {:induction false} WalkShape(links: Links, id: string)
    requires WellLinked(links)
    ensures var seg := Walk(links, id);
            && (seg == [] <==> id !in links)
            && (seg != [] ==> seg[|seg| - 1] == id && links[seg[0]].parentId == Root(links, id))
            && (forall i | 0 < i < |seg| :: links[seg[i]].parentId == seg[i - 1])
            && (forall i, j | 0 <= i < j < |seg| :: links[seg[i]].num < links[seg[j]].num)
            && Root(links, id) !in links
    decreases Height(links, id)
  {
    if id in links {
      var p := links[id].parentId;
      assert AboveParent(links, id);
      WalkShape(links, p);
      var seg := Walk(links, p);
      if p in links {
        assert forall i | 0 <= i < |seg| :: links[seg[i]].num <= links[p].num;
      }
    }
  }

  /** The walk from a block on a segment is the segment up to that block. */
  lemma {:induction false} WalkPrefix(links: Links, id: string, i: nat)
    requires WellLinked(links) && i < |Walk(links, id)|
    ensures Walk(links, Walk(links, id)[i]) == Walk(links, id)[..i + 1]
    ensures Root(links, Walk(links, id)[i]) == Root(links, id)
    decreases Height(links, id)
  {
    var seg := Walk(links, id);
    if i == |seg| - 1 {
      assert seg[..i + 1] == seg;
    } else {
      var p := links[id].parentId;
      assert AboveParent(links, id);
      WalkPrefix(links, p, i);
      assert seg[..i + 1] == Walk(links, p)[..i + 1];
    }
  }

  /** Storing a block leaves every walk that does not meet it as it was. */
  lemma {:induction false} WalkFrame(links: Links, b: Block, id: string)
    requires WellLinked(links) && b.id !in links && WellLinked(links[b.id := b])
    requires b.id !in Walk(links[b.id := b], id)
    ensures Walk(links[b.id := b], id) == Walk(links, id)
    ensures Root(links[b.id := b], id) == Root(links, id)
    decreases Height(links, id)
  {
    if id in links {
      assert AboveParent(links, id);
      WalkFrame(links, b, links[id].parentId);
    }
  }

  /** The walk from a block just stored is the walk from its parent, and the block. */
  lemma WalkNew(links: Links, b: Block)
    requires WellLinked(links) && b.id !in links && WellLinked(links[b.id := b])
    ensures Walk(links[b.id := b], b.id) == Walk(links, b.parentId) + [b.id]
    ensures Root(links[b.id := b], b.id) == Root(links, b.parentId)
  {
    var links' := links[b.id := b];
    WalkShape(links', b.id);
    assert AboveParent(links', b.id);
    var below := Walk(links', b.parentId);
    assert forall i | 0 <= i < |below| :: Walk(links', b.id)[i] == below[i];
    assert b.id !in below;
    WalkFrame(links, b, b.parentId);
  }

  /** Storing a block extends a walk exactly when the walk stopped on it. */
  lemma {:induction false} WalkExtend(links: Links, b: Block, id: string)
    requires WellLinked(links) && b.id !in links && WellLinked(links[b.id := b])
    requires b.id in Walk(links[b.id := b], id)
    ensures Root(links, id) == b.id
    ensures Walk(links[b.id := b], id) == Walk(links[b.id := b], b.id) + Walk(links, id)
    ensures Root(links[b.id := b], id) == Root(links[b.id := b], b.id)
    decreases Height(links, id)
  {
    var links' := links[b.id := b];
    if id == b.id {
      assert Walk(links, id) == [];
    } else {
      var p := links[id].parentId;
      assert AboveParent(links, id);
      WalkExtend(links, b, p);
      assert Walk(links', id) == Walk(links', p) + [id];
      assert Walk(links', b.id) + (Walk(links, p) + [id]) == (Walk(links', b.id) + Walk(links, p)) + [id];
    }
  }

  lemma {:induction false} WalkMeetsRoot(links: Links, b: Block, id: string)
    requires WellLinked(links) && b.id !in links && WellLinked(links[b.id := b])
    requires Root(links, id) == b.id
    ensures b.id in Walk(links[b.id := b], id)
    decreases Height(links, id)
  {
    if id in links {
      assert AboveParent(links, id);
      WalkMeetsRoot(links, b, links[id].parentId);
    }
  }

  lemma PurgeIsWellLinked(links: Links, n: nat)
    requires WellLinked(links)
    ensures WellLinked(PurgeBelow(links, n))
  {
    forall id | id in PurgeBelow(links, n)
      ensures AboveParent(PurgeBelow(links, n), id)
    {
      assert AboveParent(links, id);
    }
  }

  /** Purging keeps the part of a walk numbered from `n` up. */
  lemma {:induction false} WalkPurge(links: Links, n: nat, id: string) returns (k: nat)
    requires WellLinked(links) && WellLinked(PurgeBelow(links, n))
    ensures k <= |Walk(links, id)| && Walk(PurgeBelow(links, n), id) == Walk(links, id)[k..]
    ensures forall i | 0 <= i < |Walk(links, id)| :: k <= i <==> n <= links[Walk(links, id)[i]].num
    decreases Height(links, id)
  {
    WalkShape(links, id);
    if id !in links {
      k := 0;
    } else if links[id].num < n {
      k := |Walk(links, id)|;
    } else {
      assert AboveParent(links, id);
      k := WalkPurge(links, n, links[id].parentId);
      var low := Walk(links, links[id].parentId);
      assert (low + [id])[k..] == low[k..] + [id];
    }
  }

  /** Blocks that agree with an acyclic ledger link up without cycles. */
  lemma AgreeingIsWellLinked(g: Ledger, links: Links)
    requires Acyclic(g) && LinksAgree(g, links)
    ensures WellLinked(links)
  {
    forall id | id in links && links[id].parentId in links
      ensures AboveParent(links, id)
    {
      assert RisesFromParent(g, id) && Agrees(g, links[links[id].parentId]);
    }
  }
}
