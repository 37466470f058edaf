/** The loop that links forked block files into chains. */
module ForkLinks {
  datatype ForkFile = ForkFile(id: string, num: nat, prevId: string)

  type Files = map<string, ForkFile>
  type Links = map<string, seq<ForkFile>>

  predicate HasParent(files: Files, id: string) {
    id in files && files[id].prevId in files
  }

  /** Parents rank below their children, so there is no cycle. */
  ghost predicate Acyclic(files: Files, rank: map<string, nat>) {
    forall id {:trigger Ranked(files, rank, id)} | id in files :: Ranked(files, rank, id)
  }

  ghost predicate Ranked(files: Files, rank: map<string, nat>, id: string)
    requires id in files
  {
    && files[id].id == id && id in rank
    && (files[id].prevId in files ==> files[id].prevId in rank && rank[files[id].prevId] < rank[id])
  }

  /** A path down the parent links. */
  ghost predicate Path(files: Files, chain: seq<ForkFile>) {
    && chain != [] && chain[0].id in files && files[chain[0].id] == chain[0]
    && (|chain| > 1 ==> chain[1].prevId == chain[0].id && Path(files, chain[1..]))
  }

  ghost predicate Leaf(files: Files, id: string) {
    forall x | x in files :: files[x].prevId != id
  }

  ghost predicate Descends(files: Files, rank: map<string, nat>, d: string, k: string)
    requires Acyclic(files, rank)
    decreases if d in rank then rank[d] else 0
  {
    d in files && Ranked(files, rank, d) && HasParent(files, d)
    && (files[d].prevId == k || Descends(files, rank, files[d].prevId, k))
  }

  ghost predicate Entry(files: Files, links: Links, k: string)
    requires k in links
  {
    k in files && Path(files, links[k]) && links[k][0] == files[k]
  }

  ghost predicate Done(files: Files, chain: seq<ForkFile>) {
    chain != [] && Leaf(files, chain[|chain| - 1].id)
  }

  /** The chain at `k` is done, or a key below it will still be moved up to it. */
  ghost predicate Ripe(files: Files, rank: map<string, nat>, links: Links, k: string)
    requires Acyclic(files, rank) && k in links
  {
    Done(files, links[k]) || exists d :: d in links && Descends(files, rank, d, k)
  }

  ghost predicate Linking(files: Files, rank: map<string, nat>, links: Links)
    requires Acyclic(files, rank)
  {
    && (forall k {:trigger Entry(files, links, k)} | k in links :: Entry(files, links, k))
    && (forall k {:trigger Ripe(files, rank, links, k)} | k in links :: Ripe(files, rank, links, k))
    && (forall k | k in files && !HasParent(files, k) :: k in links)
  }

  /** Moves the chain at `root` up to its parent, over whatever was there. */
  function LinkUp(files: Files, links: Links, root: string): Links
    requires root in links && HasParent(files, root)
  {
    var parent := files[files[root].prevId];
    (links - {root})[files[root].prevId := [parent] + links[root]]
  }

  // ---- termination: the ranks of the keys fall

  ghost function Total(keys: set<string>, rank: map<string, nat>): nat {
    if keys == {} then 0
    else
      var k :| k in keys;
      Weight(rank, k) + Total(keys - {k}, rank)
  }

  ghost function Weight(rank: map<string, nat>, k: string): nat {
    1 + if k in rank then rank[k] else 0
  }

  lemma {:induction false} TotalWithout(keys: set<string>, rank: map<string, nat>, x: string)
    requires x in keys
    ensures Total(keys, rank) == Weight(rank, x) + Total(keys - {x}, rank)
    decreases keys
  {
    var k :| k in keys && Total(keys, rank) == Weight(rank, k) + Total(keys - {k}, rank);
    if k != x {
      TotalWithout(keys - {k}, rank, x);
      TotalWithout(keys - {x}, rank, k);
      assert keys - {k} - {x} == keys - {x} - {k};
    }
  }

  lemma LinkUpFalls(files: Files, rank: map<string, nat>, links: Links, root: string)
    requires Acyclic(files, rank) && root in links && HasParent(files, root)
    ensures Total(LinkUp(files, links, root).Keys, rank) < Total(links.Keys, rank)
  {
    assert Ranked(files, rank, root);
    var p := files[root].prevId;
    var keys := links.Keys;
    TotalWithout(keys, rank, root);
    assert LinkUp(files, links, root).Keys == keys - {root} + {p};
    TotalWithout(keys - {root} + {p}, rank, p);
    if p in keys - {root} {
      TotalWithout(keys - {root}, rank, p);
    }
    assert keys - {root} + {p} - {p} == keys - {root} - {p};
    if p !in keys {
      assert keys - {root} - {p} == keys - {root};
    }
  }

  // ---- each step keeps the chains

  lemma {:induction false} DescendsOver(files: Files, rank: map<string, nat>, d: string, k: string)
    requires Acyclic(files, rank) && Descends(files, rank, d, k) && HasParent(files, k)
    ensures Descends(files, rank, d, files[k].prevId)
    decreases if d in rank then rank[d] else 0
  {
    assert Ranked(files, rank, d);
    if files[d].prevId != k {
      DescendsOver(files, rank, files[d].prevId, k);
    } else {
      assert Ranked(files, rank, k);
      assert Descends(files, rank, k, files[k].prevId);
    }
  }

  lemma LinkUpKeeps(files: Files, rank: map<string, nat>, links: Links, root: string)
    requires Acyclic(files, rank) && Linking(files, rank, links) && root in links && HasParent(files, root)
    ensures Linking(files, rank, LinkUp(files, links, root))
  {
    var next := LinkUp(files, links, root);
    var p := files[root].prevId;
    forall k | k in next
      ensures Entry(files, next, k)
    {
      assert Entry(files, links, root);
      assert Ranked(files, rank, p) && Ranked(files, rank, root);
      if k == p {
        assert next[p][1..] == links[root];
      } else {
        assert Entry(files, links, k);
      }
    }
    forall k | k in next
      ensures Ripe(files, rank, next, k)
    {
      StillRipe(files, rank, links, root, k);
    }
  }

  lemma StillRipe(files: Files, rank: map<string, nat>, links: Links, root: string, k: string)
    requires Acyclic(files, rank) && Linking(files, rank, links) && root in links && HasParent(files, root)
    requires k in LinkUp(files, links, root)
    ensures Ripe(files, rank, LinkUp(files, links, root), k)
  {
    var next := LinkUp(files, links, root);
    var p := files[root].prevId;
    assert Ranked(files, rank, root) && Entry(files, links, root);
    if k == p {
      assert Ripe(files, rank, links, root);
      if !Done(files, links[root]) {
        var d :| d in links && Descends(files, rank, d, root);
        DescendsOver(files, rank, d, root);
        NotOwnDescendant(files, rank, d, root);
        assert d in next && Descends(files, rank, d, p);
      }
    } else {
      assert Ripe(files, rank, links, k) && Entry(files, links, k);
      if !Done(files, links[k]) {
        var d :| d in links && Descends(files, rank, d, k);
        var d' := if d == root then p else d;
        assert d' in next && Descends(files, rank, d', k);
      }
    }
  }

  lemma {:induction false} DescendsRanks(files: Files, rank: map<string, nat>, d: string, k: string)
    requires Acyclic(files, rank) && Descends(files, rank, d, k)
    ensures d in rank && k in rank && k in files && rank[k] < rank[d]
    decreases if d in rank then rank[d] else 0
  {
    assert Ranked(files, rank, d);
    if files[d].prevId != k {
      DescendsRanks(files, rank, files[d].prevId, k);
    }
  }

  lemma NotOwnDescendant(files: Files, rank: map<string, nat>, d: string, k: string)
    requires Acyclic(files, rank) && Descends(files, rank, d, k)
    ensures d != k
  {
    DescendsRanks(files, rank, d, k);
  }

  /** Every file starts as a chain of its own. */
  lemma StartLinks(files: Files, rank: map<string, nat>)
    requires Acyclic(files, rank)
    ensures Linking(files, rank, map id | id in files :: [files[id]])
  {
    var links := map id | id in files :: [files[id]];
    forall k | k in files
      ensures Entry(files, links, k) && Ripe(files, rank, links, k)
    {
      assert Ranked(files, rank, k);
      if !Leaf(files, k) {
        var x :| x in files && files[x].prevId == k;
        assert Ranked(files, rank, x);
        assert x in links && Descends(files, rank, x, k);
      }
    }
  }

  /** Chains are moved up in any order until no key has a parent. */
  method LinkForks(files: Files, ghost rank: map<string, nat>) returns (links: Links)
    requires Acyclic(files, rank)
    ensures Final(files, rank, links)
  {
    links := map id | id in files :: [files[id]];
    StartLinks(files, rank);
    while exists root :: root in links && HasParent(files, root)
      invariant Linking(files, rank, links)
      decreases Total(links.Keys, rank)
    {
      var root :| root in links && HasParent(files, root);
      LinkUpFalls(files, rank, links, root);
      LinkUpKeeps(files, rank, links, root);
      links := LinkUp(files, links, root);
    }
  }

  // ---- what is reported in the end

  ghost predicate Final(files: Files, rank: map<string, nat>, links: Links)
    requires Acyclic(files, rank)
  {
    Linking(files, rank, links) && forall k | k in links :: !HasParent(files, k)
  }

  /** One chain for every file without a parent, a path from that file down to a leaf. */
  lemma FinalChains(files: Files, rank: map<string, nat>, links: Links)
    requires Acyclic(files, rank) && Final(files, rank, links)
    ensures forall k :: k in links <==> k in files && !HasParent(files, k)
    ensures forall k | k in links :: Path(files, links[k]) && links[k][0] == files[k] && Done(files, links[k])
  {
    forall k | k in links
      ensures Entry(files, links, k) && Done(files, links[k])
    {
      assert Entry(files, links, k) && Ripe(files, rank, links, k);
    }
  }

  lemma {:induction false} PathAt(files: Files, chain: seq<ForkFile>, i: nat)
    requires Path(files, chain) && i < |chain|
    ensures chain[i].id in files && files[chain[i].id] == chain[i]
    ensures 0 < i ==> chain[i].prevId == chain[i - 1].id && chain[i - 1].id in files
    decreases i
  {
    if i > 0 {
      PathAt(files, chain[1..], i - 1);
    }
  }

  lemma {:induction false} PathRises(files: Files, rank: map<string, nat>, chain: seq<ForkFile>, i: nat, j: nat)
    requires Acyclic(files, rank) && Path(files, chain) && i < j < |chain|
    ensures chain[i].id in rank && chain[j].id in rank && rank[chain[i].id] < rank[chain[j].id]
  {
    PathAt(files, chain, j);
    PathAt(files, chain, j - 1);
    assert Ranked(files, rank, chain[j].id);
    if i < j - 1 {
      PathRises(files, rank, chain, i, j - 1);
    }
  }

  /** Two files below `k` share their parent. */
  ghost predicate Branches(files: Files, rank: map<string, nat>, k: string)
    requires Acyclic(files, rank)
  {
    exists x, y :: x != y && Descends(files, rank, x, k) && Descends(files, rank, y, k)
      && files[x].prevId == files[y].prevId
  }

  lemma {:induction false} UnbranchedIsListed(files: Files, rank: map<string, nat>, chain: seq<ForkFile>,
                                              k: string, x: string) returns (i: nat)
    requires Acyclic(files, rank) && Path(files, chain) && Done(files, chain)
    requires k in files && chain[0] == files[k] && !Branches(files, rank, k) && Descends(files, rank, x, k)
    ensures i < |chain| && chain[i] == files[x]
    decreases if x in rank then rank[x] else 0
  {
    assert Ranked(files, rank, x) && Ranked(files, rank, k);
    var j: nat := 0;
    var p := files[x].prevId;
    if p != k {
      j := UnbranchedIsListed(files, rank, chain, k, p);
      assert Ranked(files, rank, p);
    }
    assert chain[j].id == p;
    i := j + 1;
    PathAt(files, chain, i);
    var next := chain[i].id;
    assert Ranked(files, rank, next);
    assert Descends(files, rank, next, k);
  }

  /** A fork is reported in full exactly when it does not branch: of two siblings one is lost. */
  lemma ReportedInFull(files: Files, rank: map<string, nat>, links: Links, k: string)
    requires Acyclic(files, rank) && Final(files, rank, links) && k in links
    ensures (forall x | Descends(files, rank, x, k) :: files[x] in links[k]) <==> !Branches(files, rank, k)
  {
    FinalChains(files, rank, links);
    var chain := links[k];
    if !Branches(files, rank, k) {
      forall x | Descends(files, rank, x, k)
        ensures files[x] in chain
      {
        var i := UnbranchedIsListed(files, rank, chain, k, x);
      }
    }
    forall x, y | Descends(files, rank, x, k) && Descends(files, rank, y, k) && files[x].prevId == files[y].prevId
                  && files[x] in chain && files[y] in chain
      ensures x == y
    {
      assert Ranked(files, rank, x) && Ranked(files, rank, y);
      OneChild(files, rank, chain, files[x], files[y]);
    }
  }

  /** A path holds at most one child of any file. */
  lemma OneChild(files: Files, rank: map<string, nat>, chain: seq<ForkFile>, a: ForkFile, b: ForkFile)
    requires Acyclic(files, rank) && Path(files, chain) && a in chain && b in chain
    requires a.prevId == b.prevId && !(chain[0] in {a, b})
    ensures a == b
  {
    var i, j :| 0 <= i < |chain| && 0 <= j < |chain| && chain[i] == a && chain[j] == b;
    PathAt(files, chain, i);
    PathAt(files, chain, j);
    if i < j {
      PathRises(files, rank, chain, i - 1, j - 1);
    } else if j < i {
      PathRises(files, rank, chain, j - 1, i - 1);
    }
  }
}
