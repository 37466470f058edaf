/** String operations of the Go standard library, as far as the line formats use them. */
module Text {
  import opened Options

  predicate HasPrefix(s: string, p: string) {
    |p| <= |s| && s[..|p|] == p
  }

  /** The place of the first `c`, or the length when there is none. */
  function Find(s: string, c: char): (i: nat)
    ensures i <= |s| && c !in s[..i]
    ensures i < |s| ==> s[i] == c
  {
    if s == "" || s[0] == c then 0
    else
      var i := Find(s[1..], c) + 1;
      assert s[..i] == [s[0]] + s[1..][..i - 1];
      i
  }

  lemma {:induction false} FindFirst(a: string, c: char, rest: string)
    requires c !in a
    ensures Find(a + [c] + rest, c) == |a|
  {
    var s := a + [c] + rest;
    if a != "" {
      assert a[0] in a && s[1..] == a[1..] + [c] + rest;
      FindFirst(a[1..], c, rest);
    }
  }

  /** At most n - 1 cuts at `c`; what follows the last cut stays in one piece. */
  function SplitN(s: string, c: char, n: nat): (chunks: seq<string>)
    requires 0 < n
    ensures 0 < |chunks| <= n
    decreases n
  {
    var i := Find(s, c);
    if n == 1 || i == |s| then [s] else [s[..i]] + SplitN(s[i + 1..], c, n - 1)
  }

  function Join(fields: seq<string>, c: char): string
    requires fields != []
  {
    if |fields| == 1 then fields[0] else fields[0] + [c] + Join(fields[1..], c)
  }

  /** No chunk that was cut off holds the separator. */
  lemma {:induction false} ChunksAreFree(s: string, c: char, n: nat)
    requires 0 < n
    ensures forall i | 0 <= i < |SplitN(s, c, n)| - 1 :: c !in SplitN(s, c, n)[i]
    decreases n
  {
    var i := Find(s, c);
    if n > 1 && i < |s| {
      ChunksAreFree(s[i + 1..], c, n - 1);
    }
  }

  lemma CutFirst(a: string, c: char, rest: string, n: nat)
    requires c !in a && 1 < n
    ensures SplitN(a + [c] + rest, c, n) == [a] + SplitN(rest, c, n - 1)
  {
    FindFirst(a, c, rest);
    var s := a + [c] + rest;
    assert s[..|a|] == a && s[|a| + 1..] == rest;
  }

  /** Splitting undoes joining when only the last field may hold the separator. */
  lemma {:induction false} SplitOfJoin(fields: seq<string>, c: char)
    requires fields != [] && forall i | 0 <= i < |fields| - 1 :: c !in fields[i]
    ensures SplitN(Join(fields, c), c, |fields|) == fields
  {
    if |fields| > 1 {
      SplitOfJoin(fields[1..], c);
      CutFirst(fields[0], c, Join(fields[1..], c), |fields|);
      assert fields == [fields[0]] + fields[1..];
    }
  }

  /** ... and only then. */
  lemma SplitUndoesJoin(fields: seq<string>, c: char)
    requires fields != []
    ensures SplitN(Join(fields, c), c, |fields|) == fields <==> forall i | 0 <= i < |fields| - 1 :: c !in fields[i]
  {
    ChunksAreFree(Join(fields, c), c, |fields|);
    if forall i | 0 <= i < |fields| - 1 :: c !in fields[i] {
      SplitOfJoin(fields, c);
    }
  }

  /** The first place where `p` occurs in `s`. */
  function FindText(s: string, p: string): (r: Option<nat>)
    ensures r.Some? ==> r.value + |p| <= |s| && s[r.value..r.value + |p|] == p
    ensures r.None? ==> !HasPrefix(s, p)
  {
    if HasPrefix(s, p) then Some(0)
    else if s == "" then None
    else match FindText(s[1..], p) case None => None case Some(i) => Some(i + 1)
  }

  /** The text without the first occurrence of `p`. */
  function RemoveFirst(s: string, p: string): string {
    match FindText(s, p)
    case None => s
    case Some(i) => s[..i] + s[i + |p|..]
  }

  lemma RemovePrefix(p: string, t: string)
    ensures RemoveFirst(p + t, p) == t
  {
    assert (p + t)[..|p|] == p && (p + t)[|p|..] == t;
  }

  lemma PrefixHas(s: string, p: string, c: char)
    requires HasPrefix(s, p) && c in p
    ensures c in s && s[0] == p[0]
  {
    assert c in s[..|p|] && s[..|p|][0] == p[0];
  }

  lemma RemovedIsGone(s: string, p: string)
    requires p != "" && RemoveFirst(s, p) == s
    ensures !HasPrefix(s, p)
  {
    match FindText(s, p)
    case None =>
    case Some(i) => RemovedIsShorter(s, i, |p|);
  }

  lemma RemovedIsShorter(s: string, i: nat, n: nat)
    requires i + n <= |s|
    ensures |s[..i] + s[i + n..]| == |s| - n
  {
  }

  /** The pieces of a split, joined, are the text again, and there are fewer than asked for only when it has no more. */
  lemma {:induction false} JoinOfSplit(s: string, c: char, n: nat)
    requires 0 < n
    ensures Join(SplitN(s, c, n), c) == s
    ensures |SplitN(s, c, n)| < n ==> c !in SplitN(s, c, n)[|SplitN(s, c, n)| - 1]
    decreases n
  {
    var i := Find(s, c);
    if n > 1 && i < |s| {
      var rest := SplitN(s[i + 1..], c, n - 1);
      JoinOfSplit(s[i + 1..], c, n - 1);
      JoinedFront(s[..i], rest, c);
      assert s == s[..i] + [c] + s[i + 1..];
    } else if i == |s| {
      assert s[..i] == s;
    }
  }

  lemma JoinedFront(a: string, rest: seq<string>, c: char)
    requires rest != []
    ensures Join([a] + rest, c) == a + [c] + Join(rest, c)
  {
    assert ([a] + rest)[1..] == rest;
  }

  ghost predicate Occurs(s: string, p: string, i: nat) {
    i + |p| <= |s| && s[i..i + |p|] == p
  }

  /** The first occurrence is the one that goes, wherever it is, and nothing else does. */
  lemma {:induction false} RemovesTheFirst(s: string, p: string, i: nat)
    requires Occurs(s, p, i) && forall j: nat | j < i :: !Occurs(s, p, j)
    ensures RemoveFirst(s, p) == s[..i] + s[i + |p|..]
  {
    FoundFirst(s, p, i);
  }

  lemma {:induction false} FoundFirst(s: string, p: string, i: nat)
    requires Occurs(s, p, i) && forall j: nat | j < i :: !Occurs(s, p, j)
    ensures FindText(s, p) == Some(i)
  {
    if i > 0 {
      assert !Occurs(s, p, 0);
      assert s[1..][i - 1..i - 1 + |p|] == s[i..i + |p|];
      forall j: nat | j < i - 1
        ensures !Occurs(s[1..], p, j)
      {
        assert !Occurs(s, p, j + 1);
        assert j + |p| <= |s[1..]| ==> s[1..][j..j + |p|] == s[j + 1..j + 1 + |p|];
      }
      FoundFirst(s[1..], p, i - 1);
    }
  }

  lemma {:induction false} NothingRemoved(s: string, p: string)
    requires forall j: nat :: !Occurs(s, p, j)
    ensures RemoveFirst(s, p) == s
  {
    assert FindText(s, p).Some? ==> Occurs(s, p, FindText(s, p).value);
  }
}
