/** The coarse-to-fine search for the last merged bundle, one decimal digit at a time. */
module BlockSearch {
  import opened Multiples
  import opened Decimal

  datatype Probe = Hit | Miss | Fail

  /** `Wraps` stands for the unsigned counter going below zero. */
  datatype Outcome = Found(num: nat) | Failed | Wraps

  const END: nat := 10_000_000_000

  /**
   Steps of 10^k down from `i`; a hit is refined with steps of 10^(k-1) above it. The second
   part of the result lists the numbers probed, in order.
   */
  function Iter(f: nat -> Probe, start: nat, i: nat, k: nat): (Outcome, seq<nat>)
    requires 2 <= k
    decreases k, i
  {
    if i < start then (Found(start), [])
    else if i < Pow10(k) then (Wraps, [])
    else
      var j := i - Pow10(k);
      match f(j)
      case Fail => (Failed, [j])
      case Hit =>
        if k == 2 then (Found(j), [j])
        else
          var (out, probes) := Iter(f, j, j + Pow10(k), k - 1);
          (out, [j] + probes)
      case Miss =>
        var (out, probes) := Iter(f, start, j, k);
        (out, [j] + probes)
  }

  /** The search proper, with the probes it makes. */
  function Search(f: nat -> Probe, start: nat): (Outcome, seq<nat>) {
    var (out, probes) := Iter(f, start, END, 9);
    (if out.Found? && out.num < start then Found(start) else out, probes)
  }

  /** A failed probe makes the caller fall back to its start block. */
  function LastMergedBlockNum(f: nat -> Probe, start: nat): Outcome {
    var out := Search(f, start).0;
    if out.Failed? then Found(start) else out
  }

  /** The loop of the code; `probes` records what it asks the store for. */
  method BlockNumIter(f: nat -> Probe, start: nat, end: nat, interval: nat, ghost k: nat)
    returns (out: Outcome, ghost probes: seq<nat>)
    requires 2 <= k && interval == Pow10(k)
    ensures out == Iter(f, start, end, k).0
    ensures probes == Iter(f, start, end, k).1
    decreases k
  {
    ghost var all := Iter(f, start, end, k);
    ghost var left := all.1;
    var i: nat := end;
    probes := [];
    while i >= start
      invariant Iter(f, start, i, k) == (all.0, left) && all.1 == probes + left
      decreases i
    {
      if i < interval {
        assert probes + [] == probes;
        return Wraps, probes;
      }
      i := i - interval;
      var probe := f(i);
      OneProbe(probes, left, i);
      probes, left := probes + [i], left[1..];
      if probe.Fail? {
        return Failed, probes;
      }
      if probe.Hit? {
        if interval == 100 {
          OnlyHundred(k);
          return Found(i), probes;
        }
        ghost var more;
        out, more := BlockNumIter(f, i, i + interval, interval / 10, k - 1);
        probes := probes + more;
        return;
      }
    }
    assert probes + [] == probes;
    out := Found(start);
  }

  lemma OneProbe(probes: seq<nat>, left: seq<nat>, i: nat)
    requires left != [] && left[0] == i
    ensures probes + left == (probes + [i]) + left[1..]
    ensures (probes + [i]) + [] == probes + [i]
  {
  }

  lemma {:induction false} PowGrows(j: nat, k: nat)
    requires j < k
    ensures Pow10(j) < Pow10(k)
  {
    if j < k - 1 {
      PowGrows(j, k - 1);
    }
  }

  lemma OnlyHundred(k: nat)
    requires 2 <= k
    ensures Pow10(k) == 100 <==> k == 2
  {
    assert Pow10(2) == 100 by {
      assert Pow10(1) == 10 * Pow10(0);
    }
    if k > 2 {
      PowGrows(2, k);
    }
  }

  // ---- what the search finds

  /** `m` with its last `k` digits cleared. */
  function Trunc(m: nat, k: nat): (t: nat)
    ensures t <= m < t + Pow10(k) && t % Pow10(k) == 0
  {
    ToBase(m, Pow10(k))
  }

  /** The bundle at `m` hits, and so does every truncation of it to at most `k` cleared digits. */
  ghost predicate Reachable(f: nat -> Probe, m: nat, k: nat) {
    m % 100 == 0 && forall l | 2 <= l <= k :: f(Trunc(m, l)) == Hit
  }

  ghost predicate NeverFails(f: nat -> Probe) {
    forall m: nat :: f(m) != Fail
  }

  lemma TruncIs(j: nat, m: nat, k: nat)
    requires j % Pow10(k) == 0 && j <= m < j + Pow10(k)
    ensures Trunc(m, k) == j
  {
    var t := Trunc(m, k);
    if t < j {
      BetweenMultiples(t, j, Pow10(k));
    } else {
      BetweenMultiples(j, t, Pow10(k));
    }
  }

  lemma TimesMod(q: nat, n: nat)
    requires 0 < n
    ensures (q * n) % n == 0
  {
    DivUnique(q * n, q, 0, n);
  }

  lemma PowDivides(j: nat, k: nat)
    requires 0 < k && j % Pow10(k) == 0
    ensures j % Pow10(k - 1) == 0
  {
    var p, n := Pow10(k - 1), Pow10(k);
    var q := j / n;
    assert j == q * n;
    assert q * n == (q * 10) * p by {
      assert n == 10 * p;
    }
    TimesMod(q * 10, p);
  }

  /** A round number has no other truncations than itself. */
  lemma {:induction false} RoundIsReachable(f: nat -> Probe, j: nat, k: nat)
    requires 2 <= k && j % Pow10(k) == 0 && f(j) == Hit
    ensures Reachable(f, j, k)
    decreases k
  {
    TruncIs(j, j, k);
    if k == 2 {
      OnlyHundred(2);
    } else {
      PowDivides(j, k);
      RoundIsReachable(f, j, k - 1);
    }
  }

  /**
   One level of the search: it ends with the greatest reachable number from `start` up,
   with `start` if there is none, and below zero only when started at zero in vain.
   */
  lemma {:induction false} IterFinds(f: nat -> Probe, start: nat, i: nat, k: nat, out: Outcome)
    requires 2 <= k && i % Pow10(k) == 0 && NeverFails(f) && out == Iter(f, start, i, k).0
    ensures !out.Failed?
    ensures out.Wraps? ==> start == 0 && forall m: nat | m < i :: !Reachable(f, m, k)
    ensures out.Found? ==> out.num == start || (out.num < i && Reachable(f, out.num, k))
    ensures out.Found? ==> forall m: nat | start <= m < i && Reachable(f, m, k) :: m <= out.num
    ensures start == 0 && (forall m: nat | m < i :: !Reachable(f, m, k)) ==> out.Wraps?
    decreases k, i
  {
    var p := Pow10(k);
    if i < start {
    } else if i < p {
      BetweenMultiples(0, i, p);
    } else {
      var j := i - p;
      PreviousMultiple(i, p);
      if f(j) == Hit {
        RoundIsReachable(f, j, k);
        HitFinds(f, start, i, k, out);
      } else {
        IterFinds(f, start, j, k, out);
        forall m: nat | j <= m < i
          ensures !Reachable(f, m, k)
        {
          TruncIs(j, m, k);
        }
      }
    }
  }

  /** The part of a level that follows a hit. */
  lemma {:induction false} HitFinds(f: nat -> Probe, start: nat, i: nat, k: nat, out: Outcome)
    requires 2 <= k && i % Pow10(k) == 0 && NeverFails(f) && out == Iter(f, start, i, k).0
    requires start <= i && Pow10(k) <= i && f(i - Pow10(k)) == Hit
    requires (i - Pow10(k)) % Pow10(k) == 0 && Reachable(f, i - Pow10(k), k)
    ensures out.Found? && i - Pow10(k) <= out.num < i && Reachable(f, out.num, k)
    ensures forall m: nat | m < i && Reachable(f, m, k) :: m <= out.num
    decreases k, 0
  {
    var p := Pow10(k);
    var j := i - p;
    if k == 2 {
      OnlyHundred(2);
      forall m: nat | m < i && Reachable(f, m, 2)
        ensures m <= j
      {
        if j < m {
          BetweenMultiples(j, m, 100);
        }
      }
    } else {
      PowDivides(i, k);
      IterFinds(f, j, i, k - 1, out);
      assert Reachable(f, j, k - 1);
      TruncIs(j, out.num, k);
      forall m: nat | m < i && Reachable(f, m, k)
        ensures m <= out.num
      {
        assert Reachable(f, m, k - 1);
      }
    }
  }

  /**
   The whole search: the larger of the start and the greatest reachable number below the
   end. It runs below zero exactly when it starts at zero and nothing is reachable.
   */
  lemma SearchFinds(f: nat -> Probe, start: nat)
    requires NeverFails(f)
    ensures Search(f, start).0.Wraps? <==> start == 0 && forall m: nat | m < END :: !Reachable(f, m, 9)
    ensures var out := Search(f, start).0;
            !out.Wraps? ==>
              && out.Found? && start <= out.num
              && (out.num == start || (out.num < END && Reachable(f, out.num, 9)))
              && forall m: nat | m < END && Reachable(f, m, 9) :: m <= out.num
  {
    EndIsRound();
    IterFinds(f, start, END, 9, Iter(f, start, END, 9).0);
  }

  lemma EndIsRound()
    ensures END % Pow10(9) == 0 && END == 10 * Pow10(9)
  {
    assert Pow10(3) == 1000 by {
      OnlyHundred(2);
    }
    assert Pow10(6) == 1_000_000 by {
      assert Pow10(5) == 10 * Pow10(4);
    }
    assert Pow10(9) == 1_000_000_000 by {
      assert Pow10(8) == 10 * Pow10(7);
    }
  }

  // ---- when a probe can fail

  /** Whatever the probes say, a number that is found is the start or hits. */
  lemma {:induction false} FoundHits(f: nat -> Probe, start: nat, i: nat, k: nat)
    requires 2 <= k
    ensures var out := Iter(f, start, i, k).0; out.Found? ==> out.num == start || f(out.num) == Hit
    ensures (exists m: nat :: f(m) == Fail) || !Iter(f, start, i, k).0.Failed?
    decreases k, i
  {
    if start <= i && Pow10(k) <= i {
      var j := i - Pow10(k);
      if f(j) == Hit && k > 2 {
        FoundHits(f, j, i, k - 1);
      } else if f(j) == Miss {
        FoundHits(f, start, j, k);
      }
    }
  }

  /** A search fails exactly when one of its probes does. */
  lemma {:induction false} FailsByAProbe(f: nat -> Probe, start: nat, i: nat, k: nat)
    requires 2 <= k
    ensures Iter(f, start, i, k).0.Failed? <==> exists m :: m in Iter(f, start, i, k).1 && f(m) == Fail
    decreases k, i
  {
    if start <= i && Pow10(k) <= i {
      var j := i - Pow10(k);
      if f(j) == Hit && k > 2 {
        FailsByAProbe(f, j, i, k - 1);
      } else if f(j) == Miss {
        FailsByAProbe(f, start, j, k);
      }
    }
  }

  /** The caller never sees a failure: it gets its start block, or a stored bundle above it. */
  lemma LastMergedIsStored(f: nat -> Probe, start: nat)
    ensures var out := LastMergedBlockNum(f, start);
            && !out.Failed?
            && (out.Found? ==> start <= out.num && (out.num == start || f(out.num) == Hit))
            && (Search(f, start).0.Failed? ==> out == Found(start) && exists m: nat :: f(m) == Fail)
  {
    FoundHits(f, start, END, 9);
  }

  /** With a failed probe the caller gets its start block, and so the answer says nothing about the store. */
  lemma FailedProbe(f: nat -> Probe, start: nat)
    requires exists m :: m in Search(f, start).1 && f(m) == Fail
    ensures LastMergedBlockNum(f, start) == Found(start)
  {
    FailsByAProbe(f, start, END, 9);
  }

  /**
   Otherwise the caller gets the larger of its start and the greatest reachable bundle, and the
   counter goes below zero exactly when it starts at zero and nothing is reachable.
   */
  lemma LastMergedFinds(f: nat -> Probe, start: nat)
    requires NeverFails(f)
    ensures LastMergedBlockNum(f, start).Wraps? <==> start == 0 && forall m: nat | m < END :: !Reachable(f, m, 9)
    ensures var out := LastMergedBlockNum(f, start);
            !out.Wraps? ==>
              && out.Found? && start <= out.num
              && (out.num == start || (out.num < END && Reachable(f, out.num, 9)))
              && forall m: nat | m < END && Reachable(f, m, 9) :: m <= out.num
  {
    SearchFinds(f, start);
  }

  // ---- against a linear scan

  /** The greatest of the first `n` multiples of 100 that hits. */
  function Scan(f: nat -> Probe, n: nat): (r: int)
    ensures r == -1 || (0 <= r < 100 * n && r % 100 == 0 && f(r) == Hit)
    ensures forall m: nat | m < 100 * n && m % 100 == 0 && f(m) == Hit :: m <= r
  {
    if n == 0 then -1
    else if f(100 * (n - 1)) == Hit then 100 * (n - 1)
    else Scan(f, n - 1)
  }

  function LinearSearch(f: nat -> Probe, start: nat): nat {
    var m := Scan(f, END / 100);
    if m < start then start else m
  }

  /**
   The search agrees with a linear scan if and only if the scan finds nothing above the start, other
   than by running below zero, or what it finds has only stored bundles among its truncations.
   */
  lemma SearchIsLinear(f: nat -> Probe, start: nat)
    requires NeverFails(f)
    ensures var r := LinearSearch(f, start);
            Search(f, start).0 == Found(r) <==>
            Reachable(f, r, 9) || (r == start && !(start == 0 && forall m: nat | m < END :: !Reachable(f, m, 9)))
  {
    var r := LinearSearch(f, start);
    var out := Search(f, start).0;
    SearchFinds(f, start);
    if out.Found? && out.num != start {
      ReachableHits(f, out.num);
    }
  }

  lemma ReachableHits(f: nat -> Probe, m: nat)
    requires m < END && Reachable(f, m, 9)
    ensures f(m) == Hit && m <= Scan(f, END / 100)
  {
    OnlyHundred(2);
    TruncIs(m, m, 2);
    assert f(Trunc(m, 2)) == Hit;
  }

  /** Bundles stored without a gap from the first one on. */
  ghost predicate DownClosed(f: nat -> Probe) {
    forall m: nat, n: nat | n <= m && m % 100 == 0 && n % 100 == 0 && f(m) == Hit :: f(n) == Hit
  }

  lemma TruncIsRound(m: nat, k: nat)
    requires 2 <= k
    ensures Trunc(m, k) % 100 == 0
    decreases k
  {
    OnlyHundred(2);
    RoundTo(Trunc(m, k), k);
  }

  lemma {:induction false} RoundTo(j: nat, k: nat)
    requires 2 <= k && j % Pow10(k) == 0
    ensures j % 100 == 0
  {
    OnlyHundred(2);
    if k > 2 {
      PowDivides(j, k);
      RoundTo(j, k - 1);
    }
  }

  /** Without gaps the search is a linear scan, unless it starts at zero with nothing stored at zero. */
  lemma GaplessSearch(f: nat -> Probe, start: nat)
    requires NeverFails(f) && DownClosed(f)
    ensures Search(f, start).0 == Found(LinearSearch(f, start)) <==> 0 < start || f(0) == Hit
    ensures start == 0 && f(0) == Miss ==> Search(f, start).0.Wraps?
  {
    var r := LinearSearch(f, start);
    SearchFinds(f, start);
    SearchIsLinear(f, start);
    forall m: nat | m % 100 == 0 && f(m) == Hit
      ensures Reachable(f, m, 9)
    {
      forall l | 2 <= l <= 9
        ensures f(Trunc(m, l)) == Hit
      {
        TruncIsRound(m, l);
      }
    }
    forall m: nat | Reachable(f, m, 9)
      ensures f(0) == Hit
    {
      TruncIsRound(m, 9);
      assert f(Trunc(m, 9)) == Hit && f(0) == Hit;
    }
  }

  /** So on a store without gaps the caller gets what a linear scan finds, under the same condition. */
  lemma GaplessLastMerged(f: nat -> Probe, start: nat)
    requires NeverFails(f) && DownClosed(f)
    ensures LastMergedBlockNum(f, start) == Found(LinearSearch(f, start)) <==> 0 < start || f(0) == Hit
  {
    GaplessSearch(f, start);
  }

  // ---- how many probes it makes

  /** At most ten probes a level. */
  lemma {:induction false} IterProbes(f: nat -> Probe, start: nat, base: nat, c: nat, k: nat)
    requires 2 <= k && c <= 10 && NeverFails(f)
    requires base == 0 || (start == base && f(base) == Hit && 1 <= c)
    ensures |Iter(f, start, base + c * Pow10(k), k).1| <= c + 10 * (k - 2)
    decreases k, c
  {
    var p := Pow10(k);
    var i := base + c * p;
    if start <= i && p <= i && c > 0 {
      var j := base + (c - 1) * p;
      assert j == i - p;
      if f(j) == Hit {
        if k > 2 {
          assert j + 10 * Pow10(k - 1) == i;
          IterProbes(f, j, j, 10, k - 1);
        }
      } else {
        IterProbes(f, start, base, c - 1, k);
      }
    }
  }

  lemma SearchProbes(f: nat -> Probe, start: nat)
    requires NeverFails(f)
    ensures |Search(f, start).1| <= 80
  {
    EndIsRound();
    IterProbes(f, start, 0, 10, 9);
  }
}
