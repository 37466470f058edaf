/**
 The merger's bundler on values: a rising chain of irreversible one-block files is cut into
 bundles of a fixed size, each handed to the store as a job.
 */
module Bundler {
  import opened Multiples

  datatype OneBlockFile = OneBlockFile(name: string, num: nat)

  type Files = seq<OneBlockFile>

  /** One call of MergeAndStore. */
  datatype Job = Job(base: nat, blocks: Files)

  datatype Config = Config(size: nat, stop: nat, first: nat)

  datatype Core = Core(base: nat, irr: Files, enforce: bool)

  datatype Outcome = Ignored | Held | Bundled | StopReached | NotOnBoundary | NothingPending

  /** MergeAndStore leaves out the blocks below its base. */
  function From(files: Files, lo: nat): Files {
    if files == [] then [] else
      var f := files[|files| - 1];
      From(files[..|files| - 1], lo) + if lo <= f.num then [f] else []
  }

  /** The blocks numbered in [lo, hi), in order. */
  function Within(files: Files, lo: nat, hi: nat): Files {
    if files == [] then [] else
      var f := files[|files| - 1];
      Within(files[..|files| - 1], lo, hi) + if lo <= f.num < hi then [f] else []
  }

  /** The loop that skips whole bundles: it goes on only while the block is strictly past the boundary. */
  function SkipTo(base: nat, n: nat, last: OneBlockFile, size: nat): (r: (nat, seq<Job>))
    requires 0 < size
    ensures base <= r.0 && n <= r.0 + size && (base <= n ==> r.0 <= n)
    decreases if base < n then n - base else 0
  {
    if n > base + size then
      var (b, jobs) := SkipTo(base + size, n, last, size);
      (b, [Job(base, [last])] + jobs)
    else (base, [])
  }

  /** One irreversible block: the new state and the jobs it starts, in order. */
  function Accept(c: Core, f: OneBlockFile, cfg: Config): (Core, seq<Job>, Outcome)
    requires 0 < cfg.size
  {
    if f.num < c.base then (c, [], Ignored)
    else if c.enforce && f.num != c.base && f.num != cfg.first then (c, [], NotOnBoundary)
    else
      var c1 := c.(enforce := false);
      if f.num < c.base + cfg.size then (c1.(irr := c.irr + [f]), [], Held)
      else if c.irr == [] then (c1, [], NothingPending)
      else
        var last := c.irr[|c.irr| - 1];
        var (base, jobs) := SkipTo(c.base + cfg.size, f.num, last, cfg.size);
        (Core(base, [last, f], false), [Job(c.base, c.irr)] + jobs,
         if cfg.stop != 0 && cfg.stop <= base then StopReached else Bundled)
  }

  predicate GoesOn(out: Outcome) {
    out.Ignored? || out.Held? || out.Bundled?
  }

  /** A run over a chain: the final state, all jobs, the number of files taken, the last outcome. */
  function Feed(c: Core, files: Files, cfg: Config): (r: (Core, seq<Job>, nat, Outcome))
    requires 0 < cfg.size
    ensures r.2 <= |files| && (GoesOn(r.3) ==> r.2 == |files|)
  {
    if files == [] then (c, [], 0, Ignored) else
      var (c0, jobs0, n, out0) := Feed(c, files[..|files| - 1], cfg);
      if !GoesOn(out0) then (c0, jobs0, n, out0)
      else
        var (c1, jobs1, out1) := Accept(c0, files[|files| - 1], cfg);
        (c1, jobs0 + jobs1, if out1.NotOnBoundary? || out1.NothingPending? then n else n + 1, out1)
  }

  // ---- what a bundle should hold, and what it does hold

  /** Block numbers go strictly up. */
  ghost predicate Rising(files: Files) {
    files != [] ==>
      Rising(files[..|files| - 1]) && AllBelow(files[..|files| - 1], files[|files| - 1].num)
  }

  ghost predicate AllBelow(files: Files, n: nat) {
    forall f | f in files :: f.num < n
  }

  /**
   A block on a boundary is held one bundle early when the bundle before it has no block of
   its own, or when its predecessor is the previous boundary and was itself held early.
   */
  ghost predicate Late(files: Files, i: nat, size: nat)
    requires i < |files| && 0 < size
  {
    && 0 < i && files[i].num % size == 0
    && (files[i - 1].num + size < files[i].num
        || (files[i - 1].num + size == files[i].num && Late(files, i - 1, size)))
  }

  ghost predicate LateAt(files: Files, m: nat, size: nat)
    requires 0 < size
  {
    exists i: nat :: i < |files| && files[i].num == m && Late(files, i, size)
  }

  /** What ends up in the bundle at `k`: its own blocks, then the next boundary block if that was late. */
  ghost function Stored(files: Files, k: nat, size: nat): Files
    requires 0 < size
  {
    Within(files, k, k + size) + if LateAt(files, k + size, size) then Within(files, k + size, k + size + 1) else []
  }

  ghost predicate JobsRight(jobs: seq<Job>, rec: Files, size: nat)
    requires 0 < size
  {
    forall j | j in jobs :: j.blocks != [] && From(j.blocks, j.base) == Stored(rec, j.base, size)
  }

  /** Jobs whose bases are base0, base0 + size, ... up to `end`. */
  ghost predicate Contiguous(jobs: seq<Job>, base0: nat, end: nat, size: nat) {
    if jobs == [] then end == base0
    else base0 + size <= end && jobs[|jobs| - 1].base == end - size
         && Contiguous(jobs[..|jobs| - 1], base0, end - size, size)
  }

  /** The bundler after it accepted the chain `rec`, having started at `base0`. */
  ghost predicate Tracks(c: Core, jobs: seq<Job>, rec: Files, base0: nat, size: nat) {
    && 0 < size && base0 % size == 0 && c.base % size == 0
    && Rising(rec) && (forall f | f in rec :: base0 <= f.num)
    && Contiguous(jobs, base0, c.base, size)
    && JobsRight(jobs, rec, size)
    && (if rec == [] then c.base == base0 && c.irr == [] && jobs == [] else
        && c.irr != [] && c.irr[|c.irr| - 1] == rec[|rec| - 1]
        && From(c.irr, c.base) == From(rec, c.base)
        && c.base <= rec[|rec| - 1].num <= c.base + size
        && (Late(rec, |rec| - 1, size) <==> rec[|rec| - 1].num == c.base + size))
  }

  // ---- facts about ranges

  lemma FromAppend(files: Files, f: OneBlockFile, lo: nat)
    ensures From(files + [f], lo) == From(files, lo) + if lo <= f.num then [f] else []
  {
    assert (files + [f])[..|files|] == files;
  }

  lemma WithinAppend(files: Files, f: OneBlockFile, lo: nat, hi: nat)
    ensures Within(files + [f], lo, hi) == Within(files, lo, hi) + if lo <= f.num < hi then [f] else []
  {
    assert (files + [f])[..|files|] == files;
  }

  lemma {:induction false} NoneWithin(files: Files, lo: nat, hi: nat)
    requires forall f | f in files :: !(lo <= f.num < hi)
    ensures Within(files, lo, hi) == []
  {
    if files != [] {
      NoneWithin(files[..|files| - 1], lo, hi);
    }
  }

  lemma {:induction false} NoneFrom(files: Files, lo: nat)
    requires forall f | f in files :: f.num < lo
    ensures From(files, lo) == []
  {
    if files != [] {
      NoneFrom(files[..|files| - 1], lo);
    }
  }

  /** In a rising chain that goes up to `hi` at most, what lies from `lo` up is [lo, hi) and then `hi`. */
  lemma {:induction false} FromIsWithin(files: Files, lo: nat, hi: nat)
    requires Rising(files) && lo <= hi && forall f | f in files :: f.num <= hi
    ensures From(files, lo) == Within(files, lo, hi) + Within(files, hi, hi + 1)
  {
    if files != [] {
      var k := |files| - 1;
      var low := files[..k];
      var f := files[k];
      FromIsWithin(low, lo, hi);
      NoneWithin(low, hi, hi + 1);
    }
  }

  lemma LateAppend(files: Files, f: OneBlockFile, i: nat, size: nat)
    requires 0 < size && i < |files|
    ensures Late(files + [f], i, size) == Late(files, i, size)
  {
    if i > 0 {
      LateAppend(files, f, i - 1, size);
    }
  }

  lemma LateAtAppend(files: Files, f: OneBlockFile, m: nat, size: nat)
    requires 0 < size && f.num != m
    ensures LateAt(files + [f], m, size) == LateAt(files, m, size)
  {
    forall i: nat | i < |files|
      ensures Late(files + [f], i, size) == Late(files, i, size)
    {
      LateAppend(files, f, i, size);
    }
    if LateAt(files, m, size) {
      var i: nat :| i < |files| && files[i].num == m && Late(files, i, size);
      assert (files + [f])[i].num == m && Late(files + [f], i, size);
    }
    if LateAt(files + [f], m, size) {
      var i: nat :| i < |files + [f]| && (files + [f])[i].num == m && Late(files + [f], i, size);
      assert i < |files| && files[i].num == m && Late(files, i, size);
    }
  }

  /** A block beyond the upper boundary leaves what a bundle holds as it was. */
  lemma StoredAppend(files: Files, f: OneBlockFile, k: nat, size: nat)
    requires 0 < size && k + size < f.num
    ensures Stored(files + [f], k, size) == Stored(files, k, size)
  {
    WithinAppend(files, f, k, k + size);
    WithinAppend(files, f, k + size, k + size + 1);
    LateAtAppend(files, f, k + size, size);
  }
}
