/** Every run of the bundler partitions its chain, except for the boundary blocks held too early. */
module Partition {
  import opened Multiples
  import opened Bundler

  // ---- chains of jobs

  lemma {:induction false} ContiguousBases(jobs: seq<Job>, base0: nat, end: nat, size: nat)
    requires 0 < size && Contiguous(jobs, base0, end, size) && base0 % size == 0
    ensures base0 <= end && end % size == 0
    ensures forall j | j in jobs :: base0 <= j.base && j.base + size <= end && j.base % size == 0
  {
    if jobs != [] {
      ContiguousBases(jobs[..|jobs| - 1], base0, end - size, size);
      NextMultiple(end - size, size);
    }
  }

  lemma {:induction false} ContiguousConcat(a: seq<Job>, b: seq<Job>, base0: nat, mid: nat, end: nat, size: nat)
    requires Contiguous(a, base0, mid, size) && Contiguous(b, mid, end, size)
    ensures Contiguous(a + b, base0, end, size)
  {
    if b != [] {
      ContiguousConcat(a, b[..|b| - 1], base0, mid, end - size, size);
      assert (a + b)[..|a + b| - 1] == a + b[..|b| - 1];
      ContiguousEnd(b, mid, end, size);
      ContiguousEnd(a, base0, mid, size);
    } else {
      assert a + b == a;
    }
  }

  lemma {:induction false} ContiguousEnd(jobs: seq<Job>, base0: nat, end: nat, size: nat)
    requires Contiguous(jobs, base0, end, size)
    ensures if jobs == [] then base0 == end else base0 + size <= end
  {
    if jobs != [] {
      ContiguousEnd(jobs[..|jobs| - 1], base0, end - size, size);
    }
  }

  /** Every boundary between the first base and the end has its job. */
  lemma {:induction false} JobAt(jobs: seq<Job>, base0: nat, end: nat, size: nat, k: nat) returns (j: Job)
    requires 0 < size && Contiguous(jobs, base0, end, size) && base0 % size == 0
    requires base0 <= k < end && k % size == 0
    ensures j in jobs && j.base == k
  {
    ContiguousBases(jobs, base0, end, size);
    assert jobs != [];
    j := jobs[|jobs| - 1];
    if k < end - size {
      j := JobAt(jobs[..|jobs| - 1], base0, end - size, size, k);
    } else {
      BetweenMultiples(end - size, k, size);
    }
  }

  // ---- one step

  lemma AllUpToLast(rec: Files)
    requires Rising(rec) && rec != []
    ensures forall g | g in rec :: g.num <= rec[|rec| - 1].num
  {
    assert rec == rec[..|rec| - 1] + [rec[|rec| - 1]];
  }

  lemma RisingAppend(rec: Files, f: OneBlockFile)
    requires Rising(rec) && (rec == [] || rec[|rec| - 1].num < f.num)
    ensures Rising(rec + [f]) && AllBelow(rec, f.num)
  {
    assert (rec + [f])[..|rec|] == rec;
    if rec != [] {
      AllUpToLast(rec);
    }
  }

  /** Blocks past the jobs already issued do not change what those should hold. */
  lemma JobsStand(jobs: seq<Job>, rec: Files, f: OneBlockFile, base0: nat, end: nat, size: nat)
    requires 0 < size && Contiguous(jobs, base0, end, size) && base0 % size == 0 && end < f.num
    requires JobsRight(jobs, rec, size)
    ensures JobsRight(jobs, rec + [f], size)
  {
    ContiguousBases(jobs, base0, end, size);
    forall j | j in jobs
      ensures Stored(rec + [f], j.base, size) == Stored(rec, j.base, size)
    {
      StoredAppend(rec, f, j.base, size);
    }
  }

  lemma HeldKeeps(c: Core, jobs: seq<Job>, rec: Files, f: OneBlockFile, base0: nat, size: nat)
    requires Tracks(c, jobs, rec, base0, size) && (rec == [] || rec[|rec| - 1].num < f.num)
    requires c.base <= f.num < c.base + size
    ensures Tracks(Core(c.base, c.irr + [f], false), jobs, rec + [f], base0, size)
  {
    RisingAppend(rec, f);
    ContiguousBases(jobs, base0, c.base, size);
    FromAppend(c.irr, f, c.base);
    FromAppend(rec, f, c.base);
    if rec != [] {
      JobsStand(jobs, rec, f, base0, c.base, size);
    }
    if Late(rec + [f], |rec|, size) {
      BetweenMultiples(c.base, f.num, size);
    }
  }

  /** The bundle that closes holds what it should once the chain has gone past it. */
  lemma ClosingJob(rec: Files, f: OneBlockFile, k: nat, size: nat)
    requires 0 < size && Rising(rec) && rec != [] && rec[|rec| - 1].num < f.num
    requires rec[|rec| - 1].num <= k + size <= f.num
    requires Late(rec, |rec| - 1, size) <==> rec[|rec| - 1].num == k + size
    requires f.num == k + size ==> !Late(rec + [f], |rec|, size)
    ensures From(rec, k) == Stored(rec + [f], k, size)
  {
    var hi := k + size;
    LateAtTheEnd(rec, f, hi, size);
    if rec[|rec| - 1].num < hi {
      ClosesShort(rec, f, k, hi);
    } else {
      ClosesFull(rec, f, k, hi);
    }
  }

  /** No block of the chain is on the upper boundary yet. */
  lemma ClosesShort(rec: Files, f: OneBlockFile, k: nat, hi: nat)
    requires Rising(rec) && rec != [] && rec[|rec| - 1].num < hi <= f.num && k <= hi
    ensures From(rec, k) == Within(rec + [f], k, hi) + []
  {
    AllUpToLast(rec);
    FromIsWithin(rec, k, hi);
    NoneWithin(rec, hi, hi + 1);
    WithinAppend(rec, f, k, hi);
  }

  /** The last block of the chain is the one on the upper boundary. */
  lemma ClosesFull(rec: Files, f: OneBlockFile, k: nat, hi: nat)
    requires Rising(rec) && rec != [] && rec[|rec| - 1].num == hi < f.num && k <= hi
    ensures From(rec, k) == Within(rec + [f], k, hi) + Within(rec + [f], hi, hi + 1)
  {
    AllUpToLast(rec);
    FromIsWithin(rec, k, hi);
    WithinAppend(rec, f, k, hi);
    WithinAppend(rec, f, hi, hi + 1);
  }

  lemma LateAtTheEnd(rec: Files, f: OneBlockFile, hi: nat, size: nat)
    requires 0 < size && Rising(rec) && rec != [] && rec[|rec| - 1].num < f.num
    requires rec[|rec| - 1].num <= hi <= f.num
    requires Late(rec, |rec| - 1, size) <==> rec[|rec| - 1].num == hi
    requires f.num == hi ==> !Late(rec + [f], |rec|, size)
    ensures LateAt(rec + [f], hi, size) <==> rec[|rec| - 1].num == hi
  {
    var k := |rec| - 1;
    if rec[k].num == hi {
      LateAppend(rec, f, k, size);
      assert (rec + [f])[k] == rec[k];
    } else {
      AllUpToLast(rec);
      forall i: nat | i < |rec|
        ensures (rec + [f])[i].num < hi
      {
        assert rec[i] in rec;
      }
    }
  }

  /** A bundle with no block between the last one and the next: it gets the last block only if that is its own. */
  lemma SkippedJob(rec: Files, f: OneBlockFile, k: nat, size: nat)
    requires 0 < size && Rising(rec) && rec != [] && rec[|rec| - 1].num <= k && k + size < f.num
    ensures From([rec[|rec| - 1]], k) == Stored(rec + [f], k, size)
  {
    LastOwn(rec, k, k + size);
    WithinAppend(rec, f, k, k + size);
    NotAt(rec, f, k + size, size);
    assert Stored(rec + [f], k, size) == Within(rec + [f], k, k + size) + [];
  }

  lemma LastOwn(rec: Files, lo: nat, hi: nat)
    requires Rising(rec) && rec != [] && rec[|rec| - 1].num <= lo < hi
    ensures From([rec[|rec| - 1]], lo) == Within(rec, lo, hi)
  {
    var last := rec[|rec| - 1];
    NoneWithin(rec[..|rec| - 1], lo, hi);
    FromAppend([], last, lo);
    assert [] + [last] == [last];
  }

  /** No block is numbered `n`, so none is late there. */
  lemma NotAt(rec: Files, f: OneBlockFile, n: nat, size: nat)
    requires 0 < size && Rising(rec) && rec != [] && rec[|rec| - 1].num < n < f.num
    ensures !LateAt(rec + [f], n, size)
  {
    AllUpToLast(rec);
    forall i: nat | i < |rec|
      ensures (rec + [f])[i].num != n
    {
      assert rec[i] in rec;
    }
  }

  lemma OneJob(j: Job, js: seq<Job>, k: nat, b: nat, size: nat)
    requires k == j.base + size && Contiguous(js, k, b, size)
    ensures Contiguous([j] + js, j.base, b, size)
  {
    assert Contiguous([j][..0], j.base, j.base, size);
    assert Contiguous([j], j.base, k, size);
    ContiguousConcat([j], js, j.base, k, b, size);
  }

  lemma OneRight(j: Job, js: seq<Job>, rec: Files, size: nat)
    requires 0 < size && j.blocks != [] && From(j.blocks, j.base) == Stored(rec, j.base, size)
    requires JobsRight(js, rec, size)
    ensures JobsRight([j] + js, rec, size)
  {
  }

  lemma {:induction false} SkippedJobs(k: nat, rec: Files, f: OneBlockFile, size: nat, b: nat, js: seq<Job>)
    requires 0 < size && k % size == 0 && Rising(rec) && rec != [] && rec[|rec| - 1].num <= k <= f.num
    requires (b, js) == SkipTo(k, f.num, rec[|rec| - 1], size)
    ensures Contiguous(js, k, b, size) && JobsRight(js, rec + [f], size)
    ensures k <= b <= f.num <= b + size && (f.num == b ==> b == k)
    decreases f.num - k
  {
    if f.num > k + size {
      var j := Job(k, [rec[|rec| - 1]]);
      var rest := SkipTo(k + size, f.num, rec[|rec| - 1], size).1;
      NextMultiple(k, size);
      SkippedJobs(k + size, rec, f, size, b, rest);
      OneJob(j, rest, k + size, b, size);
      SkippedJob(rec, f, k, size);
      OneRight(j, rest, rec + [f], size);
      assert js == [j] + rest;
    }
  }

  lemma BundledKeeps(c: Core, jobs: seq<Job>, rec: Files, f: OneBlockFile, base0: nat, size: nat, b: nat, js: seq<Job>)
    requires Tracks(c, jobs, rec, base0, size) && rec != [] && rec[|rec| - 1].num < f.num
    requires c.base + size <= f.num && (b, js) == SkipTo(c.base + size, f.num, rec[|rec| - 1], size)
    ensures Tracks(Core(b, [rec[|rec| - 1], f], false), jobs + ([Job(c.base, c.irr)] + js), rec + [f], base0, size)
  {
    NewJobs(c, rec, f, size, b, js);
    JobsStand(jobs, rec, f, base0, c.base, size);
    ContiguousConcat(jobs, [Job(c.base, c.irr)] + js, base0, c.base, b, size);
    RisingAppend(rec, f);
    KeptLast(rec, f, b);
    ContiguousBases(jobs, base0, c.base, size);
  }

  /** The jobs started by one block: the closing bundle and the skipped ones. */
  lemma NewJobs(c: Core, rec: Files, f: OneBlockFile, size: nat, b: nat, js: seq<Job>)
    requires 0 < size && c.base % size == 0 && Rising(rec) && rec != [] && rec[|rec| - 1].num < f.num
    requires c.irr != [] && From(c.irr, c.base) == From(rec, c.base)
    requires c.base <= rec[|rec| - 1].num <= c.base + size <= f.num
    requires Late(rec, |rec| - 1, size) <==> rec[|rec| - 1].num == c.base + size
    requires (b, js) == SkipTo(c.base + size, f.num, rec[|rec| - 1], size)
    ensures Contiguous([Job(c.base, c.irr)] + js, c.base, b, size)
    ensures b % size == 0 && c.base + size <= b <= f.num <= b + size
    ensures JobsRight([Job(c.base, c.irr)] + js, rec + [f], size)
    ensures Late(rec + [f], |rec|, size) <==> f.num == b + size
  {
    var k := c.base + size;
    NextMultiple(c.base, size);
    SkippedJobs(k, rec, f, size, b, js);
    ContiguousBases(js, k, b, size);
    LateExactly(c, rec, f, b, size);
    ClosingJob(rec, f, c.base, size);
    OneJob(Job(c.base, c.irr), js, k, b, size);
    OneRight(Job(c.base, c.irr), js, rec + [f], size);
  }

  /** The arriving block is held early exactly when it is late. */
  lemma LateExactly(c: Core, rec: Files, f: OneBlockFile, b: nat, size: nat)
    requires 0 < size && c.base % size == 0 && b % size == 0 && rec != []
    requires c.base <= rec[|rec| - 1].num <= c.base + size
    requires Late(rec, |rec| - 1, size) <==> rec[|rec| - 1].num == c.base + size
    requires c.base + size <= b <= f.num <= b + size && (f.num == b ==> b == c.base + size)
    ensures Late(rec + [f], |rec|, size) <==> f.num == b + size
  {
    LateAppend(rec, f, |rec| - 1, size);
    NextMultiple(b, size);
    if Late(rec + [f], |rec|, size) && f.num != b + size {
      BetweenMultiples(b, f.num, size);
    }
  }

  /** What is kept for the next bundle: the arriving block, and the last one if it belongs there. */
  lemma KeptLast(rec: Files, f: OneBlockFile, b: nat)
    requires Rising(rec) && rec != [] && rec[|rec| - 1].num <= b <= f.num
    ensures From([rec[|rec| - 1], f], b) == From(rec + [f], b)
  {
    var last := rec[|rec| - 1];
    var low := rec[..|rec| - 1];
    assert rec == low + [last];
    NoneFrom(low, b);
    FromAppend(low, last, b);
    FromAppend(rec, f, b);
    FromAppend([], last, b);
    FromAppend([last], f, b);
    assert [] + [last] == [last] && [last] + [f] == [last, f];
  }

  // ---- every run

  /** The chain of accepted blocks after one more. */
  ghost function Recorded(rec: Files, f: OneBlockFile, out: Outcome): Files {
    if out.Held? || out.Bundled? || out.StopReached? then rec + [f] else rec
  }

  /** Every block that is taken keeps the partition. */
  lemma AcceptKeeps(c: Core, jobs: seq<Job>, rec: Files, f: OneBlockFile, base0: nat, cfg: Config,
                    c': Core, js: seq<Job>, out: Outcome)
    requires Tracks(c, jobs, rec, base0, cfg.size) && (rec == [] || rec[|rec| - 1].num < f.num)
    requires (c', js, out) == Accept(c, f, cfg)
    ensures Tracks(c', jobs + js, Recorded(rec, f, out), base0, cfg.size)
  {
    AcceptIs(c, f, cfg, c', js, out);
    if out.Held? {
      HeldKeeps(c, jobs, rec, f, base0, cfg.size);
    } else if out.Bundled? || out.StopReached? {
      BundledKeeps(c, jobs, rec, f, base0, cfg.size, c'.base, js[1..]);
    } else {
      EnforceIsFree(c, jobs, rec, base0, cfg.size, c'.enforce);
    }
    assert js == [] ==> jobs + js == jobs;
  }

  /** What one block changes, outcome by outcome. */
  lemma AcceptIs(c: Core, f: OneBlockFile, cfg: Config, c': Core, js: seq<Job>, out: Outcome)
    requires 0 < cfg.size && (c', js, out) == Accept(c, f, cfg)
    ensures out.Held? ==>
              c.base <= f.num < c.base + cfg.size && c' == Core(c.base, c.irr + [f], false) && js == []
    ensures out.Bundled? || out.StopReached? ==>
              && c.irr != [] && c.base + cfg.size <= f.num
              && js != [] && js == [Job(c.base, c.irr)] + js[1..]
              && c' == Core(c'.base, [c.irr[|c.irr| - 1], f], false)
              && (c'.base, js[1..]) == SkipTo(c.base + cfg.size, f.num, c.irr[|c.irr| - 1], cfg.size)
    ensures !out.Held? && !out.Bundled? && !out.StopReached? ==> c' == c.(enforce := c'.enforce) && js == []
  {
  }

  lemma EnforceIsFree(c: Core, jobs: seq<Job>, rec: Files, base0: nat, size: nat, enforce: bool)
    requires Tracks(c, jobs, rec, base0, size)
    ensures Tracks(c.(enforce := enforce), jobs, rec, base0, size)
  {
  }

  /**
   The bundler drops only what lies below its first base, and it finds nothing pending when
   a bundle closes exactly if the first block it accepts lies beyond its first bundle.
   */
  lemma AcceptOutcomes(c: Core, jobs: seq<Job>, rec: Files, f: OneBlockFile, base0: nat, cfg: Config)
    requires Tracks(c, jobs, rec, base0, cfg.size) && (rec == [] || rec[|rec| - 1].num < f.num)
    ensures var out := Accept(c, f, cfg).2;
            && (out.Ignored? <==> rec == [] && f.num < base0)
            && (out.NothingPending? <==>
                  rec == [] && base0 + cfg.size <= f.num && !(c.enforce && f.num != cfg.first))
            && (out.NotOnBoundary? <==> base0 <= f.num && c.enforce && f.num != c.base && f.num != cfg.first)
  {
    ContiguousBases(jobs, base0, c.base, cfg.size);
  }

  lemma {:induction false} FromIsPart(files: Files, lo: nat)
    ensures forall g | g in From(files, lo) :: g in files && lo <= g.num
  {
    if files != [] {
      FromIsPart(files[..|files| - 1], lo);
    }
  }

  lemma StartTracks(base0: nat, enforce: bool, size: nat)
    requires 0 < size && base0 % size == 0
    ensures Tracks(Core(base0, [], enforce), [], [], base0, size)
  {
  }

  /**
   Every run over a rising chain: the jobs' bases are contiguous multiples of the bundle
   size, and each stores its own blocks in order and once each, plus at most the block on
   its upper boundary when that one came late.
   */
  lemma {:induction false} EveryRunPartitions(files: Files, base0: nat, enforce: bool, cfg: Config,
                                              c: Core, jobs: seq<Job>, n: nat, out: Outcome)
    requires 0 < cfg.size && base0 % cfg.size == 0 && Rising(files)
    requires (c, jobs, n, out) == Feed(Core(base0, [], enforce), files, cfg)
    ensures Tracks(c, jobs, From(files[..n], base0), base0, cfg.size)
  {
    if files == [] {
      StartTracks(base0, enforce, cfg.size);
      assert files[..0] == [];
    } else {
      var low := files[..|files| - 1];
      var f := files[|files| - 1];
      var (c1, jobs1, n1, out1) := Feed(Core(base0, [], enforce), low, cfg);
      EveryRunPartitions(low, base0, enforce, cfg, c1, jobs1, n1, out1);
      SlicesOf(files, n1);
      if GoesOn(out1) {
        var (c2, js, out2) := Accept(c1, f, cfg);
        NextBlockTracks(low, f, base0, cfg, c1, jobs1, c2, js, out2);
      }
    }
  }

  lemma SlicesOf(files: Files, n: nat)
    requires files != [] && n < |files|
    ensures files[..|files| - 1][..n] == files[..n]
    ensures n == |files| - 1 ==> files[..|files| - 1][..n] == files[..|files| - 1]
    ensures files[..|files|] == files && files == files[..|files| - 1] + [files[|files| - 1]]
  {
  }

  lemma NextBlockTracks(low: Files, f: OneBlockFile, base0: nat, cfg: Config, c: Core, jobs: seq<Job>,
                        c': Core, js: seq<Job>, out: Outcome)
    requires 0 < cfg.size && AllBelow(low, f.num) && Tracks(c, jobs, From(low, base0), base0, cfg.size)
    requires (c', js, out) == Accept(c, f, cfg)
    ensures Tracks(c', jobs + js,
                   From(if out.NotOnBoundary? || out.NothingPending? then low else low + [f], base0), base0, cfg.size)
  {
    var rec := From(low, base0);
    LastIsBelow(low, f, base0);
    AcceptKeeps(c, jobs, rec, f, base0, cfg, c', js, out);
    if !out.NotOnBoundary? && !out.NothingPending? {
      TakenIsRecorded(c, jobs, rec, f, base0, cfg, out);
      FromAppend(low, f, base0);
    }
  }

  lemma LastIsBelow(low: Files, f: OneBlockFile, base0: nat)
    requires AllBelow(low, f.num)
    ensures var rec := From(low, base0); rec == [] || rec[|rec| - 1].num < f.num
  {
    FromIsPart(low, base0);
    var rec := From(low, base0);
    if rec != [] {
      assert rec[|rec| - 1] in rec;
    }
  }

  lemma TakenIsRecorded(c: Core, jobs: seq<Job>, rec: Files, f: OneBlockFile, base0: nat, cfg: Config, out: Outcome)
    requires Tracks(c, jobs, rec, base0, cfg.size) && (rec == [] || rec[|rec| - 1].num < f.num)
    requires out == Accept(c, f, cfg).2 && !out.NotOnBoundary? && !out.NothingPending?
    ensures Recorded(rec, f, out) == rec + if base0 <= f.num then [f] else []
  {
    AcceptOutcomes(c, jobs, rec, f, base0, cfg);
    assert rec + [] == rec;
    if rec != [] {
      assert rec[|rec| - 1] in rec;
    }
  }

  // ---- when the partition is exact

  /** A block on a boundary that comes right after a bundle without blocks. */
  ghost predicate SkipsOntoBoundary(rec: Files, i: nat, size: nat)
    requires 0 < size
  {
    0 < i < |rec| && rec[i].num % size == 0 && rec[i - 1].num + size < rec[i].num
  }

  lemma {:induction false} LateNeedsSkip(rec: Files, i: nat, size: nat) returns (j: nat)
    requires 0 < size && i < |rec| && Late(rec, i, size)
    ensures j <= i && SkipsOntoBoundary(rec, j, size)
  {
    j := i;
    if rec[i - 1].num + size == rec[i].num {
      j := LateNeedsSkip(rec, i - 1, size);
    }
  }

  lemma {:induction false} InWithin(files: Files, g: OneBlockFile, lo: nat, hi: nat)
    ensures g in Within(files, lo, hi) <==> g in files && lo <= g.num < hi
  {
    if files != [] {
      assert files == files[..|files| - 1] + [files[|files| - 1]];
      InWithin(files[..|files| - 1], g, lo, hi);
    }
  }

  lemma {:induction false} RisingAt(rec: Files, i: nat, j: nat)
    requires Rising(rec) && i < j < |rec|
    ensures rec[i].num < rec[j].num
  {
    if j < |rec| - 1 {
      RisingAt(rec[..|rec| - 1], i, j);
    } else {
      assert rec[i] in rec[..|rec| - 1];
    }
  }

  lemma {:induction false} RisingPrefix(files: Files, n: nat)
    requires Rising(files) && n <= |files|
    ensures Rising(files[..n])
  {
    if n < |files| {
      RisingPrefix(files[..|files| - 1], n);
      assert files[..|files| - 1][..n] == files[..n];
    } else {
      assert files[..n] == files;
    }
  }

  ghost predicate ExactPartition(jobs: seq<Job>, rec: Files, size: nat) {
    forall j | j in jobs :: From(j.blocks, j.base) == Within(rec, j.base, j.base + size)
  }

  /**
   Every bundle issued holds exactly the blocks numbered in it if and only if no block
   already followed by another one landed on a boundary right after an empty bundle.
   */
  lemma PartitionIsExact(c: Core, jobs: seq<Job>, rec: Files, base0: nat, size: nat)
    requires Tracks(c, jobs, rec, base0, size)
    ensures ExactPartition(jobs, rec, size) <==> (forall i: nat | i < |rec| - 1 :: !SkipsOntoBoundary(rec, i, size))
  {
    if forall i: nat | i < |rec| - 1 :: !SkipsOntoBoundary(rec, i, size) {
      NoSkipIsExact(c, jobs, rec, base0, size);
    }
    forall i: nat | i < |rec| - 1 && SkipsOntoBoundary(rec, i, size)
      ensures !ExactPartition(jobs, rec, size)
    {
      LateSpills(c, jobs, rec, base0, size, i);
    }
  }

  lemma NoSkipIsExact(c: Core, jobs: seq<Job>, rec: Files, base0: nat, size: nat)
    requires Tracks(c, jobs, rec, base0, size)
    requires forall i: nat | i < |rec| - 1 :: !SkipsOntoBoundary(rec, i, size)
    ensures ExactPartition(jobs, rec, size)
  {
    ContiguousBases(jobs, base0, c.base, size);
    forall j | j in jobs
      ensures From(j.blocks, j.base) == Within(rec, j.base, j.base + size)
    {
      NoLateAt(c, jobs, rec, base0, size, j.base);
      NotLateIsOwn(rec, j.base, size, j);
    }
  }

  lemma NotLateIsOwn(rec: Files, k: nat, size: nat, j: Job)
    requires 0 < size && !LateAt(rec, k + size, size) && j.base == k && From(j.blocks, j.base) == Stored(rec, k, size)
    ensures From(j.blocks, j.base) == Within(rec, k, k + size)
  {
    assert Within(rec, k, k + size) + [] == Within(rec, k, k + size);
  }

  lemma NoLateAt(c: Core, jobs: seq<Job>, rec: Files, base0: nat, size: nat, k: nat)
    requires Tracks(c, jobs, rec, base0, size) && k + size <= c.base
    requires forall i: nat | i < |rec| - 1 :: !SkipsOntoBoundary(rec, i, size)
    ensures !LateAt(rec, k + size, size)
  {
    forall i: nat | i < |rec| && Late(rec, i, size)
      ensures rec[i].num != k + size
    {
      if i < |rec| - 1 {
        var j := LateNeedsSkip(rec, i, size);
      }
    }
  }

  lemma LateIsExtra(rec: Files, i: nat, size: nat)
    requires 0 < size && SkipsOntoBoundary(rec, i, size)
    ensures size <= rec[i].num
    ensures var k := rec[i].num - size; Stored(rec, k, size) != Within(rec, k, k + size)
  {
    var g := rec[i];
    assert LateAt(rec, g.num, size);
    InWithin(rec, g, g.num, g.num + 1);
  }

  /** The bundle below a boundary reached over an empty bundle holds one block too many. */
  lemma LateSpills(c: Core, jobs: seq<Job>, rec: Files, base0: nat, size: nat, i: nat)
    requires Tracks(c, jobs, rec, base0, size) && i < |rec| - 1 && SkipsOntoBoundary(rec, i, size)
    ensures !ExactPartition(jobs, rec, size)
  {
    RisingAt(rec, i, |rec| - 1);
    PreviousMultiple(rec[i].num, size);
    assert rec[i - 1] in rec;
    var j := JobAt(jobs, base0, c.base, size, rec[i].num - size);
    OneWrong(jobs, rec, size, j, i);
  }

  lemma OneWrong(jobs: seq<Job>, rec: Files, size: nat, j: Job, i: nat)
    requires 0 < size && JobsRight(jobs, rec, size) && SkipsOntoBoundary(rec, i, size)
    requires j in jobs && j.base + size == rec[i].num
    ensures !ExactPartition(jobs, rec, size)
  {
    LateIsExtra(rec, i, size);
  }

  /** The bundle a block belongs to is not below the first one when the block is not. */
  lemma OwnBase(base0: nat, n: nat, size: nat)
    requires 0 < size && base0 % size == 0 && base0 <= n
    ensures base0 <= ToBase(n, size)
  {
    var k := ToBase(n, size);
    if k < base0 {
      BetweenMultiples(k, base0, size);
    }
  }

  lemma OwnBundleHolds(rec: Files, g: OneBlockFile, size: nat)
    requires 0 < size && g in rec
    ensures g in Stored(rec, ToBase(g.num, size), size)
  {
    var k := ToBase(g.num, size);
    InWithin(rec, g, k, k + size);
  }

  /** No accepted block below the current base is lost: its own bundle stores it. */
  lemma EveryBlockStored(c: Core, jobs: seq<Job>, rec: Files, base0: nat, size: nat, g: OneBlockFile) returns (j: Job)
    requires Tracks(c, jobs, rec, base0, size) && g in rec && g.num < c.base
    ensures j in jobs && j.base == ToBase(g.num, size) && g in From(j.blocks, j.base)
  {
    OwnBase(base0, g.num, size);
    j := JobAt(jobs, base0, c.base, size, ToBase(g.num, size));
    OwnBundleHolds(rec, g, size);
  }

  /** The stop block is reached exactly when the base gets there; all blocks below it are then in a job. */
  lemma StopIsComplete(c: Core, jobs: seq<Job>, rec: Files, f: OneBlockFile, base0: nat, cfg: Config,
                       c': Core, js: seq<Job>, out: Outcome)
    requires Tracks(c, jobs, rec, base0, cfg.size) && (rec == [] || rec[|rec| - 1].num < f.num)
    requires (c', js, out) == Accept(c, f, cfg) && cfg.stop != 0 && c.base < cfg.stop
    ensures out.StopReached? <==> cfg.stop <= c'.base
    ensures out.StopReached? ==> forall g | g in rec + [f] && g.num < cfg.stop :: exists j ::
              j in jobs + js && j.base == ToBase(g.num, cfg.size) && g in From(j.blocks, j.base)
  {
    AcceptKeeps(c, jobs, rec, f, base0, cfg, c', js, out);
    if out.StopReached? {
      forall g | g in rec + [f] && g.num < cfg.stop
        ensures exists j :: j in jobs + js && j.base == ToBase(g.num, cfg.size) && g in From(j.blocks, j.base)
      {
        var j := EveryBlockStored(c', jobs + js, rec + [f], base0, cfg.size, g);
      }
    }
  }
}
