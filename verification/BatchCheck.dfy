/** The check of a range of merged files for missing bundles and broken chains. */
module BatchCheck {
  import opened Options
  import opened Multiples
  import opened Decimal
  import opened WalkPrefix

  datatype Block = Block(id: string, num: nat, parentId: string)

  datatype Ref = Ref(hash: string, num: nat)

  const UNSET := Ref("", 0)

  /** A file that cannot be opened, or its blocks and whether reading failed after them. */
  datatype Content = Unreadable | Blocks(blocks: seq<Block>, truncated: bool)

  /** A merged file with the number in its name. */
  datatype Segment = Segment(number: nat, content: Content)

  datatype Range = Range(start: nat, stop: nat, size: nat)

  /** What checking one file found: the last linked block, and how many blocks were read. */
  datatype Verdict = Verdict(broken: bool, failed: bool, last: Ref, read: nat)

  /** The state of a check: the next base due, the last block seen, and the reports so far. */
  datatype Audit = Audit(expected: nat, last: Ref, missing: seq<nat>, broken: seq<nat>,
                         visited: seq<nat>, blocks: seq<Block>)

  datatype Step = Skipped | Visited | RangeDone | BelowExpected | ReadFailed

  // ---- one file

  /** The block becomes the last one if it links to it; the very last one may be repeated. */
  function Link(last: Ref, b: Block): Option<Ref> {
    if b.id == "" then None
    else
      var l := if last == UNSET then Ref(b.parentId, if b.num == 0 then 0 else b.num - 1) else last;
      if b.parentId == l.hash then Some(Ref(b.id, b.num))
      else if b.id == l.hash && b.num == l.num then Some(l)
      else None
  }

  /** The last block after the longest linked part, and the length of that part. */
  function Follow(last: Ref, blocks: seq<Block>): (r: (Ref, nat))
    ensures r.1 <= |blocks|
    decreases |blocks|
  {
    if blocks == [] then (last, 0)
    else match Link(last, blocks[0])
      case None => (last, 0)
      case Some(l) =>
        var (l1, n) := Follow(l, blocks[1..]);
        (l1, n + 1)
  }

  function CheckFile(last: Ref, c: Content): (v: Verdict)
    ensures c.Blocks? ==> v.read <= |c.blocks|
  {
    match c
    case Unreadable => Verdict(true, true, last, 0)
    case Blocks(blocks, truncated) =>
      var (l, n) := Follow(last, blocks);
      if n < |blocks| then Verdict(true, false, l, n + 1) else Verdict(false, truncated, l, n)
  }

  /** The loop over the blocks of a file. */
  method ReadFile(last: Ref, c: Content) returns (v: Verdict)
    ensures v == CheckFile(last, c)
  {
    if c.Unreadable? {
      return Verdict(true, true, last, 0);
    }
    var l := last;
    for i := 0 to |c.blocks|
      invariant Follow(last, c.blocks) == (Follow(l, c.blocks[i..]).0, i + Follow(l, c.blocks[i..]).1)
    {
      var b := c.blocks[i];
      assert c.blocks[i..][0] == b && c.blocks[i..][1..] == c.blocks[i + 1..];
      if b.id == "" {
        return Verdict(true, false, l, i + 1);
      }
      var l0 := if l == UNSET then Ref(b.parentId, if b.num == 0 then 0 else b.num - 1) else l;
      if b.parentId != l0.hash {
        if b.id == l0.hash && b.num == l0.num {
          l := l0;
          continue;
        }
        return Verdict(true, false, l, i + 1);
      }
      l := Ref(b.id, b.num);
    }
    return Verdict(false, c.truncated, l, |c.blocks|);
  }

  // ---- one file after the other

  /** The number is parsed as a 32-bit one, and a larger one becomes the largest of those. */
  function Base(f: Segment): (b: nat)
    ensures b < LIMIT32 && (b == f.number || (b < f.number && b + 1 == LIMIT32))
  {
    if f.number < LIMIT32 then f.number else LIMIT32 - 1
  }

  function From(i: nat, end: nat, size: nat): seq<nat>
    requires 0 < size
    decreases end - i
  {
    if i < end then [i] + From(i + size, end, size) else []
  }

  /** A break is reported for every base from the one due after the last block seen. */
  function BrokenBases(last: Ref, base: nat, size: nat): seq<nat>
    requires 0 < size
  {
    if last == UNSET then [base] else From(RoundToBundleStart(last.num + 1, 100), base + 1, size)
  }

  function Visit(a: Audit, f: Segment, r: Range): (Audit, Step)
    requires 0 < r.size
  {
    var base := Base(f);
    if base + r.size - 1 < r.start then (a, Skipped)
    else if base < a.expected then (a, BelowExpected)
    else
      var v := CheckFile(a.last, f.content);
      var a1 := Audit(a.expected, if v.broken then UNSET else v.last,
                      a.missing + From(a.expected, base, r.size),
                      a.broken + if v.broken then BrokenBases(v.last, base, r.size) else [],
                      a.visited + [base],
                      a.blocks + if f.content.Blocks? then f.content.blocks[..v.read] else []);
      if v.failed then (a1, ReadFailed)
      else if 0 < r.stop && r.stop - 1 <= RoundToBundleEnd(base, r.size) then (a1, RangeDone)
      else (a1.(expected := base + r.size), Visited)
  }

  predicate Goes(s: Step) {
    s.Skipped? || s.Visited?
  }

  predicate Fine(s: Step) {
    Goes(s) || s.RangeDone?
  }

  function Begin(r: Range): Audit
    requires 0 < r.size
  {
    Audit(RoundToBundleStart(r.start, r.size), UNSET, [], [], [], [])
  }

  /** The walk over the files from the rounded start, up to the end of the range or an error. */
  function Run(files: seq<Segment>, r: Range): (Audit, Step)
    requires 0 < r.size
  {
    if files == [] then (Begin(r), Skipped)
    else
      var (a, s) := Run(files[..|files| - 1], r);
      if Goes(s) then Visit(a, files[|files| - 1], r) else (a, s)
  }

  /** The variables the walk's callback shares, with what it has visited and read so far. */
  class BatchChecker {
    const range: Range
    var expected: nat
    var last: Ref
    var missing: seq<nat>
    var broken: seq<nat>
    ghost var visited: seq<nat>
    ghost var read: seq<Block>

    ghost function Here(): Audit
      reads this
    {
      Audit(expected, last, missing, broken, visited, read)
    }

    constructor (r: Range)
      requires 0 < r.size
      ensures range == r && Here() == Begin(r)
    {
      range := r;
      expected, last := RoundToBundleStart(r.start, r.size), UNSET;
      missing, broken, visited, read := [], [], [], [];
    }

    /** The callback: one file of the walk. */
    method VisitFile(f: Segment) returns (s: Step)
      requires 0 < range.size
      modifies this
      ensures (Here(), s) == Visit(old(Here()), f, range)
    {
      var base := Base(f);
      if base + range.size - 1 < range.start {
        return Skipped;
      }
      if base < expected {
        return BelowExpected;
      }
      var lost := WriteBases(expected, base, range.size);
      var v := ReadFile(last, f.content);
      missing := missing + lost;
      visited, read := visited + [base], read + if f.content.Blocks? then f.content.blocks[..v.read] else [];
      Report(v, base);
      if v.failed {
        return ReadFailed;
      }
      if 0 < range.stop && range.stop - 1 <= RoundToBundleEnd(base, range.size) {
        return RangeDone;
      }
      expected := base + range.size;
      s := Visited;
    }

    /** Writes the reports of a break, after which the next block starts a new chain. */
    method Report(v: Verdict, base: nat)
      requires 0 < range.size
      modifies `last, `broken
      ensures last == if v.broken then UNSET else v.last
      ensures broken == old(broken) + if v.broken then BrokenBases(v.last, base, range.size) else []
    {
      last := v.last;
      if v.broken {
        var bad := [base];
        if last != UNSET {
          bad := WriteBases(RoundToBundleStart(last.num + 1, 100), base + 1, range.size);
        }
        broken := broken + bad;
        last := UNSET;
      }
    }

    method CheckMergedBlocksBatch(files: seq<Segment>) returns (s: Step)
      requires 0 < range.size && Here() == Begin(range)
      modifies this
      ensures (Here(), s) == Run(files, range)
    {
      s := Skipped;
      var n := 0;
      while n < |files| && Goes(s)
        invariant n <= |files| && (Here(), s) == Run(files[..n], range)
      {
        RunNext(files, n, range);
        s := VisitFile(files[n]);
        n := n + 1;
      }
      if Goes(s) {
        assert files[..n] == files;
      } else {
        RunStops(files, n, range);
      }
    }
  }

  method WriteBases(from: nat, end: nat, size: nat) returns (bases: seq<nat>)
    requires 0 < size
    ensures bases == From(from, end, size)
  {
    bases := [];
    var i := from;
    while i < end
      invariant From(from, end, size) == bases + From(i, end, size)
      decreases end - i
    {
      bases := bases + [i];
      i := i + size;
    }
  }

  lemma RunNext(files: seq<Segment>, n: nat, r: Range)
    requires 0 < r.size && n < |files| && Goes(Run(files[..n], r).1)
    ensures Run(files[..n + 1], r) == Visit(Run(files[..n], r).0, files[n], r)
  {
    assert files[..n + 1][..n] == files[..n];
  }

  lemma {:induction false} RunStops(files: seq<Segment>, n: nat, r: Range)
    requires 0 < r.size && n <= |files| && !Goes(Run(files[..n], r).1)
    ensures Run(files, r) == Run(files[..n], r)
  {
    if n < |files| {
      assert files[..|files| - 1][..n] == files[..n];
      RunStops(files[..|files| - 1], n, r);
    } else {
      assert files[..n] == files;
    }
  }

  // ---- a clean report means one chain, but for the breaks that go unreported

  predicate Links(p: Block, b: Block) {
    b.parentId == p.id || (b.id == p.id && b.num == p.num)
  }

  /** One parent-linked chain, apart from exact repeats of the block before. */
  ghost predicate IsChain(blocks: seq<Block>) {
    && (forall i | 0 <= i < |blocks| :: blocks[i].id != "")
    && forall i | 0 < i < |blocks| :: Links(blocks[i - 1], blocks[i])
  }

  function LastRef(blocks: seq<Block>): Ref {
    if blocks == [] then UNSET else RefOf(blocks[|blocks| - 1])
  }

  function RefOf(b: Block): Ref {
    Ref(b.id, b.num)
  }

  lemma LinkIs(last: Ref, b: Block)
    ensures Link(last, b).Some? ==> Link(last, b).value == RefOf(b)
    ensures last == UNSET ==> (Link(last, b).Some? <==> b.id != "")
    ensures forall p: Block | last == RefOf(p) && p.id != "" :: Link(last, b).Some? <==> b.id != "" && Links(p, b)
  {
  }

  lemma ChainOneMore(read: seq<Block>, b: Block)
    requires IsChain(read)
    ensures IsChain(read + [b]) <==> Link(LastRef(read), b).Some?
    ensures Link(LastRef(read), b).Some? ==> Link(LastRef(read), b).value == LastRef(read + [b])
  {
    var all := read + [b];
    LinkIs(LastRef(read), b);
    assert all[|read|] == b;
    if read != [] {
      var p := read[|read| - 1];
      assert all[|read| - 1] == p;
      assert LastRef(read) == RefOf(p);
      if IsChain(all) {
        assert Links(all[|read| - 1], all[|read|]);
      }
    }
  }

  lemma ChainPrefix(read: seq<Block>, more: seq<Block>)
    requires IsChain(read + more)
    ensures IsChain(read)
  {
    var all := read + more;
    forall i | 0 < i < |read|
      ensures Links(read[i - 1], read[i])
    {
      assert Links(all[i - 1], all[i]);
    }
    assert forall i | 0 <= i < |read| :: read[i] == all[i];
  }

  lemma Regroup(read: seq<Block>, blocks: seq<Block>, n: nat)
    requires n < |blocks|
    ensures read + [blocks[0]] + blocks[1..][..n] == read + blocks[..n + 1]
  {
  }

  /** Reading on from a chain: the part that follows extends it, and the next block breaks it. */
  lemma {:induction false} FollowExtends(read: seq<Block>, blocks: seq<Block>, l: Ref, n: nat)
    requires IsChain(read) && (l, n) == Follow(LastRef(read), blocks)
    ensures n <= |blocks| && IsChain(read + blocks[..n]) && l == LastRef(read + blocks[..n])
    ensures n < |blocks| ==> !IsChain(read + blocks[..n + 1])
    decreases |blocks|
  {
    if blocks == [] {
      assert read + [] == read;
    } else {
      ChainOneMore(read, blocks[0]);
      if Link(LastRef(read), blocks[0]).Some? {
        FollowExtends(read + [blocks[0]], blocks[1..], l, n - 1);
        Regroup(read, blocks, n - 1);
        if n < |blocks| {
          Regroup(read, blocks, n);
        }
      } else {
        assert read + blocks[..0] == read && blocks[..1] == [blocks[0]];
      }
    }
  }

  predicate Visits(a: Audit, f: Segment, r: Range)
    requires 0 < r.size
  {
    r.start <= Base(f) + r.size - 1 && a.expected <= Base(f)
  }

  /** The chain breaks in this file, and the base due after its last linked block is beyond the file. */
  predicate BreaksSilently(a: Audit, f: Segment, r: Range)
    requires 0 < r.size
  {
    var v := CheckFile(a.last, f.content);
    Visits(a, f, r) && v.broken && v.last != UNSET && Base(f) < RoundToBundleStart(v.last.num + 1, 100)
  }

  predicate EverSilent(files: seq<Segment>, r: Range)
    requires 0 < r.size
  {
    files != [] &&
    var front := files[..|files| - 1];
    (EverSilent(front, r)
     || (Goes(Run(front, r).1) && BreaksSilently(Run(front, r).0, files[|files| - 1], r)))
  }

  lemma FileExtends(read: seq<Block>, c: Content, v: Verdict, next: seq<Block>)
    requires IsChain(read) && c.Blocks? && v == CheckFile(LastRef(read), c) && next == read + c.blocks[..v.read]
    ensures if v.broken then !IsChain(next) else IsChain(next) && v.last == LastRef(next)
  {
    var (l, n) := Follow(LastRef(read), c.blocks);
    FollowExtends(read, c.blocks, l, n);
  }

  /** What a visit that ends well leaves behind. */
  lemma VisitShape(a: Audit, f: Segment, r: Range)
    requires 0 < r.size && Fine(Visit(a, f, r).1)
    ensures var a1 := Visit(a, f, r).0;
            var v := CheckFile(a.last, f.content);
            if Visits(a, f, r) then
              && f.content.Blocks? && a1.last == (if v.broken then UNSET else v.last)
              && a1.blocks == a.blocks + f.content.blocks[..v.read]
              && a1.broken == a.broken + (if v.broken then BrokenBases(v.last, Base(f), r.size) else [])
            else a1 == a
  {
  }

  /** One file: if it ends well and nothing is reported, the chain goes on exactly if no break was silent. */
  lemma VisitExtends(a: Audit, f: Segment, r: Range, a1: Audit)
    requires 0 < r.size && IsChain(a.blocks) && a.last == LastRef(a.blocks) && a.broken == []
    requires Fine(Visit(a, f, r).1) && a1 == Visit(a, f, r).0 && a1.broken == []
    ensures if BreaksSilently(a, f, r) then !IsChain(a1.blocks)
            else IsChain(a1.blocks) && a1.last == LastRef(a1.blocks)
  {
    VisitShape(a, f, r);
    if Visits(a, f, r) {
      var v := CheckFile(a.last, f.content);
      BrokenIsSilent(a, f, r, v, a1.broken);
      FileExtends(a.blocks, f.content, v, a1.blocks);
    }
  }

  lemma BrokenIsSilent(a: Audit, f: Segment, r: Range, v: Verdict, after: seq<nat>)
    requires 0 < r.size && Visits(a, f, r) && v == CheckFile(a.last, f.content) && a.broken == [] && after == []
    requires after == a.broken + (if v.broken then BrokenBases(v.last, Base(f), r.size) else [])
    ensures BreaksSilently(a, f, r) <==> v.broken
  {
    Unreported(v, a.broken, Base(f), r.size, after);
  }

  lemma Unreported(v: Verdict, before: seq<nat>, base: nat, size: nat, after: seq<nat>)
    requires 0 < size && before == [] && after == []
    requires after == before + (if v.broken then BrokenBases(v.last, base, size) else [])
    ensures v.broken ==> v.last != UNSET && base < RoundToBundleStart(v.last.num + 1, 100)
  {
    if v.broken {
      assert |BrokenBases(v.last, base, size)| == 0;
    }
  }

  /**
   When every file could be read and no break is reported, the blocks read form one chain if and
   only if no break was silent.
   */
  lemma {:induction false} CleanReportIsChain(files: seq<Segment>, r: Range)
    requires 0 < r.size && Fine(Run(files, r).1) && Run(files, r).0.broken == []
    ensures var a := Run(files, r).0;
            && (IsChain(a.blocks) <==> !EverSilent(files, r))
            && (IsChain(a.blocks) ==> a.last == LastRef(a.blocks))
  {
    if files != [] {
      var front, f := files[..|files| - 1], files[|files| - 1];
      var (a0, s0) := Run(front, r);
      CleanReportIsChain(front, r);
      if Goes(s0) {
        var a := Run(files, r).0;
        if IsChain(a0.blocks) {
          VisitExtends(a0, f, r, a);
        } else {
          var more := a.blocks[|a0.blocks|..];
          assert a.blocks == a0.blocks + more;
          if IsChain(a.blocks) {
            ChainPrefix(a0.blocks, more);
            assert false;
          }
        }
      }
    }
  }

  lemma OneFile(f: Segment, r: Range)
    requires 0 < r.size
    ensures Run([f], r) == Visit(Begin(r), f, r)
  {
    assert [f][..0] == [];
  }

  lemma SecondSiblingBreaks(x: Block, y: Block)
    requires x.id != "" && y.id != "" && y.id != x.id && y.parentId != x.id
    ensures Follow(UNSET, [x, y]) == (RefOf(x), 1) && !IsChain([x, y])
  {
    assert [x, y][1..] == [y];
    assert Follow(RefOf(x), [y]) == (RefOf(x), 0);
    assert !Links([x, y][0], [x, y][1]);
  }

  /** Any two sibling blocks that end the bundle at 100: nothing is reported, and there is no chain. */
  lemma SiblingsGoUnreported(x: Block, y: Block)
    requires x.id != "" && y.id != "" && y.id != x.id && x.num == y.num == 199
    requires x.parentId == y.parentId && y.parentId != x.id
    ensures var (a, s) := Run([Segment(100, Blocks([x, y], false))], Range(100, 200, 100));
            Fine(s) && a.missing == [] && a.broken == [] && a.blocks == [x, y] && !IsChain(a.blocks)
  {
    var f := Segment(100, Blocks([x, y], false));
    var r := Range(100, 200, 100);
    OneFile(f, r);
    SecondSiblingBreaks(x, y);
    SiblingVerdict(x, y);
    assert Begin(r) == Audit(100, UNSET, [], [], [], []);
    assert Visit(Begin(r), f, r).0.blocks == [] + [x, y];
  }

  lemma SiblingVerdict(x: Block, y: Block)
    requires Follow(UNSET, [x, y]) == (RefOf(x), 1) && x.num == 199
    ensures CheckFile(UNSET, Blocks([x, y], false)) == Verdict(true, false, RefOf(x), 2)
    ensures BrokenBases(RefOf(x), 100, 100) == [] && [x, y][..2] == [x, y]
  {
  }

  // ---- files in which no break is silent

  /** The blocks lie below the file's end, and only the last one may be the bundle's last block. */
  predicate Tidy(f: Segment) {
    && Base(f) % 100 == 0
    && (f.content.Blocks? ==>
          && (forall i | 0 <= i < |f.content.blocks| :: f.content.blocks[i].num <= Base(f) + 99)
          && forall i | 0 <= i < |f.content.blocks| - 1 :: f.content.blocks[i].num < Base(f) + 99)
  }

  lemma {:induction false} FollowLast(last: Ref, blocks: seq<Block>)
    ensures var (l, n) := Follow(last, blocks); l == if n == 0 then last else RefOf(blocks[n - 1])
    decreases |blocks|
  {
    if blocks != [] && Link(last, blocks[0]).Some? {
      LinkIs(last, blocks[0]);
      FollowLast(RefOf(blocks[0]), blocks[1..]);
    }
  }

  lemma TidyFile(last: Ref, f: Segment)
    requires Tidy(f) && (last == UNSET || last.num < Base(f))
    ensures var v := CheckFile(last, f.content);
            && (v.broken && v.last != UNSET ==> RoundToBundleStart(v.last.num + 1, 100) <= Base(f))
            && (v.last != UNSET ==> v.last.num < Base(f) + 100)
  {
    if f.content.Blocks? {
      FollowLast(last, f.content.blocks);
      var v := CheckFile(last, f.content);
      if v.broken && v.last != UNSET {
        NotBeyond(v.last.num + 1, Base(f));
      }
    }
  }

  lemma NotBeyond(n: nat, base: nat)
    requires base % 100 == 0 && n < base + 100
    ensures RoundToBundleStart(n, 100) <= base
  {
  }

  lemma TidyVisit(a: Audit, f: Segment, r: Range)
    requires r.size == 100 && Visits(a, f, r) && Tidy(f) && (a.last == UNSET || a.last.num < a.expected)
    ensures !BreaksSilently(a, f, r)
    ensures var (a1, s) := Visit(a, f, r); Goes(s) ==> a1.last == UNSET || a1.last.num < a1.expected
  {
    TidyFile(a.last, f);
  }

  lemma {:induction false} TidyIsNeverSilent(files: seq<Segment>, r: Range)
    requires r.size == 100 && forall f | f in files :: Tidy(f)
    ensures !EverSilent(files, r)
    ensures var (a, s) := Run(files, r); Goes(s) ==> a.last == UNSET || a.last.num < a.expected
  {
    if files != [] {
      var front, f := files[..|files| - 1], files[|files| - 1];
      assert files == front + [f];
      TidyIsNeverSilent(front, r);
      var a := Run(front, r).0;
      if Goes(Run(front, r).1) && Visits(a, f, r) {
        TidyVisit(a, f, r);
      }
    }
  }

  /** So for files with their own blocks only, a clean report is exactly a chain. */
  lemma TidyReport(files: seq<Segment>, r: Range)
    requires r.size == 100 && (forall f | f in files :: Tidy(f))
    requires Fine(Run(files, r).1) && Run(files, r).0.broken == []
    ensures IsChain(Run(files, r).0.blocks)
  {
    TidyIsNeverSilent(files, r);
    CleanReportIsChain(files, r);
  }

  // ---- missing bundles

  lemma {:induction false} FromHas(i: nat, end: nat, size: nat, k: nat)
    requires 0 < size && i % size == 0
    ensures k in From(i, end, size) <==> i <= k < end && k % size == 0
    decreases end - i
  {
    if i < end {
      NextMultiple(i, size);
      FromHas(i + size, end, size, k);
      if i <= k < i + size && k % size == 0 {
        BetweenMultiples(i, k, size);
      }
    }
  }

  ghost predicate Increasing(s: seq<nat>) {
    forall i, j | 0 <= i < j < |s| :: s[i] < s[j]
  }

  lemma {:induction false} FromIncreases(i: nat, end: nat, size: nat)
    requires 0 < size
    ensures Increasing(From(i, end, size)) && forall k | k in From(i, end, size) :: i <= k < end
    decreases end - i
  {
    if i < end {
      FromIncreases(i + size, end, size);
      IncreasingConcat([i], From(i + size, end, size), i + size);
    }
  }

  /** The first base past the last visited file. */
  function Top(a: Audit, r: Range): nat
    requires 0 < r.size
  {
    if a.visited == [] then RoundToBundleStart(r.start, r.size) else a.visited[|a.visited| - 1] + r.size
  }

  ghost predicate Absent(a: Audit, r: Range, k: nat)
    requires 0 < r.size
  {
    RoundToBundleStart(r.start, r.size) <= k < Top(a, r) && k % r.size == 0 && k !in a.visited
  }

  /** Up to the last visited file, each absent bundle is reported missing, once and in order. */
  lemma {:induction false} MissingIsExact(files: seq<Segment>, r: Range)
    requires 0 < r.size && forall f | f in files :: Base(f) % r.size == 0
    ensures var (a, s) := Run(files, r);
            && Increasing(a.missing) && (forall k :: k in a.missing <==> Absent(a, r, k))
            && Top(a, r) % r.size == 0 && RoundToBundleStart(r.start, r.size) <= Top(a, r)
            && (forall k | k in a.visited :: k < Top(a, r))
            && (Goes(s) ==> a.expected == Top(a, r))
  {
    var first := RoundToBundleStart(r.start, r.size);
    if files == [] {
    } else {
      var front, f := files[..|files| - 1], files[|files| - 1];
      assert files == front + [f];
      MissingIsExact(front, r);
      var (a, s) := Run(front, r);
      if Goes(s) && Visits(a, f, r) {
        VisitMisses(a, f, r);
      }
    }
  }

  lemma VisitMisses(a: Audit, f: Segment, r: Range)
    requires 0 < r.size && Visits(a, f, r) && Base(f) % r.size == 0
    requires Increasing(a.missing) && (forall k :: k in a.missing <==> Absent(a, r, k))
    requires a.expected == Top(a, r) && a.expected % r.size == 0
    requires RoundToBundleStart(r.start, r.size) <= a.expected && forall k | k in a.visited :: k < a.expected
    ensures var a1 := Visit(a, f, r).0;
            && Increasing(a1.missing) && (forall k :: k in a1.missing <==> Absent(a1, r, k))
            && Top(a1, r) % r.size == 0 && (forall k | k in a1.visited :: k < Top(a1, r))
  {
    var a1 := Visit(a, f, r).0;
    var base := Base(f);
    var lost := From(a.expected, base, r.size);
    FromIncreases(a.expected, base, r.size);
    NextMultiple(base, r.size);
    forall k: nat
      ensures k in a1.missing <==> Absent(a1, r, k)
    {
      FromHas(a.expected, base, r.size, k);
      if base <= k < base + r.size && k % r.size == 0 {
        BetweenMultiples(base, k, r.size);
      }
    }
    IncreasingConcat(a.missing, lost, a.expected);
  }

  lemma IncreasingConcat(s: seq<nat>, t: seq<nat>, mid: nat)
    requires Increasing(s) && Increasing(t)
    requires (forall k | k in s :: k < mid) && (forall k | k in t :: mid <= k)
    ensures Increasing(s + t)
  {
    forall i, j | 0 <= i < j < |s + t|
      ensures (s + t)[i] < (s + t)[j]
    {
      if i < |s| <= j {
        assert s[i] in s && t[j - |s|] in t;
      }
    }
  }

  /** The check stops on its own exactly when the files it visited reach the end of the range. */
  lemma {:induction false} StopsAtTheEnd(files: seq<Segment>, r: Range)
    requires 0 < r.size && (forall f | f in files :: Base(f) % r.size == 0) && Fine(Run(files, r).1)
    ensures var (a, s) := Run(files, r);
            s.RangeDone? <==> a.visited != [] && 0 < r.stop && r.stop <= Top(a, r)
  {
    if files != [] {
      var front, f := files[..|files| - 1], files[|files| - 1];
      assert files == front + [f];
      StopsAtTheEnd(front, r);
      RoundedBase(Base(f), r.size);
    }
  }

  lemma RoundedBase(base: nat, size: nat)
    requires 0 < size && base % size == 0
    ensures RoundToBundleEnd(base, size) == base + size - 1
  {
  }

  /** The bases a break is reported for: from the one due after the last linked block up to the file's own. */
  ghost predicate BrokenAt(v: Verdict, base: nat, size: nat, k: nat)
    requires 0 < size
  {
    if v.last == UNSET then k == base
    else
      var first := ToBase(v.last.num + 1, 100);
      first <= k <= base && (k - first) % size == 0
  }

  lemma {:induction false} FromSteps(i: nat, end: nat, size: nat, k: nat)
    requires 0 < size
    ensures k in From(i, end, size) <==> i <= k < end && (k - i) % size == 0
    decreases end - i
  {
    if i < end {
      FromSteps(i + size, end, size, k);
      if i + size <= k {
        NextMultiple(k - i - size, size);
      } else if i <= k {
        DivUnique(k - i, 0, k - i, size);
      }
    }
  }

  lemma BasesAreExact(v: Verdict, base: nat, size: nat)
    requires 0 < size
    ensures Increasing(BrokenBases(v.last, base, size))
    ensures forall k: nat :: k in BrokenBases(v.last, base, size) <==> BrokenAt(v, base, size, k)
  {
    if v.last != UNSET {
      var first := RoundToBundleStart(v.last.num + 1, 100);
      FromIncreases(first, base + 1, size);
      forall k: nat
        ensures k in From(first, base + 1, size) <==> BrokenAt(v, base, size, k)
      {
        FromSteps(first, base + 1, size, k);
      }
    }
  }

  lemma VisitAdds(a: Audit, f: Segment, r: Range, added: seq<nat>)
    requires 0 < r.size && Visits(a, f, r)
    requires var v := CheckFile(a.last, f.content);
             added == if v.broken then BrokenBases(v.last, Base(f), r.size) else []
    ensures var after := Visit(a, f, r).0.broken; a.broken <= after && after[|a.broken|..] == added
  {
  }

  /**
   What a visit adds to the broken reports, for any bundle size: after a break each base due since
   the last linked block, once and in order, and only those; without a break nothing.
   */
  lemma BrokenIsExact(a: Audit, f: Segment, r: Range, v: Verdict)
    requires 0 < r.size && Visits(a, f, r) && v == CheckFile(a.last, f.content)
    ensures var after := Visit(a, f, r).0.broken;
            && a.broken <= after
            && var added := after[|a.broken|..];
               Increasing(added) && forall k: nat :: k in added <==> v.broken && BrokenAt(v, Base(f), r.size, k)
  {
    VisitAdds(a, f, r, if v.broken then BrokenBases(v.last, Base(f), r.size) else []);
    BasesAreExact(v, Base(f), r.size);
  }

  /** With bundles of 100 on the grid these are the multiples of 100 from there to the file. */
  lemma OnTheGrid(v: Verdict, base: nat, k: nat)
    requires base % 100 == 0
    ensures BrokenAt(v, base, 100, k) <==>
            if v.last == UNSET then k == base else k % 100 == 0 && ToBase(v.last.num + 1, 100) <= k <= base
  {
  }

  /** In particular a break is reported at its own file exactly when it is not silent. */
  lemma BreakIsReported(a: Audit, f: Segment, r: Range)
    requires r.size == 100 && Base(f) % 100 == 0 && Visits(a, f, r)
    requires CheckFile(a.last, f.content).broken && !(Base(f) in a.broken)
    ensures Base(f) in Visit(a, f, r).0.broken <==> !BreaksSilently(a, f, r)
  {
    var v, after := CheckFile(a.last, f.content), Visit(a, f, r).0.broken;
    BrokenIsExact(a, f, r, v);
    OnTheGrid(v, Base(f), Base(f));
    assert after == a.broken + after[|a.broken|..];
  }

  // ---- how a visit ends

  /** A file is broken exactly if it cannot be opened or its blocks do not carry on the chain. */
  lemma VerdictIs(read: seq<Block>, c: Content)
    requires IsChain(read)
    ensures var v := CheckFile(LastRef(read), c);
            && (c.Unreadable? ==> v.broken && v.failed)
            && (c.Blocks? ==> (v.broken <==> !IsChain(read + c.blocks)) && (v.failed <==> c.truncated && !v.broken))
  {
    if c.Blocks? {
      var (l, n) := Follow(LastRef(read), c.blocks);
      FollowExtends(read, c.blocks, l, n);
      assert c.blocks[..|c.blocks|] == c.blocks;
      if n < |c.blocks| && IsChain(read + c.blocks) {
        assert read + c.blocks == (read + c.blocks[..n + 1]) + c.blocks[n + 1..];
        ChainPrefix(read + c.blocks[..n + 1], c.blocks[n + 1..]);
      }
    }
  }

  /**
   A file is passed over exactly if it lies below the start; one that overlaps the last visited is an
   error, and so is one that cannot be read to its end, unless the chain breaks before.
   */
  lemma VisitEnds(a: Audit, f: Segment, r: Range)
    requires 0 < r.size && IsChain(a.blocks) && a.last == LastRef(a.blocks)
    ensures var (a1, s) := Visit(a, f, r);
            && (s.Skipped? <==> Base(f) + r.size <= r.start)
            && (s.BelowExpected? <==> !s.Skipped? && Base(f) < a.expected)
            && (s.Skipped? || s.BelowExpected? ==> a1 == a)
            && (s.ReadFailed? <==>
                  && !s.Skipped? && !s.BelowExpected?
                  && (f.content.Unreadable? || (f.content.truncated && IsChain(a.blocks + f.content.blocks))))
  {
    VerdictIs(a.blocks, f.content);
  }
}
