/** The writer that groups an ordered stream of blocks into merged files of one hundred. */
module BundleWriting {
  import opened Multiples
  import opened Bundler
  import opened Partition

  /** Stop block (0 for none) and the first streamable block of the protocol. */
  datatype Settings = Settings(stop: nat, first: nat)

  /** The files written so far, in order, and the blocks waiting for the one at `low`. */
  datatype Writer = Writer(low: nat, pending: Files, written: seq<Job>)

  datatype Result = Taken | Unexpected | NothingToWrite | EndOfRange

  function WriteBundle(w: Writer): (Writer, bool) {
    if w.pending == [] then (w, false)
    else (Writer(w.low + 100, [], w.written + [Job(w.low, w.pending)]), true)
  }

  /** The first block may set the boundary, as long as that is still zero. */
  predicate Refuses(w: Writer, n: nat, s: Settings) {
    w.low == 0 && n > 99 && n % 100 != 0 && n != s.first
  }

  function Settled(w: Writer, n: nat): Writer {
    if w.low == 0 && n > 99 then w.(low := ToBase(n, 100)) else w
  }

  function Append(w: Writer, b: OneBlockFile): Writer {
    var w1 := w.(pending := w.pending + [b]);
    if b.num == w.low + 99 then WriteBundle(w1).0 else w1
  }

  function ProcessBlock(w: Writer, b: OneBlockFile, s: Settings): (Writer, Result) {
    if Refuses(w, b.num, s) then (w, Unexpected)
    else
      var w1 := Settled(w, b.num);
      var (w2, ok) := if b.num > w1.low + 99 then WriteBundle(w1) else (w1, true);
      if !ok then (w2, NothingToWrite)
      else if 0 < s.stop <= b.num then (w2, EndOfRange)
      else (Append(w2, b), Taken)
  }

  /** A run over a stream, up to the first block that is not taken. */
  function Run(w: Writer, blocks: Files, s: Settings): (Writer, Result) {
    if blocks == [] then (w, Taken)
    else
      var (w1, r) := Run(w, blocks[..|blocks| - 1], s);
      if r.Taken? then ProcessBlock(w1, blocks[|blocks| - 1], s) else (w1, r)
  }

  // ---- where the blocks end up

  function FirstBase(w: Writer, rec: Files): nat {
    if rec == [] then w.low else ToBase(rec[0].num, 100)
  }

  /** One file for each range from the first block's up to `low`, holding exactly the blocks of its range, in order. */
  ghost predicate Filed(w: Writer, rec: Files) {
    && w.low % 100 == 0 && Rising(rec)
    && w.pending == From(rec, w.low) && AllBelow(rec, w.low + 100)
    && Contiguous(w.written, FirstBase(w, rec), w.low, 100)
    && FilesRight(w.written, rec)
  }

  ghost predicate FilesRight(written: seq<Job>, rec: Files) {
    forall j | j in written :: j.blocks != [] && j.blocks == Within(rec, j.base, j.base + 100)
  }

  /** The writer has seen a chain that ends with `last`. */
  ghost predicate Placed(w: Writer, rec: Files) {
    Filed(w, rec) && (rec != [] ==> w.low == ToBase(rec[|rec| - 1].num + 1, 100))
  }

  ghost predicate InRange(blocks: Files, base: nat) {
    forall b | b in blocks :: base <= b.num < base + 100
  }

  /** Some block waits for, or was written to, a file it does not belong to. */
  ghost predicate Misfiled(w: Writer) {
    !InRange(w.pending, w.low) || exists j :: j in w.written && !InRange(j.blocks, j.base)
  }

  /** No bundle is left without a block, and bundle 0 is left only through block 99. */
  predicate PairOk(p: nat, n: nat) {
    var k := ToBase(p, 100);
    n < k + 100 || (n < k + 200 && 99 <= p)
  }

  predicate FirstOk(low: nat, n: nat, s: Settings) {
    if low == 0 then n <= 99 || n % 100 == 0 || n == s.first else low <= n < low + 100
  }

  predicate NextOk(low: nat, rec: Files, n: nat, s: Settings) {
    if rec == [] then FirstOk(low, n, s) else PairOk(rec[|rec| - 1].num, n)
  }

  predicate AllOk(low: nat, rec: Files, s: Settings) {
    rec == [] || (AllOk(low, rec[..|rec| - 1], s) && NextOk(low, rec[..|rec| - 1], rec[|rec| - 1].num, s))
  }

  lemma BaseIs(b: nat, x: nat)
    requires b % 100 == 0 && b <= x < b + 100
    ensures ToBase(x, 100) == b
  {
  }

  lemma PendingIsBundle(rec: Files, low: nat)
    requires Rising(rec) && AllBelow(rec, low + 100)
    ensures From(rec, low) == Within(rec, low, low + 100) && From(rec, low + 100) == []
  {
    NoneFrom(rec, low + 100);
    FromIsWithin(rec, low, low + 100);
    NoneWithin(rec, low + 100, low + 101);
  }

  lemma OneMoreJob(written: seq<Job>, base0: nat, low: nat, j: Job)
    requires Contiguous(written, base0, low, 100) && j.base == low
    ensures Contiguous(written + [j], base0, low + 100, 100)
  {
    assert (written + [j])[..|written|] == written;
    ContiguousEnd(written, base0, low, 100);
  }

  lemma FilesOneMore(written: seq<Job>, rec: Files, j: Job)
    requires FilesRight(written, rec) && j.blocks != [] && j.blocks == Within(rec, j.base, j.base + 100)
    ensures FilesRight(written + [j], rec)
  {
  }

  lemma BelowMore(rec: Files, m: nat, n: nat)
    requires AllBelow(rec, m) && m <= n
    ensures AllBelow(rec, n)
  {
  }

  lemma WriteKeeps(w: Writer, rec: Files)
    requires Filed(w, rec) && w.pending != []
    ensures WriteBundle(w).1 && Filed(WriteBundle(w).0, rec)
  {
    var j := Job(w.low, w.pending);
    PendingIsBundle(rec, w.low);
    OneMoreJob(w.written, FirstBase(w, rec), w.low, j);
    FilesOneMore(w.written, rec, j);
    BelowMore(rec, w.low + 100, w.low + 200);
    assert rec != [];
  }

  predicate Start(w: Writer, rec: Files) {
    rec == [] ==> w.pending == [] && w.written == []
  }

  lemma FilesStand(written: seq<Job>, rec: Files, b: OneBlockFile, base0: nat, low: nat)
    requires FilesRight(written, rec) && Contiguous(written, base0, low, 100) && base0 % 100 == 0 && low <= b.num
    ensures FilesRight(written, rec + [b])
  {
    ContiguousBases(written, base0, low, 100);
    forall j | j in written
      ensures Within(rec + [b], j.base, j.base + 100) == Within(rec, j.base, j.base + 100)
    {
      WithinAppend(rec, b, j.base, j.base + 100);
    }
  }

  lemma AddKeeps(w: Writer, rec: Files, b: OneBlockFile)
    requires Filed(w, rec) && Start(w, rec)
    requires w.low <= b.num < w.low + 100 && (rec == [] || rec[|rec| - 1].num < b.num)
    ensures Filed(w.(pending := w.pending + [b]), rec + [b])
  {
    RisingAppend(rec, b);
    FromAppend(rec, b, w.low);
    FilesStand(w.written, rec, b, FirstBase(w, rec), w.low);
    if rec == [] {
      BaseIs(w.low, b.num);
    } else {
      assert (rec + [b])[0] == rec[0];
    }
  }

  lemma AppendKeeps(w: Writer, rec: Files, b: OneBlockFile)
    requires Filed(w, rec) && Start(w, rec)
    requires w.low <= b.num < w.low + 100 && (rec == [] || rec[|rec| - 1].num < b.num)
    ensures Placed(Append(w, b), rec + [b])
  {
    AddKeeps(w, rec, b);
    NextBoundary(w.low, b.num);
    if b.num == w.low + 99 {
      WriteKeeps(w.(pending := w.pending + [b]), rec + [b]);
    }
  }

  lemma NextBoundary(low: nat, n: nat)
    requires low % 100 == 0 && low <= n < low + 100
    ensures ToBase(n + 1, 100) == if n == low + 99 then low + 100 else low
  {
  }

  /** Where the boundary stands for a block: a full bundle has been written, any other waits. */
  lemma PlacedPending(w: Writer, rec: Files)
    requires Placed(w, rec) && rec != []
    ensures var p := rec[|rec| - 1].num;
            if p % 100 == 99 then w.low == p + 1 && w.pending == []
            else w.low == ToBase(p, 100) && w.pending != [] && w.pending[|w.pending| - 1].num == p
  {
    var p := rec[|rec| - 1].num;
    if p % 100 == 99 {
      BaseIs(p + 1, p + 1);
      AllUpToLast(rec);
      NoneFrom(rec, w.low);
    } else {
      BaseIs(ToBase(p, 100), p + 1);
    }
  }

  lemma LaterStep(w: Writer, rec: Files, b: OneBlockFile, s: Settings)
    requires Placed(w, rec) && rec != [] && rec[|rec| - 1].num < b.num
    requires PairOk(rec[|rec| - 1].num, b.num) && (s.stop == 0 || b.num < s.stop)
    ensures var (w', r) := ProcessBlock(w, b, s);
            r.Taken? && Placed(w', rec + [b])
  {
    PlacedPending(w, rec);
    if b.num > w.low + 99 {
      WriteKeeps(w, rec);
      AppendKeeps(WriteBundle(w).0, rec, b);
    } else {
      AppendKeeps(w, rec, b);
    }
  }

  /** A block that comes in good order is taken and keeps every file right. */
  lemma StepKeeps(w: Writer, rec: Files, b: OneBlockFile, s: Settings)
    requires Placed(w, rec) && Start(w, rec) && (rec == [] || rec[|rec| - 1].num < b.num)
    requires NextOk(w.low, rec, b.num, s) && (s.stop == 0 || b.num < s.stop)
    ensures var (w', r) := ProcessBlock(w, b, s);
            r.Taken? && Placed(w', rec + [b])
  {
    if rec == [] {
      AppendKeeps(Settled(w, b.num), rec, b);
    } else {
      LaterStep(w, rec, b, s);
    }
  }

  // ---- and when they do not

  lemma AppendedIsMisfiled(w: Writer, b: OneBlockFile)
    requires !InRange(w.pending + [b], w.low)
    ensures Misfiled(Append(w, b))
  {
    var j := Job(w.low, w.pending + [b]);
    if b.num == w.low + 99 {
      assert j in Append(w, b).written;
    }
  }

  /** A block that comes in bad order is refused or ends up in the wrong file. */
  lemma StepSpoils(w: Writer, rec: Files, b: OneBlockFile, s: Settings)
    requires Placed(w, rec) && Start(w, rec) && (rec == [] || rec[|rec| - 1].num < b.num)
    requires !NextOk(w.low, rec, b.num, s) && s.stop == 0
    ensures var (w', r) := ProcessBlock(w, b, s);
            !r.Taken? || Misfiled(w')
  {
    var w1 := Settled(w, b.num);
    if rec == [] {
      if b.num < w.low {
        assert b in w.pending + [b];
        AppendedIsMisfiled(w, b);
      }
    } else if !Refuses(w, b.num, s) {
      PlacedPending(w, rec);
      var p := rec[|rec| - 1];
      if w.pending != [] {
        if w.low == 0 {
          assert w.pending[|w.pending| - 1] in w.pending + [b];
          AppendedIsMisfiled(w1, b);
        } else {
          assert b in [] + [b];
          AppendedIsMisfiled(WriteBundle(w).0, b);
        }
      }
    }
  }

  /** Before the boundary is set, only blocks of the first bundle wait. */
  ghost predicate Settling(w: Writer) {
    w.low == 0 ==> InRange(w.pending, 0)
  }

  lemma {:induction false} RunSettles(w: Writer, blocks: Files, s: Settings)
    requires w.pending == []
    ensures Settling(Run(w, blocks, s).0)
  {
    if blocks != [] {
      RunSettles(w, blocks[..|blocks| - 1], s);
    }
  }

  lemma MisfiledStays(w: Writer, b: OneBlockFile, s: Settings)
    requires Misfiled(w) && Settling(w)
    ensures Misfiled(ProcessBlock(w, b, s).0)
  {
    if !Refuses(w, b.num, s) {
      var w1 := Settled(w, b.num);
      assert Misfiled(w1);
      if b.num > w1.low + 99 {
        WriteStaysMisfiled(w1);
        AppendStaysMisfiled(WriteBundle(w1).0, b);
      } else {
        AppendStaysMisfiled(w1, b);
      }
    }
  }

  lemma WriteStaysMisfiled(w: Writer)
    requires Misfiled(w)
    ensures Misfiled(WriteBundle(w).0)
  {
    var w1 := WriteBundle(w).0;
    if w.pending != [] {
      if !InRange(w.pending, w.low) {
        assert Job(w.low, w.pending) in w1.written;
      } else {
        var j :| j in w.written && !InRange(j.blocks, j.base);
        assert j in w1.written;
      }
    }
  }

  lemma AppendStaysMisfiled(w: Writer, b: OneBlockFile)
    requires Misfiled(w)
    ensures Misfiled(Append(w, b))
  {
    var w1 := w.(pending := w.pending + [b]);
    if !InRange(w.pending, w.low) {
      var x :| x in w.pending && !(w.low <= x.num < w.low + 100);
      assert x in w1.pending;
    }
    assert Misfiled(w1);
    WriteStaysMisfiled(w1);
  }

  lemma FiledIsNotMisfiled(w: Writer, rec: Files)
    requires Filed(w, rec)
    ensures !Misfiled(w)
  {
    FromIsPart(rec, w.low);
    forall j, x | j in w.written && x in j.blocks
      ensures j.base <= x.num < j.base + 100
    {
      InWithin(rec, x, j.base, j.base + 100);
    }
  }

  /**
   For a rising stream without a stop block: all blocks are taken and none waits for or is in
   a wrong file if and only if no bundle is left out and bundle 0 is left through block 99.
   */
  lemma {:induction false} StreamIsFiled(low: nat, rec: Files, s: Settings)
    requires low % 100 == 0 && Rising(rec) && s.stop == 0
    ensures var (w, r) := Run(Writer(low, [], []), rec, s);
            && (AllOk(low, rec, s) ==> r.Taken? && Placed(w, rec))
            && (r.Taken? && !Misfiled(w) <==> AllOk(low, rec, s))
  {
    var w0 := Writer(low, [], []);
    if rec == [] {
      FiledIsNotMisfiled(w0, rec);
    } else {
      var before, b := rec[..|rec| - 1], rec[|rec| - 1];
      assert rec == before + [b];
      StreamIsFiled(low, before, s);
      var (w, r) := Run(w0, before, s);
      if AllOk(low, before, s) {
        NextIsFiled(low, w, before, b, s);
      } else if r.Taken? {
        RunSettles(w0, before, s);
        MisfiledStays(w, b, s);
      }
    }
  }

  lemma NextIsFiled(low: nat, w: Writer, rec: Files, b: OneBlockFile, s: Settings)
    requires Placed(w, rec) && (rec == [] ==> w == Writer(low, [], [])) && s.stop == 0
    requires rec == [] || rec[|rec| - 1].num < b.num
    ensures var (w', r) := ProcessBlock(w, b, s);
            && (NextOk(low, rec, b.num, s) ==> r.Taken? && Placed(w', rec + [b]))
            && (r.Taken? && !Misfiled(w') <==> NextOk(low, rec, b.num, s))
  {
    if NextOk(low, rec, b.num, s) {
      StepKeeps(w, rec, b, s);
      FiledIsNotMisfiled(ProcessBlock(w, b, s).0, rec + [b]);
    } else {
      StepSpoils(w, rec, b, s);
    }
  }

  /** Every block below the boundary is in the file named by its own range, and in no other. */
  lemma EveryBlockFiled(w: Writer, rec: Files, b: OneBlockFile) returns (j: Job)
    requires Filed(w, rec) && b in rec && b.num < w.low
    ensures j in w.written && j.base == ToBase(b.num, 100) && b in j.blocks
    ensures forall k | k in w.written && b in k.blocks :: k.base == j.base
  {
    FirstIsLeast(rec, b);
    var base0 := ToBase(rec[0].num, 100);
    var base := ToBase(b.num, 100);
    OwnBase(base0, b.num, 100);
    j := JobAt(w.written, base0, w.low, 100, base);
    InWithin(rec, b, base, base + 100);
    ContiguousBases(w.written, base0, w.low, 100);
    forall k | k in w.written && b in k.blocks
      ensures k.base == base
    {
      InWithin(rec, b, k.base, k.base + 100);
      BaseIs(k.base, b.num);
    }
  }

  lemma FirstIsLeast(rec: Files, b: OneBlockFile)
    requires Rising(rec) && b in rec
    ensures rec[0].num <= b.num
  {
    var i :| 0 <= i < |rec| && rec[i] == b;
    if 0 < i {
      RisingAt(rec, 0, i);
    }
  }

  /** A stop leaves every block in its file if and only if it is beyond the current bundle, or that is empty. */
  lemma StopFilesAll(w: Writer, rec: Files, b: OneBlockFile, s: Settings)
    requires Placed(w, rec) && rec != [] && 0 < s.stop <= b.num && PairOk(rec[|rec| - 1].num, b.num)
    ensures var (w', r) := ProcessBlock(w, b, s);
            && r.EndOfRange? && Filed(w', rec)
            && (w'.pending == [] <==> w.low + 100 <= b.num || w.pending == [])
  {
    PlacedPending(w, rec);
    if b.num > w.low + 99 {
      WriteKeeps(w, rec);
    }
  }

  /** Until the stop block comes, the writer works as without one. */
  lemma StopOnlyThen(w: Writer, b: OneBlockFile, s: Settings)
    requires b.num < s.stop
    ensures ProcessBlock(w, b, s) == ProcessBlock(w, b, s.(stop := 0))
  {
  }

  /** How each call ends: a jump with nothing waiting is an error even at the stop block. */
  lemma Outcomes(w: Writer, b: OneBlockFile, s: Settings)
    ensures var r := ProcessBlock(w, b, s).1;
            var jumped := if w.low == 0 && 99 < b.num then false else w.low + 99 < b.num;
            && (r.Unexpected? <==> w.low == 0 && 99 < b.num && b.num % 100 != 0 && b.num != s.first)
            && (r.NothingToWrite? <==> jumped && w.pending == [])
            && (r.EndOfRange? <==> !r.Unexpected? && !r.NothingToWrite? && 0 < s.stop <= b.num)
  {
  }

  // ---- the writer as an object

  class MergedBlocksWriter {
    const settings: Settings
    var lowBlockNum: nat
    var blocks: Files
    var store: seq<Job>

    function Here(): Writer
      reads this
    {
      Writer(lowBlockNum, blocks, store)
    }

    constructor (low: nat, settings: Settings)
      ensures Here() == Writer(low, [], []) && this.settings == settings
    {
      lowBlockNum, blocks, store := low, [], [];
      this.settings := settings;
    }

    method Process(b: OneBlockFile) returns (r: Result)
      modifies this
      ensures (Here(), r) == ProcessBlock(old(Here()), b, settings)
    {
      if lowBlockNum == 0 && b.num > 99 {
        if b.num % 100 != 0 && b.num != settings.first {
          return Unexpected;
        }
        lowBlockNum := LowBoundary(b.num);
      }
      if b.num > lowBlockNum + 99 {
        var ok := Flush();
        if !ok {
          return NothingToWrite;
        }
      }
      if settings.stop > 0 && b.num >= settings.stop {
        return EndOfRange;
      }
      blocks := blocks + [b];
      if b.num == lowBlockNum + 99 {
        var _ := Flush();
      }
      r := Taken;
    }

    method Flush() returns (ok: bool)
      modifies this
      ensures (Here(), ok) == WriteBundle(old(Here()))
    {
      if blocks == [] {
        return false;
      }
      store := store + [Job(lowBlockNum, blocks)];
      lowBlockNum, blocks := lowBlockNum + 100, [];
      ok := true;
    }
  }

  function LowBoundary(n: nat): (b: nat)
    ensures b == ToBase(n, 100)
  {
    n - n % 100
  }
}
