/** The linked buffer that keeps the last lines a node printed. */
module LineBuffer {

  /** The last `max` lines; a negative limit keeps them all. */
  function LastLines(lines: seq<string>, max: int): (r: seq<string>)
    ensures 0 <= max ==> |r| <= max
  {
    if max < 0 || |lines| <= max then lines else lines[|lines| - max..]
  }

  /** A tail of the lines, as long as the limit lets it be. */
  ghost predicate IsTail(kept: seq<string>, lines: seq<string>, max: int) {
    |kept| == (if 0 <= max < |lines| then max else |lines|) && kept == lines[|lines| - |kept|..]
  }

  lemma LastLinesAreTail(lines: seq<string>, max: int)
    ensures IsTail(LastLines(lines, max), lines, max)
  {
  }

  /** Dropping lines on the way makes no difference to what is kept in the end. */
  lemma KeptOfKept(lines: seq<string>, line: string, max: int)
    ensures LastLines(LastLines(lines, max) + [line], max) == LastLines(lines + [line], max)
  {
  }

  /** What is kept of `before` and the first `i` of `lines`. */
  ghost predicate KeepsUpTo(kept: seq<string>, before: seq<string>, lines: seq<string>, i: nat, max: int) {
    i <= |lines| && kept == LastLines(before + lines[..i], max)
  }

  lemma KeptNone(before: seq<string>, lines: seq<string>, max: int)
    requires 0 <= max ==> |before| <= max
    ensures KeepsUpTo(before, before, lines, 0, max)
  {
    assert before + lines[..0] == before;
  }

  lemma KeptNext(kept: seq<string>, before: seq<string>, lines: seq<string>, i: nat, max: int)
    requires i < |lines| && KeepsUpTo(kept, before, lines, i, max)
    ensures KeepsUpTo(LastLines(kept + [lines[i]], max), before, lines, i + 1, max)
  {
    KeptOfKept(before + lines[..i], lines[i], max);
    assert before + lines[..i + 1] == before + lines[..i] + [lines[i]];
  }

  lemma KeptAll(kept: seq<string>, before: seq<string>, lines: seq<string>, max: int)
    requires KeepsUpTo(kept, before, lines, |lines|, max)
    ensures kept == LastLines(before + lines, max)
  {
    assert lines[..|lines|] == lines;
  }

  class BufferElement {
    var previous: BufferElement?
    var next: BufferElement?
    const line: string

    constructor (line: string, previous: BufferElement?)
      ensures this.line == line && this.previous == previous && next == null
    {
      this.line, this.previous, this.next := line, previous, null;
    }
  }

  ghost function LinesOf(spine: seq<BufferElement>): (lines: seq<string>)
    ensures |lines| == |spine| && forall i | 0 <= i < |spine| :: lines[i] == spine[i].line
  {
    seq(|spine|, i requires 0 <= i < |spine| => spine[i].line)
  }

  /** One more element, less the first one of a full buffer, holds the last lines. */
  lemma Rotated(spine: seq<BufferElement>, e: BufferElement, max: int)
    requires max != 0 && (0 <= max ==> |spine| <= max)
    ensures LinesOf(if |spine| == max then (spine + [e])[1..] else spine + [e])
            == LastLines(LinesOf(spine) + [e.line], max)
  {
  }

  /** `spine` lists the elements from tail to head. */
  class LineRingBuffer {
    const maxCount: int
    var count: nat
    var tail: BufferElement?
    var head: BufferElement?
    ghost var spine: seq<BufferElement>
    ghost var Repr: set<BufferElement>

    ghost predicate Valid()
      reads this, Repr
    {
      Shape() && count == |spine| && (0 <= maxCount ==> count <= maxCount)
    }

    ghost predicate Shape()
      reads `tail, `head, `spine, `Repr, Repr
    {
      && (forall e | e in spine :: e in Repr)
      && (if spine == [] then tail == null && head == null else tail == spine[0] && head == spine[|spine| - 1])
      && Linked(spine)
    }

    static ghost predicate Linked(spine: seq<BufferElement>)
      reads spine
    {
      && (forall i, j | 0 <= i < j < |spine| :: spine[i] != spine[j])
      && (forall i | 0 <= i < |spine| - 1 :: spine[i].next == spine[i + 1])
      && (forall i | 0 < i < |spine| :: spine[i].previous == spine[i - 1])
      && (spine != [] ==> spine[|spine| - 1].next == null)
    }

    ghost function Contents(): (lines: seq<string>)
      reads `spine
    {
      LinesOf(spine)
    }

    constructor (maxCount: int)
      ensures Valid() && this.maxCount == maxCount && Contents() == []
    {
      this.maxCount := maxCount;
      count, tail, head := 0, null, null;
      spine, Repr := [], {};
    }

    method Lines() returns (out: seq<string>)
      requires Valid()
      ensures out == Contents()
    {
      if count == 0 {
        return [];
      }
      if count == 1 {
        return [head.line];
      }
      out := [];
      var current := tail;
      while current != null
        invariant |out| <= |spine| && out == Contents()[..|out|]
        invariant current == if |out| < |spine| then spine[|out|] else null
        decreases |spine| - |out|
      {
        out := out + [current.line];
        current := current.next;
      }
    }

    /** A full buffer drops its oldest line. */
    method Append(line: string)
      requires Valid()
      modifies this, Repr
      ensures Valid() && fresh(Repr - old(Repr))
      ensures Contents() == LastLines(old(Contents()) + [line], maxCount)
    {
      if maxCount == 0 {
        return;
      }
      Rotate(line);
      Rotated(old(spine), head, maxCount);
    }

    /** One more element at the head, and one less at the tail of a full buffer. */
    method Rotate(line: string)
      requires Valid() && maxCount != 0
      modifies this, Repr
      ensures Valid() && fresh(Repr - old(Repr)) && head != null && head.line == line
      ensures spine == if |old(spine)| == maxCount then (old(spine) + [head])[1..] else old(spine) + [head]
    {
      Push(line);
      if count == maxCount {
        DropTail();
      } else {
        count := count + 1;
      }
    }

    /** Links a new element after the head. */
    method Push(line: string)
      requires Shape()
      modifies `head, `tail, `spine, `Repr, Repr
      ensures Shape() && fresh(head) && head.line == line && spine == old(spine) + [head]
      ensures Repr == old(Repr) + {head}
    {
      var oldHead := head;
      head := new BufferElement(line, oldHead);
      if oldHead != null {
        oldHead.next := head;
      }
      spine, Repr := spine + [head], Repr + {head};
      if tail == null {
        tail := head;
      }
    }

    method DropTail()
      requires Shape() && 1 < |spine|
      modifies `tail, `spine
      ensures Shape() && spine == old(spine)[1..] && head == old(head)
    {
      assert tail.next == spine[1];
      tail := tail.next;
      spine := spine[1..];
    }

    /** The next line, after `before` and the first `i` of `lines`. */
    method AppendNext(ghost before: seq<string>, lines: seq<string>, i: nat)
      requires Valid() && i < |lines| && KeepsUpTo(Contents(), before, lines, i, maxCount)
      modifies this, Repr
      ensures Valid() && fresh(Repr - old(Repr)) && KeepsUpTo(Contents(), before, lines, i + 1, maxCount)
    {
      KeptNext(Contents(), before, lines, i, maxCount);
      Append(lines[i]);
    }

    /** Any number of lines, one after the other. */
    method AppendAll(lines: seq<string>)
      requires Valid()
      modifies this, Repr
      ensures Valid() && IsTail(Contents(), old(Contents()) + lines, maxCount)
    {
      ghost var before := Contents();
      KeptNone(before, lines, maxCount);
      for i := 0 to |lines|
        invariant Valid() && fresh(Repr - old(Repr)) && KeepsUpTo(Contents(), before, lines, i, maxCount)
      {
        AppendNext(before, lines, i);
      }
      KeptAll(Contents(), before, lines, maxCount);
      LastLinesAreTail(before + lines, maxCount);
    }
  }
}
