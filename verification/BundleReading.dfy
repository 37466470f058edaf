/** The reader that turns one-block files into the byte stream of a merged bundle. */
module BundleReading {
  import opened Options
  import opened Base64

  /** Why a read returns no bytes: all files are done, or a file is shorter than the header. */
  datatype End = Eof | Corrupt

  /** `queue` holds the downloaded files still to come; no buffer is a nil one. */
  datatype State = State(buffer: Option<Bytes>, offset: nat, queue: seq<Bytes>)

  predicate Valid(s: State) {
    s.buffer.Some? ==> s.offset <= |s.buffer.value|
  }

  predicate Bad(data: Bytes, header: nat) {
    |data| == 0 || |data| < header
  }

  /** The bodies of the files up to the first bad one, and how the stream then ends. */
  function Stream(files: seq<Bytes>, header: nat): (Bytes, End) {
    if files == [] then ([], Eof)
    else if Bad(files[0], header) then ([], Corrupt)
    else
      var (rest, end) := Stream(files[1..], header);
      (files[0][header..] + rest, end)
  }

  function Unread(s: State): Bytes
    requires Valid(s)
  {
    if s.buffer.Some? then s.buffer.value[s.offset..] else []
  }

  /** All that is still to be read. */
  function Rest(s: State, header: nat): (Bytes, End)
    requires Valid(s)
  {
    var (bytes, end) := Stream(s.queue, header);
    (Unread(s) + bytes, end)
  }

  /** Takes the next file without its header. */
  function Fill(s: State, header: nat): (r: (State, Option<End>))
    requires s.buffer.None?
    ensures Valid(r.0) && (r.1.None? ==> r.0.buffer.Some?)
  {
    if s.queue == [] then (s, Some(Eof))
    else if Bad(s.queue[0], header) then (s.(queue := s.queue[1..]), Some(Corrupt))
    else (State(Some(s.queue[0][header..]), 0, s.queue[1..]), None)
  }

  /** Copies what fits out of the buffer, which is dropped once it is used up. */
  function Copy(s: State, size: nat): (r: (State, Bytes))
    requires Valid(s) && s.buffer.Some?
    ensures Valid(r.0) && |r.1| <= size && (|r.1| < size ==> r.0.buffer.None?)
  {
    var left := s.buffer.value[s.offset..];
    var n := if size < |left| then size else |left|;
    var s1 := s.(offset := s.offset + n);
    (if s1.offset >= |s.buffer.value| then s1.(buffer := None) else s1, left[..n])
  }

  /** One call of Read with a buffer of `size` bytes, which stops short only at the end of a file. */
  function ReadStep(s: State, size: nat, header: nat): (r: (State, Bytes, Option<End>))
    requires Valid(s)
    ensures Valid(r.0) && |r.1| <= size && (r.2.None? && |r.1| < size ==> r.0.buffer.None?)
  {
    var (s1, end) := if s.buffer.None? then Fill(s, header) else (s, None);
    if end.Some? then (s1, [], end)
    else
      var (s2, out) := Copy(s1, size);
      (s2, out, None)
  }

  /** Calls of Read with the given buffer sizes, up to the first one that ends. */
  function ReadAll(s: State, sizes: seq<nat>, header: nat): (Bytes, Option<End>)
    requires Valid(s)
    decreases |sizes|
  {
    if sizes == [] then ([], None)
    else
      var (s1, out, end) := ReadStep(s, sizes[0], header);
      if end.Some? then ([], end)
      else
        var (more, end1) := ReadAll(s1, sizes[1..], header);
        (out + more, end1)
  }

  lemma CopyKeepsRest(s: State, size: nat, header: nat)
    requires Valid(s) && s.buffer.Some?
    ensures var (s1, out) := Copy(s, size); out + Unread(s1) == Unread(s) && s1.queue == s.queue
  {
  }

  lemma FillKeepsRest(s: State, header: nat)
    requires s.buffer.None?
    ensures var (s1, end) := Fill(s, header);
            Rest(s, header) == if end.Some? then ([], end.value) else Rest(s1, header)
  {
    var (s1, end) := Fill(s, header);
    assert Rest(s, header) == Stream(s.queue, header) by {
      assert [] + Stream(s.queue, header).0 == Stream(s.queue, header).0;
    }
    if end.None? {
      assert s1.buffer == Some(s.queue[0][header..]) && s1.offset == 0 && s1.queue == s.queue[1..];
      assert Unread(s1) == s.queue[0][header..];
    }
  }

  lemma CopyThenRest(out: Bytes, left: Bytes, bytes: Bytes)
    ensures (out + left) + bytes == out + (left + bytes)
  {
  }

  /** A read takes its bytes off the front of what is left, and ends only when nothing is. */
  lemma StepKeepsRest(s: State, size: nat, header: nat)
    requires Valid(s)
    ensures var (s1, out, end) := ReadStep(s, size, header);
            if end.Some? then out == [] && Rest(s, header) == ([], end.value)
            else Rest(s, header) == (out + Rest(s1, header).0, Rest(s1, header).1)
  {
    if s.buffer.None? {
      FillKeepsRest(s, header);
    }
    var (s0, end) := if s.buffer.None? then Fill(s, header) else (s, None);
    if end.None? {
      CopyKeepsRest(s0, size, header);
      var (s1, out) := Copy(s0, size);
      CopyThenRest(out, Unread(s1), Stream(s0.queue, header).0);
    }
  }

  /** A read that ends on a bad file drops it, so the next read goes on after it; one at the end changes nothing. */
  lemma EndOfRead(s: State, size: nat, header: nat)
    requires Valid(s) && ReadStep(s, size, header).2.Some?
    ensures s.buffer.None?
    ensures var (s1, out, end) := ReadStep(s, size, header);
            if end.value.Eof? then s.queue == [] && s1 == s
            else s.queue != [] && s1 == s.(queue := s.queue[1..]) && (s.queue[0] == [] || |s.queue[0]| < header)
  {
  }

  /** Whatever the buffer sizes, the bytes read are the same. */
  lemma {:induction false} ReadsTheStream(s: State, sizes: seq<nat>, header: nat)
    requires Valid(s)
    ensures var (out, end) := ReadAll(s, sizes, header);
            && out <= Rest(s, header).0
            && (end.Some? ==> (out, end.value) == Rest(s, header))
    decreases |sizes|
  {
    if sizes != [] {
      var (s1, out, end) := ReadStep(s, sizes[0], header);
      StepKeepsRest(s, sizes[0], header);
      if end.None? {
        ReadsTheStream(s1, sizes[1..], header);
        PrefixAfter(out, ReadAll(s1, sizes[1..], header).0, Rest(s1, header).0);
      }
    }
  }

  lemma PrefixAfter(a: Bytes, b: Bytes, c: Bytes)
    requires b <= c
    ensures a + b <= a + c
  {
    assert a + c == (a + b) + c[|b|..];
  }

  // ---- reading comes to an end

  function Weight(files: seq<Bytes>): nat {
    if files == [] then 0 else 1 + |files[0]| + Weight(files[1..])
  }

  function Work(s: State): nat
    requires Valid(s)
  {
    (if s.buffer.Some? then 1 + |s.buffer.value| - s.offset else 0) + Weight(s.queue)
  }

  lemma StepWorks(s: State, size: nat, header: nat)
    requires Valid(s) && 0 < size && ReadStep(s, size, header).2.None?
    ensures Work(ReadStep(s, size, header).0) < Work(s)
  {
    var s0 := if s.buffer.None? then Fill(s, header).0 else s;
    assert Work(s0) <= Work(s);
    assert Work(Copy(s0, size).0) < Work(s0);
  }

  lemma {:induction false} ReadingEnds(s: State, sizes: seq<nat>, header: nat)
    requires Valid(s) && Work(s) < |sizes| && forall n | n in sizes :: 0 < n
    ensures ReadAll(s, sizes, header).1.Some?
    decreases |sizes|
  {
    var (s1, out, end) := ReadStep(s, sizes[0], header);
    assert sizes[0] in sizes;
    if end.None? {
      StepWorks(s, sizes[0], header);
      assert forall n | n in sizes[1..] :: n in sizes;
      ReadingEnds(s1, sizes[1..], header);
    }
  }

  // ---- a whole bundle

  /** The reader starts with the header of one of the files, cut off at its length. */
  function Start(any: Bytes, files: seq<Bytes>, header: nat): (r: Option<State>)
    ensures (r.Some? <==> header <= |any|) && (r.Some? ==> Valid(r.value))
  {
    if |any| < header then None else Some(State(Some(any[..header]), 0, files))
  }

  function Bodies(files: seq<Bytes>, header: nat): Bytes
    requires forall f | f in files :: header <= |f|
  {
    if files == [] then [] else files[0][header..] + Bodies(files[1..], header)
  }

  lemma {:induction false} GoodFilesStream(files: seq<Bytes>, header: nat)
    ensures Stream(files, header).1.Eof? <==> forall f | f in files :: !Bad(f, header)
    ensures (forall f | f in files :: !Bad(f, header)) ==> Stream(files, header).0 == Bodies(files, header)
  {
    if files != [] {
      GoodFilesStream(files[1..], header);
      assert files == [files[0]] + files[1..];
    }
  }

  /**
   A reader that is called often enough returns the header once and then every file's body, in
   order, if no file is empty or shorter than the header; such a file ends the stream with an error.
   */
  lemma BundleIsRead(any: Bytes, files: seq<Bytes>, header: nat, sizes: seq<nat>)
    requires header <= |any| && (forall n | n in sizes :: 0 < n)
    requires Work(Start(any, files, header).value) < |sizes|
    ensures var (out, end) := ReadAll(Start(any, files, header).value, sizes, header);
            && end.Some?
            && (end.value.Eof? <==> forall f | f in files :: f != [] && header <= |f|)
            && (end.value.Eof? ==> out == any[..header] + Bodies(files, header))
  {
    var s := Start(any, files, header).value;
    ReadingEnds(s, sizes, header);
    ReadsTheStream(s, sizes, header);
    GoodFilesStream(files, header);
    assert forall f | f in files :: Bad(f, header) <==> f == [] || |f| < header;
    assert any[..header][0..] == any[..header];
  }

  // ---- the reader as an object

  class BundleReader {
    const headerLength: nat
    var readBuffer: Option<Bytes>
    var readBufferOffset: nat
    var incoming: seq<Bytes>

    function Here(): State
      reads this
    {
      State(readBuffer, readBufferOffset, incoming)
    }

    constructor (any: Bytes, files: seq<Bytes>, header: nat)
      requires header <= |any|
      ensures headerLength == header && Start(any, files, header) == Some(Here())
    {
      headerLength := header;
      readBuffer, readBufferOffset, incoming := Some(any[..header]), 0, files;
    }

    /** Fills the front of `p`; its other bytes stay. */
    method Read(p: array<byte>) returns (n: nat, end: Option<End>)
      requires Valid(Here())
      modifies this, p
      ensures n <= p.Length && p[n..] == old(p[n..])
      ensures (Here(), p[..n], end) == ReadStep(old(Here()), p.Length, headerLength)
    {
      n := 0;
      if readBuffer.None? {
        end := FillBuffer();
        if end.Some? {
          return;
        }
      }
      end := None;
      var left := readBuffer.value[readBufferOffset..];
      n := if p.Length < |left| then p.Length else |left|;
      forall i | 0 <= i < n {
        p[i] := left[i];
      }
      assert p[..n] == left[..n];
      readBufferOffset := readBufferOffset + n;
      if readBufferOffset >= |readBuffer.value| {
        readBuffer := None;
      }
    }

    method FillBuffer() returns (end: Option<End>)
      requires readBuffer.None?
      modifies this
      ensures (Here(), end) == Fill(old(Here()), headerLength)
    {
      if incoming == [] {
        return Some(Eof);
      }
      var data := incoming[0];
      incoming := incoming[1..];
      if |data| == 0 || |data| < headerLength {
        return Some(Corrupt);
      }
      readBuffer, readBufferOffset := Some(data[headerLength..]), 0;
      end := None;
    }
  }
}
