/** The text protocol between the block poller, which prints lines, and the console reader. */
module FireLines {
  import opened Options
  import opened Text
  import opened Decimal
  import opened Base64

  const FIRE := "FIRE "
  const INIT := "INIT "
  const BLOCK := "BLOCK "
  const TYPE_PREFIX := "type.googleapis.com/"

  /** A block with its time in nanoseconds since the epoch. */
  datatype FireBlock = FireBlock(num: uint64, id: string, parentNum: uint64, parentId: string,
                                 lib: uint64, nano: int64, typeUrl: string, payload: Bytes)

  // ---- the printer

  function Clean(url: string): string {
    RemoveFirst(url, TYPE_PREFIX)
  }

  function InitLine(cleanUrl: string): string {
    FIRE + INIT + Join(["3.0", cleanUrl], ' ')
  }

  function Fields(b: FireBlock): (fields: seq<string>)
    ensures |fields| == 7
  {
    [Show(b.num), b.id, Show(b.parentNum), b.parentId, Show(b.lib), ShowInt(b.nano), Encode(b.payload)]
  }

  function BlockLine(b: FireBlock): string {
    FIRE + BLOCK + Join(Fields(b), ' ')
  }

  /** Handle refuses a block of another type than the one announced. */
  function Handle(cleanUrl: string, b: FireBlock): Option<string> {
    if Clean(b.typeUrl) != cleanUrl then None else Some(BlockLine(b))
  }

  /** The whole output of a handler: one INIT line, then a line for every block. */
  function Printed(cleanUrl: string, blocks: seq<FireBlock>): seq<string> {
    [InitLine(cleanUrl)] + BlockLines(blocks)
  }

  function BlockLines(blocks: seq<FireBlock>): (lines: seq<string>)
    ensures |lines| == |blocks|
  {
    if blocks == [] then [] else [BlockLine(blocks[0])] + BlockLines(blocks[1..])
  }

  // ---- the reader

  datatype Context = Context(version: string, messageType: string)

  datatype Reading = Parsed(block: FireBlock) | Announced(context: Context) | Refused | Panics

  /** A 64-bit pattern as a signed number. */
  function ToInt64(u: uint64): int64 {
    if u < 0x8000_0000_0000_0000 then u else u - LIMIT64
  }

  /** A name with a slash is not accepted unless it starts with the usual prefix. */
  function MessageType(url: string): Option<string> {
    if HasPrefix(url, TYPE_PREFIX) then Some(url)
    else if '/' in url then None else Some(TYPE_PREFIX + url)
  }

  /** The version is kept even when it is refused. */
  function ReadInit(c: Context, line: string): (Context, Reading) {
    var chunks := SplitN(line, ' ', 2);
    if |chunks| != 2 then (c, Refused)
    else
      var c1 := c.(version := chunks[0]);
      if chunks[0] != "1.0" && chunks[0] != "3.0" then (c1, Refused)
      else if chunks[1] == "" then (c1, Refused)
      else match MessageType(chunks[1])
        case None => (c1, Panics)
        case Some(t) => (c1.(messageType := t), Announced(c1.(messageType := t)))
  }

  function ReadBlock(c: Context, line: string): Reading {
    if c.version == "" then Refused
    else
      var chunks := SplitN(line, ' ', 7);
      if |chunks| != 7 then Refused else ReadFields(c, chunks)
  }

  function ReadFields(c: Context, chunks: seq<string>): (r: Reading)
    requires |chunks| == 7
    ensures r.Parsed? || r.Refused?
    ensures r.Parsed? ==> r.block.id == chunks[1] && r.block.parentId == chunks[3] && r.block.typeUrl == c.messageType
  {
    var num := ParseUint(chunks[0], LIMIT64);
    var parentNum := ParseUint(chunks[2], LIMIT64);
    var lib := ParseUint(chunks[4], LIMIT64);
    var nano := ParseUint(chunks[5], LIMIT64);
    var payload := Decode(chunks[6]);
    if num.None? || parentNum.None? || lib.None? || nano.None? || payload.None? then Refused
    else Parsed(FireBlock(num.value, chunks[1], parentNum.value, chunks[3], lib.value,
                          ToInt64(nano.value), c.messageType, payload.value))
  }

  datatype Outcome = Delivered(block: FireBlock) | EndOfStream | Failed | Crashed

  predicate IsBlock(line: string) {
    HasPrefix(line, FIRE) && HasPrefix(line[|FIRE|..], BLOCK)
  }

  predicate IsInit(line: string) {
    HasPrefix(line, FIRE) && HasPrefix(line[|FIRE|..], INIT)
  }

  /** One call of ReadBlock: lines are consumed up to the next block or error. */
  function NextBlock(c: Context, lines: seq<string>): (r: (Context, seq<string>, Outcome))
    ensures |r.1| <= |lines| && (r.2.Delivered? ==> |r.1| < |lines|)
    decreases |lines|
  {
    if lines == [] then (c, [], EndOfStream)
    else if IsBlock(lines[0]) then
      match ReadBlock(c, lines[0][|FIRE| + |BLOCK|..])
      case Parsed(b) => (c, lines[1..], Delivered(b))
      case _ => (c, lines[1..], Failed)
    else if IsInit(lines[0]) then
      var (c1, reading) := ReadInit(c, lines[0][|FIRE| + |INIT|..]);
      match reading
      case Announced(_) => NextBlock(c1, lines[1..])
      case Panics => (c1, lines[1..], Crashed)
      case _ => (c1, lines[1..], Failed)
    else NextBlock(c, lines[1..])
  }

  /** Reading until the end of the stream or the first error. */
  function ReadAll(c: Context, lines: seq<string>): (seq<FireBlock>, Outcome)
    decreases |lines|
  {
    var (c1, rest, out) := NextBlock(c, lines);
    if out.Delivered? then
      var (blocks, end) := ReadAll(c1, rest);
      ([out.block] + blocks, end)
    else ([], out)
  }

  // ---- the reader undoes the printer

  /** What a printed block must satisfy to be read back under the announced type. */
  predicate Readable(b: FireBlock, messageType: string) {
    && ' ' !in b.id && ' ' !in b.parentId
    && 0 <= b.nano
    && b.typeUrl == messageType
  }

  lemma DigitsHaveNoSpace(n: nat)
    ensures ' ' !in Show(n)
  {
  }

  /** A printed block comes back unchanged exactly when it is readable. */
  lemma BlockRoundTrip(c: Context, b: FireBlock)
    requires c.version != ""
    ensures ReadBlock(c, Join(Fields(b), ' ')) == Parsed(b) <==> Readable(b, c.messageType)
  {
    var line := Join(Fields(b), ' ');
    var chunks := SplitN(line, ' ', 7);
    ChunksAreFree(line, ' ', 7);
    assert ReadBlock(c, line) == Parsed(b) ==> ' ' !in b.id && ' ' !in b.parentId;
    if ' ' !in b.id && ' ' !in b.parentId {
      FieldsAreSplit(b);
      FieldsRead(c, b);
    }
  }

  lemma FieldsAreSplit(b: FireBlock)
    requires ' ' !in b.id && ' ' !in b.parentId
    ensures SplitN(Join(Fields(b), ' '), ' ', 7) == Fields(b)
  {
    var f := Fields(b);
    DigitsHaveNoSpace(b.num);
    DigitsHaveNoSpace(b.parentNum);
    DigitsHaveNoSpace(b.lib);
    var n: int := b.nano;
    DigitsHaveNoSpace(if n < 0 then -n else n);
    assert ' ' !in f[5];
    SplitOfJoin(f, ' ');
  }

  lemma FieldsRead(c: Context, b: FireBlock)
    ensures ReadFields(c, Fields(b)) ==
            if b.nano < 0 then Refused else Parsed(b.(typeUrl := c.messageType))
  {
    ParseShown(b.num, LIMIT64);
    ParseShown(b.parentNum, LIMIT64);
    ParseShown(b.lib, LIMIT64);
    ParseShown(b.nano, LIMIT64);
    DecodeEncoded(b.payload);
  }

  predicate IsUint64(s: string) {
    s != "" && (forall c | c in s :: IsDigit(c)) && Value(s) < LIMIT64
  }

  predicate FieldsOk(f: seq<string>)
    requires |f| == 7
  {
    IsUint64(f[0]) && IsUint64(f[2]) && IsUint64(f[4]) && IsUint64(f[5]) && Decode(f[6]).Some?
  }

  /** The block that seven such fields stand for; the time is the number modulo 2^64. */
  predicate StandsFor(f: seq<string>, b: FireBlock, messageType: string)
    requires |f| == 7 && FieldsOk(f)
  {
    && b.num == Value(f[0]) && b.id == f[1] && b.parentNum == Value(f[2]) && b.parentId == f[3]
    && b.lib == Value(f[4]) && (b.nano == Value(f[5]) || b.nano == Value(f[5]) - LIMIT64)
    && b.typeUrl == messageType && Decode(f[6]) == Some(b.payload)
  }

  lemma FieldsAccepted(c: Context, f: seq<string>)
    requires |f| == 7
    ensures var r := ReadFields(c, f);
            (r.Parsed? <==> FieldsOk(f)) && (r.Parsed? ==> StandsFor(f, r.block, c.messageType))
  {
  }

  /**
   Which BLOCK lines are accepted: after an INIT line, those of seven fields, four of them 64-bit
   numbers and the last one base64.
   */
  lemma BlockAccepts(c: Context, f: seq<string>)
    requires |f| == 7 && forall i | 0 <= i < 6 :: ' ' !in f[i]
    ensures var r := ReadBlock(c, Join(f, ' '));
            && (r.Parsed? || r.Refused?)
            && (r.Parsed? <==> c.version != "" && FieldsOk(f))
            && (r.Parsed? ==> StandsFor(f, r.block, c.messageType))
  {
    SplitOfJoin(f, ' ');
    SplitIsRead(c, Join(f, ' '), f);
    FieldsAccepted(c, f);
  }

  lemma SplitIsRead(c: Context, line: string, f: seq<string>)
    requires |f| == 7 && SplitN(line, ' ', 7) == f
    ensures ReadBlock(c, line) == if c.version == "" then Refused else ReadFields(c, f)
  {
  }

  /** Any other line has fewer fields and is refused. */
  lemma ShortLineIsRefused(c: Context, line: string)
    ensures ReadBlock(c, line).Parsed? ==>
              exists f :: |f| == 7 && (forall i | 0 <= i < 6 :: ' ' !in f[i]) && line == Join(f, ' ')
    ensures !ReadBlock(c, line).Parsed? ==> ReadBlock(c, line) == Refused
  {
    var f := SplitN(line, ' ', 7);
    ChunksAreFree(line, ' ', 7);
    JoinOfSplit(line, ' ', 7);
  }

  /** The handler takes exactly the blocks whose type, less the first prefix in it, is the announced one. */
  lemma HandlerTakes(announced: string, b: FireBlock, i: nat)
    requires Occurs(b.typeUrl, TYPE_PREFIX, i) && forall j: nat | j < i :: !Occurs(b.typeUrl, TYPE_PREFIX, j)
    ensures Handle(announced, b)
            == if b.typeUrl[..i] + b.typeUrl[i + |TYPE_PREFIX|..] == announced then Some(BlockLine(b)) else None
  {
    RemovesTheFirst(b.typeUrl, TYPE_PREFIX, i);
  }

  lemma HandlerTakesPlain(announced: string, b: FireBlock)
    requires forall j: nat :: !Occurs(b.typeUrl, TYPE_PREFIX, j)
    ensures Handle(announced, b) == if b.typeUrl == announced then Some(BlockLine(b)) else None
  {
    NothingRemoved(b.typeUrl, TYPE_PREFIX);
  }

  /** A type announced by an INIT line is the block's own type exactly when it is the prefix and a plain name. */
  predicate Announceable(url: string) {
    HasPrefix(url, TYPE_PREFIX) && url[|TYPE_PREFIX|..] != "" && '/' !in url[|TYPE_PREFIX|..]
  }

  lemma InitIsSplit(t: string)
    ensures SplitN(Join(["3.0", t], ' '), ' ', 2) == ["3.0", t]
  {
    SplitOfJoin(["3.0", t], ' ');
  }

  lemma InitRoundTrip(c: Context, url: string)
    ensures ReadInit(c, Join(["3.0", Clean(url)], ' ')).1 == Announced(Context("3.0", url)) <==> Announceable(url)
  {
    var t := Clean(url);
    InitIsSplit(t);
    if Announceable(url) {
      var name := url[|TYPE_PREFIX|..];
      assert url == TYPE_PREFIX + name;
      RemovePrefix(TYPE_PREFIX, name);
      if HasPrefix(name, TYPE_PREFIX) {
        PrefixHas(name, TYPE_PREFIX, '/');
        assert false;
      }
    } else if MessageType(t) == Some(url) {
      if t == url {
        RemovedIsGone(url, TYPE_PREFIX);
        assert false;
      } else {
        assert url[|TYPE_PREFIX|..] == t;
      }
    }
  }

  /** Which INIT lines are accepted: two versions, and a name that is not empty and can be a type. */
  lemma InitAccepts(c: Context, version: string, t: string)
    requires ' ' !in version
    ensures var (c1, reading) := ReadInit(c, Join([version, t], ' '));
            && c1.version == version
            && (reading.Announced? <==> version in {"1.0", "3.0"} && t != "" && MessageType(t).Some?)
            && (reading.Announced? ==> reading.context == c1 == Context(version, MessageType(t).value))
            && (!reading.Announced? ==> c1.messageType == c.messageType)
  {
    SplitOfJoin([version, t], ' ');
  }

  // ---- a whole stream, with other output in between

  /** The lines the reader looks at, in order. */
  function Significant(lines: seq<string>): seq<string> {
    if lines == [] then []
    else (if IsBlock(lines[0]) || IsInit(lines[0]) then [lines[0]] else []) + Significant(lines[1..])
  }

  lemma BlockLineIsBlock(b: FireBlock)
    ensures IsBlock(BlockLine(b)) && BlockLine(b)[|FIRE| + |BLOCK|..] == Join(Fields(b), ' ')
  {
    var rest := Join(Fields(b), ' ');
    assert BlockLine(b)[|FIRE|..] == BLOCK + rest;
  }

  lemma InitLineIsInit(t: string)
    ensures IsInit(InitLine(t)) && !IsBlock(InitLine(t))
    ensures InitLine(t)[|FIRE| + |INIT|..] == Join(["3.0", t], ' ')
  {
    var rest := Join(["3.0", t], ' ');
    assert InitLine(t)[|FIRE|..] == INIT + rest;
    if HasPrefix(INIT + rest, BLOCK) {
      PrefixHas(INIT + rest, BLOCK, 'B');
      assert false;
    }
  }

  /** Lines of other programs change nothing. */
  lemma NoiseIsSkipped(c: Context, lines: seq<string>)
    requires lines != [] && !IsBlock(lines[0]) && !IsInit(lines[0])
    ensures ReadAll(c, lines) == ReadAll(c, lines[1..])
  {
    assert NextBlock(c, lines) == NextBlock(c, lines[1..]);
  }

  lemma BlockIsRead(c: Context, lines: seq<string>, b: FireBlock)
    requires lines != [] && lines[0] == BlockLine(b) && c.version != ""
    ensures var (rest, end) := ReadAll(c, lines[1..]);
            if Readable(b, c.messageType) then ReadAll(c, lines) == ([b] + rest, end)
            else ReadAll(c, lines).0 == [] || ReadAll(c, lines).0[0] != b
  {
    BlockLineIsBlock(b);
    BlockRoundTrip(c, b);
  }

  predicate AllReadable(blocks: seq<FireBlock>, messageType: string) {
    forall b | b in blocks :: Readable(b, messageType)
  }

  lemma FirstAndRest(c: Context, stream: seq<string>, b: FireBlock, rest: seq<FireBlock>, blocks: seq<FireBlock>)
    requires stream != [] && stream[0] == BlockLine(b) && c.version != "" && blocks == [b] + rest
    ensures ReadAll(c, stream) == (blocks, EndOfStream)
            <==> Readable(b, c.messageType) && ReadAll(c, stream[1..]) == (rest, EndOfStream)
    ensures AllReadable(blocks, c.messageType) <==> Readable(b, c.messageType) && AllReadable(rest, c.messageType)
  {
    BlockIsRead(c, stream, b);
    assert blocks[0] == b && blocks[1..] == rest;
    assert ([b] + ReadAll(c, stream[1..]).0)[1..] == ReadAll(c, stream[1..]).0;
  }

  lemma {:induction false} RestRoundTrip(c: Context, stream: seq<string>, blocks: seq<FireBlock>)
    requires c.version != "" && Significant(stream) == BlockLines(blocks)
    ensures ReadAll(c, stream) == (blocks, EndOfStream) <==> AllReadable(blocks, c.messageType)
    decreases |stream|
  {
    if stream == [] {
      assert blocks == [];
    } else if !IsBlock(stream[0]) && !IsInit(stream[0]) {
      NoiseIsSkipped(c, stream);
      RestRoundTrip(c, stream[1..], blocks);
    } else {
      HeadAndTail(stream, blocks);
      RestRoundTrip(c, stream[1..], blocks[1..]);
      FirstAndRest(c, stream, blocks[0], blocks[1..], blocks);
    }
  }

  lemma HeadAndTail(stream: seq<string>, blocks: seq<FireBlock>)
    requires stream != [] && (IsBlock(stream[0]) || IsInit(stream[0])) && Significant(stream) == BlockLines(blocks)
    ensures blocks != [] && stream[0] == BlockLine(blocks[0]) && Significant(stream[1..]) == BlockLines(blocks[1..])
  {
    assert Significant(stream)[1..] == Significant(stream[1..]);
  }

  lemma BlockIsNext(c: Context, lines: seq<string>)
    requires lines != [] && IsBlock(lines[0])
    ensures var reading := ReadBlock(c, lines[0][|FIRE| + |BLOCK|..]);
            NextBlock(c, lines) == (c, lines[1..], if reading.Parsed? then Delivered(reading.block) else Failed)
  {
  }

  lemma NoiseIsNext(c: Context, lines: seq<string>)
    requires lines != [] && !IsBlock(lines[0]) && !IsInit(lines[0])
    ensures NextBlock(c, lines) == NextBlock(c, lines[1..])
  {
  }

  /** An INIT line only sets the context, or ends the reading. */
  lemma InitIsNext(c: Context, lines: seq<string>)
    requires lines != [] && IsInit(lines[0]) && !IsBlock(lines[0])
    ensures var (c1, reading) := ReadInit(c, lines[0][|FIRE| + |INIT|..]);
            NextBlock(c, lines) == if reading.Announced? then NextBlock(c1, lines[1..])
                                   else (c1, lines[1..], if reading.Panics? then Crashed else Failed)
  {
  }

  lemma InitIsRead(c: Context, lines: seq<string>, t: string)
    requires lines != [] && lines[0] == InitLine(t)
    ensures if t != "" && MessageType(t).Some? then
              ReadAll(c, lines) == ReadAll(Context("3.0", MessageType(t).value), lines[1..])
            else ReadAll(c, lines).0 == [] && !ReadAll(c, lines).1.EndOfStream?
  {
    InitLineIsInit(t);
    InitIsNext(c, lines);
    InitAccepts(c, "3.0", t);
  }

  /**
   The reader returns exactly the blocks a handler printed, in order, whatever other lines
   come in between, if and only if the announced type can be read and every block is readable.
   */
  lemma {:induction false} StreamRoundTrip(stream: seq<string>, t: string, blocks: seq<FireBlock>)
    requires Significant(stream) == Printed(t, blocks)
    ensures ReadAll(Context("", ""), stream) == (blocks, EndOfStream) <==>
            t != "" && MessageType(t).Some? && AllReadable(blocks, MessageType(t).value)
    decreases |stream|
  {
    var c := Context("", "");
    if !IsBlock(stream[0]) && !IsInit(stream[0]) {
      NoiseIsSkipped(c, stream);
      assert Significant(stream[1..]) == Printed(t, blocks);
      StreamRoundTrip(stream[1..], t, blocks);
    } else {
      assert Significant(stream)[1..] == Significant(stream[1..]);
      assert Printed(t, blocks)[1..] == BlockLines(blocks);
      InitIsRead(c, stream, t);
      if t != "" && MessageType(t).Some? {
        RestRoundTrip(Context("3.0", MessageType(t).value), stream[1..], blocks);
      }
    }
  }

  /** Without an INIT line before it, a BLOCK line ends the reading, and nothing is delivered. */
  lemma {:induction false} BlockBeforeInit(c: Context, lines: seq<string>)
    requires c.version == "" && Significant(lines) != [] && IsBlock(Significant(lines)[0])
    ensures NextBlock(c, lines).0 == c && NextBlock(c, lines).2 == Failed && ReadAll(c, lines) == ([], Failed)
    decreases |lines|
  {
    if !IsBlock(lines[0]) && !IsInit(lines[0]) {
      assert Significant(lines) == Significant(lines[1..]);
      BlockBeforeInit(c, lines[1..]);
    }
  }

  /** The blocks a handler accepted under its own type come back with their type unless that has no prefix. */
  lemma HandledStream(stream: seq<string>, url: string, blocks: seq<FireBlock>)
    requires Significant(stream) == Printed(Clean(url), blocks)
    requires Announceable(url) && forall b | b in blocks :: b.typeUrl == url && ' ' !in b.id && ' ' !in b.parentId
    ensures forall b | b in blocks :: Handle(Clean(url), b) == Some(BlockLine(b))
    ensures ReadAll(Context("", ""), stream) == (blocks, EndOfStream) <==> forall b | b in blocks :: 0 <= b.nano
  {
    InitRoundTrip(Context("", ""), url);
    InitIsSplit(Clean(url));
    StreamRoundTrip(stream, Clean(url), blocks);
    assert forall b | b in blocks :: Readable(b, url) <==> 0 <= b.nano;
  }

  // ---- the reader as an object

  datatype Ref = Ref(id: string, num: uint64)

  class ConsoleReader {
    var lines: seq<string>
    var version: string
    var messageType: string
    var lastBlock: Option<Ref>
    var lastParent: Option<Ref>
    var lib: uint64
    var closed: bool

    constructor (lines: seq<string>)
      ensures this.lines == lines && Here() == Context("", "") && !closed && lastBlock.None?
    {
      this.lines := lines;
      version, messageType := "", "";
      lastBlock, lastParent, lib, closed := None, None, 0, false;
    }

    function Here(): Context
      reads this
    {
      Context(version, messageType)
    }

    /** Consumes lines up to the next block, the end, or an error. */
    method Next() returns (out: Outcome)
      modifies this
      ensures (Here(), lines, out) == NextBlock(old(Here()), old(lines))
      ensures out.Delivered? ==>
                && lastBlock == Some(Ref(out.block.id, out.block.num)) && lib == out.block.lib
                && lastParent == Some(Ref(out.block.parentId, out.block.parentNum))
      ensures !out.Delivered? ==> lastBlock == old(lastBlock) && lastParent == old(lastParent) && lib == old(lib)
      ensures closed == (old(closed) || out.EndOfStream?)
    {
      while lines != []
        invariant NextBlock(Here(), lines) == NextBlock(old(Here()), old(lines))
        invariant lastBlock == old(lastBlock) && lastParent == old(lastParent) && lib == old(lib)
        invariant closed == old(closed)
        decreases |lines|
      {
        ghost var here, all := Here(), lines;
        var line := lines[0];
        lines := lines[1..];
        if IsBlock(line) {
          BlockIsNext(here, all);
          var reading := ReadBlock(Here(), line[|FIRE| + |BLOCK|..]);
          if !reading.Parsed? {
            return Failed;
          }
          var b := reading.block;
          lastBlock, lastParent, lib := Some(Ref(b.id, b.num)), Some(Ref(b.parentId, b.parentNum)), b.lib;
          return Delivered(b);
        } else if IsInit(line) {
          InitIsNext(here, all);
          var reading := AcceptInit(line[|FIRE| + |INIT|..]);
          if reading.Panics? {
            return Crashed;
          }
          if !reading.Announced? {
            return Failed;
          }
        } else {
          NoiseIsNext(here, all);
        }
      }
      closed := true;
      out := EndOfStream;
    }

    /** Sets the protocol version, then the message type if both are supported. */
    method AcceptInit(line: string) returns (reading: Reading)
      modifies `version, `messageType
      ensures (Here(), reading) == ReadInit(old(Here()), line)
    {
      var chunks := SplitN(line, ' ', 2);
      if |chunks| != 2 {
        return Refused;
      }
      version := chunks[0];
      if (version != "1.0" && version != "3.0") || chunks[1] == "" {
        return Refused;
      }
      var t := MessageType(chunks[1]);
      if t.None? {
        return Panics;
      }
      messageType := t.value;
      reading := Announced(Here());
    }
  }
}
