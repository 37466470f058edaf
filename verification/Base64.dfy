/** Base64 with padding, as in section 4 of RFC 4648, with the liberties the Go decoder takes. */
module Base64 {
  import opened Options

  type byte = x: int | 0 <= x < 256

  type Bytes = seq<byte>

  function Symbol(v: nat): (c: char)
    requires v < 64
    ensures SymbolValue(c) == Some(v) && c != '=' && c != '\r' && c != '\n'
  {
    if v < 26 then ('A' as nat + v) as char
    else if v < 52 then ('a' as nat + (v - 26)) as char
    else if v < 62 then ('0' as nat + (v - 52)) as char
    else if v == 62 then '+' else '/'
  }

  function SymbolValue(c: char): (r: Option<nat>)
    ensures r.Some? ==> r.value < 64
  {
    if 'A' <= c <= 'Z' then Some(c as nat - 'A' as nat)
    else if 'a' <= c <= 'z' then Some(c as nat - 'a' as nat + 26)
    else if '0' <= c <= '9' then Some(c as nat - '0' as nat + 52)
    else if c == '+' then Some(62) else if c == '/' then Some(63) else None
  }

  function Group(a: byte, b: byte, c: byte): (s: string)
    ensures |s| == 4
  {
    [Symbol(a / 4), Symbol(a % 4 * 16 + b / 16), Symbol(b % 16 * 4 + c / 64), Symbol(c % 64)]
  }

  function LastOne(a: byte): (s: string)
    ensures |s| == 4
  {
    [Symbol(a / 4), Symbol(a % 4 * 16), '=', '=']
  }

  function LastTwo(a: byte, b: byte): (s: string)
    ensures |s| == 4
  {
    [Symbol(a / 4), Symbol(a % 4 * 16 + b / 16), Symbol(b % 16 * 4), '=']
  }

  lemma BitsInOrder(a: byte, b: byte, c: byte)
    ensures a / 4 * 0x40000 + (a % 4 * 16 + b / 16) * 0x1000 + (b % 16 * 4 + c / 64) * 0x40 + c % 64
            == a * 0x10000 + b * 0x100 + c
  {
    var a1, a0, b1, b0, c1, c0 := a / 4, a % 4, b / 16, b % 16, c / 64, c % 64;
    assert a == 4 * a1 + a0 && b == 16 * b1 + b0 && c == 64 * c1 + c0;
  }

  /** Four symbols stand for three bytes: read as one number, the highest first, they are the same. */
  lemma GroupValue(a: byte, b: byte, c: byte)
    ensures var g := Group(a, b, c);
            && (forall i | 0 <= i < 4 :: SymbolValue(g[i]).Some?)
            && SymbolValue(g[0]).value * 0x40000 + SymbolValue(g[1]).value * 0x1000
               + SymbolValue(g[2]).value * 0x40 + SymbolValue(g[3]).value == a * 0x10000 + b * 0x100 + c
  {
    BitsInOrder(a, b, c);
  }

  /** Three bytes as four symbols; `=` stands for the missing ones of the last group. */
  function Encode(x: Bytes): string {
    if x == [] then ""
    else if |x| == 1 then LastOne(x[0])
    else if |x| == 2 then LastTwo(x[0], x[1])
    else Group(x[0], x[1], x[2]) + Encode(x[3..])
  }

  function WithoutLineBreaks(s: string): string {
    if s == "" then ""
    else (if s[0] == '\r' || s[0] == '\n' then "" else [s[0]]) + WithoutLineBreaks(s[1..])
  }

  /** Groups of four; padding ends the text, and its unused bits may be anything. */
  function DecodeGroups(s: string): Option<Bytes> {
    if s == "" then Some([])
    else if |s| < 4 then None
    else
      var v0, v1, v2, v3 := SymbolValue(s[0]), SymbolValue(s[1]), SymbolValue(s[2]), SymbolValue(s[3]);
      if v0.None? || v1.None? then None
      else
        var b0: byte := v0.value * 4 + v1.value / 16;
        if s[2] == '=' then if s[3..] == "=" then Some([b0]) else None
        else if v2.None? then None
        else
          var b1: byte := v1.value % 16 * 16 + v2.value / 4;
          if s[3] == '=' then if |s| == 4 then Some([b0, b1]) else None
          else if v3.None? then None
          else
            var b2: byte := v2.value % 4 * 64 + v3.value;
            match DecodeGroups(s[4..])
            case None => None
            case Some(rest) => Some([b0, b1, b2] + rest)
  }

  /** Line breaks are skipped wherever they are. */
  function Decode(s: string): Option<Bytes> {
    DecodeGroups(WithoutLineBreaks(s))
  }

  lemma {:induction false} NoLineBreaks(s: string)
    requires forall c | c in s :: c != '\r' && c != '\n'
    ensures WithoutLineBreaks(s) == s
  {
    if s != "" {
      assert s[0] in s && s == [s[0]] + s[1..];
      assert forall c | c in s[1..] :: c in s;
      NoLineBreaks(s[1..]);
    }
  }

  /** Whole groups of symbols, with one or two padding characters only at the very end. */
  predicate WellFormed(s: string) {
    s == ""
    || (|s| >= 4 && SymbolValue(s[0]).Some? && SymbolValue(s[1]).Some?
        && if |s| == 4 then
             s[2..] == "==" || (SymbolValue(s[2]).Some? && (s[3] == '=' || SymbolValue(s[3]).Some?))
           else SymbolValue(s[2]).Some? && SymbolValue(s[3]).Some? && WellFormed(s[4..]))
  }

  /** Exactly the well-formed texts decode. */
  lemma {:induction false} DecodesWellFormed(s: string)
    ensures DecodeGroups(s).Some? <==> WellFormed(s)
  {
    if |s| >= 4 {
      DecodesWellFormed(s[4..]);
      assert s[2..] == [s[2]] + s[3..];
      assert |s| == 4 ==> s[2..] == [s[2], s[3]] && s[3..] == [s[3]] && s[4..] == "";
    }
  }

  /** A line break in the middle of a text changes nothing. */
  lemma LineBreakIsSkipped(a: string, b: string, c: char)
    requires c == '\r' || c == '\n'
    ensures Decode(a + [c] + b) == Decode(a + b)
  {
    BreakSkipped(a, b, c);
  }

  lemma {:induction false} BreakSkipped(a: string, b: string, c: char)
    requires c == '\r' || c == '\n'
    ensures WithoutLineBreaks(a + [c] + b) == WithoutLineBreaks(a + b)
  {
    if a == "" {
      assert a + [c] + b == [c] + b && a + b == b;
      assert ([c] + b)[1..] == b;
    } else {
      assert (a + [c] + b)[1..] == a[1..] + [c] + b && (a + b)[1..] == a[1..] + b;
      BreakSkipped(a[1..], b, c);
    }
  }

  lemma {:induction false} EncodedSymbols(x: Bytes)
    ensures forall c | c in Encode(x) :: c == '=' || SymbolValue(c).Some?
  {
    if |x| > 2 {
      EncodedSymbols(x[3..]);
    }
  }

  lemma BitsRejoined(a: byte, b: byte, c: byte)
    ensures a / 4 * 4 + (a % 4 * 16 + b / 16) / 16 == a
    ensures (a % 4 * 16 + b / 16) % 16 * 16 + (b % 16 * 4 + c / 64) / 4 == b
    ensures (b % 16 * 4 + c / 64) % 4 * 64 + c % 64 == c
  {
  }

  lemma FullGroup(v0: nat, v1: nat, v2: nat, v3: nat, rest: string, a: byte, b: byte, c: byte, x: Bytes)
    requires v0 < 64 && v1 < 64 && v2 < 64 && v3 < 64 && DecodeGroups(rest) == Some(x)
    requires v0 * 4 + v1 / 16 == a && v1 % 16 * 16 + v2 / 4 == b && v2 % 4 * 64 + v3 == c
    ensures DecodeGroups([Symbol(v0), Symbol(v1), Symbol(v2), Symbol(v3)] + rest) == Some([a, b, c] + x)
  {
    assert ([Symbol(v0), Symbol(v1), Symbol(v2), Symbol(v3)] + rest)[4..] == rest;
  }

  lemma GroupOfTwo(v0: nat, v1: nat, v2: nat, a: byte, b: byte)
    requires v0 < 64 && v1 < 64 && v2 < 64
    requires v0 * 4 + v1 / 16 == a && v1 % 16 * 16 + v2 / 4 == b
    ensures DecodeGroups([Symbol(v0), Symbol(v1), Symbol(v2), '=']) == Some([a, b])
  {
  }

  lemma GroupOfOne(v0: nat, v1: nat, a: byte)
    requires v0 < 64 && v1 < 64 && v0 * 4 + v1 / 16 == a
    ensures DecodeGroups([Symbol(v0), Symbol(v1), '=', '=']) == Some([a])
  {
    assert [Symbol(v0), Symbol(v1), '=', '='][3..] == "=";
  }

  lemma OneUndone(a: byte)
    ensures DecodeGroups(LastOne(a)) == Some([a])
  {
    BitsRejoined(a, 0, 0);
    GroupOfOne(a / 4, a % 4 * 16, a);
  }

  lemma TwoUndone(a: byte, b: byte)
    ensures DecodeGroups(LastTwo(a, b)) == Some([a, b])
  {
    BitsRejoined(a, b, 0);
    GroupOfTwo(a / 4, a % 4 * 16 + b / 16, b % 16 * 4, a, b);
  }

  lemma EncodeGroup(a: byte, b: byte, c: byte, x: Bytes)
    ensures Encode([a, b, c] + x) == Group(a, b, c) + Encode(x)
  {
    assert ([a, b, c] + x)[3..] == x;
  }

  lemma GroupDecoded(a: byte, b: byte, c: byte, rest: string, x: Bytes)
    requires DecodeGroups(rest) == Some(x)
    ensures DecodeGroups(Group(a, b, c) + rest) == Some([a, b, c] + x)
  {
    BitsRejoined(a, b, c);
    FullGroup(a / 4, a % 4 * 16 + b / 16, b % 16 * 4 + c / 64, c % 64, rest, a, b, c, x);
  }

  lemma GroupUndone(a: byte, b: byte, c: byte, x: Bytes)
    requires DecodeGroups(Encode(x)) == Some(x)
    ensures DecodeGroups(Encode([a, b, c] + x)) == Some([a, b, c] + x)
  {
    EncodeGroup(a, b, c, x);
    GroupDecoded(a, b, c, Encode(x), x);
  }

  lemma {:induction false} GroupsUndone(x: Bytes)
    ensures DecodeGroups(Encode(x)) == Some(x)
  {
    if |x| == 1 {
      OneUndone(x[0]);
      assert x == [x[0]];
    } else if |x| == 2 {
      TwoUndone(x[0], x[1]);
      assert x == [x[0], x[1]];
    } else if |x| > 2 {
      GroupsUndone(x[3..]);
      GroupUndone(x[0], x[1], x[2], x[3..]);
      assert x == [x[0], x[1], x[2]] + x[3..];
    }
  }

  /** Decoding undoes encoding, for every byte string. */
  lemma DecodeEncoded(x: Bytes)
    ensures Decode(Encode(x)) == Some(x)
  {
    EncodedSymbols(x);
    NoLineBreaks(Encode(x));
    GroupsUndone(x);
  }
}
