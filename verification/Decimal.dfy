/** Decimal text: printing with %d and %010d, and parsing with a bound on the value. */
module Decimal {
  import opened Options

  const LIMIT32: nat := 0x1_0000_0000
  const LIMIT64: nat := 0x1_0000_0000_0000_0000

  type uint64 = x: nat | x < LIMIT64

  type int64 = x: int | -0x8000_0000_0000_0000 <= x < 0x8000_0000_0000_0000

  predicate IsDigit(c: char) {
    '0' <= c <= '9'
  }

  function Digit(d: nat): (c: char)
    requires d < 10
    ensures IsDigit(c) && c as nat == '0' as nat + d
  {
    ('0' as nat + d) as char
  }

  function Show(n: nat): (s: string)
    ensures s != "" && forall c | c in s :: IsDigit(c)
  {
    if n < 10 then [Digit(n)] else Show(n / 10) + [Digit(n % 10)]
  }

  function ShowInt(n: int): string {
    if n < 0 then "-" + Show(-n) else Show(n)
  }

  function Value(s: string): nat
    requires forall c | c in s :: IsDigit(c)
  {
    if s == "" then 0
    else
      assert IsDigit(s[|s| - 1]);
      Value(s[..|s| - 1]) * 10 + (s[|s| - 1] as nat - '0' as nat)
  }

  /** Digits only, and below the bound of the integer type asked for. */
  function ParseUint(s: string, limit: nat): (r: Option<nat>)
    ensures r.Some? <==> s != "" && (forall c | c in s :: IsDigit(c)) && Value(s) < limit
    ensures r.Some? ==> r.value == Value(s) < limit
  {
    if s == "" || exists c | c in s :: !IsDigit(c) then None
    else if Value(s) < limit then Some(Value(s)) else None
  }

  /** Digit by digit, the most significant first. */
  lemma ValueOneMore(s: string, d: nat)
    requires d < 10 && forall c | c in s :: IsDigit(c)
    ensures (forall c | c in s + [Digit(d)] :: IsDigit(c)) && Value(s + [Digit(d)]) == 10 * Value(s) + d
    ensures Value("") == 0
  {
    assert (s + [Digit(d)])[..|s|] == s;
  }

  lemma {:induction false} ValueOfShow(n: nat)
    ensures Value(Show(n)) == n
  {
    if n >= 10 {
      ValueOfShow(n / 10);
      var s := Show(n / 10) + [Digit(n % 10)];
      assert s[..|s| - 1] == Show(n / 10);
    }
  }

  /** What is printed is read back, if it fits the type asked for; a sign is never read. */
  lemma ParseShown(n: int, limit: nat)
    ensures ParseUint(ShowInt(n), limit) == if 0 <= n < limit then Some(n) else None
  {
    if n < 0 {
      assert ShowInt(n)[0] == '-';
      assert '-' in ShowInt(n);
    } else {
      ValueOfShow(n);
    }
  }

  function Pow10(k: nat): (p: nat)
    ensures 0 < p
  {
    if k == 0 then 1 else 10 * Pow10(k - 1)
  }

  function Zeros(k: nat): (s: string)
    ensures |s| == k && forall c | c in s :: c == '0'
  {
    seq(k, _ => '0')
  }

  /** %0wd: zeros in front up to width `w`, and never fewer digits than the number has. */
  function Pad(n: nat, w: nat): (s: string)
    ensures forall c | c in s :: IsDigit(c)
  {
    var s := Show(n);
    if |s| < w then Zeros(w - |s|) + s else s
  }

  /** Exactly `w` digits, the last ones of `n`. */
  function Fixed(n: nat, w: nat): (s: string)
    ensures |s| == w
  {
    if w == 0 then "" else Fixed(n / 10, w - 1) + [Digit(n % 10)]
  }

  lemma {:induction false} ZerosAreFixed(w: nat)
    ensures Fixed(0, w) == Zeros(w)
  {
    if w > 0 {
      ZerosAreFixed(w - 1);
    }
  }

  lemma {:induction false} PadIsFixed(n: nat, w: nat)
    requires n < Pow10(w) && 0 < w
    ensures Pad(n, w) == Fixed(n, w)
  {
    if n < 10 {
      ZerosAreFixed(w - 1);
    } else {
      PadIsFixed(n / 10, w - 1);
      var s := Show(n / 10);
      assert Show(n) == s + [Digit(n % 10)];
    }
  }

  lemma {:induction false} ValueOfFixed(n: nat, w: nat)
    requires n < Pow10(w)
    ensures (forall c | c in Fixed(n, w) :: IsDigit(c)) && Value(Fixed(n, w)) == n
  {
    if w > 0 {
      ValueOfFixed(n / 10, w - 1);
      var s := Fixed(n / 10, w - 1);
      assert (s + [Digit(n % 10)])[..w - 1] == s;
    }
  }
}
