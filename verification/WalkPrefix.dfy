/** The file name prefix under which a range of merged bundles is looked up. */
module WalkPrefix {
  import opened Options
  import opened Multiples
  import opened Decimal
  import opened Text

  function RoundToBundleStart(block: nat, size: nat): (b: nat)
    requires 0 < size
    ensures b == ToBase(block, size)
  {
    ToBaseIsRound(block, size);
    block - block % size
  }

  function RoundToBundleEnd(block: nat, size: nat): nat
    requires 0 < size
  {
    RoundToBundleStart(block, size) + (size - 1)
  }

  lemma ToBaseIsRound(block: nat, size: nat)
    requires 0 < size
    ensures block - block % size == ToBase(block, size)
  {
  }

  function FileName(base: nat): string {
    Pad(base, 10)
  }

  function CommonPrefix(s: string, t: string): (p: string)
    ensures p <= s && p <= t
    ensures |p| < |s| && |p| < |t| ==> s[|p|] != t[|p|]
  {
    if s == "" || t == "" || s[0] != t[0] then ""
    else
      var p := CommonPrefix(s[1..], t[1..]);
      assert s == [s[0]] + s[1..] && t == [t[0]] + t[1..];
      [s[0]] + p
  }

  /** The first base past the rounded end of a range. */
  function EndBase(stop: nat, size: nat): (b: nat)
    requires 0 < size && 0 < stop
    ensures stop <= b < stop + size && b % size == 0
  {
    NextMultiple(ToBase(stop - 1, size), size);
    RoundToBundleEnd(stop - 1, size) + 1
  }

  method WalkBlockPrefix(start: nat, stop: Option<nat>, size: nat) returns (prefix: string)
    requires 0 < size && (stop.Some? ==> 0 < stop.value && start <= stop.value)
    ensures prefix == if stop.None? then "" else
                      CommonPrefix(FileName(ToBase(start, size)), FileName(EndBase(stop.value, size)))
  {
    if stop.None? {
      return "";
    }
    NoLonger(start, stop.value, size);
    prefix := SharedStart(FileName(RoundToBundleStart(start, size)),
                          FileName(RoundToBundleEnd(stop.value - 1, size) + 1));
  }

  /** The loop: everything before the first difference, or the whole start. */
  method SharedStart(s: string, t: string) returns (prefix: string)
    requires |s| <= |t|
    ensures prefix == CommonPrefix(s, t)
  {
    for i := 0 to |s|
      invariant s[..i] == t[..i]
    {
      if s[i] != t[i] {
        CommonIs(s, t, i);
        return s[..i];
      }
    }
    CommonIs(s, t, |s|);
    return s;
  }

  lemma {:induction false} CommonIs(s: string, t: string, i: nat)
    requires i <= |s| && i <= |t| && s[..i] == t[..i]
    requires i == |s| || (i < |t| && s[i] != t[i])
    ensures CommonPrefix(s, t) == s[..i]
  {
    if i > 0 {
      assert s[0] == s[..i][0] == t[..i][0] == t[0];
      assert s[1..][..i - 1] == s[..i][1..] && t[1..][..i - 1] == t[..i][1..];
      CommonIs(s[1..], t[1..], i - 1);
      assert s[..i] == [s[0]] + s[1..][..i - 1];
    }
  }

  // ---- widths

  lemma {:induction false} ShowWidth(n: nat, w: nat)
    ensures |Show(n)| <= w + 1 <==> n < Pow10(w + 1)
    decreases n
  {
    if n >= 10 {
      if w > 0 {
        ShowWidth(n / 10, w - 1);
      }
    } else {
      assert Pow10(w + 1) >= 10;
    }
  }

  lemma {:induction false} WidthGrows(m: nat, n: nat)
    requires m <= n
    ensures |Show(m)| <= |Show(n)|
  {
    ShowWidth(n, |Show(n)| - 1);
    ShowWidth(m, |Show(n)| - 1);
  }

  lemma NoLonger(start: nat, stop: nat, size: nat)
    requires 0 < size && 0 < stop && start <= stop
    ensures |FileName(ToBase(start, size))| <= |FileName(EndBase(stop, size))|
  {
    WidthGrows(ToBase(start, size), EndBase(stop, size));
  }

  // ---- names of equal width are ordered by their digits

  /** `n` without its last `k` digits. */
  function Drop(n: nat, k: nat): nat {
    if k == 0 then n else Drop(n / 10, k - 1)
  }

  lemma {:induction false} DropOrder(m: nat, n: nat, k: nat)
    requires m <= n
    ensures Drop(m, k) <= Drop(n, k)
    decreases k
  {
    if k > 0 {
      DropOrder(m / 10, n / 10, k - 1);
    }
  }

  lemma TimesTen(d: nat, p: nat)
    ensures d * (10 * p) == 10 * (d * p)
  {
  }

  lemma {:induction false} DropBounds(n: nat, k: nat)
    ensures Drop(n, k) * Pow10(k) <= n < (Drop(n, k) + 1) * Pow10(k)
    decreases k
  {
    if k > 0 {
      var d, p := Drop(n, k), Pow10(k - 1);
      DropBounds(n / 10, k - 1);
      TimesTen(d, p);
      TimesTen(d + 1, p);
    }
  }

  lemma {:induction false} DropFits(n: nat, w: nat, k: nat)
    requires n < Pow10(w) && k <= w
    ensures Drop(n, k) < Pow10(w - k)
    decreases k
  {
    if k > 0 {
      DropFits(n / 10, w - 1, k - 1);
    }
  }

  lemma {:induction false} FixedPrefix(n: nat, w: nat, i: nat)
    requires i <= w
    ensures Fixed(n, w)[..i] == Fixed(Drop(n, w - i), i)
    decreases w
  {
    if i < w {
      FixedPrefix(n / 10, w - 1, i);
      assert Fixed(n, w)[..i] == Fixed(n / 10, w - 1)[..i];
    }
  }

  lemma {:induction false} ShowIsFixed(n: nat)
    ensures Show(n) == Fixed(n, |Show(n)|)
  {
    if n >= 10 {
      ShowIsFixed(n / 10);
    } else {
      assert Fixed(n / 10, 0) == "";
    }
  }

  lemma FileNameIsFixed(n: nat)
    ensures 10 <= |FileName(n)| && n < Pow10(|FileName(n)|) && FileName(n) == Fixed(n, |FileName(n)|)
    ensures 10 < |FileName(n)| ==> Pow10(|FileName(n)| - 1) <= n
  {
    var w := |Show(n)|;
    ShowWidth(n, w - 1);
    if w < 10 {
      PowUp(w, 10);
      PadIsFixed(n, 10);
    } else {
      ShowIsFixed(n);
    }
    if w > 1 {
      ShowWidth(n, w - 2);
    }
  }

  lemma {:induction false} PowUp(j: nat, k: nat)
    requires j <= k
    ensures Pow10(j) <= Pow10(k)
  {
    if j < k {
      PowUp(j, k - 1);
    }
  }

  lemma SameDigits(m: nat, n: nat, w: nat, i: nat)
    requires m < Pow10(w) && n < Pow10(w) && i <= w && Fixed(m, w)[..i] == Fixed(n, w)[..i]
    ensures Drop(m, w - i) == Drop(n, w - i)
  {
    FixedPrefix(m, w, i);
    FixedPrefix(n, w, i);
    DropFits(m, w, w - i);
    DropFits(n, w, w - i);
    ValueOfFixed(Drop(m, w - i), i);
    ValueOfFixed(Drop(n, w - i), i);
  }

  /** Between two numbers of equal width, the digits they share are everybody's. */
  lemma BetweenShares(m: nat, b: nat, n: nat, w: nat, i: nat)
    requires m <= b <= n < Pow10(w) && i <= w && Fixed(m, w)[..i] == Fixed(n, w)[..i]
    ensures Fixed(b, w)[..i] == Fixed(m, w)[..i]
  {
    SameDigits(m, n, w, i);
    DropOrder(m, b, w - i);
    DropOrder(b, n, w - i);
    FixedPrefix(m, w, i);
    FixedPrefix(b, w, i);
  }

  ghost predicate AllFound(prefix: string, s: nat, e: nat, size: nat)
    requires 0 < size
  {
    forall b: nat | s <= b < e && b % size == 0 :: HasPrefix(FileName(b), prefix)
  }

  lemma NameBetween(s: nat, b: nat, e: nat, i: nat)
    requires s <= b <= e && |FileName(s)| == |FileName(e)|
    requires i <= |FileName(s)| && FileName(s)[..i] == FileName(e)[..i]
    ensures i <= |FileName(b)| && FileName(b)[..i] == FileName(s)[..i]
  {
    FileNameIsFixed(s);
    FileNameIsFixed(e);
    FileNameIsFixed(b);
    WidthGrows(s, b);
    WidthGrows(b, e);
    BetweenShares(s, b, e, |FileName(s)|, i);
  }

  lemma EqualWidthFinds(s: nat, e: nat, size: nat)
    requires 0 < size && s <= e && |FileName(s)| == |FileName(e)|
    ensures AllFound(CommonPrefix(FileName(s), FileName(e)), s, e, size)
  {
    var p := CommonPrefix(FileName(s), FileName(e));
    forall b: nat | s <= b < e
      ensures HasPrefix(FileName(b), p)
    {
      NameBetween(s, b, e, |p|);
    }
  }

  lemma FixedHead(n: nat, w: nat)
    requires 0 < w && n < Pow10(w)
    ensures Drop(n, w - 1) < 10 && Fixed(n, w)[0] == Digit(Drop(n, w - 1))
  {
    var d := Drop(n, w - 1);
    DropFits(n, w, w - 1);
    FixedPrefix(n, w, 1);
    assert Fixed(n, w)[0] == Fixed(n, w)[..1][0];
    OneDigit(d);
  }

  lemma OneDigit(d: nat)
    requires d < Pow10(1)
    ensures d < 10 && Fixed(d, 1) == [Digit(d)]
  {
    assert Pow10(1) == 10 * Pow10(0);
    assert Fixed(d, 1) == Fixed(d / 10, 0) + [Digit(d % 10)];
  }

  lemma FirstDigit(n: nat, w: nat) returns (d: nat)
    requires w == |FileName(n)|
    ensures d < 10 && FileName(n)[0] == Digit(d) && d * Pow10(w - 1) <= n < (d + 1) * Pow10(w - 1)
  {
    d := Drop(n, w - 1);
    FileNameIsFixed(n);
    FixedHead(n, w);
    DropBounds(n, w - 1);
  }

  lemma TimesDigit(d: nat, p: nat)
    requires 1 <= d <= 9
    ensures p <= d * p && (d + 1) * p == d * p + p && d * p + p <= 10 * p
  {
    assert (d - 1) * p >= 0 && (9 - d) * p >= 0;
  }

  lemma Window(low: nat, size: nat) returns (b: nat)
    requires 0 < size
    ensures b % size == 0 && low <= b < low + size
  {
    b := ToBase(low + size - 1, size);
  }

  lemma DigitOf(b: nat, d: nat, w: nat)
    requires w == |FileName(b)| && d * Pow10(w - 1) <= b < (d + 1) * Pow10(w - 1)
    ensures d < 10 && FileName(b)[0] == Digit(d)
  {
    var e := FirstDigit(b, w);
    SameDigit(b, d, e, Pow10(w - 1));
  }

  /** Any stretch of `size` numbers has a base, and all of a stretch share their first digit. */
  lemma BaseWithDigit(d: nat, w: nat, size: nat) returns (b: nat)
    requires 1 <= d <= 9 && 10 <= w && 0 < size <= Pow10(w - 1)
    ensures b % size == 0 && d * Pow10(w - 1) <= b < d * Pow10(w - 1) + size && FileName(b)[0] == Digit(d)
  {
    var p := Pow10(w - 1);
    b := Window(d * p, size);
    TimesDigit(d, p);
    NameWidth(b, w);
    DigitOf(b, d, w);
  }

  lemma SameDigit(b: nat, d: nat, e: nat, p: nat)
    requires 0 < p && d * p <= b < (d + 1) * p && e * p <= b < (e + 1) * p
    ensures d == e
  {
    assert (d - e) * p == d * p - e * p;
    AtLeastOnce(d - e, p);
  }

  lemma NameWidth(b: nat, w: nat)
    requires 10 <= w && Pow10(w - 1) <= b < Pow10(w)
    ensures |FileName(b)| == w
  {
    ShowWidth(b, w - 1);
    ShowWidth(b, w - 2);
  }

  /** A base between `s` and `e` whose name starts otherwise, when the end has more digits. */
  lemma OtherDigit(s: nat, e: nat, c: nat, w: nat, v: nat, size: nat) returns (b: nat)
    requires 10 <= w < v && 0 < size <= Pow10(9) && 1 <= c <= 9
    requires c * Pow10(w - 1) <= s < (c + 1) * Pow10(w - 1) && c * Pow10(v - 1) <= e
    ensures b % size == 0 && s <= b < e && FileName(b)[0] != Digit(c)
  {
    PowUp(9, w - 1);
    PowUp(w, v - 1);
    if c < 9 {
      b := BaseOfNines(s, e, c, w, Pow10(v - 1), size);
    } else {
      b := BaseOfOnes(s, e, w, Pow10(v - 1), size);
    }
  }

  lemma BaseOfNines(s: nat, e: nat, c: nat, w: nat, q: nat, size: nat) returns (b: nat)
    requires 10 <= w && 0 < size <= Pow10(w - 1) && 1 <= c < 9 && Pow10(w) <= q
    requires s < (c + 1) * Pow10(w - 1) && c * q <= e
    ensures b % size == 0 && s <= b < e && FileName(b)[0] == Digit(9)
  {
    b := BaseWithDigit(9, w, size);
    NinesFit(s, e, b, c, Pow10(w - 1), q, size);
  }

  lemma BaseOfOnes(s: nat, e: nat, w: nat, q: nat, size: nat) returns (b: nat)
    requires 10 <= w && 0 < size <= Pow10(w - 1) && Pow10(w) <= q
    requires s < 10 * Pow10(w - 1) && 9 * q <= e
    ensures b % size == 0 && s <= b < e && FileName(b)[0] == Digit(1)
  {
    PowUp(w - 1, w);
    b := BaseWithDigit(1, w + 1, size);
    OnesFit(s, e, b, Pow10(w - 1), q, size);
  }

  lemma NinesFit(s: nat, e: nat, b: nat, c: nat, p: nat, q: nat, size: nat)
    requires 1 <= c < 9 && s < (c + 1) * p && c * q <= e && size <= p && 10 * p <= q
    requires 9 * p <= b < 9 * p + size
    ensures s <= b < e
  {
    SmallerTimes(c + 1, 9, p);
    SmallerTimes(1, c, q);
  }

  lemma OnesFit(s: nat, e: nat, b: nat, p: nat, q: nat, size: nat)
    requires s < 10 * p && 9 * q <= e && size <= p && 10 * p <= q && 1 * (10 * p) <= b < 1 * (10 * p) + size
    ensures s <= b < e
  {
  }

  lemma SmallerTimes(c: nat, d: nat, p: nat)
    requires c <= d
    ensures c * p <= d * p
  {
    assert d * p == c * p + (d - c) * p;
  }

  lemma WideNames(n: nat)
    ensures 10 <= |FileName(n)| && (10 < |FileName(n)| ==> Pow10(|FileName(n)| - 1) <= n)
  {
    FileNameIsFixed(n);
  }

  lemma SharedDigit(s: nat, e: nat) returns (c: nat)
    requires |FileName(s)| < |FileName(e)| && FileName(s)[0] == FileName(e)[0]
    ensures 1 <= c <= 9 && 10 <= |FileName(s)| && FileName(s)[0] == Digit(c)
    ensures c * Pow10(|FileName(s)| - 1) <= s < (c + 1) * Pow10(|FileName(s)| - 1)
    ensures c * Pow10(|FileName(e)| - 1) <= e
  {
    WideNames(s);
    WideNames(e);
    c := FirstDigit(s, |FileName(s)|);
    var d := FirstDigit(e, |FileName(e)|);
    assert c == d;
    NotZero(e, |FileName(e)|, d);
  }

  /** When the end has more digits, some base in between starts with another digit. */
  lemma WiderEndLoses(s: nat, e: nat, size: nat)
    requires 0 < size <= 1_000_000_000 && s <= e && |FileName(s)| < |FileName(e)|
    requires CommonPrefix(FileName(s), FileName(e)) != ""
    ensures !AllFound(CommonPrefix(FileName(s), FileName(e)), s, e, size)
  {
    var p := CommonPrefix(FileName(s), FileName(e));
    assert FileName(s)[0] == p[0] == FileName(e)[0];
    Billion();
    var c := SharedDigit(s, e);
    var b := OtherDigit(s, e, c, |FileName(s)|, |FileName(e)|, size);
    if HasPrefix(FileName(b), p) {
      StartOf(FileName(b), p);
      assert false;
    }
  }

  lemma StartOf(name: string, p: string)
    requires HasPrefix(name, p) && p != ""
    ensures name[0] == p[0]
  {
    assert name[..|p|][0] == p[0];
  }

  lemma NotZero(e: nat, v: nat, d: nat)
    requires 10 < v && Pow10(v - 1) <= e < (d + 1) * Pow10(v - 1)
    ensures 1 <= d
  {
    var p := Pow10(v - 1);
    assert 1 * p == p;
  }

  lemma Billion()
    ensures Pow10(9) == 1_000_000_000
  {
    assert Pow10(3) == 1000 by {
      assert Pow10(2) == 10 * Pow10(1);
    }
    assert Pow10(6) == 1_000_000 by {
      assert Pow10(5) == 10 * Pow10(4);
    }
    assert Pow10(8) == 10 * Pow10(7);
  }

  /**
   Every bundle from the rounded start to the rounded end is found under the prefix if and
   only if the two names have the same width or share no digit at all.
   */
  lemma PrefixFindsAll(start: nat, stop: nat, size: nat)
    requires 0 < size <= 1_000_000_000 && 0 < stop && start <= stop
    ensures var lo, hi := ToBase(start, size), EndBase(stop, size);
            var s, t := FileName(lo), FileName(hi);
            AllFound(CommonPrefix(s, t), lo, hi, size) <==> |s| == |t| || CommonPrefix(s, t) == ""
  {
    var s := ToBase(start, size);
    var e := EndBase(stop, size);
    NoLonger(start, stop, size);
    if |FileName(s)| == |FileName(e)| {
      EqualWidthFinds(s, e, size);
    } else if CommonPrefix(FileName(s), FileName(e)) != "" {
      WiderEndLoses(s, e, size);
    }
  }

  /** In particular below ten billion, where all names have ten digits. */
  lemma TenDigitsFindAll(start: nat, stop: nat, size: nat)
    requires 0 < size && 0 < stop && start <= stop && EndBase(stop, size) < 10_000_000_000
    ensures var lo, hi := ToBase(start, size), EndBase(stop, size);
            AllFound(CommonPrefix(FileName(lo), FileName(hi)), lo, hi, size)
  {
    var s := ToBase(start, size);
    var e := EndBase(stop, size);
    Billion();
    assert Pow10(10) == 10 * Pow10(9);
    NoLonger(start, stop, size);
    FileNameIsFixed(s);
    ShowWidth(e, 9);
    EqualWidthFinds(s, e, size);
  }

  // ---- a walk over the names meets the bundles in the order of their numbers

  /** What is printed as a bundle's name is parsed back as its base. */
  lemma NameIsParsed(n: nat)
    requires n < LIMIT64
    ensures ParseUint(FileName(n), LIMIT64) == Some(n)
  {
    FileNameIsFixed(n);
    ValueOfFixed(n, |FileName(n)|);
  }

  /** Alphabetical order, which is the order of a store's walk. */
  predicate Before(s: string, t: string) {
    if s == "" || t == "" then s == "" && t != ""
    else s[0] < t[0] || (s[0] == t[0] && Before(s[1..], t[1..]))
  }

  lemma {:induction false} BeforeAppend(s: string, t: string, x: string, y: string)
    requires |s| == |t|
    ensures Before(s, t) ==> Before(s + x, t + y)
    ensures s == t ==> (Before(s + x, t + y) <==> Before(x, y))
  {
    if s == "" {
      assert s + x == x && t + y == y;
    } else {
      BeforeAppend(s[1..], t[1..], x, y);
      assert (s + x)[1..] == s[1..] + x && (t + y)[1..] == t[1..] + y;
    }
  }

  lemma {:induction false} FixedOrder(m: nat, n: nat, w: nat)
    requires m < n < Pow10(w)
    ensures Before(Fixed(m, w), Fixed(n, w))
  {
    var x, y := [Digit(m % 10)], [Digit(n % 10)];
    BeforeAppend(Fixed(m / 10, w - 1), Fixed(n / 10, w - 1), x, y);
    if m / 10 < n / 10 {
      FixedOrder(m / 10, n / 10, w - 1);
    }
  }

  lemma {:induction false} NotBothWays(s: string, t: string)
    requires Before(s, t)
    ensures !Before(t, s) && s != t
  {
    if s != "" && s[0] == t[0] {
      NotBothWays(s[1..], t[1..]);
    }
  }

  /** The shorter of two names is compared with as many digits of the longer one. */
  lemma ShorterBefore(s: string, t: string)
    requires |s| < |t| && (Before(s, t[..|s|]) || s == t[..|s|] || Before(t[..|s|], s))
    ensures Before(s, t) <==> !Before(t[..|s|], s)
  {
    var head, tail := t[..|s|], t[|s|..];
    assert s + "" == s && head + tail == t;
    BeforeAppend(s, head, "", tail);
    BeforeAppend(head, s, tail, "");
    if Before(s, head) {
      NotBothWays(s, head);
    } else if Before(head, s) {
      NotBothWays(t, s);
    }
  }

  /**
   A lower base comes before a higher one in the order of names exactly when it is not above the
   leading digits of the higher one, as many as its own name has.
   */
  lemma NameOrder(m: nat, n: nat)
    requires m < n
    ensures |FileName(m)| <= |FileName(n)|
    ensures Before(FileName(m), FileName(n)) <==> m <= Drop(n, |FileName(n)| - |FileName(m)|)
  {
    var w, v := |FileName(m)|, |FileName(n)|;
    WidthGrows(m, n);
    FileNameIsFixed(m);
    FileNameIsFixed(n);
    if w == v {
      FixedOrder(m, n, v);
    } else {
      ShorterName(m, n, w, v);
    }
  }

  lemma ShorterName(m: nat, n: nat, w: nat, v: nat)
    requires w < v && m < Pow10(w) && n < Pow10(v)
    ensures Before(Fixed(m, w), Fixed(n, v)) <==> m <= Drop(n, v - w)
  {
    FixedPrefix(n, v, w);
    DropFits(n, v, v - w);
    FixedCompared(m, Drop(n, v - w), w);
    ShorterBefore(Fixed(m, w), Fixed(n, v));
  }

  lemma FixedCompared(m: nat, d: nat, w: nat)
    requires m < Pow10(w) && d < Pow10(w)
    ensures m < d ==> Before(Fixed(m, w), Fixed(d, w))
    ensures Before(Fixed(d, w), Fixed(m, w)) <==> d < m
  {
    if m < d {
      FixedOrder(m, d, w);
      NotBothWays(Fixed(m, w), Fixed(d, w));
    } else if d < m {
      FixedOrder(d, m, w);
    } else {
      NotBefore(Fixed(m, w));
    }
  }

  lemma NotBefore(s: string)
    ensures !Before(s, s)
  {
    if Before(s, s) {
      NotBothWays(s, s);
      assert false;
    }
  }

  /** So names of equal width are in the order of their bases. */
  lemma NamesInOrder(m: nat, n: nat)
    requires m < n && |FileName(m)| == |FileName(n)|
    ensures Before(FileName(m), FileName(n))
  {
    NameOrder(m, n);
  }
}
