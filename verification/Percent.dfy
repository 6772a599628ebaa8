/** The change since entry in hundredths of a percent, and amounts as text: integer arithmetic of 64 bits. */
module Percent {
  import opened Decimal
  import opened Options

  const TWO64 := 0x1_0000_0000_0000_0000

  /** What 64 bits keep of a result. */
  function Wrap(x: int): (r: int)
    ensures InInt64(r) && (InInt64(x) ==> r == x) && (r - x) % TWO64 == 0
  {
    (x - MIN_INT64) % TWO64 + MIN_INT64
  }

  function Abs(x: int): nat { if x < 0 then -x else x }

  /** Division and remainder toward zero. */
  function Quo(n: int, d: int): int
    requires d > 0
  {
    if n >= 0 then n / d else -((-n) / d)
  }

  function Rem(n: int, d: int): int
    requires d > 0
  {
    n - Quo(n, d) * d
  }

  lemma DivFacts(m: nat, d: int)
    requires d > 0
    ensures m == m / d * d + m % d && 0 <= m % d < d && 0 <= m / d
  {
  }

  lemma QuoRem(n: int, d: int)
    requires d > 0
    ensures Abs(Rem(n, d)) < d
    ensures n >= 0 ==> Rem(n, d) >= 0 && Quo(n, d) >= 0
    ensures n < 0 ==> Rem(n, d) <= 0 && Quo(n, d) <= 0
  {
    var m := Abs(n);
    DivFacts(m, d);
    Negated(m / d, d);
  }

  lemma Negated(q: int, d: int)
    ensures (-q) * d == -(q * d)
  {
  }

  lemma Grows(q: nat, d: int)
    requires d > 0
    ensures q <= q * d
  {
  }

  /** What the portal computes, every step in 64 bits. */
  function PctChange(latest: int, entry: int): int
    requires entry > 0
  {
    var num := Wrap(Wrap(latest - entry) * 10000);
    var q, r := Quo(num, entry), Rem(num, entry);
    if r != 0 && Wrap(2 * Abs(r)) >= entry then (if num < 0 then q - 1 else q + 1) else q
  }

  /** q is the integer nearest to n / d, halves away from zero. */
  predicate Nearest(q: int, n: int, d: int) {
    && 2 * Abs(q * d - n) <= d
    && (2 * Abs(q * d - n) == d ==> Abs(q * d) > Abs(n))
  }

  /** Rounding the quotient when nothing wraps. */
  function Rounded(n: int, d: int): int
    requires d > 0
  {
    var q, r := Quo(n, d), Rem(n, d);
    if r != 0 && 2 * Abs(r) >= d then (if n < 0 then q - 1 else q + 1) else q
  }

  lemma Times(q: int, d: int)
    ensures (q + 1) * d == q * d + d && (q - 1) * d == q * d - d
  {
  }

  lemma SignOfProduct(q: int, d: int)
    requires d > 0
    ensures q >= 0 ==> q * d >= 0
    ensures q <= 0 ==> q * d <= 0
  {
  }

  lemma RoundedIsNearest(n: int, d: int)
    requires d > 0
    ensures Nearest(Rounded(n, d), n, d)
    ensures var off := Rounded(n, d) * d - n;
      && -d <= 2 * off <= d
      && (2 * off == d ==> n >= 0) && (2 * off == -d ==> n <= 0)
  {
    QuoRem(n, d);
    var q := Quo(n, d);
    Times(q, d);
    SignOfProduct(q, d);
    var p := q * d;
    assert Rem(n, d) == n - p;
  }

  lemma Apart(a: int, b: int, d: int)
    requires d > 0 && a < b
    ensures b * d - a * d >= d
  {
    Grows(b - a - 1, d);
    assert b * d - a * d == (b - a - 1) * d + d;
  }

  lemma NotBothNearest(a: int, b: int, n: int, d: int)
    requires d > 0 && a < b
    ensures !(Nearest(a, n, d) && Nearest(b, n, d))
  {
    if b - a >= 2 {
      Apart(a, a + 1, d);
      Apart(a + 1, b, d);
    } else {
      Times(a, d);
      SignOfProduct(a, d);
      SignOfProduct(b, d);
    }
    TwoPoints(a * d, b * d, n, d);
  }

  /** Two multiples at least d apart cannot both be nearest; at distance d both would be halves, and one
      of them is toward zero. */
  lemma TwoPoints(x: int, y: int, n: int, d: int)
    requires d > 0 && (y - x >= 2 * d || (y - x == d && (x >= 0 || y <= 0)))
    ensures !(2 * Abs(x - n) <= d && 2 * Abs(y - n) <= d
              && (2 * Abs(x - n) == d ==> Abs(x) > Abs(n)) && (2 * Abs(y - n) == d ==> Abs(y) > Abs(n)))
  {
  }

  /** There is one nearest integer. */
  lemma NearestUnique(a: int, b: int, n: int, d: int)
    requires d > 0 && Nearest(a, n, d) && Nearest(b, n, d)
    ensures a == b
  {
    if a < b { NotBothNearest(a, b, n, d); }
    if b < a { NotBothNearest(b, a, n, d); }
  }

  /** Nothing leaves 64 bits: neither the scaled difference nor twice its remainder. */
  predicate InRange(latest: int, entry: int)
    requires entry > 0
  {
    var n := (latest - entry) * 10000;
    InInt64(n) && 2 * Abs(Rem(n, entry)) <= MAX_INT64
  }

  /** A result more than one step from n / d is not nearest to it. */
  lemma FarOff(q: int, m: int, n: int, d: int)
    requires d > 0 && Abs(q * d - m) <= d && Abs(m - n) >= 2 * d
    ensures !Nearest(q, n, d)
  {
  }

  lemma WrapDistance(n: int)
    requires !InInt64(n)
    ensures Abs(Wrap(n) - n) >= TWO64
  {
    var k := (n - MIN_INT64) / TWO64;
    assert Wrap(n) == n - k * TWO64;
    assert k != 0;
    if k > 0 { Grows(k - 1, TWO64); } else { Grows(-k - 1, TWO64); }
  }

  lemma StepOff(n: int, d: int)
    requires d > 0
    ensures var q := Quo(n, d);
      Abs(q * d - n) < d && (n >= 0 ==> Abs((q + 1) * d - n) <= d) && (n < 0 ==> Abs((q - 1) * d - n) <= d)
  {
    QuoRem(n, d);
    Times(Quo(n, d), d);
  }

  /** Within range of the scaled difference, only twice the remainder can wrap, and then the rounding
      step is missed. */
  lemma RoundsUnlessWrapped(num: int, entry: int)
    requires 0 < entry <= MAX_INT64
    ensures var q, r := Quo(num, entry), Rem(num, entry);
      var shown := if r != 0 && Wrap(2 * Abs(r)) >= entry then (if num < 0 then q - 1 else q + 1) else q;
      shown == Rounded(num, entry) <==> 2 * Abs(r) <= MAX_INT64
  {
    QuoRem(num, entry);
    var r := Rem(num, entry);
    hide Quo, Rem;
    if 2 * Abs(r) > MAX_INT64 {
      assert Wrap(2 * Abs(r)) == 2 * Abs(r) - TWO64;
    }
  }

  /** For every stored price and entry price the portal shows the nearest hundredth of a percent exactly
      when nothing leaves 64 bits. */
  lemma PctExactly(latest: int, entry: int)
    requires 0 < entry <= MAX_INT64 && 0 <= latest <= MAX_INT64
    ensures Nearest(PctChange(latest, entry), (latest - entry) * 10000, entry) <==> InRange(latest, entry)
  {
    var n := (latest - entry) * 10000;
    var num := Wrap(n);
    if InInt64(n) {
      RoundsUnlessWrapped(n, entry);
      RoundedIsNearest(n, entry);
      hide Nearest, Quo, Rem;
      if Nearest(PctChange(latest, entry), n, entry) {
        NearestUnique(PctChange(latest, entry), Rounded(n, entry), n, entry);
      }
    } else {
      WrapDistance(n);
      StepOff(num, entry);
      QuoRem(num, entry);
      hide Quo, Rem, Wrap;
      FarOff(PctChange(latest, entry), num, n, entry);
    }
  }

  /** The failing case: the largest price against an entry of one fen. */
  lemma WrappedChange()
    ensures !InRange(MAX_INT64, 1)
    ensures !Nearest(PctChange(MAX_INT64, 1), (MAX_INT64 - 1) * 10000, 1)
  {
    PctExactly(MAX_INT64, 1);
  }

  // ---------- amounts as text ----------

  function Pad2(n: int): string {
    if 0 <= n < 10 then "0" + IntText(n) else IntText(n)
  }

  /** Fen as yuan with two decimals; the sign is taken off in 64 bits. */
  function Yuan(fen: int): string {
    var f := if fen < 0 then Wrap(-fen) else fen;
    (if fen < 0 then "-" else "") + IntText(Quo(f, 100)) + "." + Pad2(Rem(f, 100))
  }

  /** Reads an amount back: an optional minus, digits, a point and two digits. */
  function ParseYuan(s: string): Option<int> {
    var neg := s != "" && s[0] == '-';
    var t := if neg then s[1..] else s;
    if |t| < 4 || t[|t| - 3] != '.' then None
    else
      var whole, cents := Digits(t[..|t| - 3]), Digits(t[|t| - 2..]);
      if whole.None? || cents.None? then None
      else
        var m: int := whole.value * 100 + cents.value;
        Some(if neg then -m else m)
  }

  lemma DigitsOfPad(n: int)
    requires 0 <= n < 100
    ensures |Pad2(n)| == 2 && Digits(Pad2(n)) == Some(n)
  {
    DigitsOfNatText(n);
    if n < 10 {
      var s := Pad2(n);
      assert s == ['0', Digit(n)];
      assert s[..1] == "0" && "0"[..0] == "";
      assert Digits("0") == Some(0);
    } else {
      assert NatText(n) == NatText(n / 10) + [Digit(n % 10)];
      assert |NatText(n / 10)| == 1;
    }
  }

  lemma Slices<T>(a: seq<T>, x: T, b: seq<T>, sign: T)
    requires |b| == 2
    ensures var t := a + [x] + b;
      && t[..|t| - 3] == a && t[|t| - 2..] == b && t[|t| - 3] == x && |t| == |a| + 3
      && (a != [] ==> t[0] == a[0])
      && ([sign] + t)[0] == sign && ([sign] + t)[1..] == t
  {
  }

  lemma JoinedParts(a: string, b: string)
    requires a != "" && IsDigit(a[0]) && |b| == 2 && Digits(a).Some? && Digits(b).Some?
    ensures var m: int := Digits(a).value * 100 + Digits(b).value;
      ParseYuan(a + "." + b) == Some(m) && ParseYuan("-" + (a + "." + b)) == Some(-m)
  {
    Slices(a, '.', b, '-');
    var t := a + "." + b;
    assert t[0] != '-';
    hide Digits;
    ParseParts(t, a, b, false);
    ParseParts("-" + t, a, b, true);
  }

  lemma ParseParts(s: string, a: string, b: string, neg: bool)
    requires Digits(a).Some? && Digits(b).Some?
    requires s != "" && neg == (s[0] == '-')
    requires var t := if neg then s[1..] else s; |t| >= 4 && t[..|t| - 3] == a && t[|t| - 2..] == b && t[|t| - 3] == '.'
    ensures var m: int := Digits(a).value * 100 + Digits(b).value;
      ParseYuan(s) == Some(if neg then -m else m)
  {
    hide Digits;
  }

  lemma ParseUnsigned(f: int)
    requires f >= 0
    ensures ParseYuan(NatText(f / 100) + "." + Pad2(f % 100)) == Some(f)
    ensures ParseYuan("-" + (NatText(f / 100) + "." + Pad2(f % 100))) == Some(-f)
  {
    DigitsOfNatText(f / 100);
    DigitsOfPad(f % 100);
    assert IsDigit(NatText(f / 100)[0]);
    JoinedParts(NatText(f / 100), Pad2(f % 100));
    hide NatText, Pad2, Digits, ParseYuan;
    assert f / 100 * 100 + f % 100 == f;
  }

  /** The smallest amount keeps its sign when it is taken off, and prints two of them. */
  lemma SmallestText()
    ensures Yuan(MIN_INT64) == "-" + ("-" + NatText(92233720368547758)) + "." + "-8"
  {
    assert Wrap(-MIN_INT64) == MIN_INT64;
    assert Quo(MIN_INT64, 100) == -92233720368547758 && Rem(MIN_INT64, 100) == -8;
    assert NatText(8) == "8";
    assert Pad2(-8) == "-8";
    hide NatText;
  }

  lemma PadDigits(n: int)
    requires 0 <= n < 100
    ensures Pad2(n) == TwoDigits(n)
  {
    if n >= 10 { assert NatText(n) == NatText(n / 10) + [Digit(n % 10)]; }
  }

  /** Any other amount is written as its sign, the whole yuan, a point and two digits of fen. */
  lemma YuanUnsigned(fen: int)
    requires InInt64(fen) && fen != MIN_INT64
    ensures var f := Abs(fen); var t := NatText(f / 100) + "." + Pad2(f % 100);
      Yuan(fen) == if fen < 0 then "-" + t else t
    ensures var f := if fen < 0 then -fen else fen;
      Yuan(fen) == (if fen < 0 then "-" else "") + NatText(f / 100) + "." + TwoDigits(f % 100)
  {
    PadDigits(Abs(fen) % 100);
    hide NatText, Pad2, TwoDigits;
    var f := Abs(fen);
    assert Quo(f, 100) == f / 100 && Rem(f, 100) == f % 100;
    var t := NatText(f / 100) + "." + Pad2(f % 100);
    if fen < 0 { assert "-" + NatText(f / 100) + "." + Pad2(f % 100) == "-" + t; }
  }

  /** An amount is read back from its text exactly when it is not the smallest 64-bit integer. */
  lemma YuanReadsBack(fen: int)
    requires InInt64(fen)
    ensures ParseYuan(Yuan(fen)) == Some(fen) <==> fen != MIN_INT64
  {
    if fen == MIN_INT64 {
      SmallestUnread();
    } else {
      YuanUnsigned(fen);
      ParseUnsigned(Abs(fen));
    }
    hide *;
  }

  lemma SmallestUnread()
    ensures ParseYuan(Yuan(MIN_INT64)) == None
  {
    SmallestText();
    DigitsOfNatText(92233720368547758);
    SignInside(Yuan(MIN_INT64), NatText(92233720368547758));
  }

  lemma SignInside(text: string, whole: string)
    requires text == "-" + ("-" + whole) + "." + "-8" && |whole| > 0
    ensures ParseYuan(text) == None
  {
    var t := text[1..];
    assert t[|t| - 2..] == "-8";
    assert Digits("-8").None? by {
      assert "-8"[..1] == "-";
      assert "-"[..0] == "";
    }
  }

  // ---------- the change as it is shown ----------

  lemma QuoBounds(n: int, d: int)
    requires d > 0 && InInt64(n)
    ensures InInt64(Quo(n, d)) && (Quo(n, d) == MIN_INT64 ==> n == MIN_INT64)
    ensures Rem(n, d) != 0 ==> Abs(Quo(n, d)) < MAX_INT64
  {
    QuoRem(n, d);
    var q: int := Abs(Quo(n, d));
    Grows(q, d);
    Negated(Quo(n, d), d);
    SignOfProduct(Quo(n, d), d);
    if d >= 2 {
      Grows(q, d - 1);
      assert q * d == q * (d - 1) + q;
    } else {
      assert q * d == q && Quo(n, d) * d == Quo(n, d);
    }
  }

  lemma PctBounds(latest: int, entry: int)
    requires entry > 0
    ensures InInt64(PctChange(latest, entry))
    ensures InInt64((latest - entry) * 10000) ==> PctChange(latest, entry) != MIN_INT64
  {
    QuoBounds(Wrap(Wrap(latest - entry) * 10000), entry);
    hide Quo, Rem;
    assert (latest - entry) * 10000 != MIN_INT64 by { assert MIN_INT64 % 10000 == 4192; }
  }

  /** The text of the change, read back, is the nearest hundredth of a percent exactly when nothing leaves
      64 bits. */
  lemma PctTextExactly(latest: int, entry: int)
    requires 0 < entry <= MAX_INT64 && 0 <= latest <= MAX_INT64
    ensures var read := ParseYuan(Yuan(PctChange(latest, entry)));
      read.Some? && Nearest(read.value, (latest - entry) * 10000, entry) <==> InRange(latest, entry)
  {
    var q := PctChange(latest, entry);
    PctBounds(latest, entry);
    PctExactly(latest, entry);
    if q == MIN_INT64 { SmallestUnread(); } else { YuanReadsBack(q); }
    hide PctChange, Nearest, ParseYuan, Yuan;
  }
}
