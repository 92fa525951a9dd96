/** Strings ordered by code point, decimal numerals, and the byte encodings that
    turn text into an unambiguous byte string. */
module Text {
  newtype byte = x: int | 0 <= x < 256

  /** Python compares strings code point by code point. */
  predicate Less(a: string, b: string) {
    b != "" && (a == "" || a[0] < b[0] || (a[0] == b[0] && Less(a[1..], b[1..])))
  }

  lemma {:induction false} LessIsTotal(a: string, b: string)
    ensures (if Less(a, b) then 1 else 0) + (if Less(b, a) then 1 else 0) + (if a == b then 1 else 0) == 1
  {
    if a != "" && b != "" && a[0] == b[0] {
      LessIsTotal(a[1..], b[1..]);
      assert a == [a[0]] + a[1..] && b == [b[0]] + b[1..];
    }
  }

  lemma {:induction false} LessIsTransitive(a: string, b: string, c: string)
    requires Less(a, b) && Less(b, c)
    ensures Less(a, c)
  {
    if a != "" && a[0] == b[0] == c[0] {
      LessIsTransitive(a[1..], b[1..], c[1..]);
    }
  }

  /** At the first place where two strings differ the lower code point comes first, and the
      end of a string before any. */
  lemma {:induction false} LessExactlyWhen(a: string, b: string)
    ensures Less(a, b) <==> a < b || exists k: nat | k < |a| && k < |b| :: a[..k] == b[..k] && a[k] < b[k]
  {
    if a != "" && b != "" {
      var s, t := a[1..], b[1..];
      LessExactlyWhen(s, t);
      assert a[0] < b[0] ==> a[..0] == b[..0];
      if a[0] == b[0] {
        if k: nat :| k < |s| && k < |t| && s[..k] == t[..k] && s[k] < t[k] {
          assert a[..k + 1] == [a[0]] + s[..k] && b[..k + 1] == [b[0]] + t[..k];
        }
        if k: nat :| k < |a| && k < |b| && a[..k] == b[..k] && a[k] < b[k] {
          assert k > 0 && s[..k - 1] == a[..k][1..] && t[..k - 1] == b[..k][1..];
        }
        assert a == [a[0]] + s && b == [b[0]] + t;
      } else {
        assert forall k: nat | 0 < k < |a| && k < |b| :: a[..k][0] != b[..k][0];
      }
    }
  }

  // ---------------------------------------------------------------- numerals

  function Digit(d: int): (c: char)
    requires 0 <= d < 10
  {
    '0' + d as char
  }

  predicate IsDigit(c: char) {
    '0' <= c <= '9'
  }

  function Decimal(n: nat): (s: string)
    ensures s != "" && forall i :: 0 <= i < |s| ==> IsDigit(s[i])
  {
    if n < 10 then [Digit(n)] else Decimal(n / 10) + [Digit(n % 10)]
  }

  function Integer(n: int): (s: string)
    ensures s != "" && (s[0] == '-' || IsDigit(s[0]))
  {
    if n < 0 then "-" + Decimal(-n) else Decimal(n)
  }

  /** What a numeral stands for, read digit by digit from the left. */
  function Numeral(s: string): (n: int) {
    if s == "" then 0 else 10 * Numeral(s[..|s| - 1]) + (s[|s| - 1] as int - '0' as int)
  }

  /** A number is written as the numeral that stands for it, without a leading zero. */
  lemma {:induction false} DecimalIsTheNumeral(n: nat)
    ensures Numeral(Decimal(n)) == n
    ensures Decimal(n)[0] == '0' <==> n == 0
    ensures n == 0 ==> Decimal(n) == "0"
  {
    var s := Decimal(n);
    if n >= 10 {
      DecimalIsTheNumeral(n / 10);
      assert s[..|s| - 1] == Decimal(n / 10) && s[0] == Decimal(n / 10)[0];
    } else {
      assert s[..|s| - 1] == "";
    }
  }

  lemma {:induction false} DecimalIsInjective(n: nat, m: nat)
    requires Decimal(n) == Decimal(m)
    ensures n == m
  {
    var s, t := Decimal(n), Decimal(m);
    assert s[|s| - 1] == Digit(n % 10) && t[|t| - 1] == Digit(m % 10);
    if n >= 10 && m >= 10 {
      assert s[..|s| - 1] == Decimal(n / 10) && t[..|t| - 1] == Decimal(m / 10);
      DecimalIsInjective(n / 10, m / 10);
    }
  }

  lemma LongerNumeralSpillsOver(x: string, s: string, y: string, t: string)
    requires x + s == y + t
    requires 0 < |x| < |y| && IsDigit(y[|x|])
    ensures s != "" && IsDigit(s[0])
  {
    assert (x + s)[|x|] == (y + t)[|x|] == y[|x|];
    assert |x + s| == |y + t|;
  }

  /** A numeral followed by something that is not a digit is read back exactly. */
  lemma NumeralEndsAtNonDigit(a: int, s: string, b: int, t: string)
    requires Integer(a) + s == Integer(b) + t
    requires s == "" || !IsDigit(s[0])
    requires t == "" || !IsDigit(t[0])
    ensures a == b && s == t
  {
    var x, y := Integer(a), Integer(b);
    assert (x + s)[0] == x[0] && (y + t)[0] == y[0];
    if |x| < |y| {
      LongerNumeralSpillsOver(x, s, y, t);
    } else if |y| < |x| {
      LongerNumeralSpillsOver(y, t, x, s);
    } else {
      assert x == (x + s)[..|x|] && y == (y + t)[..|y|];
      assert s == (x + s)[|x|..] && t == (y + t)[|y|..];
      if a < 0 {
        assert x[1..] == Decimal(-a) && y[1..] == Decimal(-b);
        DecimalIsInjective(-a, -b);
      } else {
        DecimalIsInjective(a, b);
      }
    }
  }

  // ------------------------------------------------------------------- UTF-8

  /** How many bytes the code point opened by this byte takes. */
  function Width(lead: byte): (n: nat) {
    if lead < 0x80 then 1 else if lead < 0xE0 then 2 else if lead < 0xF0 then 3 else 4
  }

  /** The code point held by the first bytes of bs. */
  function CodePoint(bs: seq<byte>): (n: int)
    requires bs != [] && Width(bs[0]) <= |bs|
  {
    if Width(bs[0]) == 1 then bs[0] as int
    else if Width(bs[0]) == 2 then (bs[0] as int - 0xC0) * 0x40 + (bs[1] as int - 0x80)
    else if Width(bs[0]) == 3 then
      (bs[0] as int - 0xE0) * 0x1000 + (bs[1] as int - 0x80) * 0x40 + (bs[2] as int - 0x80)
    else
      (bs[0] as int - 0xF0) * 0x4_0000 + (bs[1] as int - 0x80) * 0x1000
      + (bs[2] as int - 0x80) * 0x40 + (bs[3] as int - 0x80)
  }

  /** One code point in UTF-8 (section 3 of RFC 3629). */
  function EncodeChar(c: char): (bs: seq<byte>)
    ensures bs != [] && |bs| == Width(bs[0])
    ensures CodePoint(bs) == c as int
  {
    var n := c as int;
    if n < 0x80 then [n as byte]
    else if n < 0x800 then [(0xC0 + n / 0x40) as byte, (0x80 + n % 0x40) as byte]
    else if n < 0x1_0000 then
      [(0xE0 + n / 0x40 / 0x40) as byte, (0x80 + n / 0x40 % 0x40) as byte, (0x80 + n % 0x40) as byte]
    else
      [(0xF0 + n / 0x40 / 0x40 / 0x40) as byte, (0x80 + n / 0x40 / 0x40 % 0x40) as byte,
       (0x80 + n / 0x40 % 0x40) as byte, (0x80 + n % 0x40) as byte]
  }

  function Utf8(s: string): (bs: seq<byte>) {
    if s == "" then [] else EncodeChar(s[0]) + Utf8(s[1..])
  }

  /** The byte ranges of section 4 of RFC 3629: each code point in its shortest form. */
  lemma EncodedInShortestForm(c: char)
    ensures var n, bs := c as int, EncodeChar(c);
            && (|bs| == 1 <==> n <= 0x7F) && (|bs| == 2 <==> 0x80 <= n <= 0x7FF)
            && (|bs| == 3 <==> 0x800 <= n <= 0xFFFF) && (|bs| == 4 <==> 0x1_0000 <= n)
            && (|bs| == 1 ==> bs[0] <= 0x7F) && (|bs| == 2 ==> 0xC2 <= bs[0] <= 0xDF)
            && (|bs| == 3 ==> 0xE0 <= bs[0] <= 0xEF) && (|bs| == 4 ==> 0xF0 <= bs[0] <= 0xF4)
            && (forall i | 1 <= i < |bs| :: 0x80 <= bs[i] <= 0xBF)
  {
  }

  /** UTF-8 is a prefix code: a code point is known before the next one starts. */
  lemma CodePointEndsItself(c: char, x: seq<byte>, d: char, y: seq<byte>)
    requires EncodeChar(c) + x == EncodeChar(d) + y
    ensures c == d && x == y
  {
    var p, q := EncodeChar(c), EncodeChar(d);
    assert (p + x)[0] == p[0] && (q + y)[0] == q[0];
    assert p == (p + x)[..|p|] && q == (q + y)[..|q|];
    assert x == (p + x)[|p|..] && y == (q + y)[|q|..];
  }

  lemma {:induction false} Utf8IsInjective(s: string, t: string)
    requires Utf8(s) == Utf8(t)
    ensures s == t
  {
    if s != "" && t != "" {
      CodePointEndsItself(s[0], Utf8(s[1..]), t[0], Utf8(t[1..]));
      Utf8IsInjective(s[1..], t[1..]);
      assert s == [s[0]] + s[1..] && t == [t[0]] + t[1..];
    }
  }

  // ------------------------------------------------------- length prefixing

  function Pow256(k: nat): (p: nat)
    ensures p > 0
  {
    if k == 0 then 1 else 256 * Pow256(k - 1)
  }

  /** The big-endian bytes of n, most significant first. */
  function BigEndian(n: nat, width: nat): (bs: seq<byte>)
    ensures |bs| == width
  {
    if width == 0 then [] else BigEndian(n / 256, width - 1) + [(n % 256) as byte]
  }

  /** The number a byte string stands for, its first byte weighing most. */
  function NumberOf(bs: seq<byte>): (n: nat) {
    if bs == [] then 0 else bs[0] as int * Pow256(|bs| - 1) + NumberOf(bs[1..])
  }

  lemma {:induction false} LastByteWeighsOne(bs: seq<byte>, b: byte)
    ensures NumberOf(bs + [b]) == 256 * NumberOf(bs) + b as int
  {
    if bs == [] {
      assert ([] + [b])[1..] == [] && ([] + [b])[0] == b && Pow256(0) == 1;
    } else {
      var p := Pow256(|bs| - 1);
      assert (bs + [b])[1..] == bs[1..] + [b] && (bs + [b])[0] == bs[0];
      LastByteWeighsOne(bs[1..], b);
      assert Pow256(|bs|) == 256 * p;
      assert bs[0] as int * (256 * p) == 256 * (bs[0] as int * p);
    }
  }

  lemma {:induction false} BigEndianIsTheNumber(n: nat, width: nat)
    requires n < Pow256(width)
    ensures NumberOf(BigEndian(n, width)) == n
  {
    if width > 0 {
      BigEndianIsTheNumber(n / 256, width - 1);
      LastByteWeighsOne(BigEndian(n / 256, width - 1), (n % 256) as byte);
    }
  }

  lemma {:induction false} BigEndianIsInjective(n: nat, m: nat, width: nat)
    requires n < Pow256(width) && m < Pow256(width)
    requires BigEndian(n, width) == BigEndian(m, width)
    ensures n == m
  {
    if width > 0 {
      var a, b := BigEndian(n, width), BigEndian(m, width);
      assert a[width - 1] == (n % 256) as byte && b[width - 1] == (m % 256) as byte;
      assert a[..width - 1] == BigEndian(n / 256, width - 1);
      assert b[..width - 1] == BigEndian(m / 256, width - 1);
      BigEndianIsInjective(n / 256, m / 256, width - 1);
    }
  }

  /** A field behind its own eight-byte length. */
  function Framed(field: seq<byte>): (bs: seq<byte>)
    ensures |bs| == 8 + |field|
  {
    BigEndian(|field|, 8) + field
  }

  lemma FrameEndsItself(f: seq<byte>, x: seq<byte>, g: seq<byte>, y: seq<byte>)
    requires |f| < Pow256(8) && |g| < Pow256(8)
    requires Framed(f) + x == Framed(g) + y
    ensures f == g && x == y
  {
    var u, v := Framed(f) + x, Framed(g) + y;
    assert u[..8] == BigEndian(|f|, 8) && v[..8] == BigEndian(|g|, 8);
    BigEndianIsInjective(|f|, |g|, 8);
    assert u[8..8 + |f|] == f && v[8..8 + |g|] == g;
    assert u[8 + |f|..] == x && v[8 + |g|..] == y;
  }
}
