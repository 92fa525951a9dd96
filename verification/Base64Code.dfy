/** The base64url encoder symbol by symbol, and what its lenient decoder puts up with. */
module Base64Code {
  import opened Wrappers
  import opened Text
  import opened Base64Url

  // ------------------------------------------------- the code, bit by bit

  /** The alphabet of Table 2 of RFC 4648, as code points. */
  lemma SymbolsOfTheAlphabet(v: int)
    requires 0 <= v < 64
    ensures Symbol(v) as int
         == if v <= 25 then 0x41 + v else if v <= 51 then 0x61 + (v - 26) else if v <= 61 then 0x30 + (v - 52)
            else if v == 62 then 0x2D else 0x5F
  {
  }

  /** The decoder takes these, and of the other alphabet the two that differ. */
  lemma ValueExactlyWhen(c: char, v: int)
    requires 0 <= v < 64
    ensures Value(c) == v <==> c == Symbol(v) || (c == '+' && v == 62) || (c == '/' && v == 63)
  {
  }

  lemma DigitsOf(p: int, q: int, r: int, t: int)
    requires 0 <= p && 0 <= q < 64 && 0 <= r < 64 && 0 <= t < 64
    ensures var n := p * 0x4_0000 + q * 0x1000 + r * 0x40 + t;
            n / 0x4_0000 == p && n / 0x1000 % 0x40 == q && n / 0x40 % 0x40 == r && n % 0x40 == t
  {
    var n := p * 0x4_0000 + q * 0x1000 + r * 0x40 + t;
    assert n / 0x40 == p * 0x1000 + q * 0x40 + r;
    assert n / 0x1000 == p * 0x40 + q;
  }

  lemma NumberOfGroup(x: int, y: int, z: int)
    requires 0 <= x < 256 && 0 <= y < 256 && 0 <= z < 256
    ensures x * 0x1_0000 + y * 0x100 + z
            == x / 4 * 0x4_0000 + (x % 4 * 16 + y / 16) * 0x1000 + (y % 16 * 4 + z / 64) * 0x40 + z % 64
  {
  }

  lemma GroupDigits(x: int, y: int, z: int)
    requires 0 <= x < 256 && 0 <= y < 256 && 0 <= z < 256
    ensures var n := x * 0x1_0000 + y * 0x100 + z;
            && n / 0x4_0000 == x / 4 && n / 0x1000 % 0x40 == x % 4 * 16 + y / 16
            && n / 0x40 % 0x40 == y % 16 * 4 + z / 64 && n % 0x40 == z % 64
  {
    GroupBits(x, y, z);
    NumberOfGroup(x, y, z);
    DigitsOf(x / 4, x % 4 * 16 + y / 16, y % 16 * 4 + z / 64, z % 64);
  }

  lemma FirstSymbols(bs: seq<byte>, x: int, y: int, z: int)
    requires bs != [] && x == bs[0] as int
    requires y == (if |bs| > 1 then bs[1] as int else 0) && z == (if |bs| > 2 then bs[2] as int else 0)
    ensures 0 <= x / 4 < 64 && 0 <= x % 4 * 16 + y / 16 < 64 && 0 <= y % 16 * 4 + z / 64 < 64
    ensures |Encode(bs)| >= 4
    ensures Encode(bs)[0] == Symbol(x / 4) && Encode(bs)[1] == Symbol(x % 4 * 16 + y / 16)
    ensures Encode(bs)[2] == if |bs| > 1 then Symbol(y % 16 * 4 + z / 64) else '='
    ensures Encode(bs)[3] == if |bs| > 2 then Symbol(z % 64) else '='
    ensures |bs| > 3 ==> Encode(bs)[4..] == Encode(bs[3..])
  {
    GroupBits(x, y, z);
  }

  /** Three bytes are one number, the first of them its highest, and four symbols are its
      digits to the base 64; what is missing at the end counts as zero bits. */
  lemma GroupIsOneNumber(bs: seq<byte>)
    requires bs != []
    ensures var n := bs[0] as int * 0x1_0000 + (if |bs| > 1 then bs[1] as int * 0x100 else 0)
                     + (if |bs| > 2 then bs[2] as int else 0);
            && |Encode(bs)| >= 4
            && Encode(bs)[0] == Symbol(n / 0x4_0000) && Encode(bs)[1] == Symbol(n / 0x1000 % 0x40)
            && Encode(bs)[2] == (if |bs| > 1 then Symbol(n / 0x40 % 0x40) else '=')
            && Encode(bs)[3] == (if |bs| > 2 then Symbol(n % 0x40) else '=')
            && (|bs| > 3 ==> Encode(bs)[4..] == Encode(bs[3..]))
  {
    var x, y, z := bs[0] as int, if |bs| > 1 then bs[1] as int else 0, if |bs| > 2 then bs[2] as int else 0;
    FirstSymbols(bs, x, y, z);
    GroupDigits(x, y, z);
  }

  // --------------------------------------------- what the decoder puts up with

  type Sextet = v: int | 0 <= v < 64

  /** The values of the characters that have one. */
  function Values(s: string): (values: seq<Sextet>) {
    if s == "" then []
    else if Value(s[0]) < 64 then [Value(s[0])] + Values(s[1..])
    else Values(s[1..])
  }

  function Symbols(values: seq<Sextet>): (s: string)
    ensures |s| == |values| && forall i | 0 <= i < |s| :: s[i] == Symbol(values[i])
  {
    seq(|values|, i requires 0 <= i < |values| => Symbol(values[i]))
  }

  lemma OneValueMore(c: char, rest: string, more: string, quad: int, left: int, pads: nat)
    requires c != '=' && Value(c) < 64 && 0 <= quad < 4
    requires 0 <= left < (if quad == 1 then 64 else if quad == 2 then 16 else if quad == 3 then 4 else 1)
    requires Scan(rest, (quad + 1) % 4, LeftOver(quad, Value(c)), 0)
          == Scan(more, (quad + 1) % 4, LeftOver(quad, Value(c)), 0)
    ensures Scan([c] + rest, quad, left, pads) == Scan([Symbol(Value(c))] + more, quad, left, 0)
  {
    assert ([c] + rest)[1..] == rest;
    ScanSymbol(Value(c), more, quad, left, 0);
  }

  /** A text without padding is read for the values of its characters alone. */
  lemma {:induction false} OnlyValuesCount(s: string, quad: int, left: int, pads: nat)
    requires 0 <= quad < 4 && '=' !in s
    requires 0 <= left < (if quad == 1 then 64 else if quad == 2 then 16 else if quad == 3 then 4 else 1)
    ensures Scan(s, quad, left, pads) == Scan(Symbols(Values(s)), quad, left, 0)
    decreases |s|
  {
    if s != "" {
      var v, more := Value(s[0]), Symbols(Values(s[1..]));
      if v == 64 {
        OnlyValuesCount(s[1..], quad, left, pads);
      } else {
        OnlyValuesCount(s[1..], (quad + 1) % 4, LeftOver(quad, v), 0);
        OneValueMore(s[0], s[1..], more, quad, left, pads);
        assert s == [s[0]] + s[1..] && Symbols(Values(s)) == [Symbol(v)] + more;
      }
    }
  }

  /** The bits of a value that the next byte still needs. */
  function LeftOver(quad: int, v: int): (left: int) {
    if quad == 0 then v else if quad == 1 then v % 16 else if quad == 2 then v % 4 else 0
  }

  lemma GroupOf(p: int, q: int, r: int, t: int) returns (a: byte, b: byte, c: byte)
    requires 0 <= p < 64 && 0 <= q < 64 && 0 <= r < 64 && 0 <= t < 64
    ensures a as int == p * 4 + q / 16 && b as int == q % 16 * 16 + r / 4 && c as int == r % 4 * 64 + t
    ensures a as int / 4 == p && a as int % 4 * 16 + b as int / 16 == q
    ensures b as int % 16 * 4 + c as int / 64 == r && c as int % 64 == t
  {
    var x: int, y: int, z: int := p * 4 + q / 16, q % 16 * 16 + r / 4, r % 4 * 64 + t;
    assert z / 64 == r % 4;
    assert y == 16 * (q % 16) + r / 4;
    a, b, c := x as byte, y as byte, z as byte;
  }

  lemma GroupIsWritten(p: int, q: int, r: int, t: int, a: byte, b: byte, c: byte, rest: seq<byte>)
    requires 0 <= p < 64 && 0 <= q < 64 && 0 <= r < 64 && 0 <= t < 64
    requires a as int / 4 == p && a as int % 4 * 16 + b as int / 16 == q
    requires b as int % 16 * 4 + c as int / 64 == r && c as int % 64 == t
    ensures Encode([a] + ([b] + ([c] + rest))) == [Symbol(p), Symbol(q), Symbol(r), Symbol(t)] + Encode(rest)
  {
    var bs := [a] + ([b] + ([c] + rest));
    assert bs[0] == a && bs[1] == b && bs[2] == c && bs[3..] == rest;
  }

  lemma EmittedGroup(p: int, q: int, r: int, t: int, tail: Result<seq<byte>, string>)
    returns (whole: Result<seq<byte>, string>)
    requires 0 <= p < 64 && 0 <= q < 64 && 0 <= r < 64 && 0 <= t < 64
    ensures whole == Emit(p * 4 + q / 16, Emit(q % 16 * 16 + r / 4, Emit(r % 4 * 64 + t, tail)))
    ensures whole.Ok? <==> tail.Ok?
    ensures tail.Ok? ==> Encode(whole.value) == [Symbol(p), Symbol(q), Symbol(r), Symbol(t)] + Encode(tail.value)
  {
    var a, b, c := GroupOf(p, q, r, t);
    whole := Emit(a as int, Emit(b as int, Emit(c as int, tail)));
    if tail.Ok? {
      GroupIsWritten(p, q, r, t, a, b, c, tail.value);
    }
  }

  lemma FirstGroup(values: seq<Sextet>)
    requires |values| >= 4
    ensures Symbols(values)
         == [Symbol(values[0]), Symbol(values[1]), Symbol(values[2]), Symbol(values[3])] + Symbols(values[4..])
  {
  }

  lemma GroupIsDecoded(p: int, q: int, r: int, t: int, rest: string, tail: Result<seq<byte>, string>)
    requires 0 <= p < 64 && 0 <= q < 64 && 0 <= r < 64 && 0 <= t < 64 && tail == Decode(rest)
    ensures var group := [Symbol(p), Symbol(q), Symbol(r), Symbol(t)];
            var whole := Decode(group + rest);
            && (whole.Ok? <==> tail.Ok?)
            && (tail.Ok? ==> Encode(whole.value) == group + Encode(tail.value))
  {
    ScanFour(p, q, r, t, rest);
    var whole := EmittedGroup(p, q, r, t, tail);
    assert Decode([Symbol(p), Symbol(q), Symbol(r), Symbol(t)] + rest) == whole;
  }

  /** The text decodes, to the bytes it encodes, when it is made of whole groups. */
  predicate WholeGroupsDecode(text: string) {
    var r := Decode(text);
    (r.Ok? <==> |text| % 4 == 0) && (r.Ok? ==> Encode(r.value) == text)
  }

  lemma OneGroupMore(p: int, q: int, r: int, t: int, rest: string)
    requires 0 <= p < 64 && 0 <= q < 64 && 0 <= r < 64 && 0 <= t < 64 && WholeGroupsDecode(rest)
    ensures WholeGroupsDecode([Symbol(p), Symbol(q), Symbol(r), Symbol(t)] + rest)
  {
    GroupIsDecoded(p, q, r, t, rest, Decode(rest));
  }

  /** Without padding, whole groups of four decode to the bytes they encode, and anything
      else is an error. */
  lemma {:induction false} DecodedExactlyWhen(values: seq<Sextet>)
    ensures WholeGroupsDecode(Symbols(values))
    decreases |values|
  {
    if |values| >= 4 {
      DecodedExactlyWhen(values[4..]);
      FirstGroup(values);
      OneGroupMore(values[0], values[1], values[2], values[3], Symbols(values[4..]));
    } else {
      ShortTailFails(values);
    }
  }

  lemma ShortTailFails(values: seq<Sextet>)
    requires |values| < 4
    ensures Decode(Symbols(values)) == if values == [] then Ok([]) else Err("incorrect padding")
  {
    if |values| >= 1 {
      var s := Symbols(values);
      assert s == [Symbol(values[0])] + s[1..];
      ScanSymbol(values[0], s[1..], 0, 0, 0);
      LaterTailFails(values, s[1..]);
    }
  }

  lemma LaterTailFails(values: seq<Sextet>, rest: string)
    requires 1 <= |values| < 4 && rest == Symbols(values)[1..]
    ensures Scan(rest, 1, values[0], 0) == Err("incorrect padding")
  {
    if |values| == 1 {
      assert rest == "";
    } else {
      assert rest == [Symbol(values[1])] + rest[1..];
      ScanSymbol(values[1], rest[1..], 1, values[0], 0);
      LastTailFails(values, rest[1..], values[1] % 16);
    }
  }

  lemma LastTailFails(values: seq<Sextet>, rest: string, left: int)
    requires 2 <= |values| < 4 && rest == Symbols(values)[2..] && 0 <= left < 16
    ensures Scan(rest, 2, left, 0) == Err("incorrect padding")
  {
    if |values| == 2 {
      assert rest == "";
    } else {
      assert rest == [Symbol(values[2])] + "";
      ScanSymbol(values[2], "", 2, left, 0);
    }
  }

  /** Padding that does not close a group is an error at the end, and nothing elsewhere. */
  lemma LonePaddingFails(p: int, q: int)
    requires 0 <= p < 64 && 0 <= q < 64
    ensures Decode([Symbol(p), Symbol(q), '=']) == Err("incorrect padding")
  {
    ScanSymbol(p, [Symbol(q), '='], 0, 0, 0);
    assert [Symbol(p), Symbol(q), '='] == [Symbol(p)] + [Symbol(q), '='];
    assert [Symbol(q), '='] == [Symbol(q)] + "=";
    ScanSymbol(q, "=", 1, p, 0);
    assert "="[1..] == "";
  }

  lemma LonePaddingIsPassedOver(p: int, q: int, r: int, rest: string)
    requires 0 <= p < 64 && 0 <= q < 64 && 0 <= r < 64
    ensures Scan(['='] + ([Symbol(r)] + rest), 2, q % 16, 0) == Scan([Symbol(r)] + rest, 2, q % 16, 0)
    ensures Scan(['='] + ([Symbol(r)] + rest), 1, p, 0) == Scan([Symbol(r)] + rest, 1, p, 0)
    ensures Decode(['='] + rest) == Decode(rest)
  {
    assert (['='] + ([Symbol(r)] + rest))[1..] == [Symbol(r)] + rest;
    ScanSymbol(r, rest, 2, q % 16, 0);
    ScanSymbol(r, rest, 2, q % 16, 1);
    assert (['='] + rest)[1..] == rest;
  }

  lemma OneByteAndPadding(a: byte, junk: string)
    ensures Decode(Encode([a]) + junk) == Ok([a])
  {
    var x := a as int;
    var s1 := [Symbol(x % 4 * 16)] + ("==" + junk);
    assert Encode([a]) + junk == [Symbol(x / 4)] + s1;
    ScanSymbol(x / 4, s1, 0, 0, 0);
    ScanSymbol(x % 4 * 16, "==" + junk, 1, x / 4, 0);
    assert ("==" + junk)[1..] == "=" + junk;
    assert x / 4 * 4 + x % 4 * 16 / 16 == x;
    assert [x as byte] + [] == [a];
  }

  lemma TwoBytesAndPadding(a: byte, b: byte, junk: string)
    ensures Decode(Encode([a, b]) + junk) == Ok([a, b])
  {
    var x, y := a as int, b as int;
    var s2 := [Symbol(y % 16 * 4)] + ("=" + junk);
    var s1 := [Symbol(x % 4 * 16 + y / 16)] + s2;
    assert Encode([a, b]) + junk == [Symbol(x / 4)] + s1;
    ScanSymbol(x / 4, s1, 0, 0, 0);
    ScanSymbol(x % 4 * 16 + y / 16, s2, 1, x / 4, 0);
    HighAndLow(x % 4, y / 16);
    ScanSymbol(y % 16 * 4, "=" + junk, 2, y / 16 % 16, 0);
    assert ("=" + junk)[0] == '=';
    assert x / 4 * 4 + (x % 4 * 16 + y / 16) / 16 == x;
    assert y / 16 * 16 + y % 16 * 4 / 4 == y;
    assert [x as byte] + ([y as byte] + []) == [a, b];
  }

  /** Padding that closes a group closes the text: nothing behind it is read. */
  lemma {:induction false} NothingIsReadBehindPadding(bs: seq<byte>, junk: string)
    requires |bs| % 3 != 0
    ensures Decode(Encode(bs) + junk) == Ok(bs)
  {
    if |bs| >= 3 {
      var (x, y, z) := (bs[0] as int, bs[1] as int, bs[2] as int);
      var group := [Symbol(x / 4), Symbol(x % 4 * 16 + y / 16), Symbol(y % 16 * 4 + z / 64), Symbol(z % 64)];
      assert Encode(bs) == group + Encode(bs[3..]);
      assert Encode(bs) + junk == group + (Encode(bs[3..]) + junk);
      ScanGroup(bs[0], bs[1], bs[2], Encode(bs[3..]) + junk);
      NothingIsReadBehindPadding(bs[3..], junk);
      assert bs == [bs[0]] + ([bs[1]] + ([bs[2]] + bs[3..]));
    } else if |bs| == 1 {
      OneByteAndPadding(bs[0], junk);
      assert bs == [bs[0]];
    } else {
      TwoBytesAndPadding(bs[0], bs[1], junk);
      assert bs == [bs[0], bs[1]];
    }
  }
}
