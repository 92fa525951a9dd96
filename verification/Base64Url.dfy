/** base64url (section 5 of RFC 4648) as the library writes it, and as its lenient
    decoder reads it back. */
module Base64Url {
  import opened Wrappers
  import opened Text

  function Symbol(v: int): (c: char)
    requires 0 <= v < 64
    ensures c != '=' && Value(c) == v
  {
    if v < 26 then 'A' + v as char
    else if v < 52 then 'a' + (v - 26) as char
    else if v < 62 then '0' + (v - 52) as char
    else if v == 62 then '-' else '_'
  }

  /** The decoder maps '-' and '_' onto '+' and '/' first, so it accepts all four;
      64 stands for every character outside the alphabet. */
  function Value(c: char): (v: int)
    ensures 0 <= v <= 64
  {
    if 'A' <= c <= 'Z' then c as int - 'A' as int
    else if 'a' <= c <= 'z' then c as int - 'a' as int + 26
    else if '0' <= c <= '9' then c as int - '0' as int + 52
    else if c == '-' || c == '+' then 62
    else if c == '_' || c == '/' then 63
    else 64
  }

  /** urlsafe_b64encode: three bytes become four symbols, a short tail is padded. */
  function Encode(bs: seq<byte>): (s: string) {
    if bs == [] then ""
    else
      var a := bs[0] as int;
      if |bs| == 1 then [Symbol(a / 4), Symbol(a % 4 * 16), '=', '=']
      else
        var b := bs[1] as int;
        if |bs| == 2 then [Symbol(a / 4), Symbol(a % 4 * 16 + b / 16), Symbol(b % 16 * 4), '=']
        else
          var c := bs[2] as int;
          [Symbol(a / 4), Symbol(a % 4 * 16 + b / 16), Symbol(b % 16 * 4 + c / 64), Symbol(c % 64)]
          + Encode(bs[3..])
  }

  function StripPadding(s: string): (r: string) {
    if s != "" && s[|s| - 1] == '=' then StripPadding(s[..|s| - 1]) else s
  }

  function Repeat(c: char, n: nat): (s: string)
    ensures |s| == n
  {
    if n == 0 then "" else [c] + Repeat(c, n - 1)
  }

  /** token + "=" * (-len(token) % 4) */
  function Repad(token: string): (s: string) {
    token + Repeat('=', -|token| % 4)
  }

  /** The lenient decoder: quad counts the symbols of the current group, left holds
      their unused bits, pads the padding seen. Foreign characters are skipped. */
  function Scan(s: string, quad: int, left: int, pads: nat): (r: Result<seq<byte>, string>)
    requires 0 <= quad < 4
    requires 0 <= left < (if quad == 1 then 64 else if quad == 2 then 16 else if quad == 3 then 4 else 1)
  {
    if s == "" then (if quad == 0 then Ok([]) else Err("incorrect padding"))
    else if s[0] == '=' then
      if quad >= 2 && quad + pads + 1 >= 4 then Ok([])
      else Scan(s[1..], quad, left, if quad >= 2 then pads + 1 else pads)
    else
      var v := Value(s[0]);
      if v == 64 then Scan(s[1..], quad, left, pads)
      else if quad == 0 then Scan(s[1..], 1, v, 0)
      else if quad == 1 then Emit(left * 4 + v / 16, Scan(s[1..], 2, v % 16, 0))
      else if quad == 2 then Emit(left * 16 + v / 4, Scan(s[1..], 3, v % 4, 0))
      else Emit(left * 64 + v, Scan(s[1..], 0, 0, 0))
  }

  function Emit(b: int, rest: Result<seq<byte>, string>): (r: Result<seq<byte>, string>)
    requires 0 <= b < 256
  {
    match rest
    case Ok(bs) => Ok([b as byte] + bs)
    case Err(e) => Err(e)
  }

  function Decode(s: string): (r: Result<seq<byte>, string>) {
    Scan(s, 0, 0, 0)
  }

  // ---------------------------------------------------------------- proofs

  lemma ScanSymbol(v: int, s: string, quad: int, left: int, pads: nat)
    requires 0 <= v < 64 && 0 <= quad < 4
    requires 0 <= left < (if quad == 1 then 64 else if quad == 2 then 16 else if quad == 3 then 4 else 1)
    ensures Scan([Symbol(v)] + s, quad, left, pads) ==
            if quad == 0 then Scan(s, 1, v, 0)
            else if quad == 1 then Emit(left * 4 + v / 16, Scan(s, 2, v % 16, 0))
            else if quad == 2 then Emit(left * 16 + v / 4, Scan(s, 3, v % 4, 0))
            else Emit(left * 64 + v, Scan(s, 0, 0, 0))
  {
    assert ([Symbol(v)] + s)[1..] == s;
  }

  lemma GroupBits(x: int, y: int, z: int)
    requires 0 <= x < 256 && 0 <= y < 256 && 0 <= z < 256
    ensures 0 <= x / 4 < 64 && 0 <= x % 4 * 16 + y / 16 < 64 && 0 <= y % 16 * 4 + z / 64 < 64 && 0 <= z % 64 < 64
    ensures x / 4 * 4 + (x % 4 * 16 + y / 16) / 16 == x && (x % 4 * 16 + y / 16) % 16 == y / 16
    ensures y / 16 * 16 + (y % 16 * 4 + z / 64) / 4 == y && (y % 16 * 4 + z / 64) % 4 == z / 64
    ensures z / 64 * 64 + z % 64 == z
  {
    HighAndLow(x % 4, y / 16);
    assert (y % 16 * 4 + z / 64) / 4 == y % 16;
  }

  lemma HighAndLow(high: int, low: int)
    requires 0 <= low < 16
    ensures (high * 16 + low) / 16 == high && (high * 16 + low) % 16 == low
  {
  }

  lemma ScanFour(p: int, q: int, r: int, t: int, s: string)
    requires 0 <= p < 64 && 0 <= q < 64 && 0 <= r < 64 && 0 <= t < 64
    ensures Scan([Symbol(p), Symbol(q), Symbol(r), Symbol(t)] + s, 0, 0, 0)
         == Emit(p * 4 + q / 16, Emit(q % 16 * 16 + r / 4, Emit(r % 4 * 64 + t, Scan(s, 0, 0, 0))))
  {
    var s3 := [Symbol(t)] + s;
    var s2 := [Symbol(r)] + s3;
    var s1 := [Symbol(q)] + s2;
    assert [Symbol(p), Symbol(q), Symbol(r), Symbol(t)] + s == [Symbol(p)] + s1;
    ScanSymbol(p, s1, 0, 0, 0);
    ScanSymbol(q, s2, 1, p, 0);
    ScanSymbol(r, s3, 2, q % 16, 0);
    ScanSymbol(t, s, 3, r % 4, 0);
  }

  lemma ScanGroup(a: byte, b: byte, c: byte, s: string)
    ensures var (x, y, z) := (a as int, b as int, c as int);
            Scan([Symbol(x / 4), Symbol(x % 4 * 16 + y / 16), Symbol(y % 16 * 4 + z / 64), Symbol(z % 64)] + s, 0, 0, 0)
            == Emit(x, Emit(y, Emit(z, Scan(s, 0, 0, 0))))
  {
    var (x, y, z) := (a as int, b as int, c as int);
    GroupBits(x, y, z);
    ScanFour(x / 4, x % 4 * 16 + y / 16, y % 16 * 4 + z / 64, z % 64, s);
  }

  lemma ScanPadding(left: int)
    ensures 0 <= left < 16 ==> Scan("==", 2, left, 0) == Ok([])
    ensures 0 <= left < 4 ==> Scan("=", 3, left, 0) == Ok([])
  {
    assert "=="[1..] == "=";
  }

  lemma ScanOneByte(a: byte)
    ensures Decode(Encode([a])) == Ok([a])
  {
    var x := a as int;
    var s1 := [Symbol(x % 4 * 16)] + "==";
    assert Encode([a]) == [Symbol(x / 4)] + s1;
    ScanSymbol(x / 4, s1, 0, 0, 0);
    ScanSymbol(x % 4 * 16, "==", 1, x / 4, 0);
    ScanPadding(x % 4 * 16 % 16);
    assert x / 4 * 4 + x % 4 * 16 / 16 == x;
    assert [x as byte] + [] == [a];
  }

  lemma ScanTwoBytes(a: byte, b: byte)
    ensures Decode(Encode([a, b])) == Ok([a, b])
  {
    var x, y := a as int, b as int;
    var s2 := [Symbol(y % 16 * 4)] + "=";
    var s1 := [Symbol(x % 4 * 16 + y / 16)] + s2;
    assert Encode([a, b]) == [Symbol(x / 4)] + s1;
    ScanSymbol(x / 4, s1, 0, 0, 0);
    ScanSymbol(x % 4 * 16 + y / 16, s2, 1, x / 4, 0);
    ScanSymbol(y % 16 * 4, "=", 2, y % 16, 0);
    ScanPadding(y % 16 * 4 % 4);
    assert x / 4 * 4 + (x % 4 * 16 + y / 16) / 16 == x;
    assert (x % 4 * 16 + y / 16) % 16 * 16 + y % 16 * 4 / 4 == y;
    assert [x as byte] + ([y as byte] + []) == [a, b];
  }

  /** Every byte string survives encoding and decoding. */
  lemma {:induction false} DecodeInvertsEncode(bs: seq<byte>)
    ensures Decode(Encode(bs)) == Ok(bs)
  {
    if |bs| >= 3 {
      ScanGroup(bs[0], bs[1], bs[2], Encode(bs[3..]));
      DecodeInvertsEncode(bs[3..]);
      assert bs == [bs[0]] + ([bs[1]] + ([bs[2]] + bs[3..]));
    } else if |bs| == 1 {
      ScanOneByte(bs[0]);
      assert bs == [bs[0]];
    } else if |bs| == 2 {
      ScanTwoBytes(bs[0], bs[1]);
      assert bs == [bs[0], bs[1]];
    }
  }

  /** How many padding characters an encoding ends in; none stand anywhere else. */
  lemma {:induction false} PaddingIsATail(bs: seq<byte>)
    ensures var n := -|bs| % 3;
            |Encode(bs)| >= n && |Encode(bs)| % 4 == 0
            && (forall i :: 0 <= i < |Encode(bs)| ==> (Encode(bs)[i] == '=' <==> i >= |Encode(bs)| - n))
  {
    if |bs| >= 3 {
      var rest := Encode(bs[3..]);
      PaddingIsATail(bs[3..]);
      assert -|bs[3..]| % 3 == -|bs| % 3;
      assert |Encode(bs)| == 4 + |rest| && Encode(bs)[4..] == rest;
      forall i | 0 <= i < |Encode(bs)|
        ensures Encode(bs)[i] == '=' <==> i >= |Encode(bs)| - -|bs| % 3
      {
        assert i >= 4 ==> Encode(bs)[i] == rest[i - 4];
      }
    }
  }

  lemma {:induction false} StripDropsTheTail(s: string, n: nat)
    requires n <= |s| && forall i :: 0 <= i < |s| ==> (s[i] == '=' <==> i >= |s| - n)
    ensures StripPadding(s) == s[..|s| - n]
  {
    if n > 0 {
      StripDropsTheTail(s[..|s| - 1], n - 1);
      assert s[..|s| - 1][..|s| - n] == s[..|s| - n];
    }
  }

  lemma {:induction false} RepeatIsConstant(c: char, n: nat)
    ensures forall i :: 0 <= i < n ==> Repeat(c, n)[i] == c
  {
    if n > 0 {
      RepeatIsConstant(c, n - 1);
    }
  }

  lemma PaddingOfLength(groups: int, n: int)
    requires 0 <= n < 4
    ensures -(4 * groups - n) % 4 == n
  {
    assert -(4 * groups - n) == 4 * -groups + n;
  }

  lemma TailIsRepeated(s: string, n: nat)
    requires n <= |s| && forall i :: |s| - n <= i < |s| ==> s[i] == '='
    ensures s == s[..|s| - n] + Repeat('=', n)
  {
    RepeatIsConstant('=', n);
  }

  /** Stripping the padding loses nothing: its length is recovered from the token's. */
  lemma RepadUndoesStrip(bs: seq<byte>)
    ensures Repad(StripPadding(Encode(bs))) == Encode(bs)
  {
    var s, n := Encode(bs), -|bs| % 3;
    PaddingIsATail(bs);
    StripDropsTheTail(s, n);
    TailIsRepeated(s, n);
    PaddingOfLength(|s| / 4, n);
  }

  lemma TokenRoundTrip(bs: seq<byte>)
    ensures Decode(Repad(StripPadding(Encode(bs)))) == Ok(bs)
  {
    RepadUndoesStrip(bs);
    DecodeInvertsEncode(bs);
  }
}
