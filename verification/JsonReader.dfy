/** A reader of compact JSON texts (RFC 8259), and what it makes of what json.dumps writes. */
module JsonReader {
  import opened Wrappers
  import opened Text
  import opened Json
  import opened JsonCanonical

  // -------------------------------------------------------------- the reader

  predicate IsCodePoint(n: int) {
    0 <= n < 0xD800 || 0xE000 <= n < 0x11_0000
  }

  /** The inside of a string literal up to its closing quote, and the text behind it. */
  function ReadChars(text: string): (r: Option<(string, string)>)
    ensures r.Some? ==> |r.value.1| < |text|
    decreases |text|
  {
    if text == "" then None
    else if text[0] == '"' then Some(("", text[1..]))
    else
      var (n, length) := ReadFirst(text);
      if !IsCodePoint(n) || length < 1 || length > |text| then None
      else
        match ReadChars(text[length..])
        case None => None
        case Some((s, rest)) => Some(([n as char] + s, rest))
  }

  function Digits(text: string): (n: nat)
    ensures n <= |text|
  {
    if text != "" && IsDigit(text[0]) then 1 + Digits(text[1..]) else 0
  }

  function ReadDecimal(text: string): (r: Option<(int, string)>)
    ensures r.Some? ==> |r.value.1| < |text|
  {
    var n := Digits(text);
    if n == 0 then None else Some((Numeral(text[..n]), text[n..]))
  }

  function ReadInt(text: string): (r: Option<(int, string)>)
    ensures r.Some? ==> |r.value.1| < |text|
  {
    if text != "" && text[0] == '-' then
      match ReadDecimal(text[1..])
      case None => None
      case Some((n, rest)) => Some((-n, rest))
    else ReadDecimal(text)
  }

  function ReadWord(word: string, v: Json, text: string): (r: Option<(Json, string)>)
    requires word != ""
    ensures r.Some? ==> |r.value.1| < |text|
  {
    if word <= text then Some((v, text[|word|..])) else None
  }

  predicate Opens(c: char, text: string) {
    text != "" && text[0] == c
  }

  /** The value at the front of a text, and the text behind it. */
  function Read(text: string): (r: Option<(Json, string)>)
    ensures r.Some? ==> |r.value.1| < |text|
    decreases |text|, 0
  {
    if text == "" then None
    else if text[0] == 'n' then ReadWord("null", Null, text)
    else if text[0] == 't' then ReadWord("true", Bool(true), text)
    else if text[0] == 'f' then ReadWord("false", Bool(false), text)
    else if text[0] == '"' then
      match ReadChars(text[1..])
      case None => None
      case Some((s, rest)) => Some((Str(s), rest))
    else if text[0] == '[' then
      if Opens(']', text[1..]) then Some((Arr([]), text[2..]))
      else
        match ReadItems(text[1..])
        case None => None
        case Some((items, rest)) => Some((Arr(items), rest))
    else if text[0] == '{' then
      if Opens('}', text[1..]) then Some((Obj([]), text[2..]))
      else
        match ReadMembers(text[1..])
        case None => None
        case Some((members, rest)) => Some((Obj(members), rest))
    else
      match ReadInt(text)
      case None => None
      case Some((n, rest)) => Some((Int(n), rest))
  }

  /** One element or more, up to the closing bracket. */
  function ReadItems(text: string): (r: Option<(seq<Json>, string)>)
    ensures r.Some? ==> |r.value.1| < |text|
    decreases |text|, 1
  {
    match Read(text)
    case None => None
    case Some((item, rest)) =>
      if Opens(']', rest) then Some(([item], rest[1..]))
      else if Opens(',', rest) then
        match ReadItems(rest[1..])
        case None => None
        case Some((items, end)) => Some(([item] + items, end))
      else None
  }

  /** One member or more, up to the closing brace. */
  function ReadMembers(text: string): (r: Option<(seq<Member>, string)>)
    ensures r.Some? ==> |r.value.1| < |text|
    decreases |text|, 1
  {
    match ReadMember(text)
    case None => None
    case Some((m, rest)) =>
      if Opens('}', rest) then Some(([m], rest[1..]))
      else if Opens(',', rest) then
        match ReadMembers(rest[1..])
        case None => None
        case Some((members, end)) => Some(([m] + members, end))
      else None
  }

  function ReadMember(text: string): (r: Option<(Member, string)>)
    ensures r.Some? ==> |r.value.1| < |text|
    decreases |text|, 0
  {
    if !Opens('"', text) then None
    else
      match ReadChars(text[1..])
      case None => None
      case Some((key, rest)) =>
        if !Opens(':', rest) then None
        else
          match Read(rest[1..])
          case None => None
          case Some((value, end)) => Some((Member(key, value), end))
  }

  // ------------------------------------------------- what is written is read

  lemma {:induction false} CharsAreRead(s: string, ascii: bool, rest: string)
    ensures ReadChars(WriteChars(s, ascii, rest)) == Some((s, rest))
    decreases |s|
  {
    var text := WriteChars(s, ascii, rest);
    if s != "" {
      var more := WriteChars(s[1..], ascii, rest);
      EscapeIsReadBack(s[0], ascii, more);
      assert text == Escape(s[0], ascii) + more && text[0] == Escape(s[0], ascii)[0];
      assert text[|Escape(s[0], ascii)|..] == more;
      CharsAreRead(s[1..], ascii, rest);
      assert s == [s[0]] + s[1..];
    }
  }

  lemma {:induction false} DigitsAreCounted(s: string, rest: string)
    requires forall i :: 0 <= i < |s| ==> IsDigit(s[i])
    requires rest == "" || !IsDigit(rest[0])
    ensures Digits(s + rest) == |s|
  {
    if s == "" {
      assert s + rest == rest;
    } else {
      assert (s + rest)[1..] == s[1..] + rest;
      DigitsAreCounted(s[1..], rest);
    }
  }

  lemma DecimalIsRead(n: nat, rest: string)
    requires rest == "" || !IsDigit(rest[0])
    ensures ReadDecimal(Decimal(n) + rest) == Some((n, rest))
  {
    DecimalIsTheNumeral(n);
    DigitsAreCounted(Decimal(n), rest);
    assert (Decimal(n) + rest)[..|Decimal(n)|] == Decimal(n) && (Decimal(n) + rest)[|Decimal(n)|..] == rest;
  }

  lemma NegativeIsRead(n: int, rest: string)
    requires 0 <= n
    requires rest == "" || !IsDigit(rest[0])
    ensures ReadInt(['-'] + (Decimal(n) + rest)) == Some((-n, rest))
  {
    DecimalIsRead(n, rest);
    assert (['-'] + (Decimal(n) + rest))[1..] == Decimal(n) + rest;
  }

  lemma PositiveIsRead(n: nat, rest: string)
    requires rest == "" || !IsDigit(rest[0])
    ensures ReadInt(Decimal(n) + rest) == Some((n, rest))
  {
    DecimalIsRead(n, rest);
    assert (Decimal(n) + rest)[0] == Decimal(n)[0];
  }

  lemma IntegerIsRead(n: int, rest: string)
    requires rest == "" || !IsDigit(rest[0])
    ensures ReadInt(Integer(n) + rest) == Some((n, rest))
  {
    if n < 0 {
      NegativeIsRead(-n, rest);
      assert "-" + Decimal(-n) + rest == ['-'] + (Decimal(-n) + rest);
    } else {
      PositiveIsRead(n, rest);
    }
  }

  lemma WordIsRead(word: string, v: Json, rest: string)
    requires word != ""
    ensures ReadWord(word, v, word + rest) == Some((v, rest))
  {
    assert (word + rest)[|word|..] == rest && (word + rest)[..|word|] == word;
  }

  lemma WordsAreRead(v: Json, ascii: bool, rest: string)
    requires v.Null? || v.Bool?
    ensures Read(Write(v, ascii, rest)) == Some((v, rest))
  {
    var word := if v.Null? then "null" else if v.b then "true" else "false";
    WordIsRead(word, v, rest);
    assert Write(v, ascii, rest)[0] == word[0];
  }

  lemma IntIsRead(n: int, rest: string)
    requires Delimited(rest)
    ensures Read(Integer(n) + rest) == Some((Int(n), rest))
  {
    var text := Integer(n) + rest;
    IntegerIsRead(n, rest);
    assert text != "" && text[0] == Integer(n)[0] && text[0] !in {'n', 't', 'f', '"', '[', '{'};
  }

  lemma StrIsRead(s: string, ascii: bool, rest: string)
    ensures Read(['"'] + WriteChars(s, ascii, rest)) == Some((Str(s), rest))
  {
    CharsAreRead(s, ascii, rest);
    assert (['"'] + WriteChars(s, ascii, rest))[1..] == WriteChars(s, ascii, rest);
  }

  lemma ArrIsRead(items: seq<Json>, ascii: bool, rest: string)
    requires items != [] ==> ReadItems(WriteItems(items, ascii, rest)) == Some((items, rest))
    ensures Read(['['] + WriteItems(items, ascii, rest)) == Some((Arr(items), rest))
  {
    var text, inside := ['['] + WriteItems(items, ascii, rest), WriteItems(items, ascii, rest);
    assert text[1..] == inside;
    if items == [] {
      assert text[2..] == rest;
    } else {
      FirstCharacterTells(items[0], ascii, AfterItem(items, ascii, rest));
      assert inside == Write(items[0], ascii, AfterItem(items, ascii, rest));
    }
  }

  lemma ObjIsRead(members: seq<Member>, ascii: bool, rest: string)
    requires members != [] ==> ReadMembers(WriteMembers(members, ascii, rest)) == Some((members, rest))
    ensures Read(['{'] + WriteMembers(members, ascii, rest)) == Some((Obj(members), rest))
  {
    var text := ['{'] + WriteMembers(members, ascii, rest);
    assert text[1..] == WriteMembers(members, ascii, rest);
    OnlyEmptyOpensWithBrace(members, ascii, rest);
    if members == [] {
      assert text[2..] == rest;
    }
  }

  /** What is written in front of a text that may follow a value is read back, and leaves
      that text. */
  lemma {:induction false} WrittenIsRead(v: Json, ascii: bool, rest: string)
    requires Delimited(rest)
    ensures Read(Write(v, ascii, rest)) == Some((v, rest))
    decreases v, 0
  {
    match v
    case Int(n) => IntIsRead(n, rest);
    case Str(s) => StrIsRead(s, ascii, rest);
    case Arr(items) =>
      if items != [] {
        ItemsAreRead(items, ascii, rest);
      }
      ArrIsRead(items, ascii, rest);
    case Obj(members) =>
      if members != [] {
        MembersAreRead(members, ascii, rest);
      }
      ObjIsRead(members, ascii, rest);
    case _ => WordsAreRead(v, ascii, rest);
  }

  lemma {:induction false} ItemsAreRead(items: seq<Json>, ascii: bool, rest: string)
    requires items != []
    ensures ReadItems(WriteItems(items, ascii, rest)) == Some((items, rest))
    decreases items, 1
  {
    var behind := AfterItem(items, ascii, rest);
    WrittenIsRead(items[0], ascii, behind);
    assert WriteItems(items, ascii, rest) == Write(items[0], ascii, behind);
    assert items == [items[0]] + items[1..];
    if |items| == 1 {
      assert items == [items[0]] && behind[1..] == rest;
    } else {
      assert behind[1..] == WriteItems(items[1..], ascii, rest);
      ItemsAreRead(items[1..], ascii, rest);
    }
  }

  lemma {:induction false} MembersAreRead(members: seq<Member>, ascii: bool, rest: string)
    requires members != []
    ensures ReadMembers(WriteMembers(members, ascii, rest)) == Some((members, rest))
    decreases members, 1
  {
    var behind := AfterMember(members, ascii, rest);
    MemberIsRead(members[0], ascii, behind);
    assert WriteMembers(members, ascii, rest) == WriteMember(members[0], ascii, behind);
    assert members == [members[0]] + members[1..];
    if |members| == 1 {
      assert members == [members[0]] && behind[1..] == rest;
    } else {
      assert behind[1..] == WriteMembers(members[1..], ascii, rest);
      MembersAreRead(members[1..], ascii, rest);
    }
  }

  lemma {:induction false} MemberIsRead(m: Member, ascii: bool, rest: string)
    requires Delimited(rest)
    ensures ReadMember(WriteMember(m, ascii, rest)) == Some((m, rest))
    decreases m, 0
  {
    var text, value := WriteMember(m, ascii, rest), [':'] + Write(m.value, ascii, rest);
    assert text[1..] == WriteChars(m.key, ascii, value);
    CharsAreRead(m.key, ascii, value);
    assert value[1..] == Write(m.value, ascii, rest);
    WrittenIsRead(m.value, ascii, rest);
  }

  // --------------------------------------------------------- json.dumps as a whole

  /** Every object, at any depth, has its keys in order. */
  predicate Ordered(v: Json) {
    match v
    case Arr(items) => forall e | e in items :: Ordered(e)
    case Obj(members) => SortedByKey(members) && forall m | m in members :: Ordered(m.value)
    case _ => true
  }

  lemma NormalObjectIsOrdered(members: seq<Member>)
    requires DistinctKeys(members)
    requires forall m | m in members :: Ordered(Normalize(m.value)) && SameValue(m.value, Normalize(m.value))
    ensures Ordered(Normalize(Obj(members))) && SameValue(Obj(members), Normalize(Obj(members)))
  {
    var normal := NormalizeMembers(members);
    var sorted := SortByKey(normal);
    SortOrders(normal);
    SortKeepsElements(normal);
    forall m | m in members
      ensures NormalizeMember(m) in sorted && SameMember(m, NormalizeMember(m))
    {
      var i :| 0 <= i < |members| && members[i] == m;
      assert normal[i] == NormalizeMember(m);
    }
    forall n | n in sorted
      ensures exists m :: m in members && n == NormalizeMember(m)
    {
      var i :| 0 <= i < |normal| && normal[i] == n;
      assert members[i] in members;
    }
  }

  lemma {:induction false} NormalFormIsOrdered(v: Json)
    requires WellFormed(v)
    ensures Ordered(Normalize(v)) && SameValue(v, Normalize(v))
    decreases v
  {
    match v
    case Arr(items) =>
      forall i | 0 <= i < |items|
        ensures Ordered(Normalize(items[i])) && SameValue(items[i], Normalize(items[i]))
      {
        NormalFormIsOrdered(items[i]);
      }
    case Obj(members) =>
      forall m | m in members
        ensures Ordered(Normalize(m.value)) && SameValue(m.value, Normalize(m.value))
      {
        NormalFormIsOrdered(m.value);
      }
      NormalObjectIsOrdered(members);
    case _ =>
  }

  /** A reader gets back the value, with the keys of every object in order, and nothing is
      left over: a text that is written is complete and means what it was written for. */
  lemma DumpsIsReadBack(v: Json, ascii: bool)
    requires WellFormed(v)
    ensures var r := Read(Dumps(v, ascii));
            r.Some? && r.value.1 == "" && SameValue(v, r.value.0) && Ordered(r.value.0)
  {
    WrittenIsRead(Normalize(v), ascii, "");
    NormalFormIsOrdered(v);
  }

  // ---------------------------------------------------------- how it is spelled

  /** Only what has to be escaped is: the quote, the backslash and the controls, and with
      ascii all that is not printable ASCII; the five controls with a short form have it. */
  lemma EscapedExactlyWhen(c: char, ascii: bool)
    ensures var n, e := c as int, Escape(c, ascii);
            && (e == [c] <==> n >= 0x20 && n != 0x22 && n != 0x5C && (ascii ==> n <= 0x7E))
            && (|e| == 2 <==> n in {0x08, 0x09, 0x0A, 0x0C, 0x0D, 0x22, 0x5C})
            && (|e| == 12 <==> ascii && n >= 0x1_0000)
            && (|e| in {1, 2, 6, 12})
  {
  }

  /** Four lower-case hexadecimal digits are ASCII, and so is all that ascii writes. */
  lemma HexIsAscii(n: int)
    requires 0 <= n < 0x1_0000
    ensures forall d | d in "\\u" + Hex4(n) :: 0x20 <= d as int <= 0x7E
  {
  }

  lemma LongEscapeIsAscii(c: char)
    requires |Escape(c, true)| > 2
    ensures forall d | d in Escape(c, true) :: 0x20 <= d as int <= 0x7E
  {
    var n := c as int;
    LongEscape(c, true);
    if n < 0x1_0000 {
      HexIsAscii(n);
    } else {
      HexIsAscii(0xD800 + (n - 0x1_0000) / 0x400);
      HexIsAscii(0xDC00 + (n - 0x1_0000) % 0x400);
    }
  }

  lemma EscapeIsAscii(c: char)
    ensures forall d | d in Escape(c, true) :: 0x20 <= d as int <= 0x7E
  {
    if |Escape(c, true)| > 2 {
      LongEscapeIsAscii(c);
    }
  }
}
