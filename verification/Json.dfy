/** JSON values as json.dumps writes them: compact separators, keys sorted by
    code point, and strings escaped either minimally or down to ASCII. */
module Json {
  import opened Text

  /** A parsed JSON value; an object lists its members in insertion order. */
  datatype Json =
    | Null
    | Bool(b: bool)
    | Int(n: int)
    | Str(s: string)
    | Arr(items: seq<Json>)
    | Obj(members: seq<Member>)

  datatype Member = Member(key: string, value: Json)

  predicate DistinctKeys(members: seq<Member>) {
    forall i, j :: 0 <= i < j < |members| ==> members[i].key != members[j].key
  }

  /** A dict never holds a key twice, at any depth. */
  predicate WellFormed(v: Json) {
    match v
    case Arr(items) => forall e | e in items :: WellFormed(e)
    case Obj(members) => DistinctKeys(members) && forall m | m in members :: WellFormed(m.value)
    case _ => true
  }

  /** Equality of values: arrays element by element, objects as unordered mappings. */
  ghost predicate SameValue(v: Json, w: Json)
    decreases v, 0
  {
    match (v, w)
    case (Arr(xs), Arr(ys)) => |xs| == |ys| && forall i :: 0 <= i < |xs| ==> SameValue(xs[i], ys[i])
    case (Obj(ms), Obj(ns)) =>
      && (forall m | m in ms :: exists n :: n in ns && SameMember(m, n))
      && (forall n | n in ns :: exists m :: m in ms && SameMember(m, n))
    case _ => v == w
  }

  ghost predicate SameMember(m: Member, n: Member)
    decreases m, 0
  {
    m.key == n.key && SameValue(m.value, n.value)
  }

  // ------------------------------------------------------------- sort_keys

  predicate SortedByKey(members: seq<Member>) {
    forall i, j :: 0 <= i < j < |members| ==> Less(members[i].key, members[j].key)
  }

  function Insert(m: Member, sorted: seq<Member>): (r: seq<Member>)
    ensures multiset(r) == multiset{m} + multiset(sorted)
  {
    if sorted == [] || Less(m.key, sorted[0].key) then [m] + sorted
    else
      assert sorted == [sorted[0]] + sorted[1..];
      [sorted[0]] + Insert(m, sorted[1..])
  }

  function SortByKey(members: seq<Member>): (r: seq<Member>)
    ensures multiset(r) == multiset(members)
  {
    if members == [] then []
    else
      assert members == [members[0]] + members[1..];
      Insert(members[0], SortByKey(members[1..]))
  }

  /** sort_keys at every depth. */
  function Normalize(v: Json): (r: Json)
    decreases v, 0
  {
    match v
    case Arr(items) => Arr(NormalizeItems(items))
    case Obj(members) => Obj(SortByKey(NormalizeMembers(members)))
    case _ => v
  }

  function NormalizeItems(items: seq<Json>): (r: seq<Json>)
    ensures |r| == |items| && forall i :: 0 <= i < |items| ==> r[i] == Normalize(items[i])
    decreases items, 1
  {
    if items == [] then [] else [Normalize(items[0])] + NormalizeItems(items[1..])
  }

  function NormalizeMembers(members: seq<Member>): (r: seq<Member>)
    ensures |r| == |members| && forall i :: 0 <= i < |members| ==> r[i] == NormalizeMember(members[i])
    decreases members, 1
  {
    if members == [] then [] else [NormalizeMember(members[0])] + NormalizeMembers(members[1..])
  }

  function NormalizeMember(m: Member): (r: Member)
    decreases m, 0
  {
    Member(m.key, Normalize(m.value))
  }

  // --------------------------------------------------------------- writing

  predicate IsHex(c: char) {
    IsDigit(c) || 'a' <= c <= 'f'
  }

  function HexValue(c: char): (d: int)
    requires IsHex(c)
  {
    if IsDigit(c) then c as int - '0' as int else c as int - 'a' as int + 10
  }

  function Hex(d: int): (c: char)
    requires 0 <= d < 16
    ensures IsHex(c) && HexValue(c) == d
  {
    if d < 10 then '0' + d as char else 'a' + (d - 10) as char
  }

  predicate IsHex4(s: string) {
    |s| == 4 && IsHex(s[0]) && IsHex(s[1]) && IsHex(s[2]) && IsHex(s[3])
  }

  function Hex4Value(s: string): (n: int)
    requires IsHex4(s)
  {
    ((HexValue(s[0]) * 16 + HexValue(s[1])) * 16 + HexValue(s[2])) * 16 + HexValue(s[3])
  }

  function Hex4(n: int): (s: string)
    requires 0 <= n < 0x1_0000
    ensures IsHex4(s) && Hex4Value(s) == n
  {
    [Hex(n / 16 / 16 / 16), Hex(n / 16 / 16 % 16), Hex(n / 16 % 16), Hex(n % 16)]
  }

  /** One character inside a JSON string (section 7 of RFC 8259). With ascii, every
      code point above 0x7E is written as one or two UTF-16 escapes. */
  function Escape(c: char, ascii: bool): (s: string)
    ensures s != "" && s[0] != '"'
  {
    var n := c as int;
    if c == '"' || c == '\\' then ['\\', c]
    else if c == '\n' then "\\n"
    else if c == '\r' then "\\r"
    else if c == '\t' then "\\t"
    else if n == 0x08 then "\\b"
    else if n == 0x0C then "\\f"
    else if n < 0x20 then "\\u" + Hex4(n)
    else if !ascii || n < 0x7F then [c]
    else if n < 0x1_0000 then "\\u" + Hex4(n)
    else "\\u" + Hex4(0xD800 + (n - 0x1_0000) / 0x400) + "\\u" + Hex4(0xDC00 + (n - 0x1_0000) % 0x400)
  }

  /** The inside of a string literal, its closing quote, and the text after it. */
  function WriteChars(s: string, ascii: bool, rest: string): (r: string) {
    if s == "" then ['"'] + rest else Escape(s[0], ascii) + WriteChars(s[1..], ascii, rest)
  }

  /** The text of v, written in front of the text that follows it. */
  function Write(v: Json, ascii: bool, rest: string): (r: string)
    decreases v, 0
  {
    match v
    case Null => "null" + rest
    case Bool(b) => (if b then "true" else "false") + rest
    case Int(n) => Integer(n) + rest
    case Str(s) => ['"'] + WriteChars(s, ascii, rest)
    case Arr(items) => ['['] + WriteItems(items, ascii, rest)
    case Obj(members) => ['{'] + WriteMembers(members, ascii, rest)
  }

  function WriteItems(items: seq<Json>, ascii: bool, rest: string): (r: string)
    decreases items, 1
  {
    if items == [] then [']'] + rest
    else if |items| == 1 then Write(items[0], ascii, [']'] + rest)
    else Write(items[0], ascii, [','] + WriteItems(items[1..], ascii, rest))
  }

  function WriteMembers(members: seq<Member>, ascii: bool, rest: string): (r: string)
    decreases members, 1
  {
    if members == [] then ['}'] + rest
    else if |members| == 1 then WriteMember(members[0], ascii, ['}'] + rest)
    else WriteMember(members[0], ascii, [','] + WriteMembers(members[1..], ascii, rest))
  }

  function WriteMember(m: Member, ascii: bool, rest: string): (r: string)
    decreases m, 0
  {
    ['"'] + WriteChars(m.key, ascii, [':'] + Write(m.value, ascii, rest))
  }

  /** json.dumps(value, sort_keys=True, separators=(",", ":")), with ensure_ascii as given. */
  function Dumps(v: Json, ascii: bool): (r: string) {
    Write(Normalize(v), ascii, "")
  }
}
