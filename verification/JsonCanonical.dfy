/** Two JSON values are written alike exactly when they are the same value. */
module JsonCanonical {
  import opened Text
  import opened Json

  lemma Uncons<T>(c: T, x: seq<T>, d: T, y: seq<T>)
    requires [c] + x == [d] + y
    ensures c == d && x == y
  {
    assert ([c] + x)[0] == ([d] + y)[0];
    assert ([c] + x)[1..] == x && ([d] + y)[1..] == y;
  }

  // ------------------------------------------------- strings are read back

  /** The code point a reader takes from the front of an escaped string, and how many
      characters it consumes. */
  function ReadFirst(text: string): (r: (int, nat))
    requires text != ""
  {
    if |text| < 2 || text[0] != '\\' then (text[0] as int, 1)
    else if text[1] == 'n' then (0x0A, 2)
    else if text[1] == 'r' then (0x0D, 2)
    else if text[1] == 't' then (0x09, 2)
    else if text[1] == 'b' then (0x08, 2)
    else if text[1] == 'f' then (0x0C, 2)
    else if |text| >= 6 && text[1] == 'u' && IsHex4(text[2..6]) then ReadUnit(text)
    else (text[1] as int, 2)
  }

  /** A four-digit escape, or the two that make up a surrogate pair. */
  function ReadUnit(text: string): (r: (int, nat))
    requires |text| >= 6 && IsHex4(text[2..6])
  {
    var high := Hex4Value(text[2..6]);
    if 0xD800 <= high < 0xDC00 && |text| >= 12 && IsHex4(text[8..12]) then
      (0x1_0000 + (high - 0xD800) * 0x400 + (Hex4Value(text[8..12]) - 0xDC00), 12)
    else (high, 6)
  }

  lemma UnitIsReadBack(n: int, rest: string)
    requires 0 <= n < 0xD800 || 0xE000 <= n < 0x1_0000
    ensures ReadFirst("\\u" + Hex4(n) + rest) == (n, 6)
  {
    var text := "\\u" + Hex4(n) + rest;
    assert text[2..6] == Hex4(n);
  }

  lemma PairIsReadBack(n: int, rest: string)
    requires 0x1_0000 <= n < 0x11_0000
    ensures var high, low := 0xD800 + (n - 0x1_0000) / 0x400, 0xDC00 + (n - 0x1_0000) % 0x400;
            ReadFirst("\\u" + Hex4(high) + "\\u" + Hex4(low) + rest) == (n, 12)
  {
    var high, low := 0xD800 + (n - 0x1_0000) / 0x400, 0xDC00 + (n - 0x1_0000) % 0x400;
    var text := "\\u" + Hex4(high) + "\\u" + Hex4(low) + rest;
    assert text[2..6] == Hex4(high);
    assert text[8..12] == Hex4(low);
  }

  lemma ShortEscapeIsReadBack(c: char, ascii: bool, rest: string)
    requires |Escape(c, ascii)| <= 2
    ensures ReadFirst(Escape(c, ascii) + rest) == (c as int, |Escape(c, ascii)|)
  {
    var e := Escape(c, ascii);
    var text := e + rest;
    assert text[0] == e[0];
    if |e| == 2 {
      assert text[1] == e[1];
    }
  }

  lemma LongEscape(c: char, ascii: bool)
    requires |Escape(c, ascii)| > 2
    ensures var n := c as int;
            if n < 0x1_0000 then Escape(c, ascii) == "\\u" + Hex4(n)
            else Escape(c, ascii)
                 == "\\u" + Hex4(0xD800 + (n - 0x1_0000) / 0x400) + "\\u" + Hex4(0xDC00 + (n - 0x1_0000) % 0x400)
  {
  }

  lemma EscapeIsReadBack(c: char, ascii: bool, rest: string)
    ensures ReadFirst(Escape(c, ascii) + rest) == (c as int, |Escape(c, ascii)|)
  {
    var n, e := c as int, Escape(c, ascii);
    if |e| <= 2 {
      ShortEscapeIsReadBack(c, ascii, rest);
    } else if n < 0x1_0000 {
      LongEscape(c, ascii);
      UnitIsReadBack(n, rest);
    } else {
      LongEscape(c, ascii);
      PairIsReadBack(n, rest);
    }
  }

  lemma EscapeEndsItself(c: char, x: string, d: char, y: string, ascii: bool)
    requires Escape(c, ascii) + x == Escape(d, ascii) + y
    ensures c == d && x == y
  {
    EscapeIsReadBack(c, ascii, x);
    EscapeIsReadBack(d, ascii, y);
    var p, q := Escape(c, ascii), Escape(d, ascii);
    assert x == (p + x)[|p|..] && y == (q + y)[|q|..];
  }

  lemma OnlyEmptyOpensWithQuote(s: string, ascii: bool, x: string)
    ensures WriteChars(s, ascii, x) != "" && (WriteChars(s, ascii, x)[0] == '"' <==> s == "")
  {
    if s != "" {
      assert WriteChars(s, ascii, x)[0] == Escape(s[0], ascii)[0];
    }
  }

  lemma {:induction false} CharsEndAtQuote(s: string, x: string, t: string, y: string, ascii: bool)
    requires WriteChars(s, ascii, x) == WriteChars(t, ascii, y)
    ensures s == t && x == y
  {
    OnlyEmptyOpensWithQuote(s, ascii, x);
    OnlyEmptyOpensWithQuote(t, ascii, y);
    if s == "" {
      Uncons('"', x, '"', y);
    } else {
      EscapeEndsItself(s[0], WriteChars(s[1..], ascii, x), t[0], WriteChars(t[1..], ascii, y), ascii);
      CharsEndAtQuote(s[1..], x, t[1..], y, ascii);
      assert s == [s[0]] + s[1..] && t == [t[0]] + t[1..];
    }
  }

  // -------------------------------------------------- whole values are read back

  /** What may follow a value: nothing, or a character no value goes on with. */
  predicate Delimited(rest: string) {
    rest == "" || rest[0] in {',', ']', '}'}
  }

  /** The constructor that the first character of a text gives away. */
  function Kind(v: Json): (k: int) {
    match v
    case Null => 0
    case Bool(b) => if b then 1 else 2
    case Int(_) => 3
    case Str(_) => 4
    case Arr(_) => 5
    case Obj(_) => 6
  }

  function KindOf(c: char): (k: int) {
    if c == 'n' then 0 else if c == 't' then 1 else if c == 'f' then 2
    else if c == '-' || IsDigit(c) then 3 else if c == '"' then 4 else if c == '[' then 5
    else if c == '{' then 6 else 7
  }

  lemma FirstCharacterTells(v: Json, ascii: bool, x: string)
    ensures Write(v, ascii, x) != "" && KindOf(Write(v, ascii, x)[0]) == Kind(v)
  {
    if v.Int? {
      assert Write(v, ascii, x)[0] == Integer(v.n)[0];
    }
  }

  lemma SplitAtLength(a: string, x: string, b: string, y: string)
    requires a + x == b + y && |a| == |b|
    ensures a == b && x == y
  {
    assert a == (a + x)[..|a|] && b == (b + y)[..|b|];
    assert x == (a + x)[|a|..] && y == (b + y)[|b|..];
  }

  /** Texts are self-delimiting: they fix the value and where it stops. */
  lemma {:induction false} ValueEndsItself(v: Json, x: string, w: Json, y: string, ascii: bool)
    requires Write(v, ascii, x) == Write(w, ascii, y)
    requires Delimited(x) && Delimited(y)
    ensures v == w && x == y
    decreases v, 0
  {
    FirstCharacterTells(v, ascii, x);
    FirstCharacterTells(w, ascii, y);
    match v
    case Null => SplitAtLength("null", x, "null", y);
    case Bool(b) =>
      var word := if b then "true" else "false";
      SplitAtLength(word, x, word, y);
    case Int(n) => NumeralEndsAtNonDigit(n, x, w.n, y);
    case Str(s) =>
      Uncons('"', WriteChars(s, ascii, x), '"', WriteChars(w.s, ascii, y));
      CharsEndAtQuote(s, x, w.s, y, ascii);
    case Arr(items) =>
      Uncons('[', WriteItems(items, ascii, x), '[', WriteItems(w.items, ascii, y));
      ItemsEndThemselves(items, x, w.items, y, ascii);
    case Obj(members) =>
      Uncons('{', WriteMembers(members, ascii, x), '{', WriteMembers(w.members, ascii, y));
      MembersEndThemselves(members, x, w.members, y, ascii);
  }

  /** What stands behind the first element of a non-empty list. */
  function AfterItem(items: seq<Json>, ascii: bool, rest: string): (r: string)
    requires items != []
    ensures Delimited(r)
  {
    if |items| == 1 then [']'] + rest else [','] + WriteItems(items[1..], ascii, rest)
  }

  lemma {:induction false} ItemsEndThemselves(vs: seq<Json>, x: string, ws: seq<Json>, y: string, ascii: bool)
    requires WriteItems(vs, ascii, x) == WriteItems(ws, ascii, y)
    ensures vs == ws && x == y
    decreases vs, 1
  {
    if vs == [] && ws == [] {
      Uncons(']', x, ']', y);
    } else if vs == [] {
      FirstCharacterTells(ws[0], ascii, AfterItem(ws, ascii, y));
    } else if ws == [] {
      FirstCharacterTells(vs[0], ascii, AfterItem(vs, ascii, x));
    } else {
      var p, q := AfterItem(vs, ascii, x), AfterItem(ws, ascii, y);
      ValueEndsItself(vs[0], p, ws[0], q, ascii);
      assert p[0] == q[0];
      assert vs == [vs[0]] + vs[1..] && ws == [ws[0]] + ws[1..];
      if |vs| == 1 {
        Uncons(']', x, ']', y);
      } else {
        Uncons(',', WriteItems(vs[1..], ascii, x), ',', WriteItems(ws[1..], ascii, y));
        ItemsEndThemselves(vs[1..], x, ws[1..], y, ascii);
      }
    }
  }

  function AfterMember(members: seq<Member>, ascii: bool, rest: string): (r: string)
    requires members != []
    ensures Delimited(r)
  {
    if |members| == 1 then ['}'] + rest else [','] + WriteMembers(members[1..], ascii, rest)
  }

  lemma {:induction false} MemberEndsItself(m: Member, x: string, n: Member, y: string, ascii: bool)
    requires WriteMember(m, ascii, x) == WriteMember(n, ascii, y)
    requires Delimited(x) && Delimited(y)
    ensures m == n && x == y
    decreases m, 0
  {
    var p, q := Write(m.value, ascii, x), Write(n.value, ascii, y);
    Uncons('"', WriteChars(m.key, ascii, [':'] + p), '"', WriteChars(n.key, ascii, [':'] + q));
    CharsEndAtQuote(m.key, [':'] + p, n.key, [':'] + q, ascii);
    Uncons(':', p, ':', q);
    ValueEndsItself(m.value, x, n.value, y, ascii);
  }

  lemma OnlyEmptyOpensWithBrace(members: seq<Member>, ascii: bool, x: string)
    ensures WriteMembers(members, ascii, x) != ""
    ensures WriteMembers(members, ascii, x)[0] == '}' <==> members == []
  {
    if members != [] {
      assert WriteMembers(members, ascii, x) == WriteMember(members[0], ascii, AfterMember(members, ascii, x));
    }
  }

  lemma {:induction false} MembersEndThemselves(ms: seq<Member>, x: string, ns: seq<Member>, y: string, ascii: bool)
    requires WriteMembers(ms, ascii, x) == WriteMembers(ns, ascii, y)
    ensures ms == ns && x == y
    decreases ms, 1
  {
    OnlyEmptyOpensWithBrace(ms, ascii, x);
    OnlyEmptyOpensWithBrace(ns, ascii, y);
    if ms == [] {
      Uncons('}', x, '}', y);
    } else {
      var p, q := AfterMember(ms, ascii, x), AfterMember(ns, ascii, y);
      MemberEndsItself(ms[0], p, ns[0], q, ascii);
      assert p[0] == q[0];
      assert ms == [ms[0]] + ms[1..] && ns == [ns[0]] + ns[1..];
      if |ms| == 1 {
        Uncons('}', x, '}', y);
      } else {
        Uncons(',', WriteMembers(ms[1..], ascii, x), ',', WriteMembers(ns[1..], ascii, y));
        MembersEndThemselves(ms[1..], x, ns[1..], y, ascii);
      }
    }
  }

  // ------------------------------------------- normal forms decide SameValue

  lemma {:induction false} InsertKeepsOrder(m: Member, sorted: seq<Member>)
    requires SortedByKey(sorted) && forall n | n in sorted :: n.key != m.key
    ensures SortedByKey(Insert(m, sorted))
  {
    var r := Insert(m, sorted);
    if sorted != [] {
      LessIsTotal(m.key, sorted[0].key);
      if Less(m.key, sorted[0].key) {
        forall j | 0 < j < |sorted| ensures Less(m.key, sorted[j].key) {
          LessIsTransitive(m.key, sorted[0].key, sorted[j].key);
        }
      } else {
        InsertKeepsOrder(m, sorted[1..]);
        forall n | n in r[1..] ensures Less(sorted[0].key, n.key) {
          assert n in multiset(Insert(m, sorted[1..]));
          assert n == m || n in sorted[1..];
        }
      }
    }
  }

  lemma {:induction false} SortOrders(members: seq<Member>)
    requires DistinctKeys(members)
    ensures SortedByKey(SortByKey(members))
  {
    if members != [] {
      SortOrders(members[1..]);
      forall n | n in SortByKey(members[1..]) ensures n.key != members[0].key {
        assert n in multiset(members[1..]);
      }
      InsertKeepsOrder(members[0], SortByKey(members[1..]));
    }
  }

  /** A strictly sorted list is fixed by its elements. */
  lemma {:induction false} SortedListsWithSameElements(a: seq<Member>, b: seq<Member>)
    requires SortedByKey(a) && SortedByKey(b)
    requires forall m :: m in a <==> m in b
    ensures a == b
  {
    assert |a| > 0 ==> a[0] in b;
    assert |b| > 0 ==> b[0] in a;
    if a != [] {
      LessIsTotal(a[0].key, b[0].key);
      assert a[0] == b[0];
      forall m ensures m in a[1..] <==> m in b[1..] {
        LessIsTotal(a[0].key, m.key);
        assert m in a <==> m == a[0] || m in a[1..];
        assert m in b <==> m == b[0] || m in b[1..];
      }
      SortedListsWithSameElements(a[1..], b[1..]);
      assert a == [a[0]] + a[1..] && b == [b[0]] + b[1..];
    }
  }

  lemma SortKeepsElements(members: seq<Member>)
    ensures forall m :: m in SortByKey(members) <==> m in members
  {
    assert forall m :: m in SortByKey(members) <==> m in multiset(SortByKey(members));
  }

  /** The normal form forgets member order and nothing else. */
  lemma {:induction false} NormalFormDecidesSameValue(v: Json, w: Json)
    requires WellFormed(v) && WellFormed(w)
    ensures SameValue(v, w) <==> Normalize(v) == Normalize(w)
    decreases v
  {
    match (v, w)
    case (Arr(xs), Arr(ys)) =>
      forall i | 0 <= i < |xs| == |ys| ensures SameValue(xs[i], ys[i]) <==> Normalize(xs[i]) == Normalize(ys[i]) {
        NormalFormDecidesSameValue(xs[i], ys[i]);
      }
      var p, q := NormalizeItems(xs), NormalizeItems(ys);
      if p == q {
        assert forall i :: 0 <= i < |xs| ==> p[i] == Normalize(xs[i]) && q[i] == Normalize(ys[i]);
      }
    case (Obj(ms), Obj(ns)) => NormalMembersDecideSameValue(ms, ns, v, w);
    case _ =>
  }

  lemma {:induction false} NormalMembersDecideSameValue(ms: seq<Member>, ns: seq<Member>, v: Json, w: Json)
    requires v == Obj(ms) && w == Obj(ns) && WellFormed(v) && WellFormed(w)
    ensures SameValue(v, w) <==> Normalize(v) == Normalize(w)
    decreases v, 0
  {
    var p, q := NormalizeMembers(ms), NormalizeMembers(ns);
    forall m, n | m in ms && n in ns ensures SameMember(m, n) <==> NormalizeMember(m) == NormalizeMember(n) {
      NormalFormDecidesSameValue(m.value, n.value);
    }
    SortOrders(p);
    SortOrders(q);
    if SameValue(v, w) {
      SameObjectsSortAlike(ms, ns, m => NormalizeMember(m), p, q);
    }
    if SortByKey(p) == SortByKey(q) {
      SortKeepsElements(p);
      SortKeepsElements(q);
      assert forall x :: x in p <==> x in q;
      AlikeMembersMatch(ms, ns);
    }
  }

  lemma SameObjectsSortAlike(ms: seq<Member>, ns: seq<Member>, f: Member -> Member, p: seq<Member>, q: seq<Member>)
    requires |p| == |ms| && forall i :: 0 <= i < |ms| ==> p[i] == f(ms[i])
    requires |q| == |ns| && forall j :: 0 <= j < |ns| ==> q[j] == f(ns[j])
    requires forall m, n :: m in ms && n in ns && SameMember(m, n) ==> f(m) == f(n)
    requires SameValue(Obj(ms), Obj(ns))
    requires SortedByKey(SortByKey(p)) && SortedByKey(SortByKey(q))
    ensures SortByKey(p) == SortByKey(q)
  {
    SameObjectsMatch(ms, ns, f);
    MatchedElementsHaveSameImages(f, ms, ns, p, q);
    SortKeepsElements(p);
    SortKeepsElements(q);
    SortedListsWithSameElements(SortByKey(p), SortByKey(q));
  }

  lemma SameObjectsMatch(ms: seq<Member>, ns: seq<Member>, f: Member -> Member)
    requires forall m, n :: m in ms && n in ns && SameMember(m, n) ==> f(m) == f(n)
    requires SameValue(Obj(ms), Obj(ns))
    ensures forall m | m in ms :: exists n :: n in ns && f(m) == f(n)
    ensures forall n | n in ns :: exists m :: m in ms && f(m) == f(n)
  {
  }

  lemma ImageIsMatched<A, B>(f: A -> B, ms: seq<A>, ns: seq<A>, p: seq<B>, q: seq<B>, x: B)
    requires |p| == |ms| && forall i :: 0 <= i < |ms| ==> p[i] == f(ms[i])
    requires |q| == |ns| && forall j :: 0 <= j < |ns| ==> q[j] == f(ns[j])
    requires forall m | m in ms :: exists n :: n in ns && f(m) == f(n)
    requires x in p
    ensures x in q
  {
    var i :| 0 <= i < |p| && p[i] == x;
    var n :| n in ns && f(ms[i]) == f(n);
    var j :| 0 <= j < |ns| && ns[j] == n;
    assert q[j] == x;
  }

  lemma MatchedElementsHaveSameImages<A, B>(f: A -> B, ms: seq<A>, ns: seq<A>, p: seq<B>, q: seq<B>)
    requires |p| == |ms| && forall i :: 0 <= i < |ms| ==> p[i] == f(ms[i])
    requires |q| == |ns| && forall j :: 0 <= j < |ns| ==> q[j] == f(ns[j])
    requires forall m | m in ms :: exists n :: n in ns && f(m) == f(n)
    requires forall n | n in ns :: exists m :: m in ms && f(n) == f(m)
    ensures forall x :: x in p <==> x in q
  {
    forall x
      ensures x in p <==> x in q
    {
      if x in p {
        ImageIsMatched(f, ms, ns, p, q, x);
      }
      if x in q {
        ImageIsMatched(f, ns, ms, q, p, x);
      }
    }
  }

  lemma AlikeMembersMatch(ms: seq<Member>, ns: seq<Member>)
    requires forall m, n :: m in ms && n in ns ==> (SameMember(m, n) <==> NormalizeMember(m) == NormalizeMember(n))
    requires forall x :: x in NormalizeMembers(ms) <==> x in NormalizeMembers(ns)
    ensures SameValue(Obj(ms), Obj(ns))
  {
    var p, q := NormalizeMembers(ms), NormalizeMembers(ns);
    forall m | m in ms ensures exists n :: n in ns && SameMember(m, n) {
      var i :| 0 <= i < |ms| && ms[i] == m;
      assert p[i] in q;
      var j :| 0 <= j < |q| && q[j] == p[i];
      assert ns[j] in ns && SameMember(m, ns[j]);
    }
    forall n | n in ns ensures exists m :: m in ms && SameMember(m, n) {
      var j :| 0 <= j < |ns| && ns[j] == n;
      assert q[j] in p;
      var i :| 0 <= i < |p| && p[i] == q[j];
      assert ms[i] in ms && SameMember(ms[i], n);
    }
  }

  /** canonical_json neither merges different values nor separates equal ones. */
  lemma DumpsDecidesSameValue(v: Json, w: Json, ascii: bool)
    requires WellFormed(v) && WellFormed(w)
    ensures Dumps(v, ascii) == Dumps(w, ascii) <==> SameValue(v, w)
  {
    NormalFormDecidesSameValue(v, w);
    if Dumps(v, ascii) == Dumps(w, ascii) {
      ValueEndsItself(Normalize(v), "", Normalize(w), "", ascii);
    }
  }
}
