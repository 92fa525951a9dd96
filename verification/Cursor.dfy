/** CursorCodec: pagination cursors signed for one tenant, principal, authorization
    version and query. */
module Cursor {
  import opened Wrappers
  import opened Text
  import opened Json
  import opened JsonCanonical
  import Base64Url

  /** The caller a cursor is bound to; identifiers in their canonical text form. */
  datatype Context = Context(tenant: string, principal: string, version: int, query: string)

  datatype CursorError =
    | InvalidCursor
    | ForeignPayload  // signed, but not a text that encode writes

  type Mac = (seq<byte>, seq<byte>) -> seq<byte>

  /** HMAC-SHA256 always yields 32 bytes; nothing else is assumed of it. */
  ghost predicate Sized(hmac: Mac) {
    forall key, text :: |hmac(key, text)| == 32
  }

  function Payload(ctx: Context, position: string): (v: Json) {
    Obj([
      Member("t", Str(ctx.tenant)),
      Member("p", Str(ctx.principal)),
      Member("v", Int(ctx.version)),
      Member("o", Str(position)),
      Member("q", Str(ctx.query))
    ])
  }

  function Encode(hmac: Mac, secret: seq<byte>, ctx: Context, position: string): (token: string) {
    var payload := Utf8(Dumps(Payload(ctx, position), true));
    Base64Url.StripPadding(Base64Url.Encode(payload + hmac(secret, payload)))
  }

  /** json.loads on compact texts: the value whose text this is. The text fixes it. */
  ghost function Loads(text: seq<byte>): (r: Option<Json>)
    ensures r.Some? ==> Utf8(Write(r.value, true, "")) == text
  {
    if exists v :: Utf8(Write(v, true, "")) == text then
      var v :| Utf8(Write(v, true, "")) == text;
      Some(v)
    else None
  }

  function Lookup(members: seq<Member>, key: string): (r: Option<Json>) {
    if members == [] then None
    else if members[0].key == key then Some(members[0].value)
    else Lookup(members[1..], key)
  }

  ghost function Decode(hmac: Mac, secret: seq<byte>, token: string, ctx: Context): (r: Result<string, CursorError>) {
    match Base64Url.Decode(Base64Url.Repad(token))
    case Err(_) => Err(InvalidCursor)
    case Ok(raw) =>
      var cut := if |raw| < 32 then 0 else |raw| - 32;
      if raw[cut..] != hmac(secret, raw[..cut]) then Err(InvalidCursor)
      else Checked(Loads(raw[..cut]), ctx)
  }

  function Checked(data: Option<Json>, ctx: Context): (r: Result<string, CursorError>) {
    match data
    case Some(Obj(members)) =>
      if Lookup(members, "t") != Some(Str(ctx.tenant))
         || Lookup(members, "p") != Some(Str(ctx.principal))
         || Lookup(members, "v") != Some(Int(ctx.version))
         || Lookup(members, "q") != Some(Str(ctx.query))
      then Err(InvalidCursor)
      else (
        match Lookup(members, "o")
        case Some(Str(position)) => Ok(position)
        case Some(_) => Err(ForeignPayload)
        case None => Err(InvalidCursor)
      )
    case Some(_) => Err(ForeignPayload)
    case None => Err(InvalidCursor)
  }

  // ---------------------------------------------------------------- proofs

  lemma LoadsInvertsWrite(v: Json)
    ensures Loads(Utf8(Write(v, true, ""))) == Some(v)
  {
    var text := Utf8(Write(v, true, ""));
    var w := Loads(text).value;
    Utf8IsInjective(Write(v, true, ""), Write(w, true, ""));
    ValueEndsItself(v, "", w, "", true);
  }

  lemma {:induction false} LookupFindsTheMember(members: seq<Member>, m: Member)
    requires DistinctKeys(members) && m in members
    ensures Lookup(members, m.key) == Some(m.value)
  {
    if members[0] != m {
      assert members == [members[0]] + members[1..];
      LookupFindsTheMember(members[1..], m);
    }
  }

  lemma SortedKeysAreDistinct(members: seq<Member>)
    requires SortedByKey(members)
    ensures DistinctKeys(members)
  {
    forall i, j | 0 <= i < j < |members| ensures members[i].key != members[j].key {
      LessIsTotal(members[i].key, members[j].key);
    }
  }

  lemma SortingKeepsLookups(members: seq<Member>, m: Member)
    requires DistinctKeys(members) && m in members
    ensures Lookup(SortByKey(members), m.key) == Some(m.value)
  {
    SortOrders(members);
    SortKeepsElements(members);
    SortedKeysAreDistinct(SortByKey(members));
    LookupFindsTheMember(SortByKey(members), m);
  }

  lemma {:induction false} FlatMembersAreNormal(members: seq<Member>)
    requires forall m | m in members :: m.value.Str? || m.value.Int?
    ensures NormalizeMembers(members) == members
  {
    if members != [] {
      FlatMembersAreNormal(members[1..]);
      var m := members[0];
      assert m in members;
      assert NormalizeMember(m) == m by {
        assert Normalize(m.value) == m.value;
      }
      assert members == [members[0]] + members[1..];
    }
  }

  lemma PayloadIsFlat(ctx: Context, position: string)
    ensures Normalize(Payload(ctx, position)) == Obj(SortByKey(Payload(ctx, position).members))
  {
    FlatMembersAreNormal(Payload(ctx, position).members);
  }

  lemma PayloadFieldsSurviveSorting(ctx: Context, position: string)
    ensures var ms := SortByKey(Payload(ctx, position).members);
            && Lookup(ms, "t") == Some(Str(ctx.tenant)) && Lookup(ms, "p") == Some(Str(ctx.principal))
            && Lookup(ms, "v") == Some(Int(ctx.version)) && Lookup(ms, "o") == Some(Str(position))
            && Lookup(ms, "q") == Some(Str(ctx.query))
  {
    var members := Payload(ctx, position).members;
    SortingKeepsLookups(members, members[0]);
    SortingKeepsLookups(members, members[1]);
    SortingKeepsLookups(members, members[2]);
    SortingKeepsLookups(members, members[3]);
    SortingKeepsLookups(members, members[4]);
  }

  /** The last 32 bytes always split off the signature. */
  lemma SignedPayloadIsRead(hmac: Mac, secret: seq<byte>, payload: seq<byte>, reader: Context)
    requires Sized(hmac)
    ensures Decode(hmac, secret, Base64Url.StripPadding(Base64Url.Encode(payload + hmac(secret, payload))), reader)
            == Checked(Loads(payload), reader)
  {
    var raw := payload + hmac(secret, payload);
    Base64Url.TokenRoundTrip(raw);
    assert raw[..|raw| - 32] == payload && raw[|raw| - 32..] == hmac(secret, payload);
  }

  /** Whatever decode accepts is signed with its secret, behind a payload that names the
      reader's context and the position. */
  lemma AcceptedIsSigned(hmac: Mac, secret: seq<byte>, token: string, reader: Context)
    requires Decode(hmac, secret, token, reader).Ok?
    ensures exists payload ::
              Base64Url.Decode(Base64Url.Repad(token)) == Ok(payload + hmac(secret, payload))
              && Names(Loads(payload), reader, Decode(hmac, secret, token, reader).value)
  {
    var raw := Base64Url.Decode(Base64Url.Repad(token)).value;
    var cut := if |raw| < 32 then 0 else |raw| - 32;
    assert raw == raw[..cut] + raw[cut..];
  }

  predicate Names(data: Option<Json>, reader: Context, position: string) {
    && data.Some? && data.value.Obj?
    && Lookup(data.value.members, "t") == Some(Str(reader.tenant))
    && Lookup(data.value.members, "p") == Some(Str(reader.principal))
    && Lookup(data.value.members, "v") == Some(Int(reader.version))
    && Lookup(data.value.members, "q") == Some(Str(reader.query))
    && Lookup(data.value.members, "o") == Some(Str(position))
  }

  /** A signed payload names the reader's context. */
  predicate Binds(members: seq<Member>, reader: Context) {
    && Lookup(members, "t") == Some(Str(reader.tenant)) && Lookup(members, "p") == Some(Str(reader.principal))
    && Lookup(members, "v") == Some(Int(reader.version)) && Lookup(members, "q") == Some(Str(reader.query))
  }

  /** What becomes of a signed payload: it is refused when it is no JSON, names another
      context or has no position. A position that is not a text, and a value that is no
      object, are never written by encode. */
  lemma DecodedExactlyWhen(hmac: Mac, secret: seq<byte>, payload: seq<byte>, token: string, reader: Context)
    requires Sized(hmac) && token == Base64Url.StripPadding(Base64Url.Encode(payload + hmac(secret, payload)))
    ensures var r, data := Decode(hmac, secret, token, reader), Loads(payload);
            var isObject := data.Some? && data.value.Obj?;
            var bound := isObject && Binds(data.value.members, reader);
            var position := if isObject then Lookup(data.value.members, "o") else None;
            && (r.Ok? <==> bound && position.Some? && position.value.Str?)
            && (r == Err(InvalidCursor) <==> data == None || (isObject && !bound) || (bound && position == None))
            && (r == Err(ForeignPayload)
                <==> (data.Some? && !isObject) || (bound && position.Some? && !position.value.Str?))
  {
    SignedPayloadIsRead(hmac, secret, payload, reader);
  }

  lemma UndecodableIsRefused(hmac: Mac, secret: seq<byte>, token: string, reader: Context)
    requires Base64Url.Decode(Base64Url.Repad(token)).Err?
    ensures Decode(hmac, secret, token, reader) == Err(InvalidCursor)
  {
  }

  /** A payload under anything but its signature is refused in every context. */
  lemma ForgedIsRefused(hmac: Mac, secret: seq<byte>, payload: seq<byte>, sig: seq<byte>, reader: Context)
    requires |sig| == 32 && sig != hmac(secret, payload)
    ensures Decode(hmac, secret, Base64Url.StripPadding(Base64Url.Encode(payload + sig)), reader) == Err(InvalidCursor)
  {
    var raw := payload + sig;
    Base64Url.TokenRoundTrip(raw);
    assert raw[..|raw| - 32] == payload && raw[|raw| - 32..] == sig;
  }

  /** So a cursor written under another secret is refused, in every context, unless the two
      signatures of its payload happen to be the same. */
  lemma OtherSecretIsRefused(hmac: Mac, secret: seq<byte>, other: seq<byte>, ctx: Context, position: string,
                             reader: Context)
    requires Sized(hmac)
    requires var payload := Utf8(Dumps(Payload(ctx, position), true)); hmac(other, payload) != hmac(secret, payload)
    ensures Decode(hmac, secret, Encode(hmac, other, ctx, position), reader) == Err(InvalidCursor)
  {
    var payload := Utf8(Dumps(Payload(ctx, position), true));
    ForgedIsRefused(hmac, secret, payload, hmac(other, payload), reader);
  }

  /** What decode makes of a token that encode wrote: the position for the context it
      was written for, a refusal for every other context. */
  lemma CursorIsBoundToItsContext(hmac: Mac, secret: seq<byte>, ctx: Context, position: string, reader: Context)
    requires Sized(hmac)
    ensures Decode(hmac, secret, Encode(hmac, secret, ctx, position), reader)
            == if reader == ctx then Ok(position) else Err(InvalidCursor)
  {
    var data := Normalize(Payload(ctx, position));
    SignedPayloadIsRead(hmac, secret, Utf8(Write(data, true, "")), reader);
    LoadsInvertsWrite(data);
    PayloadIsFlat(ctx, position);
    PayloadFieldsSurviveSorting(ctx, position);
    OnlyItsContextPasses(SortByKey(Payload(ctx, position).members), ctx, position, reader);
  }

  lemma OnlyItsContextPasses(ms: seq<Member>, ctx: Context, position: string, reader: Context)
    requires Lookup(ms, "t") == Some(Str(ctx.tenant)) && Lookup(ms, "p") == Some(Str(ctx.principal))
    requires Lookup(ms, "v") == Some(Int(ctx.version)) && Lookup(ms, "o") == Some(Str(position))
    requires Lookup(ms, "q") == Some(Str(ctx.query))
    ensures Checked(Some(Obj(ms)), reader) == if reader == ctx then Ok(position) else Err(InvalidCursor)
  {
  }
}
