/** generate_file_ref: an opaque public reference over a length-prefixed preimage. */
module FileReference {
  import opened Wrappers
  import opened Text
  import opened Json
  import opened JsonCanonical
  import Base64Url

  const PREFIX := "s3mpf1_"
  const VERSION := "s3mp-file-ref:v1"

  type Hash = seq<byte> -> seq<byte>

  datatype Input = Input(
    tenantId: string,
    applicationId: Option<string>,
    relativeKey: string,
    metadata: Json,
    checksum: Option<string>)

  // ------------------------------------------------------ checksum spelling

  /** The characters str.strip removes. */
  predicate IsSpace(c: char) {
    var n := c as int;
    || 0x09 <= n <= 0x0D || 0x1C <= n <= 0x20 || n == 0x85 || n == 0xA0 || n == 0x1680
    || 0x2000 <= n <= 0x200A || n == 0x2028 || n == 0x2029 || n == 0x202F || n == 0x205F || n == 0x3000
  }

  function Strip(s: string): (r: string)
    decreases |s|
  {
    if s != "" && IsSpace(s[0]) then Strip(s[1..])
    else if s != "" && IsSpace(s[|s| - 1]) then Strip(s[..|s| - 1])
    else s
  }

  /** Those characters one by one. */
  lemma SpacesOneByOne(c: char)
    ensures IsSpace(c)
       <==> c as int in {0x09, 0x0A, 0x0B, 0x0C, 0x0D, 0x1C, 0x1D, 0x1E, 0x1F, 0x20, 0x85, 0xA0, 0x1680,
                         0x2000, 0x2001, 0x2002, 0x2003, 0x2004, 0x2005, 0x2006, 0x2007, 0x2008, 0x2009, 0x200A,
                         0x2028, 0x2029, 0x202F, 0x205F, 0x3000}
  {
  }

  predicate AllSpaces(s: string) {
    forall c | c in s :: IsSpace(c)
  }

  predicate IsHexDigit(c: char) {
    IsDigit(c) || 'a' <= c <= 'f' || 'A' <= c <= 'F'
  }

  predicate IsDigest(s: string) {
    |s| == 64 && forall i :: 0 <= i < 64 ==> IsHexDigit(s[i])
  }

  function LowerChar(c: char): (r: char) {
    if 'A' <= c <= 'Z' then c - 'A' + 'a' else c
  }

  function Lower(s: string): (r: string)
    ensures |r| == |s| && forall i :: 0 <= i < |s| ==> r[i] == LowerChar(s[i])
  {
    seq(|s|, i requires 0 <= i < |s| => LowerChar(s[i]))
  }

  function NormalizedSha256(value: Option<string>): (r: Option<string>) {
    match value
    case None => None
    case Some(text) =>
      var s := Strip(text);
      if IsDigest(s) then Some(Lower(s))
      else if "sha256:" <= s && IsDigest(s[7..]) then Some(Lower(s[7..]))
      else None
  }

  lemma {:induction false} StripTakesOffSpaces(s: string) returns (front: string, back: string)
    ensures s == front + Strip(s) + back && AllSpaces(front) && AllSpaces(back)
    decreases |s|
  {
    front, back := "", "";
    if s != "" && IsSpace(s[0]) {
      var f, b := StripTakesOffSpaces(s[1..]);
      assert s == [s[0]] + s[1..] == ([s[0]] + f) + Strip(s[1..]) + b;
      front, back := [s[0]] + f, b;
    } else if s != "" && IsSpace(s[|s| - 1]) {
      var f, b := StripTakesOffSpaces(s[..|s| - 1]);
      assert s == s[..|s| - 1] + [s[|s| - 1]] == f + Strip(s[..|s| - 1]) + (b + [s[|s| - 1]]);
      front, back := f, b + [s[|s| - 1]];
    }
  }

  lemma {:induction false} StripLeavesTheRest(front: string, s: string, back: string)
    requires AllSpaces(front) && AllSpaces(back) && s != "" && !IsSpace(s[0]) && !IsSpace(s[|s| - 1])
    ensures Strip(front + s + back) == s
    decreases |front| + |back|
  {
    var all := front + s + back;
    if front != "" {
      assert all[0] == front[0] && all[1..] == front[1..] + s + back;
      StripLeavesTheRest(front[1..], s, back);
    } else if back != "" {
      assert all[0] == s[0] && all[|all| - 1] == back[|back| - 1];
      assert all[..|all| - 1] == front + s + back[..|back| - 1];
      StripLeavesTheRest(front, s, back[..|back| - 1]);
    } else {
      assert all == s;
    }
  }

  /** text is a digest of 64 hexadecimal digits, bare or behind sha256:, between spaces. */
  ghost predicate Spells(text: string, digest: string) {
    exists front, back ::
      AllSpaces(front) && AllSpaces(back) && text in {front + digest + back, front + ("sha256:" + digest) + back}
  }

  /** A checksum has a normal form exactly when it spells a digest, which is then written in
      lower case. */
  lemma NormalizedExactlyWhen(text: string, normal: string)
    ensures NormalizedSha256(Some(text)) == Some(normal)
       <==> exists digest :: IsDigest(digest) && Spells(text, digest) && normal == Lower(digest)
  {
    var front, back := StripTakesOffSpaces(text);
    var s := Strip(text);
    if IsDigest(s) {
      assert Spells(text, s);
    } else if "sha256:" <= s && IsDigest(s[7..]) {
      assert s == "sha256:" + s[7..];
      assert Spells(text, s[7..]);
    }
    forall digest | IsDigest(digest) && Spells(text, digest)
      ensures NormalizedSha256(Some(text)) == Some(Lower(digest))
    {
      SpelledIsNormalized(text, digest);
    }
  }

  lemma SpelledIsNormalized(text: string, digest: string)
    requires IsDigest(digest) && Spells(text, digest)
    ensures NormalizedSha256(Some(text)) == Some(Lower(digest))
  {
    var front, back :| AllSpaces(front) && AllSpaces(back)
      && text in {front + digest + back, front + ("sha256:" + digest) + back};
    var long := "sha256:" + digest;
    assert digest[0] != 's' && !IsSpace(digest[0]) && !IsSpace(digest[63]);
    assert long[0] == 's' && long[|long| - 1] == digest[63] && long[7..] == digest && |long| == 71;
    if text == front + digest + back {
      StripLeavesTheRest(front, digest, back);
    } else {
      StripLeavesTheRest(front, long, back);
    }
  }

  // --------------------------------------------------------------- preimage

  function Fields(input: Input, applicationId: string, digest: string): (fields: seq<string>)
    ensures |fields| == 6
  {
    [VERSION, input.tenantId, applicationId, input.relativeKey, Dumps(input.metadata, false), digest]
  }

  function Join(fields: seq<string>): (bs: seq<byte>) {
    if fields == [] then [] else Framed(Utf8(fields[0])) + Join(fields[1..])
  }

  /** len(item).to_bytes(8, "big") overflows on a field this long. */
  predicate Fits(fields: seq<string>) {
    forall f | f in fields :: |Utf8(f)| < Pow256(8)
  }

  datatype Preimage = Unverified | Overflow | Preimage(bytes: seq<byte>)

  function PreimageOf(input: Input): (p: Preimage) {
    match (input.applicationId, NormalizedSha256(input.checksum))
    case (Some(application), Some(digest)) =>
      var fields := Fields(input, application, digest);
      if Fits(fields) then Preimage(Join(fields)) else Overflow
    case _ => Unverified
  }

  function FileRef(hash: Hash, preimage: seq<byte>): (ref: string) {
    PREFIX + Base64Url.StripPadding(Base64Url.Encode(hash(preimage)))
  }

  predicate IsFileRef(value: string) {
    PREFIX <= value
  }

  // ----------------------------------------------------------------- proofs

  lemma {:induction false} JoinIsInjective(a: seq<string>, b: seq<string>)
    requires |a| == |b| && Fits(a) && Fits(b)
    requires Join(a) == Join(b)
    ensures a == b
  {
    if a != [] {
      assert a[0] in a && b[0] in b;
      FrameEndsItself(Utf8(a[0]), Join(a[1..]), Utf8(b[0]), Join(b[1..]));
      Utf8IsInjective(a[0], b[0]);
      JoinIsInjective(a[1..], b[1..]);
      assert a == [a[0]] + a[1..] && b == [b[0]] + b[1..];
    }
  }

  /** Two inputs the reference is about: same owner, same key, same content, same
      metadata as a value. */
  ghost predicate SameFile(a: Input, b: Input) {
    && a.tenantId == b.tenantId
    && a.applicationId == b.applicationId
    && a.relativeKey == b.relativeKey
    && SameValue(a.metadata, b.metadata)
    && NormalizedSha256(a.checksum) == NormalizedSha256(b.checksum)
  }

  lemma FieldsDecideSameFile(a: Input, b: Input, digestA: string, digestB: string)
    requires WellFormed(a.metadata) && WellFormed(b.metadata)
    requires a.applicationId.Some? && b.applicationId.Some?
    requires NormalizedSha256(a.checksum) == Some(digestA) && NormalizedSha256(b.checksum) == Some(digestB)
    ensures Fields(a, a.applicationId.value, digestA) == Fields(b, b.applicationId.value, digestB) <==> SameFile(a, b)
  {
    DumpsDecidesSameValue(a.metadata, b.metadata, false);
    var x, y := Fields(a, a.applicationId.value, digestA), Fields(b, b.applicationId.value, digestB);
    assert x == y <==> x[1] == y[1] && x[2] == y[2] && x[3] == y[3] && x[4] == y[4] && x[5] == y[5];
  }

  /** The preimage is uniquely decodable. */
  lemma PreimageDecidesSameFile(a: Input, b: Input)
    requires WellFormed(a.metadata) && WellFormed(b.metadata)
    requires PreimageOf(a).Preimage? && PreimageOf(b).Preimage?
    ensures PreimageOf(a) == PreimageOf(b) <==> SameFile(a, b)
  {
    var digestA, digestB := NormalizedSha256(a.checksum).value, NormalizedSha256(b.checksum).value;
    FieldsDecideSameFile(a, b, digestA, digestB);
    if PreimageOf(a) == PreimageOf(b) {
      JoinIsInjective(Fields(a, a.applicationId.value, digestA), Fields(b, b.applicationId.value, digestB));
    }
  }

  /** The fields a reader takes off the front of a byte string, each behind the eight bytes
      that hold its length. */
  function ReadFields(bs: seq<byte>): (fields: seq<seq<byte>>)
    decreases |bs|
  {
    if |bs| < 8 then []
    else
      var length := NumberOf(bs[..8]);
      if 8 + length > |bs| then [] else [bs[8..8 + length]] + ReadFields(bs[8 + length..])
  }

  lemma FieldIsRead(field: seq<byte>, rest: seq<byte>)
    requires |field| < Pow256(8)
    ensures ReadFields(Framed(field) + rest) == [field] + ReadFields(rest)
  {
    var bs := Framed(field) + rest;
    BigEndianIsTheNumber(|field|, 8);
    assert bs[..8] == BigEndian(|field|, 8);
    assert bs[8..8 + |field|] == field && bs[8 + |field|..] == rest;
  }

  /** There is a preimage exactly for an application's file with a normal digest, all of
      whose fields fit their lengths. A reader takes from it, in this order, the version,
      tenant, application, key, metadata and digest, and nothing else. */
  lemma PreimageIsReadBack(input: Input)
    ensures PreimageOf(input) == Unverified
       <==> input.applicationId == None || NormalizedSha256(input.checksum) == None
    ensures PreimageOf(input) == Overflow
       <==> input.applicationId != None && NormalizedSha256(input.checksum) != None
            && var fields := Fields(input, input.applicationId.value, NormalizedSha256(input.checksum).value);
               exists field | field in fields :: |Utf8(field)| >= Pow256(8)
    ensures PreimageOf(input).Preimage? ==>
              ReadFields(PreimageOf(input).bytes)
              == [Utf8("s3mp-file-ref:v1"), Utf8(input.tenantId), Utf8(input.applicationId.value),
                  Utf8(input.relativeKey), Utf8(Dumps(input.metadata, false)),
                  Utf8(NormalizedSha256(input.checksum).value)]
  {
    if PreimageOf(input).Preimage? {
      SixFieldsAreRead("s3mp-file-ref:v1", input.tenantId, input.applicationId.value, input.relativeKey,
                       Dumps(input.metadata, false), NormalizedSha256(input.checksum).value);
    }
  }

  lemma SixFieldsAreRead(a: string, b: string, c: string, d: string, e: string, f: string)
    requires Fits([a, b, c, d, e, f])
    ensures ReadFields(Join([a, b, c, d, e, f])) == [Utf8(a), Utf8(b), Utf8(c), Utf8(d), Utf8(e), Utf8(f)]
  {
    JoinIsRead([a, b, c, d, e, f]);
  }

  lemma {:induction false} JoinIsRead(fields: seq<string>)
    requires Fits(fields)
    ensures ReadFields(Join(fields)) == seq(|fields|, i requires 0 <= i < |fields| => Utf8(fields[i]))
    decreases |fields|
  {
    if fields != [] {
      assert fields[0] in fields;
      FieldIsRead(Utf8(fields[0]), Join(fields[1..]));
      JoinIsRead(fields[1..]);
    }
  }

  /** Behind its prefix a reference is the hash, in base64url without padding. */
  lemma RefIsReadBack(hash: Hash, p: seq<byte>)
    ensures var ref := FileRef(hash, p);
            && "s3mpf1_" <= ref
            && Base64Url.Decode(Base64Url.Repad(ref[7..])) == Ok(hash(p))
  {
    Base64Url.TokenRoundTrip(hash(p));
    assert FileRef(hash, p)[7..] == Base64Url.StripPadding(Base64Url.Encode(hash(p)));
  }

  /** Equal references mean equal hashes: the text form around the hash adds no clash. */
  lemma RefDecidesHash(hash: Hash, p: seq<byte>, q: seq<byte>)
    ensures FileRef(hash, p) == FileRef(hash, q) <==> hash(p) == hash(q)
    ensures IsFileRef(FileRef(hash, p))
  {
    if FileRef(hash, p) == FileRef(hash, q) {
      assert FileRef(hash, p)[|PREFIX|..] == Base64Url.StripPadding(Base64Url.Encode(hash(p)));
      assert FileRef(hash, q)[|PREFIX|..] == Base64Url.StripPadding(Base64Url.Encode(hash(q)));
      Base64Url.TokenRoundTrip(hash(p));
      Base64Url.TokenRoundTrip(hash(q));
    }
  }

  /** A stored digest is its own normal form, however the caller spelled it. */
  lemma NormalizedDigestIsStable(value: Option<string>)
    requires NormalizedSha256(value).Some?
    ensures IsDigest(NormalizedSha256(value).value)
    ensures NormalizedSha256(NormalizedSha256(value)) == NormalizedSha256(value)
  {
    var d := NormalizedSha256(value).value;
    assert Strip(d) == d;
    assert Lower(d) == d;
  }
}
