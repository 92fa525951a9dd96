/** Where a file lies in its bucket: the key derived from the namespace of an application,
    the prefix of its storage space, and the key the application knows the file by. */
module ProviderTargets {
  import opened Wrappers
  import Paths

  /** The columns derive_provider_target reads; an empty namespace stands for none. */
  datatype Space = Space(
    tenant: string,
    id: string,
    bucket: string,
    rootPrefix: string,
    namespace: string,
    version: int
  )

  datatype Target = Target(bucket: string, key: string)

  datatype Fault = UnsupportedVersion | BadBucket | BadKey | BadPrefix | BadNamespace | NotInSpace

  /** The namespace of a space, or the one of a row from before namespaces. */
  function NamespaceOf(space: Space): (namespace: string)
    ensures namespace != ""
  {
    if space.namespace != "" then space.namespace else LegacyNamespace(space.tenant, space.id)
  }

  function LegacyNamespace(tenant: string, space: string): (namespace: string)
    ensures namespace != ""
  {
    "v1" + "/" + ("tenants" + "/" + (tenant + "/spaces/" + space))
  }

  function Parts(namespace: string, prefix: string, relative: string): (parts: seq<string>)
    ensures parts != []
  {
    [namespace] + (if prefix != "" then [prefix] else []) + (if relative != "" then [relative] else [])
  }

  /** derive_provider_target. */
  function Derive(space: Space, relative: string): (r: Result<Target, Fault>) {
    if space.version != 1 then Err(UnsupportedVersion)
    else if space.bucket == "" || '/' in space.bucket || '\\' in space.bucket then Err(BadBucket)
    else if Paths.CanonicalObjectKey(relative, true).Err? then Err(BadKey)
    else if Paths.CanonicalObjectKey(space.rootPrefix, true).Err? then Err(BadPrefix)
    else if Paths.ValidateCanonicalPrefix(NamespaceOf(space)).Err? then Err(BadNamespace)
    else Ok(Target(space.bucket, Paths.Joined(Parts(NamespaceOf(space), space.rootPrefix, relative))))
  }

  /** _relative_key: what a client is shown of the key of a stored file. */
  function RelativeKey(space: Space, key: string): (r: Result<string, Fault>) {
    var root := Derive(space, "");
    if root.Err? then Err(root.error)
    else if root.value.key + "/" <= key then Ok(key[|root.value.key| + 1..])
    else Err(NotInSpace)
  }

  // ------------------------------------------------------------ the derived key

  function SegmentsOrNone(s: string): (segments: seq<string>) {
    if s == "" then [] else Paths.Segments(s)
  }

  predicate CanonicalOrEmpty(s: string) {
    s == "" || Paths.Canonical(s)
  }

  function Under(root: string, tail: string): (key: string) {
    if tail != "" then root + "/" + tail else root
  }

  lemma PartsJoin(namespace: string, prefix: string, relative: string)
    ensures Paths.Joined(Parts(namespace, prefix, relative)) == Under(Under(namespace, prefix), relative)
  {
    var parts := Parts(namespace, prefix, relative);
    if prefix != "" && relative != "" {
      assert parts == [namespace, prefix, relative] && parts[1..] == [prefix, relative];
      assert parts[1..][1..] == [relative];
      assert Paths.Joined(parts[1..]) == prefix + "/" + relative;
      assert namespace + "/" + (prefix + "/" + relative) == namespace + "/" + prefix + "/" + relative;
    } else if |parts| == 2 {
      assert parts[1..] == [parts[1]];
    }
  }

  lemma UnderIsCanonical(root: string, tail: string)
    requires Paths.Canonical(root) && CanonicalOrEmpty(tail)
    ensures Paths.Canonical(Under(root, tail))
    ensures Paths.Segments(Under(root, tail)) == Paths.Segments(root) + SegmentsOrNone(tail)
  {
    Paths.SegmentsOfJoin(root, tail);
    Paths.JoinIsCanonical(root, tail);
  }

  lemma PartsAreCanonical(namespace: string, prefix: string, relative: string)
    requires Paths.Canonical(namespace) && CanonicalOrEmpty(prefix) && CanonicalOrEmpty(relative)
    ensures var key := Paths.Joined(Parts(namespace, prefix, relative));
            && Paths.Canonical(key)
            && Paths.Segments(key) == Paths.Segments(namespace) + SegmentsOrNone(prefix) + SegmentsOrNone(relative)
  {
    PartsJoin(namespace, prefix, relative);
    UnderIsCanonical(namespace, prefix);
    UnderIsCanonical(Under(namespace, prefix), relative);
  }

  /** A target is derived exactly when the version is the first, the bucket is one name, and
      namespace, prefix and key are canonical; its key is canonical and its segments are
      theirs, one after the other. */
  lemma DerivedExactlyWhen(space: Space, relative: string)
    ensures var r, namespace := Derive(space, relative), NamespaceOf(space);
            && (r.Ok? <==>
                  && space.version == 1
                  && space.bucket != "" && '/' !in space.bucket && '\\' !in space.bucket
                  && Paths.Canonical(namespace) && CanonicalOrEmpty(space.rootPrefix) && CanonicalOrEmpty(relative))
            && (r.Ok? ==>
                  && r.value.bucket == space.bucket
                  && Paths.Canonical(r.value.key)
                  && Paths.Segments(r.value.key)
                     == Paths.Segments(namespace) + SegmentsOrNone(space.rootPrefix) + SegmentsOrNone(relative))
  {
    var namespace, prefix := NamespaceOf(space), space.rootPrefix;
    Paths.CanonicalExactlyWhen(relative);
    Paths.CanonicalExactlyWhen(prefix);
    Paths.CanonicalExactlyWhen(namespace);
    if Derive(space, relative).Ok? {
      PartsAreCanonical(namespace, prefix, relative);
    }
  }

  /** Where no target is derived, the first of version, bucket, key, prefix and namespace
      that will not do is named. */
  lemma DerivationFailsExactlyWhen(space: Space, relative: string)
    ensures var r := Derive(space, relative);
            var named := space.bucket != "" && '/' !in space.bucket && '\\' !in space.bucket;
            && (r == Err(UnsupportedVersion) <==> space.version != 1)
            && (r == Err(BadBucket) <==> space.version == 1 && !named)
            && (r == Err(BadKey) <==> space.version == 1 && named && !CanonicalOrEmpty(relative))
            && (r == Err(BadPrefix)
                <==> space.version == 1 && named && CanonicalOrEmpty(relative) && !CanonicalOrEmpty(space.rootPrefix))
            && (r == Err(BadNamespace)
                <==> space.version == 1 && named && CanonicalOrEmpty(relative) && CanonicalOrEmpty(space.rootPrefix)
                     && !Paths.Canonical(NamespaceOf(space)))
  {
    Paths.CanonicalExactlyWhen(relative);
    Paths.CanonicalExactlyWhen(space.rootPrefix);
    Paths.CanonicalExactlyWhen(NamespaceOf(space));
  }

  /** The client sees the key it gave, for every key but the empty one: of the root of its
      space it is told that it is not there. A key that is shown is the stored one. */
  lemma RelativeKeyRoundTrip(space: Space, relative: string)
    requires Derive(space, relative).Ok?
    ensures RelativeKey(space, Derive(space, relative).value.key)
         == if relative != "" then Ok(relative) else Err(NotInSpace)
  {
    DerivedExactlyWhen(space, relative);
    DerivedExactlyWhen(space, "");
    PartsJoin(NamespaceOf(space), space.rootPrefix, relative);
    PartsJoin(NamespaceOf(space), space.rootPrefix, "");
  }

  /** Of one space no two keys share a place. */
  lemma DeriveIsInjective(space: Space, a: string, b: string)
    requires Derive(space, a).Ok? && Derive(space, a) == Derive(space, b)
    ensures a == b
  {
    RelativeKeyRoundTrip(space, a);
    RelativeKeyRoundTrip(space, b);
  }

  // ------------------------------------------------------- spaces in one bucket

  /** Two keys of these spaces have the same place. */
  ghost predicate Meet(a: Space, b: Space) {
    exists r, s :: Derive(a, r).Ok? && Derive(a, r) == Derive(b, s)
  }

  lemma EmptyIsNotCanonical()
    ensures !Paths.Canonical("")
  {
    assert "" in Paths.Segments("") && !Paths.ProperSegment("");
  }

  lemma RootReaches(space: Space, other: Space)
    requires Derive(space, "").Ok? && Derive(other, "").Ok? && space.bucket == other.bucket
    requires Paths.Inside(Derive(space, "").value.key, Derive(other, "").value.key)
    ensures exists r :: Derive(space, r) == Derive(other, "")
  {
    var root, key := Derive(space, "").value.key, Derive(other, "").value.key;
    if key == root {
      assert Derive(space, "") == Derive(other, "");
    } else {
      var r := key[|root| + 1..];
      assert key == root + "/" + r;
      DerivedExactlyWhen(other, "");
      DerivedExactlyWhen(space, "");
      Paths.JoinIsCanonical(root, r);
      EmptyIsNotCanonical();
      DerivedExactlyWhen(space, r);
      PartsJoin(NamespaceOf(space), space.rootPrefix, r);
      PartsJoin(NamespaceOf(space), space.rootPrefix, "");
      assert Derive(space, r) == Derive(other, "");
    }
  }

  /** Two spaces can put a file at the same place exactly when they share the bucket and the
      root of one lies in the root of the other. */
  lemma SpacesMeetExactlyWhen(a: Space, b: Space)
    requires Derive(a, "").Ok? && Derive(b, "").Ok?
    ensures var x, y := Derive(a, "").value, Derive(b, "").value;
            Meet(a, b) <==> x.bucket == y.bucket && (Paths.Inside(x.key, y.key) || Paths.Inside(y.key, x.key))
  {
    var x, y := Derive(a, "").value, Derive(b, "").value;
    if Meet(a, b) {
      var r, s :| Derive(a, r).Ok? && Derive(a, r) == Derive(b, s);
      DerivedExactlyWhen(a, "");
      DerivedExactlyWhen(b, "");
      DerivedExactlyWhen(a, r);
      DerivedExactlyWhen(b, s);
      var whole := Paths.Segments(Derive(a, r).value.key);
      assert Paths.Segments(x.key) <= whole && Paths.Segments(y.key) <= whole;
      Paths.PrefixesCompare(Paths.Segments(x.key), Paths.Segments(y.key), whole);
      Paths.InsideIsSegmentPrefix(x.key, y.key);
      Paths.InsideIsSegmentPrefix(y.key, x.key);
    }
    if x.bucket == y.bucket && Paths.Inside(x.key, y.key) {
      RootReaches(a, b);
      var r :| Derive(a, r) == Derive(b, "");
      assert Derive(a, r).Ok?;
    } else if x.bucket == y.bucket && Paths.Inside(y.key, x.key) {
      RootReaches(b, a);
      var s :| Derive(b, s) == Derive(a, "");
      assert Derive(a, "").Ok? && Derive(a, "") == Derive(b, s);
    }
  }

  /** The namespace an application gets when it is created. */
  function ApplicationNamespace(slug: string, application: string): (namespace: string) {
    slug + "/" + application
  }

  lemma NamespaceHasTwoSegments(slug: string, application: string)
    requires '/' !in slug && '/' !in application
    ensures Paths.Segments(ApplicationNamespace(slug, application)) == [slug, application]
  {
    Paths.SegmentsOfJoin(slug, application);
    OneSegment(slug);
    OneSegment(application);
  }

  lemma {:induction false} OneSegment(s: string)
    requires '/' !in s
    ensures Paths.Segments(s) == [s]
  {
    if s != "" {
      OneSegment(s[1..]);
      assert [s[0]] + s[1..] == s;
    }
  }

  /** Files of two applications never share a place, whatever buckets, prefixes and keys
      they use and whatever tenants they belong to. */
  lemma ApplicationsAreApart(a: Space, b: Space, slugA: string, slugB: string, appA: string, appB: string,
                             r: string, s: string)
    requires '/' !in slugA && '/' !in slugB && '/' !in appA && '/' !in appB && appA != appB
    requires a.namespace == ApplicationNamespace(slugA, appA) && b.namespace == ApplicationNamespace(slugB, appB)
    requires Derive(a, r).Ok? && Derive(b, s).Ok?
    ensures Derive(a, r).value.key != Derive(b, s).value.key
  {
    NamespaceHasTwoSegments(slugA, appA);
    NamespaceHasTwoSegments(slugB, appB);
    DerivedExactlyWhen(a, r);
    DerivedExactlyWhen(b, s);
    assert Paths.Segments(Derive(a, r).value.key)[1] == appA;
    assert Paths.Segments(Derive(b, s).value.key)[1] == appB;
  }

  lemma SplitTwice(a: string, b: string, rest: string)
    requires '/' !in a && '/' !in b
    ensures Paths.Segments(a + "/" + (b + "/" + rest)) == [a, b] + Paths.Segments(rest)
  {
    Paths.SegmentsOfJoin(a, b + "/" + rest);
    Paths.SegmentsOfJoin(b, rest);
    OneSegment(a);
    OneSegment(b);
  }

  lemma LegacyNamespaceSegments(space: Space)
    requires space.namespace == ""
    ensures var segments := Paths.Segments(NamespaceOf(space)); |segments| > 2 && segments[..2] == ["v1", "tenants"]
  {
    SplitTwice("v1", "tenants", space.tenant + "/spaces/" + space.id);
  }

  /** Nor does a file of an application share one with a file of a space from before
      namespaces, unless the application's id is the word "tenants". */
  lemma ApplicationsAreApartFromLegacy(a: Space, b: Space, slug: string, app: string, r: string, s: string)
    requires '/' !in slug && '/' !in app && app != "tenants"
    requires a.namespace == ApplicationNamespace(slug, app) && b.namespace == ""
    requires Derive(a, r).Ok? && Derive(b, s).Ok?
    ensures Derive(a, r).value.key != Derive(b, s).value.key
  {
    NamespaceHasTwoSegments(slug, app);
    DerivedExactlyWhen(a, r);
    DerivedExactlyWhen(b, s);
    LegacyNamespaceSegments(b);
    assert Paths.Segments(Derive(a, r).value.key)[1] == app;
    assert Paths.Segments(Derive(b, s).value.key)[1] == "tenants";
  }
}
