/** Object keys as lists of segments: canonical prefixes, the scopes of bindings and
    delegations, and the directory of an API key. */
module Paths {
  import opened Wrappers

  // ------------------------------------------------------------- segments

  /** s.split("/"). */
  function Segments(s: string): (segments: seq<string>)
    ensures segments != []
  {
    if s == "" then [""]
    else
      var rest := Segments(s[1..]);
      if s[0] == '/' then [""] + rest else [[s[0]] + rest[0]] + rest[1..]
  }

  /** "/".join(segments). */
  function Joined(segments: seq<string>): (s: string)
    requires segments != []
  {
    if |segments| == 1 then segments[0] else segments[0] + "/" + Joined(segments[1..])
  }

  lemma {:induction false} JoinedInvertsSegments(s: string)
    ensures Joined(Segments(s)) == s
  {
    if s != "" {
      var rest := Segments(s[1..]);
      JoinedInvertsSegments(s[1..]);
      if s[0] == '/' {
        assert ([""] + rest)[1..] == rest;
        assert s == "" + "/" + s[1..];
      } else {
        var all := [[s[0]] + rest[0]] + rest[1..];
        assert all[1..] == rest[1..];
        if |rest| > 1 {
          assert [s[0]] + (rest[0] + "/" + Joined(rest[1..])) == all[0] + "/" + Joined(all[1..]);
        }
        assert s == [s[0]] + s[1..];
      }
    }
  }

  lemma {:induction false} SegmentsOfJoin(a: string, b: string)
    ensures Segments(a + "/" + b) == Segments(a) + Segments(b)
  {
    var all := a + "/" + b;
    if a == "" {
      assert all[1..] == b;
    } else {
      assert all[1..] == a[1..] + "/" + b;
      SegmentsOfJoin(a[1..], b);
    }
  }

  lemma {:induction false} JoinedSplits(a: seq<string>, b: seq<string>)
    requires a != [] && b != []
    ensures Joined(a + b) == Joined(a) + "/" + Joined(b)
  {
    var all := a + b;
    if |a| == 1 {
      assert all[1..] == b;
    } else {
      assert all[1..] == a[1..] + b;
      JoinedSplits(a[1..], b);
      assert a[0] + "/" + (Joined(a[1..]) + "/" + Joined(b)) == a[0] + "/" + Joined(a[1..]) + "/" + Joined(b);
    }
  }

  predicate Inside(directory: string, key: string) {
    key == directory || directory + "/" <= key
  }

  /** Comparing strings with a "/" behind is comparing segment lists, on all strings. */
  lemma InsideIsSegmentPrefix(directory: string, key: string)
    ensures Inside(directory, key) <==> Segments(directory) <= Segments(key)
  {
    if directory + "/" <= key {
      var rest := key[|directory| + 1..];
      assert key == directory + "/" + rest;
      SegmentsOfJoin(directory, rest);
    }
    if Segments(directory) <= Segments(key) {
      JoinedInvertsSegments(directory);
      JoinedInvertsSegments(key);
      var rest := Segments(key)[|Segments(directory)|..];
      assert Segments(key) == Segments(directory) + rest;
      if rest == [] {
        assert Segments(key) == Segments(directory);
      } else {
        JoinedSplits(Segments(directory), rest);
        assert directory + "/" <= directory + "/" + Joined(rest);
      }
    }
  }

  // ------------------------------------------------------ canonical prefixes

  predicate AllowedCharacter(c: char) {
    c != '\\' && c != '%' && c as int >= 32 && c as int != 127
  }

  datatype Fault = NotCanonical | ExceedsPermissions | ExceedsPrefix | OutsideDirectory

  /** validate_canonical_prefix. */
  function ValidateCanonicalPrefix(prefix: string): (r: Result<string, Fault>) {
    if prefix == "" then Ok(prefix)
    else if prefix[0] == '/' || '\\' in prefix || '%' in prefix then Err(NotCanonical)
    else if exists c | c in prefix :: c as int < 32 || c as int == 127 then Err(NotCanonical)
    else if exists segment | segment in Segments(prefix) :: segment in ["", ".", ".."] then Err(NotCanonical)
    else Ok(prefix)
  }

  predicate ProperSegment(segment: string) {
    segment != "" && segment != "." && segment != ".." && forall c | c in segment :: AllowedCharacter(c)
  }

  predicate Canonical(s: string) {
    forall segment | segment in Segments(s) :: ProperSegment(segment)
  }

  lemma {:induction false} CharactersOfSegments(s: string, c: char)
    requires c != '/'
    ensures c in s <==> exists segment | segment in Segments(s) :: c in segment
  {
    if s != "" {
      CharactersOfSegments(s[1..], c);
      var rest, all := Segments(s[1..]), Segments(s);
      if c in s {
        if c == s[0] {
          assert c in all[0];
        } else {
          assert c in s[1..];
          var k :| 0 <= k < |rest| && c in rest[k];
          if s[0] == '/' {
            assert all[k + 1] == rest[k];
          } else {
            assert c in all[k];
          }
        }
      }
      if k :| 0 <= k < |all| && c in all[k] {
        if s[0] == '/' {
          assert k > 0 && all[k] == rest[k - 1];
        } else if k == 0 {
          assert all[0] == [s[0]] + rest[0];
          assert c == s[0] || c in rest[0];
        } else {
          assert all[k] == rest[k];
        }
      }
    }
  }

  /** Validation looks at nothing but the segments: it accepts the empty string and the
      strings all of whose segments are proper, and returns them as they are. */
  lemma CanonicalExactlyWhen(s: string)
    ensures ValidateCanonicalPrefix(s) == if s == "" || Canonical(s) then Ok(s) else Err(NotCanonical)
  {
    var segments := Segments(s);
    forall c | c in s && c != '/'
      ensures exists segment | segment in segments :: c in segment
    {
      CharactersOfSegments(s, c);
    }
    if s != "" {
      if Canonical(s) {
        assert ProperSegment(segments[0]);
        assert s[0] != '/';
      } else {
        var segment :| segment in segments && !ProperSegment(segment);
        if segment !in ["", ".", ".."] {
          var c :| c in segment && !AllowedCharacter(c);
          CharactersOfSegments(s, c);
        }
      }
    }
  }

  lemma JoinIsCanonical(a: string, b: string)
    ensures Canonical(a + "/" + b) <==> Canonical(a) && Canonical(b)
  {
    SegmentsOfJoin(a, b);
    var segments := Segments(a) + Segments(b);
    assert forall segment :: segment in segments <==> segment in Segments(a) || segment in Segments(b);
  }

  // ------------------------------------------------------------------ scopes

  /** _scope_matches of a binding. */
  predicate ScopeMatches(prefix: Option<string>, key: string) {
    prefix.None? || prefix.value == "" || Inside(prefix.value, key)
  }

  /** _prefix_contains of a delegation. */
  predicate PrefixContains(parent: Option<string>, child: Option<string>) {
    if parent.None? || parent.value == "" then true
    else if child.None? then false
    else Inside(parent.value, child.value)
  }

  lemma ScopeMatchesExactlyWhen(prefix: Option<string>, key: string)
    ensures ScopeMatches(prefix, key)
       <==> prefix.None? || prefix.value == "" || Segments(prefix.value) <= Segments(key)
  {
    if prefix.Some? {
      InsideIsSegmentPrefix(prefix.value, key);
    }
  }

  lemma InsideIsTransitive(a: string, b: string, c: string)
    requires Inside(a, b) && Inside(b, c)
    ensures Inside(a, c)
  {
    InsideIsSegmentPrefix(a, b);
    InsideIsSegmentPrefix(b, c);
    InsideIsSegmentPrefix(a, c);
  }

  /** One prefix contains another exactly when it matches every key the other matches. */
  lemma ContainmentIsExact(parent: Option<string>, child: Option<string>)
    ensures PrefixContains(parent, child)
       <==> forall key :: ScopeMatches(child, key) ==> ScopeMatches(parent, key)
  {
    if PrefixContains(parent, child) {
      forall key | ScopeMatches(child, key)
        ensures ScopeMatches(parent, key)
      {
        if parent.Some? && parent.value != "" {
          InsideIsTransitive(parent.value, child.value, key);
        }
      }
    } else {
      var key := if child.None? then "" else child.value;
      assert ScopeMatches(child, key) && !ScopeMatches(parent, key);
    }
  }

  datatype DelegationScope = DelegationScope(permissions: set<string>, canonicalPrefix: Option<string>)

  /** validate_delegated_scope: nothing, or the fault it raises. */
  function ValidateDelegatedScope(grant: DelegationScope, delegator: DelegationScope): (fault: Option<Fault>) {
    var prefix := if grant.canonicalPrefix.None? then "" else grant.canonicalPrefix.value;
    if ValidateCanonicalPrefix(prefix).Err? then Some(NotCanonical)
    else if !(grant.permissions <= delegator.permissions) then Some(ExceedsPermissions)
    else if !PrefixContains(delegator.canonicalPrefix, grant.canonicalPrefix) then Some(ExceedsPrefix)
    else None
  }

  /** A delegation is refused for a prefix that is not canonical, then for a permission the
      delegator has not, then for a key that the grant covers and the delegator does not. */
  lemma DelegatedExactlyWhen(grant: DelegationScope, delegator: DelegationScope)
    ensures var canonical := grant.canonicalPrefix in {None, Some("")} || Canonical(grant.canonicalPrefix.value);
            var held := forall p | p in grant.permissions :: p in delegator.permissions;
            var covered := forall key | ScopeMatches(grant.canonicalPrefix, key) ::
                             ScopeMatches(delegator.canonicalPrefix, key);
            var fault := ValidateDelegatedScope(grant, delegator);
            && (fault == Some(NotCanonical) <==> !canonical)
            && (fault == Some(ExceedsPermissions) <==> canonical && !held)
            && (fault == Some(ExceedsPrefix) <==> canonical && held && !covered)
            && (fault == None <==> canonical && held && covered)
  {
    CanonicalExactlyWhen(if grant.canonicalPrefix.None? then "" else grant.canonicalPrefix.value);
    ContainmentIsExact(delegator.canonicalPrefix, grant.canonicalPrefix);
  }

  /** Every scope was delegated by the one before it. */
  predicate Chain(scopes: seq<DelegationScope>) {
    forall i | 0 < i < |scopes| :: ValidateDelegatedScope(scopes[i], scopes[i - 1]).None?
  }

  /** Delegation composes: the end of a chain could have been delegated by its start, and
      covers no key and no permission that the start does not. */
  lemma {:induction false} ChainComposes(scopes: seq<DelegationScope>)
    requires Chain(scopes) && |scopes| >= 2
    ensures var first, last := scopes[0], scopes[|scopes| - 1];
            && ValidateDelegatedScope(last, first).None?
            && last.permissions <= first.permissions
            && forall key :: ScopeMatches(last.canonicalPrefix, key) ==> ScopeMatches(first.canonicalPrefix, key)
  {
    var first, middle, last := scopes[0], scopes[|scopes| - 2], scopes[|scopes| - 1];
    assert ValidateDelegatedScope(last, middle).None?;
    ContainmentIsExact(middle.canonicalPrefix, last.canonicalPrefix);
    if |scopes| > 2 {
      ChainComposes(scopes[..|scopes| - 1]);
      ContainmentIsExact(first.canonicalPrefix, last.canonicalPrefix);
    }
  }

  // ---------------------------------------------------- an API key's directory

  /** canonical_object_key. */
  function CanonicalObjectKey(key: string, allowEmpty: bool): (r: Result<string, Fault>) {
    if key == "" && !allowEmpty then Err(NotCanonical) else ValidateCanonicalPrefix(key)
  }

  /** The key of AuthorizedFileCommand.create; a directory of nothing stands for a human
      caller and for a key without one. */
  function CommandKey(directory: Option<string>, relative: string, listing: bool, resolved: bool)
    : (r: Result<string, Fault>)
  {
    var rel := CanonicalObjectKey(relative, listing);
    if rel.Err? then rel
    else if directory.None? || directory.value == "" then ValidateCanonicalPrefix(rel.value)
    else
      var prefix := CanonicalObjectKey(directory.value, false);
      if prefix.Err? then prefix
      else if resolved then
        if Inside(prefix.value, rel.value) then ValidateCanonicalPrefix(rel.value) else Err(OutsideDirectory)
      else
        ValidateCanonicalPrefix(if rel.value != "" then prefix.value + "/" + rel.value else prefix.value)
  }

  /** _key_relative_public_key. */
  function KeyRelativePublicKey(directory: Option<string>, key: string): (r: Result<string, Fault>) {
    if directory.None? || directory.value == "" then Ok(key)
    else if key == directory.value then Ok("")
    else if directory.value + "/" <= key then Ok(key[|directory.value| + 1..])
    else Err(OutsideDirectory)
  }

  /** A request in an API key's directory is accepted exactly when both are canonical and
      only a listing is empty; its key is the directory's segments, then its own. */
  lemma RequestIsAcceptedExactlyWhen(directory: string, relative: string, listing: bool)
    requires directory != ""
    ensures var r := CommandKey(Some(directory), relative, listing, false);
            && (r.Ok? <==> Canonical(directory) && (if relative == "" then listing else Canonical(relative)))
            && (r.Ok? ==>
                  && Canonical(r.value)
                  && Segments(r.value) == Segments(directory) + (if relative == "" then [] else Segments(relative)))
  {
    CanonicalExactlyWhen(relative);
    CanonicalExactlyWhen(directory);
    CanonicalExactlyWhen(directory + "/" + relative);
    JoinIsCanonical(directory, relative);
    SegmentsOfJoin(directory, relative);
  }

  /** The directory round trip: the key of an accepted request lies in the directory, a
      command may be made again from the resolved key, and what the client sees of that
      key is the path it asked for. */
  lemma DirectoryRoundTrip(directory: string, relative: string, listing: bool, action: bool)
    requires directory != "" && CommandKey(Some(directory), relative, listing, false).Ok?
    ensures var key := CommandKey(Some(directory), relative, listing, false).value;
            && Inside(directory, key)
            && CommandKey(Some(directory), key, action, true) == Ok(key)
            && KeyRelativePublicKey(Some(directory), key) == Ok(relative)
  {
    var key := CommandKey(Some(directory), relative, listing, false).value;
    RequestIsAcceptedExactlyWhen(directory, relative, listing);
    CanonicalExactlyWhen(directory);
    CanonicalExactlyWhen(relative);
    CanonicalExactlyWhen(key);
    CanonicalExactlyWhen(directory + "/" + relative);
    JoinIsCanonical(directory, relative);
    if relative != "" {
      assert key == directory + "/" + relative;
    }
  }

  /** The key of every command: that of a request without a directory and of one that is
      already resolved is its own, and a resolved one outside the directory is refused. */
  lemma CommandKeyExactlyWhen(directory: Option<string>, relative: string, listing: bool, resolved: bool)
    ensures var r, free := CommandKey(directory, relative, listing, resolved), directory in {None, Some("")};
            var canonical := (if relative == "" then listing else Canonical(relative))
                             && (free || Canonical(directory.value));
            var outside := !free && resolved && !(Segments(directory.value) <= Segments(relative));
            && (r == Err(NotCanonical) <==> !canonical)
            && (r == Err(OutsideDirectory) <==> canonical && outside)
            && (r.Ok? <==> canonical && !outside)
            && (r.Ok? && (free || resolved) ==> r.value == relative)
  {
    CanonicalExactlyWhen(relative);
    if directory.Some? && directory.value != "" {
      CanonicalExactlyWhen(directory.value);
      CanonicalExactlyWhen(directory.value + "/" + relative);
      JoinIsCanonical(directory.value, relative);
      InsideIsSegmentPrefix(directory.value, relative);
    }
  }

  /** What a client of a directory sees of a key is what follows the directory, and it sees
      no key that lies elsewhere. */
  lemma PublicKeyExactlyWhen(directory: string, key: string, path: string)
    requires directory != ""
    ensures KeyRelativePublicKey(Some(directory), key) == Ok(path)
            <==> (key == directory && path == "") || key == directory + "/" + path
    ensures KeyRelativePublicKey(Some(directory), key) == Err(OutsideDirectory)
            <==> key != directory && forall rest :: key != directory + "/" + rest
  {
    var start := directory + "/";
    if start <= key {
      assert key == start + key[|start|..];
    }
    if key == start + path {
      assert key[|start|..] == path;
    }
  }

  lemma PrefixesCompare(a: seq<string>, b: seq<string>, whole: seq<string>)
    requires a <= whole && b <= whole
    ensures a <= b || b <= a
  {
    assert a == whole[..|a|] && b == whole[..|b|];
  }

  /** Keys of two directories neither of which lies in the other never meet, whatever is
      asked for and by whatever way the command is made. */
  lemma DirectoriesAreApart(d1: string, r1: string, l1: bool, s1: bool, d2: string, r2: string, l2: bool, s2: bool)
    requires d1 != "" && d2 != "" && !Inside(d1, d2) && !Inside(d2, d1)
    requires CommandKey(Some(d1), r1, l1, s1).Ok? && CommandKey(Some(d2), r2, l2, s2).Ok?
    ensures CommandKey(Some(d1), r1, l1, s1) != CommandKey(Some(d2), r2, l2, s2)
  {
    var key := CommandKey(Some(d1), r1, l1, s1).value;
    CommandStaysInside(d1, r1, l1, s1);
    CommandStaysInside(d2, r2, l2, s2);
    if CommandKey(Some(d2), r2, l2, s2).value == key {
      InsideIsSegmentPrefix(d1, key);
      InsideIsSegmentPrefix(d2, key);
      InsideIsSegmentPrefix(d1, d2);
      InsideIsSegmentPrefix(d2, d1);
      PrefixesCompare(Segments(d1), Segments(d2), Segments(key));
    }
  }

  lemma CommandStaysInside(directory: string, relative: string, listing: bool, resolved: bool)
    requires directory != "" && CommandKey(Some(directory), relative, listing, resolved).Ok?
    ensures Inside(directory, CommandKey(Some(directory), relative, listing, resolved).value)
  {
    CanonicalExactlyWhen(directory);
    CanonicalExactlyWhen(relative);
    CanonicalExactlyWhen(directory + "/" + relative);
    if !resolved {
      DirectoryRoundTrip(directory, relative, listing, true);
    }
  }
}
