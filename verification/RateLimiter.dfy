/** RedisRateLimiter: a sorted set per caller, trimmed and given a time to live at every
    request, that stands for the caller's whole history. */
module RateLimiter {

  /** A sorted set whose members are their own scores, and when its key expires. */
  datatype Window = Window(entries: set<real>, expiresAt: real)

  /** A key that is not there: its time has always passed. */
  const ABSENT: Window := Window({}, 0.0)

  /** zremrangebyscore(key, 0, now - width) on what has not expired. */
  function Trimmed(w: Window, now: real, width: int): (kept: set<real>) {
    if now >= w.expiresAt then {} else set t | t in w.entries && !(0.0 <= t <= now - width as real)
  }

  /** zadd and expire: the request is recorded whether or not it is allowed. */
  function Recorded(w: Window, now: real, width: int): (after: Window) {
    Window(Trimmed(w, now, width) + {now}, now + width as real)
  }

  function Key(scope: string, identifier: string): (key: string) {
    "s3mp:rate:" + scope + ":" + identifier
  }

  ghost function TimesAt(history: map<string, seq<real>>, key: string): (times: seq<real>) {
    if key in history then history[key] else []
  }

  function WindowAt(windows: map<string, Window>, key: string): (w: Window) {
    if key in windows then windows[key] else ABSENT
  }

  // ------------------------------------------------------- a caller's history

  /** The caller's set after requests at the given instants. */
  function After(times: seq<real>, width: int): (w: Window) {
    if times == [] then ABSENT
    else Recorded(After(times[..|times| - 1], width), times[|times| - 1], width)
  }

  function Allowed(times: seq<real>, i: nat, limit: int, width: int): (allowed: bool)
    requires i < |times|
  {
    |Trimmed(After(times[..i], width), times[i], width)| < limit
  }

  class RedisRateLimiter {
    const limit: int
    const width: int  // seconds
    var windows: map<string, Window>
    ghost var history: map<string, seq<real>>  // the instants of all requests, by key

    ghost predicate Valid()
      reads this
    {
      forall key :: WindowAt(windows, key) == After(TimesAt(history, key), width)
    }

    constructor (limit: int, width: int)
      ensures Valid() && this.limit == limit && this.width == width && history == map[]
    {
      this.limit, this.width, this.windows, this.history := limit, width, map[], map[];
    }

    method Allow(scope: string, identifier: string, now: real) returns (allowed: bool)
      requires Valid()
      modifies this
      ensures Valid()
      ensures var times := TimesAt(old(history), Key(scope, identifier));
              && history == old(history)[Key(scope, identifier) := times + [now]]
              && allowed == Allowed(times + [now], |times|, limit, width)
    {
      var key := Key(scope, identifier);
      var kept := if key in windows && now < windows[key].expiresAt then windows[key].entries else {};
      kept := set t | t in kept && !(0.0 <= t <= now - width as real);
      var count := |kept|;
      windows := windows[key := Window(kept + {now}, now + width as real)];
      ghost var times := TimesAt(history, key);
      history := history[key := times + [now]];
      assert (times + [now])[..|times|] == times && (times + [now])[|times|] == now;
      assert After(times + [now], width) == Recorded(After(times, width), now, width);
      forall other | other != key
        ensures WindowAt(windows, other) == After(TimesAt(history, other), width)
      {
        assert WindowAt(old(windows), other) == After(TimesAt(old(history), other), width);
      }
      assert kept == Trimmed(After(times, width), now, width);
      return count < limit;
    }
  }

  /** Instants since the epoch that never run backwards. */
  ghost predicate Clock(times: seq<real>) {
    && (forall i | 0 <= i < |times| :: 0.0 <= times[i])
    && (forall i, j | 0 <= i < j < |times| :: times[i] <= times[j])
  }

  ghost predicate Strict(times: seq<real>) {
    forall i, j | 0 <= i < j < |times| :: times[i] < times[j]
  }

  /** The part of the whole history that is younger than the window. */
  function Recent(times: seq<real>, now: real, width: int): (recent: set<real>) {
    set t | t in times && t > now - width as real
  }

  lemma RecordedKeepsRecent(earlier: seq<real>, last: real, now: real, width: int)
    requires last <= now && forall t | t in earlier :: 0.0 <= t <= last
    requires 0.0 <= last
    ensures Trimmed(Window(Recent(earlier, last, width) + {last}, last + width as real), now, width)
         == Recent(earlier + [last], now, width)
  {
    var w := Window(Recent(earlier, last, width) + {last}, last + width as real);
    forall t
      ensures t in Trimmed(w, now, width) <==> t in Recent(earlier + [last], now, width)
    {
      assert t in earlier + [last] <==> t in earlier || t == last;
    }
  }

  /** The trimmed set is the history of the last window: neither trimming nor the expiry
      of the key ever loses a request that still counts, nor keeps one that does not. */
  lemma {:induction false} TrimmedIsHistory(times: seq<real>, now: real, width: int)
    requires Clock(times + [now])
    ensures Trimmed(After(times, width), now, width) == Recent(times, now, width)
  {
    if times != [] {
      var last, earlier := times[|times| - 1], times[..|times| - 1];
      var all := times + [now];
      assert times == earlier + [last];
      assert Clock(earlier + [last]) && 0.0 <= last <= now && forall t | t in earlier :: 0.0 <= t <= last by {
        assert forall i | 0 <= i < |times| :: all[i] == times[i];
        assert all[|times| - 1] <= all[|times|];
      }
      TrimmedIsHistory(earlier, last, width);
      RecordedKeepsRecent(earlier, last, now, width);
    }
  }

  /** A request is allowed when fewer than limit distinct instants of the last window,
      its own included, saw a request, allowed or not. */
  lemma AllowedExactlyWhen(times: seq<real>, i: nat, limit: int, width: int)
    requires Clock(times) && i < |times|
    ensures Allowed(times, i, limit, width) <==> |Recent(times[..i], times[i], width)| < limit
  {
    assert times[..i] + [times[i]] == times[..i + 1];
    TrimmedIsHistory(times[..i], times[i], width);
  }

  /** A whole window without a request forgets everything before it, on any clock. */
  lemma QuietWindowForgets(times: seq<real>, i: nat, limit: int, width: int)
    requires 0 < i < |times| && times[i - 1] + width as real <= times[i]
    ensures Allowed(times, i, limit, width) <==> 0 < limit
  {
    assert times[..i][..i - 1] == times[..i - 1];
    assert Trimmed(After(times[..i], width), times[i], width) == {};
  }

  // ------------------------------------------------------------- the bound

  /** The allowed requests of an interval that holds its left end or its right end. */
  ghost function Granted(times: seq<real>, limit: int, width: int, from: real, leftClosed: bool): (group: set<nat>) {
    set i: nat | i < |times| && Allowed(times, i, limit, width) && Inside(times[i], from, width, leftClosed)
  }

  predicate Inside(t: real, from: real, width: int, leftClosed: bool) {
    if leftClosed then from <= t < from + width as real else from < t <= from + width as real
  }

  function Instants(times: seq<real>, group: set<nat>): (instants: set<real>)
    requires forall i | i in group :: i < |times|
  {
    set i | i in group :: times[i]
  }

  lemma SubsetIsNoLarger<T>(a: set<T>, b: set<T>)
    requires a <= b
    ensures |a| <= |b|
  {
    if a != {} {
      var x :| x in a;
      SubsetIsNoLarger(a - {x}, b - {x});
    }
  }

  lemma LatestOf(group: set<nat>) returns (m: nat)
    requires group != {}
    ensures m in group && forall i | i in group :: i <= m
  {
    m :| m in group;
    var first, others := m, group - {m};
    assert forall i | i in group :: i == first || i in others;
    if others != {} {
      var latest := LatestOf(others);
      m := if latest < first then first else latest;
    }
  }

  /** On any clock, the allowed requests of a half-open interval of the window's width
      fall on at most limit instants. */
  lemma GrantedInstantsAreLimited(times: seq<real>, limit: int, width: int, from: real, leftClosed: bool)
    requires Clock(times)
    ensures |Instants(times, Granted(times, limit, width, from, leftClosed))| <= if limit > 0 then limit else 0
  {
    var granted := Granted(times, limit, width, from, leftClosed);
    if granted != {} {
      var m := LatestOf(granted);
      AllowedExactlyWhen(times, m, limit, width);
      var recent := Recent(times[..m], times[m], width);
      forall i | i in granted
        ensures times[i] in recent + {times[m]}
      {
        assert i < m ==> times[..m][i] == times[i];
      }
      SubsetIsNoLarger(Instants(times, granted), recent + {times[m]});
    }
  }

  lemma {:induction false} StrictInstantsCount(times: seq<real>, group: set<nat>)
    requires Strict(times) && forall i | i in group :: i < |times|
    ensures |Instants(times, group)| == |group|
    decreases |group|
  {
    if group == {} {
      assert Instants(times, group) == {};
    } else {
      var x :| x in group;
      StrictInstantsCount(times, group - {x});
      assert Instants(times, group) == Instants(times, group - {x}) + {times[x]};
      assert times[x] !in Instants(times, group - {x});
    }
  }

  /** On a strictly increasing clock, no half-open interval of the window's width holds
      more than limit allowed requests, wherever it starts. */
  lemma GrantedIsLimited(times: seq<real>, limit: int, width: int, from: real, leftClosed: bool)
    requires Clock(times) && Strict(times)
    ensures |Granted(times, limit, width, from, leftClosed)| <= if limit > 0 then limit else 0
  {
    GrantedInstantsAreLimited(times, limit, width, from, leftClosed);
    StrictInstantsCount(times, Granted(times, limit, width, from, leftClosed));
  }

  /** A closed interval can hold one more: a request exactly one window after another one
      does not see it. */
  lemma RequestsOneWindowApart(width: int)
    requires width > 0
    ensures var times := [0.0, width as real];
            Clock(times) && Allowed(times, 0, 1, width) && Allowed(times, 1, 1, width)
  {
    var times := [0.0, width as real];
    AllowedExactlyWhen(times, 0, 1, width);
    AllowedExactlyWhen(times, 1, 1, width);
    assert Recent(times[..0], times[0], width) == {};
    assert Recent(times[..1], times[1], width) == {};
  }

  /** Requests that read the same instant share one member of the set: with a limit of two
      or more, all of them are allowed, however many they are. */
  lemma SameInstantIsUnlimited(times: seq<real>, i: nat, limit: int, width: int)
    requires Clock(times) && i < |times| && limit >= 2
    requires forall j | 0 <= j < |times| :: times[j] == times[0]
    ensures Allowed(times, i, limit, width)
  {
    AllowedExactlyWhen(times, i, limit, width);
    SubsetIsNoLarger(Recent(times[..i], times[i], width), {times[0]});
  }

  /** With a limit of one, or none, or no window, a second request of an instant is seen. */
  lemma SmallLimitsAreKept(times: seq<real>, limit: int, width: int, from: real, leftClosed: bool)
    requires Clock(times) && (limit <= 1 || width <= 0)
    ensures |Granted(times, limit, width, from, leftClosed)| <= if limit > 0 then limit else 0
  {
    var granted := Granted(times, limit, width, from, leftClosed);
    if granted != {} && width > 0 {
      var m := LatestOf(granted);
      AllowedExactlyWhen(times, m, limit, width);
      forall i | i in granted
        ensures i == m
      {
        EarlierIsRecent(times, i, m, width, from, leftClosed);
      }
      assert granted == {m};
    }
  }

  lemma EarlierIsRecent(times: seq<real>, i: nat, m: nat, width: int, from: real, leftClosed: bool)
    requires i <= m < |times|
    requires Inside(times[i], from, width, leftClosed) && Inside(times[m], from, width, leftClosed)
    ensures i < m ==> times[i] in Recent(times[..m], times[m], width)
  {
    assert i < m ==> times[..m][i] == times[i];
  }

  function Repeat(t: real, n: nat): (times: seq<real>) {
    seq(n, _ => t)
  }

  function UpTo(n: nat): (all: set<nat>)
    ensures forall i: nat :: i in all <==> i < n
    ensures |all| == n
  {
    if n == 0 then {} else UpTo(n - 1) + {n - 1}
  }

  lemma RepeatedInstantIsGranted(limit: int, width: int)
    requires limit >= 2 && width > 0
    ensures Clock(Repeat(0.0, limit + 1)) && |Granted(Repeat(0.0, limit + 1), limit, width, 0.0, true)| == limit + 1
  {
    var times := Repeat(0.0, limit + 1);
    forall i: nat | i < |times|
      ensures Allowed(times, i, limit, width)
    {
      SameInstantIsUnlimited(times, i, limit, width);
    }
    assert Granted(times, limit, width, 0.0, true) == UpTo(limit + 1);
  }

  ghost predicate Bounded(times: seq<real>, limit: int, width: int, from: real, leftClosed: bool) {
    Clock(times) ==> |Granted(times, limit, width, from, leftClosed)| <= if limit > 0 then limit else 0
  }

  /** The bound holds on every clock, whether or not instants repeat, exactly for limits of
      at most one and windows without width. */
  lemma BoundHoldsExactlyWhen(limit: int, width: int)
    ensures (forall times, from, leftClosed :: Bounded(times, limit, width, from, leftClosed))
       <==> limit <= 1 || width <= 0
  {
    if limit <= 1 || width <= 0 {
      forall times, from, leftClosed
        ensures Bounded(times, limit, width, from, leftClosed)
      {
        if Clock(times) {
          SmallLimitsAreKept(times, limit, width, from, leftClosed);
        }
      }
    } else {
      RepeatedInstantIsGranted(limit, width);
      assert !Bounded(Repeat(0.0, limit + 1), limit, width, 0.0, true);
    }
  }

  // ---------------------------------------------------------- callers apart

  lemma ColonEndsScope(scope: string, identifier: string)
    requires ':' !in scope
    ensures (scope + ":" + identifier)[|scope|] == ':'
    ensures forall k | 0 <= k < |scope| :: (scope + ":" + identifier)[k] != ':'
  {
  }

  /** Two callers share a set only when they are the same, as long as scopes hold no colon. */
  lemma {:induction false} CallersAreApart(s1: string, i1: string, s2: string, i2: string)
    requires ':' !in s1 && ':' !in s2 && Key(s1, i1) == Key(s2, i2)
    ensures s1 == s2 && i1 == i2
  {
    var p := "s3mp:rate:";
    assert Key(s1, i1)[|p|..] == s1 + ":" + i1;
    assert Key(s2, i2)[|p|..] == s2 + ":" + i2;
    var rest := s1 + ":" + i1;
    assert rest == s2 + ":" + i2;
    ColonEndsScope(s1, i1);
    ColonEndsScope(s2, i2);
    assert rest[|s1|] == ':' && rest[|s2|] == ':';
    assert |s1| == |s2|;
    assert s1 == rest[..|s1|] && s2 == rest[..|s2|];
    assert i1 == rest[|s1| + 1..] && i2 == rest[|s2| + 1..];
  }
}
