/** FileOperationLockSet: all-or-nothing token locks with leases, on a Redis that other
    clients use between any two of our commands. */
module OperationLock {

  type FileId = nat
  type Token = string

  datatype Entry = Entry(token: Token, deadline: int)

  datatype Redis = Redis(entries: map<FileId, Entry>, now: int) {
    /** An entry whose lease is over is as good as absent. */
    predicate Live(id: FileId) {
      id in entries && now < entries[id].deadline
    }

    predicate Owns(token: Token, id: FileId) {
      Live(id) && entries[id].token == token
    }
  }

  /** The atomic commands: SET NX PX, the two compare-token scripts, and time. */
  datatype Command =
    | SetNx(id: FileId, token: Token, ttl: int)
    | ReleaseIf(id: FileId, token: Token)
    | RenewIf(id: FileId, token: Token, ttl: int)
    | Tick(elapsed: nat)

  /** Whether the command finds what it asks for, which is also what it replies. */
  predicate Succeeds(r: Redis, c: Command) {
    match c
    case SetNx(id, _, _) => !r.Live(id)
    case ReleaseIf(id, token) => r.Owns(token, id)
    case RenewIf(id, token, _) => r.Owns(token, id)
    case Tick(_) => true
  }

  function Apply(r: Redis, c: Command): (s: Redis) {
    if !Succeeds(r, c) then r
    else
      match c
      case SetNx(id, token, ttl) => r.(entries := r.entries[id := Entry(token, r.now + ttl)])
      case ReleaseIf(id, _) => r.(entries := r.entries - {id})
      case RenewIf(id, token, ttl) => r.(entries := r.entries[id := Entry(token, r.now + ttl)])
      case Tick(elapsed) => r.(now := r.now + elapsed)
  }

  function Run(r: Redis, commands: seq<Command>): (s: Redis)
    ensures s.now >= r.now
    decreases |commands|
  {
    if commands == [] then r else Run(Apply(r, commands[0]), commands[1..])
  }

  // ------------------------------------------------------ what one call does

  datatype CallFault = Fine | RaiseBefore | RaiseAfter

  /** Around one call: what other clients did before it, and how it goes. */
  datatype Answer = Answer(others: seq<Command>, fault: CallFault)

  datatype Outcome = Acquired | Refused | Raised

  /** The keys in the order they are taken. */
  function InsertId(id: FileId, sorted: seq<FileId>): (r: seq<FileId>)
    ensures multiset(r) == multiset{id} + multiset(sorted)
  {
    if sorted == [] || id <= sorted[0] then [id] + sorted
    else
      assert sorted == [sorted[0]] + sorted[1..];
      [sorted[0]] + InsertId(id, sorted[1..])
  }

  function SortIds(ids: seq<FileId>): (r: seq<FileId>)
    ensures multiset(r) == multiset(ids)
  {
    if ids == [] then []
    else
      assert ids == [ids[0]] + ids[1..];
      InsertId(ids[0], SortIds(ids[1..]))
  }

  predicate Ascending(ids: seq<FileId>) {
    forall i, j :: 0 <= i < j < |ids| ==> ids[i] <= ids[j]
  }

  lemma {:induction false} InsertedMembers(id: FileId, sorted: seq<FileId>, k: FileId)
    ensures k in InsertId(id, sorted) <==> k == id || k in sorted
    decreases |sorted|
  {
    if sorted != [] && id > sorted[0] {
      InsertedMembers(id, sorted[1..], k);
      assert k in sorted <==> k == sorted[0] || k in sorted[1..];
    }
  }

  lemma {:induction false} InsertKeepsOrder(id: FileId, sorted: seq<FileId>)
    requires Ascending(sorted)
    ensures Ascending(InsertId(id, sorted))
    decreases |sorted|
  {
    if sorted != [] && id > sorted[0] {
      InsertKeepsOrder(id, sorted[1..]);
      var rest := InsertId(id, sorted[1..]);
      forall j | 0 <= j < |rest|
        ensures sorted[0] <= rest[j]
      {
        InsertedMembers(id, sorted[1..], rest[j]);
      }
    }
  }

  /** Every client takes its keys, each as often as it was given, in the order of their ids. */
  lemma {:induction false} KeysAreInOrder(ids: seq<FileId>)
    ensures Ascending(SortIds(ids)) && multiset(SortIds(ids)) == multiset(ids)
    decreases |ids|
  {
    if ids != [] {
      KeysAreInOrder(ids[1..]);
      InsertKeepsOrder(ids[0], SortIds(ids[1..]));
    }
  }

  /** A list of commands and how the calls that issued them ended. */
  datatype Script = Script(commands: seq<Command>, outcome: Outcome)

  function Sent(answer: Answer, c: Command): (commands: seq<Command>) {
    answer.others + (if answer.fault.RaiseBefore? then [] else [c])
  }

  /** The acquire loop from key i on, and the clean-up of its finally clause. */
  function Taking(r: Redis, keys: seq<FileId>, token: Token, ttl: int,
                  sets: nat -> Answer, releases: nat -> Answer, i: nat): (s: Script)
    requires i <= |keys|
    decreases |keys| - i
  {
    if i == |keys| then Script([], Acquired)
    else
      var c := SetNx(keys[i], token, ttl);
      var sent := Sent(sets(i), c);
      if !sets(i).fault.Fine? then GivingUp(sent, Raised, keys[..i], token, releases)
      else if !Succeeds(Run(r, sets(i).others), c) then GivingUp(sent, Refused, keys[..i], token, releases)
      else
        var rest := Taking(Run(r, sent), keys, token, ttl, sets, releases, i + 1);
        rest.(commands := sent + rest.commands)
  }

  function GivingUp(sent: seq<Command>, outcome: Outcome, acquired: seq<FileId>, token: Token,
                    releases: nat -> Answer): (s: Script) {
    var cleanup := Releasing(acquired, token, releases, 0);
    Script(sent + cleanup.commands, if cleanup.outcome.Raised? then Raised else outcome)
  }

  /** Releasing key after key; a call that raises leaves the rest alone. */
  function Releasing(keys: seq<FileId>, token: Token, releases: nat -> Answer, j: nat): (s: Script)
    requires j <= |keys|
    decreases |keys| - j
  {
    if j == |keys| then Script([], Refused)
    else
      var sent := Sent(releases(j), ReleaseIf(keys[j], token));
      if !releases(j).fault.Fine? then Script(sent, Raised)
      else
        var rest := Releasing(keys, token, releases, j + 1);
        rest.(commands := sent + rest.commands)
  }

  /** One round of the renewal task: it stops at the first key that is no longer ours. */
  function Renewing(r: Redis, keys: seq<FileId>, token: Token, ttl: int, renewals: nat -> Answer, j: nat): (s: Script)
    requires j <= |keys|
    decreases |keys| - j
  {
    if j == |keys| then Script([], Acquired)
    else
      var c := RenewIf(keys[j], token, ttl);
      var sent := Sent(renewals(j), c);
      if !renewals(j).fault.Fine? then Script(sent, Raised)
      else if !Succeeds(Run(r, renewals(j).others), c) then Script(sent, Refused)
      else
        var rest := Renewing(Run(r, sent), keys, token, ttl, renewals, j + 1);
        rest.(commands := sent + rest.commands)
  }

  // ------------------------------------------------------------- lock set

  class RedisServer {
    var state: Redis

    constructor (state: Redis)
      ensures this.state == state
    {
      this.state := state;
    }

    /** Other clients run their commands, then this one runs unless it never arrives. */
    method Call(c: Command, answer: Answer) returns (reply: bool)
      modifies this
      ensures state == Run(old(state), Sent(answer, c))
      ensures answer.fault.Fine? ==> reply == Succeeds(Run(old(state), answer.others), c)
    {
      RunComposes(state, answer.others, [c]);
      state := Run(state, answer.others);
      reply := Succeeds(state, c);
      if !answer.fault.RaiseBefore? {
        assert [c][1..] == [] && Run(state, [c]) == Apply(state, c);
        state := Apply(state, c);
      } else {
        assert answer.others + [] == answer.others;
      }
    }
  }

  /** The renewal task: it ends at a key that is lost, when it is cancelled, or by an exception. */
  datatype Renewal = NotStarted | Going | Over | Broken

  class FileOperationLockSet {
    const redis: RedisServer
    const token: Token
    const keys: seq<FileId>
    const ttl: int
    var renewal: Renewal

    constructor (redis: RedisServer, fileIds: seq<FileId>, leaseSeconds: int, token: Token)
      ensures this.redis == redis && this.token == token && this.ttl == leaseSeconds * 1000 && renewal == NotStarted
      ensures keys == SortIds(fileIds)
    {
      this.redis, this.token, this.ttl := redis, token, leaseSeconds * 1000;
      this.keys := SortIds(fileIds);
      this.renewal := NotStarted;
    }

    method Acquire(sets: nat -> Answer, releases: nat -> Answer) returns (outcome: Outcome)
      modifies this, redis
      ensures var script := Taking(old(redis.state), keys, token, ttl, sets, releases, 0);
              outcome == script.outcome && redis.state == Run(old(redis.state), script.commands)
      ensures renewal == if outcome.Acquired? && keys != [] then Going else old(renewal)
    {
      ghost var start, all := redis.state, Taking(redis.state, keys, token, ttl, sets, releases, 0);
      for i := 0 to |keys|
        invariant renewal == old(renewal)
        invariant var rest := Taking(redis.state, keys, token, ttl, sets, releases, i);
                  all.outcome == rest.outcome && Run(start, all.commands) == Run(redis.state, rest.commands)
      {
        ghost var before := redis.state;
        ghost var sent := Sent(sets(i), SetNx(keys[i], token, ttl));
        var taken := redis.Call(SetNx(keys[i], token, ttl), sets(i));
        if !sets(i).fault.Fine? || !taken {
          RunComposes(before, sent, Releasing(keys[..i], token, releases, 0).commands);
          outcome := GiveUp(keys[..i], if sets(i).fault.Fine? then Refused else Raised, releases);
          return;
        }
        RunComposes(before, sent, Taking(redis.state, keys, token, ttl, sets, releases, i + 1).commands);
      }
      if keys != [] {
        renewal := Going;
      }
      return Acquired;
    }

    /** The finally clause: an exception of its own takes the place of what was to come. */
    method GiveUp(acquired: seq<FileId>, otherwise: Outcome, releases: nat -> Answer) returns (outcome: Outcome)
      modifies redis
      ensures var cleanup := Releasing(acquired, token, releases, 0);
              && outcome == (if cleanup.outcome.Raised? then Raised else otherwise)
              && redis.state == Run(old(redis.state), cleanup.commands)
    {
      var released := ReleaseKeys(acquired, releases);
      return if released then otherwise else Raised;
    }

    method ReleaseKeys(ids: seq<FileId>, releases: nat -> Answer) returns (finished: bool)
      modifies redis
      ensures var script := Releasing(ids, token, releases, 0);
              finished == !script.outcome.Raised? && redis.state == Run(old(redis.state), script.commands)
    {
      ghost var start, all := redis.state, Releasing(ids, token, releases, 0);
      for j := 0 to |ids|
        invariant var rest := Releasing(ids, token, releases, j);
                  all.outcome == rest.outcome && Run(start, all.commands) == Run(redis.state, rest.commands)
      {
        ghost var before := redis.state;
        var _ := redis.Call(ReleaseIf(ids[j], token), releases(j));
        if !releases(j).fault.Fine? {
          return false;
        }
        RunComposes(before, Sent(releases(j), ReleaseIf(ids[j], token)),
                    Releasing(ids, token, releases, j + 1).commands);
      }
      return true;
    }

    /** A renewal task still going is cancelled; one that an exception ended passes it on
        when it is awaited, before any key is let go. */
    method Release(releases: nat -> Answer) returns (finished: bool)
      modifies this, redis
      ensures renewal == if old(renewal).Going? then Over else old(renewal)
      ensures var script := ReleaseScript(old(renewal), keys, token, releases);
              finished == !script.outcome.Raised? && redis.state == Run(old(redis.state), script.commands)
    {
      if renewal.Going? {
        renewal := Over;
      }
      if renewal.Broken? {
        return false;
      }
      finished := ReleaseKeys(keys, releases);
    }

    method RenewRound(renewals: nat -> Answer) returns (outcome: Outcome)
      modifies this, redis
      ensures var script := Renewing(old(redis.state), keys, token, ttl, renewals, 0);
              outcome == script.outcome && redis.state == Run(old(redis.state), script.commands)
      ensures renewal == if outcome.Raised? then Broken else if outcome.Refused? then Over else old(renewal)
    {
      ghost var start, all := redis.state, Renewing(redis.state, keys, token, ttl, renewals, 0);
      for j := 0 to |keys|
        invariant renewal == old(renewal)
        invariant var rest := Renewing(redis.state, keys, token, ttl, renewals, j);
                  all.outcome == rest.outcome && Run(start, all.commands) == Run(redis.state, rest.commands)
      {
        ghost var before := redis.state;
        var renewed := redis.Call(RenewIf(keys[j], token, ttl), renewals(j));
        if !renewals(j).fault.Fine? || !renewed {
          renewal := if renewals(j).fault.Fine? then Over else Broken;
          return if renewals(j).fault.Fine? then Refused else Raised;
        }
        RunComposes(before, Sent(renewals(j), RenewIf(keys[j], token, ttl)),
                    Renewing(redis.state, keys, token, ttl, renewals, j + 1).commands);
      }
      return Acquired;
    }
  }

  lemma {:induction false} RunComposes(r: Redis, a: seq<Command>, b: seq<Command>)
    ensures Run(r, a + b) == Run(Run(r, a), b)
    decreases |a|
  {
    if a == [] {
      assert a + b == b;
    } else {
      RunComposes(Apply(r, a[0]), a[1..], b);
      assert (a + b)[1..] == a[1..] + b;
    }
  }

  // ------------------------------------------------- whose entry is it

  /** No command deletes, replaces or extends a live entry of another token. */
  lemma CommandSparesOtherTokens(r: Redis, c: Command, id: FileId)
    requires r.Live(id) && (c.Tick? || c.token != r.entries[id].token)
    ensures id in Apply(r, c).entries && Apply(r, c).entries[id] == r.entries[id]
  {
  }

  /** Commands issued by anyone else. */
  predicate Foreign(commands: seq<Command>, token: Token) {
    forall c | c in commands :: c.Tick? || c.token != token
  }

  ghost predicate AllForeign(answers: nat -> Answer, token: Token) {
    forall i: nat :: Foreign(answers(i).others, token)
  }

  /** c neither gives id up nor renews it for another length of time. */
  predicate Preserves(c: Command, id: FileId, token: Token, ttl: int) {
    && c != ReleaseIf(id, token)
    && (c.RenewIf? && c.id == id && c.token == token ==> c.ttl == ttl)
  }

  predicate AllPreserve(commands: seq<Command>, id: FileId, token: Token, ttl: int) {
    forall c | c in commands :: Preserves(c, id, token, ttl)
  }

  /** An owned key stays owned through any commands that preserve it, for its lease. */
  lemma {:induction false} OwnershipLasts(r: Redis, commands: seq<Command>, id: FileId, token: Token, ttl: int,
                                          until: int)
    requires r.Owns(token, id) && until <= r.entries[id].deadline && until <= r.now + ttl
    requires AllPreserve(commands, id, token, ttl) && Run(r, commands).now < until
    ensures Run(r, commands).Owns(token, id) && until <= Run(r, commands).entries[id].deadline
    decreases |commands|
  {
    if commands != [] {
      var c := commands[0];
      assert c in commands;
      var next := Apply(r, c);
      assert Run(r, commands) == Run(next, commands[1..]);
      assert next.now < until;
      if c.Tick? || c.token != token {
        CommandSparesOtherTokens(r, c, id);
      }
      OwnershipLasts(next, commands[1..], id, token, ttl, until);
    }
  }

  // --------------------------------------------------- claims in a history

  /** In history h from r0, the SET at j took id for token, and nothing after it gave
      the key up again. */
  predicate Claims(r0: Redis, h: seq<Command>, j: nat, id: FileId, token: Token, ttl: int) {
    && j < |h| && h[j] == SetNx(id, token, ttl) && Succeeds(Run(r0, h[..j]), h[j])
    && AllPreserve(h[j + 1..], id, token, ttl)
  }

  lemma ClaimIsOwnership(r0: Redis, h: seq<Command>, j: nat, id: FileId, token: Token, ttl: int)
    requires Claims(r0, h, j, id, token, ttl)
    requires Run(r0, h).now < Run(r0, h[..j]).now + ttl
    ensures Run(r0, h).Owns(token, id)
  {
    var before := Run(r0, h[..j]);
    var taken := Apply(before, h[j]);
    assert h == h[..j] + ([h[j]] + h[j + 1..]);
    RunComposes(r0, h[..j], [h[j]] + h[j + 1..]);
    assert ([h[j]] + h[j + 1..])[1..] == h[j + 1..];
    assert Run(r0, h) == Run(taken, h[j + 1..]);
    OwnershipLasts(taken, h[j + 1..], id, token, ttl, before.now + ttl);
  }

  /** Every key was claimed at or after step i of the history. */
  ghost predicate ClaimsAll(r0: Redis, h: seq<Command>, i: nat, keys: seq<FileId>, token: Token, ttl: int) {
    forall id | id in keys :: Claimed(r0, h, i, id, token, ttl)
  }

  ghost predicate Claimed(r0: Redis, h: seq<Command>, i: nat, id: FileId, token: Token, ttl: int) {
    exists j :: i <= j && Claims(r0, h, j, id, token, ttl)
  }

  lemma {:induction false} TimeMovesOn(r0: Redis, h: seq<Command>, i: nat, j: nat)
    requires i <= j <= |h|
    ensures Run(r0, h[..i]).now <= Run(r0, h[..j]).now
  {
    assert h[..j] == h[..i] + h[i..j];
    RunComposes(r0, h[..i], h[i..j]);
  }

  // ------------------------------------------------------------- acquire

  /** Everything the acquire loop sends leaves an already owned key alone. */
  lemma {:induction false} TakingPreserves(r: Redis, keys: seq<FileId>, token: Token, ttl: int,
                                           sets: nat -> Answer, releases: nat -> Answer, i: nat, id: FileId)
    requires i <= |keys| && AllForeign(sets, token)
    requires Taking(r, keys, token, ttl, sets, releases, i).outcome.Acquired?
    ensures AllPreserve(Taking(r, keys, token, ttl, sets, releases, i).commands, id, token, ttl)
    decreases |keys| - i
  {
    if i < |keys| {
      var sent := Sent(sets(i), SetNx(keys[i], token, ttl));
      assert Foreign(sets(i).others, token);
      TakingPreserves(Run(r, sent), keys, token, ttl, sets, releases, i + 1, id);
    }
  }

  /** A successful acquire has claimed every key it was asked for. */
  lemma {:induction false} TakingClaims(r: Redis, keys: seq<FileId>, token: Token, ttl: int,
                                        sets: nat -> Answer, releases: nat -> Answer, i: nat)
    requires i <= |keys| && AllForeign(sets, token)
    requires Taking(r, keys, token, ttl, sets, releases, i).outcome.Acquired?
    ensures ClaimsAll(r, Taking(r, keys, token, ttl, sets, releases, i).commands, 0, keys[i..], token, ttl)
    decreases |keys| - i
  {
    if i < |keys| {
      var c := SetNx(keys[i], token, ttl);
      var others := sets(i).others;
      var sent := others + [c];
      var rest := Taking(Run(r, sent), keys, token, ttl, sets, releases, i + 1).commands;
      var all := sent + rest;
      assert Taking(r, keys, token, ttl, sets, releases, i).commands == all;
      TakingPreserves(Run(r, sent), keys, token, ttl, sets, releases, i + 1, keys[i]);
      assert all[..|others|] == others && all[|others|] == c && all[|others| + 1..] == rest;
      assert Claims(r, all, |others|, keys[i], token, ttl);
      TakingClaims(Run(r, sent), keys, token, ttl, sets, releases, i + 1);
      assert keys[i..] == [keys[i]] + keys[i + 1..];
      forall id | id in keys[i + 1..] ensures Claimed(r, all, 0, id, token, ttl) {
        assert Claimed(Run(r, sent), rest, 0, id, token, ttl);
        var j :| 0 <= j && Claims(Run(r, sent), rest, j, id, token, ttl);
        ClaimShifts(r, sent, rest, j, id, token, ttl);
      }
    }
  }

  lemma ClaimShifts(r: Redis, front: seq<Command>, h: seq<Command>, j: nat, id: FileId, token: Token, ttl: int)
    requires Claims(Run(r, front), h, j, id, token, ttl)
    ensures Claims(r, front + h, |front| + j, id, token, ttl)
  {
    assert (front + h)[..|front| + j] == front + h[..j];
    assert (front + h)[|front| + j + 1..] == h[j + 1..];
    RunComposes(r, front, h[..j]);
  }

  lemma ClaimExtends(r: Redis, h: seq<Command>, later: seq<Command>, j: nat, id: FileId, token: Token, ttl: int)
    requires Claims(r, h, j, id, token, ttl) && AllPreserve(later, id, token, ttl)
    ensures Claims(r, h + later, j, id, token, ttl)
  {
    assert (h + later)[..j] == h[..j];
    assert (h + later)[j + 1..] == h[j + 1..] + later;
  }

  /** A client that believes it holds its locks: from step i of the history on, its acquire
      ran and returned true, and since then nothing released them. It is executing. */
  datatype Holder = Holder(i: nat, keys: seq<FileId>, token: Token, ttl: int, sets: nat -> Answer,
                           releases: nat -> Answer)

  ghost predicate Holding(r0: Redis, h: seq<Command>, client: Holder) {
    && client.i <= |h| && AllForeign(client.sets, client.token)
    && TakenThenKept(Run(r0, h[..client.i]), client, h[client.i..])
  }

  /** The commands start with a whole acquire, and what follows preserves the keys. */
  ghost predicate TakenThenKept(start: Redis, client: Holder, commands: seq<Command>) {
    var script := Taking(start, client.keys, client.token, client.ttl, client.sets, client.releases, 0);
    && script.outcome.Acquired? && script.commands <= commands
    && forall id | id in client.keys :: AllPreserve(commands[|script.commands|..], id, client.token, client.ttl)
  }

  /** The same for a renewal round, which found every key. */
  ghost predicate RoundThenKept(start: Redis, client: Holder, renewals: nat -> Answer, commands: seq<Command>) {
    var script := Renewing(start, client.keys, client.token, client.ttl, renewals, 0);
    && script.outcome.Acquired? && script.commands <= commands
    && forall id | id in client.keys :: AllPreserve(commands[|script.commands|..], id, client.token, client.ttl)
  }

  lemma HistorySplits(r0: Redis, h: seq<Command>, i: nat)
    requires i <= |h|
    ensures Run(r0, h) == Run(Run(r0, h[..i]), h[i..])
  {
    assert h == h[..i] + h[i..];
    RunComposes(r0, h[..i], h[i..]);
  }

  lemma TimeOnlyPasses(r: Redis, commands: seq<Command>)
    ensures r.now <= Run(r, commands).now
  {
    assert commands[..0] == [] && commands[..|commands|] == commands;
    TimeMovesOn(r, commands, 0, |commands|);
  }

  lemma RenewedKeyStaysOwned(start: Redis, client: Holder, renewals: nat -> Answer, later: seq<Command>, id: FileId)
    requires id in client.keys && AllForeign(renewals, client.token)
    requires Renewing(start, client.keys, client.token, client.ttl, renewals, 0).outcome.Acquired?
    requires AllPreserve(later, id, client.token, client.ttl)
    requires var end := Run(start, Renewing(start, client.keys, client.token, client.ttl, renewals, 0).commands);
             Run(end, later).now < start.now + client.ttl
    ensures var end := Run(start, Renewing(start, client.keys, client.token, client.ttl, renewals, 0).commands);
            Run(end, later).Owns(client.token, id)
  {
    var end := Run(start, Renewing(start, client.keys, client.token, client.ttl, renewals, 0).commands);
    TimeOnlyPasses(start, Renewing(start, client.keys, client.token, client.ttl, renewals, 0).commands);
    TimeOnlyPasses(end, later);
    assert client.keys[0..] == client.keys;
    RenewalExtendsAll(start, client.keys, client.token, client.ttl, renewals, 0, id);
    OwnershipLasts(end, later, id, client.token, client.ttl, start.now + client.ttl);
  }

  lemma RoundIsOwnership(start: Redis, client: Holder, renewals: nat -> Answer, commands: seq<Command>, id: FileId)
    requires AllForeign(renewals, client.token) && RoundThenKept(start, client, renewals, commands)
    requires Run(start, commands).now < start.now + client.ttl && id in client.keys
    ensures Run(start, commands).Owns(client.token, id)
  {
    var script := Renewing(start, client.keys, client.token, client.ttl, renewals, 0).commands;
    assert commands == script + commands[|script|..];
    RunComposes(start, script, commands[|script|..]);
    RenewedKeyStaysOwned(start, client, renewals, commands[|script|..], id);
  }

  /** For a lease after acquire began, its holder owns every key, whatever others do. */
  lemma TakenIsOwnership(start: Redis, client: Holder, commands: seq<Command>, id: FileId)
    requires AllForeign(client.sets, client.token) && TakenThenKept(start, client, commands)
    requires Run(start, commands).now < start.now + client.ttl && id in client.keys
    ensures Run(start, commands).Owns(client.token, id)
  {
    var script := Taking(start, client.keys, client.token, client.ttl, client.sets, client.releases, 0).commands;
    TakingClaims(start, client.keys, client.token, client.ttl, client.sets, client.releases, 0);
    assert client.keys[0..] == client.keys;
    assert Claimed(start, script, 0, id, client.token, client.ttl);
    var k :| 0 <= k && Claims(start, script, k, id, client.token, client.ttl);
    assert commands == script + commands[|script|..];
    ClaimExtends(start, script, commands[|script|..], k, id, client.token, client.ttl);
    TimeOnlyPasses(start, commands[..k]);
    ClaimIsOwnership(start, commands, k, id, client.token, client.ttl);
  }

  /** From step k on a whole renewal round ran, and its lease has not run out. */
  ghost predicate Renewed(r0: Redis, h: seq<Command>, client: Holder, k: nat, renewals: nat -> Answer) {
    && k <= |h| && AllForeign(renewals, client.token)
    && RoundThenKept(Run(r0, h[..k]), client, renewals, h[k..])
    && Run(r0, h).now < Run(r0, h[..k]).now + client.ttl
  }

  /** A holder may trust its locks while its acquire, or some renewal round since, went
      through no longer than a lease ago. */
  ghost predicate MayTrust(r0: Redis, h: seq<Command>, client: Holder) {
    && Holding(r0, h, client)
    && (Run(r0, h).now < Run(r0, h[..client.i]).now + client.ttl
        || exists k, renewals :: client.i <= k && Renewed(r0, h, client, k, renewals))
  }

  /** Trusted locks are owned, key by key, whatever any number of others does. */
  lemma TrustIsOwnership(r0: Redis, h: seq<Command>, client: Holder, id: FileId)
    requires MayTrust(r0, h, client) && id in client.keys
    ensures Run(r0, h).Owns(client.token, id)
  {
    if Run(r0, h).now < Run(r0, h[..client.i]).now + client.ttl {
      HistorySplits(r0, h, client.i);
      TakenIsOwnership(Run(r0, h[..client.i]), client, h[client.i..], id);
    } else {
      var k, renewals :| client.i <= k && Renewed(r0, h, client, k, renewals);
      HistorySplits(r0, h, k);
      RoundIsOwnership(Run(r0, h[..k]), client, renewals, h[k..], id);
    }
  }

  /** Two clients that both may trust their locks hold disjoint ones, whatever any number
      of others does, and whatever expired or was taken again in between. */
  lemma HoldersExcludeEachOther(r0: Redis, h: seq<Command>, a: Holder, b: Holder)
    requires MayTrust(r0, h, a) && MayTrust(r0, h, b) && a.token != b.token
    ensures forall id :: !(id in a.keys && id in b.keys)
  {
    forall id ensures !(id in a.keys && id in b.keys) {
      if id in a.keys && id in b.keys {
        TrustIsOwnership(r0, h, a, id);
        TrustIsOwnership(r0, h, b, id);
      }
    }
  }

  // --------------------------------------------------- two executors at once

  lemma HoldingGoesOn(r0: Redis, h: seq<Command>, client: Holder, more: seq<Command>)
    requires Holding(r0, h, client) && forall id | id in client.keys :: AllPreserve(more, id, client.token, client.ttl)
    ensures Holding(r0, h + more, client)
  {
    assert (h + more)[..client.i] == h[..client.i];
    assert (h + more)[client.i..] == h[client.i..] + more;
    var n := |Taking(Run(r0, h[..client.i]), client.keys, client.token, client.ttl, client.sets, client.releases,
                     0).commands|;
    assert (h[client.i..] + more)[n..] == h[client.i..][n..] + more;
  }

  lemma OneKeyTaking(r: Redis, id: FileId, token: Token, ttl: int, sets: nat -> Answer, releases: nat -> Answer)
    requires Quiet(sets)
    ensures Taking(r, [id], token, ttl, sets, releases, 0)
         == Script([SetNx(id, token, ttl)], if r.Live(id) then Refused else Acquired)
  {
    var c := SetNx(id, token, ttl);
    assert sets(0) == Answer([], Fine);
    assert [id][..0] == [] && [] + [c] == [c] && [c] + [] == [c];
    assert Run(r, []) == r;
  }

  lemma OneKeyIsTaken(r: Redis, b: Holder, id: FileId)
    requires b.keys == [id] && Quiet(b.sets)
    ensures TakenThenKept(r, b, [SetNx(id, b.token, b.ttl)]) <==> !r.Live(id)
  {
    OneKeyTaking(r, id, b.token, b.ttl, b.sets, b.releases);
    assert [SetNx(id, b.token, b.ttl)][1..] == [];
  }

  lemma SecondHoldsExactlyWhen(r0: Redis, h: seq<Command>, b: Holder, id: FileId, pause: nat)
    requires b.i == |h| + 1 && b.keys == [id] && Quiet(b.sets)
    ensures Holding(r0, h + [Tick(pause), SetNx(id, b.token, b.ttl)], b)
       <==> !Apply(Run(r0, h), Tick(pause)).Live(id)
  {
    var later := h + [Tick(pause), SetNx(id, b.token, b.ttl)];
    assert later[..b.i] == h + [Tick(pause)] && later[b.i..] == [SetNx(id, b.token, b.ttl)];
    RunComposes(r0, h, [Tick(pause)]);
    assert [Tick(pause)][1..] == [];
    assert Run(Run(r0, h), [Tick(pause)]) == Apply(Run(r0, h), Tick(pause));
    OneKeyIsTaken(Run(r0, h + [Tick(pause)]), b, id);
  }

  /** Renewal ends without a word when it finds a key lost, and the executor goes on. So at
      most one executor works on a file just as long as leases are renewed in time: beside
      one that owns the key, a second starts after a pause exactly when the pause outlasts
      what is left of the lease. */
  lemma SecondExecutorExactlyWhen(r0: Redis, h: seq<Command>, a: Holder, b: Holder, id: FileId, pause: nat)
    requires Holding(r0, h, a) && id in a.keys && Run(r0, h).Owns(a.token, id) && a.token != b.token
    requires b.i == |h| + 1 && b.keys == [id] && Quiet(b.sets)
    ensures var later := h + [Tick(pause), SetNx(id, b.token, b.ttl)];
            && Holding(r0, later, a)
            && (Holding(r0, later, b) <==> Run(r0, h).entries[id].deadline <= Run(r0, h).now + pause)
  {
    HoldingGoesOn(r0, h, a, [Tick(pause), SetNx(id, b.token, b.ttl)]);
    SecondHoldsExactlyWhen(r0, h, b, id, pause);
  }

  // ------------------------------------------------------ failed acquires

  function Members(ids: seq<FileId>): (s: set<FileId>) {
    set id | id in ids
  }

  predicate OwnsNothingBut(r: Redis, token: Token, ids: set<FileId>) {
    forall id | id in r.entries :: r.Owns(token, id) ==> id in ids
  }

  lemma {:induction false} OthersAddNothing(r: Redis, commands: seq<Command>, token: Token, ids: set<FileId>)
    requires Foreign(commands, token) && OwnsNothingBut(r, token, ids)
    ensures OwnsNothingBut(Run(r, commands), token, ids)
    decreases |commands|
  {
    if commands != [] {
      assert commands[0] in commands;
      OthersAddNothing(Apply(r, commands[0]), commands[1..], token, ids);
    }
  }

  lemma SentRuns(r: Redis, answer: Answer, c: Command)
    ensures Run(r, Sent(answer, c))
            == if answer.fault.RaiseBefore? then Run(r, answer.others) else Apply(Run(r, answer.others), c)
  {
    if answer.fault.RaiseBefore? {
      assert answer.others + [] == answer.others;
    } else {
      RunComposes(r, answer.others, [c]);
      assert Run(Run(r, answer.others), [c]) == Apply(Run(r, answer.others), c);
    }
  }

  /** The keys a release loop leaves alone: those from its first raising call on, less the
      first of them when its command took effect. */
  function Unreleased(keys: seq<FileId>, releases: nat -> Answer, j: nat): (ids: set<FileId>)
    requires j <= |keys|
    decreases |keys| - j
  {
    if j == |keys| then {}
    else
      match releases(j).fault
      case Fine => Unreleased(keys, releases, j + 1)
      case RaiseBefore => Members(keys[j..])
      case RaiseAfter => Members(keys[j + 1..])
  }

  /** What an acquire leaves behind: what its clean-up leaves alone, and a SET that took a
      free key and then raised. */
  function Residue(r: Redis, keys: seq<FileId>, token: Token, ttl: int, sets: nat -> Answer, releases: nat -> Answer,
                   i: nat): (ids: set<FileId>)
    requires i <= |keys|
    decreases |keys| - i
  {
    if i == |keys| then {}
    else
      var c := SetNx(keys[i], token, ttl);
      var taken := Succeeds(Run(r, sets(i).others), c);
      if sets(i).fault.Fine? && taken then
        Residue(Run(r, Sent(sets(i), c)), keys, token, ttl, sets, releases, i + 1)
      else
        Unreleased(keys[..i], releases, 0) + if sets(i).fault.RaiseAfter? && taken then {keys[i]} else {}
  }

  lemma {:induction false} ReleasingClears(r: Redis, keys: seq<FileId>, token: Token,
                                           releases: nat -> Answer, j: nat, ids: set<FileId>)
    requires j <= |keys| && AllForeign(releases, token)
    requires OwnsNothingBut(r, token, ids + Members(keys[j..]))
    ensures OwnsNothingBut(Run(r, Releasing(keys, token, releases, j).commands), token,
                           ids + Unreleased(keys, releases, j))
    decreases |keys| - j
  {
    if j == |keys| {
      assert Members(keys[j..]) == {};
    } else {
      var c := ReleaseIf(keys[j], token);
      var sent := Sent(releases(j), c);
      var after := Run(r, releases(j).others);
      assert Foreign(releases(j).others, token);
      OthersAddNothing(r, releases(j).others, token, ids + Members(keys[j..]));
      SentRuns(r, releases(j), c);
      assert keys[j..] == [keys[j]] + keys[j + 1..];
      assert OwnsNothingBut(Apply(after, c), token, ids + Members(keys[j + 1..]));
      if releases(j).fault.Fine? {
        ReleasingClears(Run(r, sent), keys, token, releases, j + 1, ids);
        RunComposes(r, sent, Releasing(keys, token, releases, j + 1).commands);
      }
    }
  }

  /** Whatever others do and however its own calls go, a failed acquire leaves no token
      behind but those of its residue. */
  lemma {:induction false} FailedAcquireLeavesItsResidue(r: Redis, keys: seq<FileId>, token: Token, ttl: int,
                                                         sets: nat -> Answer, releases: nat -> Answer, i: nat)
    requires i <= |keys| && AllForeign(sets, token) && AllForeign(releases, token)
    requires OwnsNothingBut(r, token, Members(keys[..i]))
    requires !Taking(r, keys, token, ttl, sets, releases, i).outcome.Acquired?
    ensures OwnsNothingBut(Run(r, Taking(r, keys, token, ttl, sets, releases, i).commands), token,
                           Residue(r, keys, token, ttl, sets, releases, i))
    decreases |keys| - i
  {
    var c := SetNx(keys[i], token, ttl);
    var sent := Sent(sets(i), c);
    assert Foreign(sets(i).others, token);
    OthersAddNothing(r, sets(i).others, token, Members(keys[..i]));
    SentRuns(r, sets(i), c);
    if sets(i).fault.Fine? && Succeeds(Run(r, sets(i).others), c) {
      assert keys[..i + 1] == keys[..i] + [keys[i]];
      FailedAcquireLeavesItsResidue(Run(r, sent), keys, token, ttl, sets, releases, i + 1);
      RunComposes(r, sent, Taking(Run(r, sent), keys, token, ttl, sets, releases, i + 1).commands);
    } else {
      var timedOut := if sets(i).fault.RaiseAfter? && Succeeds(Run(r, sets(i).others), c) then {keys[i]} else {};
      assert keys[..i][0..] == keys[..i];
      assert OwnsNothingBut(Run(r, sent), token, timedOut + Members(keys[..i][0..]));
      ReleasingClears(Run(r, sent), keys[..i], token, releases, 0, timedOut);
      RunComposes(r, sent, Releasing(keys[..i], token, releases, 0).commands);
      assert timedOut + Unreleased(keys[..i], releases, 0) == Unreleased(keys[..i], releases, 0) + timedOut;
    }
  }

  // ---------------------------------------- the residue, undisturbed

  ghost predicate Alone(answers: nat -> Answer) {
    forall i: nat :: answers(i).others == []
  }

  ghost predicate OwnsNothing(r: Redis, token: Token) {
    forall id :: !r.Owns(token, id)
  }

  ghost predicate OwnsExactly(r: Redis, token: Token, ids: set<FileId>) {
    forall id :: r.Owns(token, id) <==> id in ids
  }

  lemma ReleaseTakesOut(r: Redis, id: FileId, token: Token, ids: set<FileId>)
    requires OwnsExactly(r, token, ids)
    ensures OwnsExactly(Apply(r, ReleaseIf(id, token)), token, ids - {id})
  {
  }

  lemma AloneSends(r: Redis, answer: Answer, c: Command)
    requires answer.others == []
    ensures Run(r, Sent(answer, c)) == if answer.fault.RaiseBefore? then r else Apply(r, c)
    ensures Run(r, answer.others) == r
  {
    SentRuns(r, answer, c);
  }

  lemma {:induction false} ReleasingLeaves(r: Redis, keys: seq<FileId>, token: Token, releases: nat -> Answer, j: nat,
                                           ids: set<FileId>)
    requires j <= |keys| && Alone(releases) && NoRepeats(keys) && ids !! Members(keys[j..])
    requires OwnsExactly(r, token, ids + Members(keys[j..]))
    ensures OwnsExactly(Run(r, Releasing(keys, token, releases, j).commands), token,
                        ids + Unreleased(keys, releases, j))
    decreases |keys| - j
  {
    if j == |keys| {
      assert Members(keys[j..]) == {};
    } else {
      var c := ReleaseIf(keys[j], token);
      var sent := Sent(releases(j), c);
      AloneSends(r, releases(j), c);
      ReleaseTakesOut(r, keys[j], token, ids + Members(keys[j..]));
      assert keys[j..] == [keys[j]] + keys[j + 1..] && keys[j] !in keys[j + 1..];
      assert ids + Members(keys[j..]) - {keys[j]} == ids + Members(keys[j + 1..]);
      if releases(j).fault.Fine? {
        ReleasingLeaves(Run(r, sent), keys, token, releases, j + 1, ids);
        RunComposes(r, sent, Releasing(keys, token, releases, j + 1).commands);
      }
    }
  }

  /** What release sends, by how the renewal task stands. */
  function ReleaseScript(renewal: Renewal, keys: seq<FileId>, token: Token, releases: nat -> Answer): (s: Script) {
    if renewal.Broken? then Script([], Raised) else Releasing(keys, token, releases, 0)
  }

  /** A holder of different keys gives up every one of them, undisturbed, exactly when no
      exception ended its renewal task and its release calls leave none alone. */
  lemma ReleaseGivesUpAllExactlyWhen(r: Redis, renewal: Renewal, keys: seq<FileId>, token: Token,
                                     releases: nat -> Answer)
    requires Alone(releases) && NoRepeats(keys) && OwnsExactly(r, token, Members(keys)) && keys != []
    ensures var end := Run(r, ReleaseScript(renewal, keys, token, releases).commands);
            OwnsNothing(end, token) <==> !renewal.Broken? && Unreleased(keys, releases, 0) == {}
  {
    var script := ReleaseScript(renewal, keys, token, releases);
    var left := if renewal.Broken? then Members(keys) else Unreleased(keys, releases, 0);
    if renewal.Broken? {
      assert Run(r, script.commands) == r;
      assert keys[0] in Members(keys);
    } else {
      assert keys[0..] == keys && {} + Members(keys[0..]) == Members(keys);
      ReleasingLeaves(r, keys, token, releases, 0, {});
      assert {} + left == left;
    }
    NothingExactly(Run(r, script.commands), token, left);
  }

  lemma SetAdds(r: Redis, id: FileId, token: Token, ttl: int, ids: set<FileId>)
    requires OwnsExactly(r, token, ids) && ttl > 0
    ensures var c := SetNx(id, token, ttl);
            && (Succeeds(r, c) ==> id !in ids)
            && OwnsExactly(Apply(r, c), token, if Succeeds(r, c) then ids + {id} else ids)
  {
  }

  lemma {:induction false} TakingLeaves(r: Redis, keys: seq<FileId>, token: Token, ttl: int, sets: nat -> Answer,
                                        releases: nat -> Answer, i: nat)
    requires i <= |keys| && Alone(sets) && Alone(releases) && ttl > 0
    requires OwnsExactly(r, token, Members(keys[..i])) && NoRepeats(keys[..i])
    requires !Taking(r, keys, token, ttl, sets, releases, i).outcome.Acquired?
    ensures OwnsExactly(Run(r, Taking(r, keys, token, ttl, sets, releases, i).commands), token,
                        Residue(r, keys, token, ttl, sets, releases, i))
    decreases |keys| - i
  {
    var c := SetNx(keys[i], token, ttl);
    var sent := Sent(sets(i), c);
    AloneSends(r, sets(i), c);
    SetAdds(r, keys[i], token, ttl, Members(keys[..i]));
    if sets(i).fault.Fine? && Succeeds(r, c) {
      assert keys[..i + 1] == keys[..i] + [keys[i]];
      assert Members(keys[..i + 1]) == Members(keys[..i]) + {keys[i]};
      TakingLeaves(Run(r, sent), keys, token, ttl, sets, releases, i + 1);
      RunComposes(r, sent, Taking(Run(r, sent), keys, token, ttl, sets, releases, i + 1).commands);
    } else {
      var timedOut := if sets(i).fault.RaiseAfter? && Succeeds(r, c) then {keys[i]} else {};
      assert keys[..i][0..] == keys[..i];
      assert OwnsExactly(Run(r, sent), token, timedOut + Members(keys[..i][0..]));
      ReleasingLeaves(Run(r, sent), keys[..i], token, releases, 0, timedOut);
      RunComposes(r, sent, Releasing(keys[..i], token, releases, 0).commands);
      assert timedOut + Unreleased(keys[..i], releases, 0) == Unreleased(keys[..i], releases, 0) + timedOut;
    }
  }

  lemma NothingExactly(r: Redis, token: Token, ids: set<FileId>)
    requires OwnsExactly(r, token, ids)
    ensures OwnsNothing(r, token) <==> ids == {}
  {
    if ids != {} {
      var id :| id in ids;
      assert r.Owns(token, id);
    }
  }

  /** With no one else on Redis the residue is exact: it is what a failed acquire of a new
      token owns afterwards, so nothing is left just when it is empty. */
  lemma FailedAcquireLeavesNothingExactlyWhen(r: Redis, keys: seq<FileId>, token: Token, ttl: int,
                                              sets: nat -> Answer, releases: nat -> Answer)
    requires Alone(sets) && Alone(releases) && ttl > 0 && OwnsExactly(r, token, {})
    requires !Taking(r, keys, token, ttl, sets, releases, 0).outcome.Acquired?
    ensures var end := Run(r, Taking(r, keys, token, ttl, sets, releases, 0).commands);
            var residue := Residue(r, keys, token, ttl, sets, releases, 0);
            && OwnsExactly(end, token, residue)
            && (OwnsNothing(end, token) <==> residue == {})
  {
    assert Members(keys[..0]) == {};
    TakingLeaves(r, keys, token, ttl, sets, releases, 0);
    NothingExactly(Run(r, Taking(r, keys, token, ttl, sets, releases, 0).commands), token,
                   Residue(r, keys, token, ttl, sets, releases, 0));
  }

  /** The residue is real: a SET that raised after taking effect is not released. */
  lemma TimedOutSetStaysBehind(r: Redis, id: FileId, token: Token, ttl: int, releases: nat -> Answer)
    requires !r.Live(id) && ttl > 0
    ensures var script := Taking(r, [id], token, ttl, _ => Answer([], RaiseAfter), releases, 0);
            script.outcome.Raised? && Run(r, script.commands).Owns(token, id)
  {
    var c := SetNx(id, token, ttl);
    var script := Taking(r, [id], token, ttl, _ => Answer([], RaiseAfter), releases, 0);
    assert [id][..0] == [];
    assert script.commands == [c];
    assert Run(r, [c]) == Apply(r, c);
  }

  // ------------------------------------------------------ how a script ends

  /** The calls from the i-th to the one before the n-th are all answered and all granted. */
  predicate Granted(r: Redis, asked: seq<Command>, answers: nat -> Answer, i: nat, n: nat)
    requires i <= n <= |asked|
    decreases n - i
  {
    i == n
    || (answers(i).fault.Fine? && Succeeds(Run(r, answers(i).others), asked[i])
        && Granted(Run(r, answers(i).others + [asked[i]]), asked, answers, i + 1, n))
  }

  /** The first call that is not granted raises. */
  ghost predicate RaisesFirst(r: Redis, asked: seq<Command>, answers: nat -> Answer, i: nat)
    requires i <= |asked|
  {
    exists k: nat | i <= k < |asked| :: Granted(r, asked, answers, i, k) && !answers(k).fault.Fine?
  }

  lemma RaisesLater(r: Redis, asked: seq<Command>, answers: nat -> Answer, i: nat)
    requires i < |asked| && answers(i).fault.Fine? && Succeeds(Run(r, answers(i).others), asked[i])
    ensures RaisesFirst(r, asked, answers, i)
            <==> RaisesFirst(Run(r, answers(i).others + [asked[i]]), asked, answers, i + 1)
  {
    var next := Run(r, answers(i).others + [asked[i]]);
    forall k: nat | i < k < |asked|
      ensures Granted(r, asked, answers, i, k) == Granted(next, asked, answers, i + 1, k)
    {
    }
    if RaisesFirst(r, asked, answers, i) {
      var k: nat :| i <= k < |asked| && Granted(r, asked, answers, i, k) && !answers(k).fault.Fine?;
      assert Granted(next, asked, answers, i + 1, k);
    }
    if RaisesFirst(next, asked, answers, i + 1) {
      var k: nat :| i + 1 <= k < |asked| && Granted(next, asked, answers, i + 1, k) && !answers(k).fault.Fine?;
      assert Granted(r, asked, answers, i, k);
    }
  }

  function Renewals(keys: seq<FileId>, token: Token, ttl: int): (asked: seq<Command>) {
    seq(|keys|, j requires 0 <= j < |keys| => RenewIf(keys[j], token, ttl))
  }

  /** A round goes through when every key is renewed, raises when its first call that is not
      granted raises, and is refused at a key that is no longer ours. */
  lemma {:induction false} RoundEndsExactlyWhen(r: Redis, keys: seq<FileId>, token: Token, ttl: int,
                                                renewals: nat -> Answer, j: nat)
    requires j <= |keys|
    ensures var asked := Renewals(keys, token, ttl);
            var outcome := Renewing(r, keys, token, ttl, renewals, j).outcome;
            && (outcome.Acquired? <==> Granted(r, asked, renewals, j, |keys|))
            && (outcome.Raised? <==> RaisesFirst(r, asked, renewals, j))
    decreases |keys| - j
  {
    var asked := Renewals(keys, token, ttl);
    if j < |keys| {
      if !renewals(j).fault.Fine? {
        assert Granted(r, asked, renewals, j, j);
      } else if Succeeds(Run(r, renewals(j).others), asked[j]) {
        RoundEndsExactlyWhen(Run(r, renewals(j).others + [asked[j]]), keys, token, ttl, renewals, j + 1);
        RaisesLater(r, asked, renewals, j);
      }
    }
  }

  /** Letting keys go raises when any of its calls would. */
  lemma {:induction false} ReleasingRaisesExactlyWhen(keys: seq<FileId>, token: Token, releases: nat -> Answer, j: nat)
    requires j <= |keys|
    ensures Releasing(keys, token, releases, j).outcome.Raised?
            <==> exists k: nat | j <= k < |keys| :: !releases(k).fault.Fine?
    decreases |keys| - j
  {
    if j < |keys| && releases(j).fault.Fine? {
      ReleasingRaisesExactlyWhen(keys, token, releases, j + 1);
    }
  }

  /** Release raises when an exception ended the renewal task, or when one of its calls does. */
  lemma ReleaseRaisesExactlyWhen(renewal: Renewal, keys: seq<FileId>, token: Token, releases: nat -> Answer)
    ensures ReleaseScript(renewal, keys, token, releases).outcome.Raised?
            <==> renewal.Broken? || exists k: nat | k < |keys| :: !releases(k).fault.Fine?
  {
    ReleasingRaisesExactlyWhen(keys, token, releases, 0);
  }

  function Sets(keys: seq<FileId>, token: Token, ttl: int): (asked: seq<Command>) {
    seq(|keys|, i requires 0 <= i < |keys| => SetNx(keys[i], token, ttl))
  }

  /** Acquire ends at its first key that is not granted: in an exception when that call
      raised, or a call of the clean-up of the keys before it. */
  lemma {:induction false} AcquireEndsExactlyWhen(r: Redis, keys: seq<FileId>, token: Token, ttl: int,
                                                  sets: nat -> Answer, releases: nat -> Answer, i: nat)
    requires i <= |keys|
    ensures var asked := Sets(keys, token, ttl);
            var outcome := Taking(r, keys, token, ttl, sets, releases, i).outcome;
            && (outcome.Acquired? <==> Granted(r, asked, sets, i, |keys|))
            && (outcome.Raised?
                <==> !Granted(r, asked, sets, i, |keys|)
                     && (RaisesFirst(r, asked, sets, i) || CleanUpRaises(r, asked, sets, releases, i)))
    decreases |keys| - i
  {
    var asked := Sets(keys, token, ttl);
    if i < |keys| {
      ReleasingRaisesExactlyWhen(keys[..i], token, releases, 0);
      assert Granted(r, asked, sets, i, i);
      if sets(i).fault.Fine? && Succeeds(Run(r, sets(i).others), asked[i]) {
        AcquireEndsExactlyWhen(Run(r, sets(i).others + [asked[i]]), keys, token, ttl, sets, releases, i + 1);
        RaisesLater(r, asked, sets, i);
        CleanUpRaisesLater(r, asked, sets, releases, i);
      } else {
        FailsAtOnce(r, asked, sets, releases, i);
      }
    }
  }

  /** A call of the clean-up raises, for a key before the first that is not granted. */
  ghost predicate CleanUpRaises(r: Redis, asked: seq<Command>, sets: nat -> Answer, releases: nat -> Answer, i: nat)
    requires i <= |asked|
  {
    exists n: nat, k: nat | k < n < |asked| && i <= n ::
      FailsFirst(r, asked, sets, i, n) && !releases(k).fault.Fine?
  }

  /** The n-th call is the first that is not granted. */
  predicate FailsFirst(r: Redis, asked: seq<Command>, answers: nat -> Answer, i: nat, n: nat)
    requires i <= n < |asked|
  {
    Granted(r, asked, answers, i, n) && !Granted(r, asked, answers, i, n + 1)
  }

  lemma FailsAtOnce(r: Redis, asked: seq<Command>, sets: nat -> Answer, releases: nat -> Answer, i: nat)
    requires i < |asked| && !(sets(i).fault.Fine? && Succeeds(Run(r, sets(i).others), asked[i]))
    ensures !Granted(r, asked, sets, i, |asked|)
    ensures RaisesFirst(r, asked, sets, i) <==> !sets(i).fault.Fine?
    ensures CleanUpRaises(r, asked, sets, releases, i) <==> exists k: nat | k < i :: !releases(k).fault.Fine?
  {
    assert Granted(r, asked, sets, i, i) && FailsFirst(r, asked, sets, i, i);
    assert forall n: nat | i < n <= |asked| :: !Granted(r, asked, sets, i, n);
    if k: nat :| k < i && !releases(k).fault.Fine? {
      assert CleanUpRaises(r, asked, sets, releases, i);
    }
  }

  lemma CleanUpRaisesLater(r: Redis, asked: seq<Command>, sets: nat -> Answer, releases: nat -> Answer, i: nat)
    requires i < |asked| && sets(i).fault.Fine? && Succeeds(Run(r, sets(i).others), asked[i])
    ensures CleanUpRaises(r, asked, sets, releases, i)
            <==> CleanUpRaises(Run(r, sets(i).others + [asked[i]]), asked, sets, releases, i + 1)
  {
    var next := Run(r, sets(i).others + [asked[i]]);
    assert Granted(next, asked, sets, i + 1, i + 1);
    forall n: nat | i < n < |asked|
      ensures FailsFirst(r, asked, sets, i, n) == FailsFirst(next, asked, sets, i + 1, n)
    {
    }
    if CleanUpRaises(r, asked, sets, releases, i) {
      var n: nat, k: nat :| k < n < |asked| && i <= n
        && FailsFirst(r, asked, sets, i, n) && !releases(k).fault.Fine?;
      assert FailsFirst(next, asked, sets, i + 1, n);
    }
    if CleanUpRaises(next, asked, sets, releases, i + 1) {
      var n: nat, k: nat :| k < n < |asked| && i + 1 <= n
        && FailsFirst(next, asked, sets, i + 1, n) && !releases(k).fault.Fine?;
      assert FailsFirst(r, asked, sets, i, n);
    }
  }

  // ------------------------------------------- acquiring undisturbed

  predicate NoRepeats(ids: seq<FileId>) {
    forall i, j :: 0 <= i < j < |ids| ==> ids[i] != ids[j]
  }

  ghost predicate Quiet(answers: nat -> Answer) {
    forall i: nat :: answers(i) == Answer([], Fine)
  }

  lemma {:induction false} QuietTaking(r: Redis, keys: seq<FileId>, token: Token, ttl: int,
                                       sets: nat -> Answer, releases: nat -> Answer, i: nat)
    requires i <= |keys| && Quiet(sets) && Quiet(releases) && ttl > 0
    ensures Taking(r, keys, token, ttl, sets, releases, i).outcome.Acquired?
            <==> NoRepeats(keys[i..]) && forall id | id in keys[i..] :: !r.Live(id)
    decreases |keys| - i
  {
    if i < |keys| {
      var c := SetNx(keys[i], token, ttl);
      assert sets(i).others == [];
      SentRuns(r, sets(i), c);
      assert Run(r, sets(i).others) == r;
      assert keys[i..] == [keys[i]] + keys[i + 1..];
      if Succeeds(r, c) {
        QuietTaking(Apply(r, c), keys, token, ttl, sets, releases, i + 1);
        assert forall id :: Apply(r, c).Live(id) <==> r.Live(id) || id == keys[i];
        assert NoRepeats(keys[i..]) <==> NoRepeats(keys[i + 1..]) && keys[i] !in keys[i + 1..];
      } else {
        assert keys[i] in keys[i..];
      }
    }
  }

  lemma RepeatsSurviveSorting(ids: seq<FileId>)
    ensures NoRepeats(SortIds(ids)) <==> NoRepeats(ids)
  {
    CountsDecideRepeats(ids);
    CountsDecideRepeats(SortIds(ids));
  }

  lemma {:induction false} CountsDecideRepeats(ids: seq<FileId>)
    ensures NoRepeats(ids) <==> forall x | x in ids :: multiset(ids)[x] == 1
  {
    if ids != [] {
      var tail := ids[1..];
      CountsDecideRepeats(tail);
      assert ids == [ids[0]] + tail;
      assert NoRepeats(ids) <==> NoRepeats(tail) && ids[0] !in tail;
      assert forall x :: multiset(ids)[x] == multiset(tail)[x] + (if x == ids[0] then 1 else 0);
      assert ids[0] !in tail <==> multiset(ids)[ids[0]] == 1;
      assert forall x :: x in ids <==> x == ids[0] || x in tail;
    }
  }

  /** On a Redis nobody else is using, acquire succeeds exactly when the ids are pairwise
      different and all free; a repeated id makes it refuse itself. */
  lemma QuietAcquireSucceedsExactlyWhen(r: Redis, fileIds: seq<FileId>, token: Token, ttl: int,
                                        sets: nat -> Answer, releases: nat -> Answer)
    requires Quiet(sets) && Quiet(releases) && ttl > 0
    ensures Taking(r, SortIds(fileIds), token, ttl, sets, releases, 0).outcome.Acquired?
            <==> NoRepeats(fileIds) && forall id | id in fileIds :: !r.Live(id)
  {
    var keys := SortIds(fileIds);
    QuietTaking(r, keys, token, ttl, sets, releases, 0);
    assert keys[0..] == keys;
    RepeatsSurviveSorting(fileIds);
    forall id ensures id in keys <==> id in fileIds {
      assert id in keys <==> id in multiset(keys);
    }
  }

  // --------------------------------------------------------------- renewal

  lemma {:induction false} RenewingPreserves(r: Redis, keys: seq<FileId>, token: Token, ttl: int,
                                             renewals: nat -> Answer, j: nat, id: FileId)
    requires j <= |keys| && AllForeign(renewals, token)
    ensures AllPreserve(Renewing(r, keys, token, ttl, renewals, j).commands, id, token, ttl)
    decreases |keys| - j
  {
    if j < |keys| {
      assert Foreign(renewals(j).others, token);
      RenewingPreserves(Run(r, Sent(renewals(j), RenewIf(keys[j], token, ttl))), keys, token, ttl, renewals, j + 1, id);
    }
  }

  /** A completed round finds every key still owned, for a full lease from its start. */
  lemma {:induction false} RenewalExtendsAll(r: Redis, keys: seq<FileId>, token: Token, ttl: int,
                                             renewals: nat -> Answer, j: nat, id: FileId)
    requires j <= |keys| && AllForeign(renewals, token) && id in keys[j..]
    requires Renewing(r, keys, token, ttl, renewals, j).outcome.Acquired?
    requires Run(r, Renewing(r, keys, token, ttl, renewals, j).commands).now < r.now + ttl
    ensures var end := Run(r, Renewing(r, keys, token, ttl, renewals, j).commands);
            end.Owns(token, id) && r.now + ttl <= end.entries[id].deadline
    decreases |keys| - j
  {
    var c := RenewIf(keys[j], token, ttl);
    var sent := Sent(renewals(j), c);
    var renewed := Run(r, sent);
    var rest := Renewing(renewed, keys, token, ttl, renewals, j + 1).commands;
    SentRuns(r, renewals(j), c);
    RunComposes(r, sent, rest);
    assert keys[j..] == [keys[j]] + keys[j + 1..];
    if id == keys[j] {
      RenewingPreserves(renewed, keys, token, ttl, renewals, j + 1, id);
      OwnershipLasts(renewed, rest, id, token, ttl, r.now + ttl);
    } else {
      assert Run(renewed, rest).now < renewed.now + ttl;
      RenewalExtendsAll(renewed, keys, token, ttl, renewals, j + 1, id);
    }
  }
}
