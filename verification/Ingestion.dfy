/** The ingestion state machine and the length of its runs. */
module Ingestion {
  import opened Wrappers

  datatype Status =
    | Initiated
    | Uploading
    | VerificationPending
    | Verified
    | Committed
    | Available
    | Failed
    | Expired
    | ReconciliationRequired

  /** VALID_TRANSITIONS. */
  function Allowed(from: Status): (targets: set<Status>) {
    match from
    case Initiated => {Uploading, Verified, Failed, ReconciliationRequired, Expired}
    case Uploading => {VerificationPending, Failed, Expired}
    case VerificationPending => {Verified, Failed, Expired}
    case Verified => {Committed, Failed, ReconciliationRequired}
    case Committed => {Available, ReconciliationRequired}
    case Available => {}
    case Failed => {ReconciliationRequired}
    case Expired => {}
    case ReconciliationRequired => {Verified, Committed, Failed}
  }

  /** A record; what its transitions never touch is one field. */
  datatype Record = Record(status: Status, committedAt: Option<int>, rest: string)
  datatype Invalid = Invalid(from: Status, target: Status)

  function Transition(r: Record, target: Status, now: int): (after: Result<Record, Invalid>) {
    if target !in Allowed(r.status) then Err(Invalid(r.status, target))
    else if target.Committed? then Ok(r.(status := target, committedAt := Some(now)))
    else Ok(r.(status := target))
  }

  /** What each status can be reached from. */
  lemma ReachedFromExactlyWhen(from: Status, target: Status)
    ensures target in Allowed(from)
       <==> match target
            case Initiated => false
            case Uploading => from == Initiated
            case VerificationPending => from == Uploading
            case Verified => from in {Initiated, VerificationPending, ReconciliationRequired}
            case Committed => from in {Verified, ReconciliationRequired}
            case Available => from == Committed
            case Failed => from in {Initiated, Uploading, VerificationPending, Verified, ReconciliationRequired}
            case Expired => from in {Initiated, Uploading, VerificationPending}
            case ReconciliationRequired => from in {Initiated, Verified, Committed, Failed}
  {
  }

  datatype Step = Step(target: Status, at: int)

  /** The record after a run of transitions; the first refused one ends it. */
  function Play(r: Record, run: seq<Step>): (after: Result<Record, Invalid>)
    decreases |run|
  {
    if run == [] then Ok(r)
    else
      var next := Transition(r, run[0].target, run[0].at);
      if next.Err? then next else Play(next.value, run[1..])
  }

  function Visits(run: seq<Step>, s: Status): (n: nat) {
    if run == [] then 0 else (if run[0].target == s then 1 else 0) + Visits(run[1..], s)
  }

  /** How many transitions are left at most before the next reconciliation. */
  function Rank(s: Status): (n: nat) {
    match s
    case Initiated => 5
    case Uploading => 4
    case VerificationPending => 3
    case Verified => 2
    case Committed => 1
    case Available => 0
    case Failed => 1
    case Expired => 0
    case ReconciliationRequired => 3
  }

  lemma {:induction false} RunSpendsRank(r: Record, run: seq<Step>)
    requires Play(r, run).Ok?
    ensures |run| + Rank(Play(r, run).value.status) <= Rank(r.status) + 3 * Visits(run, ReconciliationRequired)
    decreases |run|
  {
    if run != [] {
      RunSpendsRank(Transition(r, run[0].target, run[0].at).value, run[1..]);
    }
  }

  /** A run from the start with k reconciliations has at most 5 + 3k transitions. */
  lemma RunsAreBounded(r: Record, run: seq<Step>)
    requires r.status.Initiated? && Play(r, run).Ok?
    ensures |run| <= 5 + 3 * Visits(run, ReconciliationRequired)
  {
    RunSpendsRank(r, run);
  }

  /** Verified, committed, reconciled, k times over, and then available. */
  function Rounds(k: nat): (run: seq<Step>) {
    if k == 0 then [Step(Verified, 0), Step(Committed, 0), Step(Available, 0)]
    else [Step(Verified, 0), Step(Committed, 0), Step(ReconciliationRequired, 0)] + Rounds(k - 1)
  }

  lemma PlayOne(r: Record, a: Step, rest: seq<Step>)
    requires a.target in Allowed(r.status)
    ensures Play(r, [a] + rest) == Play(Transition(r, a.target, a.at).value, rest)
    ensures Visits([a] + rest, ReconciliationRequired)
         == (if a.target.ReconciliationRequired? then 1 else 0) + Visits(rest, ReconciliationRequired)
  {
    assert ([a] + rest)[1..] == rest;
  }

  lemma PlayTwo(r: Record, a: Step, b: Step, rest: seq<Step>) returns (after: Record)
    requires a.target in Allowed(r.status) && b.target in Allowed(a.target)
    ensures after.status == b.target && Play(r, [a, b] + rest) == Play(after, rest)
    ensures Visits([a, b] + rest, ReconciliationRequired)
         == (if a.target.ReconciliationRequired? then 1 else 0) + (if b.target.ReconciliationRequired? then 1 else 0)
            + Visits(rest, ReconciliationRequired)
  {
    var next := Transition(r, a.target, a.at).value;
    after := Transition(next, b.target, b.at).value;
    assert [a, b] + rest == [a] + ([b] + rest);
    PlayOne(r, a, [b] + rest);
    PlayOne(next, b, rest);
  }

  /** One round: verified, committed and then the last step. */
  lemma PlayRound(r: Record, last: Step, rest: seq<Step>) returns (after: Record)
    requires Verified in Allowed(r.status) && last.target in Allowed(Committed)
    ensures after.status == last.target
    ensures Play(r, [Step(Verified, 0), Step(Committed, 0), last] + rest) == Play(after, rest)
    ensures Visits([Step(Verified, 0), Step(Committed, 0), last] + rest, ReconciliationRequired)
         == (if last.target.ReconciliationRequired? then 1 else 0) + Visits(rest, ReconciliationRequired)
  {
    var both := [Step(Verified, 0), Step(Committed, 0)];
    assert [Step(Verified, 0), Step(Committed, 0), last] + rest == both + ([last] + rest);
    var middle := PlayTwo(r, Step(Verified, 0), Step(Committed, 0), [last] + rest);
    after := Transition(middle, last.target, last.at).value;
    PlayOne(middle, last, rest);
  }

  lemma {:induction false} RoundsHold(r: Record, k: nat)
    requires Verified in Allowed(r.status)
    ensures Play(r, Rounds(k)).Ok? && |Rounds(k)| == 3 * k + 3 && Visits(Rounds(k), ReconciliationRequired) == k
    decreases k
  {
    if k == 0 {
      var after := PlayRound(r, Step(Available, 0), []);
      assert [Step(Verified, 0), Step(Committed, 0), Step(Available, 0)] + [] == Rounds(0);
    } else {
      var after := PlayRound(r, Step(ReconciliationRequired, 0), Rounds(k - 1));
      RoundsHold(after, k - 1);
    }
  }

  /** The bound is exact: for every k some run reaches it. */
  lemma BoundIsReached(r: Record, k: nat) returns (run: seq<Step>)
    requires r.status.Initiated?
    ensures Play(r, run).Ok? && Visits(run, ReconciliationRequired) == k && |run| == 5 + 3 * k
  {
    run := [Step(Uploading, 0), Step(VerificationPending, 0)] + Rounds(k);
    var uploaded := PlayTwo(r, Step(Uploading, 0), Step(VerificationPending, 0), Rounds(k));
    RoundsHold(uploaded, k);
  }

  lemma {:induction false} CommitLeavesItsMark(r: Record, run: seq<Step>)
    requires Play(r, run).Ok?
    ensures var after := Play(r, run).value;
            && (after.committedAt.Some? <==> r.committedAt.Some? || Visits(run, Committed) > 0)
            && after.rest == r.rest
            && (after.status.Committed? || after.status.Available? ==>
                  Visits(run, Committed) > 0 || r.status.Committed? || r.status.Available?)
    decreases |run|
  {
    if run != [] {
      CommitLeavesItsMark(Transition(r, run[0].target, run[0].at).value, run[1..]);
    }
  }

  lemma {:induction false} UncommittedKeepsInstant(r: Record, run: seq<Step>)
    requires Play(r, run).Ok? && forall step | step in run :: step.target != Committed
    ensures Play(r, run).value.committedAt == r.committedAt
    decreases |run|
  {
    if run != [] {
      assert run[0] in run;
      UncommittedKeepsInstant(Transition(r, run[0].target, run[0].at).value, run[1..]);
    }
  }

  /** It is the instant of the last commit. */
  lemma {:induction false} LastCommitIsKept(r: Record, run: seq<Step>, k: nat)
    requires Play(r, run).Ok? && k < |run| && run[k].target == Committed
    requires forall step | step in run[k + 1..] :: step.target != Committed
    ensures Play(r, run).value.committedAt == Some(run[k].at)
    decreases |run|
  {
    var next := Transition(r, run[0].target, run[0].at).value;
    if k == 0 {
      UncommittedKeepsInstant(next, run[1..]);
    } else {
      assert run[1..][k..] == run[k + 1..];
      LastCommitIsKept(next, run[1..], k - 1);
    }
  }

  /** A run goes through exactly when every transition is allowed from where the one before
      it led, and otherwise names the first that is not. */
  lemma {:induction false} RefusedAtTheFirstNotAllowed(r: Record, run: seq<Step>, k: nat)
    requires k < |run| && Play(r, run[..k]).Ok?
    ensures var at := Play(r, run[..k]).value;
            && at.status == (if k == 0 then r.status else run[k - 1].target)
            && (run[k].target !in Allowed(at.status) ==> Play(r, run) == Err(Invalid(at.status, run[k].target)))
            && (run[k].target in Allowed(at.status) ==> Play(r, run[..k + 1]).Ok?)
    decreases |run|
  {
    if k > 0 {
      assert run[..k][1..] == run[1..][..k - 1] && run[..k + 1][1..] == run[1..][..k];
      RefusedAtTheFirstNotAllowed(Transition(r, run[0].target, run[0].at).value, run[1..], k - 1);
    } else {
      assert run[..1][1..] == [];
    }
  }

  /** committedAt is set exactly when the record was committed on its way, so a committed
      or available record always carries it; nothing else of the record changes. */
  lemma CommittedAtExactlyWhen(r: Record, run: seq<Step>)
    requires r.status.Initiated? && r.committedAt.None? && Play(r, run).Ok?
    ensures var after := Play(r, run).value;
            && (after.committedAt.Some? <==> Visits(run, Committed) > 0)
            && (after.status.Committed? || after.status.Available? ==> after.committedAt.Some?)
            && after.rest == r.rest
  {
    CommitLeavesItsMark(r, run);
  }
}
