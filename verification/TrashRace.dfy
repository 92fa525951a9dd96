/** Several passes of reconcile_pending_deletions over one deletion: each works from the
    record it listed, and any of them may be overtaken, fail or die between two calls. */
module TrashRace {
  import opened Wrappers
  import opened ObjectStore
  import T = TrashReconciliation

  type Pid = nat

  /** How far one pass has come with the record. */
  datatype Stage =
    | Listed
    | SawSource(source: Option<Blob>)
    | MustCopy(source: Option<Blob>)
    | Copied(source: Option<Blob>)
    | MustDelete
    | MustFinalize
    | MustReject(maxAttempts: int)
    | MustRecordFailure
    | Reported(finalized: bool)  // the id is in its result; whether its own commit did it
    | GaveUp

  datatype World = World(objects: Objects, row: T.Row, passes: map<Pid, Stage>)

  datatype Event =
    | List(pid: Pid)
    | Reject(pid: Pid, maxAttempts: int)  // authorization or space no longer fit
    | Raise(pid: Pid)                     // or could not be asked
    | Advance(pid: Pid, fault: Fault, stamp: Stamp)
    | Die(pid: Pid)
    | Upload(blob: Blob)                  // a new file at the key that finalizing freed

  /** maxAttempts is that of the service; lone says that passes run one at a time. */
  datatype Setting = Setting(maxAttempts: int, lone: bool)

  predicate Finished(s: Stage) {
    s.Reported? || s.GaveUp?
  }

  /** Whether source and trash let the migration go on, and where. */
  function Judged(source: Option<Blob>, trash: Option<Blob>): (s: Stage) {
    if T.Unverified(source, trash) then MustRecordFailure
    else if source.Some? then MustDelete
    else MustFinalize
  }

  function At1(w: World, pid: Pid, s: Stage): (after: World) {
    w.(passes := w.passes[pid := s])
  }

  /** A call that raised goes to the except clause; one the process died in ends the pass. */
  function Interrupted(w: World, pid: Pid, fault: Fault): (after: World) {
    if fault.RaiseBefore? || fault.RaiseAfter? then At1(w, pid, MustRecordFailure)
    else w.(passes := w.passes - {pid})
  }

  function Advanced(plan: T.Plan, setting: Setting, w: World, pid: Pid, fault: Fault, stamp: Stamp): (after: World)
    requires pid in w.passes
  {
    match w.passes[pid]
    case Listed =>
      if fault.Fine? then At1(w, pid, SawSource(At(w.objects, plan.source))) else Interrupted(w, pid, fault)
    case SawSource(source) =>
      var trash := At(w.objects, plan.trash);
      if !fault.Fine? then Interrupted(w, pid, fault)
      else if trash.Some? then At1(w, pid, Judged(source, trash))
      else if source.Some? then At1(w, pid, MustCopy(source))
      else At1(w, pid, MustRecordFailure)
    case MustCopy(source) =>
      var (copied, reply) := AfterCopy(w.objects, plan.source, plan.trash, stamp, fault);
      var after := w.(objects := copied);
      if reply.Returned? then At1(after, pid, Copied(source))
      else if reply.Raised? then At1(after, pid, MustRecordFailure)
      else after.(passes := w.passes - {pid})
    case Copied(source) =>
      if !fault.Fine? then Interrupted(w, pid, fault)
      else At1(w, pid, Judged(source, At(w.objects, plan.trash)))
    case MustDelete =>
      var deleted := w.(objects := AfterDelete(w.objects, plan.source, fault).0);
      if fault.Fine? then At1(deleted, pid, MustFinalize) else Interrupted(deleted, pid, fault)
    case MustFinalize =>
      var committed := if fault.TakesEffect() then w.(row := T.FinalizedRow(w.row)) else w;
      if fault.Fine? then At1(committed, pid, Reported(T.Qualifies(w.row)))
      else Interrupted(committed, pid, fault)
    case MustReject(maxAttempts) =>
      var committed := if fault.TakesEffect() then w.(row := T.FailedRow(w.row, maxAttempts)) else w;
      if fault.Fine? then At1(committed, pid, GaveUp) else Interrupted(committed, pid, fault)
    case MustRecordFailure =>
      var committed := if fault.TakesEffect() then w.(row := T.FailedRow(w.row, setting.maxAttempts)) else w;
      if fault.CrashBefore? || fault.CrashAfter? then committed.(passes := w.passes - {pid})
      else At1(committed, pid, GaveUp)
    case _ => w
  }

  predicate Quiet(w: World) {
    forall p | p in w.passes :: Finished(w.passes[p])
  }

  /** Nothing where the event cannot happen. */
  function Next(plan: T.Plan, setting: Setting, w: World, e: Event): (after: Option<World>) {
    match e
    case List(pid) =>
      if pid in w.passes || !w.row.status.Deleting? || (setting.lone && !Quiet(w)) then None
      else Some(At1(w, pid, Listed))
    case Reject(pid, maxAttempts) =>
      if pid !in w.passes || !w.passes[pid].Listed? then None
      else Some(At1(w, pid, MustReject(maxAttempts)))
    case Raise(pid) =>
      if pid !in w.passes || !w.passes[pid].Listed? then None
      else Some(At1(w, pid, MustRecordFailure))
    case Advance(pid, fault, stamp) =>
      if pid !in w.passes || Finished(w.passes[pid]) then None
      else Some(Advanced(plan, setting, w, pid, fault, stamp))
    case Die(pid) => if pid !in w.passes then None else Some(w.(passes := w.passes - {pid}))
    case Upload(blob) =>
      if !w.row.status.Deleted? then None else Some(w.(objects := w.objects[plan.source := blob]))
  }

  function Play(plan: T.Plan, setting: Setting, w: World, run: seq<Event>): (end: Option<World>)
    decreases |run|
  {
    if run == [] then Some(w)
    else
      var next := Next(plan, setting, w, run[0]);
      if next.None? then None else Play(plan, setting, next.value, run[1..])
  }

  predicate NoUploads(run: seq<Event>) {
    forall e | e in run :: !e.Upload?
  }

  // ------------------------------------------------------ what a race keeps

  /** What a pass has learned stays true whatever the others do. */
  predicate Holds(plan: T.Plan, w: World, s: Stage) {
    match s
    case SawSource(source) => SourceFits(plan, w, source)
    case MustCopy(source) => source.Some? && SourceFits(plan, w, source)
    case Copied(source) => source.Some? && SourceFits(plan, w, source) && plan.trash in w.objects
    case MustDelete => plan.trash in w.objects
    case MustFinalize => T.InTrash(w.objects, plan)
    case Reported(finalized) => T.InTrash(w.objects, plan) && (finalized ==> w.row.status.Deleted?)
    case _ => true
  }

  predicate SourceFits(plan: T.Plan, w: World, source: Option<Blob>) {
    if source.None? then plan.source !in w.objects else source.value.body == plan.body
  }

  predicate Invariant(plan: T.Plan, w: World) {
    && plan.source != plan.trash && T.Contents(w.objects, plan)
    && w.row.trashKey == Some(plan.trash) && T.Lawful(w.row) && !w.row.status.Available?
    && (w.row.status.Deleted? ==> T.InTrash(w.objects, plan))
    && (forall p | p in w.passes :: Holds(plan, w, w.passes[p]))
    && (forall p, q | p in w.passes && q in w.passes && p != q ::
          !(w.passes[p] == Reported(true) && w.passes[q] == Reported(true)))
  }

  lemma OthersHold(plan: T.Plan, w: World, next: World, s: Stage)
    requires Holds(plan, w, s) && (w.row.status.Deleted? ==> next.row.status.Deleted?)
    requires plan.trash in w.objects ==> plan.trash in next.objects
    requires plan.source in next.objects ==> plan.source in w.objects
    ensures Holds(plan, next, s)
  {
  }

  lemma AdvanceCarries(plan: T.Plan, setting: Setting, w: World, pid: Pid, fault: Fault, stamp: Stamp)
    requires Invariant(plan, w) && pid in w.passes
    ensures var next := Advanced(plan, setting, w, pid, fault, stamp);
            && T.Contents(next.objects, plan)
            && next.row.trashKey == Some(plan.trash) && T.Lawful(next.row) && !next.row.status.Available?
            && (next.row.status.Deleted? ==> T.InTrash(next.objects, plan))
            && (w.row.status.Deleted? ==> next.row.status.Deleted?)
            && (plan.trash in w.objects ==> plan.trash in next.objects)
            && (plan.source in next.objects ==> plan.source in w.objects)
  {
    assert Holds(plan, w, w.passes[pid]);
  }

  lemma AdvanceKeepsItsOwn(plan: T.Plan, setting: Setting, w: World, pid: Pid, fault: Fault, stamp: Stamp)
    requires Invariant(plan, w) && pid in w.passes
    ensures var next := Advanced(plan, setting, w, pid, fault, stamp);
            && (pid in next.passes ==> Holds(plan, next, next.passes[pid]))
            && (forall q | q in w.passes && q != pid :: q in next.passes && next.passes[q] == w.passes[q])
            && (forall q | q in next.passes :: q in w.passes)
            && (pid in next.passes && next.passes[pid] == Reported(true) ==>
                  w.passes[pid] == Reported(true) || w.row.status.Deleting?)
  {
    assert Holds(plan, w, w.passes[pid]);
  }

  lemma AdvanceKeepsInvariant(plan: T.Plan, setting: Setting, w: World, pid: Pid, fault: Fault, stamp: Stamp)
    requires Invariant(plan, w) && pid in w.passes
    ensures Invariant(plan, Advanced(plan, setting, w, pid, fault, stamp))
  {
    var next := Advanced(plan, setting, w, pid, fault, stamp);
    AdvanceCarries(plan, setting, w, pid, fault, stamp);
    AdvanceKeepsItsOwn(plan, setting, w, pid, fault, stamp);
    forall q | q in next.passes
      ensures Holds(plan, next, next.passes[q])
    {
      if q != pid {
        OthersHold(plan, w, next, w.passes[q]);
      }
    }
    forall q | q in w.passes && q != pid && w.passes[q] == Reported(true)
      ensures w.row.status.Deleted?
    {
      assert Holds(plan, w, w.passes[q]);
    }
  }

  lemma StepKeepsInvariant(plan: T.Plan, setting: Setting, w: World, e: Event)
    requires Invariant(plan, w) && Next(plan, setting, w, e).Some? && !e.Upload?
    ensures Invariant(plan, Next(plan, setting, w, e).value)
  {
    if e.Advance? {
      AdvanceKeepsInvariant(plan, setting, w, e.pid, e.fault, e.stamp);
    } else {
      var next := Next(plan, setting, w, e).value;
      forall q | q in next.passes
        ensures Holds(plan, next, next.passes[q])
      {
        if q in w.passes && next.passes[q] == w.passes[q] {
          OthersHold(plan, w, next, w.passes[q]);
        }
      }
    }
  }

  lemma {:induction false} RunKeepsInvariant(plan: T.Plan, setting: Setting, w: World, run: seq<Event>)
    requires Invariant(plan, w) && Play(plan, setting, w, run).Some? && NoUploads(run)
    ensures Invariant(plan, Play(plan, setting, w, run).value)
    decreases |run|
  {
    if run != [] {
      assert run[0] in run;
      StepKeepsInvariant(plan, setting, w, run[0]);
      RunKeepsInvariant(plan, setting, Next(plan, setting, w, run[0]).value, run[1..]);
    }
  }

  /** A deletion as soft_delete leaves it, or as earlier passes do. */
  predicate Pending(plan: T.Plan, w: World) {
    && plan.source != plan.trash && T.Contents(w.objects, plan) && w.passes == map[]
    && w.row.status.Deleting? && w.row.trashKey == Some(plan.trash) && T.Lawful(w.row)
  }

  /** However many passes race over a deletion, interrupted anywhere, while nobody else writes
      its two keys, the bytes stay in source or trash; whoever returns the id has them in the
      trash and not in the source; and at most one of them finalized the row. */
  lemma RaceKeepsTheFile(plan: T.Plan, setting: Setting, w: World, run: seq<Event>)
    requires Pending(plan, w) && Play(plan, setting, w, run).Some? && NoUploads(run)
    ensures var end := Play(plan, setting, w, run).value;
            && T.Contents(end.objects, plan)
            && (end.row.status.Deleted? ==> T.InTrash(end.objects, plan))
            && (forall p | p in end.passes && end.passes[p].Reported? :: T.InTrash(end.objects, plan))
            && (forall p, q | p in end.passes && q in end.passes && p != q ::
                  !(end.passes[p] == Reported(true) && end.passes[q] == Reported(true)))
  {
    RunKeepsInvariant(plan, setting, w, run);
    var end := Play(plan, setting, w, run).value;
    forall p | p in end.passes && end.passes[p].Reported?
      ensures T.InTrash(end.objects, plan)
    {
      assert Holds(plan, end, end.passes[p]);
    }
  }

  // ------------------------------------------------ who finalized what it returns

  /** Every pass that returns the id finalized the row itself. */
  predicate Truthful(w: World) {
    forall p | p in w.passes :: w.passes[p].Reported? ==> w.passes[p].finalized
  }

  /** One pass at a time: until it fails, the row it listed is still being deleted. */
  predicate Lone(w: World) {
    && Truthful(w)
    && (forall p, q | p in w.passes && q in w.passes && p != q :: Finished(w.passes[p]) || Finished(w.passes[q]))
    && (forall p | p in w.passes && !Finished(w.passes[p]) && !w.passes[p].MustRecordFailure? :: T.Qualifies(w.row))
  }

  lemma AdvanceStaysLone(plan: T.Plan, setting: Setting, w: World, pid: Pid, fault: Fault, stamp: Stamp)
    requires Lone(w) && pid in w.passes && !Finished(w.passes[pid])
    ensures Lone(Advanced(plan, setting, w, pid, fault, stamp))
  {
    var next := Advanced(plan, setting, w, pid, fault, stamp);
    assert forall q | q in next.passes && q != pid :: q in w.passes && next.passes[q] == w.passes[q];
    assert forall q | q in w.passes && q != pid :: Finished(w.passes[q]);
  }

  lemma StepStaysLone(plan: T.Plan, setting: Setting, w: World, e: Event)
    requires setting.lone && Lone(w) && Invariant(plan, w) && Next(plan, setting, w, e).Some? && !e.Upload?
    ensures Lone(Next(plan, setting, w, e).value)
  {
    if e.Advance? {
      AdvanceStaysLone(plan, setting, w, e.pid, e.fault, e.stamp);
    }
  }

  lemma {:induction false} RunStaysLone(plan: T.Plan, setting: Setting, w: World, run: seq<Event>)
    requires setting.lone && Lone(w) && Invariant(plan, w) && Play(plan, setting, w, run).Some? && NoUploads(run)
    ensures Lone(Play(plan, setting, w, run).value)
    decreases |run|
  {
    if run != [] {
      assert run[0] in run;
      StepStaysLone(plan, setting, w, run[0]);
      StepKeepsInvariant(plan, setting, w, run[0]);
      RunStaysLone(plan, setting, Next(plan, setting, w, run[0]).value, run[1..]);
    }
  }

  lemma {:induction false} PlayComposes(plan: T.Plan, setting: Setting, w: World, a: seq<Event>, b: seq<Event>)
    requires Play(plan, setting, w, a).Some?
    ensures Play(plan, setting, w, a + b) == Play(plan, setting, Play(plan, setting, w, a).value, b)
    decreases |a|
  {
    if a == [] {
      assert a + b == b;
    } else {
      PlayComposes(plan, setting, Next(plan, setting, w, a[0]).value, a[1..], b);
      assert (a + b)[1..] == a[1..] + b;
    }
  }

  lemma PlayOne(plan: T.Plan, setting: Setting, w: World, e: Event)
    ensures Play(plan, setting, w, [e]) == Next(plan, setting, w, e)
  {
    assert [e][1..] == [];
  }

  function Rank(s: Stage): (n: nat) {
    match s
    case Listed => 5
    case SawSource(_) => 4
    case MustCopy(_) => 3
    case Copied(_) => 2
    case MustDelete => 1
    case _ => 0
  }

  /** On its way to finalizing, with nothing stale: what it saw of the source still stands. */
  predicate OnTheWay(plan: T.Plan, w: World, s: Stage) {
    match s
    case Listed => true
    case SawSource(source) => source.Some? ==> plan.source in w.objects
    case MustCopy(source) => plan.source in w.objects
    case Copied(_) => true
    case MustDelete => true
    case MustFinalize => true
    case _ => false
  }

  const PLAIN: Stamp := Stamp(None, None)

  lemma SoloStepsOn(plan: T.Plan, setting: Setting, w: World, pid: Pid)
    requires Invariant(plan, w) && pid in w.passes && OnTheWay(plan, w, w.passes[pid]) && !w.passes[pid].MustFinalize?
    ensures var next := Advanced(plan, setting, w, pid, Fine, PLAIN);
            && pid in next.passes && OnTheWay(plan, next, next.passes[pid])
            && Rank(next.passes[pid]) < Rank(w.passes[pid])
            && next.row == w.row && next.passes == w.passes[pid := next.passes[pid]]
  {
    assert Holds(plan, w, w.passes[pid]);
  }

  /** Left to itself, a pass comes to the point of finalizing. */
  lemma {:induction false} SoloComesToFinalize(plan: T.Plan, setting: Setting, w: World, pid: Pid)
    returns (run: seq<Event>)
    requires Invariant(plan, w) && pid in w.passes && OnTheWay(plan, w, w.passes[pid])
    ensures Play(plan, setting, w, run).Some? && NoUploads(run)
    ensures var end := Play(plan, setting, w, run).value;
            end.row == w.row && end.passes == w.passes[pid := MustFinalize] && Invariant(plan, end)
    decreases Rank(w.passes[pid])
  {
    if w.passes[pid].MustFinalize? {
      run := [];
      assert w.passes == w.passes[pid := MustFinalize];
    } else {
      var next := Advanced(plan, setting, w, pid, Fine, PLAIN);
      SoloStepsOn(plan, setting, w, pid);
      AdvanceKeepsInvariant(plan, setting, w, pid, Fine, PLAIN);
      var rest := SoloComesToFinalize(plan, setting, next, pid);
      run := [Advance(pid, Fine, PLAIN)] + rest;
      assert run[1..] == rest;
      assert Next(plan, setting, w, run[0]) == Some(next);
    }
  }

  /** Two passes that both come to the point of finalizing, one after the other. */
  lemma TwoComeToFinalize(plan: T.Plan, setting: Setting, w: World) returns (run: seq<Event>)
    requires Pending(plan, w) && !setting.lone
    ensures Play(plan, setting, w, run).Some? && NoUploads(run)
    ensures var end := Play(plan, setting, w, run).value;
            end.row == w.row && end.passes == map[1 := MustFinalize, 2 := MustFinalize]
  {
    var w1 := At1(w, 1, Listed);
    PlayOne(plan, setting, w, List(1));
    var w2 := At1(w1, 2, Listed);
    PlayOne(plan, setting, w1, List(2));
    StepKeepsInvariant(plan, setting, w, List(1));
    StepKeepsInvariant(plan, setting, w1, List(2));
    var first := SoloComesToFinalize(plan, setting, w2, 1);
    var w3 := Play(plan, setting, w2, first).value;
    var second := SoloComesToFinalize(plan, setting, w3, 2);
    PlayComposes(plan, setting, w2, first, second);
    PlayComposes(plan, setting, w1, [List(2)], first + second);
    PlayComposes(plan, setting, w, [List(1)], [List(2)] + (first + second));
    run := [List(1)] + ([List(2)] + (first + second));
    assert w3.passes[2 := MustFinalize] == map[1 := MustFinalize, 2 := MustFinalize];
  }

  lemma BothReturnTheId(plan: T.Plan, setting: Setting, w: World)
    requires w.passes == map[1 := MustFinalize, 2 := MustFinalize] && T.Qualifies(w.row)
    ensures var run := [Advance(1, Fine, PLAIN), Advance(2, Fine, PLAIN)];
            && Play(plan, setting, w, run).Some?
            && Play(plan, setting, w, run).value.passes == map[1 := Reported(true), 2 := Reported(false)]
  {
    var next := Advanced(plan, setting, w, 1, Fine, PLAIN);
    var end := Advanced(plan, setting, next, 2, Fine, PLAIN);
    assert [Advance(1, Fine, PLAIN), Advance(2, Fine, PLAIN)][1..] == [Advance(2, Fine, PLAIN)];
    PlayOne(plan, setting, next, Advance(2, Fine, PLAIN));
    assert next.passes == map[1 := Reported(true), 2 := MustFinalize];
    assert end.passes == map[1 := Reported(true), 2 := Reported(false)];
  }

  ghost predicate EndsTruthful(plan: T.Plan, setting: Setting, w: World, run: seq<Event>) {
    NoUploads(run) && Play(plan, setting, w, run).Some? ==> Truthful(Play(plan, setting, w, run).value)
  }

  /** On every history the passes that return the id are the ones that finalized it if and
      only if passes run one at a time: finalizing is silent about a row that another pass
      has finished, and the id is returned all the same. */
  lemma ReportsAreTruthfulExactlyWhen(plan: T.Plan, setting: Setting, w: World)
    requires Pending(plan, w)
    ensures (forall run :: EndsTruthful(plan, setting, w, run)) <==> setting.lone
  {
    if setting.lone {
      forall run
        ensures EndsTruthful(plan, setting, w, run)
      {
        if NoUploads(run) && Play(plan, setting, w, run).Some? {
          RunStaysLone(plan, setting, w, run);
        }
      }
    } else {
      var run := TwoComeToFinalize(plan, setting, w);
      var both := [Advance(1, Fine, PLAIN), Advance(2, Fine, PLAIN)];
      BothReturnTheId(plan, setting, Play(plan, setting, w, run).value);
      PlayComposes(plan, setting, w, run, both);
      var end := Play(plan, setting, w, run + both).value;
      assert 2 in end.passes && end.passes[2] == Reported(false);
      assert !EndsTruthful(plan, setting, w, run + both);
    }
  }

  /** At the call it can be told before: the pass finalizes what it returns exactly when the
      row is then still being deleted. */
  lemma FinalizingIsItsOwnExactlyWhen(plan: T.Plan, setting: Setting, w: World, pid: Pid, stamp: Stamp)
    requires Invariant(plan, w) && pid in w.passes && w.passes[pid].MustFinalize?
    ensures var next := Next(plan, setting, w, Advance(pid, Fine, stamp));
            && next.Some? && next.value.passes[pid].Reported?
            && (next.value.passes[pid].finalized <==> w.row.status.Deleting?)
            && (next.value.row.status.Deleted? <==> w.row.status.Deleting? || w.row.status.Deleted?)
  {
  }

  // ------------------------------------------------ a new file at the freed key

  /** The pass will not touch a new file's object: it has no copy or delete left, or what it
      saw, or will see, of the source has another length than the trash. */
  predicate Spares(plan: T.Plan, blob: Blob, s: Stage) {
    match s
    case Listed => |blob.body| != |plan.body|
    case SawSource(source) => source.Some? ==> |source.value.body| != |plan.body|
    case Copied(source) => source.Some? && |source.value.body| != |plan.body|
    case MustCopy(_) => false
    case MustDelete => false
    case _ => true
  }

  /** The new file at the source key, the deleted one in the trash. */
  predicate BothKept(plan: T.Plan, w: World, blob: Blob) {
    && plan.source in w.objects && w.objects[plan.source] == blob
    && plan.trash in w.objects && w.objects[plan.trash].body == plan.body
  }

  predicate BothSpared(plan: T.Plan, w: World, blob: Blob) {
    && plan.source != plan.trash && BothKept(plan, w, blob) && w.row.status.Deleted?
    && forall p | p in w.passes :: Spares(plan, blob, w.passes[p])
  }

  lemma AdvanceSpares(plan: T.Plan, setting: Setting, w: World, pid: Pid, fault: Fault, stamp: Stamp, blob: Blob)
    requires BothSpared(plan, w, blob) && pid in w.passes && !Finished(w.passes[pid])
    ensures BothSpared(plan, Advanced(plan, setting, w, pid, fault, stamp), blob)
  {
    assert Spares(plan, blob, w.passes[pid]);
    var next := Advanced(plan, setting, w, pid, fault, stamp);
    assert forall q | q in next.passes && q != pid :: q in w.passes && next.passes[q] == w.passes[q];
  }

  lemma {:induction false} RunSpares(plan: T.Plan, setting: Setting, w: World, run: seq<Event>, blob: Blob)
    requires BothSpared(plan, w, blob) && Play(plan, setting, w, run).Some? && NoUploads(run)
    ensures BothSpared(plan, Play(plan, setting, w, run).value, blob)
    decreases |run|
  {
    if run != [] {
      assert run[0] in run;
      var next := Next(plan, setting, w, run[0]).value;
      if run[0].Advance? {
        AdvanceSpares(plan, setting, w, run[0].pid, run[0].fault, run[0].stamp, blob);
      }
      RunSpares(plan, setting, next, run[1..], blob);
    }
  }

  /** What a pass saw of the source before the upload was the deleted file. */
  predicate SawTheFile(plan: T.Plan, s: Stage) {
    match s
    case SawSource(source) => source.Some? ==> |source.value.body| == |plan.body|
    case MustCopy(source) => source.Some? && |source.value.body| == |plan.body|
    case Copied(source) => source.Some? && |source.value.body| == |plan.body|
    case _ => true
  }

  /** A pass that does not spare it goes on until it has harmed the one or the other. */
  lemma {:induction false} UnsparingPassHarms(plan: T.Plan, setting: Setting, w: World, pid: Pid, blob: Blob)
    returns (run: seq<Event>)
    requires plan.source != plan.trash && BothKept(plan, w, blob) && pid in w.passes
    requires !Spares(plan, blob, w.passes[pid]) && SawTheFile(plan, w.passes[pid])
    ensures NoUploads(run) && Play(plan, setting, w, run).Some?
    ensures !BothKept(plan, Play(plan, setting, w, run).value, blob)
    decreases Rank(w.passes[pid])
  {
    var next := Advanced(plan, setting, w, pid, Fine, PLAIN);
    run := [Advance(pid, Fine, PLAIN)];
    PlayOne(plan, setting, w, run[0]);
    if BothKept(plan, next, blob) {
      var rest := UnsparingPassHarms(plan, setting, next, pid, blob);
      PlayComposes(plan, setting, w, run, rest);
      run := run + rest;
    }
  }

  /** Finalizing renames the row and so frees the key. A new file there, and the deleted one
      in the trash, are kept on every history that follows if and only if no pass under way
      has the old object's copy or deletion still before it, or has yet to look at the
      source and would find as many bytes there. */
  lemma UploadIsSafeExactlyWhen(plan: T.Plan, setting: Setting, w: World, blob: Blob)
    requires Invariant(plan, w) && w.row.status.Deleted?
    ensures var next := Next(plan, setting, w, Upload(blob)).value;
            (forall run | NoUploads(run) && Play(plan, setting, next, run).Some? ::
               BothKept(plan, Play(plan, setting, next, run).value, blob))
            <==> forall p | p in w.passes :: Spares(plan, blob, w.passes[p])
  {
    var next := Next(plan, setting, w, Upload(blob)).value;
    if forall p | p in w.passes :: Spares(plan, blob, w.passes[p]) {
      forall run | NoUploads(run) && Play(plan, setting, next, run).Some?
        ensures BothKept(plan, Play(plan, setting, next, run).value, blob)
      {
        RunSpares(plan, setting, next, run, blob);
      }
    } else {
      var p :| p in w.passes && !Spares(plan, blob, w.passes[p]);
      assert Holds(plan, w, w.passes[p]);
      var run := UnsparingPassHarms(plan, setting, next, p, blob);
    }
  }

  // ------------------------------------------- one pass alone is such a race

  /** One pass stands at a stage, or has died. */
  function Solo(objects: Objects, row: T.Row, stage: Option<Stage>): (w: World) {
    World(objects, row, if stage.Some? then map[0 := stage.value] else map[])
  }

  ghost predicate Reaches(plan: T.Plan, setting: Setting, start: World, objects: Objects, row: T.Row,
                          stage: Option<Stage>)
  {
    exists run :: Play(plan, setting, start, run) == Some(Solo(objects, row, stage))
  }

  lemma ReachesNext(plan: T.Plan, setting: Setting, start: World, objects: Objects, row: T.Row, stage: Option<Stage>,
                    e: Event, objects2: Objects, row2: T.Row, stage2: Option<Stage>)
    requires Reaches(plan, setting, start, objects, row, stage)
    requires Next(plan, setting, Solo(objects, row, stage), e) == Some(Solo(objects2, row2, stage2))
    ensures Reaches(plan, setting, start, objects2, row2, stage2)
  {
    var run :| Play(plan, setting, start, run) == Some(Solo(objects, row, stage));
    PlayComposes(plan, setting, start, run, [e]);
    PlayOne(plan, setting, Solo(objects, row, stage), e);
    assert Play(plan, setting, start, run + [e]) == Some(Solo(objects2, row2, stage2));
  }

  lemma SoloMoves(w: World, s: Stage)
    requires w.passes.Keys == {0}
    ensures w.passes[0 := s] == map[0 := s] && w.passes - {0} == map[]
  {
  }

  /** After the fault of a call: the except clause, or the end. */
  function AfterFault(fault: Fault): (stage: Option<Stage>) {
    if fault.RaiseBefore? || fault.RaiseAfter? then Some(MustRecordFailure) else None
  }

  lemma FailureIsAPath(plan: T.Plan, setting: Setting, start: World, objects: Objects, row: T.Row, fault: Fault)
    returns (stage: Option<Stage>)
    requires Reaches(plan, setting, start, objects, row, Some(MustRecordFailure))
    ensures Reaches(plan, setting, start, objects,
                    if fault.TakesEffect() then T.FailedRow(row, setting.maxAttempts) else row, stage)
  {
    var w := Solo(objects, row, Some(MustRecordFailure));
    SoloMoves(w, GaveUp);
    stage := if fault.CrashBefore? || fault.CrashAfter? then None else Some(GaveUp);
    ReachesNext(plan, setting, start, objects, row, Some(MustRecordFailure), Advance(0, fault, PLAIN), objects,
                if fault.TakesEffect() then T.FailedRow(row, setting.maxAttempts) else row, stage);
  }

  /** From the verified copy on; maybe to the except clause. */
  lemma SettleIsAPath(plan: T.Plan, setting: Setting, start: World, w: T.World, id: T.Id, a: T.Answers,
                      source: Option<Blob>, trash: Option<Blob>)
    returns (stage: Option<Stage>)
    requires id in w.rows && w.rows[id].objectKey == plan.source
    requires Reaches(plan, setting, start, w.objects, w.rows[id], Some(Judged(source, trash)))
    ensures var (after, ending) := T.Settle(w, id, a, source, trash);
            && id in after.rows && Reaches(plan, setting, start, after.objects, after.rows[id], stage)
            && (ending.Threw? ==> stage == Some(MustRecordFailure))
  {
    stage := Some(Judged(source, trash));
    var objects, row := w.objects, w.rows[id];
    if stage.value.MustDelete? {
      var deleted := AfterDelete(objects, plan.source, a.delete).0;
      SoloMoves(Solo(objects, row, stage), MustFinalize);
      SoloMoves(Solo(objects, row, stage), MustRecordFailure);
      var next := if a.delete.Fine? then Some(MustFinalize) else AfterFault(a.delete);
      ReachesNext(plan, setting, start, objects, row, stage, Advance(0, a.delete, PLAIN), deleted, row, next);
      objects, stage := deleted, next;
    }
    if stage == Some(MustFinalize) {
      var committed := if a.finalize.TakesEffect() then T.FinalizedRow(row) else row;
      SoloMoves(Solo(objects, row, stage), Reported(T.Qualifies(row)));
      SoloMoves(Solo(objects, row, stage), MustRecordFailure);
      var next := if a.finalize.Fine? then Some(Reported(T.Qualifies(row))) else AfterFault(a.finalize);
      ReachesNext(plan, setting, start, objects, row, stage, Advance(0, a.finalize, PLAIN), objects, committed, next);
      stage := next;
    }
  }

  /** A call that ends without effect on the record. */
  lemma HeadIsAPath(plan: T.Plan, setting: Setting, start: World, objects: Objects, row: T.Row, s: Stage, fault: Fault,
                    next: Stage)
    requires Reaches(plan, setting, start, objects, row, Some(s)) && !Finished(s)
    requires Advanced(plan, setting, Solo(objects, row, Some(s)), 0, fault, PLAIN)
          == if fault.Fine? then At1(Solo(objects, row, Some(s)), 0, next)
             else Interrupted(Solo(objects, row, Some(s)), 0, fault)
    ensures Reaches(plan, setting, start, objects, row, if fault.Fine? then Some(next) else AfterFault(fault))
  {
    SoloMoves(Solo(objects, row, Some(s)), next);
    SoloMoves(Solo(objects, row, Some(s)), MustRecordFailure);
    ReachesNext(plan, setting, start, objects, row, Some(s), Advance(0, fault, PLAIN), objects, row,
                if fault.Fine? then Some(next) else AfterFault(fault));
  }

  lemma CopyIsAPath(plan: T.Plan, setting: Setting, start: World, objects: Objects, row: T.Row, source: Option<Blob>,
                    a: T.Answers)
    requires Reaches(plan, setting, start, objects, row, Some(MustCopy(source)))
    ensures var (copied, reply) := AfterCopy(objects, plan.source, plan.trash, a.stamp, a.copy);
            Reaches(plan, setting, start, copied, row,
                    if reply.Returned? then Some(Copied(source))
                    else if reply.Raised? then Some(MustRecordFailure) else None)
  {
    var (copied, reply) := AfterCopy(objects, plan.source, plan.trash, a.stamp, a.copy);
    SoloMoves(Solo(objects, row, Some(MustCopy(source))), Copied(source));
    SoloMoves(Solo(objects, row, Some(MustCopy(source))), MustRecordFailure);
    ReachesNext(plan, setting, start, objects, row, Some(MustCopy(source)), Advance(0, a.copy, a.stamp), copied, row,
                if reply.Returned? then Some(Copied(source))
                else if reply.Raised? then Some(MustRecordFailure) else None);
  }

  lemma MigrateIsAPath(plan: T.Plan, setting: Setting, start: World, w: T.World, id: T.Id, a: T.Answers)
    returns (stage: Option<Stage>)
    requires id in w.rows && w.rows[id].objectKey == plan.source && w.rows[id].trashKey == Some(plan.trash)
    requires Reaches(plan, setting, start, w.objects, w.rows[id], Some(Listed))
    ensures var (after, ending) := T.Migrate(w, id, a);
            && id in after.rows && Reaches(plan, setting, start, after.objects, after.rows[id], stage)
            && (ending.Threw? ==> stage == Some(MustRecordFailure))
  {
    var row, source, trash := w.rows[id], At(w.objects, plan.source), At(w.objects, plan.trash);
    HeadIsAPath(plan, setting, start, w.objects, row, Listed, a.headSource, SawSource(source));
    if !a.headSource.Fine? {
      stage := AfterFault(a.headSource);
      return;
    }
    var seen := if trash.Some? then Judged(source, trash)
                else if source.Some? then MustCopy(source) else MustRecordFailure;
    HeadIsAPath(plan, setting, start, w.objects, row, SawSource(source), a.headTrash, seen);
    if !a.headTrash.Fine? {
      stage := AfterFault(a.headTrash);
    } else if trash.Some? {
      stage := SettleIsAPath(plan, setting, start, w, id, a, source, trash);
    } else if source.None? {
      stage := Some(MustRecordFailure);
    } else {
      stage := CopyAndSettleIsAPath(plan, setting, start, w, id, a, source);
    }
  }

  lemma CopyAndSettleIsAPath(plan: T.Plan, setting: Setting, start: World, w: T.World, id: T.Id, a: T.Answers,
                             source: Option<Blob>)
    returns (stage: Option<Stage>)
    requires id in w.rows && w.rows[id].objectKey == plan.source && w.rows[id].trashKey == Some(plan.trash)
    requires a.headSource.Fine? && a.headTrash.Fine? && source == At(w.objects, plan.source) && source.Some?
    requires At(w.objects, plan.trash).None?
    requires Reaches(plan, setting, start, w.objects, w.rows[id], Some(MustCopy(source)))
    ensures var (after, ending) := T.Migrate(w, id, a);
            && id in after.rows && Reaches(plan, setting, start, after.objects, after.rows[id], stage)
            && (ending.Threw? ==> stage == Some(MustRecordFailure))
  {
    var (copied, reply) := AfterCopy(w.objects, plan.source, plan.trash, a.stamp, a.copy);
    CopyIsAPath(plan, setting, start, w.objects, w.rows[id], source, a);
    if !reply.Returned? {
      stage := if reply.Raised? then Some(MustRecordFailure) else None;
      return;
    }
    var trash := At(copied, plan.trash);
    HeadIsAPath(plan, setting, start, copied, w.rows[id], Copied(source), a.headCopy, Judged(source, trash));
    if a.headCopy.Fine? {
      stage := SettleIsAPath(plan, setting, start, w.(objects := copied), id, a, source, trash);
    } else {
      stage := AfterFault(a.headCopy);
    }
  }

  lemma TryIsAPath(plan: T.Plan, setting: Setting, start: World, w: T.World, id: T.Id, a: T.Answers)
    returns (stage: Option<Stage>)
    requires id in w.rows && w.rows[id].objectKey == plan.source && w.rows[id].trashKey == Some(plan.trash)
    requires Reaches(plan, setting, start, w.objects, w.rows[id], Some(Listed))
    ensures var (after, ending) := T.TryRecord(w, id, a, setting.maxAttempts);
            && id in after.rows && Reaches(plan, setting, start, after.objects, after.rows[id], stage)
            && (ending.Threw? ==> stage == Some(MustRecordFailure))
  {
    if a.revalidation.Rejected? {
      stage := RejectIsAPath(plan, setting, start, w, id, a, 1);
    } else if a.revalidation.Passed? && a.space.Rejected? {
      stage := RejectIsAPath(plan, setting, start, w, id, a, setting.maxAttempts);
    } else if a.revalidation.Passed? && a.space.Passed? {
      stage := MigrateIsAPath(plan, setting, start, w, id, a);
    } else {
      var raised := a.revalidation.CheckRaised? || (a.revalidation.Passed? && a.space.CheckRaised?);
      SoloMoves(Solo(w.objects, w.rows[id], Some(Listed)), MustRecordFailure);
      stage := if raised then Some(MustRecordFailure) else None;
      ReachesNext(plan, setting, start, w.objects, w.rows[id], Some(Listed), if raised then Raise(0) else Die(0),
                  w.objects, w.rows[id], stage);
    }
  }

  lemma RejectIsAPath(plan: T.Plan, setting: Setting, start: World, w: T.World, id: T.Id, a: T.Answers,
                      maxAttempts: int)
    returns (stage: Option<Stage>)
    requires id in w.rows && Reaches(plan, setting, start, w.objects, w.rows[id], Some(Listed))
    ensures var (after, ending) := T.Reject(w, id, a, maxAttempts);
            && id in after.rows && Reaches(plan, setting, start, after.objects, after.rows[id], stage)
            && (ending.Threw? ==> stage == Some(MustRecordFailure))
  {
    var row, fault := w.rows[id], a.recordRejection;
    SoloMoves(Solo(w.objects, row, Some(Listed)), MustReject(maxAttempts));
    ReachesNext(plan, setting, start, w.objects, row, Some(Listed), Reject(0, maxAttempts), w.objects, row,
                Some(MustReject(maxAttempts)));
    SoloMoves(Solo(w.objects, row, Some(MustReject(maxAttempts))), GaveUp);
    SoloMoves(Solo(w.objects, row, Some(MustReject(maxAttempts))), MustRecordFailure);
    stage := if fault.Fine? then Some(GaveUp) else AfterFault(fault);
    ReachesNext(plan, setting, start, w.objects, row, Some(MustReject(maxAttempts)), Advance(0, fault, PLAIN),
                w.objects, if fault.TakesEffect() then T.FailedRow(row, maxAttempts) else row, stage);
  }

  /** What a pass does with one record, whatever its calls answer, is a history of these
      passes: the one that lists it alone, step by step. */
  lemma RecordIsAPath(plan: T.Plan, setting: Setting, w: T.World, id: T.Id, a: T.Answers)
    requires id in w.rows && w.rows[id].status.Deleting?
    requires w.rows[id].objectKey == plan.source && w.rows[id].trashKey == Some(plan.trash)
    ensures var after := T.Record(w, id, a, setting.maxAttempts).0;
            && id in after.rows
            && exists stage :: Reaches(plan, setting, Solo(w.objects, w.rows[id], None), after.objects, after.rows[id],
                                       stage)
  {
    var start := Solo(w.objects, w.rows[id], None);
    assert Play(plan, setting, start, []) == Some(start);
    assert start.passes[0 := Listed] == map[0 := Listed];
    ReachesNext(plan, setting, start, w.objects, w.rows[id], None, List(0), w.objects, w.rows[id], Some(Listed));
    var stage := TryIsAPath(plan, setting, start, w, id, a);
    var (tried, ending) := T.TryRecord(w, id, a, setting.maxAttempts);
    if ending.Threw? {
      stage := FailureIsAPath(plan, setting, start, tried.objects, tried.rows[id], a.recordFailure);
    }
    var after := T.Record(w, id, a, setting.maxAttempts).0;
    assert Reaches(plan, setting, start, after.objects, after.rows[id], stage);
  }
}
