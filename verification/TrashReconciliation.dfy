/** reconcile_pending_deletions: moving the objects of deleted files into the trash,
    one durable delete intent at a time. */
module TrashReconciliation {
  import opened Wrappers
  import opened Text
  import opened ObjectStore

  type Id = int

  datatype FileStatus = Available | Deleting | Deleted | DeleteFailed
  datatype Purge = NotDue | PendingMigration | Scheduled | Purging | RetryWait | Purged

  /** trashKey is the target stored with the deletion record, if there is one. */
  datatype Row = Row(status: FileStatus, softDeleted: bool, attempts: nat, objectKey: Key, trashKey: Option<Key>,
                     purge: Purge)

  datatype World = World(objects: Objects, rows: map<Id, Row>)

  /** A check that may also fail to answer. */
  datatype Check = Passed | Rejected | CheckRaised | CheckCrashed

  /** What the outside world answers while one record is processed. */
  datatype Answers = Answers(
    revalidation: Check,
    space: Check,
    headSource: Fault,
    headTrash: Fault,
    copy: Fault,
    stamp: Stamp,
    headCopy: Fault,
    delete: Fault,
    finalize: Fault,
    recordRejection: Fault,
    recordFailure: Fault)

  // -------------------------------------------------------- specification

  /** record_delete_failure: only a row still being deleted counts another attempt. */
  function FailedRow(row: Row, maxAttempts: int): (r: Row) {
    if !row.status.Deleting? then row
    else
      var attempts := row.attempts + 1;
      row.(attempts := attempts, status := if attempts >= maxAttempts then DeleteFailed else Deleting)
  }

  function Failed(rows: map<Id, Row>, id: Id, maxAttempts: int): (r: map<Id, Row>) {
    if id in rows then rows[id := FailedRow(rows[id], maxAttempts)] else rows
  }

  /** finalize_file_trash_migration returns silently when its row does not qualify. */
  predicate Qualifies(row: Row) {
    row.status.Deleting? && row.softDeleted && row.trashKey.Some?
  }

  function FinalizedRow(row: Row): (r: Row) {
    if Qualifies(row) then row.(status := Deleted, objectKey := row.trashKey.value, purge := Scheduled) else row
  }

  function Finalized(rows: map<Id, Row>, id: Id): (r: map<Id, Row>) {
    if id in rows then rows[id := FinalizedRow(rows[id])] else rows
  }

  function Update(rows: map<Id, Row>, updated: map<Id, Row>, fault: Fault): (r: map<Id, Row>) {
    if fault.TakesEffect() then updated else rows
  }

  /** How the try block ends for one record. */
  datatype Ending = Completed | Skipped | Threw | Died

  function EndingOf<T>(reply: Reply<T>): (e: Ending)
    requires !reply.Returned?
  {
    if reply.Raised? then Threw else Died
  }

  function TryRecord(w: World, id: Id, a: Answers, maxAttempts: int): (r: (World, Ending))
    requires id in w.rows
  {
    match a.revalidation
    case CheckRaised => (w, Threw)
    case CheckCrashed => (w, Died)
    case Rejected => Reject(w, id, a, 1)
    case Passed =>
      match a.space
      case CheckRaised => (w, Threw)
      case CheckCrashed => (w, Died)
      case Rejected => Reject(w, id, a, maxAttempts)
      case Passed => if w.rows[id].trashKey.None? then (w, Threw) else Migrate(w, id, a)
  }

  function Reject(w: World, id: Id, a: Answers, maxAttempts: int): (r: (World, Ending)) {
    (w.(rows := Update(w.rows, Failed(w.rows, id, maxAttempts), a.recordRejection)),
     if a.recordRejection.Fine? then Skipped else EndingOf(Answer(a.recordRejection, ())))
  }

  function Migrate(w: World, id: Id, a: Answers): (r: (World, Ending))
    requires id in w.rows && w.rows[id].trashKey.Some?
  {
    var source, trash := w.rows[id].objectKey, w.rows[id].trashKey.value;
    var headSource := Answer(a.headSource, At(w.objects, source));
    if !headSource.Returned? then (w, EndingOf(headSource))
    else
      var headTrash := Answer(a.headTrash, At(w.objects, trash));
      if !headTrash.Returned? then (w, EndingOf(headTrash))
      else if headTrash.value.Some? then Settle(w, id, a, headSource.value, headTrash.value)
      else if headSource.value.None? then (w, Threw)
      else
        var (copied, reply) := AfterCopy(w.objects, source, trash, a.stamp, a.copy);
        if !reply.Returned? then (w.(objects := copied), EndingOf(reply))
        else
          var headCopy := Answer(a.headCopy, At(copied, trash));
          if !headCopy.Returned? then (w.(objects := copied), EndingOf(headCopy))
          else Settle(w.(objects := copied), id, a, headSource.value, headCopy.value)
  }

  /** The trash copy is missing or its length is wrong. */
  predicate Unverified(source: Option<Blob>, trash: Option<Blob>) {
    trash.None? || (source.Some? && |trash.value.body| != |source.value.body|)
  }

  function Settle(w: World, id: Id, a: Answers, source: Option<Blob>, trash: Option<Blob>): (r: (World, Ending))
    requires id in w.rows
  {
    if Unverified(source, trash) then (w, Threw)
    else
      var (deleted, reply) :=
        if source.Some? then AfterDelete(w.objects, w.rows[id].objectKey, a.delete) else (w.objects, Returned(()));
      if !reply.Returned? then (w.(objects := deleted), EndingOf(reply))
      else (World(deleted, Update(w.rows, Finalized(w.rows, id), a.finalize)),
            if a.finalize.Fine? then Completed else EndingOf(Answer(a.finalize, ())))
  }

  /** One record with its except clause; Threw now means that recording failed as well. */
  function Record(w: World, id: Id, a: Answers, maxAttempts: int): (r: (World, Ending))
    requires id in w.rows
  {
    var (tried, ending) := TryRecord(w, id, a, maxAttempts);
    if !ending.Threw? then (tried, ending)
    else
      (tried.(rows := Update(tried.rows, Failed(tried.rows, id, maxAttempts), a.recordFailure)),
       if a.recordFailure.Fine? then Skipped else EndingOf(Answer(a.recordFailure, ())))
  }

  /** The ids returned, or nothing when the pass ended in an exception or a crash. */
  function Pass(w: World, ids: seq<Id>, answers: nat -> Answers, maxAttempts: int, i: nat)
    : (r: (World, Option<seq<Id>>))
    requires i <= |ids| && forall id | id in ids :: id in w.rows
    ensures r.0.rows.Keys == w.rows.Keys
    decreases |ids| - i
  {
    if i == |ids| then (w, Some([]))
    else
      var (next, ending) := Record(w, ids[i], answers(i), maxAttempts);
      if ending.Threw? || ending.Died? then (next, None)
      else
        var (end, rest) := Pass(next, ids, answers, maxAttempts, i + 1);
        (end, Reported(if ending.Completed? then [ids[i]] else [], rest))
  }

  /** The ids reported so far in front of those still to come. */
  function Reported(done: seq<Id>, rest: Option<seq<Id>>): (r: Option<seq<Id>>)
    ensures done == [] ==> r == rest
  {
    if rest.None? then None
    else
      assert done == [] ==> done + rest.value == rest.value;
      Some(done + rest.value)
  }

  lemma ReportedInOrder(done: seq<Id>, more: seq<Id>, rest: Option<seq<Id>>)
    ensures Reported(done, Reported(more, rest)) == Reported(done + more, rest)
  {
    if rest.Some? {
      assert done + (more + rest.value) == (done + more) + rest.value;
    }
  }

  // ------------------------------------------------------------- service

  class FileApplicationService {
    const storage: ObjectStorage
    const maxAttempts: int
    var rows: map<Id, Row>

    constructor (storage: ObjectStorage, maxAttempts: int, rows: map<Id, Row>)
      ensures this.storage == storage && this.maxAttempts == maxAttempts && this.rows == rows
    {
      this.storage, this.maxAttempts, this.rows := storage, maxAttempts, rows;
    }

    function Snapshot(): (w: World)
      reads this, storage
    {
      World(storage.objects, rows)
    }

    method ReconcilePendingDeletions(ids: seq<Id>, answers: nat -> Answers) returns (finalized: Option<seq<Id>>)
      requires forall id | id in ids :: id in rows
      modifies this, storage
      ensures (Snapshot(), finalized) == Pass(old(Snapshot()), ids, answers, maxAttempts, 0)
    {
      var done: seq<Id> := [];
      for i := 0 to |ids|
        invariant rows.Keys == old(rows.Keys)
        invariant var (end, rest) := Pass(Snapshot(), ids, answers, maxAttempts, i);
                  Pass(old(Snapshot()), ids, answers, maxAttempts, 0)
                  == (end, Reported(done, rest))
      {
        ghost var rest := Pass(Record(Snapshot(), ids[i], answers(i), maxAttempts).0, ids, answers, maxAttempts,
                               i + 1).1;
        ReportedInOrder(done, [ids[i]], rest);
        var ending := TryOne(ids[i], answers(i));
        if ending.Threw? {
          rows := Update(rows, Failed(rows, ids[i], maxAttempts), answers(i).recordFailure);
          ending := if answers(i).recordFailure.Fine? then Skipped else EndingOf(Answer(answers(i).recordFailure, ()));
        }
        if ending.Threw? || ending.Died? {
          return None;
        }
        if ending.Completed? {
          done := done + [ids[i]];
        }
      }
      assert done + [] == done;
      return Some(done);
    }

    method TryOne(id: Id, a: Answers) returns (ending: Ending)
      requires id in rows
      modifies this, storage
      ensures (Snapshot(), ending) == TryRecord(old(Snapshot()), id, a, maxAttempts)
    {
      if a.revalidation.Rejected? {
        rows := Update(rows, Failed(rows, id, 1), a.recordRejection);
        return if a.recordRejection.Fine? then Skipped else EndingOf(Answer(a.recordRejection, ()));
      }
      if !a.revalidation.Passed? {
        return if a.revalidation.CheckRaised? then Threw else Died;
      }
      if a.space.Rejected? {
        rows := Update(rows, Failed(rows, id, maxAttempts), a.recordRejection);
        return if a.recordRejection.Fine? then Skipped else EndingOf(Answer(a.recordRejection, ()));
      }
      if !a.space.Passed? {
        return if a.space.CheckRaised? then Threw else Died;
      }
      if rows[id].trashKey.None? {
        return Threw;
      }
      var source, trash := rows[id].objectKey, rows[id].trashKey.value;
      var headSource := storage.Head(source, a.headSource);
      if !headSource.Returned? {
        return EndingOf(headSource);
      }
      var headTrash := storage.Head(trash, a.headTrash);
      if !headTrash.Returned? {
        return EndingOf(headTrash);
      }
      var trashMetadata := headTrash.value;
      if trashMetadata.None? {
        if headSource.value.None? {
          return Threw;
        }
        var copied := storage.Copy(source, trash, a.stamp, a.copy);
        if !copied.Returned? {
          return EndingOf(copied);
        }
        var headCopy := storage.Head(trash, a.headCopy);
        if !headCopy.Returned? {
          return EndingOf(headCopy);
        }
        trashMetadata := headCopy.value;
      }
      if Unverified(headSource.value, trashMetadata) {
        return Threw;
      }
      if headSource.value.Some? {
        var deleted := storage.Delete(source, a.delete);
        if !deleted.Returned? {
          return EndingOf(deleted);
        }
      }
      rows := Update(rows, Finalized(rows, id), a.finalize);
      return if a.finalize.Fine? then Completed else EndingOf(Answer(a.finalize, ()));
    }
  }

  // ------------------------------------------------------ how a record ends

  /** The record is rejected before anything is migrated. */
  predicate TurnedAway(a: Answers) {
    a.revalidation.Rejected? || (a.revalidation.Passed? && a.space.Rejected?)
  }

  function CallOf(fault: Fault): (c: Check) {
    if fault.Fine? then Passed else if fault in {RaiseBefore, RaiseAfter} then CheckRaised else CheckCrashed
  }

  function Demand(met: bool): (c: Check) {
    if met then Passed else CheckRaised
  }

  /** Of two demands in order, the one that is not met first. */
  function Then(first: Check, second: Check): (unmet: Check) {
    if first.Passed? then second else first
  }

  /** The first thing that does not go well for one record, if any. A trash object that is
      already there has to be as long as the source; one copied now is. */
  function FirstUnmet(w: World, id: Id, a: Answers): (unmet: Check)
    requires id in w.rows
  {
    if TurnedAway(a) then CallOf(a.recordRejection)
    else
      Then(Then(a.revalidation, a.space),
           if w.rows[id].trashKey.None? then CheckRaised
           else
             Then(Then(CallOf(a.headSource), CallOf(a.headTrash)),
                  UnmetInMigration(w.objects, w.rows[id].objectKey, w.rows[id].trashKey.value, a)))
  }

  function UnmetInMigration(objects: Objects, source: Key, trash: Key, a: Answers): (unmet: Check) {
    var inTrash :=
      if trash in objects then Demand(source in objects ==> |objects[trash].body| == |objects[source].body|)
      else Then(Demand(source in objects), Then(CallOf(a.copy), CallOf(a.headCopy)));
    Then(Then(inTrash, if source in objects then CallOf(a.delete) else Passed), CallOf(a.finalize))
  }

  /** Whatever raises is a failure of the record, whatever crashes ends the process, and
      only a record that meets every demand is completed. */
  lemma FirstUnmetDemandDecides(w: World, id: Id, a: Answers, maxAttempts: int)
    requires id in w.rows
    ensures var unmet, ending := FirstUnmet(w, id, a), TryRecord(w, id, a, maxAttempts).1;
            && (ending.Threw? <==> unmet.CheckRaised?)
            && (ending.Died? <==> unmet.CheckCrashed?)
            && (ending.Completed? <==> unmet.Passed? && !TurnedAway(a))
  {
  }

  // ------------------------------------------------- the life of a file row

  /** The transactions of the store that touch a row's deletion, each on one row. */
  datatype StoreStep =
    | SoftDelete(id: Id, trashKey: Key, found: Key)  // found: the record a later read meets first
    | Finalize(id: Id)
    | RecordFailure(id: Id, maxAttempts: int)
    | Restore(id: Id, admitted: bool)                // the due date and the etag
    | ClaimPurge(id: Id, due: bool)
    | FinalizePurge(id: Id)
    | FailPurge(id: Id)

  function StepRow(row: Row, step: StoreStep): (after: Row) {
    match step
    case SoftDelete(_, trashKey, found) =>
      if !row.status.Available? || row.softDeleted then row
      else
        row.(status := Deleting, softDeleted := true, purge := PendingMigration,
             trashKey := if row.trashKey == Some(found) then row.trashKey else Some(trashKey))
    case Finalize(_) => FinalizedRow(row)
    case RecordFailure(_, maxAttempts) => FailedRow(row, maxAttempts)
    case Restore(_, admitted) =>
      if !row.softDeleted || !row.status.Deleted? || row.purge.Purging? || !admitted then row
      else row.(status := Available, softDeleted := false, purge := NotDue)
    case ClaimPurge(_, due) =>
      if row.softDeleted && due && (row.purge.Scheduled? || row.purge.RetryWait?) then row.(purge := Purging) else row
    case FinalizePurge(_) =>
      if row.softDeleted && row.purge.Purging? then row.(softDeleted := false, purge := Purged) else row
    case FailPurge(_) => if row.softDeleted && row.purge.Purging? then row.(purge := RetryWait) else row
  }

  function Stepped(rows: map<Id, Row>, steps: seq<StoreStep>): (after: map<Id, Row>)
    decreases |steps|
  {
    if steps == [] then rows
    else
      var id := steps[0].id;
      Stepped(if id in rows then rows[id := StepRow(rows[id], steps[0])] else rows, steps[1..])
  }

  /** A deleting row with a deletion record is soft-deleted and its purge has not begun; what
      is to be purged has been finalized. */
  predicate Lawful(row: Row) {
    && (row.status.Deleting? && row.trashKey.Some? ==> row.softDeleted && row.purge.PendingMigration?)
    && (row.purge.Scheduled? || row.purge.Purging? || row.purge.RetryWait? ==> row.status.Deleted?)
  }

  predicate AllLawful(rows: map<Id, Row>) {
    forall id | id in rows :: Lawful(rows[id])
  }

  lemma StepKeepsLawful(row: Row, step: StoreStep)
    requires Lawful(row)
    ensures Lawful(StepRow(row, step))
  {
  }

  /** Whatever is deleted, finalized, given up, restored and purged, in whatever order. */
  lemma {:induction false} StepsKeepLawful(rows: map<Id, Row>, steps: seq<StoreStep>)
    requires AllLawful(rows)
    ensures AllLawful(Stepped(rows, steps))
    decreases |steps|
  {
    if steps != [] {
      var id := steps[0].id;
      if id in rows {
        StepKeepsLawful(rows[id], steps[0]);
      }
      StepsKeepLawful(if id in rows then rows[id := StepRow(rows[id], steps[0])] else rows, steps[1..]);
    }
  }

  /** When a row becomes what it was not: each change has its one transaction, and that
      transaction its conditions. */
  lemma StatusChangesExactlyWhen(row: Row, step: StoreStep)
    ensures var after := StepRow(row, step);
            && (after.status == row.status
                || match after.status
                   case Deleting => step.SoftDelete? && row.status.Available? && !row.softDeleted
                   case Deleted => step.Finalize? && row.status.Deleting? && row.softDeleted && row.trashKey.Some?
                   case DeleteFailed =>
                     step.RecordFailure? && row.status.Deleting? && row.attempts + 1 >= step.maxAttempts
                   case Available =>
                     step.Restore? && row.status.Deleted? && row.softDeleted && !row.purge.Purging? && step.admitted)
            && (step.SoftDelete? && row.status.Available? && !row.softDeleted ==> after.status.Deleting?)
            && (step.Finalize? && row.status.Deleting? && row.softDeleted && row.trashKey.Some?
                ==> after.status.Deleted?)
            && (step.RecordFailure? && row.status.Deleting? && row.attempts + 1 >= step.maxAttempts
                ==> after.status.DeleteFailed?)
            && (step.Restore? && row.status.Deleted? && row.softDeleted && !row.purge.Purging? && step.admitted
                ==> after.status.Available?)
  {
  }

  /** A file is hidden by its deletion and shown again by a restore; its deletion record is
      closed by a restore or by the end of its purge. */
  lemma DeletionRecordChangesExactlyWhen(row: Row, step: StoreStep)
    ensures var after := StepRow(row, step);
            && (after.softDeleted && !row.softDeleted
                <==> step.SoftDelete? && row.status.Available? && !row.softDeleted)
            && (row.softDeleted && !after.softDeleted
                <==> row.softDeleted && ((after.status.Available? && !row.status.Available?)
                                         || (step.FinalizePurge? && row.purge.Purging?)))
            && after.attempts == row.attempts + (if step.RecordFailure? && row.status.Deleting? then 1 else 0)
            && after.objectKey
               == (if after.status.Deleted? && !row.status.Deleted? then row.trashKey.value else row.objectKey)
            && after.trashKey
               == (if after.softDeleted && !row.softDeleted && row.trashKey != Some(step.found)
                   then Some(step.trashKey) else row.trashKey)
  {
  }

  /** The purge runs from waiting for migration through its schedule to its end, or back to
      another try, and a restore calls it off. */
  lemma PurgeChangesExactlyWhen(row: Row, step: StoreStep)
    ensures var after := StepRow(row, step);
            after.purge
            == (if after.softDeleted && !row.softDeleted then PendingMigration
                else if after.status.Deleted? && !row.status.Deleted? then Scheduled
                else if after.status.Available? && !row.status.Available? then NotDue
                else if step.ClaimPurge? && step.due && row.softDeleted && row.purge in {Scheduled, RetryWait}
                then Purging
                else if row.softDeleted && row.purge.Purging? && step.FinalizePurge? then Purged
                else if row.softDeleted && row.purge.Purging? && step.FailPurge? then RetryWait
                else row.purge)
  {
  }

  /** A row being deleted bears its failures one by one and is given up at the limit. */
  lemma {:induction false} FailuresAreCounted(rows: map<Id, Row>, id: Id, maxAttempts: int, n: nat)
    requires id in rows && rows[id].status.Deleting? && rows[id].attempts + 1 <= maxAttempts
    ensures var after := Stepped(rows, seq(n, _ => RecordFailure(id, maxAttempts)));
            && id in after
            && var row := after[id];
            && row.attempts == (if rows[id].attempts + n < maxAttempts then rows[id].attempts + n else maxAttempts)
            && row.status == (if row.attempts < maxAttempts then Deleting else DeleteFailed)
            && row == rows[id].(attempts := row.attempts, status := row.status)
    decreases n
  {
    var steps := seq(n, _ => RecordFailure(id, maxAttempts));
    if n > 0 {
      assert steps[1..] == seq(n - 1, _ => RecordFailure(id, maxAttempts));
      var next := rows[id := StepRow(rows[id], steps[0])];
      assert Stepped(rows, steps) == Stepped(next, steps[1..]);
      if next[id].status.Deleting? {
        FailuresAreCounted(next, id, maxAttempts, n - 1);
      } else {
        GivenUpStaysSo(next, id, maxAttempts, n - 1);
      }
    }
  }

  lemma {:induction false} GivenUpStaysSo(rows: map<Id, Row>, id: Id, maxAttempts: int, n: nat)
    requires id in rows && rows[id].status.DeleteFailed?
    ensures Stepped(rows, seq(n, _ => RecordFailure(id, maxAttempts))) == rows
    decreases n
  {
    var steps := seq(n, _ => RecordFailure(id, maxAttempts));
    if n > 0 {
      assert steps[1..] == seq(n - 1, _ => RecordFailure(id, maxAttempts));
      assert rows[id := StepRow(rows[id], steps[0])] == rows;
      GivenUpStaysSo(rows, id, maxAttempts, n - 1);
    }
  }

  // ---------------------------------------------------------- properties

  /** Where each file's bytes are to come from and go to. */
  datatype Plan = Plan(source: Key, trash: Key, body: seq<byte>)

  /** No two files share a key, and no file's trash key is its own source. */
  predicate Disjoint(plans: map<Id, Plan>) {
    && (forall i | i in plans :: plans[i].source != plans[i].trash)
    && (forall i, j | i in plans && j in plans && i != j ::
          plans[i].source != plans[j].source && plans[i].trash != plans[j].trash
          && plans[i].source != plans[j].trash && plans[i].trash != plans[j].source)
  }

  /** The file's bytes are in source or trash, never altered, and a finalized file is
      in the trash and gone from its source. */
  predicate Sound(w: World, id: Id, plan: Plan)
    requires id in w.rows
  {
    var row := w.rows[id];
    && row.trashKey == Some(plan.trash)
    && row.objectKey == (if row.status.Deleted? then plan.trash else plan.source)
    && Contents(w.objects, plan)
    && (row.status.Deleted? ==> InTrash(w.objects, plan))
  }

  predicate Contents(objects: Objects, plan: Plan) {
    && (plan.source in objects ==> objects[plan.source].body == plan.body)
    && (plan.trash in objects ==> objects[plan.trash].body == plan.body)
    && (plan.source in objects || plan.trash in objects)
  }

  predicate InTrash(objects: Objects, plan: Plan) {
    plan.trash in objects && plan.source !in objects
  }

  predicate AllSound(w: World, plans: map<Id, Plan>) {
    w.rows.Keys == plans.Keys && forall id | id in plans :: Sound(w, id, plans[id])
  }

  /** What list_pending_deletions may return: rows being deleted, each once. */
  predicate Listed(w: World, ids: seq<Id>, from: nat)
    requires from <= |ids|
  {
    && (forall i | from <= i < |ids| :: ids[i] in w.rows && w.rows[ids[i]].status.Deleting?)
    && (forall i, j | from <= i < j < |ids| :: ids[i] != ids[j])
  }

  /** One row was updated, as the store updates it, or none. */
  predicate OneRowStepped(before: map<Id, Row>, after: map<Id, Row>, id: Id)
    requires id in before
  {
    && id in after && after == before[id := after[id]]
    && (Lawful(before[id]) ==> Lawful(after[id]))
  }

  lemma MigrateStepsOneRow(w: World, id: Id, a: Answers)
    requires id in w.rows && w.rows[id].trashKey.Some?
    ensures OneRowStepped(w.rows, Migrate(w, id, a).0.rows, id)
  {
    var rows := Migrate(w, id, a).0.rows;
    assert rows == w.rows || rows == Finalized(w.rows, id);
  }

  lemma FailingStepsOneRow(rows: map<Id, Row>, id: Id, maxAttempts: int, fault: Fault)
    requires id in rows
    ensures OneRowStepped(rows, Update(rows, Failed(rows, id, maxAttempts), fault), id)
  {
  }

  lemma RecordStepsOneRow(w: World, id: Id, a: Answers, maxAttempts: int)
    requires id in w.rows
    ensures OneRowStepped(w.rows, Record(w, id, a, maxAttempts).0.rows, id)
  {
    if w.rows[id].trashKey.Some? {
      MigrateStepsOneRow(w, id, a);
    }
    FailingStepsOneRow(w.rows, id, 1, a.recordRejection);
    FailingStepsOneRow(w.rows, id, maxAttempts, a.recordRejection);
    var tried := TryRecord(w, id, a, maxAttempts).0;
    assert OneRowStepped(w.rows, tried.rows, id);
    FailingStepsOneRow(tried.rows, id, maxAttempts, a.recordFailure);
  }

  lemma {:induction false} SteppedComposes(rows: map<Id, Row>, a: seq<StoreStep>, b: seq<StoreStep>)
    ensures Stepped(rows, a + b) == Stepped(Stepped(rows, a), b)
    decreases |a|
  {
    if a == [] {
      assert a + b == b;
    } else {
      var next := if a[0].id in rows then rows[a[0].id := StepRow(rows[a[0].id], a[0])] else rows;
      SteppedComposes(next, a[1..], b);
      assert (a + b)[1..] == a[1..] + b;
    }
  }

  function FailureSteps(id: Id, maxAttempts: int, fault: Fault): (steps: seq<StoreStep>) {
    if fault.TakesEffect() then [RecordFailure(id, maxAttempts)] else []
  }

  lemma FailureIsAStep(rows: map<Id, Row>, id: Id, maxAttempts: int, fault: Fault)
    ensures Stepped(rows, FailureSteps(id, maxAttempts, fault)) == Update(rows, Failed(rows, id, maxAttempts), fault)
  {
    assert [RecordFailure(id, maxAttempts)][1..] == [];
  }

  lemma MigrationIsAStep(w: World, id: Id, a: Answers) returns (steps: seq<StoreStep>)
    requires id in w.rows && w.rows[id].trashKey.Some?
    ensures steps in [[], [Finalize(id)]] && Stepped(w.rows, steps) == Migrate(w, id, a).0.rows
  {
    var rows := Migrate(w, id, a).0.rows;
    steps := if rows == w.rows then [] else [Finalize(id)];
    assert [Finalize(id)][1..] == [];
  }

  /** The rows a record leaves are those after some of the store's transactions, each on its
      own row: a failure recorded or the row finalized, and then perhaps a failure. */
  lemma RecordIsStoreSteps(w: World, id: Id, a: Answers, maxAttempts: int) returns (steps: seq<StoreStep>)
    requires id in w.rows
    ensures forall step | step in steps :: step in [RecordFailure(id, 1), RecordFailure(id, maxAttempts), Finalize(id)]
    ensures Stepped(w.rows, steps) == Record(w, id, a, maxAttempts).0.rows
  {
    var (tried, ending) := TryRecord(w, id, a, maxAttempts);
    steps := [];
    if a.revalidation.Rejected? {
      steps := FailureSteps(id, 1, a.recordRejection);
      FailureIsAStep(w.rows, id, 1, a.recordRejection);
    } else if a.revalidation.Passed? && a.space.Rejected? {
      steps := FailureSteps(id, maxAttempts, a.recordRejection);
      FailureIsAStep(w.rows, id, maxAttempts, a.recordRejection);
    } else if a.revalidation.Passed? && a.space.Passed? && w.rows[id].trashKey.Some? {
      steps := MigrationIsAStep(w, id, a);
    }
    if ending.Threw? {
      FailureIsAStep(tried.rows, id, maxAttempts, a.recordFailure);
      SteppedComposes(w.rows, steps, FailureSteps(id, maxAttempts, a.recordFailure));
      steps := steps + FailureSteps(id, maxAttempts, a.recordFailure);
    }
  }

  lemma MigrateTouchesItsKeys(w: World, id: Id, a: Answers, key: Key)
    requires id in w.rows && w.rows[id].trashKey.Some?
    requires key != w.rows[id].objectKey && key != w.rows[id].trashKey.value
    ensures At(Migrate(w, id, a).0.objects, key) == At(w.objects, key)
  {
  }

  /** Whatever happens to one record, every other row and every other key is untouched. */
  lemma RecordTouchesOnlyItself(w: World, id: Id, a: Answers, maxAttempts: int, key: Key)
    requires id in w.rows
    requires key != w.rows[id].objectKey && w.rows[id].trashKey != Some(key)
    ensures var after := Record(w, id, a, maxAttempts).0;
            && At(after.objects, key) == At(w.objects, key)
            && after.rows - {id} == w.rows - {id}
  {
    RecordStepsOneRow(w, id, a, maxAttempts);
    if w.rows[id].trashKey.Some? {
      MigrateTouchesItsKeys(w, id, a, key);
    }
  }

  lemma SettleStaysSound(w: World, id: Id, a: Answers, source: Option<Blob>, trash: Option<Blob>, plan: Plan)
    requires id in w.rows && w.rows[id].status.Deleting? && plan.source != plan.trash && Sound(w, id, plan)
    requires trash.Some? ==> plan.trash in w.objects
    requires source.None? ==> plan.source !in w.objects
    ensures var (after, ending) := Settle(w, id, a, source, trash);
            && id in after.rows && Sound(after, id, plan)
            && (ending.Completed? ==> InTrash(after.objects, plan))
  {
  }

  lemma MigrateStaysSound(w: World, id: Id, a: Answers, plan: Plan)
    requires id in w.rows && w.rows[id].status.Deleting? && plan.source != plan.trash && Sound(w, id, plan)
    ensures var (after, ending) := Migrate(w, id, a);
            && id in after.rows && Sound(after, id, plan)
            && (ending.Completed? ==> InTrash(after.objects, plan))
  {
    var source, trash := At(w.objects, plan.source), At(w.objects, plan.trash);
    if trash.Some? {
      SettleStaysSound(w, id, a, source, trash, plan);
    } else {
      var copied := w.(objects := AfterCopy(w.objects, plan.source, plan.trash, a.stamp, a.copy).0);
      assert Sound(copied, id, plan);
      SettleStaysSound(copied, id, a, source, At(copied.objects, plan.trash), plan);
    }
  }

  lemma FailedStaysSound(w: World, id: Id, maxAttempts: int, fault: Fault, plan: Plan)
    requires id in w.rows && Sound(w, id, plan)
    ensures var after := w.(rows := Update(w.rows, Failed(w.rows, id, maxAttempts), fault));
            id in after.rows && Sound(after, id, plan)
  {
  }

  /** The record's own file stays sound; if it is reported, it is in the trash. */
  lemma RecordStaysSound(w: World, id: Id, a: Answers, maxAttempts: int, plan: Plan)
    requires id in w.rows && w.rows[id].status.Deleting?
    requires plan.source != plan.trash && Sound(w, id, plan)
    ensures var (after, ending) := Record(w, id, a, maxAttempts);
            && id in after.rows && Sound(after, id, plan)
            && (ending.Completed? ==> InTrash(after.objects, plan))
  {
    MigrateStaysSound(w, id, a, plan);
    FailedStaysSound(w, id, 1, a.recordRejection, plan);
    FailedStaysSound(w, id, maxAttempts, a.recordRejection, plan);
    FailedStaysSound(TryRecord(w, id, a, maxAttempts).0, id, maxAttempts, a.recordFailure, plan);
  }

  lemma OthersStaySound(w: World, id: Id, a: Answers, maxAttempts: int, plans: map<Id, Plan>, other: Id)
    requires id in w.rows && id in plans && w.rows[id].status.Deleting?
    requires Disjoint(plans) && AllSound(w, plans)
    requires other in plans && other != id
    ensures var after := Record(w, id, a, maxAttempts).0;
            && other in after.rows && after.rows[other] == w.rows[other] && Sound(after, other, plans[other])
            && At(after.objects, plans[other].source) == At(w.objects, plans[other].source)
            && At(after.objects, plans[other].trash) == At(w.objects, plans[other].trash)
  {
    assert Sound(w, id, plans[id]) && Sound(w, other, plans[other]);
    RecordTouchesOnlyItself(w, id, a, maxAttempts, plans[other].source);
    RecordTouchesOnlyItself(w, id, a, maxAttempts, plans[other].trash);
    var after := Record(w, id, a, maxAttempts).0;
    assert other in after.rows - {id} && (after.rows - {id})[other] == (w.rows - {id})[other];
  }

  lemma RecordKeepsAllSound(w: World, id: Id, a: Answers, maxAttempts: int, plans: map<Id, Plan>)
    requires id in w.rows && w.rows[id].status.Deleting?
    requires Disjoint(plans) && AllSound(w, plans)
    ensures AllSound(Record(w, id, a, maxAttempts).0, plans)
  {
    RecordStaysSound(w, id, a, maxAttempts, plans[id]);
    forall other | other in plans && other != id ensures Sound(Record(w, id, a, maxAttempts).0, other, plans[other]) {
      OthersStaySound(w, id, a, maxAttempts, plans, other);
    }
  }

  /** Every file stays sound through a pass, and every returned id is in the trash. */
  lemma {:induction false} PassKeepsAllSound(w: World, ids: seq<Id>,
                                             answers: nat -> Answers, maxAttempts: int, i: nat, plans: map<Id, Plan>)
    requires i <= |ids| && (forall id | id in ids :: id in w.rows) && Listed(w, ids, i)
    requires Disjoint(plans) && AllSound(w, plans)
    ensures var (after, returned) := Pass(w, ids, answers, maxAttempts, i);
            && AllSound(after, plans)
            && (returned.Some? ==>
                  forall id | id in returned.value :: id in ids[i..] && InTrash(after.objects, plans[id]))
    ensures forall id | id in plans && id !in ids[i..] ::
              InTrash(w.objects, plans[id]) ==> InTrash(Pass(w, ids, answers, maxAttempts, i).0.objects, plans[id])
    decreases |ids| - i
  {
    if i < |ids| {
      var id := ids[i];
      var (next, ending) := Record(w, id, answers(i), maxAttempts);
      RecordKeepsAllSound(w, id, answers(i), maxAttempts, plans);
      RecordStaysSound(w, id, answers(i), maxAttempts, plans[id]);
      forall other | other in plans && other != id
        ensures next.rows[other] == w.rows[other]
        ensures InTrash(w.objects, plans[other]) ==> InTrash(next.objects, plans[other])
      {
        OthersStaySound(w, id, answers(i), maxAttempts, plans, other);
        assert At(next.objects, plans[other].source).None? <==> plans[other].source !in next.objects;
      }
      assert ids[i..] == [id] + ids[i + 1..];
      if !ending.Threw? && !ending.Died? {
        PassKeepsAllSound(next, ids, answers, maxAttempts, i + 1, plans);
      }
    }
  }

  // ------------------------------------------------ many passes in a row

  datatype PassInput = PassInput(ids: seq<Id>, answers: nat -> Answers)

  /** The world after a list of passes, each over what was then listed. */
  ghost predicate Reaches(w: World, passes: seq<PassInput>, maxAttempts: int, end: World)
    decreases |passes|
  {
    if passes == [] then end == w
    else
      && Listed(w, passes[0].ids, 0)
      && Reaches(Pass(w, passes[0].ids, passes[0].answers, maxAttempts, 0).0, passes[1..], maxAttempts, end)
  }

  /** No pattern of failures, crashes and re-runs loses a file's bytes. */
  lemma {:induction false} RunsKeepEveryFile(w: World, passes: seq<PassInput>, maxAttempts: int, end: World,
                                             plans: map<Id, Plan>)
    requires Disjoint(plans) && AllSound(w, plans)
    requires Reaches(w, passes, maxAttempts, end)
    ensures AllSound(end, plans)
    decreases |passes|
  {
    if passes != [] {
      PassKeepsAllSound(w, passes[0].ids, passes[0].answers, maxAttempts, 0, plans);
      RunsKeepEveryFile(Pass(w, passes[0].ids, passes[0].answers, maxAttempts, 0).0, passes[1..], maxAttempts, end,
                        plans);
    }
  }

  // ------------------------------------- returned ids and finalized rows

  /** While no other pass runs, a reported record is a finalized one, and a finalized one is
      reported unless finalizing committed and then raised. */
  lemma ReportMatchesRow(w: World, id: Id, a: Answers, maxAttempts: int)
    requires id in w.rows && w.rows[id].status.Deleting? && Lawful(w.rows[id])
    ensures var (after, ending) := Record(w, id, a, maxAttempts);
            && (ending.Completed? ==> after.rows[id].status.Deleted?)
            && (after.rows[id].status.Deleted? && !ending.Completed? && !ending.Died? ==> a.finalize.RaiseAfter?)
            && (a.finalize.RaiseAfter? ==> !ending.Completed?)
  {
  }

  lemma OnlyItsRow(w: World, id: Id, a: Answers, maxAttempts: int)
    requires id in w.rows && AllLawful(w.rows)
    ensures var next := Record(w, id, a, maxAttempts).0;
            && next.rows.Keys == w.rows.Keys && AllLawful(next.rows)
            && forall other | other in w.rows && other != id :: next.rows[other] == w.rows[other]
  {
    RecordStepsOneRow(w, id, a, maxAttempts);
  }

  /** A pass changes no row but those it lists, and returns none but those. */
  lemma {:induction false} PassStaysInItsList(w: World, ids: seq<Id>, answers: nat -> Answers, maxAttempts: int, i: nat)
    requires i <= |ids| && (forall id | id in ids :: id in w.rows) && AllLawful(w.rows)
    ensures var (after, returned) := Pass(w, ids, answers, maxAttempts, i);
            && (forall id | id in w.rows && id !in ids[i..] :: after.rows[id] == w.rows[id])
            && (returned.Some? ==> forall id | id in returned.value :: id in ids[i..])
    decreases |ids| - i
  {
    if i < |ids| {
      var (next, ending) := Record(w, ids[i], answers(i), maxAttempts);
      OnlyItsRow(w, ids[i], answers(i), maxAttempts);
      assert ids[i..] == [ids[i]] + ids[i + 1..];
      if !ending.Threw? && !ending.Died? {
        PassStaysInItsList(next, ids, answers, maxAttempts, i + 1);
      }
    }
  }

  lemma {:induction false} ListedIsReturnedExactlyWhen(w: World, ids: seq<Id>, answers: nat -> Answers,
                                                       maxAttempts: int, i: nat, k: nat)
    requires i <= k < |ids| && (forall id | id in ids :: id in w.rows) && Listed(w, ids, i) && AllLawful(w.rows)
    ensures var (after, returned) := Pass(w, ids, answers, maxAttempts, i);
            returned.Some? ==>
              (ids[k] in returned.value <==> after.rows[ids[k]].status.Deleted? && !answers(k).finalize.RaiseAfter?)
    decreases |ids| - i
  {
    var id := ids[i];
    var (next, ending) := Record(w, id, answers(i), maxAttempts);
    ReportMatchesRow(w, id, answers(i), maxAttempts);
    OnlyItsRow(w, id, answers(i), maxAttempts);
    if !ending.Threw? && !ending.Died? {
      PassStaysInItsList(next, ids, answers, maxAttempts, i + 1);
      assert id !in ids[i + 1..];
      if i < k {
        ListedIsReturnedExactlyWhen(next, ids, answers, maxAttempts, i + 1, k);
      }
    }
  }

  /** The ids a pass returns are the rows it finalized, except exactly those whose finalizing
      raised after its commit. */
  lemma ReturnedIdsAreTheFinalized(w: World, ids: seq<Id>, answers: nat -> Answers, maxAttempts: int)
    requires (forall id | id in ids :: id in w.rows) && Listed(w, ids, 0) && AllLawful(w.rows)
    ensures var (after, returned) := Pass(w, ids, answers, maxAttempts, 0);
            returned.Some? ==>
              && (forall id | id in returned.value :: id in ids)
              && forall k | 0 <= k < |ids| ::
                   ids[k] in returned.value <==> after.rows[ids[k]].status.Deleted? && !answers(k).finalize.RaiseAfter?
  {
    PassStaysInItsList(w, ids, answers, maxAttempts, 0);
    assert ids[0..] == ids;
    forall k | 0 <= k < |ids|
      ensures var (after, returned) := Pass(w, ids, answers, maxAttempts, 0);
              returned.Some? ==>
                (ids[k] in returned.value <==> after.rows[ids[k]].status.Deleted? && !answers(k).finalize.RaiseAfter?)
    {
      ListedIsReturnedExactlyWhen(w, ids, answers, maxAttempts, 0, k);
    }
  }

  /** Every step up to finalizing goes through. */
  predicate ReachesFinalize(a: Answers) {
    && a.revalidation.Passed? && a.space.Passed? && a.headSource.Fine? && a.headTrash.Fine?
    && a.copy.Fine? && a.headCopy.Fine? && a.delete.Fine? && a.recordFailure.Fine?
  }

  /** An undisturbed pass finalizes everything it was given. */
  predicate Undisturbed(a: Answers) {
    ReachesFinalize(a) && a.finalize.Fine?
  }

  lemma {:induction false} UndisturbedPassFinalizesAll(w: World, ids: seq<Id>, answers: nat -> Answers,
                                                       maxAttempts: int, i: nat, plans: map<Id, Plan>)
    requires i <= |ids| && (forall id | id in ids :: id in w.rows) && Listed(w, ids, i)
    requires Disjoint(plans) && AllSound(w, plans)
    requires forall k | i <= k < |ids| :: Undisturbed(answers(k))
    ensures Pass(w, ids, answers, maxAttempts, i).1 == Some(ids[i..])
    decreases |ids| - i
  {
    if i < |ids| {
      var id := ids[i];
      assert Sound(w, id, plans[id]);
      RecordKeepsAllSound(w, id, answers(i), maxAttempts, plans);
      forall other | other in plans && other != id
        ensures Record(w, id, answers(i), maxAttempts).0.rows[other] == w.rows[other]
      {
        OthersStaySound(w, id, answers(i), maxAttempts, plans, other);
      }
      UndisturbedPassFinalizesAll(Record(w, id, answers(i), maxAttempts).0, ids, answers, maxAttempts, i + 1, plans);
      assert ids[i..] == [id] + ids[i + 1..];
    }
  }
}
