/** FileOperationWorker._execute: the copy, move, rename and delete executor, re-run
    after every crash and every failed storage call. */
module OperationWorker {
  import opened Wrappers
  import opened ObjectStore

  datatype OperationKind = CopyOperation | MoveOperation | RenameOperation | DeleteOperation | OtherOperation

  /** Keys are provider keys; expectedSize and expectedChecksum are the integrity
      evidence recorded with a rename. */
  datatype Operation = Operation(
    kind: OperationKind,
    source: Option<Key>,
    destination: Option<Key>,
    keys: seq<Key>,
    expectedSize: Option<nat>,
    expectedChecksum: Option<string>)
  {
    predicate Transfers() {
      (kind.CopyOperation? || kind.MoveOperation? || kind.RenameOperation?) && source.Some? && destination.Some?
    }

    predicate RemovesSource() {
      kind.MoveOperation? || kind.RenameOperation?
    }
  }

  datatype Status = StatusSucceeded | StatusCancelled | StatusFailed | StatusRetryWait | StatusPartialFailure

  /** What an attempt comes to: a status with its reason, an exception that leaves
      execute, or the death of the process. */
  datatype Outcome = Settled(status: Status, reason: string) | Propagated | Died

  const SUCCEEDED := Settled(StatusSucceeded, "")
  const UNAVAILABLE := Settled(StatusRetryWait, "object_storage_unavailable")

  /** One authorization question, asked at the moment it matters. */
  datatype Check = Granted | Denied | CheckRaised | CheckCrashed

  /** Subject, space, namespace and profile checks made before storage is touched. */
  datatype Admission = Admitted | Refused(reason: string) | AdmissionRaised | AdmissionCrashed

  datatype KeyAnswers = KeyAnswers(mayDelete: Check, derivable: bool, delete: Fault)

  /** Everything the outside world answers during one attempt. */
  datatype Answers = Answers(
    admission: Admission,
    mayRead: Check,
    mayWrite: Check,
    mayMove: Check,
    mayDelete: Check,
    derivable: bool,
    headSource: Fault,
    headDestination: Fault,
    copy: Fault,
    stamp: Stamp,
    headCopy: Fault,
    record: Fault,
    delete: Fault,
    perKey: nat -> KeyAnswers)

  // -------------------------------------------------------- specification

  /** Inside the try block an exception becomes a retry; a crash ends everything. */
  function Interrupted<T>(reply: Reply<T>): (o: Outcome)
    requires !reply.Returned?
  {
    if reply.Raised? then UNAVAILABLE else Died
  }

  function Ask(check: Check, denial: Outcome): (o: Option<Outcome>) {
    match check
    case Granted => None
    case Denied => Some(denial)
    case CheckRaised => Some(UNAVAILABLE)
    case CheckCrashed => Some(Died)
  }

  /** Read before write before, for a rename, move; the first objection counts. */
  function Objection(op: Operation, a: Answers): (o: Option<Outcome>) {
    var revoked := Settled(StatusCancelled, "authorization_revoked");
    if Ask(a.mayRead, revoked).Some? then Ask(a.mayRead, revoked)
    else if Ask(a.mayWrite, revoked).Some? then Ask(a.mayWrite, revoked)
    else if op.kind.RenameOperation? then Ask(a.mayMove, revoked)
    else None
  }

  /** The guard between copying and deleting: what the attempt reports instead of
      going on when the destination does not look like the source. */
  function Mismatch(op: Operation, source: Option<Blob>, destination: Blob): (o: Option<Outcome>) {
    var rename := op.kind.RenameOperation?;
    if rename && op.expectedSize.Some? && |destination.body| != op.expectedSize.value then
      Some(Settled(StatusRetryWait, "rename_content_length_mismatch"))
    else if source.Some? && |source.value.body| != |destination.body| then
      Some(Settled(StatusRetryWait, "copy_verification_failed"))
    else if rename && op.expectedChecksum.Some? && destination.stamp.checksum != op.expectedChecksum then
      Some(Settled(StatusRetryWait, "rename_checksum_mismatch"))
    else if rename && source.Some? && source.value.stamp.checksum.Some?
            && destination.stamp.checksum != source.value.stamp.checksum then
      Some(Settled(StatusRetryWait, "rename_checksum_mismatch"))
    else None
  }

  function Attempt(objects: Objects, op: Operation, a: Answers): (r: (Objects, Outcome)) {
    match a.admission
    case Refused(reason) => (objects, Settled(StatusCancelled, reason))
    case AdmissionRaised => (objects, Propagated)
    case AdmissionCrashed => (objects, Died)
    case Admitted =>
      match op.kind
      case DeleteOperation => DeleteFrom(objects, op.keys, a, 0)
      case OtherOperation => (objects, Settled(StatusFailed, "unsupported_operation"))
      case _ =>
        if op.source.None? || op.destination.None? then (objects, Settled(StatusFailed, "operation_keys_missing"))
        else if Objection(op, a).Some? then (objects, Objection(op, a).value)
        else if !a.derivable then (objects, Settled(StatusCancelled, "storage_target_unverifiable"))
        else Transfer(objects, op, a)
  }

  function Transfer(objects: Objects, op: Operation, a: Answers): (r: (Objects, Outcome))
    requires op.Transfers()
  {
    var source, destination := op.source.value, op.destination.value;
    var headSource := Answer(a.headSource, At(objects, source));
    if !headSource.Returned? then (objects, Interrupted(headSource))
    else
      var headDestination := Answer(a.headDestination, At(objects, destination));
      if !headDestination.Returned? then (objects, Interrupted(headDestination))
      else if headDestination.value.Some? then
        Finish(objects, op, a, headSource.value, headDestination.value.value)
      else if headSource.value.None? then (objects, Settled(StatusFailed, "source_object_missing"))
      else
        var (copied, reply) := AfterCopy(objects, source, destination, a.stamp, a.copy);
        if !reply.Returned? then (copied, Interrupted(reply))
        else
          var headCopy := Answer(a.headCopy, At(copied, destination));
          if !headCopy.Returned? then (copied, Interrupted(headCopy))
          else if headCopy.value.None? then (copied, Settled(StatusRetryWait, "copy_verification_failed"))
          else Finish(copied, op, a, headSource.value, headCopy.value.value)
  }

  function Finish(objects: Objects, op: Operation, a: Answers, source: Option<Blob>,
                  destination: Blob): (r: (Objects, Outcome))
    requires op.Transfers()
  {
    if Mismatch(op, source, destination).Some? then (objects, Mismatch(op, source, destination).value)
    else if op.kind.RenameOperation? && !a.record.Fine? then (objects, Interrupted(Answer(a.record, ())))
    else if !op.RemovesSource() || source.None? then (objects, SUCCEEDED)
    else
      var objection := Ask(a.mayDelete, Settled(StatusPartialFailure, "source_delete_authorization_revoked"));
      if objection.Some? then (objects, objection.value)
      else
        var (deleted, reply) := AfterDelete(objects, op.source.value, a.delete);
        match reply
        case Returned(_) => (deleted, SUCCEEDED)
        case Raised => (deleted, Settled(StatusPartialFailure, "source_delete_failed"))
        case Crashed => (deleted, Died)
  }

  function DeleteFrom(objects: Objects, keys: seq<Key>, a: Answers, i: nat): (r: (Objects, Outcome))
    requires i <= |keys|
    decreases |keys| - i
  {
    if i == |keys| then (objects, SUCCEEDED)
    else
      var answers := a.perKey(i);
      var objection := Ask(answers.mayDelete, Settled(StatusCancelled, "authorization_revoked"));
      if objection.Some? then (objects, objection.value)
      else if !answers.derivable then (objects, Settled(StatusCancelled, "storage_target_unverifiable"))
      else
        var (deleted, reply) := AfterDelete(objects, keys[i], answers.delete);
        if reply.Returned? then DeleteFrom(deleted, keys, a, i + 1) else (deleted, Interrupted(reply))
  }

  // ------------------------------------------------------------- executor

  class FileOperationWorker {
    const storage: ObjectStorage

    constructor (storage: ObjectStorage)
      ensures this.storage == storage
    {
      this.storage := storage;
    }

    method Execute(op: Operation, a: Answers) returns (outcome: Outcome)
      modifies storage
      ensures (storage.objects, outcome) == Attempt(old(storage.objects), op, a)
    {
      match a.admission {
        case Refused(reason) => return Settled(StatusCancelled, reason);
        case AdmissionRaised => return Propagated;
        case AdmissionCrashed => return Died;
        case Admitted =>
      }
      if op.kind.DeleteOperation? {
        outcome := DeleteKeys(op.keys, a);
        return;
      }
      if op.kind.OtherOperation? {
        return Settled(StatusFailed, "unsupported_operation");
      }
      if op.source.None? || op.destination.None? {
        return Settled(StatusFailed, "operation_keys_missing");
      }
      if Objection(op, a).Some? {
        return Objection(op, a).value;
      }
      if !a.derivable {
        return Settled(StatusCancelled, "storage_target_unverifiable");
      }
      var source, destination := op.source.value, op.destination.value;
      var headSource := storage.Head(source, a.headSource);
      if !headSource.Returned? {
        return Interrupted(headSource);
      }
      var headDestination := storage.Head(destination, a.headDestination);
      if !headDestination.Returned? {
        return Interrupted(headDestination);
      }
      var sourceState, destinationState := headSource.value, headDestination.value;
      if destinationState.None? {
        if sourceState.None? {
          return Settled(StatusFailed, "source_object_missing");
        }
        var copied := storage.Copy(source, destination, a.stamp, a.copy);
        if !copied.Returned? {
          return Interrupted(copied);
        }
        var headCopy := storage.Head(destination, a.headCopy);
        if !headCopy.Returned? {
          return Interrupted(headCopy);
        }
        destinationState := headCopy.value;
        if destinationState.None? {
          return Settled(StatusRetryWait, "copy_verification_failed");
        }
      }
      if Mismatch(op, sourceState, destinationState.value).Some? {
        return Mismatch(op, sourceState, destinationState.value).value;
      }
      if op.kind.RenameOperation? && !a.record.Fine? {
        return Interrupted(Answer(a.record, ()));
      }
      if op.RemovesSource() {
        if sourceState.None? {
          return SUCCEEDED;
        }
        var objection := Ask(a.mayDelete, Settled(StatusPartialFailure, "source_delete_authorization_revoked"));
        if objection.Some? {
          return objection.value;
        }
        var deleted := storage.Delete(source, a.delete);
        if deleted.Crashed? {
          return Died;
        }
        if deleted.Raised? {
          return Settled(StatusPartialFailure, "source_delete_failed");
        }
      }
      return SUCCEEDED;
    }

    method DeleteKeys(keys: seq<Key>, a: Answers) returns (outcome: Outcome)
      modifies storage
      ensures (storage.objects, outcome) == DeleteFrom(old(storage.objects), keys, a, 0)
    {
      for i := 0 to |keys|
        invariant DeleteFrom(storage.objects, keys, a, i) == DeleteFrom(old(storage.objects), keys, a, 0)
      {
        var answers := a.perKey(i);
        var objection := Ask(answers.mayDelete, Settled(StatusCancelled, "authorization_revoked"));
        if objection.Some? {
          return objection.value;
        }
        if !answers.derivable {
          return Settled(StatusCancelled, "storage_target_unverifiable");
        }
        var reply := storage.Delete(keys[i], answers.delete);
        if !reply.Returned? {
          return Interrupted(reply);
        }
      }
      return SUCCEEDED;
    }
  }

  // ---------------------------------------------------- nothing goes unasked

  /** A question that was not answered yes ends the attempt before storage is touched. */
  predicate EndedBy(check: Check, objects: Objects, r: (Objects, Outcome)) {
    && r.0 == objects
    && (check.Denied? ==> r.1 == Settled(StatusCancelled, "authorization_revoked"))
    && (check.CheckRaised? ==> r.1 == Settled(StatusRetryWait, "object_storage_unavailable"))
    && (check.CheckCrashed? ==> r.1 == Died)
  }

  /** An admitted transfer comes to storage only when reading the source, writing the
      destination and, for a rename, moving are granted and both targets can be derived.
      Otherwise the first of these that is not decides, and the store is as it was. */
  lemma TransferAsksFirst(objects: Objects, op: Operation, a: Answers)
    requires op.Transfers() && a.admission.Admitted?
    ensures var r := Attempt(objects, op, a);
            && (r.0 != objects || r.1 == SUCCEEDED ==>
                  && a.mayRead == Granted && a.mayWrite == Granted && a.derivable
                  && (op.kind.RenameOperation? ==> a.mayMove == Granted))
            && (a.mayRead != Granted ==> EndedBy(a.mayRead, objects, r))
            && (a.mayRead == Granted && a.mayWrite != Granted ==> EndedBy(a.mayWrite, objects, r))
            && (a.mayRead == a.mayWrite == Granted ==>
                  && (op.kind.RenameOperation? && a.mayMove != Granted ==> EndedBy(a.mayMove, objects, r))
                  && ((op.kind.RenameOperation? ==> a.mayMove == Granted) && !a.derivable ==>
                        r == (objects, Settled(StatusCancelled, "storage_target_unverifiable"))))
  {
    if a.mayRead.Granted? && a.mayWrite.Granted? && (op.kind.RenameOperation? ==> a.mayMove.Granted?) {
      assert Objection(op, a).None?;
    }
  }

  /** Whoever is not admitted, or asks for something else, changes nothing. */
  lemma OnlyAdmittedTransfersWork(objects: Objects, op: Operation, a: Answers)
    ensures var r := Attempt(objects, op, a);
            && (a.admission.Refused? ==> r == (objects, Settled(StatusCancelled, a.admission.reason)))
            && (a.admission.AdmissionRaised? ==> r == (objects, Propagated))
            && (a.admission.AdmissionCrashed? ==> r == (objects, Died))
            && (a.admission.Admitted? && op.kind.OtherOperation? ==>
                  r == (objects, Settled(StatusFailed, "unsupported_operation")))
            && (a.admission.Admitted? && !op.kind.OtherOperation? && !op.kind.DeleteOperation? && !op.Transfers() ==>
                  r == (objects, Settled(StatusFailed, "operation_keys_missing")))
  {
  }

  /** The source leaves the store only of a move or rename, and only when deleting it was
      granted at the moment of the deletion. */
  lemma SourceLeavesOnlyIfGranted(objects: Objects, op: Operation, a: Answers)
    requires op.Transfers() && op.source.value in objects && op.source.value !in Attempt(objects, op, a).0
    ensures (op.kind.MoveOperation? || op.kind.RenameOperation?) && a.mayDelete == Granted
  {
  }

  /** Nothing objects and nothing fails. */
  predicate Undisturbed(a: Answers) {
    && a.admission.Admitted? && a.mayRead.Granted? && a.mayWrite.Granted? && a.mayMove.Granted?
    && a.mayDelete.Granted? && a.derivable && a.headSource.Fine? && a.headDestination.Fine?
    && a.copy.Fine? && a.headCopy.Fine? && a.record.Fine? && a.delete.Fine?
  }

  /** What an undisturbed attempt reports. It succeeds exactly when there is something to
      copy or a destination, as long as its source and, for a rename, of the recorded length
      and with the recorded checksum and the source's own. */
  lemma UndisturbedOutcome(objects: Objects, op: Operation, a: Answers)
    requires op.Transfers() && op.source != op.destination && Undisturbed(a)
    ensures var source, destination := op.source.value, op.destination.value;
            var outcome := Attempt(objects, op, a).1;
            if source !in objects && destination !in objects then
              outcome == Settled(StatusFailed, "source_object_missing")
            else
              var found := if destination in objects then objects[destination] else Blob(objects[source].body, a.stamp);
              if op.kind == RenameOperation && op.expectedSize != None && op.expectedSize != Some(|found.body|) then
                outcome == Settled(StatusRetryWait, "rename_content_length_mismatch")
              else if source in objects && |objects[source].body| != |found.body| then
                outcome == Settled(StatusRetryWait, "copy_verification_failed")
              else if op.kind == RenameOperation && op.expectedChecksum != None
                      && op.expectedChecksum != found.stamp.checksum then
                outcome == Settled(StatusRetryWait, "rename_checksum_mismatch")
              else if op.kind == RenameOperation && source in objects && objects[source].stamp.checksum != None
                      && objects[source].stamp.checksum != found.stamp.checksum then
                outcome == Settled(StatusRetryWait, "rename_checksum_mismatch")
              else outcome == Settled(StatusSucceeded, "")
  {
  }

  /** When all else goes well, that question and the deletion decide what is reported. */
  lemma DeletionDecidesOutcome(objects: Objects, op: Operation, a: Answers, body: seq<Text.byte>)
    requires op.Transfers() && (op.kind.MoveOperation? || op.kind.RenameOperation?)
    requires OnCourse(objects, op, body) && op.source.value in objects
    requires Undisturbed(a.(mayDelete := Granted, delete := Fine))
    requires Attempt(objects, op, a.(mayDelete := Granted, delete := Fine)).1 == SUCCEEDED
    ensures var (after, outcome) := Attempt(objects, op, a);
            && Holds(after, op.destination.value, body)
            && (a.mayDelete != Granted ==> op.source.value in after)
            && (a.mayDelete == Denied ==>
                  outcome == Settled(StatusPartialFailure, "source_delete_authorization_revoked"))
            && (a.mayDelete == CheckRaised ==> outcome == Settled(StatusRetryWait, "object_storage_unavailable"))
            && (a.mayDelete == CheckCrashed ==> outcome == Died)
            && (a.mayDelete == Granted ==>
                  && (op.source.value in after <==> a.delete.RaiseBefore? || a.delete.CrashBefore?)
                  && (a.delete.RaiseBefore? || a.delete.RaiseAfter? ==>
                        outcome == Settled(StatusPartialFailure, "source_delete_failed"))
                  && (a.delete.CrashBefore? || a.delete.CrashAfter? ==> outcome == Died))
  {
    var b := a.(mayDelete := Granted, delete := Fine);
    assert Transfer(objects, op, b).1 == SUCCEEDED;
  }

  /** A delete removes a key only when it was granted for that key, and what stops it is
      what it reports. */
  lemma {:induction false} KeyLeavesOnlyIfGranted(objects: Objects, keys: seq<Key>, a: Answers, i: nat, key: Key)
    requires i <= |keys| && key in objects && key !in DeleteFrom(objects, keys, a, i).0
    ensures exists k | i <= k < |keys| :: keys[k] == key && a.perKey(k).mayDelete == Granted && a.perKey(k).derivable
    decreases |keys| - i
  {
    if keys[i] != key || key in AfterDelete(objects, keys[i], a.perKey(i).delete).0 {
      KeyLeavesOnlyIfGranted(AfterDelete(objects, keys[i], a.perKey(i).delete).0, keys, a, i + 1, key);
    }
  }

  /** The first key that is not granted, derived or deleted decides what a delete reports. */
  lemma {:induction false} FirstObstacleDecides(objects: Objects, keys: seq<Key>, a: Answers, i: nat, n: nat)
    requires i <= n <= |keys|
    requires forall k | i <= k < n ::
               a.perKey(k).mayDelete == Granted && a.perKey(k).derivable && a.perKey(k).delete == Fine
    ensures var outcome := DeleteFrom(objects, keys, a, i).1;
            && (n == |keys| ==> outcome == Settled(StatusSucceeded, ""))
            && (n < |keys| ==>
                  var stop := a.perKey(n);
                  && (stop.mayDelete == Denied ==> outcome == Settled(StatusCancelled, "authorization_revoked"))
                  && (stop.mayDelete == CheckRaised ==>
                        outcome == Settled(StatusRetryWait, "object_storage_unavailable"))
                  && (stop.mayDelete == CheckCrashed ==> outcome == Died)
                  && (stop.mayDelete == Granted && !stop.derivable ==>
                        outcome == Settled(StatusCancelled, "storage_target_unverifiable"))
                  && (stop.mayDelete == Granted && stop.derivable ==>
                        && (stop.delete.RaiseBefore? || stop.delete.RaiseAfter? ==>
                              outcome == Settled(StatusRetryWait, "object_storage_unavailable"))
                        && (stop.delete.CrashBefore? || stop.delete.CrashAfter? ==> outcome == Died)))
    decreases n - i
  {
    if i < n {
      assert a.perKey(i).delete == Fine;
      FirstObstacleDecides(AfterDelete(objects, keys[i], Fine).0, keys, a, i + 1, n);
    }
  }

  // ------------------------------------------------- many attempts in a row

  /** The store after one attempt per entry; a crash ends an attempt where it struck. */
  function Run(objects: Objects, op: Operation, attempts: seq<Answers>): (r: Objects)
    decreases |attempts|
  {
    if attempts == [] then objects else Run(Attempt(objects, op, attempts[0]).0, op, attempts[1..])
  }

  predicate Holds(objects: Objects, key: Key, body: seq<Text.byte>) {
    key in objects && objects[key].body == body
  }

  /** The bytes are still somewhere the operation can find them. */
  predicate Kept(objects: Objects, op: Operation, body: seq<Text.byte>)
    requires op.Transfers()
  {
    Holds(objects, op.source.value, body) || Holds(objects, op.destination.value, body)
  }

  /** The transfer has not been disturbed: the source holds the bytes or is gone after
      the destination took them, and a present destination equals the original. */
  predicate OnCourse(objects: Objects, op: Operation, body: seq<Text.byte>)
    requires op.Transfers()
  {
    var source, destination := op.source.value, op.destination.value;
    && source != destination
    && (source in objects ==> Holds(objects, source, body))
    && (destination in objects ==> Holds(objects, destination, body))
    && (source in objects || destination in objects)
    && (op.kind.CopyOperation? ==> source in objects)
  }

  /** Another object sits at the destination and the guard sees that it does. */
  predicate Blocked(objects: Objects, op: Operation, body: seq<Text.byte>)
    requires op.Transfers()
  {
    var source, destination := op.source.value, op.destination.value;
    && Holds(objects, source, body)
    && destination in objects
    && Mismatch(op, Some(objects[source]), objects[destination]).Some?
  }

  lemma AttemptStaysOnCourse(objects: Objects, op: Operation, a: Answers, body: seq<Text.byte>)
    requires op.Transfers() && OnCourse(objects, op, body)
    ensures OnCourse(Attempt(objects, op, a).0, op, body)
  {
  }

  lemma AttemptLeavesBlockedAlone(objects: Objects, op: Operation, a: Answers, body: seq<Text.byte>)
    requires op.Transfers() && Blocked(objects, op, body)
    ensures Attempt(objects, op, a).0 == objects
  {
  }

  /** No run of attempts, however interrupted, loses or alters the bytes. */
  lemma {:induction false} RunStaysOnCourse(objects: Objects, op: Operation, attempts: seq<Answers>,
                                            body: seq<Text.byte>)
    requires op.Transfers() && OnCourse(objects, op, body)
    ensures OnCourse(Run(objects, op, attempts), op, body)
    ensures Kept(Run(objects, op, attempts), op, body)
    decreases |attempts|
  {
    if attempts != [] {
      AttemptStaysOnCourse(objects, op, attempts[0], body);
      RunStaysOnCourse(Attempt(objects, op, attempts[0]).0, op, attempts[1..], body);
    }
  }

  lemma {:induction false} RunLeavesBlockedAlone(objects: Objects, op: Operation, attempts: seq<Answers>,
                                                 body: seq<Text.byte>)
    requires op.Transfers() && Blocked(objects, op, body)
    ensures Run(objects, op, attempts) == objects
    decreases |attempts|
  {
    if attempts != [] {
      AttemptLeavesBlockedAlone(objects, op, attempts[0], body);
      RunLeavesBlockedAlone(objects, op, attempts[1..], body);
    }
  }

  /** Only the two keys of the operation are ever touched. */
  lemma {:induction false} RunTouchesOnlyItsKeys(objects: Objects, op: Operation, attempts: seq<Answers>, other: Key)
    requires op.Transfers() && other != op.source.value && other != op.destination.value
    ensures At(Run(objects, op, attempts), other) == At(objects, other)
    decreases |attempts|
  {
    if attempts != [] {
      var after := Attempt(objects, op, attempts[0]).0;
      assert At(after, other) == At(objects, other);
      RunTouchesOnlyItsKeys(after, op, attempts[1..], other);
    }
  }

  /** A reported success is a finished transfer. */
  lemma SuccessMeansTransferred(objects: Objects, op: Operation, a: Answers, body: seq<Text.byte>)
    requires op.Transfers() && OnCourse(objects, op, body)
    requires Attempt(objects, op, a).1 == SUCCEEDED
    ensures var after := Attempt(objects, op, a).0;
            && Holds(after, op.destination.value, body)
            && (op.source.value in after <==> op.kind.CopyOperation?)
  {
  }

  /** What the destination reads as once it has been written. */
  function Written(objects: Objects, op: Operation, a: Answers, body: seq<Text.byte>): (b: Blob)
    requires op.Transfers()
  {
    if op.destination.value in objects then objects[op.destination.value] else Blob(body, a.stamp)
  }

  /** From wherever earlier attempts stopped, one undisturbed attempt completes the
      operation; only a rename can still be held back, and then by its integrity check. */
  lemma {:induction false} RunCanAlwaysBeFinished(objects: Objects, op: Operation, attempts: seq<Answers>, a: Answers,
                                                  body: seq<Text.byte>)
    requires op.Transfers() && OnCourse(objects, op, body) && Undisturbed(a)
    ensures var stopped := Run(objects, op, attempts);
            Attempt(stopped, op, a).1 == SUCCEEDED <==>
            (op.kind.RenameOperation? ==>
               Mismatch(op, At(stopped, op.source.value), Written(stopped, op, a, body)).None?)
  {
    RunStaysOnCourse(objects, op, attempts, body);
  }

  /** The bytes of a move or rename survive every run exactly when the keys differ and
      the destination is free or already equal, or the guard recognises the clash. */
  lemma SurvivesExactlyWhen(objects: Objects, op: Operation, body: seq<Text.byte>)
    requires op.Transfers() && op.RemovesSource() && Holds(objects, op.source.value, body)
    ensures (forall attempts :: Kept(Run(objects, op, attempts), op, body))
            <==> OnCourse(objects, op, body) || Blocked(objects, op, body)
  {
    if OnCourse(objects, op, body) || Blocked(objects, op, body) {
      forall attempts ensures Kept(Run(objects, op, attempts), op, body) {
        if OnCourse(objects, op, body) {
          RunStaysOnCourse(objects, op, attempts, body);
        } else {
          RunLeavesBlockedAlone(objects, op, attempts, body);
        }
      }
    } else {
      UnguardedClashLosesTheBytes(objects, op, body);
    }
  }

  lemma UnguardedClashLosesTheBytes(objects: Objects, op: Operation, body: seq<Text.byte>)
    requires op.Transfers() && op.RemovesSource() && Holds(objects, op.source.value, body)
    requires !OnCourse(objects, op, body) && !Blocked(objects, op, body)
    ensures exists attempts :: !Kept(Run(objects, op, attempts), op, body)
  {
    var a := Answers(Admitted, Granted, Granted, Granted, Granted, true, Fine, Fine, Fine, Stamp(None, None),
                     Fine, Fine, Fine, _ => KeyAnswers(Granted, true, Fine));
    var after := Attempt(objects, op, a).0;
    assert after == objects - {op.source.value};
    assert Run(objects, op, [a]) == Run(after, op, []) == after;
  }

  /** The family behind the first half of the condition, which the executor leaves to the
      creation of operations: moving a key onto itself. */
  lemma MoveOntoItselfDeletes(objects: Objects, key: Key, a: Answers)
    requires key in objects && Undisturbed(a)
    ensures var op := Operation(MoveOperation, Some(key), Some(key), [], None, None);
            Attempt(objects, op, a) == (objects - {key}, SUCCEEDED)
  {
  }

  // ------------------------------------------------------ deleting keys

  lemma SliceSplits(keys: seq<Key>, i: nat, n: nat)
    requires i < n <= |keys|
    ensures keys[i..n] == [keys[i]] + keys[i + 1..n]
  {
  }

  /** A delete removes a leading part of its keys and nothing else; success, all of them. */
  lemma {:induction false} DeleteRemovesAPrefix(objects: Objects, keys: seq<Key>, a: Answers, i: nat) returns (n: nat)
    requires i <= |keys|
    ensures i <= n <= |keys|
    ensures forall k :: At(DeleteFrom(objects, keys, a, i).0, k) == if k in keys[i..n] then None else At(objects, k)
    ensures DeleteFrom(objects, keys, a, i).1 == SUCCEEDED ==> n == |keys|
    decreases |keys| - i
  {
    var (after, outcome) := DeleteFrom(objects, keys, a, i);
    n := i;
    if i < |keys| && a.perKey(i).mayDelete.Granted? && a.perKey(i).derivable {
      var fault := a.perKey(i).delete;
      if fault.Fine? {
        n := DeleteRemovesAPrefix(objects - {keys[i]}, keys, a, i + 1);
      } else if fault.TakesEffect() {
        n := i + 1;
      }
      if n > i {
        SliceSplits(keys, i, n);
      }
    }
  }
}
