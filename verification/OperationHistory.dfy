/** Histories of copies, moves and renames in one storage space: any number of operations
    and attempts, interleaved call by call, with the uploads, settlements, recoveries and
    replays around them. */
module OperationHistory {
  import opened Wrappers
  import opened ObjectStore
  import C = OperationCreation
  import W = OperationWorker
  import Text

  type Bytes = seq<Text.byte>

  /** The next call of an attempt whose first checks have passed. */
  datatype Stage =
    | MustHeadSource
    | MustHeadDestination(seen: Option<Blob>)
    | MustCopy(source: Blob)
    | MustHeadCopy(source: Blob)
    | MustRecord(seen: Option<Blob>)
    | MustDelete
    | Ended(success: bool)

  datatype Attempt = Attempt(op: nat, answers: W.Answers, stage: Stage)

  datatype Phase = Open | Closed(ending: C.Ending)

  /** An operation with the row of its source and what it is to carry: the bytes its source
      held when it was created or replayed, or nothing. */
  datatype Entry = Entry(op: W.Operation, row: nat, renames: Option<C.Renames>, body: Option<Bytes>, phase: Phase)

  /** files says which bytes a key is to hold: those of every file at its key and, once an
      attempt succeeded or took the source away, at the destination instead. */
  datatype World = World(
    objects: Objects,
    tables: C.Tables,
    operations: seq<Entry>,
    attempts: seq<Attempt>,
    files: map<Key, Bytes>)

  datatype Event =
    | CreateTransfer(move: bool, source: Key, destination: Key)
    | CreateRename(row: nat, destination: Key, size: Option<nat>, checksum: Option<string>)
    | Begin(id: nat, answers: W.Answers)
    | Step(attempt: nat)
    | Settle(id: nat, ending: C.Ending)
    | TimeOut(id: nat)               // recovery gives up; claims and reservations stay
    | Replay(id: nat)                // and are not taken again here
    | Put(key: Key, blob: Blob)      // a client writes through a signed URL
    | Commit(key: Key)               // an uploaded object becomes a file

  // ------------------------------------------------------------ one attempt

  datatype Local = Local(objects: Objects, files: map<Key, Bytes>, stage: Stage)

  function Reported(e: Entry, files: map<Key, Bytes>): (after: map<Key, Bytes>)
    requires e.op.Transfers()
  {
    if e.body.Some? then files[e.op.destination.value := e.body.value] else files
  }

  function HandedOver(e: Entry, files: map<Key, Bytes>): (after: map<Key, Bytes>)
    requires e.op.Transfers()
  {
    Reported(e, files - {e.op.source.value})
  }

  function Concluded(e: Entry, l: Local, seen: Option<Blob>): (after: Local)
    requires e.op.Transfers()
  {
    if !e.op.RemovesSource() || seen.None? then Local(l.objects, Reported(e, l.files), Ended(true))
    else l.(stage := MustDelete)
  }

  function Checked(e: Entry, l: Local, seen: Option<Blob>, destination: Blob): (after: Local)
    requires e.op.Transfers()
  {
    if W.Mismatch(e.op, seen, destination).Some? then l.(stage := Ended(false))
    else if e.op.kind.RenameOperation? then l.(stage := MustRecord(seen))
    else Concluded(e, l, seen)
  }

  /** One call of _execute and what it decides before the next. */
  function Stepped(e: Entry, l: Local, a: W.Answers): (after: Local)
    requires e.op.Transfers()
  {
    var source, destination := e.op.source.value, e.op.destination.value;
    match l.stage
    case MustHeadSource =>
      l.(stage := if a.headSource.Fine? then MustHeadDestination(At(l.objects, source)) else Ended(false))
    case MustHeadDestination(seen) =>
      if !a.headDestination.Fine? then l.(stage := Ended(false))
      else if destination in l.objects then Checked(e, l, seen, l.objects[destination])
      else l.(stage := if seen.None? then Ended(false) else MustCopy(seen.value))
    case MustCopy(seen) =>
      var (copied, reply) := AfterCopy(l.objects, source, destination, a.stamp, a.copy);
      Local(copied, l.files, if reply.Returned? then MustHeadCopy(seen) else Ended(false))
    case MustHeadCopy(seen) =>
      if !a.headCopy.Fine? || destination !in l.objects then l.(stage := Ended(false))
      else Checked(e, l, Some(seen), l.objects[destination])
    case MustRecord(seen) =>
      if a.record.Fine? then Concluded(e, l, seen) else l.(stage := Ended(false))
    case MustDelete =>
      if !a.mayDelete.Granted? then l.(stage := Ended(false))
      else
        Local(AfterDelete(l.objects, source, a.delete).0,
              if a.delete.TakesEffect() then HandedOver(e, l.files) else l.files,
              Ended(a.delete.Fine?))
    case Ended(_) => l
  }

  function Rank(s: Stage): (n: nat) {
    match s
    case MustHeadSource => 6
    case MustHeadDestination(_) => 5
    case MustCopy(_) => 4
    case MustHeadCopy(_) => 3
    case MustRecord(_) => 2
    case MustDelete => 1
    case Ended(_) => 0
  }

  /** An attempt left alone. */
  function Finished(e: Entry, l: Local, a: W.Answers): (end: Local)
    requires e.op.Transfers()
    decreases Rank(l.stage)
  {
    if l.stage.Ended? then l else Finished(e, Stepped(e, l, a), a)
  }

  /** Left alone, an attempt does what the executor does with the objects. */
  lemma FinishedIsTheAttempt(e: Entry, objects: Objects, files: map<Key, Bytes>, a: W.Answers)
    requires e.op.Transfers()
    ensures var end := Finished(e, Local(objects, files, MustHeadSource), a);
            && end.objects == W.Transfer(objects, e.op, a).0
            && (end.stage == Ended(true) <==> W.Transfer(objects, e.op, a).1 == W.SUCCEEDED)
  {
    var l, seen := Local(objects, files, MustHeadSource), At(objects, e.op.source.value);
    var m := Stepped(e, l, a);
    var n := Stepped(e, m, a);
    assert Finished(e, l, a) == Finished(e, m, a) == Finished(e, n, a);
    if m.stage.MustHeadDestination? && a.headDestination.Fine? {
      if e.op.destination.value in objects {
        CheckedIsTheFinish(e, m, seen, objects[e.op.destination.value], a);
      } else if seen.Some? {
        var copied := Stepped(e, n, a);
        assert Finished(e, n, a) == Finished(e, copied, a) == Finished(e, Stepped(e, copied, a), a);
        if copied.stage.MustHeadCopy? && a.headCopy.Fine? {
          CheckedIsTheFinish(e, copied, seen, copied.objects[e.op.destination.value], a);
        }
      }
    }
  }

  lemma CheckedIsTheFinish(e: Entry, l: Local, seen: Option<Blob>, destination: Blob, a: W.Answers)
    requires e.op.Transfers()
    ensures var end := Finished(e, Checked(e, l, seen, destination), a);
            && end.objects == W.Finish(l.objects, e.op, a, seen, destination).0
            && (end.stage == Ended(true) <==> W.Finish(l.objects, e.op, a, seen, destination).1 == W.SUCCEEDED)
  {
    var c := Checked(e, l, seen, destination);
    if c.stage.MustRecord? {
      assert Finished(e, c, a) == Finished(e, Stepped(e, c, a), a);
      if a.record.Fine? {
        ConcludedIsTheEnd(e, c, seen, a);
      }
    } else if !c.stage.Ended? || c.stage.success {
      ConcludedIsTheEnd(e, l, seen, a);
    }
  }

  lemma ConcludedIsTheEnd(e: Entry, l: Local, seen: Option<Blob>, a: W.Answers)
    requires e.op.Transfers()
    ensures var end := Finished(e, Concluded(e, l, seen), a);
            if !e.op.RemovesSource() || seen.None? then end.objects == l.objects && end.stage == Ended(true)
            else if !a.mayDelete.Granted? then end.objects == l.objects && end.stage == Ended(false)
            else
              && end.objects == AfterDelete(l.objects, e.op.source.value, a.delete).0
              && end.stage == Ended(a.delete.Fine?)
  {
    var c := Concluded(e, l, seen);
    if c.stage.MustDelete? {
      assert Finished(e, c, a) == Finished(e, Stepped(e, c, a), a);
    }
  }

  // ------------------------------------------------------------ all of them

  function BodyAt(objects: Objects, key: Key): (body: Option<Bytes>) {
    if key in objects then Some(objects[key].body) else None
  }

  function TransferOf(w: World, move: bool, source: Key, destination: Key): (e: Entry) {
    var kind := if move then W.MoveOperation else W.CopyOperation;
    var row := C.RowOf(w.tables.rows, source);
    Entry(W.Operation(kind, Some(source), Some(destination), [], None, None), if row.Some? then row.value else 0, None,
          BodyAt(w.objects, source), Open)
  }

  function RenameOf(w: World, row: nat, destination: Key, size: Option<nat>, checksum: Option<string>): (e: Entry)
    requires row < |w.tables.rows|
  {
    var source := w.tables.rows[row].key;
    Entry(W.Operation(W.RenameOperation, Some(source), Some(destination), [], size, checksum), row,
          Some(C.Renames(row, |w.tables.rows|)), BodyAt(w.objects, source), Open)
  }

  function ReplayOf(w: World, id: nat): (e: Entry)
    requires id < |w.operations| && w.operations[id].op.Transfers()
  {
    w.operations[id].(phase := Open, body := BodyAt(w.objects, w.operations[id].op.source.value))
  }

  predicate Admits(op: W.Operation, a: W.Answers) {
    a.admission.Admitted? && W.Objection(op, a).None? && a.derivable
  }

  predicate Succeeded(w: World, id: nat) {
    exists p | 0 <= p < |w.attempts| :: w.attempts[p].op == id && w.attempts[p].stage == Ended(true)
  }

  function Created(w: World, e: Entry, tables: Result<C.Tables, C.Fault>): (after: Option<World>) {
    if tables.Err? then None else Some(w.(tables := tables.value, operations := w.operations + [e]))
  }

  predicate Known(w: World) {
    && (forall id | 0 <= id < |w.operations| :: w.operations[id].op.Transfers())
    && (forall p | 0 <= p < |w.attempts| :: w.attempts[p].op < |w.operations|)
  }

  function Happens(w: World, e: Event): (after: Option<World>)
    requires Known(w)
    ensures after.Some? ==> Known(after.value)
  {
    match e
    case CreateTransfer(move, source, destination) =>
      Created(w, TransferOf(w, move, source, destination),
              C.CreatedTransfer(w.tables, |w.operations|, source, destination))
    case CreateRename(row, destination, size, checksum) =>
      if row >= |w.tables.rows| then None
      else
        Created(w, RenameOf(w, row, destination, size, checksum),
                C.Renamed(w.tables, |w.operations|, row, destination))
    case Begin(id, a) =>
      if id >= |w.operations| || !w.operations[id].phase.Open? then None
      else
        var stage := if Admits(w.operations[id].op, a) then MustHeadSource else Ended(false);
        Some(w.(attempts := w.attempts + [Attempt(id, a, stage)]))
    case Step(p) =>
      if p >= |w.attempts| || w.attempts[p].stage.Ended? then None
      else
        var t := w.attempts[p];
        var l := Stepped(w.operations[t.op], Local(w.objects, w.files, t.stage), t.answers);
        Some(w.(objects := l.objects, files := l.files, attempts := w.attempts[p := t.(stage := l.stage)]))
    case Settle(id, ending) =>
      if id >= |w.operations| || (ending.Succeeded? && !Succeeded(w, id)) then None
      else
        Some(w.(operations := w.operations[id := w.operations[id].(phase := Closed(ending))],
                tables := C.Settled(w.tables, id, w.operations[id].renames, ending)))
    case TimeOut(id) =>
      if id >= |w.operations| || !w.operations[id].phase.Open? then None
      else Some(w.(operations := w.operations[id := w.operations[id].(phase := Closed(C.DeadLettered))]))
    case Replay(id) =>
      if id >= |w.operations| || w.operations[id].phase.Open? || !Replayable(w.operations[id].phase.ending) then None
      else
        var renames := w.operations[id].renames;
        var halted := if renames.Some? then w.tables.halted - {renames.value.source} else w.tables.halted;
        Some(w.(operations := w.operations[id := ReplayOf(w, id)], tables := w.tables.(halted := halted)))
    case Put(key, blob) => Some(w.(objects := w.objects[key := blob]))
    case Commit(key) =>
      var tables := C.Uploaded(w.tables, key);
      if key !in w.objects || tables.Err? then None
      else Some(w.(tables := tables.value, files := w.files[key := w.objects[key].body]))
  }

  predicate Replayable(ending: C.Ending) {
    ending.PartialFailure? || ending.DeadLettered?
  }

  /** Nothing where the event cannot happen. */
  function Next(w: World, e: Event): (after: Option<World>) {
    if Known(w) then Happens(w, e) else None
  }

  function Play(w: World, run: seq<Event>): (end: Option<World>) {
    Iterate(Next, w, run)
  }

  // ------------------------------------------------- when, and what each event changes

  lemma HappensExactlyWhen(w: World, e: Event)
    requires Known(w)
    ensures Happens(w, e).Some?
       <==> match e
            case CreateTransfer(_, source, destination) =>
              C.CreatedTransfer(w.tables, |w.operations|, source, destination).Ok?
            case CreateRename(row, destination, _, _) =>
              row < |w.tables.rows| && C.Renamed(w.tables, |w.operations|, row, destination).Ok?
            case Begin(id, _) => id < |w.operations| && w.operations[id].phase == Open
            case Step(p) => p < |w.attempts| && w.attempts[p].stage !in {Ended(true), Ended(false)}
            case Settle(id, ending) =>
              id < |w.operations|
              && (ending == C.Succeeded ==> exists t | t in w.attempts :: t.op == id && t.stage == Ended(true))
            case TimeOut(id) => id < |w.operations| && w.operations[id].phase == Open
            case Replay(id) =>
              id < |w.operations| && w.operations[id].phase in {Closed(C.PartialFailure), Closed(C.DeadLettered)}
            case Put(_, _) => true
            case Commit(key) => key in w.objects && C.Uploaded(w.tables, key).Ok?
  {
    if e.Settle? && e.id < |w.operations| && e.ending.Succeeded? {
      assert Succeeded(w, e.id) <==> exists t | t in w.attempts :: t.op == e.id && t.stage == Ended(true);
    }
  }

  /** Objects change under a client's write and an attempt's call, the bytes a key is to hold
      under a commit and an attempt's call. */
  lemma BytesChangeExactly(w: World, e: Event)
    requires Known(w) && Happens(w, e).Some? && !e.Step?
    ensures var after := Happens(w, e).value;
            && after.objects == (if e.Put? then w.objects[e.key := e.blob] else w.objects)
            && after.files == (if e.Commit? then w.files[e.key := w.objects[e.key].body] else w.files)
            && after.attempts
               == (if e.Begin? then
                     w.attempts + [Attempt(e.id, e.answers, if Admits(w.operations[e.id].op, e.answers)
                                                             then MustHeadSource else Ended(false))]
                   else w.attempts)
  {
  }

  /** An operation is what it was created as; only its phase changes, and what it carries
      when it is replayed. */
  lemma OperationsChangeExactly(w: World, e: Event, id: nat)
    requires Known(w) && Happens(w, e).Some?
    ensures var after := Happens(w, e).value;
            && |after.operations| == |w.operations| + (if e.CreateTransfer? || e.CreateRename? then 1 else 0)
            && (id < |w.operations| ==>
                  var before, now := w.operations[id], after.operations[id];
                  && now.op == before.op && now.row == before.row && now.renames == before.renames
                  && now.body == (if e == Replay(id) then BodyAt(w.objects, before.op.source.value) else before.body)
                  && now.phase == (if e == Replay(id) then Open
                                   else if e.Settle? && e.id == id then Closed(e.ending)
                                   else if e == TimeOut(id) then Closed(C.DeadLettered)
                                   else before.phase))
            && (e.CreateTransfer? ==>
                  var made := after.operations[|w.operations|];
                  && made.op.kind == (if e.move then W.MoveOperation else W.CopyOperation)
                  && made.op.source == Some(e.source) && made.op.destination == Some(e.destination)
                  && made.body == BodyAt(w.objects, e.source) && made.phase == Open && made.renames == None
                  && C.RowOf(w.tables.rows, e.source) == Some(made.row))
            && (e.CreateRename? ==>
                  var made := after.operations[|w.operations|];
                  && made.op == W.Operation(W.RenameOperation, Some(w.tables.rows[e.row].key), Some(e.destination), [],
                                           e.size, e.checksum)
                  && made.row == e.row && made.body == BodyAt(w.objects, w.tables.rows[e.row].key) && made.phase == Open
                  && made.renames == Some(C.Renames(e.row, |w.tables.rows|)))
  {
  }

  /** Giving an operation up leaves its claims and reservations, and a replay takes none
      again: it only allows renames of its source once more. */
  lemma ClaimsChangeExactly(w: World, e: Event)
    requires Known(w) && Happens(w, e).Some? && !e.CreateTransfer? && !e.CreateRename? && !e.Commit? && !e.Settle?
    ensures var before, after := w.tables, Happens(w, e).value.tables;
            && after.rows == before.rows && after.reservations == before.reservations
            && forall row :: row in after.halted
                             <==> row in before.halted
                                  && !(e.Replay? && w.operations[e.id].renames.Some?
                                       && w.operations[e.id].renames.value.source == row)
  {
  }

  /** A file is handed over when its operation takes the source away, and reported at the
      destination when an attempt succeeds; no other call changes what keys are to hold. */
  lemma FilesChangeExactly(w: World, p: nat)
    requires Known(w) && Happens(w, Step(p)).Some?
    ensures var t, after := w.attempts[p], Happens(w, Step(p)).value;
            var e := w.operations[t.op];
            var source, destination := e.op.source.value, e.op.destination.value;
            var takes := t.stage == MustDelete && t.answers.mayDelete == W.Granted
                         && t.answers.delete in {Fine, RaiseAfter, CrashAfter};
            var left := if takes then w.files - {source} else w.files;
            && after.files == (if e.body != None && (takes || after.attempts[p].stage == Ended(true))
                               then left[destination := e.body.value] else left)
            && (after.objects != w.objects ==>
                  || (takes && after.objects == w.objects - {source})
                  || (t.stage.MustCopy? && source in w.objects
                      && after.objects == w.objects[destination := Blob(w.objects[source].body, t.answers.stamp)]))
            && after.attempts == w.attempts[p := t.(stage := after.attempts[p].stage)]
            && after.tables == w.tables && after.operations == w.operations
  {
  }

  // ------------------------------------------------------- when bytes are kept

  predicate KeptIn(objects: Objects, files: map<Key, Bytes>) {
    forall key | key in files :: W.Holds(objects, key, files[key])
  }

  /** Every key holds the bytes it is to hold. */
  predicate Kept(w: World) {
    KeptIn(w.objects, w.files)
  }

  /** It is not settled, or one of its attempts still has calls to make. */
  predicate Acting(w: World, id: nat) {
    id < |w.operations|
    && (w.operations[id].phase.Open?
        || exists p | 0 <= p < |w.attempts| :: w.attempts[p].op == id && !w.attempts[p].stage.Ended?)
  }

  predicate OnCourse(objects: Objects, e: Entry)
    requires e.op.Transfers()
  {
    e.body.Some? && W.OnCourse(objects, e.op, e.body.value)
  }

  /** Its destination is free or holds equal bytes, or the executor's check refuses what is
      there; one without a source has nothing to carry. */
  predicate Fits(objects: Objects, e: Entry) {
    && e.op.Transfers() && e.op.source != e.op.destination
    && match e.body
       case None => e.op.source.value !in objects
       case Some(body) => W.OnCourse(objects, e.op, body) || W.Blocked(objects, e.op, body)
  }

  /** Two operations share no key, or a destination and the bytes. */
  predicate Compatible(objects: Objects, e: Entry, f: Entry) {
    && e.op.Transfers() && f.op.Transfers()
    && e.op.source != f.op.source && e.op.source != f.op.destination && e.op.destination != f.op.source
    && (e.op.destination == f.op.destination ==>
          || e.body.None? || f.body.None?
          || (e.body == f.body && OnCourse(objects, e) && OnCourse(objects, f)))
  }

  /** What an attempt has learned stays true. */
  predicate Learned(objects: Objects, e: Entry, s: Stage)
    requires e.op.Transfers()
  {
    var source, destination := e.op.source.value, e.op.destination.value;
    match s
    case MustHeadSource => true
    case Ended(_) => true
    case MustHeadDestination(seen) =>
      if OnCourse(objects, e) then
        if seen.Some? then seen.value.body == e.body.value else source !in objects
      else if e.body.Some? then source in objects && seen == Some(objects[source])
      else seen.None?
    case MustCopy(seen) => OnCourse(objects, e) && seen.body == e.body.value
    case MustHeadCopy(seen) => OnCourse(objects, e) && seen.body == e.body.value && destination in objects
    case MustRecord(seen) =>
      if e.body.None? then seen.None?
      else OnCourse(objects, e) && destination in objects && (seen.None? ==> source !in objects)
    case MustDelete => OnCourse(objects, e) && destination in objects && e.op.RemovesSource()
  }

  ghost predicate Sound(w: World) {
    && Known(w) && Kept(w)
    && (forall id: nat | Acting(w, id) :: Fits(w.objects, w.operations[id]))
    && (forall i: nat, j: nat | Acting(w, i) && Acting(w, j) && i != j ::
          Compatible(w.objects, w.operations[i], w.operations[j]))
    && (forall p | 0 <= p < |w.attempts| && !w.attempts[p].stage.Ended? ::
          Learned(w.objects, w.operations[w.attempts[p].op], w.attempts[p].stage))
  }

  /** What one call does to the store: nothing, a copy of the bytes, or taking the source
      away once the destination has them. */
  predicate Harmless(before: Objects, after: Objects, e: Entry)
    requires e.op.Transfers()
  {
    var source, destination := e.op.source.value, e.op.destination.value;
    || after == before
    || (OnCourse(before, e) && source in before && destination in after && after[destination].body == e.body.value
        && after == before[destination := after[destination]])
    || (OnCourse(before, e) && destination in before && e.op.RemovesSource() && after == before - {source})
  }

  lemma ConcludedIsHarmless(e: Entry, l: Local, seen: Option<Blob>)
    requires Fits(l.objects, e) && Learned(l.objects, e, MustRecord(seen)) && KeptIn(l.objects, l.files)
    ensures var n := Concluded(e, l, seen);
            n.objects == l.objects && Learned(n.objects, e, n.stage) && KeptIn(n.objects, n.files)
  {
  }

  /** What the check lets through is the operation's own copy, or it carries nothing. */
  lemma CheckedIsHarmless(e: Entry, l: Local, seen: Option<Blob>)
    requires Fits(l.objects, e) && e.op.destination.value in l.objects && KeptIn(l.objects, l.files)
    requires Learned(l.objects, e, MustHeadDestination(seen))
          || (seen.Some? && Learned(l.objects, e, MustHeadCopy(seen.value)))
    ensures var n := Checked(e, l, seen, l.objects[e.op.destination.value]);
            n.objects == l.objects && Learned(n.objects, e, n.stage) && KeptIn(n.objects, n.files)
  {
    if W.Mismatch(e.op, seen, l.objects[e.op.destination.value]).None? {
      assert Learned(l.objects, e, MustRecord(seen));
      ConcludedIsHarmless(e, l, seen);
    }
  }

  lemma StepIsHarmless(e: Entry, l: Local, a: W.Answers)
    requires Fits(l.objects, e) && Learned(l.objects, e, l.stage) && KeptIn(l.objects, l.files)
    ensures var n := Stepped(e, l, a);
            && Harmless(l.objects, n.objects, e) && Fits(n.objects, e)
            && Learned(n.objects, e, n.stage) && KeptIn(n.objects, n.files)
  {
    match l.stage {
      case MustHeadDestination(seen) =>
        if e.op.destination.value in l.objects {
          CheckedIsHarmless(e, l, seen);
        }
      case MustHeadCopy(seen) => CheckedIsHarmless(e, l, Some(seen));
      case MustRecord(seen) => ConcludedIsHarmless(e, l, seen);
      case _ =>
    }
  }

  // --------------------------------------------------- what no step disturbs

  lemma OthersStay(before: Objects, after: Objects, e: Entry, f: Entry, s: Stage)
    requires Fits(before, e) && Fits(before, f) && Compatible(before, e, f) && Learned(before, f, s)
    requires Harmless(before, after, e)
    ensures Fits(after, f) && Learned(after, f, s)
    ensures OnCourse(before, f) ==> OnCourse(after, f)
  {
  }

  lemma OwnStays(before: Objects, after: Objects, e: Entry, s: Stage)
    requires Fits(before, e) && Learned(before, e, s) && Harmless(before, after, e)
    ensures Learned(after, e, s)
    ensures OnCourse(before, e) ==> OnCourse(after, e)
  {
  }

  /** A call of any attempt keeps everything sound, whatever else is going on. */
  lemma StepStaysSound(w: World, p: nat)
    requires Sound(w) && Next(w, Step(p)).Some?
    ensures Sound(Next(w, Step(p)).value)
  {
    var n, t := Next(w, Step(p)).value, w.attempts[p];
    var e := w.operations[t.op];
    assert Acting(w, t.op);
    StepIsHarmless(e, Local(w.objects, w.files, t.stage), t.answers);
    assert forall id: nat | Acting(n, id) :: Acting(w, id);
    forall id: nat | Acting(w, id)
      ensures Fits(n.objects, w.operations[id])
      ensures OnCourse(w.objects, w.operations[id]) ==> OnCourse(n.objects, w.operations[id])
    {
      if id == t.op {
        OwnStays(w.objects, n.objects, e, MustHeadSource);
      } else {
        OthersStay(w.objects, n.objects, e, w.operations[id], MustHeadSource);
      }
    }
    forall q | 0 <= q < |n.attempts| && !n.attempts[q].stage.Ended?
      ensures Learned(n.objects, n.operations[n.attempts[q].op], n.attempts[q].stage)
    {
      if q != p {
        var f := w.operations[w.attempts[q].op];
        assert Acting(w, w.attempts[q].op);
        if w.attempts[q].op == t.op {
          OwnStays(w.objects, n.objects, e, w.attempts[q].stage);
        } else {
          OthersStay(w.objects, n.objects, e, f, w.attempts[q].stage);
        }
      }
    }
  }

  // ------------------------------------------------------------ clear events

  /** The operation meets no other one that may still act, but for a shared destination and
      equal bytes, and no object at its destination that it could take for its own. */
  ghost predicate FitsIn(w: World, e: Entry) {
    Fits(w.objects, e) && forall id: nat | Acting(w, id) :: Compatible(w.objects, w.operations[id], e)
  }

  /** What can be seen before the event: creations and replays fit in, and clients write
      neither on the keys of an operation that may act nor over what a key is to hold. */
  ghost predicate Clear(w: World, e: Event) {
    Known(w) &&
    match e
    case CreateTransfer(move, source, destination) => FitsIn(w, TransferOf(w, move, source, destination))
    case CreateRename(row, destination, size, checksum) =>
      row < |w.tables.rows| ==> FitsIn(w, RenameOf(w, row, destination, size, checksum))
    case Replay(id) => id < |w.operations| ==> !Acting(w, id) && FitsIn(w, ReplayOf(w, id))
    case Put(key, blob) =>
      && (forall id: nat | Acting(w, id) ::
            w.operations[id].op.source != Some(key) && w.operations[id].op.destination != Some(key))
      && (key in w.files ==> w.files[key] == blob.body)
    case _ => true
  }

  ghost predicate ClearRun(w: World, run: seq<Event>)
    decreases |run|
  {
    run == [] || (Clear(w, run[0]) && (Next(w, run[0]).Some? ==> ClearRun(Next(w, run[0]).value, run[1..])))
  }

  lemma CompatibleIsSymmetric(objects: Objects, e: Entry, f: Entry)
    ensures Compatible(objects, e, f) <==> Compatible(objects, f, e)
  {
  }

  lemma JoiningStaysSound(w: World, n: World, id: nat)
    requires Sound(w) && Known(n) && id < |n.operations| && id <= |w.operations| <= |n.operations| <= |w.operations| + 1
    requires !Acting(w, id) && FitsIn(w, n.operations[id])
    requires n.objects == w.objects && n.files == w.files && n.attempts == w.attempts
    requires forall j | 0 <= j < |n.operations| && j != id :: j < |w.operations| && n.operations[j] == w.operations[j]
    ensures Sound(n)
  {
    forall j: nat | Acting(n, j) && j != id
      ensures Acting(w, j)
    {
    }
    forall j: nat | Acting(n, j) && j != id
      ensures Compatible(n.objects, n.operations[j], n.operations[id])
      ensures Compatible(n.objects, n.operations[id], n.operations[j])
    {
      CompatibleIsSymmetric(n.objects, n.operations[j], n.operations[id]);
    }
    forall p | 0 <= p < |n.attempts| && !n.attempts[p].stage.Ended?
      ensures Learned(n.objects, n.operations[n.attempts[p].op], n.attempts[p].stage)
    {
      assert n.attempts[p].op != id;
    }
  }

  lemma PutElsewhere(objects: Objects, key: Key, blob: Blob, f: Entry, s: Stage)
    requires Fits(objects, f) && Learned(objects, f, s) && f.op.source != Some(key) && f.op.destination != Some(key)
    ensures Fits(objects[key := blob], f) && Learned(objects[key := blob], f, s)
    ensures OnCourse(objects, f) ==> OnCourse(objects[key := blob], f)
  {
  }

  lemma PutStaysSound(w: World, key: Key, blob: Blob)
    requires Sound(w) && Clear(w, Put(key, blob))
    ensures Sound(Next(w, Put(key, blob)).value)
  {
    var n := Next(w, Put(key, blob)).value;
    assert forall id: nat | Acting(n, id) :: Acting(w, id);
    forall id: nat | Acting(w, id)
      ensures Fits(n.objects, w.operations[id])
      ensures OnCourse(w.objects, w.operations[id]) ==> OnCourse(n.objects, w.operations[id])
    {
      PutElsewhere(w.objects, key, blob, w.operations[id], MustHeadSource);
    }
    forall p | 0 <= p < |n.attempts| && !n.attempts[p].stage.Ended?
      ensures Learned(n.objects, n.operations[n.attempts[p].op], n.attempts[p].stage)
    {
      assert Acting(w, n.attempts[p].op);
      PutElsewhere(w.objects, key, blob, w.operations[w.attempts[p].op], w.attempts[p].stage);
    }
  }

  lemma BeginStaysSound(w: World, id: nat, a: W.Answers)
    requires Sound(w) && Next(w, Begin(id, a)).Some?
    ensures Sound(Next(w, Begin(id, a)).value)
  {
    var n := Next(w, Begin(id, a)).value;
    forall j: nat | Acting(n, j)
      ensures Acting(w, j)
    {
      if !n.operations[j].phase.Open? {
        var p :| 0 <= p < |n.attempts| && n.attempts[p].op == j && !n.attempts[p].stage.Ended?;
        assert w.attempts[p].op == j;
      }
    }
  }

  lemma ClosingStaysSound(w: World, n: World, id: nat)
    requires Sound(w) && Known(n) && id < |w.operations| == |n.operations|
    requires n.operations == w.operations[id := n.operations[id]]
    requires n.operations[id].op == w.operations[id].op && n.operations[id].body == w.operations[id].body
    requires !n.operations[id].phase.Open?
    requires n.objects == w.objects && n.files == w.files && n.attempts == w.attempts
    ensures Sound(n)
  {
    assert forall j: nat | Acting(n, j) :: Acting(w, j);
  }

  lemma EventStaysSound(w: World, e: Event)
    requires Sound(w) && Clear(w, e) && Next(w, e).Some?
    ensures Sound(Next(w, e).value)
  {
    var n := Next(w, e).value;
    match e {
      case CreateTransfer(_, _, _) => JoiningStaysSound(w, n, |w.operations|);
      case CreateRename(_, _, _, _) => JoiningStaysSound(w, n, |w.operations|);
      case Begin(id, a) => BeginStaysSound(w, id, a);
      case Step(p) => StepStaysSound(w, p);
      case Settle(id, _) => ClosingStaysSound(w, n, id);
      case TimeOut(id) => ClosingStaysSound(w, n, id);
      case Replay(id) => JoiningStaysSound(w, n, id);
      case Put(key, blob) => PutStaysSound(w, key, blob);
      case Commit(key) =>
        assert forall j: nat | Acting(n, j) :: Acting(w, j);
    }
  }

  /** Over every history of clear events, with any number of attempts of any number of
      operations interleaved call by call and interrupted anywhere, every key holds what it
      is to hold: no file's bytes are lost, and a reported success is and stays true. */
  lemma {:induction false} ClearHistoryKeepsEveryFile(w: World, run: seq<Event>)
    requires Sound(w) && ClearRun(w, run) && Play(w, run).Some?
    ensures Sound(Play(w, run).value) && Kept(Play(w, run).value)
    decreases |run|
  {
    if run != [] {
      EventStaysSound(w, run[0]);
      ClearHistoryKeepsEveryFile(Next(w, run[0]).value, run[1..]);
    }
  }

  // ------------------------------------------------- exactly the clear ones

  /** Attempts begin and go on, and nothing else happens. */
  ghost predicate OnlyAttempts(run: seq<Event>) {
    forall e | e in run :: e.Begin? || e.Step?
  }

  lemma {:induction false} AttemptsAreClear(w: World, run: seq<Event>)
    requires Known(w) && OnlyAttempts(run)
    ensures ClearRun(w, run)
    decreases |run|
  {
    if run != [] {
      assert run[0] in run;
      if Next(w, run[0]).Some? {
        AttemptsAreClear(Next(w, run[0]).value, run[1..]);
      }
    }
  }

  function LocalOf(w: World, p: nat): (l: Local)
    requires p < |w.attempts|
  {
    Local(w.objects, w.files, w.attempts[p].stage)
  }

  function With(w: World, p: nat, l: Local): (after: World)
    requires p < |w.attempts|
  {
    w.(objects := l.objects, files := l.files, attempts := w.attempts[p := w.attempts[p].(stage := l.stage)])
  }

  /** An attempt can be left alone until it ends. */
  lemma {:induction false} LeftAlone(w: World, p: nat) returns (run: seq<Event>)
    requires Known(w) && p < |w.attempts|
    ensures OnlyAttempts(run)
    ensures var t := w.attempts[p];
            Play(w, run) == Some(With(w, p, Finished(w.operations[t.op], LocalOf(w, p), t.answers)))
    decreases Rank(w.attempts[p].stage)
  {
    var t := w.attempts[p];
    if t.stage.Ended? {
      run := [];
      assert w.attempts[p := t] == w.attempts;
    } else {
      var n := Next(w, Step(p)).value;
      var rest := LeftAlone(n, p);
      run := [Step(p)] + rest;
      assert run[1..] == rest;
      var l := Finished(w.operations[t.op], LocalOf(w, p), t.answers);
      assert Finished(w.operations[t.op], LocalOf(n, p), t.answers) == l;
      assert n.attempts[p := t.(stage := l.stage)] == w.attempts[p := t.(stage := l.stage)];
    }
  }

  lemma {:induction false} SuccessIsReported(e: Entry, l: Local, a: W.Answers)
    requires e.op.Transfers() && !l.stage.Ended? && Finished(e, l, a).stage == Ended(true) && e.body.Some?
    ensures var files := Finished(e, l, a).files;
            e.op.destination.value in files && files[e.op.destination.value] == e.body.value
    decreases Rank(l.stage)
  {
    if !Stepped(e, l, a).stage.Ended? {
      SuccessIsReported(e, Stepped(e, l, a), a);
    }
  }

  function Faultless(stamp: Stamp): (a: W.Answers) {
    W.Answers(W.Admitted, W.Granted, W.Granted, W.Granted, W.Granted, true, Fine, Fine, Fine, stamp, Fine, Fine, Fine,
              _ => W.KeyAnswers(W.Granted, true, Fine))
  }

  /** What the executor does in one attempt, whatever its calls answer, is a history of this
      machine: the one in which nothing else happens meanwhile. */
  lemma AttemptIsAPath(w: World, id: nat, a: W.Answers) returns (run: seq<Event>, end: World)
    requires Known(w) && id < |w.operations| && w.operations[id].phase.Open?
    ensures OnlyAttempts(run) && Play(w, run) == Some(end) && Known(end)
    ensures var e := w.operations[id];
            var (after, outcome) := W.Attempt(w.objects, e.op, a);
            && end.objects == after && end.operations == w.operations && end.tables == w.tables
            && |end.attempts| == |w.attempts| + 1 && end.attempts[..|w.attempts|] == w.attempts
            && end.attempts[|w.attempts|].op == id
            && (end.attempts[|w.attempts|].stage == Ended(true) <==> outcome == W.SUCCEEDED)
            && (outcome == W.SUCCEEDED && e.body.Some? ==>
                  e.op.destination.value in end.files && end.files[e.op.destination.value] == e.body.value)
  {
    var e, p := w.operations[id], |w.attempts|;
    var n := Next(w, Begin(id, a)).value;
    var rest := LeftAlone(n, p);
    run := [Begin(id, a)] + rest;
    assert run[1..] == rest;
    var l := Finished(e, LocalOf(n, p), a);
    end := With(n, p, l);
    assert Play(w, run) == Play(n, rest);
    AdmittedIsTransferred(w.objects, e.op, a);
    if Admits(e.op, a) {
      FinishedIsTheAttempt(e, w.objects, w.files, a);
      if l.stage == Ended(true) && e.body.Some? {
        SuccessIsReported(e, LocalOf(n, p), a);
      }
    }
  }

  lemma AdmittedIsTransferred(objects: Objects, op: W.Operation, a: W.Answers)
    requires op.Transfers()
    ensures Admits(op, a) ==> W.Attempt(objects, op, a) == W.Transfer(objects, op, a)
    ensures !Admits(op, a) ==> W.Attempt(objects, op, a).0 == objects && W.Attempt(objects, op, a).1 != W.SUCCEEDED
  {
  }

  /** The undisturbed one. */
  lemma WholeAttempt(w: World, id: nat, stamp: Stamp) returns (run: seq<Event>, end: World)
    requires Known(w) && id < |w.operations| && w.operations[id].phase.Open?
    ensures OnlyAttempts(run) && Play(w, run) == Some(end) && Known(end)
    ensures var e := w.operations[id];
            var r := W.Transfer(w.objects, e.op, Faultless(stamp));
            && end.objects == r.0 && end.operations == w.operations && end.tables == w.tables
            && |end.attempts| == |w.attempts| + 1 && end.attempts[..|w.attempts|] == w.attempts
            && (r.1 == W.SUCCEEDED ==> Succeeded(end, id))
            && (r.1 == W.SUCCEEDED && e.body.Some? ==>
                  e.op.destination.value in end.files && end.files[e.op.destination.value] == e.body.value)
  {
    run, end := AttemptIsAPath(w, id, Faultless(stamp));
    AdmittedIsTransferred(w.objects, w.operations[id].op, Faultless(stamp));
    assert Admits(w.operations[id].op, Faultless(stamp));
    if end.attempts[|w.attempts|].stage == Ended(true) {
      assert Succeeded(end, id);
    }
  }

  /** Whatever clear events follow, every key holds what it is to hold. */
  ghost predicate Safe(w: World) {
    forall run :: ClearRun(w, run) && Play(w, run).Some? ==> Kept(Play(w, run).value)
  }

  /** An object stands at the destination that the executor takes for its own copy. */
  lemma ClashLoses(n: World, id: nat)
    requires Known(n) && id < |n.operations| && n.operations[id].phase.Open?
    requires var e := n.operations[id];
             && e.op.source != e.op.destination && e.body == BodyAt(n.objects, e.op.source.value)
             && !Fits(n.objects, e)
    ensures !Safe(n)
  {
    var e := n.operations[id];
    var stamp := Stamp(None, None);
    var run, end := WholeAttempt(n, id, stamp);
    AttemptsAreClear(n, run);
    ClashSucceeds(n.objects, e, stamp);
    assert !Kept(end);
  }

  lemma ClashSucceeds(objects: Objects, e: Entry, stamp: Stamp)
    requires e.op.Transfers() && e.op.source != e.op.destination
    requires e.body == BodyAt(objects, e.op.source.value) && !Fits(objects, e)
    ensures e.body.Some? && e.op.destination.value in objects && objects[e.op.destination.value].body != e.body.value
    ensures var (after, outcome) := W.Transfer(objects, e.op, Faultless(stamp));
            && outcome == W.SUCCEEDED
            && At(after, e.op.destination.value) == At(objects, e.op.destination.value)
  {
  }

  /** What the provider would say of an honest copy. */
  function HonestStamp(objects: Objects, e: Entry): (stamp: Stamp)
    requires e.op.Transfers()
  {
    var source := e.op.source.value;
    Stamp(None, if e.op.expectedChecksum.Some? then e.op.expectedChecksum
                else if source in objects then objects[source].stamp.checksum else None)
  }

  /** An honest copy passes the operation's own check; only the evidence recorded with a
      rename can be in the way of that. */
  predicate CanPass(objects: Objects, e: Entry)
    requires e.op.Transfers()
  {
    var source := e.op.source.value;
    source in objects
    && W.Mismatch(e.op, Some(objects[source]), Blob(objects[source].body, HonestStamp(objects, e))).None?
  }

  lemma FreeSucceeds(objects: Objects, e: Entry, other: Key)
    requires e.op.Transfers() && e.op.source != e.op.destination && e.op.destination.value !in objects
    requires CanPass(objects, e) && other != e.op.source.value && other != e.op.destination.value
    ensures var (after, outcome) := W.Transfer(objects, e.op, Faultless(HonestStamp(objects, e)));
            && outcome == W.SUCCEEDED && At(after, other) == At(objects, other)
            && W.Holds(after, e.op.destination.value, objects[e.op.source.value].body)
  {
  }

  /** An attempt that has found the destination free. */
  lemma AboutToCopy(w: World, id: nat) returns (run: seq<Event>, end: World)
    requires Known(w) && id < |w.operations| && w.operations[id].phase.Open?
    requires var op := w.operations[id].op; op.source.value in w.objects && op.destination.value !in w.objects
    ensures OnlyAttempts(run) && Play(w, run) == Some(end)
    ensures var t := Attempt(id, Faultless(Stamp(None, None)), MustCopy(w.objects[w.operations[id].op.source.value]));
            end == w.(attempts := w.attempts + [t])
  {
    var p, a := |w.attempts|, Faultless(Stamp(None, None));
    var source := w.objects[w.operations[id].op.source.value];
    var begun := w.(attempts := w.attempts + [Attempt(id, a, MustHeadSource)]);
    var headed := w.(attempts := w.attempts + [Attempt(id, a, MustHeadDestination(Some(source)))]);
    end := w.(attempts := w.attempts + [Attempt(id, a, MustCopy(source))]);
    assert Next(w, Begin(id, a)) == Some(begun);
    assert begun.attempts[p := headed.attempts[p]] == headed.attempts;
    assert Next(begun, Step(p)) == Some(headed);
    assert headed.attempts[p := end.attempts[p]] == end.attempts;
    assert Next(headed, Step(p)) == Some(end);
    run := [Begin(id, a)] + [Step(p)] + [Step(p)];
    IterateOne(Next, w, Begin(id, a));
    IterateOne(Next, begun, Step(p));
    IterateOne(Next, headed, Step(p));
    IterateComposes(Next, w, [Begin(id, a)], [Step(p)]);
    IterateComposes(Next, w, [Begin(id, a)] + [Step(p)], [Step(p)]);
  }

  /** Two operations may act on one free destination with different bytes: the second copies
      over what the first has reported and whose source it may have removed. */
  lemma SharedDestinationLoses(n: World, id: nat, j: nat)
    requires Known(n) && id < |n.operations| && j < |n.operations|
    requires n.operations[id].phase.Open? && n.operations[j].phase.Open?
    requires var e, f := n.operations[id], n.operations[j];
             && e.op.destination == f.op.destination && e.op.destination.value !in n.objects
             && e.op.source != f.op.source && e.op.source != e.op.destination && f.op.source != f.op.destination
             && e.body == BodyAt(n.objects, e.op.source.value) && f.body == BodyAt(n.objects, f.op.source.value)
             && f.body.Some? && e.body != f.body && CanPass(n.objects, e)
    ensures !Safe(n)
  {
    var e, f, p := n.operations[id], n.operations[j], |n.attempts|;
    var first, headed := AboutToCopy(n, j);
    var second, reported := WholeAttempt(headed, id, HonestStamp(n.objects, e));
    FreeSucceeds(n.objects, e, f.op.source.value);
    assert reported.attempts[..|headed.attempts|][p] == headed.attempts[p];
    var end := LateCopy(reported, p, f.op.source.value, f.op.destination.value);
    var run := OneAfterAnother(n, first, headed, second, reported, [Step(p)], end);
    AttemptsAreClear(n, run);
    assert f.op.destination.value in end.files && end.files[f.op.destination.value] == e.body.value;
    assert !Kept(end);
  }

  lemma OneAfterAnother(n: World, a: seq<Event>, w1: World, b: seq<Event>, w2: World, c: seq<Event>, end: World)
    returns (run: seq<Event>)
    requires Play(n, a) == Some(w1) && Play(w1, b) == Some(w2) && Play(w2, c) == Some(end)
    ensures Play(n, run) == Some(end) && (OnlyAttempts(a) && OnlyAttempts(b) && OnlyAttempts(c) ==> OnlyAttempts(run))
  {
    IterateComposes(Next, n, a, b);
    IterateComposes(Next, n, a + b, c);
    run := a + b + c;
  }

  lemma LateCopy(w: World, p: nat, source: Key, destination: Key) returns (end: World)
    requires Known(w) && p < |w.attempts| && w.attempts[p].stage.MustCopy? && w.attempts[p].answers.copy.Fine?
    requires var op := w.operations[w.attempts[p].op].op;
             op.source == Some(source) && op.destination == Some(destination) && source in w.objects
    ensures Play(w, [Step(p)]) == Some(end) && end.files == w.files
    ensures W.Holds(end.objects, destination, w.objects[source].body)
  {
    end := Next(w, Step(p)).value;
    IterateOne(Next, w, Step(p));
  }

  /** The keys of the others, but for a destination that is still free and whose operation
      is not settled. */
  ghost predicate MeetsOnlyAtFreeDestination(w: World, e: Entry)
    requires Known(w) && e.op.Transfers()
  {
    forall j: nat | Acting(w, j) ::
      var f := w.operations[j];
      && f.op.source != e.op.source && f.op.source != e.op.destination && f.op.destination != e.op.source
      && (f.op.destination == e.op.destination ==>
            f.phase.Open? && e.op.destination.value !in w.objects && CanPass(w.objects, e)
            && (f.body.Some? ==> f.body == BodyAt(w.objects, f.op.source.value)))
  }

  /** An operation joins the others. Every key holds what it is to hold, whatever clear
      events follow, if and only if the operation fits in. */
  lemma JoiningIsSafeExactlyWhen(w: World, n: World, id: nat)
    requires Sound(w) && Known(n) && id < |n.operations| && id <= |w.operations| <= |n.operations| <= |w.operations| + 1
    requires n.objects == w.objects && n.files == w.files && n.attempts == w.attempts
    requires forall j | 0 <= j < |n.operations| && j != id :: j < |w.operations| && n.operations[j] == w.operations[j]
    requires !Acting(w, id) && n.operations[id].phase.Open?
    requires var e := n.operations[id];
             && e.op.source != e.op.destination && e.body == BodyAt(n.objects, e.op.source.value)
             && MeetsOnlyAtFreeDestination(w, e)
    ensures Safe(n) <==> FitsIn(w, n.operations[id])
  {
    var e := n.operations[id];
    if FitsIn(w, e) {
      JoiningStaysSound(w, n, id);
      forall run | ClearRun(n, run) && Play(n, run).Some?
        ensures Kept(Play(n, run).value)
      {
        ClearHistoryKeepsEveryFile(n, run);
      }
    } else if !Fits(n.objects, e) {
      ClashLoses(n, id);
    } else {
      var j: nat :| Acting(w, j) && !Compatible(w.objects, w.operations[j], e);
      assert Fits(w.objects, w.operations[j]);
      SharedDestinationLoses(n, id, j);
    }
  }

  /** The operation an event creates or starts again. */
  function Joins(w: World, c: Event): (e: Option<Entry>)
    requires Known(w)
  {
    match c
    case CreateTransfer(move, source, destination) => Some(TransferOf(w, move, source, destination))
    case CreateRename(row, destination, size, checksum) =>
      if row < |w.tables.rows| then Some(RenameOf(w, row, destination, size, checksum)) else None
    case Replay(id) => if id < |w.operations| then Some(ReplayOf(w, id)) else None
    case _ => None
  }

  /** So an admitted creation or replay is safe if and only if it is clear. */
  lemma EventIsSafeExactlyWhen(w: World, c: Event)
    requires Sound(w) && Next(w, c).Some? && Joins(w, c).Some?
    requires var e := Joins(w, c).value; e.op.source != e.op.destination && MeetsOnlyAtFreeDestination(w, e)
    requires c.Replay? ==> !Acting(w, c.id)
    ensures Safe(Next(w, c).value) <==> Clear(w, c)
  {
    var id := if c.Replay? then c.id else |w.operations|;
    assert !Acting(w, id);
    JoiningIsSafeExactlyWhen(w, Next(w, c).value, id);
  }

  // ------------------------------------------ what the tables see to themselves

  /** The operation still has its claims: an occupied row at its source, and its reserved
      name without a row, or for a rename the occupied row of its result. */
  predicate Holding(t: C.Tables, id: nat, e: Entry) {
    && e.op.Transfers() && e.row < |t.rows|
    && t.rows[e.row] == C.FileRow(e.op.source.value, C.Available, false, Some(id))
    && match e.renames
       case None =>
         var destination := e.op.destination.value;
         destination in t.reservations && t.reservations[destination] == id && C.RowOf(t.rows, destination).None?
       case Some(r) =>
         && r.source == e.row && r.result < |t.rows|
         && t.rows[r.result] == C.FileRow(e.op.destination.value, C.Renaming, false, Some(id))
  }

  ghost predicate Bound(w: World) {
    && Known(w) && C.OneLiveRow(w.tables.rows)
    && (forall row | row in w.tables.rows && row.operation.Some? :: C.Live(row))
    && forall id: nat | Acting(w, id) :: Holding(w.tables, id, w.operations[id])
  }

  /** Renames and uploads keep off reserved names, an operation is settled when none of its
      attempts is under way, and none is replayed. */
  ghost predicate Respects(w: World, e: Event) {
    match e
    case CreateRename(_, destination, _, _) => destination !in w.tables.reservations
    case Commit(key) => key !in w.tables.reservations
    case Settle(id, _) => forall p | 0 <= p < |w.attempts| && w.attempts[p].op == id :: w.attempts[p].stage.Ended?
    case Replay(_) => false
    case _ => true
  }

  lemma CreationKeepsHolding(t: C.Tables, op: nat, source: Key, destination: Key, id: nat, e: Entry)
    requires Holding(t, id, e) && C.CreatedTransfer(t, op, source, destination).Ok?
    ensures Holding(C.CreatedTransfer(t, op, source, destination).value, id, e)
  {
    C.OneKeyIsOccupied(t, op, source, destination);
    C.CreationClaimsItsKeys(t, op, source, destination);
    var i := C.RowOf(t.rows, source).value;
    assert t.rows[i].operation.None?;
  }

  lemma CreationHolds(w: World, move: bool, source: Key, destination: Key)
    requires C.CreatedTransfer(w.tables, |w.operations|, source, destination).Ok?
    ensures Holding(C.CreatedTransfer(w.tables, |w.operations|, source, destination).value, |w.operations|,
                    TransferOf(w, move, source, destination))
  {
    C.OneKeyIsOccupied(w.tables, |w.operations|, source, destination);
    C.CreationClaimsItsKeys(w.tables, |w.operations|, source, destination);
  }

  lemma CreationOccupiesLive(t: C.Tables, op: nat, source: Key, destination: Key)
    requires C.CreatedTransfer(t, op, source, destination).Ok?
    requires forall row | row in t.rows && row.operation.Some? :: C.Live(row)
    ensures forall row | row in C.CreatedTransfer(t, op, source, destination).value.rows && row.operation.Some? ::
              C.Live(row)
  {
    C.OneKeyIsOccupied(t, op, source, destination);
    var rows := C.CreatedTransfer(t, op, source, destination).value.rows;
    forall row | row in rows && row.operation.Some?
      ensures C.Live(row)
    {
      var i :| 0 <= i < |rows| && rows[i] == row;
      assert t.rows[i] in t.rows;
    }
  }

  lemma TransferStaysBound(w: World, move: bool, source: Key, destination: Key)
    requires Bound(w) && Next(w, CreateTransfer(move, source, destination)).Some?
    ensures Bound(Next(w, CreateTransfer(move, source, destination)).value)
  {
    var n := Next(w, CreateTransfer(move, source, destination)).value;
    C.TransactionsKeepOneLiveRow(w.tables, |w.operations|, source, destination, 0);
    CreationHolds(w, move, source, destination);
    CreationOccupiesLive(w.tables, |w.operations|, source, destination);
    forall id: nat | Acting(n, id) && id < |w.operations|
      ensures Holding(n.tables, id, n.operations[id])
    {
      assert Acting(w, id);
      CreationKeepsHolding(w.tables, |w.operations|, source, destination, id, w.operations[id]);
    }
  }

  lemma RenameStaysBound(w: World, row: nat, destination: Key, size: Option<nat>, checksum: Option<string>)
    requires Bound(w) && destination !in w.tables.reservations
    requires Next(w, CreateRename(row, destination, size, checksum)).Some?
    ensures Bound(Next(w, CreateRename(row, destination, size, checksum)).value)
  {
    var n := Next(w, CreateRename(row, destination, size, checksum)).value;
    C.TransactionsKeepOneLiveRow(w.tables, |w.operations|, "", destination, row);
    forall id: nat | Acting(n, id)
      ensures Holding(n.tables, id, n.operations[id])
    {
      if id < |w.operations| {
        assert Acting(w, id);
        AddedRowIsElsewhere(w.tables, n.tables, id, w.operations[id], destination);
      }
    }
  }

  lemma AddedRowIsElsewhere(before: C.Tables, after: C.Tables, id: nat, e: Entry, key: Key)
    requires Holding(before, id, e) && after.reservations == before.reservations && key !in before.reservations
    requires |after.rows| == |before.rows| + 1 && after.rows[|before.rows|].key == key
    requires forall i | 0 <= i < |before.rows| ::
               after.rows[i].key == before.rows[i].key
               && (before.rows[i].operation.Some? ==> after.rows[i] == before.rows[i])
    ensures Holding(after, id, e)
  {
    if e.renames.None? {
      forall row | row in after.rows
        ensures row.key != e.op.destination.value
      {
        var i :| 0 <= i < |after.rows| && after.rows[i] == row;
        if i < |before.rows| {
          assert before.rows[i] in before.rows;
        }
      }
    }
  }

  lemma CommitStaysBound(w: World, key: Key)
    requires Bound(w) && key !in w.tables.reservations && Next(w, Commit(key)).Some?
    ensures Bound(Next(w, Commit(key)).value)
  {
    var n := Next(w, Commit(key)).value;
    C.TransactionsKeepOneLiveRow(w.tables, 0, "", key, 0);
    forall id: nat | Acting(n, id)
      ensures Holding(n.tables, id, n.operations[id])
    {
      assert Acting(w, id);
      AddedRowIsElsewhere(w.tables, n.tables, id, w.operations[id], key);
    }
  }

  lemma SettleStaysBound(w: World, id: nat, ending: C.Ending)
    requires Bound(w) && Respects(w, Settle(id, ending)) && Next(w, Settle(id, ending)).Some?
    ensures Bound(Next(w, Settle(id, ending)).value)
  {
    var n := Next(w, Settle(id, ending)).value;
    var rows := w.tables.rows;
    assert forall i | 0 <= i < |rows| :: rows[i] in rows;
    C.SettlingKeepsOneLiveRow(w.tables, id, w.operations[id].renames, ending);
    forall j: nat | Acting(n, j)
      ensures Holding(n.tables, j, n.operations[j])
    {
      assert j != id && Acting(w, j);
      SettlingSparesOthers(w.tables, id, w.operations[id].renames, ending, j, w.operations[j]);
    }
  }

  lemma SettlingSparesOthers(t: C.Tables, id: nat, renames: Option<C.Renames>, ending: C.Ending, j: nat, e: Entry)
    requires Holding(t, j, e) && j != id
    ensures Holding(C.Settled(t, id, renames, ending), j, e)
  {
    var after := C.Settled(t, id, renames, ending);
    C.SameKeysSameRow(after.rows, t.rows, e.op.destination.value);
  }

  lemma AttemptsStayBound(w: World, e: Event)
    requires Bound(w) && (e.Begin? || e.Step? || e.TimeOut? || e.Put?) && Next(w, e).Some?
    ensures Bound(Next(w, e).value)
  {
    var n := Next(w, e).value;
    forall id: nat | Acting(n, id)
      ensures Holding(n.tables, id, n.operations[id])
    {
      assert Acting(w, id) by {
        if !n.operations[id].phase.Open? {
          var p :| 0 <= p < |n.attempts| && n.attempts[p].op == id && !n.attempts[p].stage.Ended?;
          assert p < |w.attempts| ==> w.attempts[p].op == id && !w.attempts[p].stage.Ended?;
        }
      }
    }
  }

  lemma RespectfulStaysBound(w: World, e: Event)
    requires Bound(w) && Respects(w, e) && Next(w, e).Some?
    ensures Bound(Next(w, e).value)
  {
    match e {
      case CreateTransfer(move, source, destination) => TransferStaysBound(w, move, source, destination);
      case CreateRename(row, destination, size, checksum) => RenameStaysBound(w, row, destination, size, checksum);
      case Settle(id, ending) => SettleStaysBound(w, id, ending);
      case Commit(key) => CommitStaysBound(w, key);
      case _ => AttemptsStayBound(w, e);
    }
  }

  lemma HoldingRefuses(t: C.Tables, id: nat, e: Entry, other: nat, source: Key, destination: Key, row: nat)
    requires C.OneLiveRow(t.rows) && Holding(t, id, e)
    ensures C.CreatedTransfer(t, other, source, destination).Ok? ==>
              source !in {e.op.source.value, e.op.destination.value}
              && destination !in {e.op.source.value, e.op.destination.value}
    ensures row < |t.rows| && C.Renamed(t, other, row, destination).Ok? && destination !in t.reservations ==>
              t.rows[row].key !in {e.op.source.value, e.op.destination.value}
              && destination !in {e.op.source.value, e.op.destination.value}
  {
    C.OccupiedKeyAdmitsNothing(t, e.row, other, source, destination, row);
    match e.renames {
      case Some(r) => C.OccupiedKeyAdmitsNothing(t, r.result, other, source, destination, row);
      case None =>
        C.OneKeyIsOccupied(t, other, source, destination);
        assert row < |t.rows| ==> t.rows[row] in t.rows;
    }
  }

  /** Among operations that hold their claims, the tables keep the keys apart by themselves,
      but for a rename onto a reserved name. */
  lemma TablesKeepKeysApart(w: World, c: Event, id: nat)
    requires Bound(w) && Acting(w, id) && Respects(w, c) && Next(w, c).Some? && Joins(w, c).Some?
    ensures var e, f := Joins(w, c).value, w.operations[id];
            && e.op.source != f.op.source && e.op.source != f.op.destination
            && e.op.destination != f.op.source && e.op.destination != f.op.destination
            && Compatible(w.objects, f, e)
  {
    match c {
      case CreateTransfer(_, source, destination) =>
        HoldingRefuses(w.tables, id, w.operations[id], |w.operations|, source, destination, |w.tables.rows|);
      case CreateRename(row, destination, _, _) =>
        HoldingRefuses(w.tables, id, w.operations[id], |w.operations|, "", destination, row);
    }
  }

  lemma CreatedKeysDiffer(w: World, c: Event)
    requires Known(w) && (c.CreateTransfer? || c.CreateRename?) && Next(w, c).Some?
    ensures Joins(w, c).Some? && Joins(w, c).value.op.source != Joins(w, c).value.op.destination
  {
    match c {
      case CreateTransfer(_, source, _) => C.SelfTransferIsNeverCreated(w.tables, |w.operations|, source);
      case CreateRename(row, _, _, _) => C.SelfRenameIsNeverAdmitted(w.tables, |w.operations|, row);
    }
  }

  /** What is left to see before an event: creations look at their destination, clients keep
      off what is not theirs. */
  ghost predicate Careful(w: World, e: Event) {
    && Known(w) && Respects(w, e)
    && (Joins(w, e).Some? ==> Fits(w.objects, Joins(w, e).value))
    && (e.Put? ==> Clear(w, e))
  }

  ghost predicate CarefulRun(w: World, run: seq<Event>)
    decreases |run|
  {
    run == [] || (Careful(w, run[0]) && (Next(w, run[0]).Some? ==> CarefulRun(Next(w, run[0]).value, run[1..])))
  }

  lemma CarefulIsClear(w: World, e: Event)
    requires Sound(w) && Bound(w) && Careful(w, e) && Next(w, e).Some?
    ensures Clear(w, e)
  {
    if Joins(w, e).Some? {
      forall id: nat | Acting(w, id)
        ensures Compatible(w.objects, w.operations[id], Joins(w, e).value)
      {
        TablesKeepKeysApart(w, e, id);
      }
    }
  }

  /** The tables do the rest: every file is kept over every history in which creations see
      to their destination, renames and uploads keep off reserved names, settlements wait
      for attempts, nothing is replayed and clients keep off what is not theirs. */
  lemma {:induction false} CarefulHistoryKeepsEveryFile(w: World, run: seq<Event>)
    requires Sound(w) && Bound(w) && CarefulRun(w, run) && Play(w, run).Some?
    ensures Sound(Play(w, run).value) && Bound(Play(w, run).value) && Kept(Play(w, run).value)
    decreases |run|
  {
    if run != [] {
      CarefulIsClear(w, run[0]);
      EventStaysSound(w, run[0]);
      RespectfulStaysBound(w, run[0]);
      CarefulHistoryKeepsEveryFile(Next(w, run[0]).value, run[1..]);
    }
  }

  /** At any point of such a history a creation is safe if and only if no object stands at
      its destination that the executor would take for its own copy. */
  lemma CreationIsSafeExactlyWhen(w: World, c: Event)
    requires Sound(w) && Bound(w) && (c.CreateTransfer? || c.CreateRename?) && Respects(w, c) && Next(w, c).Some?
    ensures Joins(w, c).Some?
    ensures Safe(Next(w, c).value) <==> Fits(w.objects, Joins(w, c).value)
  {
    CreatedKeysDiffer(w, c);
    var e := Joins(w, c).value;
    forall id: nat | Acting(w, id)
      ensures w.operations[id].op.destination != e.op.destination && Compatible(w.objects, w.operations[id], e)
      ensures w.operations[id].op.source != e.op.source && w.operations[id].op.source != e.op.destination
      ensures w.operations[id].op.destination != e.op.source
    {
      TablesKeepKeysApart(w, c, id);
    }
    assert MeetsOnlyAtFreeDestination(w, e);
    EventIsSafeExactlyWhen(w, c);
  }

  // ------------------------------------------------ where unknown objects come from

  /** The destination of a copy or move. */
  ghost predicate CopiedTo(w: World, key: Key)
    requires Known(w)
  {
    exists id: nat | id < |w.operations| ::
      w.operations[id].renames.None? && w.operations[id].op.destination == Some(key)
  }

  /** A row has the key, of any status, or a copy or move its destination, or a client wrote
      it. */
  ghost predicate Explained(w: World, key: Key, written: set<Key>)
    requires Known(w)
  {
    (exists row | row in w.tables.rows :: row.key == key) || CopiedTo(w, key) || key in written
  }

  ghost predicate ResultsHaveRows(w: World) {
    Known(w) && forall id: nat | id < |w.operations| && w.operations[id].renames.Some? ::
      var r := w.operations[id].renames.value;
      r.result < |w.tables.rows| && w.tables.rows[r.result].key == w.operations[id].op.destination.value
  }

  ghost predicate AllExplained(w: World, written: set<Key>) {
    ResultsHaveRows(w) && forall key | key in w.objects :: Explained(w, key, written)
  }

  /** Rows keep their keys and places, and operations their keys. */
  ghost predicate Grows(before: World, after: World) {
    && Known(before) && Known(after)
    && |before.tables.rows| <= |after.tables.rows|
    && (forall i | 0 <= i < |before.tables.rows| :: after.tables.rows[i].key == before.tables.rows[i].key)
    && |before.operations| <= |after.operations|
    && forall id | 0 <= id < |before.operations| ::
         after.operations[id].op == before.operations[id].op
         && after.operations[id].renames == before.operations[id].renames
  }

  lemma EventGrows(w: World, e: Event)
    requires Next(w, e).Some?
    ensures Grows(w, Next(w, e).value)
    ensures ResultsHaveRows(w) ==> ResultsHaveRows(Next(w, e).value)
  {
    match e {
      case CreateTransfer(_, source, destination) =>
        C.OneKeyIsOccupied(w.tables, |w.operations|, source, destination);
      case _ =>
    }
  }

  lemma ExplainedStays(w: World, n: World, key: Key, written: set<Key>)
    requires Grows(w, n) && Explained(w, key, written)
    ensures Explained(n, key, written)
  {
    if row :| row in w.tables.rows && row.key == key {
      var i :| 0 <= i < |w.tables.rows| && w.tables.rows[i] == row;
      assert n.tables.rows[i] in n.tables.rows;
    }
    if id: nat :| id < |w.operations| && w.operations[id].renames.None?
                  && w.operations[id].op.destination == Some(key) {
      assert n.operations[id].renames.None? && n.operations[id].op.destination == Some(key);
    }
  }

  lemma StepWritesItsDestination(e: Entry, l: Local, a: W.Answers, key: Key)
    requires e.op.Transfers() && key in Stepped(e, l, a).objects
    ensures key in l.objects || e.op.destination == Some(key)
  {
  }

  lemma DestinationsAreExplained(w: World, id: nat, written: set<Key>)
    requires ResultsHaveRows(w) && id < |w.operations|
    ensures Explained(w, w.operations[id].op.destination.value, written)
  {
    if w.operations[id].renames.Some? {
      assert w.tables.rows[w.operations[id].renames.value.result] in w.tables.rows;
    }
  }

  function Written(run: seq<Event>): (keys: set<Key>) {
    if run == [] then {} else (if run[0].Put? then {run[0].key} else {}) + Written(run[1..])
  }

  lemma EventStaysExplained(w: World, e: Event, written: set<Key>)
    requires AllExplained(w, written) && Next(w, e).Some?
    ensures AllExplained(Next(w, e).value, written + Written([e]))
  {
    var n := Next(w, e).value;
    EventGrows(w, e);
    forall key | key in n.objects
      ensures Explained(n, key, written + Written([e]))
    {
      if key in w.objects {
        ExplainedStays(w, n, key, written);
      } else if e.Step? {
        var t := w.attempts[e.attempt];
        StepWritesItsDestination(w.operations[t.op], LocalOf(w, e.attempt), t.answers, key);
        DestinationsAreExplained(n, t.op, written);
      }
    }
  }

  /** An object without a row is one that a client wrote and did not commit, or one of the
      service's own: it stands at the destination of an earlier copy or move. */
  lemma {:induction false} UnknownObjectsAreCopies(w: World, run: seq<Event>, written: set<Key>)
    requires AllExplained(w, written) && Play(w, run).Some?
    ensures AllExplained(Play(w, run).value, written + Written(run))
    decreases |run|
  {
    if run == [] {
      assert written + Written(run) == written;
    } else {
      var n := Next(w, run[0]).value;
      EventStaysExplained(w, run[0], written);
      UnknownObjectsAreCopies(n, run[1..], written + Written([run[0]]));
      assert Written([run[0]]) + Written(run[1..]) == Written(run) by {
        assert [run[0]][1..] == [];
      }
      assert written + Written([run[0]]) + Written(run[1..]) == written + Written(run);
    }
  }

  /** So the unsafe copies and moves are those onto a key that an earlier copy or move, or a
      client, wrote, where bytes of equal length and other content are. */
  lemma UnsafeTransferIsOntoACopy(w: World, move: bool, source: Key, destination: Key, written: set<Key>)
    requires Sound(w) && Bound(w) && AllExplained(w, written)
    requires Next(w, CreateTransfer(move, source, destination)).Some?
    ensures !Safe(Next(w, CreateTransfer(move, source, destination)).value)
       <==> && source in w.objects && destination in w.objects && (CopiedTo(w, destination) || destination in written)
            && |w.objects[source].body| == |w.objects[destination].body|
            && w.objects[source].body != w.objects[destination].body
  {
    var c := CreateTransfer(move, source, destination);
    CreationIsSafeExactlyWhen(w, c);
    CreatedKeysDiffer(w, c);
    C.TransferIsCreatedExactlyWhen(w.tables, |w.operations|, source, destination);
  }

  // ------------------------------------------------------ the inputs that show it

  function Two(w: World, a: Event, b: Event): (n: Option<World>) {
    if Next(w, a).Some? then Next(Next(w, a).value, b) else None
  }

  lemma PlayTwo(w: World, a: Event, b: Event)
    ensures Play(w, [a] + [b]) == Two(w, a, b)
  {
    IterateOne(Next, w, a);
    if Next(w, a).Some? {
      IterateComposes(Next, w, [a], [b]);
      IterateOne(Next, Next(w, a).value, b);
    } else {
      assert ([a] + [b])[0] == a;
    }
  }

  /** A row whose file may be renamed, and whose bytes are as many as those of the source
      but others. */
  predicate Rival(w: World, source: Key, row: nat) {
    && row < |w.tables.rows| && C.Free(w.tables.rows[row]) && w.tables.rows[row].operation.None?
    && row !in w.tables.halted && w.tables.rows[row].key != source
    && source in w.objects && w.tables.rows[row].key in w.objects
    && |w.objects[source].body| == |w.objects[w.tables.rows[row].key].body|
    && w.objects[source].body != w.objects[w.tables.rows[row].key].body
  }

  function RenameHere(w: World, row: nat, destination: Key): (rename: Event)
    requires row < |w.tables.rows| && w.tables.rows[row].key in w.objects
  {
    CreateRename(row, destination, Some(|w.objects[w.tables.rows[row].key].body|), None)
  }

  lemma BothAreCreated(w: World, source: Key, row: nat, destination: Key) returns (both: World)
    requires Known(w) && C.OneLiveRow(w.tables.rows) && Next(w, CreateTransfer(true, source, destination)).Some?
    requires Rival(w, source, row) && destination !in w.objects
    ensures Play(w, [CreateTransfer(true, source, destination)] + [RenameHere(w, row, destination)]) == Some(both)
    ensures Known(both) && both.objects == w.objects && both.attempts == w.attempts
    ensures |both.operations| == |w.operations| + 2
    ensures both.operations[|w.operations|] == TransferOf(w, true, source, destination)
    ensures var e := both.operations[|w.operations| + 1];
            && e.phase.Open? && e.op.source == Some(w.tables.rows[row].key) && e.op.destination == Some(destination)
            && e.op.RemovesSource() && source != destination && e.op.source != e.op.destination && CanPass(w.objects, e)
  {
    var move, rename, id := CreateTransfer(true, source, destination), RenameHere(w, row, destination), |w.operations|;
    var created := Next(w, move).value;
    C.CreatedTransferStands(w.tables, id, source, destination);
    C.OneKeyIsOccupied(w.tables, id, source, destination);
    C.TransactionsKeepOneLiveRow(w.tables, id, source, destination, row);
    CreatedKeysDiffer(w, move);
    assert w.tables.rows[row] in w.tables.rows;
    C.SecondIsAdmittedExactlyWhen(created.tables, id, source, destination, id + 1, "", destination, row);
    both := Next(created, rename).value;
    PlayTwo(w, move, rename);
  }

  /** A move stands and a rename goes onto its destination, which the tables admit. After
      one undisturbed attempt of each both have succeeded, and the moved bytes are at
      neither of their keys. Locks do not help: the operations have no row in common. */
  lemma RenameOntoReservedLosesTheMove(w: World, source: Key, row: nat, destination: Key)
    returns (run: seq<Event>, end: World)
    requires Known(w) && C.OneLiveRow(w.tables.rows) && Next(w, CreateTransfer(true, source, destination)).Some?
    requires Rival(w, source, row) && destination !in w.objects
    ensures OnlyAttempts(run)
    ensures Play(w, [CreateTransfer(true, source, destination)] + [RenameHere(w, row, destination)] + run) == Some(end)
    ensures Succeeded(end, |w.operations|) && Succeeded(end, |w.operations| + 1)
    ensures source !in end.objects && W.Holds(end.objects, destination, w.objects[w.tables.rows[row].key].body)
  {
    var id := |w.operations|;
    var both := BothAreCreated(w, source, row, destination);
    var e := both.operations[id + 1];
    var first, renamed := WholeAttempt(both, id + 1, HonestStamp(both.objects, e));
    FreeSucceeds(both.objects, e, source);
    var second, moved := WholeAttempt(renamed, id, Stamp(None, None));
    TakenForItsOwn(renamed.objects, renamed.operations[id]);
    run, end := first + second, moved;
    IterateComposes(Next, both, first, second);
    IterateComposes(Next, w, [CreateTransfer(true, source, destination)] + [RenameHere(w, row, destination)], run);
    SuccessStays(renamed, end, id + 1);
  }

  lemma SuccessStays(w: World, n: World, id: nat)
    requires Succeeded(w, id) && |w.attempts| <= |n.attempts| && n.attempts[..|w.attempts|] == w.attempts
    ensures Succeeded(n, id)
  {
    var p :| 0 <= p < |w.attempts| && w.attempts[p].op == id && w.attempts[p].stage == Ended(true);
    assert n.attempts[..|w.attempts|][p] == n.attempts[p];
  }

  /** A move that finds bytes of its length at its destination deletes its source. */
  lemma TakenForItsOwn(objects: Objects, e: Entry)
    requires e.op.Transfers() && e.op.kind.MoveOperation? && e.op.source != e.op.destination
    requires e.op.source.value in objects && e.op.destination.value in objects
    requires |objects[e.op.source.value].body| == |objects[e.op.destination.value].body|
    ensures var (after, outcome) := W.Transfer(objects, e.op, Faultless(Stamp(None, None)));
            outcome == W.SUCCEEDED && after == objects - {e.op.source.value}
  {
  }

  /** A copy has succeeded and is settled. */
  lemma CopyIsSettled(w: World, source: Key, destination: Key) returns (run: seq<Event>, settled: World)
    requires Known(w) && Next(w, CreateTransfer(false, source, destination)).Some?
    requires source in w.objects && destination !in w.objects
    ensures Play(w, run) == Some(settled) && Known(settled)
    ensures W.Holds(settled.objects, destination, w.objects[source].body)
    ensures forall key | key != destination && key != source :: At(settled.objects, key) == At(w.objects, key)
    ensures |settled.operations| == |w.operations| + 1
    ensures var created := C.CreatedTransfer(w.tables, |w.operations|, source, destination);
            created.Ok? && settled.tables == C.Settled(created.value, |w.operations|, None, C.Succeeded)
  {
    var copy, id := CreateTransfer(false, source, destination), |w.operations|;
    var created := Next(w, copy).value;
    CreatedKeysDiffer(w, copy);
    var attempt, copied := WholeAttempt(created, id, Stamp(None, None));
    CopySucceeds(created.objects, created.operations[id]);
    var settle := Settle(id, C.Succeeded);
    settled := Next(copied, settle).value;
    IterateOne(Next, w, copy);
    IterateOne(Next, copied, settle);
    IterateComposes(Next, w, [copy], attempt);
    IterateComposes(Next, w, [copy] + attempt, [settle]);
    run := [copy] + attempt + [settle];
  }

  lemma CopySucceeds(objects: Objects, e: Entry)
    requires e.op.Transfers() && e.op.kind.CopyOperation? && e.op.source != e.op.destination
    requires e.op.source.value in objects && e.op.destination.value !in objects
    ensures var stamp := Stamp(None, None);
            W.Transfer(objects, e.op, Faultless(stamp))
            == (objects[e.op.destination.value := Blob(objects[e.op.source.value].body, stamp)], W.SUCCEEDED)
  {
  }

  lemma SettledNameIsFree(t: C.Tables, id: nat, source: Key, destination: Key, other: nat, source2: Key)
    requires C.CreatedTransfer(t, id, source, destination).Ok? && C.SourceFault(t.rows, source2).None?
    requires source2 != source
    ensures var after := C.Settled(C.CreatedTransfer(t, id, source, destination).value, id, None, C.Succeeded);
            C.CreatedTransfer(after, other, source2, destination).Ok?
  {
    C.OneKeyIsOccupied(t, id, source, destination);
    C.CreationClaimsItsKeys(t, id, source, destination);
    var created := C.CreatedTransfer(t, id, source, destination).value;
    var after := C.Settled(created, id, None, C.Succeeded);
    C.SameKeysSameRow(after.rows, created.rows, source2);
    C.SameKeysSameRow(after.rows, created.rows, destination);
    C.OneKeyIsOccupied(after, other, source2, destination);
  }

  /** The object a settled copy leaves has no row: a move onto it is admitted, and if its
      bytes are as many but others, they are deleted and the move succeeds. */
  lemma MoveOntoCopyLosesItsBytes(w: World, source: Key, destination: Key, source2: Key)
    returns (run: seq<Event>, end: World)
    requires Known(w) && Next(w, CreateTransfer(false, source, destination)).Some?
    requires C.SourceFault(w.tables.rows, source2).None?
    requires source in w.objects && source2 in w.objects && destination !in w.objects
    requires |w.objects[source].body| == |w.objects[source2].body| && w.objects[source].body != w.objects[source2].body
    ensures Play(w, run) == Some(end) && Succeeded(end, |w.operations| + 1)
    ensures source2 !in end.objects && W.Holds(end.objects, destination, w.objects[source].body)
  {
    var first, settled := CopyIsSettled(w, source, destination);
    SettledNameIsFree(w.tables, |w.operations|, source, destination, |settled.operations|, source2);
    var move := CreateTransfer(true, source2, destination);
    assert source2 != destination;
    assert At(settled.objects, source2) == At(w.objects, source2);
    var created := Next(settled, move).value;
    var attempt, moved := WholeAttempt(created, |settled.operations|, Stamp(None, None));
    TakenForItsOwn(created.objects, created.operations[|settled.operations|]);
    IterateOne(Next, settled, move);
    end := moved;
    IterateComposes(Next, w, first, [move]);
    IterateComposes(Next, w, first + [move], attempt);
    run := first + [move] + attempt;
  }

  /** Where there are no operations yet and every file is in its place, all of this holds. */
  lemma StartIsSound(objects: Objects, rows: seq<C.FileRow>, files: map<Key, Bytes>)
    requires C.OneLiveRow(rows) && KeptIn(objects, files) && forall row | row in rows :: row.operation.None?
    requires forall key | key in objects :: exists row | row in rows :: row.key == key
    ensures var w := World(objects, C.Tables(rows, map[], {}), [], [], files);
            Sound(w) && Bound(w) && AllExplained(w, {})
  {
  }

  const NO_STAMP: Stamp := Stamp(None, None)

  /** Two recorded files and no operation. */
  function TwoFiles(a: Bytes, c: Bytes): (w: World) {
    World(map["A" := Blob(a, NO_STAMP), "C" := Blob(c, NO_STAMP)],
          C.Tables([C.FileRow("A", C.Available, false, None), C.FileRow("C", C.Available, false, None)], map[], {}),
          [], [], map["A" := a, "C" := c])
  }

  /** Such a history can begin with two files and a move, beside which the other file may be
      renamed onto its destination. */
  lemma TwoFilesAndAMove(a: Bytes, c: Bytes)
    ensures var w := TwoFiles(a, c);
            && Sound(w) && Bound(w) && AllExplained(w, {})
            && Next(w, CreateTransfer(true, "A", "B")).Some?
            && (|a| == |c| && a != c ==> Rival(w, "A", 1))
  {
    var w := TwoFiles(a, c);
    var rows := w.tables.rows;
    assert rows[0] in rows && rows[1] in rows;
    StartIsSound(w.objects, rows, w.files);
    assert rows[..1] == [rows[0]] && rows[..1][..0] == [];
    assert C.RowOf(rows, "A") == Some(0);
    C.TransferIsCreatedExactlyWhen(w.tables, 0, "A", "B");
  }
}
