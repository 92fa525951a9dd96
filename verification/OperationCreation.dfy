/** The transactions that create and settle file operations: which file rows they claim,
    which names they reserve, and when a second one is admitted on a key of the first. */
module OperationCreation {
  import opened Wrappers
  import opened ObjectStore
  import W = OperationWorker
  import Text

  type OperationId = nat

  datatype FileStatus = Available | Renaming | RenameFailed | Deleting | DeleteFailed | OtherStatus

  /** A file row of one storage space; a key may have several, tombstones among them. */
  datatype FileRow = FileRow(key: Key, status: FileStatus, softDeleted: bool, operation: Option<OperationId>)

  datatype Fault =
    | FileNotFound
    | InProgress
    | DuplicateResource
    | SpaceNotActive
    | RenameConflict

  /** The rows in the order of their ids, the reserved names, and the rows whose rename was
      settled as a partial failure. */
  datatype Tables = Tables(rows: seq<FileRow>, reservations: map<Key, OperationId>, halted: set<nat>)

  /** How settle_broker_operation is called. */
  datatype Ending = Succeeded | Cancelled | PartialFailure | DeadLettered

  // -------------------------------------------------------- specification

  /** rows_by_key keeps the last row of a key. */
  function RowOf(rows: seq<FileRow>, key: Key): (i: Option<nat>)
    ensures i.Some? ==> i.value < |rows| && rows[i.value].key == key
    ensures i.None? <==> forall row | row in rows :: row.key != key
  {
    if rows == [] then None
    else
      var last := |rows| - 1;
      assert rows == rows[..last] + [rows[last]];
      if rows[last].key == key then Some(last) else RowOf(rows[..last], key)
  }

  /** What the unique index on active keys counts. */
  predicate Live(row: FileRow) {
    row.softDeleted || !row.status.OtherStatus?
  }

  predicate Taken(rows: seq<FileRow>, key: Key) {
    exists row | row in rows :: row.key == key && Live(row)
  }

  predicate Free(row: FileRow) {
    row.status.Available? && !row.softDeleted
  }

  function SourceFault(rows: seq<FileRow>, key: Key): (fault: Option<Fault>) {
    var i := RowOf(rows, key);
    if i.None? || !Free(rows[i.value]) then Some(FileNotFound)
    else if rows[i.value].operation.Some? then Some(InProgress)
    else None
  }

  function FirstSourceFault(rows: seq<FileRow>, keys: seq<Key>): (fault: Option<Fault>) {
    if keys == [] then None
    else if SourceFault(rows, keys[0]).Some? then SourceFault(rows, keys[0])
    else FirstSourceFault(rows, keys[1..])
  }

  function Claimed(rows: seq<FileRow>, keys: seq<Key>, op: OperationId): (after: seq<FileRow>)
    decreases |keys|
  {
    if keys == [] then rows
    else
      var i := RowOf(rows, keys[0]);
      Claimed(if i.None? then rows else rows[i.value := rows[i.value].(operation := Some(op))], keys[1..], op)
  }

  /** Nothing where the unique constraint refuses a name. */
  function Reserved(reservations: map<Key, OperationId>, keys: seq<Key>, op: OperationId)
    : (after: Option<map<Key, OperationId>>)
    decreases |keys|
  {
    if keys == [] then Some(reservations)
    else if keys[0] in reservations then None
    else Reserved(reservations[keys[0] := op], keys[1..], op)
  }

  /** _occupy_operation_resources; a refused transaction changes nothing. */
  function Occupied(t: Tables, op: OperationId, sources: seq<Key>, destinations: seq<Key>): (r: Result<Tables, Fault>) {
    if FirstSourceFault(t.rows, sources).Some? then Err(FirstSourceFault(t.rows, sources).value)
    else if exists key | key in destinations :: RowOf(t.rows, key).Some? then Err(DuplicateResource)
    else
      var reservations := Reserved(t.reservations, destinations, op);
      if reservations.None? then Err(InProgress)
      else Ok(Tables(Claimed(t.rows, sources, op), reservations.value, t.halted))
  }

  /** create_rename_operation: rows are all it reads. */
  function Renamed(t: Tables, op: OperationId, source: nat, destination: Key): (r: Result<Tables, Fault>) {
    if source >= |t.rows| || !Free(t.rows[source]) then Err(FileNotFound)
    else if t.rows[source].operation.Some? then Err(InProgress)
    else if source in t.halted then Err(RenameConflict)
    else if Taken(t.rows, destination) then Err(DuplicateResource)
    else
      var claimed := t.rows[source := t.rows[source].(operation := Some(op))];
      Ok(t.(rows := claimed + [FileRow(destination, Renaming, false, Some(op))]))
  }

  /** The commit of an uploaded file: the unique index alone stands in its way. */
  function Uploaded(t: Tables, key: Key): (r: Result<Tables, Fault>) {
    if Taken(t.rows, key) then Err(DuplicateResource)
    else Ok(t.(rows := t.rows + [FileRow(key, Available, false, None)]))
  }

  /** The rows of a rename: its source and its result. */
  datatype Renames = Renames(source: nat, result: nat)

  predicate Claims(rows: seq<FileRow>, i: nat, op: OperationId) {
    i < |rows| && rows[i].operation == Some(op)
  }

  function SettledStatus(rows: seq<FileRow>, i: nat, op: OperationId, renames: Option<Renames>, ending: Ending)
    : (status: FileStatus)
    requires i < |rows|
  {
    if renames.None? || !Claims(rows, renames.value.result, op) then rows[i].status
    else if ending.Succeeded? && Claims(rows, renames.value.source, op) then
      if i == renames.value.result then Available
      else if i == renames.value.source then OtherStatus
      else rows[i].status
    else if i == renames.value.result && (ending.Cancelled? || ending.DeadLettered?) then RenameFailed
    else rows[i].status
  }

  function SettledRow(rows: seq<FileRow>, i: nat, op: OperationId, renames: Option<Renames>, ending: Ending)
    : (row: FileRow)
    requires i < |rows|
  {
    if rows[i].operation == Some(op)
      then rows[i].(status := SettledStatus(rows, i, op, renames, ending), operation := None)
    else rows[i]
  }

  /** settle_broker_operation: the statuses of a rename's rows, then every claim and every
      reservation of the operation is let go. */
  function Settled(t: Tables, op: OperationId, renames: Option<Renames>, ending: Ending): (after: Tables) {
    Tables(seq(|t.rows|, i requires 0 <= i < |t.rows| => SettledRow(t.rows, i, op, renames, ending)),
           map key | key in t.reservations && t.reservations[key] != op :: t.reservations[key],
           if renames.Some? && ending.PartialFailure? then t.halted + {renames.value.source} else t.halted)
  }

  class SqlAlchemyFileStore {
    var rows: seq<FileRow>
    var reservations: map<Key, OperationId>
    var halted: set<nat>
    var operations: set<OperationId>
    var outbox: seq<OperationId>    // events "file.operation.execute"
    var audits: seq<string>

    function Current(): (t: Tables)
      reads this
    {
      Tables(rows, reservations, halted)
    }

    /** create_operation for a copy or a move. */
    method CreateTransfer(op: OperationId, source: Key, destination: Key, spaceActive: bool)
      returns (fault: Option<Fault>)
      modifies this
      ensures var r :=
                if spaceActive then Occupied(old(Current()), op, [source], [destination]) else Err(SpaceNotActive);
              && (if r.Ok? then fault == None && Current() == r.value
                  else fault == Some(r.error) && Current() == old(Current()))
              && operations == old(operations) + (if r.Ok? then {op} else {})
              && outbox == old(outbox) + (if r.Ok? then [op] else [])
              && audits == old(audits) + (if r.Ok? then ["file.operation_requested"] else [])
    {
      if !spaceActive {
        return Some(SpaceNotActive);
      }
      fault := OccupyOperationResources(op, [source], [destination]);
      if fault.None? {
        operations, outbox, audits := operations + {op}, outbox + [op], audits + ["file.operation_requested"];
      }
    }

    method OccupyOperationResources(op: OperationId, sources: seq<Key>, destinations: seq<Key>)
      returns (fault: Option<Fault>)
      modifies this`rows, this`reservations
      ensures var r := Occupied(old(Current()), op, sources, destinations);
              if r.Ok? then fault == None && Current() == r.value
              else fault == Some(r.error) && Current() == old(Current())
    {
      for i := 0 to |sources|
        invariant FirstSourceFault(rows, sources) == FirstSourceFault(rows, sources[i..])
      {
        assert sources[i..][1..] == sources[i + 1..];
        var row := RowOf(rows, sources[i]);
        if row.None? || !rows[row.value].status.Available? || rows[row.value].softDeleted {
          return Some(FileNotFound);
        }
        if rows[row.value].operation.Some? {
          return Some(InProgress);
        }
      }
      for i := 0 to |destinations|
        invariant forall j | 0 <= j < i :: RowOf(rows, destinations[j]).None?
      {
        if RowOf(rows, destinations[i]).Some? {
          return Some(DuplicateResource);
        }
      }
      var claimed: seq<FileRow>, reserved: map<Key, OperationId> := rows, reservations;
      for i := 0 to |sources|
        invariant Claimed(rows, sources, op) == Claimed(claimed, sources[i..], op)
      {
        assert sources[i..][1..] == sources[i + 1..];
        var row := RowOf(claimed, sources[i]);
        if row.Some? {
          claimed := claimed[row.value := claimed[row.value].(operation := Some(op))];
        }
      }
      for i := 0 to |destinations|
        invariant Reserved(reservations, destinations, op) == Reserved(reserved, destinations[i..], op)
      {
        assert destinations[i..][1..] == destinations[i + 1..];
        if destinations[i] in reserved {
          return Some(InProgress);
        }
        reserved := reserved[destinations[i] := op];
      }
      rows, reservations := claimed, reserved;
      return None;
    }

    method CreateRename(op: OperationId, source: nat, destination: Key) returns (fault: Option<Fault>)
      modifies this
      ensures var r := Renamed(old(Current()), op, source, destination);
              && (if r.Ok? then fault == None && Current() == r.value
                  else fault == Some(r.error) && Current() == old(Current()))
              && operations == old(operations) + (if r.Ok? then {op} else {})
              && outbox == old(outbox) + (if r.Ok? then [op] else [])
              && audits == old(audits) + (if r.Ok? then ["file.rename_requested"] else [])
    {
      if source >= |rows| || !rows[source].status.Available? || rows[source].softDeleted {
        return Some(FileNotFound);
      }
      if rows[source].operation.Some? {
        return Some(InProgress);
      }
      if source in halted {
        return Some(RenameConflict);
      }
      if Taken(rows, destination) {
        return Some(DuplicateResource);
      }
      rows := rows[source := rows[source].(operation := Some(op))] + [FileRow(destination, Renaming, false, Some(op))];
      operations, outbox, audits := operations + {op}, outbox + [op], audits + ["file.rename_requested"];
      return None;
    }

    /** The file row of commit_verified_file. */
    method CommitFile(key: Key) returns (fault: Option<Fault>)
      modifies this`rows
      ensures var r := Uploaded(old(Current()), key);
              if r.Ok? then fault == None && Current() == r.value
              else fault == Some(r.error) && Current() == old(Current())
    {
      if Taken(rows, key) {
        return Some(DuplicateResource);
      }
      rows := rows + [FileRow(key, Available, false, None)];
      return None;
    }

    method SettleBrokerOperation(op: OperationId, renames: Option<Renames>, ending: Ending)
      modifies this`rows, this`reservations, this`halted
      ensures Current() == Settled(old(Current()), op, renames, ending)
    {
      ghost var before := rows;
      var after := [];
      for i := 0 to |rows|
        invariant |after| == i && forall j | 0 <= j < i :: after[j] == SettledRow(rows, j, op, renames, ending)
      {
        var row := rows[i];
        if row.operation == Some(op) {
          row := row.(status := SettledStatus(rows, i, op, renames, ending), operation := None);
        }
        after := after + [row];
      }
      rows := after;
      reservations := map key | key in reservations && reservations[key] != op :: reservations[key];
      if renames.Some? && ending.PartialFailure? {
        halted := halted + {renames.value.source};
      }
      assert rows == Settled(Tables(before, old(reservations), old(halted)), op, renames, ending).rows;
    }
  }

  // ------------------------------------------------- what a creation ensures

  function CreatedTransfer(t: Tables, op: OperationId, source: Key, destination: Key): (r: Result<Tables, Fault>) {
    Occupied(t, op, [source], [destination])
  }

  /** Finding a row looks at keys only. */
  lemma {:induction false} SameKeysSameRow(a: seq<FileRow>, b: seq<FileRow>, key: Key)
    requires |a| == |b| && forall i | 0 <= i < |a| :: a[i].key == b[i].key
    ensures RowOf(a, key) == RowOf(b, key)
  {
    if a != [] {
      SameKeysSameRow(a[..|a| - 1], b[..|b| - 1], key);
    }
  }

  lemma OneKeyIsOccupied(t: Tables, op: OperationId, source: Key, destination: Key)
    ensures CreatedTransfer(t, op, source, destination)
         == if SourceFault(t.rows, source).Some? then Err(SourceFault(t.rows, source).value)
            else if RowOf(t.rows, destination).Some? then Err(DuplicateResource)
            else if destination in t.reservations then Err(InProgress)
            else var i := RowOf(t.rows, source).value;
                 Ok(Tables(t.rows[i := t.rows[i].(operation := Some(op))], t.reservations[destination := op], t.halted))
  {
    assert [source][1..] == [] && [destination][1..] == [];
    assert FirstSourceFault(t.rows, [source]) == SourceFault(t.rows, source);
    assert destination in [destination];
    if destination !in t.reservations {
      assert Reserved(t.reservations, [destination], op) == Reserved(t.reservations[destination := op], [], op);
    }
    var i := RowOf(t.rows, source);
    if i.Some? {
      var claimed := t.rows[i.value := t.rows[i.value].(operation := Some(op))];
      assert Claimed(t.rows, [source], op) == Claimed(claimed, [], op);
    }
  }

  /** A transfer is created exactly when its source is an available, unoccupied file, and
      no row, of any status, and no reservation has its destination. */
  lemma TransferIsCreatedExactlyWhen(t: Tables, op: OperationId, source: Key, destination: Key)
    ensures CreatedTransfer(t, op, source, destination).Ok?
       <==> && SourceFault(t.rows, source).None?
            && (forall row | row in t.rows :: row.key != destination)
            && destination !in t.reservations
  {
    OneKeyIsOccupied(t, op, source, destination);
  }

  /** It then occupies its source and reserves its destination, and changes nothing else. */
  lemma CreationClaimsItsKeys(t: Tables, op: OperationId, source: Key, destination: Key)
    requires CreatedTransfer(t, op, source, destination).Ok?
    ensures var after := CreatedTransfer(t, op, source, destination).value;
            && after.reservations == t.reservations[destination := op]
            && SourceFault(after.rows, source) == Some(InProgress)
            && |after.rows| == |t.rows|
            && (forall i | 0 <= i < |t.rows| :: after.rows[i].(operation := None) == t.rows[i].(operation := None))
            && forall key :: RowOf(after.rows, key) == RowOf(t.rows, key)
  {
    OneKeyIsOccupied(t, op, source, destination);
    var after := CreatedTransfer(t, op, source, destination).value;
    forall key
      ensures RowOf(after.rows, key) == RowOf(t.rows, key)
    {
      SameKeysSameRow(after.rows, t.rows, key);
    }
  }

  /** No operation moves or copies a key onto itself: the source's own row stands in the way. */
  lemma SelfTransferIsNeverCreated(t: Tables, op: OperationId, key: Key)
    ensures CreatedTransfer(t, op, key, key).Err?
  {
    TransferIsCreatedExactlyWhen(t, op, key, key);
  }

  /** A rename of a key onto itself is refused by its row as well, whatever was compared before. */
  lemma SelfRenameIsNeverAdmitted(t: Tables, op: OperationId, source: nat)
    requires source < |t.rows|
    ensures Renamed(t, op, source, t.rows[source].key).Err?
  {
    assert t.rows[source] in t.rows;
  }

  // ------------------------------------------------- any number of keys

  /** The last row of the key. */
  predicate IsRowOf(rows: seq<FileRow>, key: Key, i: nat) {
    i < |rows| && rows[i].key == key && forall j | i < j < |rows| :: rows[j].key != key
  }

  lemma {:induction false} RowOfIsTheLast(rows: seq<FileRow>, key: Key)
    ensures forall i: nat :: RowOf(rows, key) == Some(i) <==> IsRowOf(rows, key, i)
  {
    if rows != [] && rows[|rows| - 1].key != key {
      var before := rows[..|rows| - 1];
      RowOfIsTheLast(before, key);
      forall i: nat
        ensures IsRowOf(rows, key, i) <==> IsRowOf(before, key, i)
      {
        assert i < |before| ==> before[i] == rows[i];
      }
    }
  }

  /** The file of the key is there and no operation has it. */
  ghost predicate MayBeClaimed(rows: seq<FileRow>, key: Key) {
    exists i: nat :: IsRowOf(rows, key, i) && rows[i] == FileRow(key, Available, false, None)
  }

  /** It is there and an operation has it. */
  ghost predicate IsClaimed(rows: seq<FileRow>, key: Key) {
    exists i: nat ::
      IsRowOf(rows, key, i) && rows[i].status == Available && !rows[i].softDeleted && rows[i].operation.Some?
  }

  lemma SourceFaultExactlyWhen(rows: seq<FileRow>, key: Key)
    ensures SourceFault(rows, key)
         == if MayBeClaimed(rows, key) then None
            else if IsClaimed(rows, key) then Some(InProgress) else Some(FileNotFound)
  {
    RowOfIsTheLast(rows, key);
    if RowOf(rows, key).Some? {
      assert IsRowOf(rows, key, RowOf(rows, key).value);
    }
  }

  /** The first key whose file may not be claimed decides. */
  lemma {:induction false} FirstSourceDecides(rows: seq<FileRow>, keys: seq<Key>, n: nat)
    requires n <= |keys| && forall k | 0 <= k < n :: MayBeClaimed(rows, keys[k])
    ensures n == |keys| ==> FirstSourceFault(rows, keys) == None
    ensures n < |keys| && !MayBeClaimed(rows, keys[n]) ==>
              FirstSourceFault(rows, keys) == Some(if IsClaimed(rows, keys[n]) then InProgress else FileNotFound)
    decreases n
  {
    if n > 0 {
      SourceFaultExactlyWhen(rows, keys[0]);
      FirstSourceDecides(rows, keys[1..], n - 1);
    } else if n < |keys| {
      SourceFaultExactlyWhen(rows, keys[0]);
    }
  }

  predicate Distinct(keys: seq<Key>) {
    forall i, j | 0 <= i < j < |keys| :: keys[i] != keys[j]
  }

  lemma {:induction false} ReservedExactly(reservations: map<Key, OperationId>, keys: seq<Key>, op: OperationId)
    ensures var after := Reserved(reservations, keys, op);
            && (after.Some? <==> Distinct(keys) && forall key | key in keys :: key !in reservations)
            && (after.Some? ==>
                  && (forall key :: key in after.value <==> key in reservations || key in keys)
                  && (forall key | key in after.value ::
                        after.value[key] == if key in keys then op else reservations[key]))
    decreases |keys|
  {
    if keys != [] {
      ReservedExactly(reservations[keys[0] := op], keys[1..], op);
      assert forall key :: key in keys <==> key == keys[0] || key in keys[1..];
      assert Distinct(keys) <==> Distinct(keys[1..]) && keys[0] !in keys[1..];
    }
  }

  lemma {:induction false} ClaimedExactly(rows: seq<FileRow>, keys: seq<Key>, op: OperationId)
    ensures var after := Claimed(rows, keys, op);
            && |after| == |rows|
            && forall i: nat | i < |rows| ::
                 after[i] == if exists key | key in keys :: RowOf(rows, key) == Some(i)
                             then rows[i].(operation := Some(op)) else rows[i]
    decreases |keys|
  {
    if keys != [] {
      var first := RowOf(rows, keys[0]);
      var next := if first.None? then rows else rows[first.value := rows[first.value].(operation := Some(op))];
      ClaimedExactly(next, keys[1..], op);
      forall key
        ensures RowOf(next, key) == RowOf(rows, key)
      {
        SameKeysSameRow(next, rows, key);
      }
      assert forall key :: key in keys <==> key == keys[0] || key in keys[1..];
    }
  }

  /** Operations on any number of keys are created exactly when every source may be claimed
      and every destination is free, unreserved and named once. Then the rows of all sources
      are occupied, all destinations reserved, and nothing else is changed. */
  lemma OccupiedExactly(t: Tables, op: OperationId, sources: seq<Key>, destinations: seq<Key>)
    ensures var r := Occupied(t, op, sources, destinations);
            && (r.Ok? <==>
                  && (forall key | key in sources :: MayBeClaimed(t.rows, key))
                  && (forall key | key in destinations :: key !in t.reservations)
                  && (forall row | row in t.rows :: row.key !in destinations)
                  && Distinct(destinations))
            && (r.Ok? ==>
                  && |r.value.rows| == |t.rows| && r.value.halted == t.halted
                  && (forall i: nat | i < |t.rows| ::
                        r.value.rows[i] == if t.rows[i].key in sources && IsRowOf(t.rows, t.rows[i].key, i)
                                           then t.rows[i].(operation := Some(op)) else t.rows[i])
                  && (forall key :: key in r.value.reservations <==> key in t.reservations || key in destinations)
                  && (forall key | key in r.value.reservations ::
                        r.value.reservations[key] == if key in destinations then op else t.reservations[key]))
  {
    SourcesFree(t.rows, sources);
    ReservedExactly(t.reservations, destinations, op);
    ClaimedExactly(t.rows, sources, op);
    forall i: nat | i < |t.rows|
      ensures (exists key | key in sources :: RowOf(t.rows, key) == Some(i))
         <==> t.rows[i].key in sources && IsRowOf(t.rows, t.rows[i].key, i)
    {
      RowOfIsTheLast(t.rows, t.rows[i].key);
    }
  }

  lemma SourcesFree(rows: seq<FileRow>, keys: seq<Key>)
    ensures FirstSourceFault(rows, keys) == None <==> forall key | key in keys :: MayBeClaimed(rows, key)
  {
    if forall key | key in keys :: MayBeClaimed(rows, key) {
      FirstSourceDecides(rows, keys, |keys|);
    } else {
      var n := FirstUnfree(rows, keys);
      FirstSourceDecides(rows, keys, n);
    }
  }

  lemma {:induction false} FirstUnfree(rows: seq<FileRow>, keys: seq<Key>) returns (n: nat)
    requires exists key | key in keys :: !MayBeClaimed(rows, key)
    ensures n < |keys| && !MayBeClaimed(rows, keys[n]) && forall k | 0 <= k < n :: MayBeClaimed(rows, keys[k])
  {
    if !MayBeClaimed(rows, keys[0]) {
      n := 0;
    } else {
      var rest := FirstUnfree(rows, keys[1..]);
      n := rest + 1;
    }
  }

  /** What is refused is refused for the first source that may not be claimed, else for a
      row at a destination, else for a reservation. */
  lemma OccupationFault(t: Tables, op: OperationId, sources: seq<Key>, destinations: seq<Key>, n: nat)
    requires n <= |sources| && forall k | 0 <= k < n :: MayBeClaimed(t.rows, sources[k])
    ensures var r := Occupied(t, op, sources, destinations);
            && (n < |sources| && !MayBeClaimed(t.rows, sources[n]) ==>
                  r == Err(if IsClaimed(t.rows, sources[n]) then InProgress else FileNotFound))
            && (n == |sources| && r.Err? ==>
                  r.error == if exists row | row in t.rows :: row.key in destinations
                             then DuplicateResource else InProgress)
  {
    FirstSourceDecides(t.rows, sources, n);
    ReservedExactly(t.reservations, destinations, op);
  }

  /** When a rename is created, and what it leaves. */
  lemma RenamedExactlyWhen(t: Tables, op: OperationId, source: nat, destination: Key)
    ensures var r := Renamed(t, op, source, destination);
            && (r.Ok? <==>
                  && source < |t.rows| && t.rows[source] == FileRow(t.rows[source].key, Available, false, None)
                  && source !in t.halted
                  && forall row | row in t.rows && row.key == destination ::
                       !row.softDeleted
                       && row.status !in {Available, Renaming, RenameFailed, Deleting, DeleteFailed})
            && (r.Ok? ==>
                  && |r.value.rows| == |t.rows| + 1
                  && r.value.reservations == t.reservations && r.value.halted == t.halted
                  && r.value.rows[|t.rows|] == FileRow(destination, Renaming, false, Some(op))
                  && (forall i: nat | i < |t.rows| ::
                        r.value.rows[i] == if i == source then t.rows[i].(operation := Some(op)) else t.rows[i]))
  {
  }

  lemma RenameFault(t: Tables, op: OperationId, source: nat, destination: Key)
    ensures var r := Renamed(t, op, source, destination);
            if source >= |t.rows| || t.rows[source].status != Available || t.rows[source].softDeleted then
              r == Err(FileNotFound)
            else if t.rows[source].operation != None then r == Err(InProgress)
            else if source in t.halted then r == Err(RenameConflict)
            else r.Err? ==> r.error == DuplicateResource
  {
  }

  /** An uploaded file is refused by a live row of its key and by nothing else, and is then
      an available file that no operation has. */
  lemma UploadedExactlyWhen(t: Tables, key: Key)
    ensures Uploaded(t, key)
         == if exists row | row in t.rows && row.key == key ::
                 row.softDeleted || row.status in {Available, Renaming, RenameFailed, Deleting, DeleteFailed}
            then Err(DuplicateResource)
            else Ok(Tables(t.rows + [FileRow(key, Available, false, None)], t.reservations, t.halted))
  {
  }

  /** Settling lets go of exactly the operation's own claims and reservations. A rename that
      succeeded makes its result available and its source history; one that failed marks its
      result; a partial failure leaves both and halts further renames of the source. */
  lemma SettledExactly(t: Tables, op: OperationId, renames: Option<Renames>, ending: Ending)
    ensures var after := Settled(t, op, renames, ending);
            && |after.rows| == |t.rows|
            && (forall i: nat | i < |t.rows| ::
                  && after.rows[i].key == t.rows[i].key && after.rows[i].softDeleted == t.rows[i].softDeleted
                  && (t.rows[i].operation != Some(op) ==> after.rows[i] == t.rows[i])
                  && (t.rows[i].operation == Some(op) ==> after.rows[i].operation == None)
                  && (renames == None || i !in {renames.value.source, renames.value.result} ==>
                        after.rows[i].status == t.rows[i].status))
            && (forall key :: key in after.reservations <==> key in t.reservations && t.reservations[key] != op)
            && (forall key | key in after.reservations :: after.reservations[key] == t.reservations[key])
            && after.halted
               == t.halted + if renames != None && ending == PartialFailure then {renames.value.source} else {}
  {
  }

  lemma SettledRename(t: Tables, op: OperationId, r: Renames, ending: Ending)
    requires r.source < |t.rows| && r.result < |t.rows| && r.source != r.result
    requires t.rows[r.source].operation == Some(op) && t.rows[r.result].operation == Some(op)
    ensures var after := Settled(t, op, Some(r), ending).rows;
            && (ending == Succeeded ==> after[r.result].status == Available && after[r.source].status == OtherStatus)
            && (ending == Cancelled || ending == DeadLettered ==>
                  after[r.result].status == RenameFailed && after[r.source].status == t.rows[r.source].status)
            && (ending == PartialFailure ==>
                  && after[r.result].status == t.rows[r.result].status
                  && after[r.source].status == t.rows[r.source].status)
  {
  }

  // ------------------------------------- a second operation on a key of the first

  /** At most one live row a key: the partial unique index. */
  predicate OneLiveRow(rows: seq<FileRow>) {
    forall i, j | 0 <= i < j < |rows| :: Live(rows[i]) && Live(rows[j]) ==> rows[i].key != rows[j].key
  }

  lemma ClaimKeepsOneLiveRow(rows: seq<FileRow>, i: nat, op: Option<OperationId>)
    requires i < |rows| && OneLiveRow(rows)
    ensures OneLiveRow(rows[i := rows[i].(operation := op)])
  {
  }

  lemma AddedRowIsTheOneLive(rows: seq<FileRow>, row: FileRow)
    requires OneLiveRow(rows) && !Taken(rows, row.key)
    ensures OneLiveRow(rows + [row])
  {
    assert forall i | 0 <= i < |rows| :: rows[i] in rows;
  }

  /** The index holds through every transaction. */
  lemma TransactionsKeepOneLiveRow(t: Tables, op: OperationId, source: Key, destination: Key, row: nat)
    requires OneLiveRow(t.rows)
    ensures var r := CreatedTransfer(t, op, source, destination); r.Ok? ==> OneLiveRow(r.value.rows)
    ensures var r := Renamed(t, op, row, destination); r.Ok? ==> OneLiveRow(r.value.rows)
    ensures var r := Uploaded(t, destination); r.Ok? ==> OneLiveRow(r.value.rows)
  {
    OneKeyIsOccupied(t, op, source, destination);
    var i := RowOf(t.rows, source);
    if i.Some? {
      ClaimKeepsOneLiveRow(t.rows, i.value, Some(op));
    }
    if Renamed(t, op, row, destination).Ok? {
      ClaimKeepsOneLiveRow(t.rows, row, Some(op));
      var claimed := t.rows[row := t.rows[row].(operation := Some(op))];
      ClaimTakesNothing(t.rows, row, Some(op), destination);
      AddedRowIsTheOneLive(claimed, FileRow(destination, Renaming, false, Some(op)));
    }
    if Uploaded(t, destination).Ok? {
      AddedRowIsTheOneLive(t.rows, FileRow(destination, Available, false, None));
    }
  }

  lemma ClaimTakesNothing(rows: seq<FileRow>, i: nat, op: Option<OperationId>, key: Key)
    requires i < |rows|
    ensures Taken(rows[i := rows[i].(operation := op)], key) <==> Taken(rows, key)
  {
    var claimed := rows[i := rows[i].(operation := op)];
    if Taken(rows, key) {
      var j :| 0 <= j < |rows| && rows[j].key == key && Live(rows[j]);
      assert claimed[j] in claimed;
    }
    if Taken(claimed, key) {
      var j :| 0 <= j < |claimed| && claimed[j].key == key && Live(claimed[j]);
      assert rows[j] in rows;
    }
  }

  lemma SettlingKeepsOneLiveRow(t: Tables, op: OperationId, renames: Option<Renames>, ending: Ending)
    requires OneLiveRow(t.rows)
    requires renames.Some? && Claims(t.rows, renames.value.result, op) ==> Live(t.rows[renames.value.result])
    ensures OneLiveRow(Settled(t, op, renames, ending).rows)
  {
    var after := Settled(t, op, renames, ending).rows;
    assert forall i | 0 <= i < |after| :: after[i].key == t.rows[i].key && (Live(after[i]) ==> Live(t.rows[i]));
  }

  /** The keys of a copy or move that stands: its source is occupied, its destination
      reserved and without a row. */
  predicate Stands(t: Tables, op: OperationId, source: Key, destination: Key) {
    && SourceFault(t.rows, source) == Some(InProgress)
    && destination in t.reservations && t.reservations[destination] == op
    && RowOf(t.rows, destination).None?
  }

  /** While a copy or move stands, no other copy or move is admitted on either of its keys.
      A rename is, exactly onto its destination from a row that may be renamed, and so is
      the commit of a file uploaded there: neither looks at reservations. */
  lemma SecondIsAdmittedExactlyWhen(t: Tables, op: OperationId, source: Key, destination: Key,
                                    other: OperationId, source2: Key, destination2: Key, row: nat)
    requires OneLiveRow(t.rows) && Stands(t, op, source, destination)
    ensures source2 in {source, destination} || destination2 in {source, destination} ==>
              CreatedTransfer(t, other, source2, destination2).Err?
    ensures row < |t.rows| && (t.rows[row].key in {source, destination} || destination2 in {source, destination}) ==>
              (Renamed(t, other, row, destination2).Ok? <==>
                 && destination2 == destination && t.rows[row].key != source
                 && Free(t.rows[row]) && t.rows[row].operation.None? && row !in t.halted)
    ensures destination2 in {source, destination} ==>
              (Uploaded(t, destination2).Ok? <==> destination2 == destination)
  {
    OneKeyIsOccupied(t, other, source2, destination2);
    var i := RowOf(t.rows, source).value;
    assert t.rows[i] in t.rows && Taken(t.rows, source);
    assert !Taken(t.rows, destination);
    if row < |t.rows| && t.rows[row].key == source && Free(t.rows[row]) {
      assert row == i;
    }
    assert row < |t.rows| ==> t.rows[row] in t.rows;
  }

  lemma CreatedTransferStands(t: Tables, op: OperationId, source: Key, destination: Key)
    requires CreatedTransfer(t, op, source, destination).Ok?
    ensures Stands(CreatedTransfer(t, op, source, destination).value, op, source, destination)
  {
    OneKeyIsOccupied(t, op, source, destination);
    CreationClaimsItsKeys(t, op, source, destination);
  }

  /** On the key of an occupied live row nothing is admitted. */
  lemma OccupiedKeyAdmitsNothing(t: Tables, i: nat, other: OperationId, source: Key, destination: Key, row: nat)
    requires OneLiveRow(t.rows) && i < |t.rows| && Live(t.rows[i]) && t.rows[i].operation.Some?
    ensures var key := t.rows[i].key;
            && (source == key || destination == key ==> CreatedTransfer(t, other, source, destination).Err?)
            && (row < |t.rows| && (t.rows[row].key == key || destination == key) ==>
                  Renamed(t, other, row, destination).Err?)
            && (destination == key ==> Uploaded(t, destination).Err?)
  {
    OneKeyIsOccupied(t, other, source, destination);
    assert t.rows[i] in t.rows && Taken(t.rows, t.rows[i].key);
    var j := RowOf(t.rows, source);
    if j.Some? && source == t.rows[i].key && Live(t.rows[j.value]) {
      assert i == j.value;
    }
    if row < |t.rows| && t.rows[row].key == t.rows[i].key && Live(t.rows[row]) {
      assert i == row;
    }
  }

  /** A rename stands on occupied rows at both its keys: beside it nothing at all is admitted. */
  lemma NothingIsAdmittedBesideRename(t: Tables, op: OperationId, row: nat, destination: Key,
                                      other: OperationId, source2: Key, destination2: Key, row2: nat)
    requires OneLiveRow(t.rows) && Renamed(t, op, row, destination).Ok?
    ensures var after, keys := Renamed(t, op, row, destination).value, {t.rows[row].key, destination};
            && (source2 in keys || destination2 in keys ==> CreatedTransfer(after, other, source2, destination2).Err?)
            && (row2 < |after.rows| && (after.rows[row2].key in keys || destination2 in keys) ==>
                  Renamed(after, other, row2, destination2).Err?)
            && (destination2 in keys ==> Uploaded(after, destination2).Err?)
  {
    TransactionsKeepOneLiveRow(t, op, "", destination, row);
    var after := Renamed(t, op, row, destination).value;
    OccupiedKeyAdmitsNothing(after, row, other, source2, destination2, row2);
    OccupiedKeyAdmitsNothing(after, |t.rows|, other, source2, destination2, row2);
  }

  // ------------------------------------------------ what the executor then finds

  function MoveOf(source: Key, destination: Key): (op: W.Operation) {
    W.Operation(W.MoveOperation, Some(source), Some(destination), [], None, None)
  }

  /** Left to itself, a created move keeps its bytes on every run of attempts exactly when no
      object stands at its destination, or an equal one, or one of another length. */
  lemma CreatedMoveSurvivesExactlyWhen(t: Tables, id: OperationId, source: Key, destination: Key, objects: Objects,
                                       body: seq<Text.byte>)
    requires CreatedTransfer(t, id, source, destination).Ok? && W.Holds(objects, source, body)
    ensures (forall attempts :: W.Kept(W.Run(objects, MoveOf(source, destination), attempts),
                                       MoveOf(source, destination), body))
       <==> destination in objects && |objects[destination].body| == |body| ==> objects[destination].body == body
  {
    SelfTransferIsNeverCreated(t, id, source);
    W.SurvivesExactlyWhen(objects, MoveOf(source, destination), body);
  }
}
