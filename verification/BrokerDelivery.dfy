/** Delivery of file operations: RabbitMQFileOperationReceiver._handle, and the machine
    that its handlers, the outbox publisher and the recovery scan form together. */
module BrokerDelivery {
  import opened Wrappers

  datatype Status = Succeeded | Cancelled | PartialFailure | DeadLettered

  /** What the executor reports, before the receiver turns it into a settlement. */
  datatype Verdict = Completed | Revoked | PartlyFailed | Failed | RetryWait

  /** What one run of _handle does to the store, the broker and its delivery, in order. */
  datatype Effect =
    | Malformed                 // the body is not an operation event
    | NotRunnable               // start_broker_operation returned nothing
    | Started(attempt: nat)     // it moved the operation to processing
    | Settled(status: Status)
    | RetryRefused              // schedule_broker_retry returned nothing
    | RetryScheduled            // it moved the operation to retry_scheduled
    | CopyQueued(queue: nat)    // a copy of the message stands in a retry queue
    | Acked
    | Rejected
    | Requeued

  datatype Ending = Returned | Escaped  // an exception leaves the handler

  predicate Disposes(e: Effect) {
    e.Acked? || e.Rejected? || e.Requeued?
  }

  // ------------------------------------------------------------ one delivery

  datatype StartAnswer = StartsAt(attempt: nat) | StartsNot | StartRaises(committed: Option<nat>)
  datatype RetryAnswer = RetriesAt(attempt: nat) | RetriesNot | RetryRaises(committed: bool)
  datatype PublishAnswer = Confirmed | LostBefore | LostAfter
  datatype CallFault = Fine | RaiseBefore | RaiseAfter

  /** How every call that _handle makes goes. */
  datatype Answers = Answers(
    parses: bool,
    start: StartAnswer,
    fileIdsRead: bool,
    locked: bool,            // false also when acquire raised
    execute: Option<Verdict>,  // nothing when it raised
    lockReleased: bool,
    settle: CallFault,
    retry: RetryAnswer,
    channelOpens: bool,
    exchangeFound: bool,
    publish: PublishAnswer,
    channelCloses: bool,
    dispose: CallFault)

  const RETRY_QUEUES: nat := 4

  /** _retry_routing_key: the first retry waits shortest, later ones clamp at the longest. */
  function RetryQueue(attempt: int): (queue: nat)
    ensures attempt < 1 ==> queue == 0
    ensures queue < RETRY_QUEUES && (1 <= attempt <= RETRY_QUEUES ==> queue == attempt - 1)
    ensures attempt > RETRY_QUEUES ==> queue == RETRY_QUEUES - 1
  {
    var wanted := if attempt - 1 > 0 then attempt - 1 else 0;
    if wanted < RETRY_QUEUES then wanted else RETRY_QUEUES - 1
  }

  datatype Run = Run(effects: seq<Effect>, ending: Ending)

  function Then(first: seq<Effect>, rest: Run): (r: Run) {
    rest.(effects := first + rest.effects)
  }

  function Dispose(e: Effect, a: Answers): (r: Run) {
    Run(if a.dispose.RaiseBefore? then [] else [e], if a.dispose.Fine? then Returned else Escaped)
  }

  /** A settled failure goes to the dead-letter exchange, everything else is acknowledged. */
  function Disposal(status: Status): (e: Effect) {
    if status.PartialFailure? || status.DeadLettered? then Rejected else Acked
  }

  function Settle(status: Status, a: Answers): (r: Run) {
    if a.settle.Fine? then Then([Settled(status)], Dispose(Disposal(status), a))
    else Run(if a.settle.RaiseAfter? then [Settled(status)] else [], Escaped)
  }

  function RetryOrDeadLetter(attempt: nat, maxRetries: int, a: Answers): (r: Run) {
    if attempt >= maxRetries then Settle(DeadLettered, a)
    else
      match a.retry
      case RetriesNot => Then([RetryRefused], Dispose(Acked, a))
      case RetryRaises(committed) => Run(if committed then [RetryScheduled] else [], Escaped)
      case RetriesAt(next) =>
        if !a.channelOpens then Run([RetryScheduled], Escaped)
        else Then([RetryScheduled], PublishCopy(RetryQueue(next), a))
  }

  /** The publish, its except clause, and the close of its finally clause. */
  function PublishCopy(queue: nat, a: Answers): (r: Run) {
    if !a.exchangeFound || !a.publish.Confirmed? then
      var lost := if a.exchangeFound && a.publish.LostAfter? then [CopyQueued(queue)] else [];
      var requeued := Then(lost, Dispose(Requeued, a));
      if a.channelCloses then requeued else requeued.(ending := Escaped)
    else if !a.channelCloses then Run([CopyQueued(queue)], Escaped)
    else Then([CopyQueued(queue)], Dispose(Acked, a))
  }

  function Handling(maxRetries: int, a: Answers): (r: Run) {
    if !a.parses then Then([Malformed], Dispose(Rejected, a)) else Starting(maxRetries, a)
  }

  function Starting(maxRetries: int, a: Answers): (r: Run) {
    match a.start
    case StartRaises(committed) => Run(if committed.Some? then [Started(committed.value)] else [], Escaped)
    case StartsNot => Then([NotRunnable], Dispose(Acked, a))
    case StartsAt(attempt) => Then([Started(attempt)], Processing(attempt, maxRetries, a))
  }

  /** From the started operation on: the locks, the executor and its status. */
  function Processing(attempt: nat, maxRetries: int, a: Answers): (r: Run) {
    if !a.fileIdsRead then Run([], Escaped)
    else if !a.locked then RetryOrDeadLetter(attempt, maxRetries, a)
    else if a.execute.None? || !a.lockReleased then Run([], Escaped)
    else Conclude(attempt, a.execute.value, maxRetries, a)
  }

  function Conclude(attempt: nat, verdict: Verdict, maxRetries: int, a: Answers): (r: Run) {
    match verdict
    case RetryWait => RetryOrDeadLetter(attempt, maxRetries, a)
    case Failed => Settle(DeadLettered, a)
    case PartlyFailed => Settle(PartialFailure, a)
    case Revoked => Settle(Cancelled, a)
    case Completed => Settle(Succeeded, a)
  }

  class RabbitMQFileOperationReceiver {
    const maxRetries: int
    var log: seq<Effect>

    constructor (maxRetries: int)
      ensures this.maxRetries == maxRetries && log == []
    {
      this.maxRetries, this.log := maxRetries, [];
    }

    method Handle(a: Answers) returns (ending: Ending)
      modifies this
      ensures log == old(log) + Handling(maxRetries, a).effects && ending == Handling(maxRetries, a).ending
    {
      if !a.parses {
        ending := Drop(Malformed, Rejected, a);
      } else {
        ending := Start(a);
      }
    }

    method Start(a: Answers) returns (ending: Ending)
      modifies this
      ensures log == old(log) + Starting(maxRetries, a).effects && ending == Starting(maxRetries, a).ending
    {
      match a.start {
        case StartRaises(committed) =>
          if committed.Some? {
            log := log + [Started(committed.value)];
          }
          return Escaped;
        case StartsNot =>
          ending := Drop(NotRunnable, Acked, a);
        case StartsAt(attempt) =>
          log := log + [Started(attempt)];
          ending := Process(attempt, a);
      }
    }

    /** The rest of _handle, from the started operation on. */
    method Process(attempt: nat, a: Answers) returns (ending: Ending)
      modifies this
      ensures log == old(log) + Processing(attempt, maxRetries, a).effects
      ensures ending == Processing(attempt, maxRetries, a).ending
    {
      if !a.fileIdsRead {
        return Escaped;
      }
      if !a.locked {
        ending := RetryOrGiveUp(attempt, a);
        return;
      }
      if a.execute.None? || !a.lockReleased {
        return Escaped;
      }
      ending := ActOn(attempt, a.execute.value, a);
    }

    /** Its end, once the executor has returned its status. */
    method ActOn(attempt: nat, verdict: Verdict, a: Answers) returns (ending: Ending)
      modifies this
      ensures log == old(log) + Conclude(attempt, verdict, maxRetries, a).effects
      ensures ending == Conclude(attempt, verdict, maxRetries, a).ending
    {
      match verdict {
        case RetryWait => ending := RetryOrGiveUp(attempt, a);
        case Failed => ending := SettleThenDispose(DeadLettered, a);
        case PartlyFailed => ending := SettleThenDispose(PartialFailure, a);
        case Revoked => ending := SettleThenDispose(Cancelled, a);
        case Completed => ending := SettleThenDispose(Succeeded, a);
      }
    }

    method Finish(e: Effect, a: Answers) returns (ending: Ending)
      modifies this
      ensures log == old(log) + Dispose(e, a).effects && ending == Dispose(e, a).ending
    {
      if !a.dispose.RaiseBefore? {
        log := log + [e];
      }
      return if a.dispose.Fine? then Returned else Escaped;
    }

    /** There is nothing to do about the delivery but to dispose of it. */
    method Drop(why: Effect, disposal: Effect, a: Answers) returns (ending: Ending)
      modifies this
      ensures log == old(log) + Then([why], Dispose(disposal, a)).effects && ending == Dispose(disposal, a).ending
    {
      log := log + [why];
      ending := Finish(disposal, a);
    }

    method SettleThenDispose(status: Status, a: Answers) returns (ending: Ending)
      modifies this
      ensures log == old(log) + Settle(status, a).effects && ending == Settle(status, a).ending
    {
      if !a.settle.RaiseBefore? {
        log := log + [Settled(status)];
      }
      if !a.settle.Fine? {
        return Escaped;
      }
      ending := Finish(Disposal(status), a);
    }

    method RetryOrGiveUp(attempt: nat, a: Answers) returns (ending: Ending)
      modifies this
      ensures log == old(log) + RetryOrDeadLetter(attempt, maxRetries, a).effects
      ensures ending == RetryOrDeadLetter(attempt, maxRetries, a).ending
    {
      if attempt >= maxRetries {
        ending := SettleThenDispose(DeadLettered, a);
        return;
      }
      match a.retry {
        case RetriesNot =>
          ending := Drop(RetryRefused, Acked, a);
        case RetryRaises(committed) =>
          if committed {
            log := log + [RetryScheduled];
          }
          return Escaped;
        case RetriesAt(next) =>
          log := log + [RetryScheduled];
          if !a.channelOpens {
            return Escaped;
          }
          if a.exchangeFound && !a.publish.LostBefore? {
            log := log + [CopyQueued(RetryQueue(next))];
          }
          if !a.exchangeFound || !a.publish.Confirmed? {
            ending := Finish(Requeued, a);
            return if a.channelCloses then ending else Escaped;
          }
          if !a.channelCloses {
            return Escaped;
          }
          ending := Finish(Acked, a);
      }
    }
  }

  // ------------------------------------------------- what each effect means

  /** The run got as far as the locks. */
  predicate Begun(a: Answers) {
    a.parses && a.start.StartsAt? && a.fileIdsRead
  }

  /** The executor reported this. */
  predicate Reports(a: Answers, verdict: Verdict) {
    Begun(a) && a.locked && a.execute == Some(verdict) && a.lockReleased
  }

  /** It got no lock, or was told to wait. */
  predicate MustWait(a: Answers) {
    (Begun(a) && !a.locked) || Reports(a, RetryWait)
  }

  lemma SettlesFor(status: Status, a: Answers)
    ensures forall s :: Settled(s) in Settle(status, a).effects <==> s == status && a.settle != RaiseBefore
    ensures forall e | e in Settle(status, a).effects :: e == Settled(status) || e == Disposal(status)
    ensures Disposal(status) in Settle(status, a).effects <==> a.settle == Fine && a.dispose != RaiseBefore
    ensures Settle(status, a).ending == Returned <==> a.settle == Fine && a.dispose == Fine
  {
    if a.settle == Fine && a.dispose != RaiseBefore {
      assert Settle(status, a).effects == [Settled(status), Disposal(status)];
      assert Settle(status, a).effects[1] == Disposal(status);
    } else if a.settle != RaiseBefore {
      assert Settle(status, a).effects == [Settled(status)];
    }
  }

  lemma PublishesFor(queue: nat, a: Answers)
    ensures var r := PublishCopy(queue, a);
            var confirmed := a.exchangeFound && a.publish == Confirmed;
            && (forall e | e in r.effects :: e.CopyQueued? || e.Requeued? || e.Acked?)
            && (forall q :: CopyQueued(q) in r.effects <==> q == queue && a.exchangeFound && a.publish != LostBefore)
            && (Requeued in r.effects <==> !confirmed && a.dispose != RaiseBefore)
            && (Acked in r.effects <==> confirmed && a.channelCloses && a.dispose != RaiseBefore)
            && (r.ending == Returned <==> a.channelCloses && a.dispose == Fine)
  {
    var lost := if a.exchangeFound && a.publish.LostAfter? then [CopyQueued(queue)] else [];
    if !a.exchangeFound || !a.publish.Confirmed? {
      assert PublishCopy(queue, a).effects == lost + Dispose(Requeued, a).effects;
    }
  }

  lemma RetrySettlesFor(attempt: nat, maxRetries: int, a: Answers)
    ensures var effects := RetryOrDeadLetter(attempt, maxRetries, a).effects;
            forall s :: Settled(s) in effects <==> s == DeadLettered && attempt >= maxRetries && a.settle != RaiseBefore
  {
    if attempt >= maxRetries {
      SettlesFor(DeadLettered, a);
    } else if a.retry.RetriesAt? && a.channelOpens {
      PublishesFor(RetryQueue(a.retry.attempt), a);
    }
  }

  predicate StartsNothing(effects: seq<Effect>) {
    Malformed !in effects && NotRunnable !in effects && forall e | e in effects :: !e.Started?
  }

  lemma RetriesFor(attempt: nat, maxRetries: int, a: Answers)
    ensures var effects := RetryOrDeadLetter(attempt, maxRetries, a).effects;
            && (RetryScheduled in effects <==>
                  attempt < maxRetries && (a.retry.RetriesAt? || a.retry == RetryRaises(true)))
            && (RetryRefused in effects <==> attempt < maxRetries && a.retry == RetriesNot)
            && StartsNothing(effects)
  {
    var effects := RetryOrDeadLetter(attempt, maxRetries, a).effects;
    if attempt >= maxRetries {
      SettlesFor(DeadLettered, a);
    } else if a.retry.RetriesAt? && a.channelOpens {
      var queue := RetryQueue(a.retry.attempt);
      PublishesFor(queue, a);
      assert effects == [RetryScheduled] + PublishCopy(queue, a).effects;
      assert forall e :: e in effects <==> e == RetryScheduled || e in PublishCopy(queue, a).effects;
    }
  }

  lemma RetryEndsFor(attempt: nat, maxRetries: int, a: Answers)
    ensures var r, sent := RetryOrDeadLetter(attempt, maxRetries, a), a.retry.RetriesAt? && a.channelOpens;
            var confirmed := a.exchangeFound && a.publish == Confirmed;
            && (forall q :: CopyQueued(q) in r.effects <==>
                  attempt < maxRetries && sent && a.exchangeFound && a.publish != LostBefore
                  && q == RetryQueue(a.retry.attempt))
            && (Requeued in r.effects <==> attempt < maxRetries && sent && !confirmed && a.dispose != RaiseBefore)
            && (Acked in r.effects <==>
                  attempt < maxRetries && a.dispose != RaiseBefore
                  && (a.retry == RetriesNot || (sent && confirmed && a.channelCloses)))
            && (Rejected in r.effects <==> attempt >= maxRetries && a.settle == Fine && a.dispose != RaiseBefore)
            && (r.ending == Returned <==>
                  a.dispose == Fine
                  && if attempt >= maxRetries then a.settle == Fine
                     else a.retry == RetriesNot || (sent && a.channelCloses))
  {
    if attempt >= maxRetries {
      SettlesFor(DeadLettered, a);
    } else if a.retry.RetriesAt? && a.channelOpens {
      PublishesFor(RetryQueue(a.retry.attempt), a);
    }
  }

  /** The status of a verdict that ends the operation. */
  function StatusOf(verdict: Verdict): (status: Status)
    requires verdict != RetryWait
  {
    if verdict == Completed then Succeeded
    else if verdict == Revoked then Cancelled
    else if verdict == PartlyFailed then PartialFailure
    else DeadLettered
  }

  lemma ConcludesFor(attempt: nat, verdict: Verdict, maxRetries: int, a: Answers)
    ensures var effects := Conclude(attempt, verdict, maxRetries, a).effects;
            forall s :: Settled(s) in effects <==>
              a.settle != RaiseBefore
              && if verdict == RetryWait then s == DeadLettered && attempt >= maxRetries else s == StatusOf(verdict)
  {
    if verdict == RetryWait {
      RetrySettlesFor(attempt, maxRetries, a);
    } else {
      SettlesFor(StatusOf(verdict), a);
    }
  }

  lemma ConclusionWaits(attempt: nat, verdict: Verdict, maxRetries: int, a: Answers)
    ensures var effects := Conclude(attempt, verdict, maxRetries, a).effects;
            && (RetryScheduled in effects <==>
                  verdict == RetryWait && attempt < maxRetries && (a.retry.RetriesAt? || a.retry == RetryRaises(true)))
            && (RetryRefused in effects <==> verdict == RetryWait && attempt < maxRetries && a.retry == RetriesNot)
            && StartsNothing(effects)
  {
    if verdict == RetryWait {
      RetriesFor(attempt, maxRetries, a);
    } else {
      SettlesFor(StatusOf(verdict), a);
    }
  }

  /** How an ending conclusion disposes, and whether it returns. */
  lemma ConclusionEnds(attempt: nat, verdict: Verdict, maxRetries: int, a: Answers)
    requires verdict != RetryWait
    ensures var r := Conclude(attempt, verdict, maxRetries, a);
            var done := a.settle == Fine && a.dispose != RaiseBefore;
            && (Acked in r.effects <==> done && (verdict == Completed || verdict == Revoked))
            && (Rejected in r.effects <==> done && (verdict == PartlyFailed || verdict == Failed))
            && (forall e | e in r.effects :: !e.Requeued? && !e.CopyQueued?)
            && (r.ending == Returned <==> a.settle == Fine && a.dispose == Fine)
  {
    SettlesFor(StatusOf(verdict), a);
  }

  /** An operation is settled as the executor says, or dead-lettered when it must wait and
      has no attempt left, and in no other way. */
  lemma SettledExactlyWhen(maxRetries: int, a: Answers)
    ensures var effects, took := Handling(maxRetries, a).effects, a.settle != RaiseBefore;
            && (Settled(Succeeded) in effects <==> Reports(a, Completed) && took)
            && (Settled(Cancelled) in effects <==> Reports(a, Revoked) && took)
            && (Settled(PartialFailure) in effects <==> Reports(a, PartlyFailed) && took)
            && (Settled(DeadLettered) in effects <==>
                  took && (Reports(a, Failed) || (MustWait(a) && a.start.attempt >= maxRetries)))
  {
    if Begun(a) {
      var attempt := a.start.attempt;
      assert Handling(maxRetries, a).effects == [Started(attempt)] + Processing(attempt, maxRetries, a).effects;
      RetrySettlesFor(attempt, maxRetries, a);
      if a.execute.Some? {
        ConcludesFor(attempt, a.execute.value, maxRetries, a);
      }
    }
  }

  /** It is started when the store says so, and a retry is scheduled, or refused by the
      store, exactly when it must wait and has an attempt left. */
  lemma ScheduledExactlyWhen(maxRetries: int, a: Answers)
    ensures var effects := Handling(maxRetries, a).effects;
            && (Malformed in effects <==> !a.parses)
            && (NotRunnable in effects <==> a.parses && a.start == StartsNot)
            && (forall n :: Started(n) in effects <==>
                  a.parses && (a.start == StartsAt(n) || a.start == StartRaises(Some(n))))
            && (RetryScheduled in effects <==>
                  MustWait(a) && a.start.attempt < maxRetries && (a.retry.RetriesAt? || a.retry == RetryRaises(true)))
            && (RetryRefused in effects <==> MustWait(a) && a.start.attempt < maxRetries && a.retry == RetriesNot)
  {
    if Begun(a) {
      var attempt := a.start.attempt;
      assert Handling(maxRetries, a).effects == [Started(attempt)] + Processing(attempt, maxRetries, a).effects;
      RetriesFor(attempt, maxRetries, a);
      if a.execute.Some? {
        ConclusionWaits(attempt, a.execute.value, maxRetries, a);
      }
    }
  }

  /** Every way to dispose of the delivery, and when the run returns. */
  lemma DisposedExactlyWhen(maxRetries: int, a: Answers)
    ensures var r, took := Handling(maxRetries, a), a.dispose != RaiseBefore;
            var again := MustWait(a) && a.start.attempt < maxRetries;
            var sent, confirmed := a.retry.RetriesAt? && a.channelOpens, a.exchangeFound && a.publish == Confirmed;
            && (Requeued in r.effects <==> again && sent && !confirmed && took)
            && (Acked in r.effects <==>
                  took && (|| (a.parses && a.start == StartsNot)
                           || ((Reports(a, Completed) || Reports(a, Revoked)) && a.settle == Fine)
                           || (again && (a.retry == RetriesNot || (sent && confirmed && a.channelCloses)))))
            && (Rejected in r.effects <==>
                  took && (|| !a.parses
                           || ((Reports(a, PartlyFailed) || Reports(a, Failed)) && a.settle == Fine)
                           || (MustWait(a) && !again && a.settle == Fine)))
  {
    if Begun(a) {
      var attempt := a.start.attempt;
      assert Handling(maxRetries, a).effects == [Started(attempt)] + Processing(attempt, maxRetries, a).effects;
      RetryEndsFor(attempt, maxRetries, a);
      if a.execute.Some? && a.execute.value != RetryWait {
        ConclusionEnds(attempt, a.execute.value, maxRetries, a);
      }
    }
  }

  /** A copy is queued for the attempt the store counted, and the run returns when nothing
      raised on its way. */
  lemma CopiedExactlyWhen(maxRetries: int, a: Answers)
    ensures var r := Handling(maxRetries, a);
            var again := MustWait(a) && a.start.attempt < maxRetries;
            var sent := a.retry.RetriesAt? && a.channelOpens;
            && (forall q :: CopyQueued(q) in r.effects <==>
                  again && sent && a.exchangeFound && a.publish != LostBefore && q == RetryQueue(a.retry.attempt))
            && (r.ending == Returned <==>
                  a.dispose == Fine
                  && (|| !a.parses || a.start == StartsNot
                      || (again && (a.retry == RetriesNot || (sent && a.channelCloses)))
                      || (Begun(a) && !again && a.settle == Fine
                          && (!a.locked || (a.execute.Some? && a.lockReleased)))))
  {
    if Begun(a) {
      var attempt := a.start.attempt;
      assert Handling(maxRetries, a).effects == [Started(attempt)] + Processing(attempt, maxRetries, a).effects;
      RetryEndsFor(attempt, maxRetries, a);
      if a.execute.Some? && a.execute.value != RetryWait {
        ConclusionEnds(attempt, a.execute.value, maxRetries, a);
      }
    }
  }

  // --------------------------------------------- what one run guarantees

  /** How far one delivery has come. */
  datatype Stage =
    | Received
    | Running(attempt: nat)
    | Scheduled
    | Copied
    | AckOnly
    | RejectOnly
    | Abandoned  // the handler left by an exception; the delivery is still unacknowledged
    | Gone

  function StageAfter(maxRetries: int, s: Stage, e: Effect): (next: Option<Stage>) {
    match (s, e)
    case (Received, Malformed) => Some(RejectOnly)
    case (Received, NotRunnable) => Some(AckOnly)
    case (Received, Started(attempt)) => Some(Running(attempt))
    case (Running(attempt), Settled(status)) => Some(if Disposal(status).Acked? then AckOnly else RejectOnly)
    case (Running(attempt), RetryRefused) => if attempt < maxRetries then Some(AckOnly) else None
    case (Running(attempt), RetryScheduled) => if attempt < maxRetries then Some(Scheduled) else None
    case (Scheduled, CopyQueued(_)) => Some(Copied)
    case (Scheduled, Requeued) => Some(Gone)
    case (Copied, Acked) => Some(Gone)
    case (Copied, Requeued) => Some(Gone)
    case (AckOnly, Acked) => Some(Gone)
    case (RejectOnly, Rejected) => Some(Gone)
    case _ => None
  }

  function Walk(maxRetries: int, s: Stage, effects: seq<Effect>): (end: Option<Stage>)
    decreases |effects|
  {
    if effects == [] then Some(s)
    else
      var next := StageAfter(maxRetries, s, effects[0]);
      if next.None? then None else Walk(maxRetries, next.value, effects[1..])
  }

  lemma WalkOne(maxRetries: int, s: Stage, e: Effect, rest: seq<Effect>)
    ensures Walk(maxRetries, s, [e] + rest)
         == var next := StageAfter(maxRetries, s, e); if next.None? then None else Walk(maxRetries, next.value, rest)
    ensures Walk(maxRetries, s, [e]) == StageAfter(maxRetries, s, e)
  {
    assert ([e] + rest)[1..] == rest;
    assert [e][1..] == [];
  }

  /** The run keeps to the stages, and one that returns has gone through all of them. */
  ghost predicate Follows(maxRetries: int, s: Stage, run: Run) {
    var end := Walk(maxRetries, s, run.effects);
    end.Some? && (run.ending.Returned? ==> end.value.Gone?)
  }

  lemma StepThenFollows(maxRetries: int, s: Stage, e: Effect, rest: Run)
    requires StageAfter(maxRetries, s, e).Some? && Follows(maxRetries, StageAfter(maxRetries, s, e).value, rest)
    ensures Follows(maxRetries, s, Then([e], rest))
  {
    WalkOne(maxRetries, s, e, rest.effects);
  }

  lemma DisposeFollows(maxRetries: int, s: Stage, e: Effect, a: Answers)
    requires StageAfter(maxRetries, s, e) == Some(Gone)
    ensures Follows(maxRetries, s, Dispose(e, a))
  {
    WalkOne(maxRetries, s, e, []);
  }

  lemma SettleFollows(maxRetries: int, attempt: nat, status: Status, a: Answers)
    ensures Follows(maxRetries, Running(attempt), Settle(status, a))
  {
    var s := if Disposal(status).Acked? then AckOnly else RejectOnly;
    DisposeFollows(maxRetries, s, Disposal(status), a);
    StepThenFollows(maxRetries, Running(attempt), Settled(status), Dispose(Disposal(status), a));
  }

  lemma PublishFollows(maxRetries: int, queue: nat, a: Answers)
    ensures Follows(maxRetries, Scheduled, PublishCopy(queue, a))
  {
    DisposeFollows(maxRetries, Scheduled, Requeued, a);
    DisposeFollows(maxRetries, Copied, Requeued, a);
    DisposeFollows(maxRetries, Copied, Acked, a);
    StepThenFollows(maxRetries, Scheduled, CopyQueued(queue), Dispose(Requeued, a));
    StepThenFollows(maxRetries, Scheduled, CopyQueued(queue), Dispose(Acked, a));
    WalkOne(maxRetries, Scheduled, CopyQueued(queue), []);
    assert [] + Dispose(Requeued, a).effects == Dispose(Requeued, a).effects;
  }

  lemma RetryFollows(maxRetries: int, attempt: nat, a: Answers)
    ensures Follows(maxRetries, Running(attempt), RetryOrDeadLetter(attempt, maxRetries, a))
  {
    SettleFollows(maxRetries, attempt, DeadLettered, a);
    if attempt < maxRetries {
      DisposeFollows(maxRetries, AckOnly, Acked, a);
      StepThenFollows(maxRetries, Running(attempt), RetryRefused, Dispose(Acked, a));
      WalkOne(maxRetries, Running(attempt), RetryScheduled, []);
      if a.retry.RetriesAt? {
        PublishFollows(maxRetries, RetryQueue(a.retry.attempt), a);
        StepThenFollows(maxRetries, Running(attempt), RetryScheduled, PublishCopy(RetryQueue(a.retry.attempt), a));
      }
    }
  }

  lemma ConcludeFollows(maxRetries: int, attempt: nat, verdict: Verdict, a: Answers)
    ensures Follows(maxRetries, Running(attempt), Conclude(attempt, verdict, maxRetries, a))
  {
    if verdict.RetryWait? {
      RetryFollows(maxRetries, attempt, a);
    } else {
      SettleFollows(maxRetries, attempt,
                    if verdict.Failed? then DeadLettered
                    else if verdict.PartlyFailed? then PartialFailure
                    else if verdict.Revoked? then Cancelled
                    else Succeeded, a);
    }
  }

  /** Whatever any call answers, a run is a path through the stages. */
  lemma HandlingFollows(maxRetries: int, a: Answers)
    ensures Follows(maxRetries, Received, Handling(maxRetries, a))
  {
    DisposeFollows(maxRetries, RejectOnly, Rejected, a);
    StepThenFollows(maxRetries, Received, Malformed, Dispose(Rejected, a));
    DisposeFollows(maxRetries, AckOnly, Acked, a);
    StepThenFollows(maxRetries, Received, NotRunnable, Dispose(Acked, a));
    match a.start {
      case StartRaises(committed) =>
        if committed.Some? {
          WalkOne(maxRetries, Received, Started(committed.value), []);
        }
      case StartsNot =>
      case StartsAt(attempt) =>
        RetryFollows(maxRetries, attempt, a);
        if a.execute.Some? {
          ConcludeFollows(maxRetries, attempt, a.execute.value, a);
        }
        StepThenFollows(maxRetries, Received, Started(attempt), Processing(attempt, maxRetries, a));
    }
  }

  function Disposals(effects: seq<Effect>): (n: nat) {
    if effects == [] then 0 else (if Disposes(effects[0]) then 1 else 0) + Disposals(effects[1..])
  }

  lemma {:induction false} WalkDisposesAtItsEnd(maxRetries: int, s: Stage, effects: seq<Effect>)
    requires Walk(maxRetries, s, effects).Some?
    ensures var gone := Walk(maxRetries, s, effects).value.Gone?;
            && Disposals(effects) == (if gone && !s.Gone? then 1 else 0)
            && (gone && !s.Gone? ==> effects != [] && Disposes(effects[|effects| - 1]))
    decreases |effects|
  {
    if effects != [] {
      WalkDisposesAtItsEnd(maxRetries, StageAfter(maxRetries, s, effects[0]).value, effects[1..]);
    }
  }

  /** No run disposes of its delivery twice, and one that returns has done so, last of all. */
  lemma RunDisposesOnce(maxRetries: int, a: Answers)
    ensures var run := Handling(maxRetries, a);
            && Disposals(run.effects) <= 1
            && (run.ending.Returned? ==>
                  Disposals(run.effects) == 1 && run.effects != [] && Disposes(run.effects[|run.effects| - 1]))
  {
    HandlingFollows(maxRetries, a);
    WalkDisposesAtItsEnd(maxRetries, Received, Handling(maxRetries, a).effects);
  }

  predicate Justifies(e: Effect) {
    e.Malformed? || e.NotRunnable? || e.Settled? || e.RetryRefused? || e.CopyQueued?
  }

  lemma {:induction false} WalkJustifiesDisposal(maxRetries: int, s: Stage, effects: seq<Effect>, n: nat)
    requires n <= |effects| && Walk(maxRetries, s, effects).Some?
    requires Acked in effects[..n] || Rejected in effects[..n]
    ensures s.Copied? || s.AckOnly? || s.RejectOnly? || exists i :: 0 <= i < n && Justifies(effects[i])
    decreases |effects|
  {
    var e, next := effects[0], StageAfter(maxRetries, s, effects[0]).value;
    if Justifies(e) {
      assert Justifies(effects[0]);
    } else if !e.Acked? && !e.Rejected? {
      assert effects[..n] == [e] + effects[1..][..n - 1];
      WalkJustifiesDisposal(maxRetries, next, effects[1..], n - 1);
      if i :| 0 <= i < n - 1 && Justifies(effects[1..][i]) {
        assert Justifies(effects[i + 1]);
      }
    }
  }

  /** Wherever the process dies, a delivery that was acknowledged or rejected by then was
      no operation, not to be run, settled, or stands copied in a retry queue. */
  lemma CrashLeavesDelivery(maxRetries: int, a: Answers, n: nat)
    requires n <= |Handling(maxRetries, a).effects|
    requires var effects := Handling(maxRetries, a).effects;
             Acked in effects[..n] || Rejected in effects[..n]
    ensures var effects := Handling(maxRetries, a).effects;
            exists i :: 0 <= i < n && Justifies(effects[i])
  {
    HandlingFollows(maxRetries, a);
    WalkJustifiesDisposal(maxRetries, Received, Handling(maxRetries, a).effects, n);
  }

  // ------------------------------------------------- one operation's messages

  datatype Phase = Queued | InWork | Waiting | Over(status: Status)

  /** One operation: its row, whether file rows still name it as their active operation, its
      unpublished and unmarked outbox events, its messages in the work queue and in the
      retry queues, and the deliveries being handled. */
  datatype World = World(
    phase: Phase,
    claims: bool,
    attempts: nat,
    recoveries: nat,
    pending: nat,
    unmarked: nat,
    ready: nat,
    delayed: nat,
    handlers: map<nat, Stage>)

  datatype Limits = Limits(maxRetries: int, maxRecoveries: nat)

  datatype Event =
    | Publish                        // the broker confirms an outbox event's message
    | PublishUnconfirmed             // it keeps the message and the publisher sees an error
    | PublishAgain                   // the lease of an event sent but not marked ran out
    | Mark
    | Expire                         // a retry queue's time to live passes
    | Deliver(handler: nat)
    | Handle(handler: nat, effect: Effect)
    | Escape(handler: nat)           // the handler raises
    | Redeliver(handler: nat)        // the channel of an unfinished delivery closes
    | Recover
    | Replay

  predicate Runnable(w: World) {
    w.phase.Queued? || w.phase.Waiting?
  }

  /** When the store and the broker let an effect happen. */
  predicate Allows(w: World, e: Effect) {
    match e
    case Malformed => false
    case NotRunnable => !Runnable(w)
    case Started(attempt) => Runnable(w) && attempt == w.attempts + 1
    case RetryRefused => !w.phase.InWork?
    case RetryScheduled => w.phase.InWork?
    case _ => true
  }

  function Apply(w: World, e: Effect): (after: World) {
    match e
    case Started(attempt) => w.(phase := InWork, attempts := attempt)
    case Settled(status) => w.(phase := Over(status), claims := false)
    case RetryScheduled => w.(phase := Waiting)
    case CopyQueued(_) => w.(delayed := w.delayed + 1)
    case Requeued => w.(ready := w.ready + 1)
    case _ => w
  }

  function Enter(w: World, h: nat, s: Stage): (after: World) {
    w.(handlers := if s.Gone? then w.handlers - {h} else w.handlers[h := s])
  }

  predicate Replayable(p: Phase) {
    p.Over? && (p.status.DeadLettered? || p.status.PartialFailure?)
  }

  /** Nothing where the event cannot happen. */
  function Next(l: Limits, w: World, e: Event): (after: Option<World>) {
    match e
    case Publish =>
      if w.pending == 0 then None
      else Some(w.(pending := w.pending - 1, unmarked := w.unmarked + 1, ready := w.ready + 1))
    case PublishUnconfirmed => if w.pending == 0 then None else Some(w.(ready := w.ready + 1))
    case PublishAgain => if w.unmarked == 0 then None else Some(w.(ready := w.ready + 1))
    case Mark => if w.unmarked == 0 then None else Some(w.(unmarked := w.unmarked - 1))
    case Expire => if w.delayed == 0 then None else Some(w.(delayed := w.delayed - 1, ready := w.ready + 1))
    case Deliver(h) =>
      if w.ready == 0 || h in w.handlers then None else Some(Enter(w.(ready := w.ready - 1), h, Received))
    case Handle(h, effect) =>
      if h !in w.handlers || !Allows(w, effect) then None
      else
        var next := StageAfter(l.maxRetries, w.handlers[h], effect);
        if next.None? then None else Some(Enter(Apply(w, effect), h, next.value))
    case Escape(h) => if h !in w.handlers then None else Some(Enter(w, h, Abandoned))
    case Redeliver(h) => if h !in w.handlers then None else Some(Enter(w.(ready := w.ready + 1), h, Gone))
    case Recover =>
      if !w.phase.InWork? || !w.claims then None  // it is found through its file rows
      else if w.recoveries >= l.maxRecoveries then Some(w.(phase := Over(DeadLettered)))
      else Some(w.(phase := Queued, recoveries := w.recoveries + 1, pending := w.pending + 1))
    case Replay =>
      if !Replayable(w.phase) then None else Some(w.(phase := Queued, pending := w.pending + 1))
  }

  /** Messages with the broker: in the work queue, in a retry queue, or being handled. */
  function Messages(w: World): (n: nat) {
    w.ready + w.delayed + |w.handlers|
  }

  /** How many messages an event makes or takes. */
  function Gain(e: Event): (n: int) {
    match e
    case Publish => 1
    case PublishUnconfirmed => 1
    case PublishAgain => 1
    case Handle(_, CopyQueued(_)) => 1
    case Handle(_, Acked) => -1
    case Handle(_, Rejected) => -1
    case _ => 0
  }

  lemma MovedMessages(l: Limits, w: World, e: Event)
    requires !e.Handle? && Next(l, w, e).Some?
    ensures Messages(Next(l, w, e).value) == Messages(w) + Gain(e)
  {
    match e {
      case Deliver(h) => HandlersGrow(w.handlers, h, Received);
      case Escape(h) => HandlersCount(w.handlers, h, Abandoned);
      case Redeliver(h) => HandlersCount(w.handlers, h, Gone);
      case Publish =>
      case PublishUnconfirmed =>
      case PublishAgain =>
      case Mark =>
      case Expire =>
      case Recover =>
      case Replay =>
    }
  }

  /** No message comes from nowhere or is lost on the way: publishing one and queueing a copy
      make one more, disposing of a delivery but for a requeue one less, and everything else
      only moves them. */
  lemma MessagesAreAccounted(l: Limits, w: World, e: Event)
    requires Next(l, w, e).Some?
    ensures Messages(Next(l, w, e).value) == Messages(w) + Gain(e)
  {
    if e.Handle? {
      HandledMessages(l, w, e.handler, e.effect);
    } else {
      MovedMessages(l, w, e);
    }
  }

  lemma HandledMessages(l: Limits, w: World, h: nat, e: Effect)
    requires Next(l, w, Handle(h, e)).Some?
    ensures Messages(Next(l, w, Handle(h, e)).value) == Messages(w) + Gain(Handle(h, e))
  {
    var s := StageAfter(l.maxRetries, w.handlers[h], e).value;
    HandlersCount(w.handlers, h, s);
    assert s.Gone? <==> e.Acked? || e.Rejected? || e.Requeued?;
  }

  /** The outbox: what is published was pending, what is sent again or marked was sent, and
      only recovery and replay add an event. A copy is all that goes to a retry queue. */
  lemma OutboxIsAccounted(l: Limits, w: World, e: Event)
    requires Next(l, w, e).Some?
    ensures var after := Next(l, w, e).value;
            && after.pending == w.pending + (if e.Publish? then -1
                                             else if e.Replay? || (e.Recover? && after.phase == Queued) then 1 else 0)
            && after.unmarked == w.unmarked + (if e.Publish? then 1 else if e.Mark? then -1 else 0)
            && (e.Publish? || e.PublishUnconfirmed? ==> w.pending > 0 && after.ready == w.ready + 1)
            && (e.PublishAgain? ==> w.unmarked > 0 && after.ready == w.ready + 1)
            && (after.delayed > w.delayed <==> e.Handle? && e.effect.CopyQueued?)
            && (e.Expire? ==> after.delayed == w.delayed - 1)
  {
  }

  lemma HandlersGrow(handlers: map<nat, Stage>, h: nat, s: Stage)
    requires h !in handlers
    ensures |handlers[h := s]| == |handlers| + 1
  {
    assert handlers[h := s].Keys == handlers.Keys + {h};
    assert |handlers[h := s]| == |handlers[h := s].Keys| && |handlers| == |handlers.Keys|;
  }

  lemma HandlersCount(handlers: map<nat, Stage>, h: nat, s: Stage)
    requires h in handlers
    ensures |handlers[h := s]| == |handlers| && |handlers - {h}| == |handlers| - 1
  {
    assert handlers[h := s].Keys == handlers.Keys;
    assert |handlers[h := s]| == |handlers[h := s].Keys| && |handlers| == |handlers.Keys|;
    assert (handlers - {h}).Keys == handlers.Keys - {h} && |handlers - {h}| == |(handlers - {h}).Keys|;
  }

  /** What a handler hears from the store fits the operation's row. */
  lemma StoreAnswersFit(l: Limits, w: World, h: nat, effect: Effect)
    requires Next(l, w, Handle(h, effect)).Some?
    ensures var runnable := w.phase == Queued || w.phase == Waiting;
            && effect != Malformed
            && (effect == NotRunnable ==> !runnable)
            && (effect.Started? ==> runnable && effect.attempt == w.attempts + 1)
            && (effect == RetryRefused ==> w.phase != InWork)
            && (effect == RetryScheduled ==> w.phase == InWork && Next(l, w, Handle(h, effect)).value.phase == Waiting)
            && (effect.Settled? ==> Next(l, w, Handle(h, effect)).value.phase == Over(effect.status))
  {
  }

  /** A new operation is queued with one outbox event in the same transaction. */
  const CREATED: World := World(Queued, true, 0, 0, 1, 0, 0, 0, map[])

  function Play(l: Limits, w: World, run: seq<Event>): (end: Option<World>)
    decreases |run|
  {
    if run == [] then Some(w)
    else
      var next := Next(l, w, run[0]);
      if next.None? then None else Play(l, next.value, run[1..])
  }

  // ---------------------------------------------------- nothing is forgotten

  predicate WillReturn(s: Stage) {
    s.Received? || s.Scheduled? || s.Abandoned?
  }

  /** A message of the operation exists, or will again however its handler goes on. */
  ghost predicate Pursued(w: World) {
    w.pending > 0 || w.ready > 0 || w.delayed > 0 || exists h | h in w.handlers :: WillReturn(w.handlers[h])
  }

  ghost predicate Remembered(w: World) {
    && (Runnable(w) ==> Pursued(w))
    && (forall h | h in w.handlers :: !w.handlers[h].Gone?)
  }

  lemma OthersStayPursued(w: World, h: nat, s: Stage, other: nat)
    requires other in w.handlers && other != h && WillReturn(w.handlers[other])
    ensures Pursued(Enter(w, h, s))
  {
    assert WillReturn(Enter(w, h, s).handlers[other]);
  }

  lemma HandleStaysRemembered(l: Limits, w: World, h: nat, e: Effect)
    requires Remembered(w) && Next(l, w, Handle(h, e)).Some?
    ensures Remembered(Next(l, w, Handle(h, e)).value)
  {
    var after := Next(l, w, Handle(h, e)).value;
    if Runnable(after) {
      if e.RetryScheduled? {
        assert WillReturn(after.handlers[h]);
      } else if w.pending == 0 && w.ready == 0 && w.delayed == 0 && !e.CopyQueued? && !e.Requeued? {
        var other :| other in w.handlers && WillReturn(w.handlers[other]);
        assert other != h;
        OthersStayPursued(Apply(w, e), h, StageAfter(l.maxRetries, w.handlers[h], e).value, other);
      }
    }
  }

  lemma StepStaysRemembered(l: Limits, w: World, e: Event)
    requires Remembered(w) && Next(l, w, e).Some?
    ensures Remembered(Next(l, w, e).value)
  {
    var after := Next(l, w, e).value;
    match e {
      case Handle(h, effect) => HandleStaysRemembered(l, w, h, effect);
      case Deliver(h) => assert WillReturn(after.handlers[h]);
      case Escape(h) => assert WillReturn(after.handlers[h]);
      case _ =>
    }
  }

  lemma {:induction false} RunStaysRemembered(l: Limits, w: World, run: seq<Event>)
    requires Remembered(w) && Play(l, w, run).Some?
    ensures Remembered(Play(l, w, run).value)
    decreases |run|
  {
    if run != [] {
      StepStaysRemembered(l, w, run[0]);
      RunStaysRemembered(l, Next(l, w, run[0]).value, run[1..]);
    }
  }

  lemma PlayOne(l: Limits, w: World, a: Event)
    ensures Play(l, w, [a]) == Next(l, w, a)
  {
    assert [a][1..] == [];
  }

  lemma PlayTwo(l: Limits, w: World, a: Event, b: Event)
    requires Next(l, w, a).Some?
    ensures Play(l, w, [a, b]) == Next(l, Next(l, w, a).value, b)
  {
    assert [a, b][1..] == [b];
    PlayOne(l, Next(l, w, a).value, b);
  }

  lemma PlayThree(l: Limits, w: World, a: Event, b: Event, c: Event)
    requires Next(l, w, a).Some? && Next(l, Next(l, w, a).value, b).Some?
    ensures Play(l, w, [a, b, c]) == Next(l, Next(l, Next(l, w, a).value, b).value, c)
  {
    assert [a, b, c][1..] == [b, c];
    PlayTwo(l, Next(l, w, a).value, b, c);
  }

  lemma ReadyCanStart(l: Limits, w: World, h: nat)
    requires Runnable(w) && w.ready > 0 && h !in w.handlers
    ensures Next(l, w, Deliver(h)).Some?
    ensures var start := Next(l, Next(l, w, Deliver(h)).value, Handle(h, Started(w.attempts + 1)));
            start.Some? && start.value.attempts == w.attempts + 1 && start.value.phase.InWork?
  {
  }

  /** A queued or waiting operation is never forgotten: after any crashes, lost
      confirmations and late handlers, three more events can start it. */
  lemma RunnableCanStart(l: Limits, run: seq<Event>, h: nat) returns (more: seq<Event>)
    requires Play(l, CREATED, run).Some?
    requires var w := Play(l, CREATED, run).value; Runnable(w) && h !in w.handlers
    ensures var w := Play(l, CREATED, run).value;
            && |more| <= 3
            && Play(l, w, more).Some?
            && Play(l, w, more).value.attempts == w.attempts + 1
            && Play(l, w, more).value.phase.InWork?
  {
    RunStaysRemembered(l, CREATED, run);
    var w := Play(l, CREATED, run).value;
    var start := Handle(h, Started(w.attempts + 1));
    if w.ready > 0 {
      more := [Deliver(h), start];
      ReadyCanStart(l, w, h);
      PlayTwo(l, w, Deliver(h), start);
      return;
    }
    var first: Event;
    if w.pending > 0 {
      first := Publish;
    } else if w.delayed > 0 {
      first := Expire;
    } else {
      var other :| other in w.handlers && WillReturn(w.handlers[other]);
      if w.handlers[other].Received? {
        more := [Handle(other, Started(w.attempts + 1))];
        assert more[1..] == [];
        return;
      }
      first := Redeliver(other);
    }
    more := [first, Deliver(h), start];
    ReadyCanStart(l, Next(l, w, first).value, h);
    PlayThree(l, w, first, Deliver(h), start);
  }

  // ------------------------------------------------- work that never ends

  ghost predicate AtWork(w: World) {
    exists h | h in w.handlers :: w.handlers[h].Running?
  }

  /** In work, found by no recovery, and handled by nobody who could still settle it. */
  ghost predicate Stuck(w: World) {
    w.phase.InWork? && !w.claims && !AtWork(w)
  }

  lemma StepStaysStuck(l: Limits, w: World, e: Event)
    requires Stuck(w) && Next(l, w, e).Some?
    ensures Stuck(Next(l, w, e).value)
  {
    var after := Next(l, w, e).value;
    assert forall h | h in after.handlers && after.handlers[h].Running? ::
             h in w.handlers && after.handlers[h] == w.handlers[h];
  }

  lemma {:induction false} RunStaysStuck(l: Limits, w: World, run: seq<Event>)
    requires Stuck(w) && Play(l, w, run).Some?
    ensures Stuck(Play(l, w, run).value)
    decreases |run|
  {
    if run != [] {
      StepStaysStuck(l, w, run[0]);
      RunStaysStuck(l, Next(l, w, run[0]).value, run[1..]);
    }
  }

  ghost predicate Leaves(l: Limits, w: World, run: seq<Event>) {
    Play(l, w, run).Some? && !Play(l, w, run).value.phase.InWork?
  }

  /** An operation in work can still be ended or started again exactly when its file rows
      lead the recovery to it or a handler is working on it. */
  lemma WorkCanEndExactlyWhen(l: Limits, w: World)
    requires w.phase.InWork?
    ensures (exists run :: Leaves(l, w, run)) <==> w.claims || AtWork(w)
  {
    if w.claims {
      PlayOne(l, w, Recover);
      assert Leaves(l, w, [Recover]);
    } else if AtWork(w) {
      var h :| h in w.handlers && w.handlers[h].Running?;
      PlayOne(l, w, Handle(h, Settled(Succeeded)));
      assert Leaves(l, w, [Handle(h, Settled(Succeeded))]);
    } else {
      forall run
        ensures !Leaves(l, w, run)
      {
        if Play(l, w, run).Some? {
          RunStaysStuck(l, w, run);
        }
      }
    }
  }

  /** Up to its first settlement the file rows stay claimed, so this fails only after a
      replay, which does not claim them again. */
  lemma {:induction false} ClaimsLastUntilSettled(l: Limits, w: World, run: seq<Event>)
    requires w.claims && Play(l, w, run).Some?
    requires forall e | e in run :: !(e.Handle? && e.effect.Settled?)
    ensures Play(l, w, run).value.claims
    decreases |run|
  {
    if run != [] {
      assert run[0] in run;
      ClaimsLastUntilSettled(l, Next(l, w, run[0]).value, run[1..]);
    }
  }

  predicate Settles(e: Event) {
    e.Handle? && e.effect.Settled?
  }

  lemma {:induction false} ClaimsEndWithSettlement(l: Limits, w: World, run: seq<Event>)
    requires Play(l, w, run).Some?
    requires w.phase.Over? && w.claims ==> w.phase.status.DeadLettered? && w.recoveries >= l.maxRecoveries
    ensures var end := Play(l, w, run).value;
            && (end.claims <==> w.claims && forall e | e in run :: !Settles(e))
            && (end.phase.Over? && end.claims ==> end.phase.status.DeadLettered? && end.recoveries >= l.maxRecoveries)
    decreases |run|
  {
    if run != [] {
      var next := Next(l, w, run[0]).value;
      ClaimsEndWithSettlement(l, next, run[1..]);
      assert next.claims <==> w.claims && !Settles(run[0]);
      assert forall e :: e in run <==> e == run[0] || e in run[1..];
    }
  }

  /** An operation that has ended still holds its files exactly when it was never settled;
      it is then one the recovery gave up after its last attempt. */
  lemma EndedHoldsFilesExactlyWhen(l: Limits, run: seq<Event>)
    requires Play(l, CREATED, run).Some? && Play(l, CREATED, run).value.phase.Over?
    ensures var end := Play(l, CREATED, run).value;
            && (end.claims <==> forall e | e in run :: !Settles(e))
            && (end.claims ==> end.phase == Over(DeadLettered) && end.recoveries >= l.maxRecoveries)
  {
    ClaimsEndWithSettlement(l, CREATED, run);
  }

  lemma {:induction false} PlayComposes(l: Limits, w: World, a: seq<Event>, b: seq<Event>)
    requires Play(l, w, a).Some?
    ensures Play(l, w, a + b) == Play(l, Play(l, w, a).value, b)
    decreases |a|
  {
    if a == [] {
      assert a + b == b;
    } else {
      PlayComposes(l, Next(l, w, a[0]).value, a[1..], b);
      assert (a + b)[1..] == a[1..] + b;
    }
  }

  const STARTED: World := World(InWork, true, 1, 0, 0, 1, 0, 0, map[1 := Running(1)])
  const REPLAYED: World := World(Queued, false, 1, 0, 1, 1, 0, 0, map[])
  const STUCK: World := World(InWork, false, 2, 0, 0, 2, 1, 0, map[])

  lemma StartsFirst(l: Limits)
    ensures Play(l, CREATED, [Publish, Deliver(1), Handle(1, Started(1))]) == Some(STARTED)
  {
    PlayThree(l, CREATED, Publish, Deliver(1), Handle(1, Started(1)));
    var received := World(Queued, true, 0, 0, 0, 1, 0, 0, map[1 := Received]);
    assert Next(l, Next(l, CREATED, Publish).value, Deliver(1)) == Some(received);
    assert received.handlers[1 := Running(1)] == map[1 := Running(1)];
    assert Next(l, received, Handle(1, Started(1))) == Some(STARTED);
  }

  lemma SettlesInPart(l: Limits)
    ensures Play(l, STARTED, [Handle(1, Settled(PartialFailure)), Handle(1, Rejected), Replay]) == Some(REPLAYED)
  {
    PlayThree(l, STARTED, Handle(1, Settled(PartialFailure)), Handle(1, Rejected), Replay);
    var settled := Next(l, STARTED, Handle(1, Settled(PartialFailure))).value;
    assert settled == World(Over(PartialFailure), false, 1, 0, 0, 1, 0, 0, map[1 := RejectOnly]);
    assert settled.handlers - {1} == map[];
  }

  lemma DiesAfterReplay(l: Limits)
    ensures Play(l, REPLAYED, [Publish, Deliver(2), Handle(2, Started(2))] + [Redeliver(2)]) == Some(STUCK)
  {
    var start := [Publish, Deliver(2), Handle(2, Started(2))];
    PlayThree(l, REPLAYED, Publish, Deliver(2), Handle(2, Started(2)));
    PlayComposes(l, REPLAYED, start, [Redeliver(2)]);
    var started := Play(l, REPLAYED, start).value;
    PlayOne(l, started, Redeliver(2));
    assert Enter(started, 2, Gone).handlers == map[];
  }

  /** It does fail: settled in part, replayed, started, and then the handler dies. */
  lemma ReplayCanGetStuck(l: Limits) returns (run: seq<Event>)
    ensures Play(l, CREATED, run) == Some(STUCK) && Stuck(STUCK)
  {
    var first := [Publish, Deliver(1), Handle(1, Started(1))];
    var second := [Handle(1, Settled(PartialFailure)), Handle(1, Rejected), Replay];
    var third := [Publish, Deliver(2), Handle(2, Started(2))] + [Redeliver(2)];
    StartsFirst(l);
    SettlesInPart(l);
    DiesAfterReplay(l);
    PlayComposes(l, STARTED, second, third);
    PlayComposes(l, CREATED, first, second + third);
    run := first + (second + third);
  }

  // ---------------------------------------------------------- retries end

  function Retrying(maxRetries: int, handlers: map<nat, Stage>): (hs: set<nat>) {
    set h | h in handlers && handlers[h].Running? && handlers[h].attempt < maxRetries
  }

  function Replays(run: seq<Event>): (n: nat) {
    if run == [] then 0 else (if run[0].Replay? then 1 else 0) + Replays(run[1..])
  }

  /** How many more times the operation can be started. */
  function Credit(l: Limits, w: World): (n: nat)
    requires w.recoveries <= l.maxRecoveries
  {
    (if Runnable(w) then 1 else 0)
    + |Retrying(l.maxRetries, w.handlers)|
    + (if l.maxRetries - 1 - w.attempts > 0 then l.maxRetries - 1 - w.attempts else 0)
    + (l.maxRecoveries - w.recoveries)
  }

  lemma RetryingAfterEnter(maxRetries: int, w: World, h: nat, s: Stage)
    ensures Retrying(maxRetries, Enter(w, h, s).handlers)
         == Retrying(maxRetries, w.handlers) - {h} + if s.Running? && s.attempt < maxRetries then {h} else {}
  {
  }

  lemma EnterChangesRetrying(maxRetries: int, w: World, h: nat, s: Stage)
    ensures |Retrying(maxRetries, Enter(w, h, s).handlers)|
         == |Retrying(maxRetries, w.handlers)|
            - (if h in Retrying(maxRetries, w.handlers) then 1 else 0)
            + (if s.Running? && s.attempt < maxRetries then 1 else 0)
  {
    RetryingAfterEnter(maxRetries, w, h, s);
  }

  lemma StepSpendsCredit(l: Limits, w: World, e: Event)
    requires w.recoveries <= l.maxRecoveries && Next(l, w, e).Some?
    ensures var after := Next(l, w, e).value;
            && after.recoveries <= l.maxRecoveries
            && after.attempts + Credit(l, after) <= w.attempts + Credit(l, w) + (if e.Replay? then 1 else 0)
  {
    match e {
      case Handle(h, effect) =>
        EnterChangesRetrying(l.maxRetries, Apply(w, effect), h, StageAfter(l.maxRetries, w.handlers[h], effect).value);
      case Deliver(h) => EnterChangesRetrying(l.maxRetries, w, h, Received);
      case Escape(h) => EnterChangesRetrying(l.maxRetries, w, h, Abandoned);
      case Redeliver(h) => EnterChangesRetrying(l.maxRetries, w, h, Gone);
      case _ =>
    }
  }

  lemma {:induction false} RunSpendsCredit(l: Limits, w: World, run: seq<Event>)
    requires w.recoveries <= l.maxRecoveries && Play(l, w, run).Some?
    ensures var end := Play(l, w, run).value;
            && end.recoveries <= l.maxRecoveries
            && end.attempts + Credit(l, end) <= w.attempts + Credit(l, w) + Replays(run)
    decreases |run|
  {
    if run != [] {
      StepSpendsCredit(l, w, run[0]);
      RunSpendsCredit(l, Next(l, w, run[0]).value, run[1..]);
    }
  }

  /** However often messages are doubled and handlers die, an operation is started at most
      once per allowed attempt, recovery and replay. */
  lemma StartsAreBounded(l: Limits, run: seq<Event>)
    requires Play(l, CREATED, run).Some?
    ensures Play(l, CREATED, run).value.attempts
         <= (if l.maxRetries > 1 then l.maxRetries else 1) + l.maxRecoveries + Replays(run)
  {
    RunSpendsCredit(l, CREATED, run);
  }

  // ------------------------------------------------------ given up, files and all

  /** Queued again after that many recoveries. */
  function Recovered(k: nat): (w: World) {
    World(Queued, true, k, k, 1, k, k, 0, map[])
  }

  lemma StartedAgain(l: Limits, k: nat) returns (w: World)
    ensures Play(l, Recovered(k), [Publish, Deliver(1), Handle(1, Started(k + 1))]) == Some(w)
    ensures w == World(InWork, true, k + 1, k, 0, k + 1, k, 0, map[1 := Running(k + 1)])
  {
    PlayThree(l, Recovered(k), Publish, Deliver(1), Handle(1, Started(k + 1)));
    var received := World(Queued, true, k, k, 0, k + 1, k, 0, map[1 := Received]);
    assert Next(l, Next(l, Recovered(k), Publish).value, Deliver(1)) == Some(received);
    assert received.handlers[1 := Running(k + 1)] == map[1 := Running(k + 1)];
    w := Next(l, received, Handle(1, Started(k + 1))).value;
  }

  lemma OneMoreRecovery(l: Limits, k: nat) returns (run: seq<Event>)
    requires k < l.maxRecoveries
    ensures Play(l, Recovered(k), run) == Some(Recovered(k + 1))
  {
    var start := [Publish, Deliver(1), Handle(1, Started(k + 1))];
    var started := StartedAgain(l, k);
    PlayTwo(l, started, Redeliver(1), Recover);
    assert started.handlers - {1} == map[];
    PlayComposes(l, Recovered(k), start, [Redeliver(1), Recover]);
    run := start + [Redeliver(1), Recover];
  }

  lemma {:induction false} RecoversUpTo(l: Limits, k: nat) returns (run: seq<Event>)
    requires k <= l.maxRecoveries
    ensures Play(l, CREATED, run) == Some(Recovered(k))
    decreases k
  {
    if k == 0 {
      run := [];
    } else {
      var before := RecoversUpTo(l, k - 1);
      var last := OneMoreRecovery(l, k - 1);
      PlayComposes(l, CREATED, before, last);
      run := before + last;
    }
  }

  /** Whatever the limits, some operation comes to that: its handlers die as often as the
      recovery takes it up, and it is dead-lettered with its files still occupied. */
  lemma TimedOutHoldsItsFiles(l: Limits) returns (run: seq<Event>)
    ensures Play(l, CREATED, run).Some?
    ensures var end := Play(l, CREATED, run).value; end.phase == Over(DeadLettered) && end.claims
  {
    var before := RecoversUpTo(l, l.maxRecoveries);
    var start := [Publish, Deliver(1), Handle(1, Started(l.maxRecoveries + 1))];
    var started := StartedAgain(l, l.maxRecoveries);
    PlayOne(l, started, Recover);
    PlayComposes(l, Recovered(l.maxRecoveries), start, [Recover]);
    PlayComposes(l, CREATED, before, start + [Recover]);
    run := before + (start + [Recover]);
  }
}
