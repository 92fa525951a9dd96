/** ProviderMigrationExecutor as a step machine: copiers and cleaners interleave at
    every provider call and every transaction, and may stop anywhere. */
module ProviderMigration {
  import opened Wrappers
  import opened Text
  import opened ObjectStore

  type Id = int
  type RecordId = int
  type Pid = int

  datatype Target = Target(bucket: string, key: string)

  /** A stored object; its content_length is the length of its body. */
  datatype Stored = Stored(body: seq<byte>, etag: Option<string>)

  datatype State = ReadyForVerifiedCopy | CopiedVerified | CleanupCompleted | Quarantined | OtherState

  /** The reviewed, unchanging part of a manifest. */
  datatype Manifest = Manifest(source: Option<Target>, target: Option<Target>, ingestion: bool, record: RecordId)

  /** An ingestion row; version 0 is the legacy placement. */
  datatype Row = Row(at: Target, version: nat)

  /** Where a running executor stands. Each stage names its next provider call or
      transaction; the manifest in hand is no longer in todo. */
  datatype Process =
    | Copier(todo: seq<Id>, copying: CopyStage)
    | Cleaner(todo: seq<Id>, cleaning: CleanStage)

  datatype CopyStage =
    | HeadSource
    | HeadTarget(id: Id, seen: Stored)
    | CopyObject(id: Id, seen: Stored)
    | HeadCopy(id: Id, seen: Stored)
    | Promote(id: Id)
    | QuarantineCopy(id: Id)

  datatype CleanStage =
    | HeadBeforeCleanup
    | DeleteSource(id: Id)
    | MarkCleaned(id: Id)
    | QuarantineCleanup(id: Id)

  type Plan = map<Id, Manifest>

  datatype World = World(
    objects: map<Target, Stored>,
    states: map<Id, State>,
    rows: map<RecordId, Row>,
    processes: map<Pid, Process>)

  datatype Event =
    | StartCopier(pid: Pid, todo: seq<Id>)
    | StartCleaner(pid: Pid, todo: seq<Id>)
    | Advance(pid: Pid, etag: Option<string>)  // the etag a copy would be issued
    | Stop(pid: Pid)                           // an exception or a crash

  /** Whether at most one copier runs at a time, and whether copies keep their etag. */
  datatype Setting = Setting(oneCopier: bool, stableEtags: bool)

  // ----------------------------------------------------------------- steps

  predicate SameMetadata(a: Stored, b: Stored) {
    |a.body| == |b.body| && a.etag == b.etag
  }

  predicate Executable(plan: Plan, id: Id) {
    id in plan && plan[id].source.Some? && plan[id].target.Some? && plan[id].ingestion
  }

  predicate Distinct(ids: seq<Id>) {
    forall i, j :: 0 <= i < j < |ids| ==> ids[i] != ids[j]
  }

  predicate InState(w: World, ids: seq<Id>, state: State) {
    forall id | id in ids :: id in w.states && w.states[id] == state
  }

  predicate Allowed(plan: Plan, setting: Setting, w: World, e: Event) {
    match e
    case StartCopier(pid, todo) =>
      && pid !in w.processes && Distinct(todo) && InState(w, todo, ReadyForVerifiedCopy)
      && (setting.oneCopier ==> forall p | p in w.processes :: w.processes[p].Cleaner?)
    case StartCleaner(pid, todo) =>
      pid !in w.processes && Distinct(todo) && InState(w, todo, CopiedVerified)
    case Advance(pid, etag) =>
      && pid in w.processes
      && (setting.stableEtags ==> EtagIsKept(plan, w, w.processes[pid], etag))
    case Stop(pid) => pid in w.processes
  }

  predicate EtagIsKept(plan: Plan, w: World, p: Process, etag: Option<string>) {
    p.Copier? && p.copying.CopyObject? && Executable(plan, p.copying.id)
    && plan[p.copying.id].source.value in w.objects
    ==> etag == w.objects[plan[p.copying.id].source.value].etag
  }

  function Next(plan: Plan, w: World, e: Event): (r: World) {
    match e
    case StartCopier(pid, todo) => w.(processes := w.processes[pid := Copier(todo, HeadSource)])
    case StartCleaner(pid, todo) => w.(processes := w.processes[pid := Cleaner(todo, HeadBeforeCleanup)])
    case Stop(pid) => Gone(w, pid)
    case Advance(pid, etag) =>
      if pid !in w.processes then w
      else if w.processes[pid].Copier? then
        CopyStep(plan, w, pid, w.processes[pid].todo, w.processes[pid].copying, etag)
      else CleanStep(plan, w, pid, w.processes[pid].todo, w.processes[pid].cleaning)
  }

  function Gone(w: World, pid: Pid): (r: World) {
    w.(processes := w.processes - {pid})
  }

  function AtCopy(w: World, pid: Pid, todo: seq<Id>, stage: CopyStage): (r: World) {
    w.(processes := w.processes[pid := Copier(todo, stage)])
  }

  function AtClean(w: World, pid: Pid, todo: seq<Id>, stage: CleanStage): (r: World) {
    w.(processes := w.processes[pid := Cleaner(todo, stage)])
  }

  /** set_state, which does not look at the state it replaces. */
  function SetState(w: World, id: Id, state: State): (r: World) {
    if id in w.states then w.(states := w.states[id := state]) else w
  }

  function Verify(id: Id, seen: Stored, target: Stored): (stage: CopyStage) {
    if SameMetadata(seen, target) then Promote(id) else QuarantineCopy(id)
  }

  /** The transaction of _promote_ingestion. */
  predicate CanPromote(plan: Plan, w: World, id: Id) {
    && Executable(plan, id) && id in w.states && w.states[id].ReadyForVerifiedCopy?
    && plan[id].record in w.rows && w.rows[plan[id].record].version == 0
  }

  function Promoted(plan: Plan, w: World, id: Id): (r: World)
    requires CanPromote(plan, w, id)
  {
    w.(rows := w.rows[plan[id].record := Row(plan[id].target.value, 1)], states := w.states[id := CopiedVerified])
  }

  function CopyStep(plan: Plan, w: World, pid: Pid, todo: seq<Id>, stage: CopyStage, etag: Option<string>): (r: World) {
    match stage
    case HeadSource =>
      if todo == [] then Gone(w, pid)
      else
        var id := todo[0];
        if !Executable(plan, id) || plan[id].source.value !in w.objects then
          AtCopy(w, pid, todo[1..], QuarantineCopy(id))
        else AtCopy(w, pid, todo[1..], HeadTarget(id, w.objects[plan[id].source.value]))
    case HeadTarget(id, seen) =>
      if !Executable(plan, id) then Gone(w, pid)
      else if plan[id].target.value in w.objects then
        AtCopy(w, pid, todo, Verify(id, seen, w.objects[plan[id].target.value]))
      else AtCopy(w, pid, todo, CopyObject(id, seen))
    case CopyObject(id, seen) =>
      if !Executable(plan, id) || plan[id].source.value !in w.objects then Gone(w, pid)
      else
        var body := w.objects[plan[id].source.value].body;
        AtCopy(w.(objects := w.objects[plan[id].target.value := Stored(body, etag)]), pid, todo, HeadCopy(id, seen))
    case HeadCopy(id, seen) =>
      if !Executable(plan, id) || plan[id].target.value !in w.objects then Gone(w, pid)
      else AtCopy(w, pid, todo, Verify(id, seen, w.objects[plan[id].target.value]))
    case Promote(id) =>
      if CanPromote(plan, w, id) then AtCopy(Promoted(plan, w, id), pid, todo, HeadSource)
      else AtCopy(w, pid, todo, QuarantineCopy(id))
    case QuarantineCopy(id) => AtCopy(SetState(w, id, Quarantined), pid, todo, HeadSource)
  }

  function CleanStep(plan: Plan, w: World, pid: Pid, todo: seq<Id>, stage: CleanStage): (r: World) {
    match stage
    case HeadBeforeCleanup =>
      if todo == [] then Gone(w, pid)
      else
        var id := todo[0];
        if id !in plan || plan[id].source.None? || plan[id].target.None? || plan[id].target.value !in w.objects then
          AtClean(w, pid, todo[1..], QuarantineCleanup(id))
        else AtClean(w, pid, todo[1..], DeleteSource(id))
    case DeleteSource(id) =>
      if id !in plan || plan[id].source.None? then Gone(w, pid)
      else AtClean(w.(objects := w.objects - {plan[id].source.value}), pid, todo, MarkCleaned(id))
    case MarkCleaned(id) => AtClean(SetState(w, id, CleanupCompleted), pid, todo, HeadBeforeCleanup)
    case QuarantineCleanup(id) => AtClean(SetState(w, id, Quarantined), pid, todo, HeadBeforeCleanup)
  }

  /** trace is a history that the setting allows. */
  predicate History(plan: Plan, setting: Setting, w: World, trace: seq<Event>)
    decreases |trace|
  {
    trace == [] || (Allowed(plan, setting, w, trace[0]) && History(plan, setting, Next(plan, w, trace[0]), trace[1..]))
  }

  function Play(plan: Plan, w: World, trace: seq<Event>): (r: World)
    decreases |trace|
  {
    if trace == [] then w else Play(plan, Next(plan, w, trace[0]), trace[1..])
  }

  // ------------------------------------------------- one manifest's story

  /** No other manifest shares a key with m, and no other ingestion manifest its row. */
  predicate Apart(plan: Plan, m: Id)
    requires Executable(plan, m)
  {
    var source, target := plan[m].source.value, plan[m].target.value;
    && source != target
    && forall n | n in plan && n != m ::
         && plan[n].source != Some(source) && plan[n].source != Some(target)
         && plan[n].target != Some(source) && plan[n].target != Some(target)
         && (plan[n].ingestion ==> plan[n].record != plan[m].record)
  }

  predicate IsPromoted(plan: Plan, w: World, m: Id)
    requires Executable(plan, m)
  {
    plan[m].record in w.rows && w.rows[plan[m].record].version != 0
  }

  /** m has not been promoted and its row and source are what was reviewed, or its row
      already stands at the verified target. */
  predicate Initial(plan: Plan, w: World, m: Id, origin: Stored)
    requires Executable(plan, m)
  {
    var source, target := plan[m].source.value, plan[m].target.value;
    && w.processes == map[]
    && m in w.states && plan[m].record in w.rows
    && (source in w.objects ==> w.objects[source] == origin)
    && if w.rows[plan[m].record].version == 0 then
         && w.rows[plan[m].record].at == source && source in w.objects && !w.states[m].CopiedVerified?
       else
         && w.rows[plan[m].record].at == target && target in w.objects && SameMetadata(origin, w.objects[target])
  }

  /** The row of m resolves to an object that reads like the original source. */
  predicate Readable(plan: Plan, w: World, m: Id, origin: Stored)
    requires Executable(plan, m)
  {
    && plan[m].record in w.rows
    && w.rows[plan[m].record].at in w.objects
    && SameMetadata(origin, w.objects[w.rows[plan[m].record].at])
  }

  /** The row of m resolves to an object of the original length, and to the original
      bytes unless a foreign object sat at the target from the start. */
  predicate BytesKept(plan: Plan, w: World, m: Id, origin: Stored, free: bool)
    requires Executable(plan, m)
  {
    && plan[m].record in w.rows
    && w.rows[plan[m].record].at in w.objects
    && var held := w.objects[w.rows[plan[m].record].at];
       |held.body| == |origin.body| && (free ==> held.body == origin.body)
  }

  /** What the target may hold: nothing at first when it was free, then a copy of the
      original; otherwise the object that was there from the start. */
  predicate TargetHolds(setting: Setting, held: Stored, origin: Stored, at: Option<Stored>) {
    match at
    case Some(foreign) => held == foreign
    case None => held.body == origin.body && (setting.stableEtags ==> held.etag == origin.etag)
  }

  /** The state of the store, the row and the manifest of m; at is what the target held
      at the start. */
  predicate Placed(plan: Plan, setting: Setting, w: World, m: Id, origin: Stored, at: Option<Stored>)
    requires Executable(plan, m)
  {
    var source, target := plan[m].source.value, plan[m].target.value;
    && m in w.states && plan[m].record in w.rows
    && (source in w.objects ==> w.objects[source] == origin)
    && (at.Some? ==> target in w.objects)
    && (target in w.objects ==> TargetHolds(setting, w.objects[target], origin, at))
    && if IsPromoted(plan, w, m) then
         && w.rows[plan[m].record].at == target && target in w.objects
         && |w.objects[target].body| == |origin.body|
         && (setting.oneCopier || setting.stableEtags || at.Some? ==> w.objects[target].etag == origin.etag)
         && (at.None? ==> !w.states[m].ReadyForVerifiedCopy?)
       else
         && w.rows[plan[m].record].at == source && source in w.objects && !w.states[m].CopiedVerified?
  }

  /** What a process may still do to m, given how far it got. */
  predicate Harmless(plan: Plan, setting: Setting, w: World, p: Process, m: Id, origin: Stored, at: Option<Stored>)
    requires Executable(plan, m)
  {
    var target := plan[m].target.value;
    && Distinct(p.todo)
    && if p.Cleaner? then
         && (m in p.todo ==> IsPromoted(plan, w, m))
         && (p.cleaning == DeleteSource(m) ==> IsPromoted(plan, w, m))
       else
         && (setting.oneCopier && at.None? && (m in p.todo || WorksOn(p.copying, m)) ==> !IsPromoted(plan, w, m))
         && (WorksOn(p.copying, m) ==> m !in p.todo)
         && (p.copying.HeadTarget? && p.copying.id == m ==> p.copying.seen == origin)
         && (p.copying.CopyObject? && p.copying.id == m ==> p.copying.seen == origin && at.None?)
         && (p.copying.HeadCopy? && p.copying.id == m ==> p.copying.seen == origin && target in w.objects)
         && (p.copying == Promote(m) ==> Verified(setting, w, target, origin, at))
  }

  predicate WorksOn(stage: CopyStage, m: Id) {
    !stage.HeadSource? && stage.id == m && !stage.QuarantineCopy?
  }

  predicate Verified(setting: Setting, w: World, target: Target, origin: Stored, at: Option<Stored>) {
    && target in w.objects
    && |w.objects[target].body| == |origin.body|
    && (setting.oneCopier || setting.stableEtags || at.Some? ==> w.objects[target].etag == origin.etag)
  }

  predicate LoneCopier(setting: Setting, w: World) {
    setting.oneCopier ==>
      forall p, q | p in w.processes && q in w.processes && p != q :: w.processes[p].Cleaner? || w.processes[q].Cleaner?
  }

  predicate Invariant(plan: Plan, setting: Setting, w: World, m: Id, origin: Stored, at: Option<Stored>)
    requires Executable(plan, m)
  {
    && Placed(plan, setting, w, m, origin, at)
    && LoneCopier(setting, w)
    && forall p | p in w.processes :: Harmless(plan, setting, w, w.processes[p], m, origin, at)
  }

  /** One step never undoes a promotion or empties the target, nor spoils a verified
      target that another copier may be about to promote. */
  predicate Carries(plan: Plan, setting: Setting, w: World, next: World, m: Id, origin: Stored, at: Option<Stored>)
    requires Executable(plan, m)
  {
    var target := plan[m].target.value;
    && Placed(plan, setting, next, m, origin, at)
    && (IsPromoted(plan, w, m) ==> IsPromoted(plan, next, m))
    && (target in w.objects ==> target in next.objects)
    && (setting.oneCopier || (Verified(setting, w, target, origin, at) ==> Verified(setting, next, target, origin, at)))
  }

  lemma OtherStaysHarmless(plan: Plan, setting: Setting, w: World, next: World, q: Process, m: Id, origin: Stored,
                           at: Option<Stored>)
    requires Executable(plan, m) && Carries(plan, setting, w, next, m, origin, at)
    requires Harmless(plan, setting, w, q, m, origin, at)
    requires setting.oneCopier && q.Copier? ==>
               && (IsPromoted(plan, next, m) ==> IsPromoted(plan, w, m))
               && (plan[m].target.value in w.objects ==>
                     next.objects[plan[m].target.value] == w.objects[plan[m].target.value])
    ensures Harmless(plan, setting, next, q, m, origin, at)
  {
  }

  lemma CopyStepCarries(plan: Plan, setting: Setting, w: World, pid: Pid, etag: Option<string>, m: Id, origin: Stored,
                        at: Option<Stored>)
    requires Executable(plan, m) && Apart(plan, m) && Placed(plan, setting, w, m, origin, at)
    requires Allowed(plan, setting, w, Advance(pid, etag)) && w.processes[pid].Copier?
    requires Harmless(plan, setting, w, w.processes[pid], m, origin, at)
    ensures Carries(plan, setting, w, Next(plan, w, Advance(pid, etag)), m, origin, at)
  {
  }

  lemma TakingUpTheNextStaysHarmless(plan: Plan, setting: Setting, w: World, pid: Pid, etag: Option<string>, m: Id,
                                     origin: Stored, at: Option<Stored>)
    requires Executable(plan, m) && Apart(plan, m) && Placed(plan, setting, w, m, origin, at)
    requires pid in w.processes && w.processes[pid].Copier? && w.processes[pid].copying.HeadSource?
    requires Harmless(plan, setting, w, w.processes[pid], m, origin, at)
    ensures var next := Next(plan, w, Advance(pid, etag));
            pid in next.processes ==> Harmless(plan, setting, next, next.processes[pid], m, origin, at)
  {
    var todo := w.processes[pid].todo;
    if todo != [] {
      assert m in todo <==> m == todo[0] || m in todo[1..];
      assert m == todo[0] ==> m !in todo[1..];
    }
  }

  lemma CopyStepStaysHarmless(plan: Plan, setting: Setting, w: World, pid: Pid, etag: Option<string>, m: Id,
                              origin: Stored, at: Option<Stored>)
    requires Executable(plan, m) && Apart(plan, m) && Placed(plan, setting, w, m, origin, at)
    requires Allowed(plan, setting, w, Advance(pid, etag)) && w.processes[pid].Copier?
    requires Harmless(plan, setting, w, w.processes[pid], m, origin, at)
    ensures var next := Next(plan, w, Advance(pid, etag));
            pid in next.processes ==> Harmless(plan, setting, next, next.processes[pid], m, origin, at)
  {
    if w.processes[pid].copying.HeadSource? {
      TakingUpTheNextStaysHarmless(plan, setting, w, pid, etag, m, origin, at);
    }
  }

  /** A copier's step keeps the invariant. */
  lemma CopyStepKeepsInvariant(plan: Plan, setting: Setting, w: World, pid: Pid, etag: Option<string>, m: Id,
                               origin: Stored, at: Option<Stored>)
    requires Executable(plan, m) && Apart(plan, m) && Invariant(plan, setting, w, m, origin, at)
    requires Allowed(plan, setting, w, Advance(pid, etag)) && w.processes[pid].Copier?
    ensures Invariant(plan, setting, Next(plan, w, Advance(pid, etag)), m, origin, at)
  {
    var next := Next(plan, w, Advance(pid, etag));
    CopyStepCarries(plan, setting, w, pid, etag, m, origin, at);
    CopyStepStaysHarmless(plan, setting, w, pid, etag, m, origin, at);
    forall q | q in next.processes && q != pid ensures Harmless(plan, setting, next, next.processes[q], m, origin, at) {
      OtherStaysHarmless(plan, setting, w, next, w.processes[q], m, origin, at);
    }
  }

  lemma CleanStepCarries(plan: Plan, setting: Setting, w: World, pid: Pid, etag: Option<string>, m: Id, origin: Stored,
                         at: Option<Stored>)
    requires Executable(plan, m) && Apart(plan, m) && Placed(plan, setting, w, m, origin, at)
    requires Allowed(plan, setting, w, Advance(pid, etag)) && w.processes[pid].Cleaner?
    requires Harmless(plan, setting, w, w.processes[pid], m, origin, at)
    ensures var next := Next(plan, w, Advance(pid, etag));
            && Carries(plan, setting, w, next, m, origin, at) && next.rows == w.rows
            && (plan[m].target.value in w.objects ==>
                  next.objects[plan[m].target.value] == w.objects[plan[m].target.value])
  {
  }

  lemma CleanStepKeepsInvariant(plan: Plan, setting: Setting, w: World, pid: Pid, etag: Option<string>, m: Id,
                                origin: Stored, at: Option<Stored>)
    requires Executable(plan, m) && Apart(plan, m) && Invariant(plan, setting, w, m, origin, at)
    requires Allowed(plan, setting, w, Advance(pid, etag)) && w.processes[pid].Cleaner?
    ensures Invariant(plan, setting, Next(plan, w, Advance(pid, etag)), m, origin, at)
  {
    var next := Next(plan, w, Advance(pid, etag));
    CleanStepCarries(plan, setting, w, pid, etag, m, origin, at);
    forall q | q in next.processes ensures Harmless(plan, setting, next, next.processes[q], m, origin, at) {
      OtherStaysHarmless(plan, setting, w, next, w.processes[q], m, origin, at);
    }
  }

  lemma StartKeepsInvariant(plan: Plan, setting: Setting, w: World, e: Event, m: Id, origin: Stored, at: Option<Stored>)
    requires Executable(plan, m) && Apart(plan, m) && Invariant(plan, setting, w, m, origin, at)
    requires Allowed(plan, setting, w, e) && !e.Advance?
    ensures Invariant(plan, setting, Next(plan, w, e), m, origin, at)
  {
  }

  lemma StepKeepsInvariant(plan: Plan, setting: Setting, w: World, e: Event, m: Id, origin: Stored, at: Option<Stored>)
    requires Executable(plan, m) && Apart(plan, m) && Invariant(plan, setting, w, m, origin, at)
    requires Allowed(plan, setting, w, e)
    ensures Invariant(plan, setting, Next(plan, w, e), m, origin, at)
  {
    if e.Advance? {
      if w.processes[e.pid].Copier? {
        CopyStepKeepsInvariant(plan, setting, w, e.pid, e.etag, m, origin, at);
      } else {
        CleanStepKeepsInvariant(plan, setting, w, e.pid, e.etag, m, origin, at);
      }
    } else {
      StartKeepsInvariant(plan, setting, w, e, m, origin, at);
    }
  }

  function AtTarget(plan: Plan, w: World, m: Id): (at: Option<Stored>)
    requires Executable(plan, m)
  {
    if plan[m].target.value in w.objects then Some(w.objects[plan[m].target.value]) else None
  }

  lemma {:induction false} HistoryKeepsInvariant(plan: Plan, setting: Setting, w: World, trace: seq<Event>, m: Id,
                                                 origin: Stored, at: Option<Stored>)
    requires Executable(plan, m) && Apart(plan, m) && Invariant(plan, setting, w, m, origin, at)
    requires History(plan, setting, w, trace)
    ensures Invariant(plan, setting, Play(plan, w, trace), m, origin, at)
    decreases |trace|
  {
    if trace != [] {
      StepKeepsInvariant(plan, setting, w, trace[0], m, origin, at);
      HistoryKeepsInvariant(plan, setting, Next(plan, w, trace[0]), trace[1..], m, origin, at);
    }
  }

  /** Under every interleaving of copiers and cleaners and every crash, the row of m
      resolves to an object of the original length, and to the original bytes unless a
      foreign object held the target from the start; if copiers run one at a time or
      copies keep their etag, it also still carries the original etag. */
  lemma RecordStaysReadable(plan: Plan, setting: Setting, w: World, trace: seq<Event>, m: Id, origin: Stored)
    requires Executable(plan, m) && Apart(plan, m) && Initial(plan, w, m, origin)
    requires History(plan, setting, w, trace)
    ensures BytesKept(plan, Play(plan, w, trace), m, origin,
                      !IsPromoted(plan, w, m) && plan[m].target.value !in w.objects)
    ensures setting.oneCopier || setting.stableEtags ==> Readable(plan, Play(plan, w, trace), m, origin)
  {
    HistoryKeepsInvariant(plan, setting, w, trace, m, origin, AtTarget(plan, w, m));
  }

  /** A source disappears only after its row was moved to the target, and the target is
      there when it does. */
  lemma SourceOutlivesPromotion(plan: Plan, setting: Setting, w: World, trace: seq<Event>, e: Event, m: Id,
                                origin: Stored)
    requires Executable(plan, m) && Apart(plan, m) && Initial(plan, w, m, origin)
    requires History(plan, setting, w, trace) && Allowed(plan, setting, Play(plan, w, trace), e)
    ensures var before := Play(plan, w, trace);
            plan[m].source.value in before.objects && plan[m].source.value !in Next(plan, before, e).objects ==>
              && IsPromoted(plan, before, m)
              && before.rows[plan[m].record].at == plan[m].target.value
              && plan[m].target.value in before.objects
  {
    HistoryKeepsInvariant(plan, setting, w, trace, m, origin, AtTarget(plan, w, m));
  }

  // ------------------------------------- two copiers and a fresh etag

  lemma {:induction false} HistoryGrows(plan: Plan, setting: Setting, w: World, trace: seq<Event>, e: Event)
    requires History(plan, setting, w, trace) && Allowed(plan, setting, Play(plan, w, trace), e)
    ensures History(plan, setting, w, trace + [e])
    ensures Play(plan, w, trace + [e]) == Next(plan, Play(plan, w, trace), e)
    decreases |trace|
  {
    if trace == [] {
      assert [e][1..] == [];
    } else {
      HistoryGrows(plan, setting, Next(plan, w, trace[0]), trace[1..], e);
      assert (trace + [e])[1..] == trace[1..] + [e];
    }
  }

  /** A manifest ready to be copied into an empty place. */
  predicate Fresh(plan: Plan, w: World, m: Id, origin: Stored)
    requires Executable(plan, m)
  {
    && Initial(plan, w, m, origin) && w.states[m].ReadyForVerifiedCopy?
    && w.rows[plan[m].record].version == 0 && plan[m].target.value !in w.objects
  }

  /** A copier that takes up m alone finds its target empty and is about to copy. */
  lemma OneAboutToCopy(plan: Plan, w: World, start: World, trace: seq<Event>, pid: Pid, m: Id, origin: Stored)
    returns (longer: seq<Event>)
    requires Executable(plan, m) && pid !in w.processes && InState(w, [m], ReadyForVerifiedCopy)
    requires plan[m].source.value in w.objects && w.objects[plan[m].source.value] == origin
    requires plan[m].target.value !in w.objects
    requires History(plan, Setting(false, false), start, trace) && Play(plan, start, trace) == w
    ensures History(plan, Setting(false, false), start, longer)
    ensures Play(plan, start, longer) == w.(processes := w.processes[pid := Copier([], CopyObject(m, origin))])
  {
    var any := Setting(false, false);
    assert [m][1..] == [];
    HistoryGrows(plan, any, start, trace, StartCopier(pid, [m]));
    longer := trace + [StartCopier(pid, [m])];
    HistoryGrows(plan, any, start, longer, Advance(pid, None));
    longer := longer + [Advance(pid, None)];
    assert Play(plan, start, longer).processes == w.processes[pid := Copier([], HeadTarget(m, origin))];
    HistoryGrows(plan, any, start, longer, Advance(pid, None));
    longer := longer + [Advance(pid, None)];
    assert Play(plan, start, longer).processes == w.processes[pid := Copier([], CopyObject(m, origin))];
  }

  /** Both copiers found the target empty; neither has copied yet. */
  lemma BothAboutToCopy(plan: Plan, w: World, m: Id, origin: Stored) returns (trace: seq<Event>)
    requires Executable(plan, m) && Apart(plan, m) && Fresh(plan, w, m, origin)
    ensures History(plan, Setting(false, false), w, trace)
    ensures Play(plan, w, trace)
            == w.(processes := map[1 := Copier([], CopyObject(m, origin)), 2 := Copier([], CopyObject(m, origin))])
  {
    trace := OneAboutToCopy(plan, w, w, [], 1, m, origin);
    trace := OneAboutToCopy(plan, Play(plan, w, trace), w, trace, 2, m, origin);
    assert Play(plan, w, trace).processes
        == map[1 := Copier([], CopyObject(m, origin)), 2 := Copier([], CopyObject(m, origin))];
  }

  /** The second copier overwrites the target after the first has promoted the row. */
  lemma RaceReplacesEtag(plan: Plan, w: World, m: Id, origin: Stored, other: Option<string>) returns (trace: seq<Event>)
    requires Executable(plan, m) && Apart(plan, m) && Fresh(plan, w, m, origin) && other != origin.etag
    ensures History(plan, Setting(false, false), w, trace)
    ensures !Readable(plan, Play(plan, w, trace), m, origin)
  {
    var any := Setting(false, false);
    trace := BothAboutToCopy(plan, w, m, origin);
    HistoryGrows(plan, any, w, trace, Advance(1, origin.etag));
    trace := trace + [Advance(1, origin.etag)];
    HistoryGrows(plan, any, w, trace, Advance(1, None));
    trace := trace + [Advance(1, None)];
    HistoryGrows(plan, any, w, trace, Advance(1, None));
    trace := trace + [Advance(1, None)];
    assert Play(plan, w, trace).rows[plan[m].record] == Row(plan[m].target.value, 1);
    HistoryGrows(plan, any, w, trace, Advance(2, other));
    trace := trace + [Advance(2, other)];
    assert Play(plan, w, trace).objects[plan[m].target.value].etag == other;
  }

  /** Whether the metadata the executor verified still holds for the row at the end of
      every history is decided by the setting alone. */
  lemma ReadableExactlyWhen(plan: Plan, setting: Setting, w: World, m: Id, origin: Stored)
    requires Executable(plan, m) && Apart(plan, m) && Fresh(plan, w, m, origin)
    ensures (forall trace :: History(plan, setting, w, trace) ==> Readable(plan, Play(plan, w, trace), m, origin))
            <==> setting.oneCopier || setting.stableEtags
  {
    if setting.oneCopier || setting.stableEtags {
      forall trace | History(plan, setting, w, trace) ensures Readable(plan, Play(plan, w, trace), m, origin) {
        RecordStaysReadable(plan, setting, w, trace, m, origin);
      }
    } else {
      var other := if origin.etag == None then Some("") else None;
      var trace := RaceReplacesEtag(plan, w, m, origin, other);
      assert History(plan, setting, w, trace);
    }
  }

  // ---------------------------------------------------------- the executor

  /** How the provider calls for one manifest go; a fault ends the whole call. */
  datatype Answers = Answers(headSource: Fault, headTarget: Fault, copy: Fault, etag: Option<string>, headCopy: Fault,
                             delete: Fault)

  datatype Ending = EndedMigrated | EndedQuarantined | EndedCleaned | EndedInException

  // -------------------------------------------------- what one call does

  /** copy_verified for one manifest up to the comparison: whether the metadata agree, or
      nothing when a provider call raises. */
  function Compared(plan: Plan, objects: map<Target, Stored>, id: Id, a: Answers)
    : (r: (map<Target, Stored>, Option<bool>))
  {
    if !Executable(plan, id) then (objects, Some(false))
    else if !a.headSource.Fine? then (objects, None)
    else
      var source, target := plan[id].source.value, plan[id].target.value;
      if source !in objects then (objects, Some(false))
      else if !a.headTarget.Fine? then (objects, None)
      else if target in objects then (objects, Some(SameMetadata(objects[source], objects[target])))
      else
        var copy := Stored(objects[source].body, a.etag);
        (if a.copy.TakesEffect() then objects[target := copy] else objects,
         if a.copy.Fine? && a.headCopy.Fine? then Some(SameMetadata(objects[source], copy)) else None)
  }

  function CopiedOne(plan: Plan, w: World, id: Id, a: Answers): (r: (World, Ending)) {
    var (objects, verdict) := Compared(plan, w.objects, id, a);
    var at := w.(objects := objects);
    if verdict.None? then (at, EndedInException)
    else if verdict.value && CanPromote(plan, at, id) then (Promoted(plan, at, id), EndedMigrated)
    else (SetState(at, id, Quarantined), EndedQuarantined)
  }

  function CleanedOne(plan: Plan, w: World, id: Id, a: Answers): (r: (World, Ending)) {
    var known := id in plan && plan[id].source.Some? && plan[id].target.Some?;
    if known && !a.headTarget.Fine? then (w, EndedInException)
    else if !known || plan[id].target.value !in w.objects then (SetState(w, id, Quarantined), EndedQuarantined)
    else
      var at := w.(objects := if a.delete.TakesEffect() then w.objects - {plan[id].source.value} else w.objects);
      if a.delete.Fine? then (SetState(at, id, CleanupCompleted), EndedCleaned) else (at, EndedInException)
  }

  /** The manifests of one call from the i-th on: how many are migrated and quarantined, or
      nothing from the first that ends in an exception. */
  function CopiedFrom(plan: Plan, w: World, todo: seq<Id>, answers: nat -> Answers, i: nat)
    : (r: (World, Option<(nat, nat)>))
    requires i <= |todo|
    decreases |todo| - i
  {
    if i == |todo| then (w, Some((0, 0)))
    else
      var (next, ending) := CopiedOne(plan, w, todo[i], answers(i));
      if ending.EndedInException? then (next, None)
      else
        var (end, rest) := CopiedFrom(plan, next, todo, answers, i + 1);
        (end, if ending.EndedMigrated? then Counted(1, 0, rest) else Counted(0, 1, rest))
  }

  function Counted(migrated: nat, quarantined: nat, rest: Option<(nat, nat)>): (r: Option<(nat, nat)>) {
    if rest.None? then None else Some((migrated + rest.value.0, quarantined + rest.value.1))
  }

  function CleanedFrom(plan: Plan, w: World, todo: seq<Id>, answers: nat -> Answers, i: nat)
    : (r: (World, Option<nat>))
    requires i <= |todo|
    decreases |todo| - i
  {
    if i == |todo| then (w, Some(0))
    else
      var (next, ending) := CleanedOne(plan, w, todo[i], answers(i));
      if ending.EndedInException? then (next, None)
      else
        var (end, rest) := CleanedFrom(plan, next, todo, answers, i + 1);
        (end, Added(if ending.EndedCleaned? then 1 else 0, rest))
  }

  function Added(cleaned: nat, rest: Option<nat>): (r: Option<nat>) {
    if rest.None? then None else Some(cleaned + rest.value)
  }

  /** The object that would be compared with the source. */
  function Found(objects: map<Target, Stored>, source: Target, target: Target, etag: Option<string>): (found: Stored)
    requires source in objects
  {
    if target in objects then objects[target] else Stored(objects[source].body, etag)
  }

  /** A manifest is migrated exactly when it is one of an ingestion, every call it takes goes
      well, what is at the target has the length and etag of the source, and neither the
      manifest nor its row has changed since the review. */
  lemma MigratedExactlyWhen(plan: Plan, w: World, id: Id, a: Answers)
    ensures CopiedOne(plan, w, id, a).1 == EndedMigrated
       <==> && id in plan && plan[id].ingestion && plan[id].source != None && plan[id].target != None
            && var source, target := plan[id].source.value, plan[id].target.value;
               && a.headSource == Fine && source in w.objects && a.headTarget == Fine
               && (target in w.objects || (a.copy == Fine && a.headCopy == Fine))
               && |Found(w.objects, source, target, a.etag).body| == |w.objects[source].body|
               && Found(w.objects, source, target, a.etag).etag == w.objects[source].etag
               && id in w.states && w.states[id] == ReadyForVerifiedCopy
               && plan[id].record in w.rows && w.rows[plan[id].record].version == 0
  {
  }

  /** It ends in an exception exactly when the first of its calls that does not go well is
      one it takes; in all other cases it is quarantined. */
  lemma CopyRaisesExactlyWhen(plan: Plan, w: World, id: Id, a: Answers)
    ensures CopiedOne(plan, w, id, a).1 == EndedInException
       <==> && id in plan && plan[id].ingestion && plan[id].source != None && plan[id].target != None
            && (a.headSource != Fine
                || (plan[id].source.value in w.objects
                    && (a.headTarget != Fine
                        || (plan[id].target.value !in w.objects && (a.copy != Fine || a.headCopy != Fine)))))
    ensures CopiedOne(plan, w, id, a).1 != EndedCleaned
  {
  }

  /** What one manifest leaves: its target is written only where there was nothing, its row
      moves and its state changes with its ending, and all else stays. */
  lemma CopyChangesExactly(plan: Plan, w: World, id: Id, a: Answers)
    ensures var (after, ending) := CopiedOne(plan, w, id, a);
            && after.processes == w.processes
            && after.rows == (if ending == EndedMigrated
                              then w.rows[plan[id].record := Row(plan[id].target.value, 1)] else w.rows)
            && after.states == (if id in w.states && ending == EndedMigrated then w.states[id := CopiedVerified]
                                else if id in w.states && ending == EndedQuarantined then w.states[id := Quarantined]
                                else w.states)
            && after.objects
               == (if Executable(plan, id) && a.headSource == Fine && plan[id].source.value in w.objects
                      && a.headTarget == Fine && plan[id].target.value !in w.objects
                      && a.copy in {Fine, RaiseAfter, CrashAfter}
                   then w.objects[plan[id].target.value := Stored(w.objects[plan[id].source.value].body, a.etag)]
                   else w.objects)
  {
  }

  /** A source is cleaned up exactly when both places are known, the target is there, and
      looking at it and deleting the source go well. */
  lemma CleanedExactlyWhen(plan: Plan, w: World, id: Id, a: Answers)
    ensures var (after, ending) := CleanedOne(plan, w, id, a);
            var known := id in plan && plan[id].source != None && plan[id].target != None;
            && (ending == EndedCleaned
                <==> known && a.headTarget == Fine && plan[id].target.value in w.objects && a.delete == Fine)
            && (ending == EndedInException
                <==> known && (a.headTarget != Fine || (plan[id].target.value in w.objects && a.delete != Fine)))
            && ending != EndedMigrated
            && after.processes == w.processes && after.rows == w.rows
            && after.states == (if id in w.states && ending == EndedCleaned then w.states[id := CleanupCompleted]
                                else if id in w.states && ending == EndedQuarantined then w.states[id := Quarantined]
                                else w.states)
            && after.objects == (if known && a.headTarget == Fine && plan[id].target.value in w.objects
                                    && a.delete in {Fine, RaiseAfter, CrashAfter}
                                 then w.objects - {plan[id].source.value} else w.objects)
  {
  }

  ghost predicate AllFine(answers: nat -> Answers) {
    forall i: nat :: var a := answers(i);
      a.headSource == Fine && a.headTarget == Fine && a.copy == Fine && a.headCopy == Fine && a.delete == Fine
  }

  /** Undisturbed, a call of copy_verified takes up every manifest and each is counted once. */
  lemma {:induction false} UndisturbedCopyCountsAll(plan: Plan, w: World, todo: seq<Id>, answers: nat -> Answers,
                                                    i: nat)
    requires i <= |todo| && AllFine(answers)
    ensures var r := CopiedFrom(plan, w, todo, answers, i).1;
            r.Some? && r.value.0 + r.value.1 == |todo| - i
    decreases |todo| - i
  {
    if i < |todo| {
      CopyRaisesExactlyWhen(plan, w, todo[i], answers(i));
      UndisturbedCopyCountsAll(plan, CopiedOne(plan, w, todo[i], answers(i)).0, todo, answers, i + 1);
    }
  }

  /** The manifest can be cleaned up: its places are known and its target is there. */
  predicate Cleanable(plan: Plan, objects: map<Target, Stored>, id: Id) {
    id in plan && plan[id].source.Some? && plan[id].target.Some? && plan[id].target.value in objects
  }

  /** Undisturbed, a call of cleanup_verified_sources removes the source of every manifest
      whose target is there, and of no other, when no source is another's target. */
  lemma {:induction false} UndisturbedCleanupRemovesAll(plan: Plan, w: World, todo: seq<Id>, answers: nat -> Answers,
                                                        i: nat)
    requires i <= |todo| && AllFine(answers)
    requires forall id, other | id in plan && other in plan && plan[id].source.Some? ::
               plan[id].source != plan[other].target
    ensures var (end, cleaned) := CleanedFrom(plan, w, todo, answers, i);
            && cleaned.Some?
            && forall t :: t in end.objects
                           <==> t in w.objects
                                && forall id | id in todo[i..] && Cleanable(plan, w.objects, id) ::
                                     plan[id].source.value != t
    decreases |todo| - i
  {
    if i < |todo| {
      var next := CleanedOne(plan, w, todo[i], answers(i)).0;
      CleanedExactlyWhen(plan, w, todo[i], answers(i));
      assert todo[i..] == [todo[i]] + todo[i + 1..];
      assert forall id :: Cleanable(plan, next.objects, id) <==> Cleanable(plan, w.objects, id);
      UndisturbedCleanupRemovesAll(plan, next, todo, answers, i + 1);
    }
  }

  const ANY := Setting(false, false)

  /** Some history without restrictions leads from one world to the other. */
  ghost predicate Reaches(plan: Plan, start: World, w: World) {
    exists trace :: History(plan, ANY, start, trace) && Play(plan, start, trace) == w
  }

  lemma ReachesItself(plan: Plan, w: World)
    ensures Reaches(plan, w, w)
  {
    assert History(plan, ANY, w, []) && Play(plan, w, []) == w;
  }

  /** The shared state with process 0 alone, standing at p. */
  function Running(w: World, p: Process): (r: World) {
    w.(processes := map[0 := p])
  }

  function Idle(w: World): (r: World) {
    w.(processes := map[])
  }

  lemma ReachesNext(plan: Plan, start: World, w: World, e: Event)
    requires Reaches(plan, start, w) && Allowed(plan, ANY, w, e)
    ensures Reaches(plan, start, Next(plan, w, e))
  {
    var trace :| History(plan, ANY, start, trace) && Play(plan, start, trace) == w;
    HistoryGrows(plan, ANY, start, trace, e);
  }

  lemma SoloAdvances(plan: Plan, start: World, w: World, stage: Process, etag: Option<string>, next: World)
    requires Reaches(plan, start, w) && w.processes == map[0 := stage]
    requires Next(plan, w, Advance(0, etag)) == next
    ensures Reaches(plan, start, next)
  {
    ReachesNext(plan, start, w, Advance(0, etag));
  }

  lemma SoloStops(plan: Plan, start: World, w: World, stage: Process)
    requires Reaches(plan, start, w) && w.processes == map[0 := stage]
    ensures Reaches(plan, start, w.(processes := map[]))
  {
    ReachesNext(plan, start, w, Stop(0));
    assert w.processes - {0} == map[];
  }

  // The steps of a single copier or cleaner, one lemma per stage.

  lemma SoloStarts(plan: Plan, start: World, e: Event, p: Process)
    requires start.processes == map[] && Allowed(plan, ANY, start, e)
    requires || (e == StartCopier(0, p.todo) && p == Copier(p.todo, HeadSource))
             || (e == StartCleaner(0, p.todo) && p == Cleaner(p.todo, HeadBeforeCleanup))
    ensures Reaches(plan, start, start.(processes := map[0 := p]))
  {
    ReachesItself(plan, start);
    ReachesNext(plan, start, start, e);
    assert Next(plan, start, e).processes == map[0 := p];
  }

  lemma SoloFinishes(plan: Plan, start: World, w: World, p: Process)
    requires Reaches(plan, start, w) && w.processes == map[0 := p]
    requires p == Copier([], HeadSource) || p == Cleaner([], HeadBeforeCleanup)
    ensures Reaches(plan, start, w.(processes := map[]))
  {
    ReachesNext(plan, start, w, Advance(0, None));
    assert w.processes - {0} == map[];
  }

  lemma SoloHeadBeforeCleanup(plan: Plan, start: World, w: World, id: Id, rest: seq<Id>)
    requires Reaches(plan, start, w) && w.processes == map[0 := Cleaner([id] + rest, HeadBeforeCleanup)]
    ensures var found :=
              id in plan && plan[id].source.Some? && plan[id].target.Some? && plan[id].target.value in w.objects;
            var next := if found then DeleteSource(id) else QuarantineCleanup(id);
            Reaches(plan, start, w.(processes := map[0 := Cleaner(rest, next)]))
  {
    assert ([id] + rest)[1..] == rest;
    var next := Next(plan, w, Advance(0, None));
    assert next.processes == map[0 := next.processes[0]];
    SoloAdvances(plan, start, w, Cleaner([id] + rest, HeadBeforeCleanup), None, next);
  }

  lemma SoloDeleteSource(plan: Plan, start: World, w: World, id: Id, rest: seq<Id>)
    requires Reaches(plan, start, w) && w.processes == map[0 := Cleaner(rest, DeleteSource(id))]
    requires id in plan && plan[id].source.Some?
    ensures Reaches(plan, start,
              w.(objects := w.objects - {plan[id].source.value}, processes := map[0 := Cleaner(rest, MarkCleaned(id))]))
  {
    var next := Next(plan, w, Advance(0, None));
    assert next.processes == map[0 := Cleaner(rest, MarkCleaned(id))];
    SoloAdvances(plan, start, w, Cleaner(rest, DeleteSource(id)), None, next);
  }

  lemma SoloMarks(plan: Plan, start: World, w: World, id: Id, rest: seq<Id>, cleaned: bool)
    requires Reaches(plan, start, w)
    requires w.processes == map[0 := Cleaner(rest, if cleaned then MarkCleaned(id) else QuarantineCleanup(id))]
    ensures Reaches(plan, start, SetState(w, id, if cleaned then CleanupCompleted else Quarantined).(
              processes := map[0 := Cleaner(rest, HeadBeforeCleanup)]))
  {
    var next := Next(plan, w, Advance(0, None));
    assert next.processes == map[0 := Cleaner(rest, HeadBeforeCleanup)];
    SoloAdvances(plan, start, w, Cleaner(rest, if cleaned then MarkCleaned(id) else QuarantineCleanup(id)), None, next);
  }

  lemma SoloHeadSource(plan: Plan, start: World, w: World, id: Id, rest: seq<Id>)
    requires Reaches(plan, start, w) && w.processes == map[0 := Copier([id] + rest, HeadSource)]
    ensures var found := Executable(plan, id) && plan[id].source.value in w.objects;
            Reaches(plan, start, w.(processes := map[0 := Copier(rest,
              if found then HeadTarget(id, w.objects[plan[id].source.value]) else QuarantineCopy(id))]))
  {
    assert ([id] + rest)[1..] == rest;
    var next := Next(plan, w, Advance(0, None));
    assert next.processes == map[0 := next.processes[0]];
    SoloAdvances(plan, start, w, Copier([id] + rest, HeadSource), None, next);
  }

  lemma SoloHeadTarget(plan: Plan, start: World, w: World, id: Id, rest: seq<Id>, seen: Stored)
    requires Reaches(plan, start, w) && w.processes == map[0 := Copier(rest, HeadTarget(id, seen))]
    requires Executable(plan, id)
    ensures var target := plan[id].target.value;
            Reaches(plan, start, w.(processes := map[0 := Copier(rest,
              if target in w.objects then Verify(id, seen, w.objects[target]) else CopyObject(id, seen))]))
  {
    var next := Next(plan, w, Advance(0, None));
    assert next.processes == map[0 := next.processes[0]];
    SoloAdvances(plan, start, w, Copier(rest, HeadTarget(id, seen)), None, next);
  }

  lemma SoloCopyObject(plan: Plan, start: World, w: World, id: Id, rest: seq<Id>, seen: Stored, etag: Option<string>)
    requires Reaches(plan, start, w) && w.processes == map[0 := Copier(rest, CopyObject(id, seen))]
    requires Executable(plan, id) && plan[id].source.value in w.objects
    ensures Reaches(plan, start, w.(
              objects := w.objects[plan[id].target.value := Stored(w.objects[plan[id].source.value].body, etag)],
              processes := map[0 := Copier(rest, HeadCopy(id, seen))]))
  {
    var next := Next(plan, w, Advance(0, etag));
    assert next.processes == map[0 := Copier(rest, HeadCopy(id, seen))];
    SoloAdvances(plan, start, w, Copier(rest, CopyObject(id, seen)), etag, next);
  }

  lemma SoloHeadCopy(plan: Plan, start: World, w: World, id: Id, rest: seq<Id>, seen: Stored)
    requires Reaches(plan, start, w) && w.processes == map[0 := Copier(rest, HeadCopy(id, seen))]
    requires Executable(plan, id) && plan[id].target.value in w.objects
    ensures Reaches(plan, start,
                    w.(processes := map[0 := Copier(rest, Verify(id, seen, w.objects[plan[id].target.value]))]))
  {
    var next := Next(plan, w, Advance(0, None));
    assert next.processes == map[0 := next.processes[0]];
    SoloAdvances(plan, start, w, Copier(rest, HeadCopy(id, seen)), None, next);
  }

  lemma SoloPromote(plan: Plan, start: World, w: World, id: Id, rest: seq<Id>)
    requires Reaches(plan, start, w) && w.processes == map[0 := Copier(rest, Promote(id))]
    ensures Reaches(plan, start,
              if CanPromote(plan, w, id) then Promoted(plan, w, id).(processes := map[0 := Copier(rest, HeadSource)])
              else w.(processes := map[0 := Copier(rest, QuarantineCopy(id))]))
  {
    var next := Next(plan, w, Advance(0, None));
    assert next.processes == map[0 := next.processes[0]];
    SoloAdvances(plan, start, w, Copier(rest, Promote(id)), None, next);
  }

  lemma SoloQuarantine(plan: Plan, start: World, w: World, id: Id, rest: seq<Id>)
    requires Reaches(plan, start, w) && w.processes == map[0 := Copier(rest, QuarantineCopy(id))]
    ensures Reaches(plan, start, SetState(w, id, Quarantined).(processes := map[0 := Copier(rest, HeadSource)]))
  {
    var next := Next(plan, w, Advance(0, None));
    assert next.processes == map[0 := Copier(rest, HeadSource)];
    SoloAdvances(plan, start, w, Copier(rest, QuarantineCopy(id)), None, next);
  }

  // A whole call is a path, manifest by manifest.

  lemma CopyIsAPath(plan: Plan, start: World, w: World, id: Id, rest: seq<Id>, seen: Stored, a: Answers)
    requires Executable(plan, id) && plan[id].source.value in w.objects
    requires Reaches(plan, start, Running(w, Copier(rest, CopyObject(id, seen))))
    ensures var copy := Stored(w.objects[plan[id].source.value].body, a.etag);
            var after := if a.copy.TakesEffect() then w.(objects := w.objects[plan[id].target.value := copy]) else w;
            Reaches(plan, start,
                    if a.copy.Fine? && a.headCopy.Fine? then Running(after, Copier(rest, Verify(id, seen, copy)))
                    else Idle(after))
  {
    var copy := Stored(w.objects[plan[id].source.value].body, a.etag);
    var after := w.(objects := w.objects[plan[id].target.value := copy]);
    if a.copy.TakesEffect() {
      SoloCopyObject(plan, start, Running(w, Copier(rest, CopyObject(id, seen))), id, rest, seen, a.etag);
      assert Reaches(plan, start, Running(after, Copier(rest, HeadCopy(id, seen))));
      if a.copy.Fine? && a.headCopy.Fine? {
        SoloHeadCopy(plan, start, Running(after, Copier(rest, HeadCopy(id, seen))), id, rest, seen);
      } else {
        SoloStops(plan, start, Running(after, Copier(rest, HeadCopy(id, seen))), Copier(rest, HeadCopy(id, seen)));
      }
    } else {
      SoloStops(plan, start, Running(w, Copier(rest, CopyObject(id, seen))), Copier(rest, CopyObject(id, seen)));
    }
  }

  /** Where the comparison leaves the process. */
  function AfterComparing(id: Id, rest: seq<Id>, r: (map<Target, Stored>, Option<bool>), w: World): (at: World) {
    var after := w.(objects := r.0);
    if r.1.None? then Idle(after)
    else Running(after, Copier(rest, if r.1.value then Promote(id) else QuarantineCopy(id)))
  }

  lemma ComparedIsAPath(plan: Plan, start: World, w: World, id: Id, rest: seq<Id>, a: Answers)
    requires Reaches(plan, start, Running(w, Copier([id] + rest, HeadSource)))
    ensures Reaches(plan, start, AfterComparing(id, rest, Compared(plan, w.objects, id, a), w))
  {
    var at := Running(w, Copier([id] + rest, HeadSource));
    if Executable(plan, id) && !a.headSource.Fine? {
      SoloStops(plan, start, at, Copier([id] + rest, HeadSource));
    } else {
      SoloHeadSource(plan, start, at, id, rest);
      if Executable(plan, id) && plan[id].source.value in w.objects {
        TargetIsAPath(plan, start, w, id, rest, a);
      }
    }
  }

  lemma TargetIsAPath(plan: Plan, start: World, w: World, id: Id, rest: seq<Id>, a: Answers)
    requires Executable(plan, id) && a.headSource.Fine? && plan[id].source.value in w.objects
    requires Reaches(plan, start, Running(w, Copier(rest, HeadTarget(id, w.objects[plan[id].source.value]))))
    ensures Reaches(plan, start, AfterComparing(id, rest, Compared(plan, w.objects, id, a), w))
  {
    var seen := w.objects[plan[id].source.value];
    var at := Running(w, Copier(rest, HeadTarget(id, seen)));
    if !a.headTarget.Fine? {
      SoloStops(plan, start, at, Copier(rest, HeadTarget(id, seen)));
    } else {
      SoloHeadTarget(plan, start, at, id, rest, seen);
      if plan[id].target.value !in w.objects {
        CopyIsAPath(plan, start, w, id, rest, seen, a);
      }
    }
  }

  lemma CopiedOneIsAPath(plan: Plan, start: World, w: World, id: Id, rest: seq<Id>, a: Answers)
    requires Reaches(plan, start, Running(w, Copier([id] + rest, HeadSource)))
    ensures var (after, ending) := CopiedOne(plan, w, id, a);
            Reaches(plan, start, if ending.EndedInException? then Idle(after)
                                 else Running(after, Copier(rest, HeadSource)))
  {
    ComparedIsAPath(plan, start, w, id, rest, a);
    var (objects, verdict) := Compared(plan, w.objects, id, a);
    var at := w.(objects := objects);
    if verdict == Some(true) {
      SoloPromote(plan, start, Running(at, Copier(rest, Promote(id))), id, rest);
    }
    if verdict.Some? && !(verdict.value && CanPromote(plan, at, id)) {
      SoloQuarantine(plan, start, Running(at, Copier(rest, QuarantineCopy(id))), id, rest);
    }
  }

  lemma {:induction false} CopiedFromIsAPath(plan: Plan, start: World, w: World, todo: seq<Id>,
                                             answers: nat -> Answers, i: nat)
    requires i <= |todo| && Reaches(plan, start, Running(w, Copier(todo[i..], HeadSource)))
    ensures Reaches(plan, start, Idle(CopiedFrom(plan, w, todo, answers, i).0))
    decreases |todo| - i
  {
    if i == |todo| {
      SoloFinishes(plan, start, Running(w, Copier([], HeadSource)), Copier([], HeadSource));
    } else {
      assert todo[i..] == [todo[i]] + todo[i + 1..];
      CopiedOneIsAPath(plan, start, w, todo[i], todo[i + 1..], answers(i));
      var (next, ending) := CopiedOne(plan, w, todo[i], answers(i));
      if !ending.EndedInException? {
        CopiedFromIsAPath(plan, start, next, todo, answers, i + 1);
      }
    }
  }

  /** Whatever fails, a call of copy_verified is a path of the step machine, taken by process
      0 and ended by it or by an exception. */
  lemma CopyVerifiedIsAPath(plan: Plan, w: World, todo: seq<Id>, answers: nat -> Answers)
    requires w.processes == map[] && Distinct(todo) && InState(w, todo, ReadyForVerifiedCopy)
    ensures Reaches(plan, w, Idle(CopiedFrom(plan, w, todo, answers, 0).0))
  {
    SoloStarts(plan, w, StartCopier(0, todo), Copier(todo, HeadSource));
    assert todo[0..] == todo;
    CopiedFromIsAPath(plan, w, w, todo, answers, 0);
  }

  lemma CleanedOneIsAPath(plan: Plan, start: World, w: World, id: Id, rest: seq<Id>, a: Answers)
    requires Reaches(plan, start, Running(w, Cleaner([id] + rest, HeadBeforeCleanup)))
    ensures var (after, ending) := CleanedOne(plan, w, id, a);
            Reaches(plan, start, if ending.EndedInException? then Idle(after)
                                 else Running(after, Cleaner(rest, HeadBeforeCleanup)))
  {
    var at := Running(w, Cleaner([id] + rest, HeadBeforeCleanup));
    if id in plan && plan[id].source.Some? && plan[id].target.Some? && !a.headTarget.Fine? {
      SoloStops(plan, start, at, Cleaner([id] + rest, HeadBeforeCleanup));
    } else {
      SoloHeadBeforeCleanup(plan, start, at, id, rest);
      if Cleanable(plan, w.objects, id) {
        DeletionIsAPath(plan, start, w, id, rest, a);
      } else {
        SoloMarks(plan, start, Running(w, Cleaner(rest, QuarantineCleanup(id))), id, rest, false);
      }
    }
  }

  lemma DeletionIsAPath(plan: Plan, start: World, w: World, id: Id, rest: seq<Id>, a: Answers)
    requires Cleanable(plan, w.objects, id) && a.headTarget.Fine?
    requires Reaches(plan, start, Running(w, Cleaner(rest, DeleteSource(id))))
    ensures var (after, ending) := CleanedOne(plan, w, id, a);
            Reaches(plan, start, if ending.EndedInException? then Idle(after)
                                 else Running(after, Cleaner(rest, HeadBeforeCleanup)))
  {
    var at, after := Running(w, Cleaner(rest, DeleteSource(id))), w.(objects := w.objects - {plan[id].source.value});
    if a.delete.TakesEffect() {
      SoloDeleteSource(plan, start, at, id, rest);
      at := Running(after, Cleaner(rest, MarkCleaned(id)));
      assert Reaches(plan, start, at);
    }
    if a.delete.Fine? {
      SoloMarks(plan, start, at, id, rest, true);
    } else {
      SoloStops(plan, start, at, at.processes[0]);
    }
  }

  lemma {:induction false} CleanedFromIsAPath(plan: Plan, start: World, w: World, todo: seq<Id>,
                                              answers: nat -> Answers, i: nat)
    requires i <= |todo| && Reaches(plan, start, Running(w, Cleaner(todo[i..], HeadBeforeCleanup)))
    ensures Reaches(plan, start, Idle(CleanedFrom(plan, w, todo, answers, i).0))
    decreases |todo| - i
  {
    if i == |todo| {
      SoloFinishes(plan, start, Running(w, Cleaner([], HeadBeforeCleanup)), Cleaner([], HeadBeforeCleanup));
    } else {
      assert todo[i..] == [todo[i]] + todo[i + 1..];
      CleanedOneIsAPath(plan, start, w, todo[i], todo[i + 1..], answers(i));
      var (next, ending) := CleanedOne(plan, w, todo[i], answers(i));
      if !ending.EndedInException? {
        CleanedFromIsAPath(plan, start, next, todo, answers, i + 1);
      }
    }
  }

  /** And so is a call of cleanup_verified_sources. */
  lemma CleanupIsAPath(plan: Plan, w: World, todo: seq<Id>, answers: nat -> Answers)
    requires w.processes == map[] && Distinct(todo) && InState(w, todo, CopiedVerified)
    ensures Reaches(plan, w, Idle(CleanedFrom(plan, w, todo, answers, 0).0))
  {
    SoloStarts(plan, w, StartCleaner(0, todo), Cleaner(todo, HeadBeforeCleanup));
    assert todo[0..] == todo;
    CleanedFromIsAPath(plan, w, w, todo, answers, 0);
  }

  // ------------------------------------------------------------- what is counted

  /** The ids that stand in the given state. */
  ghost function Ended(ids: seq<Id>, states: map<Id, State>, state: State): (ended: set<Id>) {
    set id | id in ids && id in states && states[id] == state
  }

  lemma EndedGains(id: Id, rest: seq<Id>, states: map<Id, State>, state: State)
    requires id !in rest && id in states
    ensures |Ended([id] + rest, states, state)|
         == (if states[id] == state then 1 else 0) + |Ended(rest, states, state)|
  {
    assert Ended([id] + rest, states, state)
        == (if states[id] == state then {id} else {}) + Ended(rest, states, state);
  }

  /** A call of copy_verified changes the states of its manifests alone, and counts those
      that end migrated and those that end quarantined. */
  lemma {:induction false} CopyCountsTheEnded(plan: Plan, w: World, todo: seq<Id>, answers: nat -> Answers, i: nat)
    requires i <= |todo| && Distinct(todo) && forall id | id in todo :: id in w.states
    ensures var (end, counts) := CopiedFrom(plan, w, todo, answers, i);
            && end.states.Keys == w.states.Keys
            && (forall id | id in w.states && id !in todo[i..] :: end.states[id] == w.states[id])
            && (counts.Some? ==>
                  && counts.value.0 == |Ended(todo[i..], end.states, CopiedVerified)|
                  && counts.value.1 == |Ended(todo[i..], end.states, Quarantined)|)
    decreases |todo| - i
  {
    if i == |todo| {
      assert Ended([], w.states, CopiedVerified) == {} && Ended([], w.states, Quarantined) == {};
    } else {
      var id, rest := todo[i], todo[i + 1..];
      assert todo[i..] == [id] + rest && id !in rest;
      CopyChangesExactly(plan, w, id, answers(i));
      CopyRaisesExactlyWhen(plan, w, id, answers(i));
      var (next, ending) := CopiedOne(plan, w, id, answers(i));
      if !ending.EndedInException? {
        CopyCountsTheEnded(plan, next, todo, answers, i + 1);
        var end := CopiedFrom(plan, next, todo, answers, i + 1).0;
        EndedGains(id, rest, end.states, CopiedVerified);
        EndedGains(id, rest, end.states, Quarantined);
      }
    }
  }

  lemma {:induction false} CleanupCountsTheEnded(plan: Plan, w: World, todo: seq<Id>, answers: nat -> Answers, i: nat)
    requires i <= |todo| && Distinct(todo) && forall id | id in todo :: id in w.states
    ensures var (end, cleaned) := CleanedFrom(plan, w, todo, answers, i);
            && end.states.Keys == w.states.Keys
            && (forall id | id in w.states && id !in todo[i..] :: end.states[id] == w.states[id])
            && (cleaned.Some? ==> cleaned.value == |Ended(todo[i..], end.states, CleanupCompleted)|)
    decreases |todo| - i
  {
    if i == |todo| {
      assert Ended([], w.states, CleanupCompleted) == {};
    } else {
      var id, rest := todo[i], todo[i + 1..];
      assert todo[i..] == [id] + rest && id !in rest;
      CleanedExactlyWhen(plan, w, id, answers(i));
      var (next, ending) := CleanedOne(plan, w, id, answers(i));
      if !ending.EndedInException? {
        CleanupCountsTheEnded(plan, next, todo, answers, i + 1);
        EndedGains(id, rest, CleanedFrom(plan, next, todo, answers, i + 1).0.states, CleanupCompleted);
      }
    }
  }

  lemma OneMore(plan: Plan, w: World, todo: seq<Id>, answers: nat -> Answers, i: nat, migrated: nat, quarantined: nat)
    requires i < |todo|
    ensures var (next, ending) := CopiedOne(plan, w, todo[i], answers(i));
            var (end, rest) := CopiedFrom(plan, w, todo, answers, i);
            (end, Counted(migrated, quarantined, rest))
            == if ending.EndedInException? then (next, None)
               else
                 var (later, more) := CopiedFrom(plan, next, todo, answers, i + 1);
                 (later, if ending.EndedMigrated? then Counted(migrated + 1, quarantined, more)
                         else Counted(migrated, quarantined + 1, more))
  {
  }

  lemma OneCleanedMore(plan: Plan, w: World, todo: seq<Id>, answers: nat -> Answers, i: nat, count: nat)
    requires i < |todo|
    ensures var (next, ending) := CleanedOne(plan, w, todo[i], answers(i));
            var (end, rest) := CleanedFrom(plan, w, todo, answers, i);
            (end, Added(count, rest))
            == if ending.EndedInException? then (next, None)
               else
                 var (later, more) := CleanedFrom(plan, next, todo, answers, i + 1);
                 (later, Added(if ending.EndedCleaned? then count + 1 else count, more))
  {
  }

  lemma CopyCounts(plan: Plan, w: World, todo: seq<Id>, answers: nat -> Answers)
    requires Distinct(todo) && InState(w, todo, ReadyForVerifiedCopy)
    ensures var (end, counts) := CopiedFrom(plan, w, todo, answers, 0);
            counts.Some? ==>
              counts.value == (|Ended(todo, end.states, CopiedVerified)|, |Ended(todo, end.states, Quarantined)|)
  {
    CopyCountsTheEnded(plan, w, todo, answers, 0);
    assert todo[0..] == todo;
  }

  lemma CleanupCounts(plan: Plan, w: World, todo: seq<Id>, answers: nat -> Answers)
    requires Distinct(todo) && InState(w, todo, CopiedVerified)
    ensures var (end, cleaned) := CleanedFrom(plan, w, todo, answers, 0);
            cleaned.Some? ==> cleaned.value == |Ended(todo, end.states, CleanupCompleted)|
  {
    CleanupCountsTheEnded(plan, w, todo, answers, 0);
    assert todo[0..] == todo;
  }

  /** One call of copy_verified or cleanup_verified_sources, run to its end or to its first
      failing provider call. */
  class ProviderMigrationExecutor {
    const plan: Plan
    var objects: map<Target, Stored>
    var states: map<Id, State>
    var rows: map<RecordId, Row>

    constructor (plan: Plan, objects: map<Target, Stored>, states: map<Id, State>, rows: map<RecordId, Row>)
      ensures this.plan == plan && this.objects == objects && this.states == states && this.rows == rows
    {
      this.plan, this.objects, this.states, this.rows := plan, objects, states, rows;
    }

    ghost function Current(): (w: World)
      reads this
    {
      World(objects, states, rows, map[])
    }

    method Mark(id: Id, state: State)
      modifies `states
      ensures states == if id in old(states) then old(states)[id := state] else old(states)
    {
      if id in states {
        states := states[id := state];
      }
    }

    method PromoteIngestion(id: Id) returns (promoted: bool)
      modifies `states, `rows
      ensures promoted == old(CanPromote(plan, Current(), id))
      ensures rows == if promoted then old(rows)[plan[id].record := Row(plan[id].target.value, 1)] else old(rows)
      ensures states == if promoted then old(states)[id := CopiedVerified] else old(states)
    {
      if id !in plan || plan[id].source.None? || plan[id].target.None? || !plan[id].ingestion
         || id !in states || !states[id].ReadyForVerifiedCopy? {
        return false;
      }
      var record := plan[id].record;
      if record !in rows || rows[record].version != 0 {
        return false;
      }
      rows := rows[record := Row(plan[id].target.value, 1)];
      states := states[id := CopiedVerified];
      return true;
    }

    /** copy_verified up to the comparison: whether the target may be promoted, or nothing
        when a provider call raised. */
    method CopyAndCompare(id: Id, a: Answers) returns (verdict: Option<bool>)
      modifies `objects
      ensures (objects, verdict) == Compared(plan, old(objects), id, a)
    {
      if id !in plan || plan[id].source.None? || plan[id].target.None? || !plan[id].ingestion {
        return Some(false);
      }
      if !a.headSource.Fine? {
        return None;
      }
      var source, target := plan[id].source.value, plan[id].target.value;
      if source !in objects {
        return Some(false);
      }
      var seen := objects[source];
      if !a.headTarget.Fine? {
        return None;
      }
      if target !in objects {
        var copied := CopyTo(source, target, a);
        if !copied {
          return None;
        }
      }
      verdict := Some(SameMetadata(seen, objects[target]));
    }

    /** storage.copy: the copy itself and the adapter's head on it. */
    method CopyTo(source: Target, target: Target, a: Answers) returns (copied: bool)
      requires source in objects
      modifies `objects
      ensures objects == if a.copy.TakesEffect()
                         then old(objects)[target := Stored(old(objects)[source].body, a.etag)] else old(objects)
      ensures copied == (a.copy.Fine? && a.headCopy.Fine?)
    {
      if a.copy.TakesEffect() {
        objects := objects[target := Stored(objects[source].body, a.etag)];
      }
      return a.copy.Fine? && a.headCopy.Fine?;
    }

    /** The body of the copy loop for one manifest. */
    method CopyOne(id: Id, a: Answers) returns (ending: Ending)
      modifies this
      ensures (Current(), ending) == CopiedOne(plan, old(Current()), id, a)
    {
      var verdict := CopyAndCompare(id, a);
      if verdict.None? {
        return EndedInException;
      }
      if verdict.value {
        var promoted := PromoteIngestion(id);
        if promoted {
          return EndedMigrated;
        }
      }
      Mark(id, Quarantined);
      return EndedQuarantined;
    }

    method CopyVerified(todo: seq<Id>, answers: nat -> Answers) returns (result: Option<(nat, nat)>)
      requires Distinct(todo) && InState(Current(), todo, ReadyForVerifiedCopy)
      modifies this
      ensures (Current(), result) == CopiedFrom(plan, old(Current()), todo, answers, 0)
      ensures Reaches(plan, old(Current()), Current())
      ensures result.Some? ==>
                result.value == (|Ended(todo, states, CopiedVerified)|, |Ended(todo, states, Quarantined)|)
    {
      CopyVerifiedIsAPath(plan, Current(), todo, answers);
      CopyCounts(plan, Current(), todo, answers);
      result := CopyEach(todo, answers);
    }

    /** The copy loop. */
    method CopyEach(todo: seq<Id>, answers: nat -> Answers) returns (result: Option<(nat, nat)>)
      modifies this
      ensures (Current(), result) == CopiedFrom(plan, old(Current()), todo, answers, 0)
    {
      ghost var start := Current();
      var migrated, quarantined := 0, 0;
      for i := 0 to |todo|
        invariant var (end, rest) := CopiedFrom(plan, Current(), todo, answers, i);
                  CopiedFrom(plan, start, todo, answers, 0) == (end, Counted(migrated, quarantined, rest))
      {
        OneMore(plan, Current(), todo, answers, i, migrated, quarantined);
        var ending := CopyOne(todo[i], answers(i));
        if ending.EndedInException? {
          return None;
        }
        if ending.EndedMigrated? {
          migrated := migrated + 1;
        } else {
          quarantined := quarantined + 1;
        }
      }
      return Some((migrated, quarantined));
    }

    method CleanupVerifiedSources(todo: seq<Id>, answers: nat -> Answers) returns (cleaned: Option<nat>)
      requires Distinct(todo) && InState(Current(), todo, CopiedVerified)
      modifies this
      ensures (Current(), cleaned) == CleanedFrom(plan, old(Current()), todo, answers, 0)
      ensures Reaches(plan, old(Current()), Current())
      ensures cleaned.Some? ==> cleaned.value == |Ended(todo, states, CleanupCompleted)|
    {
      CleanupIsAPath(plan, Current(), todo, answers);
      CleanupCounts(plan, Current(), todo, answers);
      cleaned := CleanEach(todo, answers);
    }

    /** The cleanup loop. */
    method CleanEach(todo: seq<Id>, answers: nat -> Answers) returns (cleaned: Option<nat>)
      modifies this
      ensures (Current(), cleaned) == CleanedFrom(plan, old(Current()), todo, answers, 0)
    {
      ghost var start := Current();
      var count := 0;
      for i := 0 to |todo|
        invariant var (end, rest) := CleanedFrom(plan, Current(), todo, answers, i);
                  CleanedFrom(plan, start, todo, answers, 0) == (end, Added(count, rest))
      {
        OneCleanedMore(plan, Current(), todo, answers, i, count);
        var ending := CleanOne(todo[i], answers(i));
        if ending.EndedInException? {
          return None;
        }
        if ending.EndedCleaned? {
          count := count + 1;
        }
      }
      return Some(count);
    }

    /** The body of the cleanup loop for one manifest. */
    method CleanOne(id: Id, a: Answers) returns (ending: Ending)
      modifies `objects, `states
      ensures (Current(), ending) == CleanedOne(plan, old(Current()), id, a)
    {
      var known := id in plan && plan[id].source.Some? && plan[id].target.Some?;
      if known && !a.headTarget.Fine? {
        return EndedInException;
      }
      if !known || plan[id].target.value !in objects {
        Mark(id, Quarantined);
        return EndedQuarantined;
      }
      if a.delete.TakesEffect() {
        objects := objects - {plan[id].source.value};
      }
      if !a.delete.Fine? {
        return EndedInException;
      }
      Mark(id, CleanupCompleted);
      return EndedCleaned;
    }
  }
}
