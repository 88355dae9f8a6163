/**
  The operation lifecycle as a state machine: request handlers, pipeline tasks,
  done-callbacks and log streams interleaving around one first-in-first-out lock.
  A step is the code between two suspension points, or less. Only cancelled tasks are overtaken in the queue.
*/
module OperationProtocol {
  import opened Wrappers
  import opened OperationRecords

  /** A record with its history: every item ever published, every line ever buffered. */
  datatype Entry = Entry(record: Record, published: seq<Item>, logged: seq<string>)

  /** AtLock: suspended in update_operation. Settled: the done-callback has run. */
  datatype TaskState = Ready | AtLock(call: Call) | Ended(outcome: Outcome) | Settled

  /** `rid` is the record the task was created for; the code itself only ever uses `id`. */
  datatype Task = Task(rid: nat, id: string, state: TaskState, cancelled: bool)

  datatype Waiter =
    | ForTask(tid: TaskId)
    | ForCancel(id: string)
    | ForRegister(id: string, step: string, message: string, maxLines: nat)

  datatype Phase = Replaying | Live | Draining | Finished | Drained | Left

  /** A log stream: Live ends in Finished on the end marker, Draining in Drained.
      `history` is its snapshot, `lost` whether its queue ever overflowed. */
  datatype Subscriber = Subscriber(rid: nat, phase: Phase, queue: seq<Item>, history: seq<string>,
                                   yielded: seq<string>, joinedAt: nat, joinedLines: nat, lost: bool)

  /** `registering` is the record whose registration is suspended while holding the lock. */
  datatype State = State(entries: seq<Entry>, current: map<string, nat>, tasks: seq<Task>,
                         waiters: seq<Waiter>, registering: Option<nat>, subs: seq<Subscriber>)

  const INITIAL: State := State([], map[], [], [], None, [])

  datatype Event =
    | RequestRegister(id: string, step: string, message: string, maxLines: nat)
    | RequestCancel(id: string)
    | RequestUpdate(tid: TaskId, call: Call)
    | Grant(index: nat, now: string)
    | FinishRegister(initLine: string)
    | Log(tid: TaskId, line: string, now: string)
    | End(tid: TaskId, outcome: Outcome)
    | Callback(tid: TaskId, now: string)
    | Subscribe(id: string)
    | Advance(sid: nat)
    | Leave(sid: nat)

  // ---------------------------------------------------------------- helpers

  predicate Unfinished(t: Task) { t.state.Ready? || t.state.AtLock? }

  /** A cancelled task's next resumption raises: it takes no other step. */
  predicate Free(s: State, tid: TaskId) {
    tid < |s.tasks| && s.tasks[tid].state.Ready? && !s.tasks[tid].cancelled
  }

  predicate Open(p: Phase) { p.Replaying? || p.Live? || p.Draining? }

  function Lookup(s: State, id: string): (r: Option<nat>)
    ensures r.Some? ==> r.value < |s.entries|
  {
    if id in s.current && s.current[id] < |s.entries| then Some(s.current[id]) else None
  }

  function StatusOf(s: State, rid: nat): Status
    requires rid < |s.entries|
  {
    s.entries[rid].record.status
  }

  /** The scan of register_operation over the dictionary's values. */
  predicate Conflict(s: State, target: string) {
    exists id :: id in s.current && s.current[id] < |s.entries|
                 && s.entries[s.current[id]].record.target == target && Active(StatusOf(s, s.current[id]))
  }

  function Extend(en: Entry, e: Effect): Entry {
    Entry(e.record, en.published + e.published, en.logged + e.buffered)
  }

  function OfferTo(sub: Subscriber, rid: nat, items: seq<Item>): Subscriber {
    if sub.rid == rid && Open(sub.phase) then
      sub.(queue := OfferAll(sub.queue, items), lost := sub.lost || |sub.queue| + |items| > QUEUE_SIZE)
    else
      sub
  }

  /** A record changes and its subscribers are sent the items. */
  function Emit(s: State, rid: nat, e: Effect): State
    requires rid < |s.entries|
  {
    s.(entries := s.entries[rid := Extend(s.entries[rid], e)],
       subs := seq(|s.subs|, i requires 0 <= i < |s.subs| => OfferTo(s.subs[i], rid, e.published)))
  }

  function SetTask(s: State, tid: TaskId, state: TaskState): State
    requires tid < |s.tasks|
  {
    s.(tasks := s.tasks[tid := s.tasks[tid].(state := state)])
  }

  function Without(ws: seq<Waiter>, i: nat): seq<Waiter>
    requires i < |ws|
  {
    ws[..i] + ws[i + 1..]
  }

  /** A cancelled task that still waits: the lock is not for it any more, and may go to one behind it. */
  predicate IsSkipped(s: State, w: Waiter) {
    w.ForTask? && w.tid < |s.tasks| && s.tasks[w.tid].cancelled
  }

  function Remove(ws: seq<Waiter>, w: Waiter): seq<Waiter> {
    if ws == [] then []
    else if ws[0] == w then Remove(ws[1..], w)
    else [ws[0]] + Remove(ws[1..], w)
  }

  // ---------------------------------------------------------------- steps of tasks

  /** The look at the record before a guarded call, then the wait for the lock. */
  function Request(s: State, tid: TaskId, call: Call): State
    requires Free(s, tid)
  {
    var rid := Lookup(s, s.tasks[tid].id);
    if Guarded(call) && (rid.None? || StatusOf(s, rid.value).Cancelled?) then
      if Final(call) then SetTask(s, tid, Ended(Returned)) else s
    else
      SetTask(s, tid, AtLock(call)).(waiters := s.waiters + [ForTask(tid)])
  }

  /** update_operation with the lock held, and what follows without a suspension. */
  function GrantTask(s: State, tid: TaskId, now: string): State
    requires tid < |s.tasks| && s.tasks[tid].state.AtLock?
  {
    var call := s.tasks[tid].state.call;
    var next := SetTask(s, tid, if Final(call) then Ended(Returned) else Ready);
    var rid := Lookup(s, s.tasks[tid].id);
    if rid.None? then next else Emit(next, rid.value, CallEffect(s.entries[rid.value].record, call, now))
  }

  function LogLine(s: State, tid: TaskId, line: string, now: string): State
    requires Free(s, tid)
  {
    var rid := Lookup(s, s.tasks[tid].id);
    if rid.None? then s else Emit(s, rid.value, AppendLog(s.entries[rid.value].record, line, now))
  }

  /** The coroutine returns or raises, giving up its place in the queue. */
  function EndTask(s: State, tid: TaskId, outcome: Outcome): State
    requires tid < |s.tasks|
  {
    SetTask(s, tid, Ended(outcome)).(waiters := Remove(s.waiters, ForTask(tid)))
  }

  /** _finalize_task, which runs without the lock. */
  function RunCallback(s: State, tid: TaskId, now: string): State
    requires tid < |s.tasks| && s.tasks[tid].state.Ended?
  {
    var next := SetTask(s, tid, Settled);
    var rid := Lookup(s, s.tasks[tid].id);
    if rid.None? then next
    else
      var record := s.entries[rid.value].record;
      if record.task != Some(tid) || Terminal(record.status) then next
      else Emit(next, rid.value, FinalizeRecord(record, s.tasks[tid].state.outcome, now))
  }

  // ---------------------------------------------------------------- steps of request handlers

  function GrantCancel(s: State, id: string, now: string): State {
    var rid := Lookup(s, id);
    if rid.None? || Terminal(StatusOf(s, rid.value)) then s
    else
      var record := s.entries[rid.value].record;
      var next := Emit(s, rid.value, CancelRecord(record, now));
      if record.task.Some? && record.task.value < |s.tasks| && Unfinished(s.tasks[record.task.value]) then
        next.(tasks := s.tasks[record.task.value := s.tasks[record.task.value].(cancelled := true)])
      else
        next
  }

  /** Up to the suspension: the record is already in the dictionary and the lock stays held. When the id has no
      log file the record stays as well, but the lock is released and the error is raised. */
  function GrantRegister(s: State, w: Waiter, now: string): State
    requires w.ForRegister?
  {
    if Conflict(s, w.id) then s
    else
      s.(entries := s.entries + [Entry(NewRecord(w.id, w.id, w.step, w.message, w.maxLines, now), [], [])],
         current := s.current[w.id := |s.entries|],
         registering := if ValidId(w.id) then Some(|s.entries|) else None)
  }

  /** After the suspension, through the router's create_task and attach_task. */
  function FinishRegistration(s: State, initLine: string): State
    requires s.registering.Some? && s.registering.value < |s.entries|
  {
    var rid := s.registering.value;
    var en := s.entries[rid];
    var entries := s.entries[rid := Entry(Buffer(en.record, initLine), en.published, en.logged + [initLine])];
    var id := en.record.id;
    var attached := Lookup(s, id);
    s.(entries := if attached.None? then entries else Attach(entries, attached.value, |s.tasks|),
       tasks := s.tasks + [Task(rid, id, Ready, false)],
       registering := None)
  }

  function Attach(entries: seq<Entry>, rid: nat, tid: TaskId): seq<Entry>
    requires rid < |entries|
  {
    entries[rid := entries[rid].(record := entries[rid].record.(task := Some(tid)))]
  }

  // ---------------------------------------------------------------- steps of log streams

  /** The queue joins and the snapshot is taken in one region. */
  function Join(s: State, id: string): State {
    var rid := Lookup(s, id);
    if rid.None? then s
    else
      var en := s.entries[rid.value];
      var sub := Subscriber(rid.value, Replaying, [], en.record.buffer, [], |en.published|, |en.logged|, false);
      s.(subs := s.subs + [sub])
  }

  predicate CanAdvance(sub: Subscriber) {
    Open(sub.phase) && (sub.phase.Live? ==> sub.queue != [])
  }

  function Resume(sub: Subscriber, terminal: bool): Subscriber
    requires CanAdvance(sub)
  {
    match sub.phase
    case Replaying =>
      if |sub.yielded| < |sub.history| then sub.(yielded := sub.yielded + [sub.history[|sub.yielded|]])
      else sub.(phase := if terminal then Draining else Live)
    case Live =>
      (match sub.queue[0]
       case EndOfStream => sub.(phase := Finished, queue := sub.queue[1..])
       case Line(text) => sub.(queue := sub.queue[1..], yielded := sub.yielded + [text]))
    case Draining =>
      if sub.queue == [] then sub.(phase := Drained)
      else
        (match sub.queue[0]
         case EndOfStream => sub.(phase := Drained, queue := sub.queue[1..])
         case Line(text) =>
           sub.(queue := sub.queue[1..], yielded := if text in sub.history then sub.yielded else sub.yielded + [text]))
    case _ => sub
  }

  // ---------------------------------------------------------------- the machine

  predicate Enabled(s: State, e: Event) {
    match e
    case RequestRegister(_, _, _, _) => true
    case RequestCancel(_) => true
    case RequestUpdate(tid, _) => Free(s, tid)
    case Grant(i, _) =>
      && s.registering.None? && i < |s.waiters|
      && (forall j :: 0 <= j < i ==> IsSkipped(s, s.waiters[j]))
      && (s.waiters[i].ForTask? ==>
            var tid := s.waiters[i].tid;
            tid < |s.tasks| && s.tasks[tid].state.AtLock? && !s.tasks[tid].cancelled)
    case FinishRegister(_) => s.registering.Some? && s.registering.value < |s.entries|
    case Log(tid, _, _) => Free(s, tid)
    case End(tid, outcome) =>
      tid < |s.tasks| && Unfinished(s.tasks[tid]) && (s.tasks[tid].cancelled ==> outcome.WasCancelled?)
    case Callback(tid, _) => tid < |s.tasks| && s.tasks[tid].state.Ended?
    case Subscribe(_) => true
    case Advance(sid) => sid < |s.subs| && CanAdvance(s.subs[sid]) && s.subs[sid].rid < |s.entries|
    case Leave(sid) => sid < |s.subs| && Open(s.subs[sid].phase)
  }

  function Next(s: State, e: Event): State
    requires Enabled(s, e)
  {
    match e
    case RequestRegister(id, step, message, maxLines) =>
      s.(waiters := s.waiters + [ForRegister(id, step, message, maxLines)])
    case RequestCancel(id) => s.(waiters := s.waiters + [ForCancel(id)])
    case RequestUpdate(tid, call) => Request(s, tid, call)
    case Grant(i, now) =>
      var rest := s.(waiters := Without(s.waiters, i));
      (match s.waiters[i]
       case ForTask(tid) => GrantTask(rest, tid, now)
       case ForCancel(id) => GrantCancel(rest, id, now)
       case ForRegister(_, _, _, _) => GrantRegister(rest, s.waiters[i], now))
    case FinishRegister(initLine) => FinishRegistration(s, initLine)
    case Log(tid, line, now) => LogLine(s, tid, line, now)
    case End(tid, outcome) => EndTask(s, tid, outcome)
    case Callback(tid, now) => RunCallback(s, tid, now)
    case Subscribe(id) => Join(s, id)
    case Advance(sid) =>
      s.(subs := s.subs[sid := Resume(s.subs[sid], Terminal(StatusOf(s, s.subs[sid].rid)))])
    case Leave(sid) => s.(subs := s.subs[sid := s.subs[sid].(phase := Left)])
  }

  /** A run: the states it goes through, one more than its events. */
  ghost predicate Behavior(states: seq<State>, events: seq<Event>) {
    && |states| == |events| + 1
    && states[0] == INITIAL
    && forall i :: 0 <= i < |events| ==> Enabled(states[i], events[i]) && states[i + 1] == Next(states[i], events[i])
  }

  /** The pipeline task whose code a step is, if any. */
  function Actor(s: State, e: Event): Option<TaskId> {
    match e
    case RequestUpdate(tid, _) => Some(tid)
    case Log(tid, _, _) => Some(tid)
    case End(tid, _) => Some(tid)
    case Callback(tid, _) => Some(tid)
    case Grant(i, _) => if i < |s.waiters| && s.waiters[i].ForTask? then Some(s.waiters[i].tid) else None
    case _ => None
  }
}
