/**
  OperationManager itself: the dictionary, the records and the subscriber queues
  as objects, each method proved against what OperationRecords says it does.
  The methods are the regions that run without a suspension.
*/
module OperationManager {
  import opened Wrappers
  import opened OperationRecords

  /** An asyncio.Queue of QUEUE_SIZE places. */
  class LogQueue {
    var items: seq<Item>

    constructor ()
      ensures items == []
    {
      items := [];
    }

    /** QueueFull is the result `false`. */
    method PutNowait(item: Item) returns (ok: bool)
      modifies this
      ensures ok == (|old(items)| < QUEUE_SIZE)
      ensures items == if ok then old(items) + [item] else old(items)
    {
      ok := |items| < QUEUE_SIZE;
      if ok { items := items + [item]; }
    }

    /** QueueEmpty is the result `false`. */
    method GetNowait() returns (ok: bool)
      modifies this
      ensures ok == (old(items) != [])
      ensures items == if ok then old(items)[1..] else old(items)
    {
      ok := items != [];
      if ok { items := items[1..]; }
    }
  }

  class OperationRecord {
    const id: string
    const target: string
    const maxLines: nat
    var status: Status
    var currentStep: Option<string>
    var message: Option<string>
    var error: Option<string>
    var updatedAt: string
    var completedAt: Option<string>
    var logBuffer: seq<string>
    var subscribers: seq<LogQueue>
    var task: Option<TaskId>

    constructor (id: string, target: string, step: string, message: string, maxLines: nat, now: string)
      ensures View() == NewRecord(id, target, step, message, maxLines, now)
      ensures subscribers == []
    {
      this.id, this.target, this.maxLines := id, target, maxLines;
      status, currentStep, this.message, error := Queued, Some(step), Some(message), None;
      updatedAt, completedAt, logBuffer, subscribers, task := now, None, [], [], None;
    }

    function View(): Record
      reads this
    {
      Record(id, target, status, currentStep, message, error, updatedAt, completedAt, logBuffer, maxLines, task)
    }

    ghost predicate Valid()
      reads this, subscribers
    {
      && (forall i, j :: 0 <= i < j < |subscribers| ==> subscribers[i] != subscribers[j])
      && (forall i :: 0 <= i < |subscribers| ==> |subscribers[i].items| <= QUEUE_SIZE)
    }

    ghost function Footprint(): set<object>
      reads this
    {
      (set q: object | q in subscribers) + {this}
    }

    /** The record changed as the effect says and every subscriber was sent its items. */
    twostate predicate Emits(e: Effect)
      reads this, subscribers
    {
      && View() == e.record && subscribers == old(subscribers)
      && forall i :: 0 <= i < |subscribers| ==> subscribers[i].items == OfferAll(old(subscribers[i].items), e.published)
    }

    /** The assignments of update_operation. */
    method Change(u: Update, now: string)
      requires Valid()
      modifies this
      ensures Valid() && subscribers == old(subscribers)
      ensures View() == UpdateRecord(old(View()), u.(completed := false), now).record
    {
      updatedAt := now;
      if u.status.Some? { status := u.status.value; }
      if u.step.Some? { currentStep := u.step; }
      if u.message.Some? { message := u.message; }
      if u.error.Some? { error := u.error; }
    }

    /** The assignments of cancel_operation. */
    method MarkCancelled(now: string)
      requires Valid()
      modifies this
      ensures Valid() && subscribers == old(subscribers)
      ensures View() == MarkedCancelled(old(View()), now)
    {
      status := Cancelled;
      completedAt := Some(now);
      message := Some(CancelMessage(id));
      updatedAt := now;
    }

    /** The assignments of _finalize_task. */
    method MarkFinalized(outcome: Outcome, now: string)
      requires Valid()
      modifies this
      ensures Valid() && subscribers == old(subscribers)
      ensures View() == MarkedFinalized(old(View()), outcome, now)
    {
      match outcome {
        case WasCancelled =>
          status := Cancelled;
          currentStep := Some("Cancelled");
          message := Some("Operation '" + id + "' was cancelled.");
        case Raised(text) =>
          status := Failed;
          currentStep := Some("Failed");
          error := Some(text);
          message := Some("Operation failed: " + text);
        case Returned =>
          status := Failed;
          currentStep := Some("Failed");
          error := Some(NO_STATUS);
          message := Some("Operation failed: " + NO_STATUS);
      }
      updatedAt := now;
      completedAt := Some(now);
    }

    /** append_log once the record is found; it raises after buffering when the id has no log file. */
    method LogLine(line: string, now: string) returns (raised: bool)
      requires Valid()
      modifies Footprint()
      ensures Valid() && Emits(AppendLog(old(View()), line, now))
      ensures raised == LogRaises(old(View()), line, now)
    {
      hide Offer, OfferAll, FormatLine, ValidId;
      OfferNone();
      var text := FormatLine(line, now);
      if text.None? {
        return false;
      }
      BufferLine(text.value);
      if !ValidId(id) {
        return true;
      }
      Publish(this, Line(text.value));
      OfferOne(Line(text.value));
      return false;
    }

    /** A last line, then the end marker. */
    method LogAndClose(line: string, now: string) returns (raised: bool)
      requires Valid()
      modifies Footprint()
      ensures Valid() && Emits(OperationRecords.LogAndClose(old(View()), line, now))
      ensures raised == LogRaises(old(View()), line, now)
    {
      hide Offer, OfferAll, AppendLog, LogRaises;
      ghost var logged := AppendLog(View(), line, now);
      raised := LogLine(line, now);
      if raised {
        return;
      }
      Publish(this, EndOfStream);
      OfferLast(logged.published, EndOfStream);
    }

    /** deque.append on a deque of bounded length. */
    method BufferLine(text: string)
      modifies this
      ensures View() == Buffer(old(View()), text) && subscribers == old(subscribers)
    {
      logBuffer := logBuffer + [text];
      if |logBuffer| > maxLines {
        logBuffer := logBuffer[|logBuffer| - maxLines..];
      }
    }
  }

  /** One subscriber: put, and while the queue is full drop its oldest item and put again. */
  method PublishTo(queue: LogQueue, item: Item)
    requires |queue.items| <= QUEUE_SIZE
    modifies queue
    ensures queue.items == Offer(old(queue.items), item)
    ensures queue.items == (if |old(queue.items)| < 100 then old(queue.items) else old(queue.items)[1..]) + [item]
  {
    var done := queue.PutNowait(item);
    while !done
      invariant |queue.items| <= QUEUE_SIZE
      invariant !done ==> Offer(queue.items, item) == Offer(old(queue.items), item) && |queue.items| == QUEUE_SIZE
      invariant done ==> queue.items == Offer(old(queue.items), item)
      decreases !done, |queue.items|
    {
      var got := queue.GetNowait();
      if !got {
        break;
      }
      done := queue.PutNowait(item);
    }
  }

  method Publish(record: OperationRecord, item: Item)
    requires record.Valid()
    modifies set q | q in record.subscribers
    ensures record.Valid()
    ensures forall i :: 0 <= i < |record.subscribers| ==>
              record.subscribers[i].items == Offer(old(record.subscribers[i].items), item)
  {
    hide Offer;
    var subs := record.subscribers;
    for i := 0 to |subs|
      invariant forall k :: 0 <= k < i ==> subs[k].items == Offer(old(subs[k].items), item)
      invariant forall k :: i <= k < |subs| ==> subs[k].items == old(subs[k].items)
    {
      PublishTo(subs[i], item);
    }
  }

  // ---------------------------------------------------------------- registration as a function

  datatype RegisterError = TargetBusy | BadOperationId

  predicate Busy(ops: map<string, Record>, target: string) {
    exists id :: id in ops && ops[id].target == target && Active(ops[id].status)
  }

  /** The dictionary after a registration up to its suspension, and the error raised there, if any. */
  function Register(ops: map<string, Record>, r: Record): (map<string, Record>, Option<RegisterError>) {
    if Busy(ops, r.target) then (ops, Some(TargetBusy))
    else (ops[r.id := r], if ValidId(r.id) then None else Some(BadOperationId))
  }

  lemma RegisterUnfolds(ops: map<string, Record>, r: Record)
    ensures Register(ops, r) ==
              (if Busy(ops, r.target) then (ops, Some(TargetBusy))
               else (ops[r.id := r], if ValidId(r.id) then None else Some(BadOperationId)))
  {
  }

  /** A registration that raises has left its target busy exactly when the id was refused:
      the record is stored before the id is looked at. */
  lemma RefusedIdLocksTarget(ops: map<string, Record>, r: Record)
    requires Active(r.status) && !Busy(ops, r.target)
    ensures var (after, error) := Register(ops, r);
            && (error.Some? <==> !ValidId(r.id))
            && Busy(after, r.target)
            && forall again: Record :: again.target == r.target ==> Register(after, again) == (after, Some(TargetBusy))
  {
    var after := ops[r.id := r];
    assert r.id in after && after[r.id] == r;
  }

  predicate Rivals(a: Record, b: Record) {
    Active(a.status) && Active(b.status) && a.target == b.target
  }

  /** At most one active operation per target. */
  ghost predicate Exclusive(ops: map<string, Record>) {
    forall a, b :: a in ops && b in ops && Rivals(ops[a], ops[b]) ==> a == b
  }

  lemma RegisterKeepsExclusive(ops: map<string, Record>, r: Record)
    requires Exclusive(ops)
    ensures Exclusive(Register(ops, r).0)
  {
    var after := Register(ops, r).0;
    forall a, b | a in after && b in after && Rivals(after[a], after[b]) ensures a == b {
      if !Busy(ops, r.target) {
        assert a != r.id ==> a in ops && after[a] == ops[a];
        assert b != r.id ==> b in ops && after[b] == ops[b];
      }
    }
  }

  /** A registration takes the lock off a target it does not name exactly when it reuses the id of that target's
      active operation, whose record the dictionary then forgets. */
  lemma LockLostExactly(ops: map<string, Record>, r: Record, target: string)
    requires Exclusive(ops) && Busy(ops, target) && target != r.target
    ensures !Busy(Register(ops, r).0, target) <==>
              !Busy(ops, r.target) && r.id in ops && Active(ops[r.id].status) && ops[r.id].target == target
  {
    var after := Register(ops, r).0;
    var id :| id in ops && ops[id].target == target && Active(ops[id].status);
    if !Busy(ops, r.target) && id != r.id { assert id in after && after[id] == ops[id]; }
  }

  /** The task to cancel is cancelled before the last line is logged, so also when logging raises. */
  datatype CancelResult = NotFound | AlreadyFinished(status: Status) | CancelSent(cancelTask: Option<TaskId>)
                        | CancelRaised(cancelTask: Option<TaskId>)

  /** For an unknown id update_operation means to report that it was not found, but its parameter `status` hides the
      module whose constant the report needs: what is raised is an AttributeError. */
  datatype UpdateResult = Updated | AttributeError

  class Manager {
    var operations: map<string, OperationRecord>

    constructor ()
      ensures operations == map[] && Keyed()
    {
      operations := map[];
    }

    /** Records are stored under their own ids; `id` is a constant of the record. */
    ghost predicate Keyed()
      reads this
    {
      forall id :: id in operations ==> operations[id].id == id
    }

    /** The one record a method works on, if there is one, has its queues in order. */
    ghost predicate Usable(id: string)
      reads this, operations.Values, Touched(id)
    {
      Keyed() && (id in operations ==> operations[id].Valid())
    }

    ghost function Views(): map<string, Record>
      reads this, operations.Values
    {
      map id | id in operations :: operations[id].View()
    }

    /** What a method working on one operation may change. */
    ghost function Touched(id: string): set<object>
      reads this, operations.Values
    {
      if id in operations then operations[id].Footprint() else {}
    }

    method Store(record: OperationRecord)
      requires Keyed()
      modifies this`operations
      ensures Keyed() && operations == old(operations)[record.id := record]
      ensures Views() == old(Views())[record.id := record.View()]
    {
      operations := operations[record.id := record];
    }

    /** The scan for an active operation on the target. */
    method FindConflict(target: string) returns (busy: bool)
      ensures busy == Busy(Views(), target)
    {
      var ids := operations.Keys;
      while ids != {}
        invariant ids <= operations.Keys
        invariant forall k :: k in operations && k !in ids ==>
                    !(operations[k].target == target && Active(operations[k].status))
        decreases |ids|
      {
        var k :| k in ids;
        if operations[k].target == target && Active(operations[k].status) {
          assert k in Views() && Views()[k] == operations[k].View();
          return true;
        }
        ids := ids - {k};
      }
      return false;
    }

    /** register_operation with the lock held, up to the log file being written. */
    method RegisterLocked(id: string, target: string, step: string, message: string, maxLines: nat, now: string)
      returns (r: Result<OperationRecord, RegisterError>)
      requires Keyed()
      modifies this`operations
      ensures Keyed()
      ensures (Views(), if r.Err? then Some(r.error) else None)
           == Register(old(Views()), NewRecord(id, target, step, message, maxLines, now))
      ensures r.Ok? ==> id in operations && r.value == operations[id] && fresh(r.value) && r.value.Valid()
    {
      hide ValidId, Register, Busy;
      RegisterUnfolds(Views(), NewRecord(id, target, step, message, maxLines, now));
      var busy := FindConflict(target);
      if busy {
        return Err(TargetBusy);
      }
      var record := new OperationRecord(id, target, step, message, maxLines, now);
      Store(record);
      if !ValidId(id) {
        return Err(BadOperationId);
      }
      return Ok(record);
    }

    /** The end of register_operation, after the suspension. */
    method RegisterFinish(record: OperationRecord, initLine: string)
      modifies record
      ensures record.View() == Buffer(old(record.View()), initLine) && record.subscribers == old(record.subscribers)
    {
      record.BufferLine(initLine);
    }

    /** update_operation with the lock held. */
    method UpdateOperation(id: string, u: Update, now: string) returns (r: UpdateResult)
      requires Usable(id)
      modifies Touched(id)
      ensures r.Updated? <==> id in operations
      ensures r.Updated? ==>
                operations[id].Valid() && operations[id].Emits(UpdateRecord(old(operations[id].View()), u, now))
    {
      hide Offer, OfferAll;
      OfferNone();
      OfferOne(EndOfStream);
      if id !in operations {
        return AttributeError;
      }
      var record := operations[id];
      record.Change(u, now);
      if u.completed {
        record.completedAt := Some(now);
        Publish(record, EndOfStream);
      }
      return Updated;
    }

    method AppendLog(id: string, line: string, now: string) returns (raised: bool)
      requires Usable(id)
      modifies Touched(id)
      ensures raised == (id in operations && LogRaises(old(operations[id].View()), line, now))
      ensures id in operations ==>
                operations[id].Valid()
                && operations[id].Emits(OperationRecords.AppendLog(old(operations[id].View()), line, now))
    {
      hide Offer, OfferAll, FormatLine, LogRaises;
      if id !in operations {
        return false;
      }
      raised := operations[id].LogLine(line, now);
    }

    method AttachTask(id: string, task: TaskId)
      modifies if id in operations then {operations[id]} else {}
      ensures id in operations ==>
                operations[id].View() == old(operations[id].View()).(task := Some(task))
                && operations[id].subscribers == old(operations[id].subscribers)
    {
      if id in operations {
        operations[id].task := Some(task);
      }
    }

    /** The done-callback: only the task the record knows, and only if it ended without reporting. */
    method FinalizeTask(id: string, task: TaskId, outcome: Outcome, now: string) returns (raised: bool)
      requires Usable(id)
      modifies Touched(id)
      ensures raised == (id in operations && !ValidId(id) && old(operations[id].task) == Some(task)
                         && !Terminal(old(operations[id].status)))
      ensures id in operations ==>
                var was := old(operations[id].View());
                operations[id].Valid()
                && operations[id].Emits(if was.task == Some(task) && !Terminal(was.status)
                                        then FinalizeRecord(was, outcome, now) else Effect(was, [], []))
    {
      hide Offer, OfferAll, OperationRecords.LogAndClose, Finalized, ValidId, FormatLine;
      OfferNone();
      if id !in operations {
        return false;
      }
      var record := operations[id];
      if record.task != Some(task) || Terminal(record.status) {
        return false;
      }
      record.MarkFinalized(outcome, now);
      FinalMessageNotBlank(record.id, outcome, now);
      raised := record.LogAndClose(record.message.value, now);
    }

    method CancelOperation(id: string, now: string) returns (r: CancelResult)
      requires Usable(id)
      modifies Touched(id)
      ensures r.NotFound? <==> id !in operations
      ensures id in operations ==>
                var was := old(operations[id].View());
                operations[id].Valid()
                && operations[id].Emits(if Terminal(was.status) then Effect(was, [], []) else CancelRecord(was, now))
                && r == if Terminal(was.status) then AlreadyFinished(was.status)
                        else if ValidId(id) then CancelSent(was.task) else CancelRaised(was.task)
    {
      hide Offer, OfferAll, OperationRecords.LogAndClose, CancelMessage, CancelLine, ValidId, FormatLine;
      OfferNone();
      if id !in operations {
        return NotFound;
      }
      var record := operations[id];
      if Terminal(record.status) {
        return AlreadyFinished(record.status);
      }
      CancelLineNotBlank(now);
      record.MarkCancelled(now);
      var cancelTask := record.task;
      var raised := record.LogAndClose(CancelLine(now), now);
      return if raised then CancelRaised(cancelTask) else CancelSent(cancelTask);
    }

    /** The start of stream_logs: the queue joins and the snapshot is taken together. */
    method Subscribe(id: string) returns (r: Option<(LogQueue, seq<string>)>)
      requires Usable(id)
      modifies if id in operations then {operations[id]} else {}
      ensures r.None? <==> id !in operations
      ensures r.Some? ==>
                && fresh(r.value.0) && r.value.0.items == [] && r.value.1 == old(operations[id].logBuffer)
                && operations[id].View() == old(operations[id].View())
                && operations[id].subscribers == old(operations[id].subscribers) + [r.value.0]
                && operations[id].Valid()
    {
      if id !in operations {
        return None;
      }
      var record := operations[id];
      var queue := new LogQueue();
      record.subscribers := record.subscribers + [queue];
      return Some((queue, record.logBuffer));
    }
  }

  /** Offering a list of items ends with offering its last. */
  lemma OfferLast(items: seq<Item>, item: Item)
    ensures forall q: seq<Item> {:trigger OfferAll(q, items + [item])} ::
              OfferAll(q, items + [item]) == Offer(OfferAll(q, items), item)
  {
    assert (items + [item])[..|items|] == items;
  }

  lemma FinalMessageNotBlank(id: string, outcome: Outcome, now: string)
    ensures forall r: Record :: r.id == id ==> FormatLine(MarkedFinalized(r, outcome, now).message.value, now).Some?
  {
    hide FormatLine;
    forall r: Record | r.id == id ensures FormatLine(MarkedFinalized(r, outcome, now).message.value, now).Some? {
      NotBlank(MarkedFinalized(r, outcome, now).message.value, now);
    }
  }

  lemma CancelLineNotBlank(now: string)
    ensures FormatLine(CancelLine(now), now).Some?
  {
    hide FormatLine;
    NotBlank(CancelLine(now), now);
  }

  lemma OfferNone()
    ensures forall q: seq<Item> {:trigger OfferAll(q, [])} :: OfferAll(q, []) == q
  {
  }

  lemma OfferOne(item: Item)
    ensures forall q: seq<Item> {:trigger OfferAll(q, [item])} :: OfferAll(q, [item]) == Offer(q, item)
  {
    assert [item][..0] == [];
  }
}
