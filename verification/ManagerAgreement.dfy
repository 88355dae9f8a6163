/**
  The protocol's steps do to the dictionary and the subscriber queues what the
  methods of OperationManager promise.
*/
module ManagerAgreement {
  import opened Wrappers
  import opened OperationRecords
  import opened OperationProtocol
  import opened ProtocolInvariant
  import opened ProtocolSteps
  import OperationManager

  /** The dictionary: the current record of every id. */
  function Dictionary(s: State): map<string, Record> {
    map id | id in s.current && s.current[id] < |s.entries| :: s.entries[s.current[id]].record
  }

  /** The operation's record changed as the effect says, no other did, and the open streams of that
      record, and only those, were sent its items. */
  ghost predicate Carries(s: State, after: State, id: string, e: Effect)
    requires Lookup(s, id).Some?
  {
    && Dictionary(after) == Dictionary(s)[id := e.record]
    && |after.subs| == |s.subs|
    && forall k :: 0 <= k < |s.subs| ==>
         if s.subs[k].rid == Lookup(s, id).value && Open(s.subs[k].phase)
         then after.subs[k].queue == OfferAll(s.subs[k].queue, e.published)
         else after.subs[k] == s.subs[k]
  }

  lemma EmitCarries(s: State, after: State, id: string, e: Effect)
    requires IndexOk(s) && Lookup(s, id).Some?
    requires e.record.id == id
    requires after.current == s.current
    requires after.entries == Emit(s, Lookup(s, id).value, e).entries
    requires after.subs == Emit(s, Lookup(s, id).value, e).subs
    ensures Carries(s, after, id, e)
  {
    hide OfferAll, Texts;
    var rid := Lookup(s, id).value;
    forall x | x in s.current && x != id ensures s.current[x] != rid {
      assert s.entries[s.current[x]].record.id == x;
    }
  }

  lemma NothingCarries(s: State, after: State, id: string)
    requires Lookup(s, id).Some?
    requires after.current == s.current && after.entries == s.entries && after.subs == s.subs
    ensures Carries(s, after, id, Effect(Dictionary(s)[id], [], []))
  {
  }

  /** register_operation up to its suspension, or up to the error it raises for the id. */
  lemma RegistrationAgrees(s: State, w: Waiter, now: string)
    requires IndexOk(s) && w.ForRegister? && s.registering.None?
    ensures var after := GrantRegister(s, w, now);
            var record := NewRecord(w.id, w.id, w.step, w.message, w.maxLines, now);
            var (dictionary, error) := OperationManager.Register(Dictionary(s), record);
            && Dictionary(after) == dictionary
            && (error == Some(OperationManager.TargetBusy) <==> after == s)
            && (error == None <==> after.registering == Some(|s.entries|))
  {
    hide ValidId, Conflict, OperationManager.Busy;
    ConflictAgrees(s, w.id);
  }

  lemma ConflictAgrees(s: State, target: string)
    ensures Conflict(s, target) <==> OperationManager.Busy(Dictionary(s), target)
  {
    var dictionary := Dictionary(s);
    if Conflict(s, target) {
      var id :| id in s.current && s.current[id] < |s.entries|
                && s.entries[s.current[id]].record.target == target && Active(StatusOf(s, s.current[id]));
      assert id in dictionary && dictionary[id] == s.entries[s.current[id]].record;
    }
    if OperationManager.Busy(dictionary, target) {
      var id :| id in dictionary && dictionary[id].target == target && Active(dictionary[id].status);
      assert dictionary[id] == s.entries[s.current[id]].record;
    }
  }

  /** The end of register_operation and the router's attach_task. */
  lemma FinishAgrees(s: State, initLine: string)
    requires Inv(s) && s.registering.Some?
    ensures s.registering.value < |s.entries|
    ensures var after := FinishRegistration(s, initLine);
            var id := s.entries[s.registering.value].record.id;
            && id in Dictionary(s)
            && Dictionary(after) == Dictionary(s)[id := Buffer(Dictionary(s)[id], initLine).(task := Some(|s.tasks|))]
            && after.subs == s.subs
  {
    hide EntriesOk, SubsOk, WaitersOk, FinishRegistration, ValidId;
    FinishUnfolds(s, initLine);
    var rid := s.registering.value;
    assert OwnerOk(s, rid) && IndexedOrOver(s, rid);
    EntryIsBounded(s, rid);
    var id := s.entries[rid].record.id;
    forall x | x in s.current && x != id ensures s.current[x] != rid {
      assert s.entries[s.current[x]].record.id == x;
    }
  }

  /** The start of stream_logs. */
  lemma SubscriptionAgrees(s: State, id: string)
    ensures var after := Join(s, id);
            && Dictionary(after) == Dictionary(s)
            && (id !in Dictionary(s) ==> after.subs == s.subs)
            && (id in Dictionary(s) ==>
                  && |after.subs| == |s.subs| + 1 && after.subs[..|s.subs|] == s.subs
                  && after.subs[|s.subs|].queue == [] && after.subs[|s.subs|].history == Dictionary(s)[id].buffer
                  && Some(after.subs[|s.subs|].rid) == Lookup(s, id) && Open(after.subs[|s.subs|].phase))
  {
  }

  /** cancel_operation. */
  lemma CancelAgrees(s: State, id: string, now: string)
    requires IndexOk(s) && Lookup(s, id).Some?
    ensures var was := Dictionary(s)[id];
            Carries(s, GrantCancel(s, id, now), id,
                    if Terminal(was.status) then Effect(was, [], []) else CancelRecord(was, now))
  {
    hide Carries, CancelRecord, Emit;
    var was := Dictionary(s)[id];
    assert was.id == id;
    if Terminal(was.status) {
      NothingCarries(s, s, id);
    } else {
      CancelledId(was, now);
      EmitUnfolds(s, Lookup(s, id).value, CancelRecord(was, now));
      EmitCarries(s, GrantCancel(s, id, now), id, CancelRecord(was, now));
    }
  }

  lemma EmitUnfolds(s: State, rid: nat, e: Effect)
    requires rid < |s.entries|
    ensures Emit(s, rid, e) == s.(entries := Emit(s, rid, e).entries, subs := Emit(s, rid, e).subs)
  {
  }

  lemma CancelledId(r: Record, now: string)
    ensures CancelRecord(r, now).record.id == r.id
  {
    hide ValidId, FormatLine;
  }

  /** _finalize_task. */
  lemma CallbackAgrees(s: State, tid: TaskId, now: string)
    requires IndexOk(s) && tid < |s.tasks| && s.tasks[tid].state.Ended? && Lookup(s, s.tasks[tid].id).Some?
    ensures var id := s.tasks[tid].id;
            var was := Dictionary(s)[id];
            Carries(s, RunCallback(s, tid, now), id,
                    if was.task == Some(tid) && !Terminal(was.status)
                    then FinalizeRecord(was, s.tasks[tid].state.outcome, now) else Effect(was, [], []))
  {
    hide Carries, FinalizeRecord, Emit;
    var id, outcome, after := s.tasks[tid].id, s.tasks[tid].state.outcome, RunCallback(s, tid, now);
    var was, next := Dictionary(s)[id], SetTask(s, tid, Settled);
    assert was.id == id;
    if was.task == Some(tid) && !Terminal(was.status) {
      FinalizedId(was, outcome, now);
      SameEmit(s, next, Lookup(s, id).value, FinalizeRecord(was, outcome, now));
      EmitCarries(s, after, id, FinalizeRecord(was, outcome, now));
    } else {
      NothingCarries(s, after, id);
    }
  }

  lemma FinalizedId(r: Record, outcome: Outcome, now: string)
    ensures FinalizeRecord(r, outcome, now).record.id == r.id
  {
    hide ValidId, FormatLine;
  }

  /** Emitting does not depend on the tasks. */
  lemma SameEmit(s: State, next: State, rid: nat, e: Effect)
    requires rid < |s.entries| && next.entries == s.entries && next.subs == s.subs
    ensures Emit(next, rid, e).entries == Emit(s, rid, e).entries && Emit(next, rid, e).subs == Emit(s, rid, e).subs
    ensures Emit(next, rid, e).current == next.current
  {
  }

  /** update_operation, and the log line that may follow it at once. */
  lemma UpdateAgrees(s: State, tid: TaskId, now: string)
    requires IndexOk(s) && tid < |s.tasks| && s.tasks[tid].state.AtLock? && Lookup(s, s.tasks[tid].id).Some?
    ensures var id, call := s.tasks[tid].id, s.tasks[tid].state.call;
            Carries(s, GrantTask(s, tid, now), id, CallEffect(Dictionary(s)[id], call, now))
  {
    hide Carries, CallEffect, Emit;
    var id, call, after := s.tasks[tid].id, s.tasks[tid].state.call, GrantTask(s, tid, now);
    var was, next := Dictionary(s)[id], SetTask(s, tid, if Final(call) then Ended(Returned) else Ready);
    assert was.id == id;
    CalledId(was, call, now);
    SameEmit(s, next, Lookup(s, id).value, CallEffect(was, call, now));
    EmitCarries(s, after, id, CallEffect(was, call, now));
  }

  lemma CalledId(r: Record, call: Call, now: string)
    ensures CallEffect(r, call, now).record.id == r.id
  {
    hide ValidId, FormatLine;
  }

  /** append_log. */
  lemma LogAgrees(s: State, tid: TaskId, line: string, now: string)
    requires IndexOk(s) && Free(s, tid) && Lookup(s, s.tasks[tid].id).Some?
    ensures var id := s.tasks[tid].id;
            Carries(s, LogLine(s, tid, line, now), id, AppendLog(Dictionary(s)[id], line, now))
  {
    hide Carries, AppendLog, Emit;
    var id := s.tasks[tid].id;
    var was := Dictionary(s)[id];
    assert was.id == id;
    LoggedId(was, line, now);
    SameEmit(s, s, Lookup(s, id).value, AppendLog(was, line, now));
    EmitCarries(s, LogLine(s, tid, line, now), id, AppendLog(was, line, now));
  }

  lemma LoggedId(r: Record, line: string, now: string)
    ensures AppendLog(r, line, now).record.id == r.id
  {
    hide ValidId, FormatLine;
  }
}
