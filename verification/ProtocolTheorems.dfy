/**
  What holds over every run of the operation lifecycle: exclusion, monotone and
  frozen statuses, isolation of superseded tasks, release of resources and the
  completeness of log streams.
*/
module ProtocolTheorems {
  import opened Wrappers
  import opened OperationRecords
  import opened OperationProtocol
  import opened ProtocolInvariant
  import opened ProtocolSteps

  /** Every state of every run satisfies the invariant. */
  lemma {:induction false} RunsKeepInvariant(states: seq<State>, events: seq<Event>, i: nat)
    requires Behavior(states, events) && i < |states|
    ensures Inv(states[i])
  {
    hide Inv, Next, Enabled;
    if i == 0 {
      InitialOk();
    } else {
      RunsKeepInvariant(states, events, i - 1);
      assert Enabled(states[i - 1], events[i - 1]);
      NextKeeps(states[i - 1], events[i - 1]);
      assert states[i - 1 + 1] == Next(states[i - 1], events[i - 1]);
    }
  }

  // ---------------------------------------------------------------- exclusion

  /** No two records of one target resource are ever queued or running together. */
  lemma AtMostOneActive(s: State, a: nat, b: nat)
    requires Inv(s) && a < |s.entries| && b < |s.entries|
    requires s.entries[a].record.target == s.entries[b].record.target
    requires Active(StatusOf(s, a)) && Active(StatusOf(s, b))
    ensures a == b
  {
    hide SubsOk, WaitersOk, TasksOk, EntryOk;
    EntryIsBounded(s, a);
    EntryIsBounded(s, b);
    assert IndexedOrOver(s, a) && IndexedOrOver(s, b);
  }

  /** A record is terminal exactly when it is completed; its stream was closed, once, exactly when it is terminal
      and its id was accepted. */
  lemma TerminalIffCompletedIffClosed(s: State, r: nat)
    requires Inv(s) && r < |s.entries|
    ensures var en := s.entries[r];
            && (Terminal(en.record.status) <==> en.record.completedAt.Some?)
            && (EndOfStream in en.published <==> Terminal(en.record.status) && ValidId(en.record.id))
            && (EndOfStream in en.published ==> Sealed(en.published))
  {
    hide ValidId;
    var en := s.entries[r];
    assert EntryOk(en);
    if Terminal(en.record.status) && ValidId(en.record.id) {
      var n :| SealedAt(en.published, n);
      assert en.published[n] == EndOfStream;
    }
  }

  // ---------------------------------------------------------------- one step, one record

  /** Status does not fall, histories only grow, and a terminal record does not change at all. */
  ghost predicate Evolves(a: Entry, b: Entry) {
    && SameKey(a, b)
    && Rank(a.record.status) <= Rank(b.record.status)
    && a.published <= b.published && a.logged <= b.logged
    && (Terminal(a.record.status) ==> a == b)
  }

  predicate SameKey(a: Entry, b: Entry) {
    a.record.id == b.record.id && a.record.target == b.record.target
  }

  ghost predicate TouchesOnly(s: State, after: State, rid: nat) {
    && |s.entries| <= |after.entries|
    && (forall r :: 0 <= r < |s.entries| && r != rid ==> after.entries[r] == s.entries[r])
    && (rid < |s.entries| ==> Evolves(s.entries[rid], after.entries[rid]))
  }

  ghost predicate Lawful(r: Record, e: Effect) {
    GoesOn(r, e) || Ends(r, e) || EndsSilently(r, e)
  }

  lemma EffectEvolves(en: Entry, e: Effect)
    requires Active(en.record.status) && Lawful(en.record, e)
    ensures Evolves(en, Extend(en, e))
  {
    hide OnlyLines, Sealed, Buffers;
  }

  lemma EmitTouches(s: State, rid: nat, e: Effect, after: State)
    requires rid < |s.entries| && Active(StatusOf(s, rid))
    requires Lawful(s.entries[rid].record, e)
    requires after.entries == Emit(s, rid, e).entries
    ensures TouchesOnly(s, after, rid)
  {
    hide Lawful, Extend, Evolves;
    EffectEvolves(s.entries[rid], e);
  }

  lemma SameTouches(s: State, after: State, rid: nat)
    requires s.entries == after.entries
    ensures TouchesOnly(s, after, rid)
  {
  }

  lemma TaskStepTouches(s: State, e: Event)
    requires Inv(s) && Enabled(s, e) && (e.Log? || e.Callback? || (e.Grant? && s.waiters[e.index].ForTask?))
    ensures Actor(s, e).Some? && Actor(s, e).value < |s.tasks|
    ensures TouchesOnly(s, Next(s, e), s.tasks[Actor(s, e).value].rid)
  {
    hide Inv, TouchesOnly, CallEffect, AppendLog, FinalizeRecord, GoesOn, Ends, EndsSilently, Final, ValidId;
    var tid := Actor(s, e).value;
    var rid, after := s.tasks[tid].rid, Next(s, e);
    if e.Callback? {
      CallbackFindsInv(s, tid);
      SameTouches(s, s, rid);
      if Lookup(s, s.tasks[tid].id) == Some(rid) && s.entries[rid].record.task == Some(tid)
         && !Terminal(StatusOf(s, rid)) {
        FinalizeEnds(s.entries[rid].record, s.tasks[tid].state.outcome, e.now);
        EmitTouches(s, rid, FinalizeRecord(s.entries[rid].record, s.tasks[tid].state.outcome, e.now), after);
      } else {
        SameTouches(s, after, rid);
      }
    } else {
      ActingTaskOwnsCurrentInv(s, tid);
      if e.Log? {
        AppendLogGoesOn(s.entries[rid].record, e.line, e.now);
        EmitTouches(s, rid, AppendLog(s.entries[rid].record, e.line, e.now), after);
      } else {
        var call := s.tasks[tid].state.call;
        CallGoesOnOrEnds(s.entries[rid].record, call, e.now);
        EmitTouches(s, rid, CallEffect(s.entries[rid].record, call, e.now), after);
      }
    }
  }

  lemma CallbackFindsInv(s: State, tid: TaskId)
    requires Inv(s) && tid < |s.tasks|
    ensures var t := s.tasks[tid];
            && t.rid < |s.entries| && Lookup(s, t.id).Some?
            && (s.entries[Lookup(s, t.id).value].record.task == Some(tid) ==> Lookup(s, t.id).value == t.rid)
            && Bounded(s.entries[t.rid].record)
  {
    hide EntriesOk, SubsOk, WaitersOk, IndexOk, TasksOk;
    CallbackFinds(s, tid);
    EntryIsBounded(s, s.tasks[tid].rid);
  }

  lemma CancelTouches(s: State, id: string, now: string) returns (rid: nat)
    requires Inv(s)
    ensures TouchesOnly(s, GrantCancel(s, id, now), rid)
  {
    hide EntriesOk, SubsOk, WaitersOk, IndexOk, TasksOk, TouchesOnly, CancelRecord, GoesOn, Ends, EndsSilently, ValidId;
    rid := 0;
    var after := GrantCancel(s, id, now);
    if Lookup(s, id).Some? && !Terminal(StatusOf(s, Lookup(s, id).value)) {
      rid := Lookup(s, id).value;
      EntryIsBounded(s, rid);
      CancelEnds(s.entries[rid].record, now);
      EmitTouches(s, rid, CancelRecord(s.entries[rid].record, now), after);
    } else {
      SameTouches(s, after, rid);
    }
  }

  lemma FinishTouches(s: State, initLine: string)
    requires Inv(s) && s.registering.Some?
    ensures TouchesOnly(s, FinishRegistration(s, initLine), s.registering.value)
  {
    hide Inv, FinishRegistration, ValidId;
    FinishUnfolds(s, initLine);
    var rid := s.registering.value;
    UnownedIsActive(s, rid);
  }

  lemma UnownedIsActive(s: State, rid: nat)
    requires Inv(s) && rid < |s.entries| && s.entries[rid].record.task.None? && ValidId(s.entries[rid].record.id)
    ensures Active(StatusOf(s, rid))
  {
    hide ValidId;
    EntryIsBounded(s, rid);
  }

  lemma RegisterTouches(s: State, w: Waiter, now: string)
    requires w.ForRegister?
    ensures TouchesOnly(s, GrantRegister(s, w, now), |s.entries|)
  {
    hide Evolves;
  }

  lemma PoppedInv(s: State, i: nat)
    requires Inv(s) && i < |s.waiters| && !s.waiters[i].ForTask?
    ensures Inv(s.(waiters := Without(s.waiters, i)))
  {
    hide Inv;
    PopKeeps(s, i);
  }

  /** A step changes at most one record, legally, and a task's step only the record it was created for. */
  lemma StepTouches(s: State, e: Event) returns (rid: nat)
    requires Inv(s) && Enabled(s, e)
    ensures TouchesOnly(s, Next(s, e), rid)
    ensures Actor(s, e).Some? ==> Actor(s, e).value < |s.tasks| && rid == s.tasks[Actor(s, e).value].rid
  {
    hide Inv, TouchesOnly, GrantTask, GrantCancel, GrantRegister, FinishRegistration, LogLine, RunCallback, Resume;
    if e.Log? || e.Callback? || (e.Grant? && s.waiters[e.index].ForTask?) {
      TaskStepTouches(s, e);
      rid := s.tasks[Actor(s, e).value].rid;
    } else if e.FinishRegister? {
      FinishTouches(s, e.initLine);
      rid := s.registering.value;
    } else if e.Grant? {
      PoppedInv(s, e.index);
      var rest := s.(waiters := Without(s.waiters, e.index));
      if s.waiters[e.index].ForCancel? {
        rid := CancelTouches(rest, s.waiters[e.index].id, e.now);
      } else {
        RegisterTouches(rest, s.waiters[e.index], e.now);
        rid := |s.entries|;
      }
      TouchesFrom(s, rest, Next(s, e), rid);
    } else {
      rid := if Actor(s, e).Some? then s.tasks[Actor(s, e).value].rid else 0;
      SameTouches(s, Next(s, e), rid);
    }
  }

  lemma TouchesFrom(s: State, rest: State, after: State, rid: nat)
    requires s.entries == rest.entries && TouchesOnly(rest, after, rid)
    ensures TouchesOnly(s, after, rid)
  {
  }

  // ---------------------------------------------------------------- over a run

  lemma EvolvesTransitive(a: Entry, b: Entry, c: Entry)
    requires Evolves(a, b) && Evolves(b, c)
    ensures Evolves(a, c)
  {
  }

  /** From any point of a run on, a record's status never falls, its histories only grow,
      and once terminal the whole record is frozen. */
  lemma {:induction false} RecordsEvolve(states: seq<State>, events: seq<Event>, i: nat, j: nat, r: nat)
    requires Behavior(states, events) && i <= j < |states| && r < |states[i].entries|
    ensures r < |states[j].entries| && Evolves(states[i].entries[r], states[j].entries[r])
    decreases j
  {
    hide Inv, Next, Enabled, Evolves;
    if i == j {
      EvolvesSelf(states[i].entries[r]);
    } else {
      RecordsEvolve(states, events, i, j - 1, r);
      RunsKeepInvariant(states, events, j - 1);
      assert Enabled(states[j - 1], events[j - 1]);
      assert states[j - 1 + 1] == Next(states[j - 1], events[j - 1]);
      var rid := StepTouches(states[j - 1], events[j - 1]);
      if r == rid {
        EvolvesTransitive(states[i].entries[r], states[j - 1].entries[r], states[j].entries[r]);
      }
    }
  }

  lemma EvolvesSelf(a: Entry)
    ensures Evolves(a, a)
  {
  }

  /** Exclusion over a run: at every point, per target at most one record is active. */
  lemma ExclusionOverRuns(states: seq<State>, events: seq<Event>, i: nat, a: nat, b: nat)
    requires Behavior(states, events) && i < |states| && a < |states[i].entries| && b < |states[i].entries|
    requires states[i].entries[a].record.target == states[i].entries[b].record.target && a != b
    ensures Terminal(StatusOf(states[i], a)) || Terminal(StatusOf(states[i], b))
  {
    hide Inv, Behavior;
    RunsKeepInvariant(states, events, i);
    if Active(StatusOf(states[i], a)) && Active(StatusOf(states[i], b)) {
      AtMostOneActive(states[i], a, b);
    }
  }

  /** Once its id belongs to a newer record, nothing a task or its callback does changes any record. */
  lemma SupersededTaskChangesNothing(s: State, e: Event)
    requires Inv(s) && Enabled(s, e) && Actor(s, e).Some?
    requires Actor(s, e).value < |s.tasks|
    requires Lookup(s, s.tasks[Actor(s, e).value].id) != Some(s.tasks[Actor(s, e).value].rid)
    ensures Next(s, e).entries == s.entries
  {
    hide EntriesOk, SubsOk, WaitersOk, IndexOk, TasksOk, Next, Enabled;
    var tid := Actor(s, e).value;
    CallbackFinds(s, tid);
    var rid := StepTouches(s, e);
    TaskStepsAddNoRecord(s, e);
    assert Evolves(s.entries[rid], Next(s, e).entries[rid]);
    assert forall r :: 0 <= r < |s.entries| ==> Next(s, e).entries[r] == s.entries[r];
  }

  lemma TaskStepsAddNoRecord(s: State, e: Event)
    requires Enabled(s, e) && Actor(s, e).Some?
    ensures |Next(s, e).entries| == |s.entries|
  {
    hide CallEffect, AppendLog, FinalizeRecord;
  }

  /** A task's own step never changes a record other than the one it was created for. */
  lemma TaskTouchesOnlyItsRecord(s: State, e: Event, r: nat)
    requires Inv(s) && Enabled(s, e) && Actor(s, e).Some? && r < |s.entries|
    ensures Actor(s, e).value < |s.tasks|
    ensures r != s.tasks[Actor(s, e).value].rid ==> r < |Next(s, e).entries| && Next(s, e).entries[r] == s.entries[r]
  {
    hide Inv, Next, Enabled, Evolves;
    var rid := StepTouches(s, e);
  }

  // ---------------------------------------------------------------- release

  /** The record is being registered, or has a task whose callback has not run. */
  ghost predicate HasDriver(s: State, r: nat)
    requires r < |s.entries|
  {
    || s.registering == Some(r)
    || (var t := s.entries[r].record.task;
        t.Some? && t.value < |s.tasks| && s.tasks[t.value].rid == r && !s.tasks[t.value].state.Settled?)
  }

  /** An active record has a driver exactly when its id was accepted. */
  lemma ActiveHasDriverExactly(s: State, r: nat)
    requires Inv(s) && r < |s.entries| && Active(StatusOf(s, r))
    ensures HasDriver(s, r) <==> ValidId(s.entries[r].record.id)
  {
    hide EntriesOk, SubsOk, WaitersOk, IndexOk, ValidId;
    assert OwnerOk(s, r);
    if s.entries[r].record.task.Some? { TaskFacts(s, s.entries[r].record.task.value); }
  }

  /** Somebody can always move an active record of an accepted id on: its registration, its task or its callback. */
  lemma ActiveCanMove(s: State, r: nat) returns (e: Event)
    requires Inv(s) && r < |s.entries| && Active(StatusOf(s, r)) && ValidId(s.entries[r].record.id)
    ensures Enabled(s, e)
    ensures (e.FinishRegister? && s.registering == Some(r))
         || ((e.End? || e.Callback?) && s.entries[r].record.task == Some(e.tid))
  {
    hide Inv, ValidId;
    ActiveHasDriverExactly(s, r);
    if s.registering == Some(r) {
      e := FinishRegister("");
    } else {
      var tid := s.entries[r].record.task.value;
      e := if s.tasks[tid].state.Ended? then Callback(tid, "") else End(tid, WasCancelled);
    }
  }

  /** A record of a refused id is moved by a cancellation of that id, and by nothing else. */
  lemma RefusedMovesByCancelOnly(s: State, e: Event, r: nat)
    requires Inv(s) && Enabled(s, e) && r < |s.entries| && !ValidId(s.entries[r].record.id)
    ensures r < |Next(s, e).entries|
    ensures Next(s, e).entries[r] == s.entries[r]
         || (e.Grant? && s.waiters[e.index] == ForCancel(s.entries[r].record.id))
  {
    hide Inv, ValidId, GrantTask, GrantRegister, FinishRegistration, LogLine, RunCallback, Resume, CancelRecord,
         Evolves;
    NoTaskOfRefused(s, r);
    var rid := StepTouches(s, e);
    if e.Grant? && s.waiters[e.index].ForCancel? {
      LookupId(s, s.waiters[e.index].id);
      if Lookup(s, s.waiters[e.index].id) != Some(r) {
        CancelChangesCurrent(s.(waiters := Without(s.waiters, e.index)), s.waiters[e.index].id, e.now, r);
      }
    } else if e.Grant? && s.waiters[e.index].ForRegister? {
      RegisterAdds(s.(waiters := Without(s.waiters, e.index)), s.waiters[e.index], e.now);
    } else if e.FinishRegister? {
      FinishUnfolds(s, e.initLine);
    }
  }

  lemma NoTaskOfRefused(s: State, r: nat)
    requires Inv(s) && r < |s.entries| && !ValidId(s.entries[r].record.id)
    ensures forall t :: 0 <= t < |s.tasks| ==> s.tasks[t].rid != r
  {
    hide EntriesOk, SubsOk, WaitersOk, IndexOk, ValidId;
    forall t | 0 <= t < |s.tasks| ensures s.tasks[t].rid != r {
      TaskFacts(s, t);
      assert OwnerOk(s, s.tasks[t].rid);
    }
  }

  lemma LookupId(s: State, id: string)
    requires Inv(s)
    ensures Lookup(s, id).Some? ==> s.entries[Lookup(s, id).value].record.id == id
  {
    hide EntriesOk, SubsOk, WaitersOk, TasksOk;
  }

  lemma CancelChangesCurrent(s: State, id: string, now: string, r: nat)
    requires r < |s.entries| && Lookup(s, id) != Some(r)
    ensures r < |GrantCancel(s, id, now).entries| && GrantCancel(s, id, now).entries[r] == s.entries[r]
  {
    hide CancelRecord, Extend;
  }

  lemma RegisterAdds(s: State, w: Waiter, now: string)
    requires w.ForRegister?
    ensures s.entries <= GrantRegister(s, w, now).entries
  {
    hide ValidId, Conflict;
  }

  /** While somebody waits for the lock, it can be handed on, released, or left by a cancelled head. */
  lemma LockIsNeverStuck(s: State) returns (e: Event)
    requires Inv(s) && s.waiters != []
    ensures Enabled(s, e)
    ensures e == Grant(0, "") || e.FinishRegister?
         || (e.End? && s.waiters[0] == ForTask(e.tid) && s.tasks[e.tid].cancelled)
  {
    hide EntriesOk, SubsOk, IndexOk, TasksOk;
    if s.registering.Some? {
      e := FinishRegister("");
    } else if s.waiters[0].ForTask? && s.tasks[s.waiters[0].tid].cancelled {
      e := End(s.waiters[0].tid, WasCancelled);
    } else {
      e := Grant(0, "");
    }
  }

  /** Registration is refused as a conflict exactly while the current record of the id is active; otherwise the record
      is stored, and the lock is kept for an accepted id only. */
  lemma RegistrationAcceptedExactly(s: State, i: nat, now: string)
    requires Inv(s) && Enabled(s, Grant(i, now)) && s.waiters[i].ForRegister?
    ensures var id, after := s.waiters[i].id, Next(s, Grant(i, now));
            if Lookup(s, id).Some? && Active(StatusOf(s, Lookup(s, id).value)) then
              after == s.(waiters := Without(s.waiters, i))
            else
              && |after.entries| == |s.entries| + 1 && Lookup(after, id) == Some(|s.entries|)
              && after.registering == (if ValidId(id) then Some(|s.entries|) else None)
              && StatusOf(after, |s.entries|) == Queued
  {
    hide EntryOk, SubsOk, WaitersOk, TasksOk, ValidId;
    ConflictMeaning(s, s.waiters[i].id);
    var rest := s.(waiters := Without(s.waiters, i));
    assert Conflict(rest, s.waiters[i].id) == Conflict(s, s.waiters[i].id);
  }

  lemma ConflictMeaning(s: State, id: string)
    requires Inv(s)
    ensures Conflict(s, id) <==> Lookup(s, id).Some? && Active(StatusOf(s, Lookup(s, id).value))
  {
    hide EntryOk, SubsOk, WaitersOk, TasksOk;
    forall x | x in s.current ensures s.current[x] < |s.entries| && s.entries[s.current[x]].record.target == x {
      EntryIsBounded(s, s.current[x]);
    }
  }

  /** When a current record's task is done and its callback has run, the resource is free. */
  lemma SettledTaskFreesResource(s: State, tid: TaskId)
    requires Inv(s) && tid < |s.tasks| && s.tasks[tid].state.Settled?
    requires Lookup(s, s.tasks[tid].id) == Some(s.tasks[tid].rid)
    ensures !Conflict(s, s.tasks[tid].id)
  {
    hide EntriesOk, SubsOk, WaitersOk, IndexOk;
    TaskFacts(s, tid);
    hide TasksOk;
    ConflictMeaning(s, s.tasks[tid].id);
  }

  /** A granted cancellation frees the resource at once. */
  lemma CancelFreesResource(s: State, i: nat, now: string)
    requires Inv(s) && Enabled(s, Grant(i, now)) && s.waiters[i].ForCancel?
    ensures !Conflict(Next(s, Grant(i, now)), s.waiters[i].id)
  {
    hide EntriesOk, SubsOk, WaitersOk, IndexOk, TasksOk, CancelRecord, Ends, EndsSilently, ValidId;
    var id, after := s.waiters[i].id, Next(s, Grant(i, now));
    NextKeeps(s, Grant(i, now));
    ConflictMeaning(after, id);
    if Lookup(s, id).Some? {
      var rid := Lookup(s, id).value;
      EntryIsBounded(s, rid);
      CancelEnds(s.entries[rid].record, now);
      EndsTerminal(s.entries[rid].record, CancelRecord(s.entries[rid].record, now));
    }
  }
}
