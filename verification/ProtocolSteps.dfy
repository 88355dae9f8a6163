/**
  Every enabled step of the lifecycle protocol keeps its invariant.
*/
module ProtocolSteps {
  import opened Wrappers
  import opened OperationRecords
  import opened OperationProtocol
  import opened ProtocolInvariant

  // ---------------------------------------------------------------- who owns what

  /** A task that can still act finds its own record under its id, active and with its own task. */
  lemma ActingTaskOwnsCurrent(s: State, tid: TaskId)
    requires IndexOk(s) && TasksOk(s) && EntriesOk(s)
    requires tid < |s.tasks| && Unfinished(s.tasks[tid]) && !s.tasks[tid].cancelled
    ensures var t := s.tasks[tid];
            && Lookup(s, t.id) == Some(t.rid) && t.rid < |s.entries|
            && Active(StatusOf(s, t.rid)) && s.entries[t.rid].record.task == Some(tid)
            && s.entries[t.rid].record.completedAt.None? && Bounded(s.entries[t.rid].record)
  {
    hide ValidId;
    var t := s.tasks[tid];
    assert TaskOk(s, t, tid);
    assert IndexedOrOver(s, t.rid);
    assert EntryOk(s.entries[t.rid]);
  }

  lemma EmitKeepsIndex(s: State, rid: nat, e: Effect)
    requires IndexOk(s) && rid < |s.entries| && SameIdentity(s.entries[rid].record, e.record)
    requires Lookup(s, s.entries[rid].record.id) == Some(rid)
    ensures IndexOk(Emit(s, rid, e))
  {
    var after := Emit(s, rid, e);
    forall r | 0 <= r < |after.entries| ensures IndexedOrOver(after, r) {
      assert IndexedOrOver(s, r);
    }
  }

  lemma LegalIdentity(en: Entry, e: Effect)
    requires Legal(en, e)
    ensures SameIdentity(en.record, e.record)
    ensures Active(e.record.status) || Terminal(e.record.status)
  {
  }

  /** Emitting on behalf of its own task leaves every other task in order. */
  lemma EmitKeepsOtherTasks(s: State, rid: nat, e: Effect, tid: TaskId, tasks: seq<Task>)
    requires TasksOk(s) && rid < |s.entries| && Legal(s.entries[rid], e)
    requires s.entries[rid].record.task == Some(tid) && tid < |s.tasks|
    requires |tasks| == |s.tasks| && (forall t :: 0 <= t < |tasks| && t != tid ==> tasks[t] == s.tasks[t])
    requires tasks[tid].rid == s.tasks[tid].rid && tasks[tid].id == s.tasks[tid].id
    requires Unfinished(tasks[tid]) && !tasks[tid].cancelled ==> Active(e.record.status)
    requires tasks[tid].cancelled || tasks[tid].state.Settled? ==> Terminal(e.record.status)
    ensures TasksOk(Emit(s, rid, e).(tasks := tasks))
  {
    hide Legal, ValidId;
    LegalIdentity(s.entries[rid], e);
    var after := Emit(s, rid, e).(tasks := tasks);
    assert OwnerOk(s, rid);
    forall t | 0 <= t < |tasks| ensures TaskOk(after, tasks[t], t) {
      assert TaskOk(s, s.tasks[t], t);
    }
    forall r | 0 <= r < |after.entries| ensures OwnerOk(after, r) {
      assert OwnerOk(s, r);
    }
  }

  // ---------------------------------------------------------------- waiting for the lock

  lemma {:induction false} RemoveFacts(ws: seq<Waiter>, w: Waiter)
    requires forall i, j :: 0 <= i < j < |ws| && ws[i].ForTask? ==> ws[i] != ws[j]
    ensures var rest := Remove(ws, w);
            && w !in rest
            && (forall x :: x in ws && x != w ==> x in rest)
            && (forall x :: x in rest ==> x in ws)
            && (forall i, j :: 0 <= i < j < |rest| && rest[i].ForTask? ==> rest[i] != rest[j])
  {
    if ws != [] {
      var tail := ws[1..];
      RemoveFacts(tail, w);
      assert forall x :: x in ws <==> x == ws[0] || x in tail;
      assert ws[0].ForTask? ==> ws[0] !in tail;
    }
  }

  lemma WaitersFromMembership(s: State)
    requires forall w: Waiter :: w in s.waiters && w.ForTask? ==> w.tid < |s.tasks| && s.tasks[w.tid].state.AtLock?
    requires forall i, j :: 0 <= i < j < |s.waiters| && s.waiters[i].ForTask? ==> s.waiters[i] != s.waiters[j]
    requires forall t :: 0 <= t < |s.tasks| && s.tasks[t].state.AtLock? ==> ForTask(t) in s.waiters
    ensures WaitersOk(s)
  {
  }

  lemma WaitersMembership(s: State)
    requires WaitersOk(s)
    ensures forall w: Waiter :: w in s.waiters && w.ForTask? ==> w.tid < |s.tasks| && s.tasks[w.tid].state.AtLock?
  {
  }

  /** One waiter leaves the queue: what remains is in order, but for its own task. */
  lemma WaiterLeaves(s: State, i: nat)
    requires WaitersOk(s) && i < |s.waiters|
    ensures var rest := Without(s.waiters, i);
            && (forall w: Waiter :: w in rest && w.ForTask? ==> w.tid < |s.tasks| && s.tasks[w.tid].state.AtLock?)
            && (forall j, k :: 0 <= j < k < |rest| && rest[j].ForTask? ==> rest[j] != rest[k])
            && (s.waiters[i].ForTask? ==> s.waiters[i] !in rest)
            && (forall t :: 0 <= t < |s.tasks| && s.tasks[t].state.AtLock? && ForTask(t) != s.waiters[i] ==>
                  ForTask(t) in rest)
  {
    WaitersMembership(s);
    var ws, rest := s.waiters, Without(s.waiters, i);
    assert forall j :: 0 <= j < |rest| ==> rest[j] == if j < i then ws[j] else ws[j + 1];
    forall w | w in ws && w != ws[i] ensures w in rest {
      var j :| 0 <= j < |ws| && ws[j] == w;
      assert rest[if j < i then j else j - 1] == w;
    }
  }

  // ---------------------------------------------------------------- task steps

  /** Changing one task's own state disturbs nothing else. */
  lemma RetaskKeeps(s: State, tid: TaskId, t: Task)
    requires TasksOk(s) && tid < |s.tasks| && t.rid == s.tasks[tid].rid && TaskOk(s, t, tid)
    ensures TasksOk(s.(tasks := s.tasks[tid := t]))
  {
    hide ValidId;
    var after := s.(tasks := s.tasks[tid := t]);
    forall k | 0 <= k < |after.tasks| ensures TaskOk(after, after.tasks[k], k) {
      if k != tid { assert TaskOk(s, s.tasks[k], k); }
    }
    forall r | 0 <= r < |after.entries| ensures OwnerOk(after, r) { assert OwnerOk(s, r); }
  }

  lemma RequestKeeps(s: State, tid: TaskId, call: Call)
    requires Inv(s) && Free(s, tid)
    ensures Inv(Request(s, tid, call))
  {
    hide EntriesOk, SubsOk, IndexOk, TasksOk, Final, Guarded;
    ActingTaskOwnsCurrentInv(s, tid);
    var after := Request(s, tid, call);
    SameParts(s, after);
    TaskFacts(s, tid);
    RetaskKeeps(s, tid, after.tasks[tid]);
    SameParts(s.(tasks := s.tasks[tid := after.tasks[tid]]), after);
    WaitersMembership(s);
    assert ForTask(tid) !in s.waiters;
    WaitersFromMembership(after);
  }

  lemma TaskFacts(s: State, tid: TaskId)
    requires TasksOk(s) && tid < |s.tasks|
    ensures TaskOk(s, s.tasks[tid], tid)
  {
  }

  lemma ActingTaskOwnsCurrentInv(s: State, tid: TaskId)
    requires Inv(s) && tid < |s.tasks| && Unfinished(s.tasks[tid]) && !s.tasks[tid].cancelled
    ensures var t := s.tasks[tid];
            && Lookup(s, t.id) == Some(t.rid) && t.rid < |s.entries|
            && Active(StatusOf(s, t.rid)) && s.entries[t.rid].record.task == Some(tid)
            && s.entries[t.rid].record.completedAt.None? && Bounded(s.entries[t.rid].record)
            && Lookup(s, s.entries[t.rid].record.id) == Some(t.rid)
  {
    ActingTaskOwnsCurrent(s, tid);
    assert TaskOk(s, s.tasks[tid], tid);
    assert IndexedOrOver(s, s.tasks[tid].rid);
  }

  lemma GrantTaskKeeps(s: State, i: nat, now: string)
    requires Inv(s) && i < |s.waiters| && s.waiters[i].ForTask? && s.registering.None?
    requires Enabled(s, Grant(i, now))
    ensures Inv(Next(s, Grant(i, now)))
  {
    hide EntriesOk, SubsOk, IndexOk, TasksOk, Final, CallEffect, Legal, Ends, GoesOn;
    var tid := s.waiters[i].tid;
    ActingTaskOwnsCurrentInv(s, tid);
    var rid, call := s.tasks[tid].rid, s.tasks[tid].state.call;
    var e := CallEffect(s.entries[rid].record, call, now);
    CallGoesOnOrEnds(s.entries[rid].record, call, now);
    assert Legal(s.entries[rid], e) by { EffectIsLegal(s.entries[rid], e); }
    LegalIdentity(s.entries[rid], e);
    var after := Next(s, Grant(i, now));
    EmitKeeps(s, rid, e);
    EmitKeepsIndex(s, rid, e);
    StatusAfter(s.entries[rid].record, call, e);
    EmitKeepsOtherTasks(s, rid, e, tid, after.tasks);
    SameParts(Emit(s, rid, e).(tasks := after.tasks), after);
    SameParts(Emit(s, rid, e), after);
    WaiterLeaves(s, i);
    WaitersFromMembership(after);
  }

  lemma EffectIsLegal(en: Entry, e: Effect)
    requires Active(en.record.status) && en.record.task.Some?
    requires GoesOn(en.record, e) || Ends(en.record, e)
    ensures Legal(en, e)
  {
  }

  lemma StatusAfter(r: Record, call: Call, e: Effect)
    requires Final(call) ==> Ends(r, e)
    requires !Final(call) ==> GoesOn(r, e)
    ensures Final(call) ==> Terminal(e.record.status)
    ensures !Final(call) ==> Active(e.record.status)
  {
  }

  /** Invariants of entries, index and streams do not look at tasks or waiters. */
  lemma SameParts(a: State, b: State)
    requires a.entries == b.entries && a.current == b.current && a.subs == b.subs
    ensures EntriesOk(a) == EntriesOk(b) && SubsOk(a) == SubsOk(b) && IndexOk(a) == IndexOk(b)
    ensures a.tasks == b.tasks && a.registering == b.registering ==> TasksOk(a) == TasksOk(b)
  {
    hide EntryOk, SubOk, ValidId;
    assert forall r :: 0 <= r < |a.entries| ==> IndexedOrOver(a, r) == IndexedOrOver(b, r);
    if a.tasks == b.tasks && a.registering == b.registering {
      assert forall t :: 0 <= t < |a.tasks| ==> TaskOk(a, a.tasks[t], t) == TaskOk(b, b.tasks[t], t);
      assert forall r :: 0 <= r < |a.entries| ==> OwnerOk(a, r) == OwnerOk(b, r);
    }
  }

  lemma LogKeeps(s: State, tid: TaskId, line: string, now: string)
    requires Inv(s) && Free(s, tid)
    ensures Inv(LogLine(s, tid, line, now))
  {
    hide EntriesOk, SubsOk, IndexOk, TasksOk, AppendLog, Legal, GoesOn;
    ActingTaskOwnsCurrentInv(s, tid);
    var rid := s.tasks[tid].rid;
    var e := AppendLog(s.entries[rid].record, line, now);
    AppendLogGoesOn(s.entries[rid].record, line, now);
    EffectIsLegal(s.entries[rid], e);
    LegalIdentity(s.entries[rid], e);
    GoesOnActive(s.entries[rid].record, e);
    EmitKeeps(s, rid, e);
    EmitKeepsIndex(s, rid, e);
    EmitKeepsOtherTasks(s, rid, e, tid, s.tasks);
    SameParts(Emit(s, rid, e).(tasks := s.tasks), Emit(s, rid, e));
  }

  lemma GoesOnActive(r: Record, e: Effect)
    requires GoesOn(r, e)
    ensures Active(e.record.status)
  {
  }

  lemma EndKeeps(s: State, tid: TaskId, outcome: Outcome)
    requires Inv(s) && tid < |s.tasks|
    requires Unfinished(s.tasks[tid])
    ensures Inv(EndTask(s, tid, outcome))
  {
    hide EntriesOk, SubsOk, IndexOk, TasksOk;
    var after := EndTask(s, tid, outcome);
    SameParts(s, after);
    TaskFacts(s, tid);
    RetaskKeeps(s, tid, after.tasks[tid]);
    SameParts(s.(tasks := s.tasks[tid := after.tasks[tid]]), after);
    WaitersMembership(s);
    RemoveFacts(s.waiters, ForTask(tid));
    WaitersFromMembership(after);
  }

  /** The record the callback finds is its task's own, or its task's own is already over. */
  lemma CallbackFinds(s: State, tid: TaskId)
    requires Inv(s) && tid < |s.tasks|
    ensures var t := s.tasks[tid];
            && t.rid < |s.entries| && Lookup(s, t.id).Some? && TaskOk(s, t, tid)
            && (s.entries[Lookup(s, t.id).value].record.task == Some(tid) ==> Lookup(s, t.id).value == t.rid)
            && (Lookup(s, t.id) != Some(t.rid) ==> Terminal(StatusOf(s, t.rid)))
            && Lookup(s, s.entries[t.rid].record.id) == Lookup(s, t.id)
            && ValidId(s.entries[t.rid].record.id)
  {
    hide EntriesOk, SubsOk, WaitersOk, ValidId;
    var t := s.tasks[tid];
    TaskFacts(s, tid);
    assert OwnerOk(s, t.rid);
    assert IndexedOrOver(s, t.rid);
    assert OwnerOk(s, Lookup(s, t.id).value);
  }

  lemma CallbackKeeps(s: State, tid: TaskId, now: string)
    requires Inv(s) && tid < |s.tasks| && s.tasks[tid].state.Ended?
    ensures Inv(RunCallback(s, tid, now))
  {
    hide EntriesOk, SubsOk, IndexOk, TasksOk, FinalizeRecord, Legal, Ends, ValidId;
    CallbackFinds(s, tid);
    var t, after := s.tasks[tid], RunCallback(s, tid, now);
    var rid := Lookup(s, t.id).value;
    WaitersMembership(s);
    WaitersFromMembership(after);
    if s.entries[rid].record.task != Some(tid) || Terminal(StatusOf(s, rid)) {
      SameParts(s, after);
      RetaskKeeps(s, tid, after.tasks[tid]);
      SameParts(s.(tasks := s.tasks[tid := after.tasks[tid]]), after);
    } else {
      EntryIsBounded(s, rid);
      var e := FinalizeRecord(s.entries[rid].record, t.state.outcome, now);
      FinalizeEnds(s.entries[rid].record, t.state.outcome, now);
      EffectIsLegal(s.entries[rid], e);
      LegalIdentity(s.entries[rid], e);
      EndsTerminal(s.entries[rid].record, e);
      EmitKeeps(s, rid, e);
      EmitKeepsIndex(s, rid, e);
      EmitKeepsOtherTasks(s, rid, e, tid, after.tasks);
      SameParts(Emit(s, rid, e).(tasks := after.tasks), after);
      SameParts(Emit(s, rid, e), after);
    }
  }

  lemma EntryIsBounded(s: State, rid: nat)
    requires EntriesOk(s) && rid < |s.entries|
    ensures Bounded(s.entries[rid].record)
    ensures Active(StatusOf(s, rid)) ==> s.entries[rid].record.completedAt.None?
    ensures s.entries[rid].record.task.None? && ValidId(s.entries[rid].record.id) ==> Active(StatusOf(s, rid))
    ensures s.entries[rid].record.target == s.entries[rid].record.id
  {
    hide ValidId;
    assert EntryOk(s.entries[rid]);
  }

  lemma EndsTerminal(r: Record, e: Effect)
    requires Ends(r, e) || EndsSilently(r, e)
    ensures Terminal(e.record.status) && SameIdentity(r, e.record)
  {
  }

  // ---------------------------------------------------------------- handler steps

  lemma AskKeeps(s: State, w: Waiter)
    requires Inv(s) && !w.ForTask?
    ensures Inv(s.(waiters := s.waiters + [w]))
  {
    hide EntriesOk, SubsOk, IndexOk, TasksOk;
    var after := s.(waiters := s.waiters + [w]);
    SameParts(s, after);
    WaitersMembership(s);
    WaitersFromMembership(after);
  }

  lemma PopKeeps(s: State, i: nat)
    requires Inv(s) && i < |s.waiters| && !s.waiters[i].ForTask?
    ensures Inv(s.(waiters := Without(s.waiters, i)))
  {
    hide EntriesOk, SubsOk, IndexOk, TasksOk;
    var after := s.(waiters := Without(s.waiters, i));
    SameParts(s, after);
    WaiterLeaves(s, i);
    WaitersFromMembership(after);
  }

  lemma CancelKeeps(s: State, id: string, now: string)
    requires Inv(s) && s.registering.None?
    ensures Inv(GrantCancel(s, id, now))
  {
    hide EntriesOk, SubsOk, CancelRecord, Legal, Ends, ValidId;
    var after := GrantCancel(s, id, now);
    if Lookup(s, id).Some? && !Terminal(StatusOf(s, Lookup(s, id).value)) {
      var rid := Lookup(s, id).value;
      assert OwnerOk(s, rid) && IndexedOrOver(s, rid);
      EntryIsBounded(s, rid);
      var e := CancelRecord(s.entries[rid].record, now);
      CancelEnds(s.entries[rid].record, now);
      EndsTerminal(s.entries[rid].record, e);
      EmitKeepsIndex(s, rid, e);
      if s.entries[rid].record.task.Some? {
        var tid := s.entries[rid].record.task.value;
        assert TaskOk(s, s.tasks[tid], tid);
        EffectIsLegal(s.entries[rid], e);
        EmitKeeps(s, rid, e);
        EmitKeepsOtherTasks(s, rid, e, tid, after.tasks);
      } else {
        SilentKeeps(s, rid, e);
        EmitKeepsAllTasks(s, rid, e);
      }
      SameParts(Emit(s, rid, e).(tasks := after.tasks), after);
      SameParts(Emit(s, rid, e), after);
      WaitersMembership(s);
      WaitersFromMembership(after);
    }
  }

  /** A record without a task has no task to disturb. */
  lemma EmitKeepsAllTasks(s: State, rid: nat, e: Effect)
    requires TasksOk(s) && rid < |s.entries| && SameIdentity(s.entries[rid].record, e.record)
    requires s.entries[rid].record.task.None?
    ensures TasksOk(Emit(s, rid, e))
  {
    hide ValidId;
    var after := Emit(s, rid, e);
    forall t | 0 <= t < |after.tasks| ensures TaskOk(after, after.tasks[t], t) { assert TaskOk(s, s.tasks[t], t); }
    forall r | 0 <= r < |after.entries| ensures OwnerOk(after, r) { assert OwnerOk(s, r); }
  }

  /** Ending a refused registration silently keeps its record and its streams in order. */
  lemma SilentKeeps(s: State, rid: nat, e: Effect)
    requires EntriesOk(s) && SubsOk(s) && rid < |s.entries|
    requires !ValidId(s.entries[rid].record.id) && EndsSilently(s.entries[rid].record, e)
    requires Active(StatusOf(s, rid))
    ensures EntriesOk(Emit(s, rid, e)) && SubsOk(Emit(s, rid, e))
  {
    hide EntryOk, SubOk, EndsSilently, Extend, OfferTo, ValidId;
    var after := Emit(s, rid, e);
    SilentEntryOk(s.entries[rid], e);
    forall k | 0 <= k < |after.subs| ensures SubOk(after.subs[k], after.entries) {
      SilentKeepsSub(s.subs[k], s.entries, rid, e);
    }
  }

  lemma SilentEntryOk(en: Entry, e: Effect)
    requires EntryOk(en) && !ValidId(en.record.id) && Active(en.record.status) && EndsSilently(en.record, e)
    ensures EntryOk(Extend(en, e))
  {
    hide *;
    SilentParts(en, e);
    NewestAppend(en.logged, e.buffered, en.record.maxLines);
    MakeRefused(Extend(en, e));
  }

  lemma SilentParts(en: Entry, e: Effect)
    requires EntryOk(en) && !ValidId(en.record.id) && Active(en.record.status) && EndsSilently(en.record, e)
    ensures en.record.buffer == Newest(en.logged, en.record.maxLines) && en.record.target == en.record.id
    ensures var after := Extend(en, e);
            && SameIdentity(en.record, after.record)
            && after.record.buffer == Newest(en.record.buffer + e.buffered, en.record.maxLines)
            && after.record.task.None? && after.published == [] && after.logged == en.logged + e.buffered
            && |after.logged| <= 1 && Terminal(after.record.status) && after.record.completedAt.Some?
            && after.record.id == en.record.id && after.record.target == en.record.target
            && after.record.maxLines == en.record.maxLines
  {
    hide ValidId, Texts, AcceptedOk, Newest;
    assert en.published + [] == [];
  }

  lemma MakeRefused(en: Entry)
    requires en.record.target == en.record.id && en.record.buffer == Newest(en.logged, en.record.maxLines)
    requires !ValidId(en.record.id) && en.record.task.None? && en.published == [] && |en.logged| <= 1
    requires Terminal(en.record.status) && en.record.completedAt.Some?
    ensures EntryOk(en)
  {
    hide ValidId, Newest, AcceptedOk;
  }

  lemma SilentKeepsSub(sub: Subscriber, entries: seq<Entry>, rid: nat, e: Effect)
    requires SubOk(sub, entries) && rid < |entries| && EntryOk(entries[rid]) && !ValidId(entries[rid].record.id)
    requires Active(entries[rid].record.status) && EndsSilently(entries[rid].record, e)
    ensures SubOk(OfferTo(sub, rid, e.published), entries[rid := Extend(entries[rid], e)])
  {
    hide EntryOk, SnapshotOk, QueueOk, ProgressOk, ValidId, EndsSilently;
    if sub.rid == rid {
      SilentFields(entries[rid], e);
      if Open(sub.phase) { QueueBounds(sub, entries[rid].published); }
      OfferNothing(sub, entries[rid], rid, e);
      ExtendKeepsSnapshot(sub, entries[rid], e);
      ProgressSame(sub, entries[rid], Extend(entries[rid], e));
    }
  }

  lemma OfferNothing(sub: Subscriber, en: Entry, rid: nat, e: Effect)
    requires EndsSilently(en.record, e)
    requires Open(sub.phase) ==> |sub.queue| <= QUEUE_SIZE
    ensures OfferTo(sub, rid, e.published) == sub
  {
  }

  lemma SilentFields(en: Entry, e: Effect)
    requires EndsSilently(en.record, e)
    ensures Extend(en, e).published == en.published && Terminal(Extend(en, e).record.status)
    ensures SameIdentity(en.record, e.record)
  {
  }

  lemma RegisterKeeps(s: State, w: Waiter, now: string)
    requires Inv(s) && s.registering.None? && w.ForRegister?
    ensures Inv(GrantRegister(s, w, now))
  {
    hide EntryOk, SubOk, ValidId;
    if !Conflict(s, w.id) {
      var after := GrantRegister(s, w, now);
      var n := |s.entries|;
      assert EntryOk(after.entries[n]) by { NewEntryOk(w, now); }
      forall k | 0 <= k < |s.subs| ensures SubOk(after.subs[k], after.entries) {
        MoreEntries(s.subs[k], s.entries, after.entries[n]);
      }
      forall t | 0 <= t < |s.tasks| ensures TaskOk(after, after.tasks[t], t) { assert TaskOk(s, s.tasks[t], t); }
      forall r | 0 <= r < |after.entries| ensures OwnerOk(after, r) {
        if r < n { assert OwnerOk(s, r); }
      }
      forall r | 0 <= r < |after.entries| ensures IndexedOrOver(after, r) {
        if r < n { assert IndexedOrOver(s, r); EntryIsBounded(s, r); }
      }
      WaitersMembership(s);
      WaitersFromMembership(after);
    }
  }

  lemma NewEntryOk(w: Waiter, now: string)
    requires w.ForRegister?
    ensures EntryOk(Entry(NewRecord(w.id, w.id, w.step, w.message, w.maxLines, now), [], []))
  {
    hide ValidId;
  }

  lemma MoreEntries(sub: Subscriber, entries: seq<Entry>, en: Entry)
    requires SubOk(sub, entries)
    ensures SubOk(sub, entries + [en])
  {
    hide SnapshotOk, QueueOk, ProgressOk;
  }

  /** The record as FinishRegistration leaves it. */
  function Registered(en: Entry, initLine: string, tid: TaskId): Entry {
    Entry(Buffer(en.record, initLine).(task := Some(tid)), en.published, en.logged + [initLine])
  }

  lemma FinishUnfolds(s: State, initLine: string)
    requires Inv(s) && s.registering.Some?
    ensures var rid := s.registering.value;
            && rid < |s.entries| && s.entries[rid].record.task.None? && ValidId(s.entries[rid].record.id)
            && FinishRegistration(s, initLine)
               == s.(entries := s.entries[rid := Registered(s.entries[rid], initLine, |s.tasks|)],
                     tasks := s.tasks + [Task(rid, s.entries[rid].record.id, Ready, false)],
                     registering := None)
  {
    hide EntriesOk, SubsOk, ValidId;
    var rid := s.registering.value;
    assert OwnerOk(s, rid) && IndexedOrOver(s, rid);
    EntryIsBounded(s, rid);
  }

  lemma FirstLine(buffer: seq<string>, logged: seq<string>, line: string, n: nat)
    requires buffer == [] && logged == []
    ensures Newest(buffer + [line], n) == Newest(logged + [line], n)
    ensures (logged + [line])[1..] == []
  {
  }

  lemma RegisteredOk(en: Entry, initLine: string, tid: TaskId)
    requires EntryOk(en) && en.record.task.None? && ValidId(en.record.id)
    ensures EntryOk(Registered(en, initLine, tid))
  {
    hide OnlyLines, Sealed, ValidId;
    var after := Registered(en, initLine, tid);
    NoLines();
    assert en.record.buffer == [];
    FirstLine(en.record.buffer, en.logged, initLine, en.record.maxLines);
  }

  lemma RegisteredKeepsSnapshot(sub: Subscriber, en: Entry, initLine: string, tid: TaskId)
    requires SnapshotOk(sub, en) && en.logged == []
    ensures SnapshotOk(sub, Registered(en, initLine, tid))
  {
    hide Texts;
    assert (en.logged + [initLine])[..0] == en.logged[..0];
  }

  lemma ProgressSame(sub: Subscriber, a: Entry, b: Entry)
    requires StreamOk(sub, a) && SnapshotOk(sub, b)
    requires a.published == b.published && (Terminal(a.record.status) ==> Terminal(b.record.status))
    ensures StreamOk(sub, b)
  {
    hide SnapshotOk, QueueOk, DeliveredAll, DrainedAll, DrainedTo, OnlyLines, Texts;
  }

  lemma RegisteredKeepsStream(sub: Subscriber, en: Entry, initLine: string, tid: TaskId)
    requires StreamOk(sub, en) && EntryOk(en) && en.record.task.None? && ValidId(en.record.id)
    ensures StreamOk(sub, Registered(en, initLine, tid))
  {
    hide SnapshotOk, QueueOk, ProgressOk, OnlyLines, Sealed, Texts, ValidId;
    RegisteredKeepsSnapshot(sub, en, initLine, tid);
    ProgressSame(sub, en, Registered(en, initLine, tid));
  }

  lemma RegisteredKeepsSub(sub: Subscriber, entries: seq<Entry>, rid: nat, initLine: string, tid: TaskId)
    requires SubOk(sub, entries) && rid < |entries| && EntryOk(entries[rid])
    requires entries[rid].record.task.None? && ValidId(entries[rid].record.id)
    ensures SubOk(sub, entries[rid := Registered(entries[rid], initLine, tid)])
  {
    hide StreamOk, EntryOk, Registered, ValidId;
    if sub.rid == rid { RegisteredKeepsStream(sub, entries[rid], initLine, tid); }
  }

  lemma FinishKeeps(s: State, initLine: string)
    requires Inv(s) && s.registering.Some?
    ensures Inv(FinishRegistration(s, initLine))
  {
    hide EntryOk, SubOk, Registered, FinishRegistration, ValidId;
    FinishUnfolds(s, initLine);
    var rid, n := s.registering.value, |s.tasks|;
    var after := FinishRegistration(s, initLine);
    assert OwnerOk(s, rid) && IndexedOrOver(s, rid);
    RegisteredOk(s.entries[rid], initLine, n);
    RegisteredFields(s.entries[rid], initLine, n);
    EntryIsBounded(s, rid);
    forall k | 0 <= k < |s.subs| ensures SubOk(after.subs[k], after.entries) {
      RegisteredKeepsSub(s.subs[k], s.entries, rid, initLine, n);
    }
    forall t | 0 <= t < |after.tasks| ensures TaskOk(after, after.tasks[t], t) {
      if t < n { assert TaskOk(s, s.tasks[t], t); }
    }
    forall r | 0 <= r < |after.entries| ensures OwnerOk(after, r) { assert OwnerOk(s, r); }
    forall r | 0 <= r < |after.entries| ensures IndexedOrOver(after, r) { assert IndexedOrOver(s, r); }
    WaitersMembership(s);
    WaitersFromMembership(after);
  }

  lemma RegisteredFields(en: Entry, initLine: string, tid: TaskId)
    ensures var r := Registered(en, initLine, tid).record;
            r.id == en.record.id && r.status == en.record.status && r.task == Some(tid)
  {
  }

  // ---------------------------------------------------------------- stream steps

  lemma SubsOnly(s: State, after: State)
    requires Inv(s) && SubsOk(after) && after == s.(subs := after.subs)
    ensures Inv(after)
  {
    hide EntryOk, SubOk, ValidId;
    assert forall r :: 0 <= r < |s.entries| ==> IndexedOrOver(s, r) ==> IndexedOrOver(after, r);
    assert forall r :: 0 <= r < |s.entries| ==> OwnerOk(s, r) ==> OwnerOk(after, r);
    assert forall t :: 0 <= t < |s.tasks| ==> TaskOk(s, s.tasks[t], t) ==> TaskOk(after, after.tasks[t], t);
  }

  lemma JoinKeeps(s: State, id: string)
    requires Inv(s)
    ensures Inv(Join(s, id))
  {
    hide EntriesOk, SubOk, IndexOk, TasksOk, WaitersOk;
    var after := Join(s, id);
    if Lookup(s, id).Some? {
      var rid := Lookup(s, id).value;
      NewSubOk(s, rid);
      forall k | 0 <= k < |after.subs| ensures SubOk(after.subs[k], after.entries) {
        if k < |s.subs| { assert SubOk(s.subs[k], s.entries); }
      }
      SubsOnly(s, after);
    }
  }

  /** After the announcing line, what is logged of an operation is what is published. */
  lemma LoggedRest(en: Entry)
    requires EntryOk(en)
    ensures en.logged != [] ==> en.logged[1..] == Texts(en.published)
    ensures en.logged == [] ==> en.published == []
  {
    hide OnlyLines, Sealed, ValidId;
  }

  lemma BufferIsNewest(en: Entry)
    requires EntryOk(en)
    ensures en.record.buffer == Newest(en.logged, en.record.maxLines)
  {
    hide AcceptedOk, RefusedOk, ValidId, Newest;
  }

  lemma NewSubOk(s: State, rid: nat)
    requires EntriesOk(s) && rid < |s.entries|
    ensures var en := s.entries[rid];
            SubOk(Subscriber(rid, Replaying, [], en.record.buffer, [], |en.published|, |en.logged|, false), s.entries)
  {
    hide EntryOk, Texts, Newest;
    var en := s.entries[rid];
    BufferIsNewest(en);
    LoggedRest(en);
    assert en.logged[..|en.logged|] == en.logged && en.published[..|en.published|] == en.published;
    assert en.published[|en.published|..] == [];
    if |en.logged| >= 1 { assert en.logged[1..|en.logged|] == en.logged[1..]; }
  }

  /** Taking the head of the queue moves the reader one item on. */
  lemma TakeKeepsQueue(sub: Subscriber, published: seq<Item>)
    requires QueueOk(sub, published) && sub.queue != []
    ensures var p := Position(sub, published);
            && 0 <= p < |published| && sub.queue[0] == published[p]
            && QueueOk(sub.(queue := sub.queue[1..]), published)
            && Position(sub.(queue := sub.queue[1..]), published) == p + 1
  {
    var p := Position(sub, published);
    assert sub.queue[1..] == published[p + 1..];
  }

  lemma ReplayKeeps(sub: Subscriber, en: Entry)
    requires StreamOk(sub, en) && EntryOk(en) && sub.phase.Replaying?
    ensures StreamOk(Resume(sub, Terminal(en.record.status)), en)
  {
    hide EntryOk, QueueOk, SnapshotOk, DeliveredAll, DrainedTo, DrainedAll, OnlyLines;
    var after := Resume(sub, Terminal(en.record.status));
    SameSnapshot(sub, after, en);
    SameQueue(sub, after, en.published);
    QueueBounds(sub, en.published);
    if |sub.yielded| == |sub.history| {
      assert sub.yielded == sub.history;
      if Terminal(en.record.status) { DrainStarts(after, en.published); }
      assert en.published[sub.joinedAt..sub.joinedAt] == [];
      assert sub.history + [] == sub.history;
      if Active(en.record.status) { PrefixOnlyLines(en, Position(sub, en.published)); }
    }
  }

  /** Draining starts with nothing taken yet. */
  lemma DrainStarts(sub: Subscriber, published: seq<Item>)
    requires sub.joinedAt <= Position(sub, published) && sub.yielded == sub.history
    requires !sub.lost ==> Position(sub, published) == sub.joinedAt
    ensures DrainedTo(sub, published, Position(sub, published))
  {
    var p := Position(sub, published);
    assert published[p..p] == [];
    assert sub.history + [] == sub.history;
    assert DrainedFrom(sub, published, p, p);
  }

  lemma SameQueue(a: Subscriber, b: Subscriber, published: seq<Item>)
    requires QueueOk(a, published) && a.queue == b.queue && a.joinedAt == b.joinedAt
    ensures QueueOk(b, published)
    ensures 0 <= Position(a, published) <= |published|
  {
  }

  lemma PrefixOnlyLines(en: Entry, p: nat)
    requires EntryOk(en) && Active(en.record.status) && p <= |en.published|
    ensures OnlyLines(en.published[..p])
  {
    hide ValidId;
  }

  lemma LiveKeeps(sub: Subscriber, en: Entry)
    requires StreamOk(sub, en) && EntryOk(en) && sub.phase.Live? && sub.queue != []
    ensures StreamOk(Resume(sub, Terminal(en.record.status)), en)
  {
    hide EntryOk, QueueOk, SnapshotOk, OnlyLines, Texts, SealedAt, DrainedTo, DrainedAll;
    TakeKeepsQueue(sub, en.published);
    QueueBounds(sub, en.published);
    var p := Position(sub, en.published);
    var after := Resume(sub, Terminal(en.record.status));
    SameSnapshot(sub, after, en);
    if sub.queue[0].Line? {
      SameQueue(sub.(queue := sub.queue[1..]), after, en.published);
      LineTaken(en.published, sub.joinedAt, p);
      assert sub.history + Texts(en.published[sub.joinedAt..p]) + [sub.queue[0].text]
          == sub.history + (Texts(en.published[sub.joinedAt..p]) + [sub.queue[0].text]);
    } else {
      EndTaken(en, p);
      if !sub.lost { assert DeliveredTo(after, en.published, p); }
    }
  }

  lemma QueueBounds(sub: Subscriber, published: seq<Item>)
    requires QueueOk(sub, published)
    ensures sub.joinedAt <= Position(sub, published) && |sub.queue| <= QUEUE_SIZE
  {
  }

  lemma LineTaken(published: seq<Item>, from: nat, p: nat)
    requires from <= p < |published| && published[p].Line?
    ensures OnlyLines(published[..p]) ==> OnlyLines(published[..p + 1])
    ensures Texts(published[from..p + 1]) == Texts(published[from..p]) + [published[p].text]
  {
    var all := published[from..p + 1];
    assert all[..|all| - 1] == published[from..p];
  }

  lemma EndTaken(en: Entry, p: nat)
    requires EntryOk(en) && p < |en.published| && en.published[p].EndOfStream?
    ensures Terminal(en.record.status) && SealedAt(en.published, p)
  {
    hide ValidId;
    if Terminal(en.record.status) {
      var n :| SealedAt(en.published, n);
    }
  }

  /** One more item: a line counts if it is fresh. */
  lemma DrainStep(sub: Subscriber, after: Subscriber, published: seq<Item>, p: nat)
    requires DrainedTo(sub, published, p) && p < |published| && published[p].Line?
    requires after == sub.(queue := after.queue, yielded := after.yielded)
    requires after.yielded
          == if published[p].text in sub.history then sub.yielded else sub.yielded + [published[p].text]
    ensures DrainedTo(after, published, p + 1)
  {
    var from :| DrainedFrom(sub, published, from, p);
    hide *;
    DrainedBounds(sub, published, from, p);
    LineTaken(published, from, p);
    FreshStep(Texts(published[from..p]), published[p].text, sub.history);
    DrainedLonger(sub, after, published, from, p);
  }

  lemma DrainedBounds(sub: Subscriber, published: seq<Item>, from: int, p: int)
    requires DrainedFrom(sub, published, from, p)
    ensures 0 <= from <= p <= |published|
    ensures sub.yielded == sub.history + Fresh(Texts(published[from..p]), sub.history)
  {
  }

  lemma DrainedLonger(sub: Subscriber, after: Subscriber, published: seq<Item>, from: nat, p: nat)
    requires DrainedFrom(sub, published, from, p) && p < |published| && published[p].Line?
    requires after == sub.(queue := after.queue, yielded := after.yielded)
    requires after.yielded
          == if published[p].text in sub.history then sub.yielded else sub.yielded + [published[p].text]
    requires Fresh(Texts(published[from..p + 1]), sub.history)
          == Fresh(Texts(published[from..p]), sub.history)
             + (if published[p].text in sub.history then [] else [published[p].text])
    ensures DrainedTo(after, published, p + 1)
  {
    hide Texts, Fresh;
    assert DrainedFrom(after, published, from, p + 1);
  }

  lemma FreshStep(lines: seq<string>, line: string, history: seq<string>)
    ensures Fresh(lines + [line], history) == Fresh(lines, history) + (if line in history then [] else [line])
  {
    assert (lines + [line])[..|lines|] == lines;
  }

  lemma DrainedSame(sub: Subscriber, after: Subscriber, published: seq<Item>, p: int)
    requires DrainedTo(sub, published, p)
    requires after == sub.(queue := after.queue, phase := after.phase)
    ensures DrainedTo(after, published, p)
  {
    hide Texts, Fresh;
    var from :| DrainedFrom(sub, published, from, p);
    assert DrainedFrom(after, published, from, p);
  }

  lemma DrainKeeps(sub: Subscriber, en: Entry)
    requires StreamOk(sub, en) && sub.phase.Draining?
    ensures StreamOk(Resume(sub, Terminal(en.record.status)), en)
  {
    hide SnapshotOk, QueueOk, DeliveredAll, DrainedTo, OnlyLines, Texts;
    var after := Resume(sub, Terminal(en.record.status));
    var p := Position(sub, en.published);
    SameSnapshot(sub, after, en);
    QueueBounds(sub, en.published);
    if sub.queue == [] {
      DrainedSame(sub, after, en.published, p);
    } else {
      TakeKeepsQueue(sub, en.published);
      if sub.queue[0].Line? {
        SameQueue(sub.(queue := sub.queue[1..]), after, en.published);
        DrainStep(sub, after, en.published, p);
      } else {
        DrainedSame(sub, after, en.published, p);
        assert DrainEnd(en.published, p);
      }
    }
  }

  lemma ResumeKeeps(sub: Subscriber, entries: seq<Entry>)
    requires SubOk(sub, entries) && EntryOk(entries[sub.rid]) && CanAdvance(sub)
    ensures SubOk(Resume(sub, Terminal(entries[sub.rid].record.status)), entries)
  {
    hide StreamOk, EntryOk;
    var en := entries[sub.rid];
    if sub.phase.Replaying? {
      ReplayKeeps(sub, en);
    } else if sub.phase.Live? {
      LiveKeeps(sub, en);
    } else {
      DrainKeeps(sub, en);
    }
  }

  lemma AdvanceKeeps(s: State, sid: nat)
    requires Inv(s) && Enabled(s, Advance(sid))
    ensures Inv(Next(s, Advance(sid)))
  {
    hide EntryOk, SubOk, IndexOk, TasksOk, WaitersOk, Resume;
    var sub, after := s.subs[sid], Next(s, Advance(sid));
    assert EntryOk(s.entries[sub.rid]) && SubOk(sub, s.entries);
    ResumeKeeps(sub, s.entries);
    SubsOnly(s, after);
  }

  lemma LeaveKeeps(s: State, sid: nat)
    requires Inv(s) && Enabled(s, Leave(sid))
    ensures Inv(Next(s, Leave(sid)))
  {
    hide EntryOk, IndexOk, TasksOk, WaitersOk, SubOk;
    var after := Next(s, Leave(sid));
    assert SubOk(s.subs[sid], s.entries);
    LeftOk(s.subs[sid], s.entries);
    SubsOnly(s, after);
  }

  lemma LeftOk(sub: Subscriber, entries: seq<Entry>)
    requires SubOk(sub, entries)
    ensures SubOk(sub.(phase := Left), entries)
  {
    hide SnapshotOk, QueueOk, DeliveredAll, DrainedTo, DrainedAll, OnlyLines, Texts;
    SameSnapshot(sub, sub.(phase := Left), entries[sub.rid]);
  }

  // ---------------------------------------------------------------- all steps

  lemma InitialOk()
    ensures Inv(INITIAL)
  {
  }

  /** Every step keeps the invariant. */
  lemma NextKeeps(s: State, e: Event)
    requires Inv(s) && Enabled(s, e)
    ensures Inv(Next(s, e))
  {
    hide Inv, GrantTask, GrantCancel, GrantRegister, FinishRegistration, Request, LogLine, EndTask, RunCallback, Join,
         Resume;
    match e
    case RequestRegister(id, step, message, maxLines) => AskKeeps(s, ForRegister(id, step, message, maxLines));
    case RequestCancel(id) => AskKeeps(s, ForCancel(id));
    case RequestUpdate(tid, call) => RequestKeeps(s, tid, call);
    case Grant(i, now) =>
      if s.waiters[i].ForTask? {
        GrantTaskKeeps(s, i, now);
      } else {
        PopKeeps(s, i);
        var rest := s.(waiters := Without(s.waiters, i));
        if s.waiters[i].ForCancel? {
          CancelKeeps(rest, s.waiters[i].id, now);
        } else {
          RegisterKeeps(rest, s.waiters[i], now);
        }
      }
    case FinishRegister(initLine) => FinishKeeps(s, initLine);
    case Log(tid, line, now) => LogKeeps(s, tid, line, now);
    case End(tid, outcome) => EndKeeps(s, tid, outcome);
    case Callback(tid, now) => CallbackKeeps(s, tid, now);
    case Subscribe(id) => JoinKeeps(s, id);
    case Advance(sid) => AdvanceKeeps(s, sid);
    case Leave(sid) => LeaveKeeps(s, sid);
  }
}
