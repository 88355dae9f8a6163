/**
  What every reachable state of the lifecycle protocol satisfies, and why each
  step keeps it.
*/
module ProtocolInvariant {
  import opened Wrappers
  import opened OperationRecords
  import opened OperationProtocol

  // ---------------------------------------------------------------- the invariant

  /** The buffer is the newest part of the log. */
  ghost predicate EntryOk(en: Entry) {
    && en.record.target == en.record.id
    && en.record.buffer == Newest(en.logged, en.record.maxLines)
    && (if ValidId(en.record.id) then AcceptedOk(en) else RefusedOk(en))
  }

  /** Terminal, completed and closed go together. */
  ghost predicate AcceptedOk(en: Entry) {
    && (Active(en.record.status) ==> en.record.completedAt.None? && OnlyLines(en.published))
    && (Terminal(en.record.status) ==> en.record.completedAt.Some? && Sealed(en.published))
    && (en.record.task.None? ==> en.published == [] && en.logged == [] && en.record.status.Queued?)
    && (en.record.task.Some? ==> en.logged != [] && en.logged[1..] == Texts(en.published))
  }

  /** What a refused registration leaves: no task, and nothing is ever published. */
  ghost predicate RefusedOk(en: Entry) {
    && en.record.task.None? && en.published == [] && |en.logged| <= 1
    && (Active(en.record.status) ==> en.record.status.Queued? && en.record.completedAt.None? && en.logged == [])
    && (Terminal(en.record.status) ==> en.record.completedAt.Some?)
  }

  ghost predicate EntriesOk(s: State) {
    forall r :: 0 <= r < |s.entries| ==> EntryOk(s.entries[r])
  }

  /** The dictionary holds the newest record of every id; a superseded record is terminal. */
  ghost predicate IndexOk(s: State) {
    && (forall id :: id in s.current ==> s.current[id] < |s.entries| && s.entries[s.current[id]].record.id == id)
    && (forall r :: 0 <= r < |s.entries| ==> IndexedOrOver(s, r))
  }

  ghost predicate IndexedOrOver(s: State, r: nat)
    requires r < |s.entries|
  {
    var record := s.entries[r].record;
    record.id in s.current && (s.current[record.id] == r || Terminal(record.status))
  }

  /** A task that can still act drives an active record, and a settled one a terminal record. */
  ghost predicate TaskOk(s: State, t: Task, tid: TaskId) {
    && t.rid < |s.entries|
    && s.entries[t.rid].record.task == Some(tid)
    && s.entries[t.rid].record.id == t.id
    && (Unfinished(t) && !t.cancelled ==> Active(s.entries[t.rid].record.status))
    && (t.cancelled || t.state.Settled? ==> Terminal(s.entries[t.rid].record.status))
  }

  ghost predicate TasksOk(s: State) {
    && (forall t :: 0 <= t < |s.tasks| ==> TaskOk(s, s.tasks[t], t))
    && (forall r :: 0 <= r < |s.entries| ==> OwnerOk(s, r))
  }

  /** A record without a task is being registered, or its id was refused. */
  ghost predicate OwnerOk(s: State, r: nat)
    requires r < |s.entries|
  {
    match s.entries[r].record.task
    case None => s.registering == Some(r) <==> ValidId(s.entries[r].record.id)
    case Some(t) => t < |s.tasks| && s.tasks[t].rid == r && s.registering != Some(r) && ValidId(s.entries[r].record.id)
  }

  ghost predicate RegisteringOk(s: State) {
    s.registering.Some? ==> s.registering.value < |s.entries|
  }

  /** Exactly the tasks at the lock wait for it, once each. */
  ghost predicate WaitersOk(s: State) {
    && (forall i :: 0 <= i < |s.waiters| && s.waiters[i].ForTask? ==>
          s.waiters[i].tid < |s.tasks| && s.tasks[s.waiters[i].tid].state.AtLock?)
    && (forall i, j :: 0 <= i < j < |s.waiters| && s.waiters[i].ForTask? ==> s.waiters[i] != s.waiters[j])
    && (forall t :: 0 <= t < |s.tasks| && s.tasks[t].state.AtLock? ==> ForTask(t) in s.waiters)
  }

  /** The index in the published items of the next one the reader will take. */
  function Position(sub: Subscriber, published: seq<Item>): int {
    |published| - |sub.queue|
  }

  /** The queue is the newest part of what was published since joining. */
  ghost predicate QueueOk(sub: Subscriber, published: seq<Item>) {
    && |sub.queue| <= QUEUE_SIZE
    && sub.joinedAt <= Position(sub, published)
    && sub.queue == published[Position(sub, published)..]
  }

  ghost predicate SnapshotOk(sub: Subscriber, en: Entry) {
    && sub.joinedAt <= |en.published| && sub.joinedLines <= |en.logged|
    && sub.history == Newest(en.logged[..sub.joinedLines], en.record.maxLines)
    && (sub.joinedLines >= 1 ==> Texts(en.published[..sub.joinedAt]) == en.logged[1..sub.joinedLines])
    && (sub.joinedLines == 0 ==> sub.joinedAt == 0)
  }

  ghost predicate ProgressOk(sub: Subscriber, en: Entry)
    requires SnapshotOk(sub, en) && (Open(sub.phase) ==> QueueOk(sub, en.published))
  {
    && (sub.phase.Replaying? ==> sub.yielded <= sub.history)
    && (sub.phase.Replaying? && !sub.lost ==> Position(sub, en.published) == sub.joinedAt)
    && (sub.phase.Live? ==> OnlyLines(en.published[..Position(sub, en.published)]))
    && (sub.phase.Live? && !sub.lost ==>
          sub.yielded == sub.history + Texts(en.published[sub.joinedAt..Position(sub, en.published)]))
    && (sub.phase.Draining? ==> Terminal(en.record.status) && DrainedTo(sub, en.published, Position(sub, en.published)))
    && (sub.phase.Drained? ==> Terminal(en.record.status) && DrainedAll(sub, en.published))
    && (sub.phase.Finished? ==> Terminal(en.record.status))
    && (sub.phase.Finished? && !sub.lost ==> DeliveredAll(sub, en.published))
  }

  /** Everything from the snapshot to the end marker, once, in order. */
  ghost predicate DeliveredAll(sub: Subscriber, published: seq<Item>) {
    exists n :: DeliveredTo(sub, published, n)
  }

  ghost predicate DeliveredTo(sub: Subscriber, published: seq<Item>, n: int) {
    && 0 <= n < |published| && SealedAt(published, n) && sub.joinedAt <= n
    && sub.yielded == sub.history + Texts(published[sub.joinedAt..n])
  }

  /** The lines that are not in the history; draining drops the others. */
  function Fresh(lines: seq<string>, history: seq<string>): seq<string> {
    if lines == [] then []
    else
      var last := lines[|lines| - 1];
      Fresh(lines[..|lines| - 1], history) + (if last in history then [] else [last])
  }

  ghost predicate DrainedFrom(sub: Subscriber, published: seq<Item>, from: int, p: int) {
    && 0 <= sub.joinedAt <= from <= p <= |published| && (!sub.lost ==> from == sub.joinedAt)
    && sub.yielded == sub.history + Fresh(Texts(published[from..p]), sub.history)
  }

  /** Every fresh line between two points, the first not before joining, once and in order. */
  ghost predicate DrainedTo(sub: Subscriber, published: seq<Item>, p: int) {
    exists from :: DrainedFrom(sub, published, from, p)
  }

  /** The same up to the end marker, or to the end of what was published. */
  ghost predicate DrainedAll(sub: Subscriber, published: seq<Item>) {
    exists p :: DrainEnd(published, p) && DrainedTo(sub, published, p)
  }

  predicate DrainEnd(published: seq<Item>, p: int) {
    p == |published| || (0 <= p < |published| && published[p].EndOfStream?)
  }

  ghost predicate StreamOk(sub: Subscriber, en: Entry) {
    SnapshotOk(sub, en) && (Open(sub.phase) ==> QueueOk(sub, en.published)) && ProgressOk(sub, en)
  }

  ghost predicate SubOk(sub: Subscriber, entries: seq<Entry>) {
    sub.rid < |entries| && StreamOk(sub, entries[sub.rid])
  }

  ghost predicate SubsOk(s: State) {
    forall k :: 0 <= k < |s.subs| ==> SubOk(s.subs[k], s.entries)
  }

  ghost predicate Inv(s: State) {
    EntriesOk(s) && IndexOk(s) && TasksOk(s) && RegisteringOk(s) && WaitersOk(s) && SubsOk(s)
  }

  // ---------------------------------------------------------------- emitting

  /** An effect on a record with a task: either it goes on, or it ends there. */
  ghost predicate Legal(en: Entry, e: Effect) {
    Active(en.record.status) && en.record.task.Some? && (GoesOn(en.record, e) || Ends(en.record, e))
  }

  lemma NewestAppend<T>(s: seq<T>, more: seq<T>, n: nat)
    ensures Newest(Newest(s, n) + more, n) == Newest(s + more, n)
  {
    var kept := Newest(s, n);
    assert s + more == s[..|s| - |kept|] + (kept + more);
    NewestOfSuffix(s[..|s| - |kept|], kept + more, n);
  }

  lemma NewestOfSuffix<T>(a: seq<T>, b: seq<T>, n: nat)
    requires |b| >= n || a == []
    ensures Newest(a + b, n) == Newest(b, n)
  {
    if a == [] { assert a + b == b; }
  }

  lemma {:induction false} OfferAllIsNewest(queue: seq<Item>, items: seq<Item>)
    requires |queue| <= QUEUE_SIZE
    ensures OfferAll(queue, items) == Newest(queue + items, QUEUE_SIZE)
  {
    if items == [] {
      assert queue + [] == queue;
    } else {
      var front, last := items[..|items| - 1], items[|items| - 1];
      OfferAllIsNewest(queue, front);
      NewestStep(queue + front, last, QUEUE_SIZE);
      assert queue + front + [last] == queue + items;
    }
  }

  lemma SealedAfterLines(before: seq<Item>, items: seq<Item>)
    requires OnlyLines(before) && Sealed(items)
    ensures Sealed(before + items)
  {
    var n :| SealedAt(items, n);
    assert SealedAt(before + items, |before| + n);
  }

  lemma MoreLines(before: seq<Item>, items: seq<Item>)
    requires OnlyLines(before) && OnlyLines(items)
    ensures OnlyLines(before + items)
  {
  }

  lemma ExtendEntryOk(en: Entry, e: Effect)
    requires EntryOk(en) && Legal(en, e)
    ensures EntryOk(Extend(en, e))
  {
    hide OnlyLines, Sealed, Texts, ValidId;
    NewestAppend(en.logged, e.buffered, en.record.maxLines);
    TextsConcat(en.published, e.published);
    if en.logged != [] { assert (en.logged + e.buffered)[1..] == en.logged[1..] + e.buffered; }
    if Ends(en.record, e) {
      SealedAfterLines(en.published, e.published);
    } else {
      MoreLines(en.published, e.published);
    }
  }

  /** An offer moves the queue's window along the published items. */
  lemma OfferKeepsQueue(sub: Subscriber, published: seq<Item>, items: seq<Item>)
    requires Open(sub.phase) && QueueOk(sub, published)
    ensures var after := OfferTo(sub, sub.rid, items);
            && QueueOk(after, published + items)
            && Position(sub, published) <= Position(after, published + items)
            && (!after.lost ==> !sub.lost && Position(after, published + items) == Position(sub, published))
            && (Position(after, published + items) > Position(sub, published) ==> |after.queue| == QUEUE_SIZE)
  {
    OfferAllIsNewest(sub.queue, items);
    var all := published + items;
    var p := Position(sub, published);
    assert all[p..] == sub.queue + items;
    var after := OfferTo(sub, sub.rid, items);
    assert after.queue == all[Position(after, all)..];
  }

  lemma ExtendKeepsSnapshot(sub: Subscriber, en: Entry, e: Effect)
    requires SnapshotOk(sub, en) && SameIdentity(en.record, e.record)
    ensures SnapshotOk(sub, Extend(en, e))
  {
    var after := Extend(en, e);
    assert after.logged[..sub.joinedLines] == en.logged[..sub.joinedLines];
    assert after.published[..sub.joinedAt] == en.published[..sub.joinedAt];
    if sub.joinedLines >= 1 { assert after.logged[1..sub.joinedLines] == en.logged[1..sub.joinedLines]; }
  }

  /** The end marker is among the last two items, so a queue that overflows has not lost it. */
  lemma LinesBefore(published: seq<Item>, items: seq<Item>, p: nat)
    requires OnlyLines(published) && (OnlyLines(items) || Sealed(items))
    requires p + 2 <= |published| + |items| || p <= |published|
    ensures OnlyLines((published + items)[..p])
  {
    if Sealed(items) {
      var n :| SealedAt(items, n);
    }
  }

  lemma OfferKeepsStream(sub: Subscriber, en: Entry, e: Effect)
    requires StreamOk(sub, en) && EntryOk(en) && Legal(en, e)
    ensures StreamOk(OfferTo(sub, sub.rid, e.published), Extend(en, e))
  {
    hide EntryOk, OnlyLines, Sealed, OfferAll, DeliveredAll, SnapshotOk;
    var after := Extend(en, e);
    ExtendKeepsSnapshot(sub, en, e);
    ActiveOnlyLines(en);
    SameSnapshot(sub, OfferTo(sub, sub.rid, e.published), after);
    if Open(sub.phase) {
      OfferKeepsQueue(sub, en.published, e.published);
      var p, q := Position(sub, en.published), Position(OfferTo(sub, sub.rid, e.published), after.published);
      LinesBefore(en.published, e.published, q);
      if p == q { assert after.published[sub.joinedAt..p] == en.published[sub.joinedAt..p]; }
    }
  }

  lemma SameSnapshot(a: Subscriber, b: Subscriber, en: Entry)
    requires SnapshotOk(a, en)
    requires a.joinedAt == b.joinedAt && a.joinedLines == b.joinedLines && a.history == b.history
    ensures SnapshotOk(b, en)
  {
  }

  lemma OfferKeepsSub(sub: Subscriber, entries: seq<Entry>, rid: nat, e: Effect)
    requires SubOk(sub, entries) && rid < |entries| && EntryOk(entries[rid]) && Legal(entries[rid], e)
    ensures SubOk(OfferTo(sub, rid, e.published), entries[rid := Extend(entries[rid], e)])
  {
    hide EntryOk, StreamOk, Legal, OfferAll, Extend;
    if sub.rid == rid { OfferKeepsStream(sub, entries[rid], e); }
  }

  lemma ActiveOnlyLines(en: Entry)
    requires EntryOk(en) && Active(en.record.status)
    ensures OnlyLines(en.published)
  {
  }

  /** Emitting a legal effect keeps entries and streams in order. */
  lemma EmitKeeps(s: State, rid: nat, e: Effect)
    requires EntriesOk(s) && SubsOk(s) && rid < |s.entries| && Legal(s.entries[rid], e)
    ensures EntriesOk(Emit(s, rid, e)) && SubsOk(Emit(s, rid, e))
  {
    hide EntryOk, SubOk, Legal, Extend, OfferTo;
    var after := Emit(s, rid, e);
    ExtendEntryOk(s.entries[rid], e);
    forall k | 0 <= k < |after.subs| ensures SubOk(after.subs[k], after.entries) {
      OfferKeepsSub(s.subs[k], s.entries, rid, e);
    }
  }
}
