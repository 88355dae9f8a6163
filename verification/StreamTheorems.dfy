/**
  What log streams deliver: nothing is skipped, nothing is repeated, and no
  reader waits for an operation that is over.
*/
module StreamTheorems {
  import opened Wrappers
  import opened OperationRecords
  import opened OperationProtocol
  import opened ProtocolInvariant
  import opened ProtocolSteps
  import opened ProtocolTheorems

  // ---------------------------------------------------------------- the queue

  /** A queue is the newest, at most 100, of the items published since its reader joined. */
  lemma QueueIsNewestPublished(s: State, k: nat)
    requires Inv(s) && k < |s.subs| && Open(s.subs[k].phase)
    ensures var sub := s.subs[k];
            && sub.rid < |s.entries| && |sub.queue| <= QUEUE_SIZE
            && sub.joinedAt + |sub.queue| <= |s.entries[sub.rid].published|
            && sub.queue == s.entries[sub.rid].published[|s.entries[sub.rid].published| - |sub.queue|..]
  {
    hide EntriesOk, IndexOk, TasksOk, WaitersOk, SnapshotOk, ProgressOk;
    assert SubOk(s.subs[k], s.entries);
  }

  // ---------------------------------------------------------------- no reader waits forever

  function IdOf(s: State, rid: nat): string
    requires rid < |s.entries|
  {
    s.entries[rid].record.id
  }

  /** The end marker of a finished operation is still ahead of every live reader, unless the operation was a
      refused registration: its readers have nothing ahead of them. */
  lemma EndMarkerIsQueued(s: State, k: nat)
    requires Inv(s) && k < |s.subs| && s.subs[k].phase.Live?
    requires s.subs[k].rid < |s.entries| && Terminal(StatusOf(s, s.subs[k].rid))
    ensures EndOfStream in s.subs[k].queue <==> ValidId(IdOf(s, s.subs[k].rid))
    ensures s.subs[k].queue != [] <==> ValidId(IdOf(s, s.subs[k].rid))
  {
    hide IndexOk, TasksOk, WaitersOk, SnapshotOk, DeliveredAll, ValidId;
    var sub, published := s.subs[k], s.entries[s.subs[k].rid].published;
    assert SubOk(sub, s.entries) && EntryOk(s.entries[sub.rid]);
    if ValidId(IdOf(s, sub.rid)) {
      var n :| SealedAt(published, n);
      var p := Position(sub, published);
      MarkerNotBefore(published, n, p);
      assert sub.queue[n - p] == published[n];
    }
  }

  lemma MarkerNotBefore(published: seq<Item>, n: int, p: int)
    requires SealedAt(published, n) && 0 <= p <= |published| && OnlyLines(published[..p])
    ensures p <= n
  {
    assert forall i :: 0 <= i < p ==> published[..p][i] == published[i];
  }

  /** How many more resumptions a reader of a finished operation can take. */
  function Remaining(sub: Subscriber): int {
    match sub.phase
    case Replaying => |sub.history| - |sub.yielded| + |sub.queue| + 2
    case Live => |sub.queue| + 1
    case Draining => |sub.queue| + 1
    case _ => 0
  }

  /** A reader of a finished operation can go on, unless it waits for a refused registration, and comes strictly
      nearer its end each time. */
  lemma FinishedReaderAdvances(s: State, k: nat)
    requires Inv(s) && k < |s.subs| && Open(s.subs[k].phase)
    requires s.subs[k].rid < |s.entries| && Terminal(StatusOf(s, s.subs[k].rid))
    ensures Enabled(s, Advance(k)) <==> s.subs[k].phase.Live? ==> ValidId(IdOf(s, s.subs[k].rid))
    ensures Enabled(s, Advance(k)) ==>
              && Next(s, Advance(k)) == s.(subs := s.subs[k := Resume(s.subs[k], true)])
              && 0 <= Remaining(Resume(s.subs[k], true)) < Remaining(s.subs[k])
  {
    hide EntriesOk, IndexOk, TasksOk, WaitersOk, SnapshotOk, QueueOk, DeliveredAll, DrainedTo, DrainedAll, ValidId;
    assert SubOk(s.subs[k], s.entries);
    if s.subs[k].phase.Live? { EndMarkerIsQueuedInv(s, k); }
  }

  lemma EndMarkerIsQueuedInv(s: State, k: nat)
    requires Inv(s) && k < |s.subs| && s.subs[k].phase.Live?
    requires s.subs[k].rid < |s.entries| && Terminal(StatusOf(s, s.subs[k].rid))
    ensures s.subs[k].queue != [] <==> ValidId(IdOf(s, s.subs[k].rid))
  {
    hide Inv, ValidId;
    EndMarkerIsQueued(s, k);
  }

  lemma TaskStepSkipsFinished(s: State, e: Event, k: nat)
    requires Inv(s) && Enabled(s, e) && (e.Log? || e.Callback? || (e.Grant? && s.waiters[e.index].ForTask?))
    requires k < |s.subs| && s.subs[k].rid < |s.entries| && Terminal(StatusOf(s, s.subs[k].rid))
    ensures k < |Next(s, e).subs| && Next(s, e).subs[k] == s.subs[k]
  {
    hide Inv, CallEffect, AppendLog, FinalizeRecord, Final, OfferAll, Extend, ValidId;
    var tid := Actor(s, e).value;
    if !e.Callback? { ActingTaskOwnsCurrentInv(s, tid); }
  }

  lemma HandlerStepSkipsFinished(s: State, e: Event, k: nat)
    requires Enabled(s, e)
    requires (e.RequestRegister? || e.RequestCancel? || e.FinishRegister? || (e.Grant? && !s.waiters[e.index].ForTask?))
    requires k < |s.subs| && s.subs[k].rid < |s.entries| && Terminal(StatusOf(s, s.subs[k].rid))
    ensures k < |Next(s, e).subs| && Next(s, e).subs[k] == s.subs[k]
  {
    hide CancelRecord, OfferAll, Extend, ValidId;
  }

  /** Nothing but the reader itself moves the stream of a finished operation. */
  lemma FinishedStreamIsStill(s: State, e: Event, k: nat)
    requires Inv(s) && Enabled(s, e) && k < |s.subs|
    requires s.subs[k].rid < |s.entries| && Terminal(StatusOf(s, s.subs[k].rid))
    requires e != Advance(k) && e != Leave(k)
    ensures k < |Next(s, e).subs| && Next(s, e).subs[k] == s.subs[k]
  {
    hide Inv, GrantTask, GrantCancel, GrantRegister, FinishRegistration, LogLine, RunCallback, Resume;
    if e.Log? || e.Callback? || (e.Grant? && s.waiters[e.index].ForTask?) {
      TaskStepSkipsFinished(s, e, k);
    } else if e.RequestRegister? || e.RequestCancel? || e.FinishRegister? || e.Grant? {
      HandlerStepSkipsFinished(s, e, k);
    }
  }

  // ---------------------------------------------------------------- exact delivery

  /** The first line of the log a reader gets: the oldest one its snapshot held. A reader that joined while the
      registration was suspended gets all but the line that announces it. */
  function FirstSeen(sub: Subscriber): nat
    requires |sub.history| <= sub.joinedLines
  {
    if sub.joinedLines == 0 then 1 else sub.joinedLines - |sub.history|
  }

  function Since(logged: seq<string>, n: nat): seq<string> {
    if n <= |logged| then logged[n..] else []
  }

  /** Delivered and queued lines together are everything logged since the reader's first line, once, in order. */
  lemma LiveReaderMissesNothing(s: State, k: nat)
    requires Inv(s) && k < |s.subs| && s.subs[k].phase.Live? && !s.subs[k].lost
    requires s.subs[k].rid < |s.entries|
    ensures var sub, en := s.subs[k], s.entries[s.subs[k].rid];
            && |sub.history| == (if sub.joinedLines <= en.record.maxLines then sub.joinedLines else en.record.maxLines)
            && sub.yielded + Texts(sub.queue) == Since(en.logged, FirstSeen(sub))
  {
    hide IndexOk, TasksOk, WaitersOk, DeliveredAll, DrainedTo, DrainedAll, OnlyLines, Sealed, ValidId;
    var sub, en := s.subs[k], s.entries[s.subs[k].rid];
    assert SubOk(sub, s.entries) && EntryOk(en);
    var p := Position(sub, en.published);
    LoggedFrom(sub, en, p);
    assert en.published[p..] == sub.queue;
  }

  /** A reader that saw the end marker has every line logged up to it, once, in order: at most one line follows. */
  lemma FinishedReaderGotEverything(s: State, k: nat)
    requires Inv(s) && k < |s.subs| && s.subs[k].phase.Finished? && !s.subs[k].lost
    requires s.subs[k].rid < |s.entries|
    ensures var sub, en := s.subs[k], s.entries[s.subs[k].rid];
            && |sub.history| == (if sub.joinedLines <= en.record.maxLines then sub.joinedLines else en.record.maxLines)
            && var seen := Since(en.logged, FirstSeen(sub));
               sub.yielded <= seen && |seen| <= |sub.yielded| + 1
  {
    hide EntryOk, StreamOk, IndexOk, TasksOk, WaitersOk;
    var sub, en := s.subs[k], s.entries[s.subs[k].rid];
    assert SubOk(sub, s.entries) && EntryOk(en);
    FinishedStream(sub, en);
  }

  lemma FinishedStream(sub: Subscriber, en: Entry)
    requires StreamOk(sub, en) && EntryOk(en) && sub.phase.Finished? && !sub.lost
    ensures |sub.history| == (if sub.joinedLines <= en.record.maxLines then sub.joinedLines else en.record.maxLines)
    ensures var seen := Since(en.logged, FirstSeen(sub));
            sub.yielded <= seen && |seen| <= |sub.yielded| + 1
  {
    hide EntryOk, SnapshotOk, Texts, SealedAt, FirstSeen, Since;
    var n :| DeliveredTo(sub, en.published, n);
    LoggedFrom(sub, en, n);
    AfterMarker(en.published, n);
  }

  lemma AfterMarker(published: seq<Item>, n: nat)
    requires SealedAt(published, n)
    ensures |Texts(published[n..])| <= 1
  {
    var tail := published[n..];
    assert tail == [EndOfStream] + tail[1..];
    TextsConcat([EndOfStream], tail[1..]);
    assert [EndOfStream][..0] == [];
    TextsLength(tail[1..]);
  }

  lemma {:induction false} TextsLength(items: seq<Item>)
    ensures |Texts(items)| <= |items|
  {
    if items != [] { TextsLength(items[..|items| - 1]); }
  }

  /** The log is the snapshot, the lines published up to `p`, and those published after. */
  lemma LoggedFrom(sub: Subscriber, en: Entry, p: nat)
    requires SnapshotOk(sub, en) && EntryOk(en)
    requires sub.joinedAt <= p <= |en.published|
    ensures |sub.history| == (if sub.joinedLines <= en.record.maxLines then sub.joinedLines else en.record.maxLines)
    ensures sub.history + Texts(en.published[sub.joinedAt..p]) + Texts(en.published[p..])
         == Since(en.logged, FirstSeen(sub))
  {
    hide EntryOk, SnapshotOk, Texts, FirstSeen, Since;
    var x, y := Texts(en.published[sub.joinedAt..p]), Texts(en.published[p..]);
    PublishedTexts(sub, en, p);
    if sub.joinedLines >= 1 {
      LoggedFromSnapshot(sub, en, x, y);
    } else {
      LoggedFromStart(sub, en, x, y);
    }
  }

  lemma PublishedTexts(sub: Subscriber, en: Entry, p: nat)
    requires sub.joinedAt <= p <= |en.published|
    ensures Texts(en.published)
         == Texts(en.published[..sub.joinedAt]) + Texts(en.published[sub.joinedAt..p]) + Texts(en.published[p..])
  {
    hide Texts;
    var a, b, c := en.published[..sub.joinedAt], en.published[sub.joinedAt..p], en.published[p..];
    assert en.published == a + b + c;
    TextsConcat(a + b, c);
    TextsConcat(a, b);
  }

  lemma LoggedFromSnapshot(sub: Subscriber, en: Entry, x: seq<string>, y: seq<string>)
    requires SnapshotOk(sub, en) && EntryOk(en) && sub.joinedLines >= 1
    requires Texts(en.published) == Texts(en.published[..sub.joinedAt]) + x + y
    ensures |sub.history| == (if sub.joinedLines <= en.record.maxLines then sub.joinedLines else en.record.maxLines)
    ensures sub.history + x + y == Since(en.logged, FirstSeen(sub))
  {
    hide OnlyLines, Sealed, Texts, ValidId;
    LoggedRest(en);
    Reassemble(en.logged, sub.joinedLines, |sub.history|, Texts(en.published[..sub.joinedAt]), x, y);
  }

  lemma LoggedFromStart(sub: Subscriber, en: Entry, x: seq<string>, y: seq<string>)
    requires SnapshotOk(sub, en) && EntryOk(en) && sub.joinedLines == 0
    requires Texts(en.published) == Texts(en.published[..sub.joinedAt]) + x + y
    ensures |sub.history| == 0
    ensures sub.history + x + y == Since(en.logged, FirstSeen(sub))
  {
    hide OnlyLines, Sealed, Texts, ValidId;
    LoggedRest(en);
    NoTexts();
    assert en.published[..0] == [];
    assert sub.history + x + y == x + y;
    assert [] + x + y == x + y;
  }

  lemma NoTexts()
    ensures Texts([]) == []
  {
  }

  lemma Reassemble(logged: seq<string>, n: nat, kept: nat, a: seq<string>, b: seq<string>, c: seq<string>)
    requires 1 <= n <= |logged| && kept <= n && a == logged[1..n] && logged[1..] == a + b + c
    ensures logged[..n][n - kept..] + b + c == logged[n - kept..]
  {
    assert logged == logged[..1] + logged[1..];
    assert logged[..n] == logged[..1] + a;
    assert logged == logged[..n] + (b + c);
  }

  // ---------------------------------------------------------------- draining

  /** What a draining or drained reader got after its snapshot: the lines of one stretch of what was published after
      it joined, once and in order, without those that equal a line of its snapshot. */
  lemma DrainingStaysInOrder(s: State, k: nat) returns (a: nat, b: nat)
    requires Inv(s) && k < |s.subs| && (s.subs[k].phase.Draining? || s.subs[k].phase.Drained?)
    ensures s.subs[k].rid < |s.entries|
    ensures var sub, published := s.subs[k], s.entries[s.subs[k].rid].published;
            && sub.joinedAt <= a <= b <= |published| && (!sub.lost ==> a == sub.joinedAt)
            && sub.yielded == sub.history + Fresh(Texts(published[a..b]), sub.history)
  {
    hide EntryOk, IndexOk, TasksOk, WaitersOk, SnapshotOk, QueueOk, DeliveredAll, Texts, Fresh;
    var sub, published := s.subs[k], s.entries[s.subs[k].rid].published;
    assert SubOk(sub, s.entries);
    var p: int;
    if sub.phase.Draining? {
      p := Position(sub, published);
    } else {
      p :| DrainEnd(published, p) && DrainedTo(sub, published, p);
    }
    var from :| DrainedFrom(sub, published, from, p);
    a, b := from, p;
  }

  /** A drained reader that never overflowed got every line logged since its snapshot, up to the end marker, that does
      not equal a line of the snapshot; at most one line follows. */
  lemma DrainedReaderGotFreshLines(s: State, k: nat) returns (m: nat)
    requires Inv(s) && k < |s.subs| && s.subs[k].phase.Drained? && !s.subs[k].lost
    ensures s.subs[k].rid < |s.entries|
    ensures var sub, logged := s.subs[k], s.entries[s.subs[k].rid].logged;
            && m <= |Since(logged, Snapshot(sub))| <= m + 1
            && sub.yielded == sub.history + Fresh(Since(logged, Snapshot(sub))[..m], sub.history)
  {
    hide IndexOk, TasksOk, WaitersOk, EntryOk, SnapshotOk, Texts, Fresh, Snapshot, Since, DrainEnd;
    var sub, en := s.subs[k], s.entries[s.subs[k].rid];
    assert SubOk(sub, s.entries) && EntryOk(en);
    var p :| DrainEnd(en.published, p) && DrainedTo(sub, en.published, p);
    var from :| DrainedFrom(sub, en.published, from, p);
    LoggedSince(sub, en, p);
    AfterDrain(en, p);
    m := |Texts(en.published[sub.joinedAt..p])|;
    assert Since(en.logged, Snapshot(sub))[..m] == Texts(en.published[sub.joinedAt..p]);
  }

  /** How much of the log had been there when the reader joined; the announcing line counts even if it came later. */
  function Snapshot(sub: Subscriber): nat {
    if sub.joinedLines == 0 then 1 else sub.joinedLines
  }

  lemma LoggedSince(sub: Subscriber, en: Entry, p: nat)
    requires SnapshotOk(sub, en) && EntryOk(en) && sub.joinedAt <= p <= |en.published|
    ensures Since(en.logged, Snapshot(sub)) == Texts(en.published[sub.joinedAt..p]) + Texts(en.published[p..])
  {
    hide EntryOk, Texts;
    PublishedTexts(sub, en, p);
    LoggedRest(en);
    NoTexts();
    var x, y := Texts(en.published[sub.joinedAt..p]), Texts(en.published[p..]);
    if sub.joinedLines >= 1 {
      Reassemble(en.logged, sub.joinedLines, 0, Texts(en.published[..sub.joinedAt]), x, y);
      assert en.logged[..sub.joinedLines][sub.joinedLines..] == [];
      assert [] + x + y == x + y;
    } else {
      assert en.published[..0] == [];
      assert [] + x + y == x + y;
    }
  }

  lemma AfterDrain(en: Entry, p: nat)
    requires EntryOk(en) && p <= |en.published| && DrainEnd(en.published, p)
    ensures |Texts(en.published[p..])| <= 1
  {
    hide EntryOk, Texts;
    if p == |en.published| {
      NoTexts();
      assert en.published[p..] == [];
    } else {
      EndTaken(en, p);
      AfterMarker(en.published, p);
    }
  }

  // ---------------------------------------------------------------- over runs

  /** In every state of every run, a live reader of a finished operation has its end marker waiting and can go on,
      exactly when the operation's id was accepted. */
  lemma NoReaderWaitsForever(states: seq<State>, events: seq<Event>, i: nat, k: nat)
    requires Behavior(states, events) && i < |states| && k < |states[i].subs|
    requires states[i].subs[k].phase.Live? && states[i].subs[k].rid < |states[i].entries|
    requires Terminal(StatusOf(states[i], states[i].subs[k].rid))
    ensures Enabled(states[i], Advance(k)) <==> ValidId(IdOf(states[i], states[i].subs[k].rid))
    ensures EndOfStream in states[i].subs[k].queue <==> ValidId(IdOf(states[i], states[i].subs[k].rid))
  {
    hide Inv, Behavior, ValidId;
    RunsKeepInvariant(states, events, i);
    EndMarkerIsQueued(states[i], k);
  }

  /** How often the reader was resumed. */
  function Resumptions(events: seq<Event>, k: nat): nat {
    if events == [] then 0
    else Resumptions(events[..|events| - 1], k) + (if events[|events| - 1] == Advance(k) then 1 else 0)
  }

  /** One step of anybody: a reader of a finished operation spends a resumption on each of its own steps only. */
  lemma FinishedReaderStep(s: State, e: Event, k: nat)
    requires Inv(s) && Enabled(s, e) && k < |s.subs|
    requires s.subs[k].rid < |s.entries| && Terminal(StatusOf(s, s.subs[k].rid))
    ensures k < |Next(s, e).subs| && Next(s, e).subs[k].rid == s.subs[k].rid
    ensures 0 <= Remaining(s.subs[k])
    ensures 0 <= Remaining(Next(s, e).subs[k]) <= Remaining(s.subs[k]) - (if e == Advance(k) then 1 else 0)
  {
    hide Inv, Enabled, Next, Remaining, Resume;
    RemainingNotNegative(s, k);
    if e == Advance(k) {
      AdvanceIsOpen(s, k);
      FinishedReaderAdvances(s, k);
      ResumeKeepsRecord(s.subs[k]);
    } else if e == Leave(k) {
      LeaveEnds(s, k);
    } else {
      FinishedStreamIsStill(s, e, k);
    }
  }

  lemma RemainingNotNegative(s: State, k: nat)
    requires Inv(s) && k < |s.subs|
    ensures 0 <= Remaining(s.subs[k])
  {
    hide EntriesOk, IndexOk, TasksOk, WaitersOk, SnapshotOk, QueueOk, DeliveredAll, DrainedTo, DrainedAll, ValidId;
    assert SubOk(s.subs[k], s.entries);
  }

  lemma AdvanceIsOpen(s: State, k: nat)
    requires Enabled(s, Advance(k))
    ensures k < |s.subs| && CanAdvance(s.subs[k])
  {
  }

  lemma ResumeKeepsRecord(sub: Subscriber)
    requires CanAdvance(sub)
    ensures Resume(sub, true).rid == sub.rid
  {
  }

  lemma LeaveEnds(s: State, k: nat)
    requires Enabled(s, Leave(k))
    ensures Next(s, Leave(k)).subs == s.subs[k := s.subs[k].(phase := Left)]
    ensures Remaining(s.subs[k].(phase := Left)) == 0
  {
  }

  /** Whatever else happens in a run, from the end of an operation on each of its readers is resumed at most
      `Remaining` times, and as long as it is still open it can be, if the id was accepted: so it comes to its end. */
  lemma {:induction false} ReaderFinishesInTime(states: seq<State>, events: seq<Event>, i: nat, j: nat, k: nat)
    requires Behavior(states, events) && i <= j < |states| && k < |states[i].subs|
    requires states[i].subs[k].rid < |states[i].entries| && Terminal(StatusOf(states[i], states[i].subs[k].rid))
    ensures k < |states[j].subs| && states[j].subs[k].rid == states[i].subs[k].rid
    ensures states[j].subs[k].rid < |states[j].entries| && Terminal(StatusOf(states[j], states[j].subs[k].rid))
    ensures Resumptions(events[i..j], k) + Remaining(states[j].subs[k]) <= Remaining(states[i].subs[k])
    ensures Open(states[j].subs[k].phase) && ValidId(IdOf(states[j], states[j].subs[k].rid)) ==>
              Enabled(states[j], Advance(k)) && Remaining(states[j].subs[k]) > 0
    decreases j
  {
    hide Inv, Next, Enabled, Remaining, ValidId;
    RunsKeepInvariant(states, events, j);
    RecordsEvolve(states, events, i, j, states[i].subs[k].rid);
    if i < j {
      ReaderFinishesInTime(states, events, i, j - 1, k);
      RunsKeepInvariant(states, events, j - 1);
      assert Enabled(states[j - 1], events[j - 1]);
      assert states[j - 1 + 1] == Next(states[j - 1], events[j - 1]);
      FinishedReaderStep(states[j - 1], events[j - 1], k);
      assert events[i..j][..j - 1 - i] == events[i..j - 1];
      assert events[i..j][j - 1 - i] == events[j - 1];
    } else {
      assert events[i..j] == [];
    }
    if Open(states[j].subs[k].phase) {
      FinishedReaderAdvances(states[j], k);
      RemainingAfter(states[j], k);
    }
  }

  lemma RemainingAfter(s: State, k: nat)
    requires Inv(s) && k < |s.subs| && Open(s.subs[k].phase)
    ensures Remaining(s.subs[k]) > 0
  {
    hide EntriesOk, IndexOk, TasksOk, WaitersOk, SnapshotOk, QueueOk, DeliveredAll, DrainedTo, DrainedAll, ValidId;
    assert SubOk(s.subs[k], s.entries);
  }

  // ---------------------------------------------------------------- a missed announcement

  /** A live reader that joined before the announcing line was buffered, and has nothing left to read. */
  predicate MissedAnnouncement(s: State, line: string) {
    && |s.entries| == 1 && s.entries[0].logged == [line]
    && |s.subs| == 1 && s.subs[0].rid == 0 && s.subs[0].phase.Live?
    && s.subs[0].joinedLines == 0 && s.subs[0].yielded == [] && s.subs[0].queue == []
  }

  predicate Leads(s: State, e: Event, after: State) {
    Enabled(s, e) && after == Next(s, e)
  }

  function Asking(id: string): State {
    INITIAL.(waiters := [ForRegister(id, "", "", 1)])
  }

  function Suspended(id: string, now: string): State {
    INITIAL.(entries := [Entry(NewRecord(id, id, "", "", 1, now), [], [])], current := map[id := 0],
             registering := Some(0))
  }

  function Joined(id: string, now: string, phase: Phase): State {
    Suspended(id, now).(subs := [Subscriber(0, phase, [], [], [], 0, 0, false)])
  }

  lemma RegisterAndJoin(id: string, now: string)
    requires ValidId(id)
    ensures Leads(INITIAL, RequestRegister(id, "", "", 1), Asking(id))
    ensures Leads(Asking(id), Grant(0, now), Suspended(id, now))
    ensures Leads(Suspended(id, now), Subscribe(id), Joined(id, now, Replaying))
  {
    hide ValidId;
    assert !Conflict(INITIAL, id);
    assert Without(Asking(id).waiters, 0) == [];
  }

  lemma ReplayNothing(id: string, now: string)
    ensures Leads(Joined(id, now, Replaying), Advance(0), Joined(id, now, Live))
  {
  }

  lemma AnnounceLate(id: string, now: string, line: string)
    ensures Enabled(Joined(id, now, Live), FinishRegister(line))
    ensures MissedAnnouncement(Next(Joined(id, now, Live), FinishRegister(line)), line)
  {
  }

  /** It does happen: the reader joins while the registration is suspended, and the line is never shown to it. */
  lemma AnnouncementCanBeMissed(id: string, now: string, line: string)
    requires ValidId(id)
    ensures exists states, events :: Behavior(states, events) && MissedAnnouncement(states[|events|], line)
  {
    hide ValidId, Next, Enabled, MissedAnnouncement, Asking, Suspended, Joined;
    RegisterAndJoin(id, now);
    ReplayNothing(id, now);
    AnnounceLate(id, now, line);
    var events := [RequestRegister(id, "", "", 1), Grant(0, now), Subscribe(id), Advance(0), FinishRegister(line)];
    var states := [INITIAL, Asking(id), Suspended(id, now), Joined(id, now, Replaying), Joined(id, now, Live),
                   Next(Joined(id, now, Live), FinishRegister(line))];
    assert Behavior(states, events) && MissedAnnouncement(states[|events|], line);
  }

  // ---------------------------------------------------------------- a stranded reader

  function Refused(id: string, now: string): State {
    INITIAL.(entries := [Entry(NewRecord(id, id, "", "", 1, now), [], [])], current := map[id := 0])
  }

  function RefusedJoined(id: string, now: string, phase: Phase): State {
    Refused(id, now).(subs := [Subscriber(0, phase, [], [], [], 0, 0, false)])
  }

  function RefusedAsking(id: string, now: string): State {
    RefusedJoined(id, now, Live).(waiters := [ForCancel(id)])
  }

  /** A live reader with an empty queue on an operation that is over. */
  predicate Stranded(s: State) {
    && |s.entries| == 1 && Terminal(StatusOf(s, 0))
    && |s.subs| == 1 && s.subs[0].rid == 0 && s.subs[0].phase.Live? && s.subs[0].queue == []
  }

  lemma RefuseAndJoin(id: string, now: string)
    requires !ValidId(id)
    ensures Leads(Asking(id), Grant(0, now), Refused(id, now))
    ensures Leads(Refused(id, now), Subscribe(id), RefusedJoined(id, now, Replaying))
  {
    hide ValidId;
    assert !Conflict(INITIAL, id);
    assert Without(Asking(id).waiters, 0) == [];
  }

  lemma RefusedReplay(id: string, now: string)
    ensures Leads(RefusedJoined(id, now, Replaying), Advance(0), RefusedJoined(id, now, Live))
    ensures Leads(RefusedJoined(id, now, Live), RequestCancel(id), RefusedAsking(id, now))
  {
  }

  lemma GrantIsCancel(id: string, now: string)
    ensures Enabled(RefusedAsking(id, now), Grant(0, now))
    ensures Next(RefusedAsking(id, now), Grant(0, now)) == GrantCancel(RefusedJoined(id, now, Live), id, now)
  {
    hide GrantCancel;
    assert Without(RefusedAsking(id, now).waiters, 0) == [];
  }

  lemma CancelIsEmit(id: string, now: string)
    ensures GrantCancel(RefusedJoined(id, now, Live), id, now)
         == Emit(RefusedJoined(id, now, Live), 0, CancelRecord(NewRecord(id, id, "", "", 1, now), now))
  {
    hide CancelRecord, Emit;
  }

  lemma SilenceStrands(id: string, now: string, e: Effect)
    requires e.published == [] && Terminal(e.record.status)
    ensures Stranded(Emit(RefusedJoined(id, now, Live), 0, e))
  {
    assert OfferAll([], e.published) == [];
  }

  lemma CancelStrands(id: string, now: string)
    requires !ValidId(id)
    ensures Enabled(RefusedAsking(id, now), Grant(0, now)) && Stranded(Next(RefusedAsking(id, now), Grant(0, now)))
  {
    hide ValidId, CancelRecord, Emit, GrantCancel, Next, Enabled, Stranded, Sealed;
    var record := NewRecord(id, id, "", "", 1, now);
    CancelEnds(record, now);
    GrantIsCancel(id, now);
    CancelIsEmit(id, now);
    SilenceStrands(id, now, CancelRecord(record, now));
  }

  /** A refused registration can be followed and cancelled, and then its reader waits for nothing. */
  lemma RefusedReaderCanBeStranded(id: string, now: string)
    requires !ValidId(id)
    ensures exists states, events :: Behavior(states, events) && Stranded(states[|events|])
  {
    hide ValidId, Next, Enabled, Stranded, Asking, Refused, RefusedJoined, RefusedAsking;
    Ask(id);
    RefuseAndJoin(id, now);
    RefusedReplay(id, now);
    CancelStrands(id, now);
    var events := [RequestRegister(id, "", "", 1), Grant(0, now), Subscribe(id), Advance(0), RequestCancel(id),
                   Grant(0, now)];
    var states := [INITIAL, Asking(id), Refused(id, now), RefusedJoined(id, now, Replaying),
                   RefusedJoined(id, now, Live), RefusedAsking(id, now),
                   Next(RefusedAsking(id, now), Grant(0, now))];
    assert Behavior(states, events) && Stranded(states[|events|]);
  }

  lemma Ask(id: string)
    ensures Leads(INITIAL, RequestRegister(id, "", "", 1), Asking(id))
  {
  }
}
