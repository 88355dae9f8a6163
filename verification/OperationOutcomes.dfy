/**
  Why an operation ended, read off the step that ended it, and what each call,
  cancellation and outcome leaves in the record, in so many words.
*/
module OperationOutcomes {
  import opened Wrappers
  import opened Text
  import opened OperationRecords
  import opened OperationProtocol
  import opened ProtocolInvariant
  import opened ProtocolSteps
  import opened ProtocolTheorems

  // ---------------------------------------------------------------- what one record is left with

  /** Status, step, message and error, next to the clock readings. */
  predicate Leaves(r: Record, status: Status, step: Option<string>, message: Option<string>, error: Option<string>) {
    r.status == status && r.step == step && r.message == message && r.error == error
  }

  /** update_operation changes what it is given, field by field, and always the time of the update. */
  lemma UpdateLeaves(r: Record, u: Update, now: string)
    ensures var after := UpdateRecord(r, u, now).record;
            && after.status == (match u.status case Some(s) => s case None => r.status)
            && after.step == (match u.step case Some(s) => Some(s) case None => r.step)
            && after.message == (match u.message case Some(s) => Some(s) case None => r.message)
            && after.error == (match u.error case Some(s) => Some(s) case None => r.error)
            && after.updatedAt == now
            && after.completedAt == (if u.completed then Some(now) else r.completedAt)
            && after.buffer == r.buffer
  {
  }

  /** The pipeline's calls, one by one. */
  lemma CallLeaves(r: Record, c: Call, now: string)
    ensures var after := CallEffect(r, c, now).record;
            && after.updatedAt == now
            && (match c
                case StartStep(step, message) =>
                  Leaves(after, Running, Some(step), Some(message), r.error) && after.completedAt == r.completedAt
                case Note(message) =>
                  Leaves(after, r.status, r.step, Some(message), r.error) && after.completedAt == r.completedAt
                case Succeed(message, _) =>
                  Leaves(after, Succeeded, Some("Completed"), Some(message), r.error) && after.completedAt == Some(now)
                case Fail(errorLabel, reason) =>
                  Leaves(after, Failed, Some("Failed"), Some(errorLabel + ": " + reason), Some(reason))
                  && after.completedAt == Some(now))
  {
    hide FormatLine, ValidId;
    UpdateLeaves(r, CallUpdate(c), now);
  }

  /** A cancellation leaves step and error as they were. */
  lemma CancelLeaves(r: Record, now: string)
    ensures var after := CancelRecord(r, now).record;
            && Leaves(after, Cancelled, r.step,
                      Some("Operation '" + r.id + "' was cancelled and background processes terminated."), r.error)
            && after.updatedAt == now && after.completedAt == Some(now)
  {
    hide FormatLine, ValidId;
  }

  /** The done-callback, for each way a task ends. */
  lemma CallbackLeaves(r: Record, outcome: Outcome, now: string)
    ensures var after := FinalizeRecord(r, outcome, now).record;
            && after.updatedAt == now && after.completedAt == Some(now)
            && (match outcome
                case WasCancelled =>
                  Leaves(after, Cancelled, Some("Cancelled"), Some("Operation '" + r.id + "' was cancelled."), r.error)
                case Raised(text) =>
                  Leaves(after, Failed, Some("Failed"), Some("Operation failed: " + text), Some(text))
                case Returned =>
                  Leaves(after, Failed, Some("Failed"),
                         Some("Operation failed: " + "Pipeline exited without reporting a final status."),
                         Some("Pipeline exited without reporting a final status.")))
  {
    hide FormatLine, ValidId;
  }

  /** A new record waits in the queue with the step and message it was given, and nothing else. */
  lemma RegisteredLeaves(id: string, target: string, step: string, message: string, maxLines: nat, now: string)
    ensures var r := NewRecord(id, target, step, message, maxLines, now);
            && Leaves(r, Queued, Some(step), Some(message), None)
            && r.id == id && r.target == target && r.maxLines == maxLines && r.updatedAt == now
            && r.completedAt == None && r.buffer == [] && r.task == None
  {
  }

  /** An id is refused if it is empty, or has a slash, a backslash or two dots in a row. */
  lemma RefusedIds(id: string)
    ensures !ValidId(id) <==>
              || id == "" || (exists i :: 0 <= i < |id| && (id[i] == '/' || id[i] == '\\'))
              || (exists i {:trigger id[i]} :: 0 <= i < |id| - 1 && id[i] == '.' && id[i + 1] == '.')
  {
    hide Contains;
    ContainsMeaning(id, "..");
    if i :| OccursAt(id, "..", i) {
      assert id[i] == id[i..][0] && id[i + 1] == id[i..][1];
    }
    if i {:trigger id[i]} :| 0 <= i < |id| - 1 && id[i] == '.' && id[i + 1] == '.' {
      assert id[i..][..2] == "..";
      assert OccursAt(id, "..", i);
    }
  }

  // ---------------------------------------------------------------- log lines

  /** A line is stamped unless it begins like a stamp; the blanks behind it go, and a blank line is nothing. */
  lemma StampedLine(line: string, blanks: string, now: string)
    requires Blank(blanks, PySpace) && line != "" && !PySpace(line[|line| - 1])
    ensures FormatLine(line + blanks, now)
         == Some(if |line| >= 3 && line[..3] == "[20" then line else "[" + now + "] " + line)
    ensures FormatLine(blanks, now) == None
  {
    TrimRightPadded(line, blanks, PySpace);
    TrimRightPadded("", blanks, PySpace);
    assert "" + blanks == blanks;
    assert "[20" <= line <==> |line| >= 3 && line[..3] == "[20";
  }

  /** What logging does with such a line: it is the newest in the buffer, and under an accepted id it is published. */
  lemma LoggedLine(r: Record, line: string, blanks: string, now: string)
    requires Blank(blanks, PySpace) && line != "" && !PySpace(line[|line| - 1])
    ensures var text := if |line| >= 3 && line[..3] == "[20" then line else "[" + now + "] " + line;
            var e := AppendLog(r, line + blanks, now);
            && e.record == r.(buffer := Newest(r.buffer + [text], r.maxLines))
            && e.published == (if ValidId(r.id) then [Line(text)] else [])
    ensures AppendLog(r, blanks, now) == Effect(r, [], [])
  {
    hide FormatLine, ValidId;
    StampedLine(line, blanks, now);
  }

  /** What the pipeline's calls send: nothing while it runs, the end marker at the end. A completion line comes after
      the marker. */
  lemma CallSays(r: Record, c: Call, line: string, now: string)
    requires line != "" && !PySpace(line[|line| - 1])
    ensures var e := CallEffect(r, c, now);
            var text := if |line| >= 3 && line[..3] == "[20" then line else "[" + now + "] " + line;
            match c
            case StartStep(_, _) => e.published == [] && e.record.buffer == r.buffer
            case Note(_) => e.published == [] && e.record.buffer == r.buffer
            case Fail(_, _) => e.published == [EndOfStream] && e.record.buffer == r.buffer
            case Succeed(_, None) => e.published == [EndOfStream] && e.record.buffer == r.buffer
            case Succeed(_, Some(completion)) =>
              completion == line ==>
                && e.published == [EndOfStream] + (if ValidId(r.id) then [Line(text)] else [])
                && e.record.buffer == Newest(r.buffer + [text], r.maxLines)
  {
    hide FormatLine, ValidId, AppendLog;
    var updated := UpdateRecord(r, CallUpdate(c), now).record;
    LoggedLine(updated, line, "", now);
    assert line + "" == line;
  }

  lemma CancelText()
    ensures CANCELLED_BY_USER == "Operation cancelled by user request."
    ensures |CANCELLED_BY_USER| > 0 && !PySpace(CANCELLED_BY_USER[|CANCELLED_BY_USER| - 1])
  {
  }

  /** Under an accepted id, with a clock of this century: what the streams of a cancelled operation end with. */
  lemma CancelSays(r: Record, now: string)
    requires ValidId(r.id) && |now| >= 2 && now[..2] == "20"
    ensures CancelRecord(r, now).published == [Line("[" + now + "] " + CANCELLED_BY_USER), EndOfStream]
  {
    CancelText();
    hide ValidId, FormatLine, CANCELLED_BY_USER, AppendLog, PySpace;
    var line := CancelLine(now);
    CancelStamp(now);
    LoggedLine(MarkedCancelled(r, now), line, "", now);
    assert line + "" == line;
  }

  lemma CancelStamp(now: string)
    requires |now| >= 2 && now[..2] == "20"
    requires |CANCELLED_BY_USER| > 0
    ensures var line := CancelLine(now);
            |line| >= 3 && line[..3] == "[20" && line[|line| - 1] == CANCELLED_BY_USER[|CANCELLED_BY_USER| - 1]
  {
    hide CANCELLED_BY_USER;
    var line := CancelLine(now);
    assert now[0] == now[..2][0] && now[1] == now[..2][1];
    assert line[..3] == ['[', now[0], now[1]];
  }

  /** And with what those of an operation end whose task ended without reporting. */
  lemma CallbackSays(r: Record, outcome: Outcome, now: string)
    requires ValidId(r.id)
    requires outcome.Raised? ==> outcome.text != "" && !PySpace(outcome.text[|outcome.text| - 1])
    ensures FinalizeRecord(r, outcome, now).published
         == [Line("[" + now + "] " + FinalizeRecord(r, outcome, now).record.message.value), EndOfStream]
  {
    hide ValidId, FormatLine;
    var marked := MarkedFinalized(r, outcome, now);
    var line := marked.message.value;
    assert line + "" == line && line[0] == 'O' && line[..3][0] == 'O';
    LoggedLine(marked, line, "", now);
  }

  // ---------------------------------------------------------------- why a record ended

  /** The step grants the lock to a pipeline call. */
  predicate GrantsCall(s: State, e: Event) {
    && e.Grant? && e.index < |s.waiters| && s.waiters[e.index].ForTask?
    && s.waiters[e.index].tid < |s.tasks| && s.tasks[s.waiters[e.index].tid].state.AtLock?
  }

  function CallOf(s: State, e: Event): Call
    requires GrantsCall(s, e)
  {
    s.tasks[s.waiters[e.index].tid].state.call
  }

  predicate GrantsCancel(s: State, e: Event) {
    e.Grant? && e.index < |s.waiters| && s.waiters[e.index].ForCancel?
  }

  /** The step runs a done-callback. */
  predicate RunsCallback(s: State, e: Event) {
    e.Callback? && e.tid < |s.tasks| && s.tasks[e.tid].state.Ended?
  }

  /** A granted call leaves its task's record as the call says. */
  lemma CallGranted(s: State, e: Event)
    requires Inv(s) && Enabled(s, e) && GrantsCall(s, e)
    ensures var rid := s.tasks[s.waiters[e.index].tid].rid;
            && rid < |s.entries| && rid < |Next(s, e).entries|
            && Next(s, e).entries[rid].record == CallEffect(s.entries[rid].record, CallOf(s, e), e.now).record
  {
    hide Inv, CallEffect, ValidId;
    ActingTaskOwnsCurrentInv(s, s.waiters[e.index].tid);
  }

  lemma CancelGranted(s: State, e: Event, r: nat)
    requires Inv(s) && Enabled(s, e) && GrantsCancel(s, e)
    requires r < |s.entries| && r < |Next(s, e).entries| && Next(s, e).entries[r] != s.entries[r]
    ensures Next(s, e).entries[r].record == CancelRecord(s.entries[r].record, e.now).record
  {
    hide Inv, CancelRecord, ValidId;
  }

  lemma CallbackRun(s: State, e: Event, r: nat)
    requires Inv(s) && Enabled(s, e) && RunsCallback(s, e)
    requires r < |s.entries| && r < |Next(s, e).entries| && Next(s, e).entries[r] != s.entries[r]
    ensures Next(s, e).entries[r].record
         == FinalizeRecord(s.entries[r].record, s.tasks[e.tid].state.outcome, e.now).record
  {
    hide Inv, FinalizeRecord, ValidId;
  }

  /** Steps of other kinds end nothing. */
  lemma OthersEndNothing(s: State, e: Event, r: nat)
    requires Inv(s) && Enabled(s, e) && !GrantsCall(s, e) && !GrantsCancel(s, e) && !RunsCallback(s, e)
    requires r < |s.entries|
    ensures r < |Next(s, e).entries| && StatusOf(Next(s, e), r) == StatusOf(s, r)
  {
    hide Inv, ValidId, FormatLine, Conflict, FinishRegistration;
    if e.FinishRegister? {
      FinishUnfolds(s, e.initLine);
    } else if e.Log? {
      LogKeepsStatus(s, e.tid, e.line, e.now, r);
    }
  }

  lemma LogKeepsStatus(s: State, tid: TaskId, line: string, now: string, r: nat)
    requires Free(s, tid) && r < |s.entries|
    ensures r < |LogLine(s, tid, line, now).entries| && StatusOf(LogLine(s, tid, line, now), r) == StatusOf(s, r)
  {
    hide FormatLine, ValidId;
  }

  /** The record goes from active to terminal. */
  predicate EndsBy(s: State, e: Event, r: nat)
    requires Enabled(s, e)
  {
    && r < |s.entries| && r < |Next(s, e).entries|
    && Active(StatusOf(s, r)) && Terminal(StatusOf(Next(s, e), r))
  }

  /** If a step ends a record it is a final call granted, a cancellation granted, or a callback. */
  lemma EndedByKind(s: State, e: Event, r: nat)
    requires Inv(s) && Enabled(s, e) && EndsBy(s, e, r)
    ensures GrantsCall(s, e) || GrantsCancel(s, e) || RunsCallback(s, e)
  {
    hide Inv, Next, Enabled;
    if !GrantsCall(s, e) && !GrantsCancel(s, e) && !RunsCallback(s, e) { OthersEndNothing(s, e, r); }
  }

  /** A step that ends a record grants a call of its own task: no other record changes. */
  lemma EndedRecordIsOwn(s: State, e: Event, r: nat)
    requires Inv(s) && Enabled(s, e) && EndsBy(s, e, r) && GrantsCall(s, e)
    ensures r == s.tasks[s.waiters[e.index].tid].rid
  {
    hide Inv, Next, Enabled;
    TaskTouchesOnlyItsRecord(s, e, r);
  }

  /** Why a record ended, from the step alone. It succeeded exactly if a successful end was granted; it failed exactly
      if a failure was granted or a callback found its task raised or returned; it was cancelled exactly if a
      cancellation was granted or a callback found its task cancelled. */
  lemma WhyItEnded(s: State, e: Event, r: nat)
    requires Inv(s) && Enabled(s, e) && EndsBy(s, e, r)
    ensures var status := StatusOf(Next(s, e), r);
            && (status == Succeeded <==> GrantsCall(s, e) && CallOf(s, e).Succeed?)
            && (status == Failed <==>
                  || (GrantsCall(s, e) && CallOf(s, e).Fail?)
                  || (RunsCallback(s, e) && !s.tasks[e.tid].state.outcome.WasCancelled?))
            && (status == Cancelled <==>
                  || GrantsCancel(s, e)
                  || (RunsCallback(s, e) && s.tasks[e.tid].state.outcome.WasCancelled?))
  {
    hide Inv, Next, Enabled, CallEffect, CancelRecord, FinalizeRecord;
    EndedByKind(s, e, r);
    if GrantsCall(s, e) {
      EndedRecordIsOwn(s, e, r);
      CallGranted(s, e);
      CallLeaves(s.entries[r].record, CallOf(s, e), e.now);
    } else if GrantsCancel(s, e) {
      CancelGranted(s, e, r);
      CancelLeaves(s.entries[r].record, e.now);
    } else {
      CallbackRun(s, e, r);
      CallbackLeaves(s.entries[r].record, s.tasks[e.tid].state.outcome, e.now);
    }
  }

  /** And the other way round: a granted final call ends its task's record. */
  lemma FinalCallEnds(s: State, e: Event)
    requires Inv(s) && Enabled(s, e) && GrantsCall(s, e)
    ensures EndsBy(s, e, s.tasks[s.waiters[e.index].tid].rid) <==> CallOf(s, e).Succeed? || CallOf(s, e).Fail?
  {
    hide Inv, Next, CallEffect, Ends, GoesOn;
    var rid := s.tasks[s.waiters[e.index].tid].rid;
    ActingTaskOwnsCurrentInv(s, s.waiters[e.index].tid);
    CallGranted(s, e);
    CallLeaves(s.entries[rid].record, CallOf(s, e), e.now);
  }

  /** The pipeline's own look at whether it was cancelled never finds that it was: a cancelled task takes no further
      step, so a call that is asked for always waits for the lock. */
  lemma CancelledLookNeverFires(s: State, tid: TaskId, call: Call)
    requires Inv(s) && Free(s, tid)
    ensures Next(s, RequestUpdate(tid, call))
         == s.(tasks := s.tasks[tid := s.tasks[tid].(state := AtLock(call))], waiters := s.waiters + [ForTask(tid)])
  {
    hide Inv, ValidId;
    ActingTaskOwnsCurrentInv(s, tid);
  }
}
