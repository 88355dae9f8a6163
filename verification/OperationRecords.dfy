/**
  Operation records as values, and what each atomic region of OperationManager
  does to one record and to the streams of its subscribers.
*/
module OperationRecords {
  import opened Wrappers
  import opened Text

  datatype Status = Queued | Running | Succeeded | Failed | Cancelled

  predicate Active(s: Status) { s.Queued? || s.Running? }

  predicate Terminal(s: Status) { s.Succeeded? || s.Failed? || s.Cancelled? }

  /** QUEUED below RUNNING below the three final states. */
  function Rank(s: Status): nat {
    if s.Queued? then 0 else if s.Running? then 1 else 2
  }

  /** What subscribers are sent: log lines, and None at the end of the stream. */
  datatype Item = Line(text: string) | EndOfStream

  type TaskId = nat

  datatype Record = Record(id: string, target: string, status: Status, step: Option<string>, message: Option<string>,
                           error: Option<string>, updatedAt: string, completedAt: Option<string>,
                           buffer: seq<string>, maxLines: nat, task: Option<TaskId>)

  /** The arguments of update_operation. */
  datatype Update = Update(status: Option<Status>, step: Option<string>, message: Option<string>,
                           error: Option<string>, completed: bool)

  /** How the background task ended. */
  datatype Outcome = WasCancelled | Raised(text: string) | Returned

  /** A changed record, the items its subscribers are sent, and the lines its buffer is given, in order. */
  datatype Effect = Effect(record: Record, published: seq<Item>, buffered: seq<string>)

  /** Places in a subscriber's queue. */
  const QUEUE_SIZE: nat := 100

  /** The last `n` elements: what a bounded deque or queue keeps. */
  function Newest<T>(s: seq<T>, n: nat): (r: seq<T>)
    ensures |r| <= n && |r| <= |s| && r == s[|s| - |r|..]
    ensures |r| == if |s| <= n then |s| else n
  {
    if |s| <= n then s else s[|s| - n..]
  }

  /** Trimming as one goes is trimming once. */
  lemma NewestStep<T>(s: seq<T>, x: T, n: nat)
    ensures Newest(Newest(s, n) + [x], n) == Newest(s + [x], n)
  {
  }

  function Offer(queue: seq<Item>, item: Item): (q: seq<Item>)
    ensures |q| <= QUEUE_SIZE
  {
    Newest(queue + [item], QUEUE_SIZE)
  }

  function OfferAll(queue: seq<Item>, items: seq<Item>): seq<Item> {
    if items == [] then queue else Offer(OfferAll(queue, items[..|items| - 1]), items[|items| - 1])
  }

  // ---------------------------------------------------------------- new records

  function NewRecord(id: string, target: string, step: string, message: string, maxLines: nat, now: string): Record {
    Record(id, target, Queued, Some(step), Some(message), None, now, None, [], maxLines, None)
  }

  predicate ValidId(id: string) {
    id != "" && '/' !in id && '\\' !in id && !Contains(id, "..")
  }

  // ---------------------------------------------------------------- regions

  function Keep<T>(change: Option<T>, was: Option<T>): Option<T> {
    if change.Some? then change else was
  }

  function UpdateRecord(r: Record, u: Update, now: string): Effect {
    var changed := r.(updatedAt := now, status := if u.status.Some? then u.status.value else r.status,
                      step := Keep(u.step, r.step), message := Keep(u.message, r.message),
                      error := Keep(u.error, r.error));
    if u.completed then Effect(changed.(completedAt := Some(now)), [EndOfStream], []) else Effect(changed, [], [])
  }

  /** The stamped line append_log writes, or nothing for blank text. */
  function FormatLine(line: string, now: string): Option<string> {
    var text := TrimRight(line, PySpace);
    if text == "" then None
    else if "[20" <= text then Some(text)
    else Some("[" + now + "] " + text)
  }

  function Buffer(r: Record, text: string): Record {
    r.(buffer := Newest(r.buffer + [text], r.maxLines))
  }

  /** The line is buffered before the path of the log file is asked for: with a refused id that raises, and
      the line is not published. */
  function AppendLog(r: Record, line: string, now: string): Effect {
    match FormatLine(line, now)
    case None => Effect(r, [], [])
    case Some(text) => Effect(Buffer(r, text), if ValidId(r.id) then [Line(text)] else [], [text])
  }

  predicate LogRaises(r: Record, line: string, now: string) {
    !ValidId(r.id) && FormatLine(line, now).Some?
  }

  /** One effect after another. */
  function Then(first: Effect, second: Effect): Effect {
    Effect(second.record, first.published + second.published, first.buffered + second.buffered)
  }

  /** A last line, then the end marker, which is not reached when logging raises. */
  function LogAndClose(r: Record, line: string, now: string): Effect {
    var logged := AppendLog(r, line, now);
    if LogRaises(r, line, now) then logged else Then(logged, Effect(logged.record, [EndOfStream], []))
  }

  function CancelMessage(id: string): string {
    "Operation '" + id + "' was cancelled and background processes terminated."
  }

  const CANCELLED_BY_USER: string := "Operation cancelled by user request."

  function CancelLine(now: string): string {
    "[" + now + "] " + CANCELLED_BY_USER
  }

  function MarkedCancelled(r: Record, now: string): Record {
    r.(status := Cancelled, completedAt := Some(now), message := Some(CancelMessage(r.id)), updatedAt := now)
  }

  function CancelRecord(r: Record, now: string): Effect {
    LogAndClose(MarkedCancelled(r, now), CancelLine(now), now)
  }

  const NO_STATUS: string := "Pipeline exited without reporting a final status."

  /** The record of a task that ended without reporting: its status, step, error and message. */
  function Finalized(r: Record, outcome: Outcome): Record {
    match outcome
    case WasCancelled =>
      r.(status := Cancelled, step := Some("Cancelled"), message := Some("Operation '" + r.id + "' was cancelled."))
    case Raised(text) =>
      r.(status := Failed, step := Some("Failed"), error := Some(text), message := Some("Operation failed: " + text))
    case Returned =>
      r.(status := Failed, step := Some("Failed"), error := Some(NO_STATUS),
         message := Some("Operation failed: " + NO_STATUS))
  }

  function MarkedFinalized(r: Record, outcome: Outcome, now: string): (m: Record)
    ensures m.message.Some?
  {
    Finalized(r, outcome).(updatedAt := now, completedAt := Some(now))
  }

  function FinalizeRecord(r: Record, outcome: Outcome, now: string): Effect {
    var marked := MarkedFinalized(r, outcome, now);
    LogAndClose(marked, marked.message.value, now)
  }

  // ---------------------------------------------------------------- the pipeline's calls

  /** The update_operation calls of the runner. */
  datatype Call =
    | StartStep(step: string, message: string)
    | Note(message: string)
    | Succeed(message: string, completionLine: Option<string>)
    | Fail(errorLabel: string, reason: string)

  /** Calls made behind a look at whether the operation was cancelled. */
  predicate Guarded(c: Call) { !c.Note? }

  /** Calls that end the pipeline. */
  predicate Final(c: Call) { c.Succeed? || c.Fail? }

  function CallUpdate(c: Call): Update {
    match c
    case StartStep(step, message) => Update(Some(Running), Some(step), Some(message), None, false)
    case Note(message) => Update(None, None, Some(message), None, false)
    case Succeed(message, _) => Update(Some(Succeeded), Some("Completed"), Some(message), None, true)
    case Fail(errorLabel, reason) =>
      Update(Some(Failed), Some("Failed"), Some(errorLabel + ": " + reason), Some(reason), true)
  }

  /** The region from the lock being granted to the next suspension or the end. */
  function CallEffect(r: Record, c: Call, now: string): Effect {
    var updated := UpdateRecord(r, CallUpdate(c), now);
    if c.Succeed? && c.completionLine.Some? then
      Then(updated, AppendLog(updated.record, c.completionLine.value, now))
    else
      updated
  }

  // ---------------------------------------------------------------- two kinds of effect

  function Texts(items: seq<Item>): seq<string> {
    if items == [] then []
    else
      var last := items[|items| - 1];
      Texts(items[..|items| - 1]) + (if last.Line? then [last.text] else [])
  }

  predicate OnlyLines(items: seq<Item>) {
    forall i :: 0 <= i < |items| ==> items[i].Line?
  }

  /** Exactly one end marker, with at most one item after it. */
  ghost predicate Sealed(items: seq<Item>) {
    exists n :: SealedAt(items, n)
  }

  ghost predicate SealedAt(items: seq<Item>, n: int) {
    && 0 <= n < |items| && n + 2 >= |items|
    && items[n].EndOfStream?
    && forall i :: 0 <= i < |items| && i != n ==> items[i].Line?
  }

  predicate SameIdentity(a: Record, b: Record) {
    a.id == b.id && a.target == b.target && a.maxLines == b.maxLines && a.task == b.task
  }

  /** The buffer is given its lines within its bound; under an accepted id they are those sent. */
  ghost predicate Buffers(r: Record, e: Effect) {
    && e.record.buffer == Newest(r.buffer + e.buffered, r.maxLines)
    && (ValidId(r.id) ==> e.buffered == Texts(e.published))
  }

  /** The operation goes on: only lines are sent and it stays active. */
  ghost predicate GoesOn(r: Record, e: Effect) {
    && SameIdentity(r, e.record) && OnlyLines(e.published) && Buffers(r, e)
    && Active(e.record.status) && Rank(r.status) <= Rank(e.record.status) && e.record.completedAt.None?
  }

  /** The operation ends: the stream is closed, once, and the record is terminal. */
  ghost predicate Ends(r: Record, e: Effect) {
    && SameIdentity(r, e.record) && Sealed(e.published) && Buffers(r, e)
    && Terminal(e.record.status) && e.record.completedAt.Some?
  }

  /** The operation ends with a last line in its buffer, but nobody is told. */
  ghost predicate EndsSilently(r: Record, e: Effect) {
    && SameIdentity(r, e.record) && e.published == [] && Buffers(r, e)
    && Terminal(e.record.status) && e.record.completedAt.Some? && |e.buffered| == 1
  }

  /** The deque never holds more than it may. */
  predicate Bounded(r: Record) { |r.buffer| <= r.maxLines }

  lemma {:induction false} TextsConcat(a: seq<Item>, b: seq<Item>)
    ensures Texts(a + b) == Texts(a) + Texts(b)
    decreases |b|
  {
    if b == [] {
      assert a + b == a;
    } else {
      var front, last := b[..|b| - 1], b[|b| - 1];
      TextsConcat(a, front);
      assert (a + b)[..|a + b| - 1] == a + front && (a + b)[|a + b| - 1] == last;
      assert Texts(a) + (Texts(front) + (if last.Line? then [last.text] else [])) == Texts(a + b);
    }
  }

  /** Lines, the end marker, and at most one more line. */
  lemma SealAround(before: seq<Item>, after: seq<Item>)
    requires OnlyLines(before) && OnlyLines(after) && |after| <= 1
    ensures Sealed(before + [EndOfStream] + after)
    ensures Texts(before + [EndOfStream] + after) == Texts(before) + Texts(after)
  {
    var items := before + [EndOfStream] + after;
    assert SealedAt(items, |before|);
    TextsConcat(before + [EndOfStream], after);
    TextsConcat(before, [EndOfStream]);
    assert [EndOfStream][..0] == [];
  }

  /** The items of one logged line, and what they leave in the buffer. */
  lemma LineTexts(r: Record, line: string, now: string)
    requires Bounded(r)
    ensures var e := AppendLog(r, line, now);
            && OnlyLines(e.published) && |e.published| <= 1
            && e.record == r.(buffer := e.record.buffer)
            && Buffers(r, e)
            && |e.buffered| == (if FormatLine(line, now).Some? then 1 else 0)
            && (!ValidId(r.id) ==> e.published == [])
  {
    hide FormatLine, ValidId;
    var e := AppendLog(r, line, now);
    NoLines();
    if e.buffered == [] {
      assert r.buffer + [] == r.buffer;
    } else if ValidId(r.id) {
      var p := e.published;
      assert p[..0] == [];
      assert Texts(p) == [p[0].text];
    }
  }

  lemma AppendLogGoesOn(r: Record, line: string, now: string)
    requires Active(r.status) && r.completedAt.None? && Bounded(r)
    ensures GoesOn(r, AppendLog(r, line, now))
  {
    hide AppendLog, ValidId, FormatLine, OnlyLines, Texts;
    LineTexts(r, line, now);
  }

  /** Text that does not begin with white space is not blank. */
  lemma {:induction false} NotBlank(line: string, now: string)
    requires line != "" && !PySpace(line[0])
    ensures FormatLine(line, now).Some?
    decreases |line|
  {
    if PySpace(line[|line| - 1]) {
      NotBlank(line[..|line| - 1], now);
    }
  }

  /** A granted cancellation ends the operation, but without a word exactly when its id was refused. */
  lemma CancelEnds(r: Record, now: string)
    requires Bounded(r)
    ensures ValidId(r.id) ==> Ends(r, CancelRecord(r, now))
    ensures !ValidId(r.id) ==> EndsSilently(r, CancelRecord(r, now))
  {
    hide LogAndClose, Ends, EndsSilently, ValidId, FormatLine;
    NotBlank(CancelLine(now), now);
    CloseAfterLine(r, MarkedCancelled(r, now), CancelLine(now), now);
  }

  /** So does the done-callback. */
  lemma FinalizeEnds(r: Record, outcome: Outcome, now: string)
    requires Bounded(r)
    ensures ValidId(r.id) ==> Ends(r, FinalizeRecord(r, outcome, now))
    ensures !ValidId(r.id) ==> EndsSilently(r, FinalizeRecord(r, outcome, now))
  {
    hide LogAndClose, Ends, EndsSilently, ValidId, FormatLine;
    var marked := MarkedFinalized(r, outcome, now);
    NotBlank(marked.message.value, now);
    CloseAfterLine(r, marked, marked.message.value, now);
  }

  /** A log line, then the end marker. */
  lemma CloseAfterLine(r: Record, marked: Record, line: string, now: string)
    requires Bounded(r) && SameIdentity(r, marked) && marked.buffer == r.buffer
    requires Terminal(marked.status) && marked.completedAt.Some?
    requires FormatLine(line, now).Some?
    ensures ValidId(r.id) ==> Ends(r, LogAndClose(marked, line, now))
    ensures !ValidId(r.id) ==> EndsSilently(r, LogAndClose(marked, line, now))
  {
    hide AppendLog, Sealed, OnlyLines, Texts, ValidId, FormatLine;
    var logged := AppendLog(marked, line, now);
    LineTexts(marked, line, now);
    NoLines();
    SealAround(logged.published, []);
    assert logged.published + [EndOfStream] + [] == logged.published + [EndOfStream];
    assert Texts(logged.published) + [] == Texts(logged.published);
    assert logged.buffered + [] == logged.buffered;
  }

  lemma NoLines()
    ensures OnlyLines([]) && Texts([]) == []
  {
  }

  /** The end marker, then at most one log line. */
  lemma LineAfterClose(r: Record, marked: Record, line: string, now: string)
    requires Bounded(r) && SameIdentity(r, marked) && marked.buffer == r.buffer
    requires Terminal(marked.status) && marked.completedAt.Some?
    ensures Ends(r, Then(Effect(marked, [EndOfStream], []), AppendLog(marked, line, now)))
    ensures Ends(r, Effect(marked, [EndOfStream], []))
  {
    hide AppendLog, Sealed, OnlyLines, Texts, ValidId, FormatLine;
    var logged := AppendLog(marked, line, now);
    LineTexts(marked, line, now);
    NoLines();
    SealAround([], logged.published);
    assert [] + [EndOfStream] + logged.published == [EndOfStream] + logged.published;
    assert [] + Texts(logged.published) == Texts(logged.published);
    assert [] + logged.buffered == logged.buffered;
    SealAround([], []);
    assert [] + [EndOfStream] + [] == [EndOfStream];
    assert r.buffer + [] == r.buffer;
  }

  /** Every call of the pipeline either goes on or ends the operation. */
  lemma CallGoesOnOrEnds(r: Record, c: Call, now: string)
    requires Active(r.status) && r.completedAt.None? && Bounded(r)
    ensures Final(c) ==> Ends(r, CallEffect(r, c, now))
    ensures !Final(c) ==> GoesOn(r, CallEffect(r, c, now))
  {
    hide AppendLog, Ends, ValidId, Texts;
    var updated := UpdateRecord(r, CallUpdate(c), now);
    if Final(c) {
      var line := if c.Succeed? && c.completionLine.Some? then c.completionLine.value else "";
      LineAfterClose(r, updated.record, line, now);
    } else {
      NoLines();
      assert r.buffer + [] == r.buffer;
    }
  }
}
