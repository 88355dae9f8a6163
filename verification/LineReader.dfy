/**
  The loop of ProcessRunner._execute_command that turns a subprocess's output,
  read in chunks of at most 64 KiB, into log lines, against one split of the
  whole output.
*/
module LineReader {
  import opened Text

  newtype Byte = x: int | 0 <= x < 256
  type Bytes = seq<Byte>

  const NEWLINE: Byte := 10
  /** Most bytes one read returns. */
  const CHUNK_SIZE: nat := 65536
  /** A partial line longer than this is logged without waiting for its end. */
  const LINE_LIMIT: nat := 1024 * 1024

  /** A stretch of output that was logged, and why it ended where it did. */
  datatype Segment = Line(bytes: Bytes) | Overflow(bytes: Bytes) | Tail(bytes: Bytes)

  function Flatten(chunks: seq<Bytes>): Bytes {
    if chunks == [] then [] else Flatten(chunks[..|chunks| - 1]) + chunks[|chunks| - 1]
  }

  /** The output bytes a segment stands for. */
  function Covered(s: Segment): Bytes {
    if s.Line? then s.bytes + [NEWLINE] else s.bytes
  }

  function Uncut(segs: seq<Segment>): Bytes {
    if segs == [] then [] else Uncut(segs[..|segs| - 1]) + Covered(segs[|segs| - 1])
  }

  function Pieces(segs: seq<Segment>): seq<Bytes> {
    if segs == [] then [] else Pieces(segs[..|segs| - 1]) + [segs[|segs| - 1].bytes]
  }

  predicate NewlineFree(segs: seq<Segment>) {
    forall s :: s in segs ==> NEWLINE !in s.bytes
  }

  predicate HasOverflow(segs: seq<Segment>) {
    exists s :: s in segs && s.Overflow?
  }

  /** The log line for one stretch of output; none when it is blank. */
  function LogLine(bytes: Bytes, decode: Bytes -> string): seq<string> {
    var line := TrimRight(decode(bytes), PySpace);
    if line == [] then [] else [line]
  }

  function NonBlank(pieces: seq<Bytes>, decode: Bytes -> string): seq<string> {
    if pieces == [] then []
    else NonBlank(pieces[..|pieces| - 1], decode) + LogLine(pieces[|pieces| - 1], decode)
  }

  /** What has been received since the last newline. */
  function Pending(output: Bytes): Bytes {
    var parts := Split(output, NEWLINE);
    parts[|parts| - 1]
  }

  /** After the first `k` chunks the unfinished line is over the limit. */
  predicate PendingIsLong(chunks: seq<Bytes>, k: int) {
    0 <= k <= |chunks| && |Pending(Flatten(chunks[..k]))| > 1_048_576
  }

  /** At the end of some chunk among the first `n`, the unfinished line is over the limit. */
  ghost predicate LongPending(chunks: seq<Bytes>, n: nat)
    requires n <= |chunks|
  {
    exists k :: 0 <= k <= n && PendingIsLong(chunks, k)
  }

  ghost predicate NoLongLine(output: Bytes) {
    forall line :: line in Split(output, NEWLINE) ==> |line| <= 1_048_576
  }

  method FindNewline(buffer: Bytes) returns (pos: nat)
    requires NEWLINE in buffer
    ensures pos < |buffer| && buffer[pos] == NEWLINE && NEWLINE !in buffer[..pos]
  {
    pos := 0;
    while buffer[pos] != NEWLINE
      invariant pos < |buffer| && NEWLINE !in buffer[..pos]
      decreases |buffer| - pos
    {
      pos := pos + 1;
    }
  }

  /** What was logged and what is still buffered account for the output read so far. */
  ghost predicate Accounted(segs: seq<Segment>, buffer: Bytes, log: seq<string>, output: Bytes,
                            decode: Bytes -> string) {
    && Uncut(segs) + buffer == output
    && NewlineFree(segs)
    && log == NonBlank(Pieces(segs), decode)
  }

  /** Without a forced cut, the lines of the output are what was logged and the lines of the buffer. */
  ghost predicate Unbroken(segs: seq<Segment>, buffer: Bytes, output: Bytes) {
    !HasOverflow(segs) ==> Split(output, NEWLINE) == Pieces(segs) + Split(buffer, NEWLINE)
  }

  /** The inner loop: every complete line in the buffer is logged and removed. */
  method DrainLines(buffer0: Bytes, segs0: seq<Segment>, log0: seq<string>, ghost output: Bytes,
                    decode: Bytes -> string)
    returns (buffer: Bytes, segs: seq<Segment>, log: seq<string>)
    requires Accounted(segs0, buffer0, log0, output, decode) && Unbroken(segs0, buffer0, output)
    ensures Accounted(segs, buffer, log, output, decode) && Unbroken(segs, buffer, output)
    ensures NEWLINE !in buffer && |buffer| <= |buffer0|
    ensures HasOverflow(segs) <==> HasOverflow(segs0)
  {
    hide *;
    buffer, segs, log := buffer0, segs0, log0;
    while NEWLINE in buffer
      invariant Accounted(segs, buffer, log, output, decode) && Unbroken(segs, buffer, output)
      invariant |buffer| <= |buffer0|
      invariant HasOverflow(segs) <==> HasOverflow(segs0)
      decreases |buffer|
    {
      var pos := FindNewline(buffer);
      var lineBytes := buffer[..pos];
      assert buffer == lineBytes + [NEWLINE] + buffer[pos + 1..];
      TakeLine(segs, lineBytes, buffer[pos + 1..], log, output, decode);
      TakeUnbroken(segs, lineBytes, buffer[pos + 1..], output);
      buffer := buffer[pos + 1..];
      log, segs := log + LogLine(lineBytes, decode), segs + [Line(lineBytes)];
    }
  }

  /** `peak` is the most bytes the buffer ever held. */
  method StreamOutput(chunks: seq<Bytes>, decode: Bytes -> string)
    returns (log: seq<string>, segs: seq<Segment>, peak: nat)
    requires forall c :: c in chunks ==> 0 < |c| <= CHUNK_SIZE
    requires decode([]) == []
    ensures Uncut(segs) == Flatten(chunks)
    ensures NewlineFree(segs)
    ensures log == NonBlank(Pieces(segs), decode)
    ensures peak <= 1_048_576 + 65_536
    ensures HasOverflow(segs) <==> LongPending(chunks, |chunks|)
    ensures !LongPending(chunks, |chunks|) ==> log == NonBlank(Split(Flatten(chunks), NEWLINE), decode)
    ensures NoLongLine(Flatten(chunks)) ==> log == NonBlank(Split(Flatten(chunks), NEWLINE), decode)
  {
    hide *;
    Limits();
    log, segs, peak := [], [], 0;
    var buffer: Bytes := [];
    ghost var output: Bytes := [];
    Start(chunks, decode);
    var i := 0;
    while i < |chunks|
      invariant 0 <= i <= |chunks|
      invariant output == Flatten(chunks[..i])
      invariant Accounted(segs, buffer, log, output, decode) && Unbroken(segs, buffer, output)
      invariant NEWLINE !in buffer && |buffer| <= LINE_LIMIT && peak <= LINE_LIMIT + CHUNK_SIZE
      invariant HasOverflow(segs) <==> LongPending(chunks, i)
    {
      Extend(segs, buffer, log, output, chunks[i], decode);
      ExtendUnbroken(segs, buffer, output, chunks[i]);
      buffer := buffer + chunks[i];
      if |buffer| > peak { peak := |buffer|; }
      FlattenStep(chunks, i);
      output := output + chunks[i];
      buffer, segs, log := DrainLines(buffer, segs, log, output, decode);
      Boundary(chunks, i, segs, buffer);
      if |buffer| > LINE_LIMIT {
        CutLine(segs, buffer, log, output, decode);
        CutOverflows(segs, buffer, output);
        log, segs := log + LogLine(buffer, decode), segs + [Overflow(buffer)];
        buffer := [];
      }
      i := i + 1;
    }
    assert chunks[..i] == chunks;
    AtEnd(segs, buffer, log, output, decode);
    AtEndUnbroken(segs, buffer, log, output, decode);
    Settled(segs, buffer, if buffer == [] then log else log + LogLine(buffer, decode), output, decode);
    if buffer != [] {
      log, segs := log + LogLine(buffer, decode), segs + [Tail(buffer)];
    }
    if NoLongLine(Flatten(chunks)) { ShortLinesNeverOverflow(chunks); }
  }

  /** 1 MiB and 64 KiB. */
  lemma Limits()
    ensures LINE_LIMIT == 1_048_576 && CHUNK_SIZE == 65_536
  {
  }

  lemma Start(chunks: seq<Bytes>, decode: Bytes -> string)
    ensures Flatten(chunks[..0]) == []
    ensures Accounted([], [], [], [], decode) && Unbroken([], [], [])
    ensures !HasOverflow([]) && !LongPending(chunks, 0)
  {
    assert chunks[..0] == [];
  }

  lemma FlattenStep(chunks: seq<Bytes>, i: nat)
    requires i < |chunks|
    ensures Flatten(chunks[..i + 1]) == Flatten(chunks[..i]) + chunks[i]
  {
    assert chunks[..i + 1][..i] == chunks[..i];
  }

  /** A stretch of output is one log line, without the blanks behind it, or none when it is all blank. */
  lemma LogLineMeaning(bytes: Bytes, decode: Bytes -> string, text: string, blanks: string)
    requires decode(bytes) == text + blanks && Blank(blanks, PySpace)
    requires text == "" || !PySpace(text[|text| - 1])
    ensures LogLine(bytes, decode) == if text == "" then [] else [text]
  {
    TrimRightPadded(text, blanks, PySpace);
  }

  lemma NonBlankPrefix(pieces: seq<Bytes>, last: Bytes, decode: Bytes -> string)
    ensures NonBlank(pieces + [last], decode) == NonBlank(pieces, decode) + LogLine(last, decode)
  {
    assert (pieces + [last])[..|pieces|] == pieces;
  }

  lemma OneMore(segs: seq<Segment>, s: Segment)
    ensures Pieces(segs + [s]) == Pieces(segs) + [s.bytes]
    ensures HasOverflow(segs + [s]) <==> HasOverflow(segs) || s.Overflow?
  {
    var all := segs + [s];
    assert all[..|segs|] == segs && s in all;
    assert forall t :: t in all <==> t in segs || t == s;
  }

  /** The effect of logging one more stretch on every account kept of the segments. */
  lemma Logged(segs: seq<Segment>, s: Segment, decode: Bytes -> string)
    ensures Uncut(segs + [s]) == Uncut(segs) + Covered(s)
    ensures NonBlank(Pieces(segs + [s]), decode) == NonBlank(Pieces(segs), decode) + LogLine(s.bytes, decode)
    ensures NewlineFree(segs + [s]) <==> NewlineFree(segs) && NEWLINE !in s.bytes
  {
    var all := segs + [s];
    assert all[..|segs|] == segs;
    OneMore(segs, s);
    NonBlankPrefix(Pieces(segs), s.bytes, decode);
    assert s in all;
    assert forall t :: t in all <==> t in segs || t == s;
  }

  lemma Associate<T>(a: seq<T>, b: seq<T>, c: seq<T>)
    ensures a + (b + c) == a + b + c
  {
  }

  lemma GluePrefix<T>(front: seq<seq<T>>, last: seq<seq<T>>, more: seq<seq<T>>)
    requires |last| >= 1 && |more| >= 1
    ensures Glue(front + last, more) == front + Glue(last, more)
  {
  }

  lemma ExtendSplit(pieces: seq<Bytes>, buffer: Bytes, output: Bytes, chunk: Bytes)
    requires Split(output, NEWLINE) == pieces + Split(buffer, NEWLINE)
    ensures Split(output + chunk, NEWLINE) == pieces + Split(buffer + chunk, NEWLINE)
  {
    SplitAppend(output, chunk, NEWLINE);
    SplitAppend(buffer, chunk, NEWLINE);
    GluePrefix(pieces, Split(buffer, NEWLINE), Split(chunk, NEWLINE));
  }

  /** Reading a chunk keeps the account: only the unfinished line can grow. */
  lemma Extend(segs: seq<Segment>, buffer: Bytes, log: seq<string>, output: Bytes, chunk: Bytes,
               decode: Bytes -> string)
    requires Accounted(segs, buffer, log, output, decode)
    ensures Accounted(segs, buffer + chunk, log, output + chunk, decode)
  {
    hide Uncut, NonBlank, Pieces, NewlineFree;
    Associate(Uncut(segs), buffer, chunk);
  }

  lemma ExtendUnbroken(segs: seq<Segment>, buffer: Bytes, output: Bytes, chunk: Bytes)
    requires Unbroken(segs, buffer, output)
    ensures Unbroken(segs, buffer + chunk, output + chunk)
  {
    hide HasOverflow, Split, Pieces;
    if !HasOverflow(segs) { ExtendSplit(Pieces(segs), buffer, output, chunk); }
  }

  lemma TakeFirst(pieces: seq<Bytes>, line: Bytes, rest: Bytes, output: Bytes)
    requires NEWLINE !in line
    requires Split(output, NEWLINE) == pieces + Split(line + [NEWLINE] + rest, NEWLINE)
    ensures Split(output, NEWLINE) == pieces + [line] + Split(rest, NEWLINE)
  {
    SplitPrefix(line, rest, NEWLINE);
    Associate(pieces, [line], Split(rest, NEWLINE));
  }

  lemma TakeLine(segs: seq<Segment>, line: Bytes, rest: Bytes, log: seq<string>, output: Bytes,
                 decode: Bytes -> string)
    requires NEWLINE !in line
    requires Accounted(segs, line + [NEWLINE] + rest, log, output, decode)
    ensures Accounted(segs + [Line(line)], rest, log + LogLine(line, decode), output, decode)
  {
    hide NewlineFree, HasOverflow, NonBlank, Uncut, Pieces, LogLine;
    Logged(segs, Line(line), decode);
    Associate(Uncut(segs), line + [NEWLINE], rest);
  }

  lemma TakeUnbroken(segs: seq<Segment>, line: Bytes, rest: Bytes, output: Bytes)
    requires NEWLINE !in line && Unbroken(segs, line + [NEWLINE] + rest, output)
    ensures Unbroken(segs + [Line(line)], rest, output)
    ensures HasOverflow(segs + [Line(line)]) <==> HasOverflow(segs)
  {
    hide HasOverflow, Pieces, Split;
    OneMore(segs, Line(line));
    if !HasOverflow(segs) { TakeFirst(Pieces(segs), line, rest, output); }
  }

  lemma CutLine(segs: seq<Segment>, buffer: Bytes, log: seq<string>, output: Bytes, decode: Bytes -> string)
    requires NEWLINE !in buffer
    requires Accounted(segs, buffer, log, output, decode)
    ensures Accounted(segs + [Overflow(buffer)], [], log + LogLine(buffer, decode), output, decode)
  {
    hide NewlineFree, HasOverflow, NonBlank, Uncut, Pieces, LogLine;
    Logged(segs, Overflow(buffer), decode);
    assert Uncut(segs) + buffer + [] == Uncut(segs) + buffer;
  }

  lemma CutOverflows(segs: seq<Segment>, buffer: Bytes, output: Bytes)
    ensures HasOverflow(segs + [Overflow(buffer)]) && Unbroken(segs + [Overflow(buffer)], [], output)
  {
    hide HasOverflow, Pieces, Split;
    OneMore(segs, Overflow(buffer));
  }

  /** After a chunk the buffer is what is pending, so a forced cut follows exactly when that is too long. */
  lemma Boundary(chunks: seq<Bytes>, i: nat, segs: seq<Segment>, buffer: Bytes)
    requires i < |chunks| && NEWLINE !in buffer
    requires Unbroken(segs, buffer, Flatten(chunks[..i + 1]))
    requires HasOverflow(segs) <==> LongPending(chunks, i)
    ensures LongPending(chunks, i + 1) <==> HasOverflow(segs) || |buffer| > LINE_LIMIT
  {
    hide Flatten, Pieces, Split, HasOverflow;
    SplitNoSep(buffer, NEWLINE);
    if LongPending(chunks, i) {
      var k :| 0 <= k <= i && PendingIsLong(chunks, k);
      assert LongPending(chunks, i + 1);
    } else {
      assert Pending(Flatten(chunks[..i + 1])) == buffer;
      assert PendingIsLong(chunks, i + 1) <==> |buffer| > LINE_LIMIT;
    }
  }

  /** What the last read leaves: the rest of the buffer is logged as a line of its own. */
  function Ended(segs: seq<Segment>, buffer: Bytes): seq<Segment> {
    if buffer == [] then segs else segs + [Tail(buffer)]
  }

  lemma AtEnd(segs: seq<Segment>, buffer: Bytes, log: seq<string>, output: Bytes, decode: Bytes -> string)
    requires NEWLINE !in buffer
    requires Accounted(segs, buffer, log, output, decode)
    ensures Accounted(Ended(segs, buffer), [], if buffer == [] then log else log + LogLine(buffer, decode), output,
                      decode)
  {
    hide NewlineFree, HasOverflow, NonBlank, Uncut, Pieces, LogLine;
    Logged(segs, Tail(buffer), decode);
    assert Uncut(segs) + buffer + [] == Uncut(segs) + buffer;
  }

  /** With nothing left in the buffer the account is the promise. */
  lemma Settled(segs: seq<Segment>, buffer: Bytes, log: seq<string>, output: Bytes, decode: Bytes -> string)
    requires Accounted(Ended(segs, buffer), [], log, output, decode)
    ensures Ended(segs, buffer) == if buffer == [] then segs else segs + [Tail(buffer)]
    ensures Uncut(Ended(segs, buffer)) == output && NewlineFree(Ended(segs, buffer))
    ensures log == NonBlank(Pieces(Ended(segs, buffer)), decode)
  {
    hide Uncut, Pieces, NonBlank, NewlineFree;
    assert Uncut(Ended(segs, buffer)) + [] == Uncut(Ended(segs, buffer));
  }

  /** And without a forced cut the log is the non-blank lines of the output. */
  lemma AtEndUnbroken(segs: seq<Segment>, buffer: Bytes, log: seq<string>, output: Bytes, decode: Bytes -> string)
    requires decode([]) == [] && NEWLINE !in buffer
    requires Accounted(segs, buffer, log, output, decode) && Unbroken(segs, buffer, output)
    ensures HasOverflow(Ended(segs, buffer)) <==> HasOverflow(segs)
    ensures !HasOverflow(segs) ==>
              (if buffer == [] then log else log + LogLine(buffer, decode)) == NonBlank(Split(output, NEWLINE), decode)
  {
    SplitNoSep(buffer, NEWLINE);
    NonBlankPrefix(Pieces(segs), buffer, decode);
    hide HasOverflow, Split, Pieces, NonBlank;
    OneMore(segs, Tail(buffer));
    if buffer == [] {
      assert LogLine(buffer, decode) == [];
      assert log + [] == log;
    }
  }

  lemma {:induction false} FlattenSplit(chunks: seq<Bytes>, k: nat)
    requires k <= |chunks|
    ensures exists rest :: Flatten(chunks) == Flatten(chunks[..k]) + rest
  {
    if k == |chunks| {
      assert chunks[..k] == chunks;
      assert Flatten(chunks) == Flatten(chunks[..k]) + [];
    } else {
      var front := chunks[..|chunks| - 1];
      FlattenSplit(front, k);
      assert front[..k] == chunks[..k];
      var rest :| Flatten(front) == Flatten(chunks[..k]) + rest;
      assert Flatten(chunks) == Flatten(chunks[..k]) + (rest + chunks[|chunks| - 1]);
    }
  }

  /** An unfinished line is the start of some line of the whole output. */
  lemma PendingStartsLine(seen: Bytes, rest: Bytes)
    ensures exists i :: 0 <= i < |Split(seen + rest, NEWLINE)| && Pending(seen) <= Split(seen + rest, NEWLINE)[i]
  {
    hide Split;
    SplitAppend(seen, rest, NEWLINE);
    var sa, sb := Split(seen, NEWLINE), Split(rest, NEWLINE);
    assert Split(seen + rest, NEWLINE)[|sa| - 1] == Pending(seen) + sb[0];
  }

  /** So when no line is too long, no unfinished line ever is. */
  lemma ShortLinesNeverOverflow(chunks: seq<Bytes>)
    requires NoLongLine(Flatten(chunks))
    ensures !LongPending(chunks, |chunks|)
  {
    hide Split, Flatten, Pending;
    var whole := Flatten(chunks);
    forall k | 0 <= k <= |chunks| ensures !PendingIsLong(chunks, k) {
      FlattenSplit(chunks, k);
      var seen := Flatten(chunks[..k]);
      var rest :| whole == seen + rest;
      PendingStartsLine(seen, rest);
      var i :| 0 <= i < |Split(whole, NEWLINE)| && Pending(seen) <= Split(whole, NEWLINE)[i];
      assert Split(whole, NEWLINE)[i] in Split(whole, NEWLINE);
    }
  }
}
