/**
 The writers that follow the output of coreos-installer and rsync (src/coreos_logger and
 src/rsync_logger): output arrives in chunks, is handed on when a line ends, and the progress read
 from a line is reported unless it is too close to the last progress reported.

 The patterns that find the progress in a line are not part of this model: `progress` maps the lines
 in which a percentage is found, and can be converted, to that percentage.
 */
module LogWriters {
  import opened Wrappers

  newtype byte = b: int | 0 <= b < 256

  type Line = seq<byte>

  const LF: byte := 10
  const CR: byte := 13

  predicate IsTerminator(b: byte) {
    b == CR || b == LF
  }

  predicate HasTerminator(s: Line) {
    exists i :: 0 <= i < |s| && IsTerminator(s[i])
  }

  function Concat(chunks: seq<Line>): Line {
    if |chunks| == 0 then [] else Concat(chunks[..|chunks| - 1]) + chunks[|chunks| - 1]
  }

  /** What is held back after the chunks have been written. */
  function Buffer(chunks: seq<Line>): Line
    decreases |chunks|, 1
  {
    if |chunks| == 0 then []
    else
      var line := Pending(chunks);
      if HasTerminator(line) then [] else line
  }

  /** What is held back while the last chunk is written. */
  function Pending(chunks: seq<Line>): Line
    requires |chunks| > 0
    decreases |chunks|, 0
  {
    Buffer(chunks[..|chunks| - 1]) + chunks[|chunks| - 1]
  }

  /** What has been handed on after the chunks have been written. */
  function Flushed(chunks: seq<Line>): seq<Line> {
    if |chunks| == 0 then []
    else
      var line := Pending(chunks);
      Flushed(chunks[..|chunks| - 1]) + if HasTerminator(line) then [line] else []
  }

  // ---------------------------------------------------------------- the two writers

  const MIN_PROGRESS_DELTA := 5
  const COMPLETED := 100

  datatype Kind = Coreos | Rsync

  /** Whether progress `current` is reported when `last` has been. */
  predicate Takes(kind: Kind, last: int, current: int) {
    match kind
    case Coreos =>
      current >= Int64(last + MIN_PROGRESS_DELTA) || (current == COMPLETED && last != COMPLETED)
    case Rsync =>
      last != COMPLETED && (current >= Int64(last + MIN_PROGRESS_DELTA) || current == COMPLETED)
  }

  function Last(reports: seq<int>): int {
    if |reports| == 0 then 0 else reports[|reports| - 1]
  }

  /** The progress reports accepted; `accepted` are the writes during which the service takes one. */
  function Reports(kind: Kind, progress: map<Line, int>, chunks: seq<Line>, accepted: set<nat>): seq<int>
  {
    if |chunks| == 0 then []
    else
      var before := Reports(kind, progress, chunks[..|chunks| - 1], accepted);
      var line := Pending(chunks);
      if HasTerminator(line) && line in progress && Takes(kind, Last(before), progress[line])
         && |chunks| - 1 in accepted
      then before + [progress[line]]
      else before
  }

  lemma {:induction false} LaterAnswers(kind: Kind, progress: map<Line, int>, chunks: seq<Line>,
                                        accepted: set<nat>, n: nat)
    requires |chunks| <= n
    ensures Reports(kind, progress, chunks, accepted + {n}) == Reports(kind, progress, chunks, accepted)
  {
    if |chunks| > 0 {
      LaterAnswers(kind, progress, chunks[..|chunks| - 1], accepted, n);
    }
  }

  lemma WriteOneMore(kind: Kind, progress: map<Line, int>, chunks: seq<Line>, p: Line,
                     accepted: set<nat>, accept: bool)
    ensures var line, longer := Buffer(chunks) + p, chunks + [p];
            var answers := accepted + if accept then {|chunks|} else {};
            var before := Reports(kind, progress, chunks, accepted);
            && Pending(longer) == line
            && Buffer(longer) == (if HasTerminator(line) then [] else line)
            && Flushed(longer) == Flushed(chunks) + (if HasTerminator(line) then [line] else [])
            && (|chunks| !in accepted ==>
                  Reports(kind, progress, longer, answers)
                  == if HasTerminator(line) && line in progress && Takes(kind, Last(before), progress[line])
                        && accept
                     then before + [progress[line]] else before)
  {
    assert (chunks + [p])[..|chunks + [p]| - 1] == chunks;
    LaterAnswers(kind, progress, chunks, accepted, |chunks|);
    assert accepted + {} == accepted;
  }

  /** The writer of coreos-installer, with what it logged and the reports the service accepted. */
  class CoreosInstallerLogWriter {
    const progress: map<Line, int>
    var lastLogLine: Line
    var lastProgress: int
    var logged: seq<Line>
    var reports: seq<int>
    /** The chunks written so far, and the writes during which the service took reports. */
    ghost var chunks: seq<Line>
    ghost var accepted: set<nat>

    ghost predicate Valid()
      reads this
    {
      && lastLogLine == Buffer(chunks) && logged == Flushed(chunks)
      && reports == Reports(Coreos, progress, chunks, accepted) && lastProgress == Last(reports)
      && forall i <- accepted :: i < |chunks|
    }

    constructor (progress: map<Line, int>)
      ensures Valid() && this.progress == progress && chunks == [] && accepted == {}
    {
      this.progress := progress;
      lastLogLine, lastProgress, logged, reports, chunks, accepted := [], 0, [], [], [], {};
    }

    method Write(p: Line, accept: bool)
      requires Valid()
      modifies this
      ensures Valid() && chunks == old(chunks) + [p]
      ensures accepted == old(accepted) + if accept then {|old(chunks)|} else {}
    {
      WriteOneMore(Coreos, progress, chunks, p, accepted, accept);
      accepted := accepted + if accept then {|chunks|} else {};
      chunks := chunks + [p];
      lastLogLine := lastLogLine + p;
      if HasTerminator(lastLogLine) {
        logged := logged + [lastLogLine];
        ReportProgress(accept);
        lastLogLine := [];
      }
    }

    method ReportProgress(accept: bool)
      modifies `reports, `lastProgress
      ensures var found := lastLogLine in progress;
              if found && Takes(Coreos, old(lastProgress), progress[lastLogLine]) && accept then
                reports == old(reports) + [progress[lastLogLine]] && lastProgress == progress[lastLogLine]
              else
                reports == old(reports) && lastProgress == old(lastProgress)
    {
      if lastLogLine !in progress {
        return;
      }
      var current := progress[lastLogLine];
      if current >= Int64(lastProgress + MIN_PROGRESS_DELTA)
         || (current == COMPLETED && lastProgress != COMPLETED) {
        if accept {
          reports := reports + [current];
          lastProgress := current;
        }
      }
    }
  }

  /** The writer of rsync. Without a host stage nothing is sent to the service, which then counts as
      having accepted the report. */
  class RsyncInstallerLogWriter {
    const progress: map<Line, int>
    const hasStage: bool
    var lastLogLine: Line
    var lastProgress: int
    var sent: seq<int>
    ghost var chunks: seq<Line>
    ghost var accepted: set<nat>
    ghost var reports: seq<int>

    ghost predicate Valid()
      reads this
    {
      && lastLogLine == Buffer(chunks)
      && reports == Reports(Rsync, progress, chunks, accepted) && lastProgress == Last(reports)
      && Sent()
      && forall i <- accepted :: i < |chunks|
    }

    constructor (progress: map<Line, int>, hasStage: bool)
      ensures Valid() && this.progress == progress && this.hasStage == hasStage
      ensures chunks == [] && accepted == {}
    {
      this.progress, this.hasStage := progress, hasStage;
      lastLogLine, lastProgress, sent, reports, chunks, accepted := [], 0, [], [], [], {};
    }

    method Write(p: Line, accept: bool)
      requires Valid()
      modifies this
      ensures Valid() && chunks == old(chunks) + [p]
      ensures accepted == old(accepted) + if accept || !hasStage then {|old(chunks)|} else {}
    {
      ghost var taken := accept || !hasStage;
      WriteOneMore(Rsync, progress, chunks, p, accepted, taken);
      accepted := accepted + if taken then {|chunks|} else {};
      chunks := chunks + [p];
      lastLogLine := lastLogLine + p;
      if HasTerminator(lastLogLine) {
        ReportProgress(lastLogLine, accept);
        lastLogLine := [];
      }
    }

    ghost predicate Sent()
      reads this
    {
      sent == if hasStage then reports else []
    }

    method ReportProgress(line: Line, accept: bool)
      requires Sent()
      modifies `sent, `lastProgress, `reports
      ensures Sent()
      ensures if line in progress && Takes(Rsync, old(lastProgress), progress[line])
                 && (accept || !hasStage) then
                reports == old(reports) + [progress[line]] && lastProgress == progress[line]
              else
                reports == old(reports) && lastProgress == old(lastProgress)
    {
      if line !in progress {
        return;
      }
      var current := progress[line];
      if lastProgress == COMPLETED {
        return;
      }
      if current >= Int64(lastProgress + MIN_PROGRESS_DELTA) || current == COMPLETED {
        if hasStage {
          if !accept {
            return;
          }
          sent := sent + [current];
        }
        lastProgress := current;
        reports := reports + [current];
      }
    }
  }

  // ---------------------------------------------------------------- when a line is handed on

  /** A line is handed on, and the buffer emptied, exactly when what was held back and the new chunk
      hold a carriage return or a newline between them. */
  lemma HandedOnIff(chunks: seq<Line>, p: Line)
    ensures var line, longer := Buffer(chunks) + p, chunks + [p];
            if 13 in line || 10 in line then
              Flushed(longer) == Flushed(chunks) + [line] && Buffer(longer) == []
            else
              Flushed(longer) == Flushed(chunks) && Buffer(longer) == line
  {
    WriteOneMore(Coreos, map[], chunks, p, {}, false);
    AppendNothing(Flushed(chunks));
  }

  /** A write brings about a report exactly when a line is handed on, progress is found in it, it is far
      enough ahead of the last report or the end, and the report is accepted. */
  lemma ReportedIff(kind: Kind, progress: map<Line, int>, chunks: seq<Line>, p: Line, accepted: set<nat>)
    ensures var line, before := Buffer(chunks) + p, Reports(kind, progress, chunks, accepted);
            var last := if |before| == 0 then 0 else before[|before| - 1];
            Reports(kind, progress, chunks + [p], accepted)
            == if (13 in line || 10 in line) && line in progress && |chunks| in accepted
                  && (match kind {
                        case Coreos => progress[line] >= Int64(last + 5)
                                       || (progress[line] == 100 && last != 100)
                        case Rsync => last != 100
                                      && (progress[line] >= Int64(last + 5) || progress[line] == 100)
                      })
               then before + [progress[line]] else before
  {
    assert (chunks + [p])[..|chunks|] == chunks;
    HandedOnIff(chunks, p);
    var line := Buffer(chunks) + p;
    assert HasTerminator(line) <==> 13 in line || 10 in line;
  }

  // ---------------------------------------------------------------- nothing is lost

  lemma {:induction false} NothingIsLost(chunks: seq<Line>)
    ensures Concat(Flushed(chunks)) + Buffer(chunks) == Concat(chunks)
    ensures !HasTerminator(Buffer(chunks))
  {
    if |chunks| > 0 {
      var prefix, last := chunks[..|chunks| - 1], chunks[|chunks| - 1];
      NothingIsLost(prefix);
      Associative(Concat(Flushed(prefix)), Buffer(prefix), last);
      AppendNothing(Flushed(prefix));
      AppendNothing(Concat(chunks));
      assert (Flushed(prefix) + [Pending(chunks)])[..|Flushed(prefix)|] == Flushed(prefix);
    }
  }

  // ---------------------------------------------------------------- lines whatever the chunks

  /** The lines of a stream, each with the byte that ends it, and what comes after the last one. */
  function Lines(stream: Line): (seq<Line>, Line) {
    if |stream| == 0 then ([], [])
    else
      var (lines, rest) := Lines(stream[..|stream| - 1]);
      var last := stream[|stream| - 1];
      if IsTerminator(last) then (lines + [rest + [last]], []) else (lines, rest + [last])
  }

  /** No terminator but, perhaps, at the end. */
  predicate Tidy(s: Line) {
    forall i | 0 <= i < |s| - 1 :: !IsTerminator(s[i])
  }

  predicate AllTidy(lines: seq<Line>) {
    forall i | 0 <= i < |lines| :: Tidy(lines[i])
  }

  lemma {:induction false} LinesAreTidy(stream: Line)
    ensures AllTidy(Lines(stream).0) && !HasTerminator(Lines(stream).1)
  {
    if |stream| > 0 {
      LinesAreTidy(stream[..|stream| - 1]);
      var rest := Lines(stream[..|stream| - 1]).1;
      assert forall i | 0 <= i < |rest| :: !IsTerminator(rest[i]);
    }
  }

  lemma {:induction false} LinesOfUnterminated(stream: Line, s: Line)
    requires !HasTerminator(s)
    ensures Lines(stream + s) == (Lines(stream).0, Lines(stream).1 + s)
  {
    if |s| == 0 {
      AppendNothing(stream);
      AppendNothing(Lines(stream).1);
    } else {
      var front, last := s[..|s| - 1], s[|s| - 1];
      assert !IsTerminator(last);
      assert forall i | 0 <= i < |front| :: front[i] == s[i];
      DropLast(stream, s);
      LinesOfUnterminated(stream, front);
      Associative(Lines(stream).1, front, [last]);
      assert s == front + [last];
    }
  }

  lemma LinesOfTidy(stream: Line, s: Line)
    requires Tidy(s) && HasTerminator(s)
    ensures Lines(stream + s) == (Lines(stream).0 + [Lines(stream).1 + s], [])
  {
    var front, last := s[..|s| - 1], s[|s| - 1];
    DropLast(stream, s);
    LinesOfUnterminated(stream, front);
    AppendLast(Lines(stream).1, front, last);
    assert s == front + [last];
  }

  /** The buffer is empty of terminators, so a line handed on is tidy exactly if its chunk is. */
  lemma TidyPending(buffer: Line, chunk: Line)
    requires !HasTerminator(buffer)
    ensures Tidy(buffer + chunk) <==> Tidy(chunk)
    ensures HasTerminator(buffer + chunk) <==> HasTerminator(chunk)
  {
    var line := buffer + chunk;
    assert forall i | 0 <= i < |chunk| :: line[|buffer| + i] == chunk[i];
    assert forall i | |buffer| <= i < |line| :: chunk[i - |buffer|] == line[i];
    assert forall i | 0 <= i < |buffer| :: line[i] == buffer[i] && !IsTerminator(buffer[i]);
  }

  lemma {:induction false} TidyIffHandedOnTidy(chunks: seq<Line>)
    ensures AllTidy(Flushed(chunks)) <==> AllTidy(chunks)
  {
    if |chunks| > 0 {
      var prefix, last := chunks[..|chunks| - 1], chunks[|chunks| - 1];
      TidyIffHandedOnTidy(prefix);
      NothingIsLost(prefix);
      TidyPending(Buffer(prefix), last);
      assert chunks == prefix + [last];
      AllTidyAppend(prefix, last);
      AllTidyAppend(Flushed(prefix), Pending(chunks));
      AppendNothing(Flushed(prefix));
      assert !HasTerminator(last) ==> Tidy(last);
    }
  }

  lemma AllTidyAppend(lines: seq<Line>, line: Line)
    ensures AllTidy(lines + [line]) <==> AllTidy(lines) && Tidy(line)
  {
    assert (lines + [line])[|lines|] == line;
    assert forall i | 0 <= i < |lines| :: (lines + [line])[i] == lines[i];
  }

  lemma {:induction false} TidyChunksGiveLines(chunks: seq<Line>)
    requires AllTidy(chunks)
    ensures Lines(Concat(chunks)) == (Flushed(chunks), Buffer(chunks))
  {
    if |chunks| > 0 {
      var prefix, last := chunks[..|chunks| - 1], chunks[|chunks| - 1];
      TidyChunksGiveLines(prefix);
      NothingIsLost(prefix);
      TidyPending(Buffer(prefix), last);
      AppendNothing(Flushed(prefix));
      AllTidyAppend(prefix, last);
      assert chunks == prefix + [last];
      if HasTerminator(last) {
        LinesOfTidy(Concat(prefix), last);
      } else {
        LinesOfUnterminated(Concat(prefix), last);
      }
    }
  }

  /** What is handed on are the lines of the stream exactly when no chunk goes on after a line ends. */
  lemma LinesIffChunksTidy(chunks: seq<Line>)
    ensures Flushed(chunks) == Lines(Concat(chunks)).0 <==> AllTidy(chunks)
  {
    if AllTidy(chunks) {
      TidyChunksGiveLines(chunks);
    } else {
      LinesAreTidy(Concat(chunks));
      TidyIffHandedOnTidy(chunks);
    }
  }

  // ---------------------------------------------------------------- the throttles

  /** The two conditions differ only on a percentage of at least 105 after 100. */
  lemma ThrottlesAgreeIff(last: int, current: int)
    ensures Takes(Coreos, last, current) == Takes(Rsync, last, current)
            <==> !(last == 100 && current >= 105)
  {
  }

  ghost predicate InRange(progress: map<Line, int>) {
    forall line <- progress :: 0 <= progress[line] <= COMPLETED
  }

  /** Increasing, by at least five except into 100, and over with 100. */
  predicate Orderly(reports: seq<int>) {
    |reports| > 0 ==>
      var prefix := reports[..|reports| - 1];
      && Orderly(prefix)
      && Last(prefix) < Last(reports) <= COMPLETED
      && (Last(reports) >= Last(prefix) + MIN_PROGRESS_DELTA || Last(reports) == COMPLETED)
  }

  lemma {:induction false} OrderlyIsShort(reports: seq<int>)
    requires Orderly(reports)
    ensures 0 <= Last(reports) <= COMPLETED && |reports| <= 20
    ensures Last(reports) < COMPLETED ==> MIN_PROGRESS_DELTA * |reports| <= Last(reports)
  {
    if |reports| > 0 {
      OrderlyIsShort(reports[..|reports| - 1]);
    }
  }

  lemma {:induction false} OrderlyIncreases(reports: seq<int>, i: nat, j: nat)
    requires Orderly(reports) && i < j < |reports|
    ensures reports[i] < reports[j] <= 100
    ensures reports[j] >= reports[i] + 5 || reports[j] == 100
  {
    var prefix := reports[..|reports| - 1];
    if j < |prefix| {
      OrderlyIncreases(prefix, i, j);
    } else if i < |prefix| - 1 {
      OrderlyIncreases(prefix, i, |prefix| - 1);
    }
  }

  /** Whatever is written and whichever reports fail, both writers report in good order. */
  lemma {:induction false} ReportsAreOrderly(kind: Kind, progress: map<Line, int>, chunks: seq<Line>,
                                             accepted: set<nat>)
    requires InRange(progress)
    ensures Orderly(Reports(kind, progress, chunks, accepted))
  {
    if |chunks| > 0 {
      var prefix := chunks[..|chunks| - 1];
      ReportsAreOrderly(kind, progress, prefix, accepted);
      var before := Reports(kind, progress, prefix, accepted);
      OrderlyIsShort(before);
      var after := Reports(kind, progress, chunks, accepted);
      assert after != before ==> after[..|after| - 1] == before;
    }
  }

  lemma {:induction false} WritersAgree(progress: map<Line, int>, chunks: seq<Line>, accepted: set<nat>)
    requires InRange(progress)
    ensures Reports(Coreos, progress, chunks, accepted) == Reports(Rsync, progress, chunks, accepted)
  {
    if |chunks| > 0 {
      WritersAgree(progress, chunks[..|chunks| - 1], accepted);
    }
  }

  /** If all reports are accepted, none of the progress read is five points ahead of the last report,
      and completion is always reported. */
  lemma {:induction false} NothingLeftBehind(kind: Kind, progress: map<Line, int>, chunks: seq<Line>,
                                             line: Line)
    requires InRange(progress) && line in Flushed(chunks) && line in progress
    ensures var last := Last(Reports(kind, progress, chunks, UpTo(|chunks|)));
            progress[line] < last + 5 && (progress[line] == 100 ==> last == 100)
  {
    var n := |chunks| - 1;
    var prefix := chunks[..n];
    ReportsAreOrderly(kind, progress, prefix, UpTo(n));
    OrderlyIsShort(Reports(kind, progress, prefix, UpTo(n)));
    LaterAnswers(kind, progress, prefix, UpTo(n), n);
    assert UpTo(n + 1) == UpTo(n) + {n};
    if line in Flushed(prefix) {
      NothingLeftBehind(kind, progress, prefix, line);
    }
  }
}
