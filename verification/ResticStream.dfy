/** Reading what restic prints: the summary and the per-file errors, out of two streams of
    JSON lines with anything in between. */
module ResticStream {

  const MAX_ERRORS_KEPT := 100

  datatype FileError = FileError(item: string, error: string)

  /** One line as the parser sees it. `Other` is a blank line, a line that is not JSON, a
      status line, or a message of a kind nobody asked about. */
  datatype Line =
    | Other
    | Failure(error: FileError)
    | Finish(id: string, figures: string)
    | UnreadableFinish

  datatype Summary = Summary(id: string, figures: string, errors: seq<FileError>, errorCount: nat)

  const BLANK := Summary("", "", [], 0)

  //////// What a stream says

  /** Every per-file error, in order. */
  function ErrorsIn(lines: seq<Line>): seq<FileError> {
    if lines == [] then []
    else
      var last := lines[|lines| - 1];
      ErrorsIn(lines[..|lines| - 1]) + (if last.Failure? then [last.error] else [])
  }

  /** The last readable summary, if there is one. */
  function LastFinish(lines: seq<Line>): (string, string) {
    if lines == [] then ("", "")
    else
      var last := lines[|lines| - 1];
      if last.Finish? then (last.id, last.figures) else LastFinish(lines[..|lines| - 1])
  }

  function First(errors: seq<FileError>): seq<FileError> {
    if |errors| <= MAX_ERRORS_KEPT then errors else errors[..MAX_ERRORS_KEPT]
  }

  /** How far the parse gets: up to the first summary it cannot read. */
  function Readable(lines: seq<Line>): (n: nat)
    ensures n <= |lines|
    ensures forall i :: 0 <= i < n ==> !lines[i].UnreadableFinish?
    ensures n < |lines| ==> lines[n].UnreadableFinish?
  {
    if lines == [] || lines[0].UnreadableFinish? then 0 else 1 + Readable(lines[1..])
  }

  predicate Parses(lines: seq<Line>, scanned: bool) { Readable(lines) == |lines| && scanned }

  /** `scanned` is false when the reader itself failed after these lines. The errors kept are
      the first hundred wherever the summaries fall, the count is of all of them, and what the
      summary says is what the last one said. A parse that fails keeps what it had read but
      counts nothing. */
  method ParseBackup(lines: seq<Line>, scanned: bool) returns (summary: Summary, ok: bool)
    ensures ok <==> Parses(lines, scanned)
    ensures var read := lines[..Readable(lines)];
            && summary.errors == First(ErrorsIn(read))
            && (summary.id, summary.figures) == LastFinish(read)
            && summary.errorCount == if ok then |ErrorsIn(lines)| else 0
  {
    summary := BLANK;
    var errorCount := 0;
    var i := 0;
    while i < |lines|
      invariant 0 <= i <= |lines|
      invariant forall j :: 0 <= j < i ==> !lines[j].UnreadableFinish?
      invariant summary.errors == First(ErrorsIn(lines[..i]))
      invariant (summary.id, summary.figures) == LastFinish(lines[..i])
      invariant errorCount == |ErrorsIn(lines[..i])| && summary.errorCount == 0
    {
      assert lines[..i + 1][..i] == lines[..i];
      match lines[i] {
        case Other =>
        case Failure(error) =>
          errorCount := errorCount + 1;
          if |summary.errors| < MAX_ERRORS_KEPT {
            summary := summary.(errors := summary.errors + [error]);
          }
        case Finish(id, figures) =>
          // Into a fresh value, so the errors collected so far survive.
          var got := Summary(id, figures, [], 0);
          summary := got.(errors := summary.errors);
        case UnreadableFinish =>
          return summary, false;
      }
      i := i + 1;
    }
    assert lines[..i] == lines && Readable(lines) == |lines|;
    if !scanned { return summary, false; }
    return summary.(errorCount := errorCount), true;
  }

  method MergeErrors(summary: Summary, other: Summary) returns (merged: Summary)
    ensures merged.errorCount == summary.errorCount + other.errorCount
    ensures merged.id == summary.id && merged.figures == summary.figures
    ensures |summary.errors| <= MAX_ERRORS_KEPT ==> merged.errors == First(summary.errors + other.errors)
    ensures |summary.errors| > MAX_ERRORS_KEPT ==> merged.errors == summary.errors
  {
    merged := summary.(errorCount := summary.errorCount + other.errorCount);
    var i := 0;
    while i < |other.errors|
      invariant 0 <= i <= |other.errors|
      invariant merged == summary.(errorCount := summary.errorCount + other.errorCount, errors := merged.errors)
      invariant merged.errors == summary.errors + other.errors[..i]
      invariant |summary.errors| <= MAX_ERRORS_KEPT ==> |merged.errors| <= MAX_ERRORS_KEPT
      invariant |summary.errors| > MAX_ERRORS_KEPT ==> i == 0
    {
      if |merged.errors| >= MAX_ERRORS_KEPT {
        assert (summary.errors + other.errors)[..|merged.errors|] == merged.errors;
        return;
      }
      merged := merged.(errors := merged.errors + [other.errors[i]]);
      i := i + 1;
    }
  }

  /** A stream parses exactly when it could be read to its end and no summary in it was unreadable. */
  lemma ParsesIff(lines: seq<Line>, scanned: bool)
    ensures Parses(lines, scanned) <==> scanned && forall i :: 0 <= i < |lines| ==> !lines[i].UnreadableFinish?
  {
  }

  /** The hundred first of them, or all. */
  lemma FirstHundred(errors: seq<FileError>)
    ensures First(errors) <= errors && |First(errors)| == if |errors| < 100 then |errors| else 100
  {
  }

  /** The summary that counts is the last one; without any it is blank. */
  lemma {:induction false} LastFinishIs(lines: seq<Line>, i: nat)
    requires i < |lines| && lines[i].Finish? && forall j :: i < j < |lines| ==> !lines[j].Finish?
    ensures LastFinish(lines) == (lines[i].id, lines[i].figures)
  {
    if i < |lines| - 1 {
      LastFinishIs(lines[..|lines| - 1], i);
    }
  }

  lemma {:induction false} NoFinishIsBlank(lines: seq<Line>)
    requires forall j :: 0 <= j < |lines| ==> !lines[j].Finish?
    ensures LastFinish(lines) == ("", "")
  {
    if lines != [] {
      NoFinishIsBlank(lines[..|lines| - 1]);
    }
  }

  //////// One restic process

  datatype Ended = Good | ExitedBadly | OutputUnreadable

  /** Standard output carries the summary, standard error the per-file failures. Whatever the
      two parses make of them, the exit status speaks first. */
  method BackupOnce(stdout: seq<Line>, outScanned: bool, stderr: seq<Line>, errScanned: bool, exitedWell: bool)
    returns (summary: Summary, ended: Ended)
    ensures ended == if !exitedWell then ExitedBadly else if !Parses(stdout, outScanned) then OutputUnreadable else Good
    ensures (summary.id, summary.figures) == LastFinish(stdout[..Readable(stdout)])
    ensures var said := if Parses(stderr, errScanned) then ErrorsIn(stderr) else [];
            && summary.errors == First(ErrorsIn(stdout[..Readable(stdout)]) + said)
            && summary.errorCount == (if Parses(stdout, outScanned) then |ErrorsIn(stdout)| else 0) + |said|
  {
    var parsed;
    summary, parsed := ParseBackup(stdout, outScanned);
    var errs, fine := ParseBackup(stderr, errScanned);
    if fine {
      CapOfCaps(ErrorsIn(stdout[..Readable(stdout)]), ErrorsIn(stderr));
      assert stderr[..|stderr|] == stderr;
      summary := MergeErrors(summary, errs);
    }
    assert parsed ==> stdout[..|stdout|] == stdout;
    if !exitedWell { return summary, ExitedBadly; }
    return summary, if parsed then Good else OutputUnreadable;
  }

  /** Capping each stream and then the two together loses nothing a single cap would keep. */
  lemma CapOfCaps(a: seq<FileError>, b: seq<FileError>)
    ensures First(First(a) + First(b)) == First(a + b)
  {
  }

  lemma {:induction false} ErrorsInTwo(a: seq<Line>, b: seq<Line>)
    ensures ErrorsIn(a + b) == ErrorsIn(a) + ErrorsIn(b)
  {
    if b == [] {
      assert a + b == a;
    } else {
      assert (a + b)[..|a + b| - 1] == a + b[..|b| - 1];
      ErrorsInTwo(a, b[..|b| - 1]);
    }
  }

  /** Every error message is in the list, as many times as it was printed and in the order it
      was printed: dropping the other lines changes nothing. */
  function Failures(errors: seq<FileError>): seq<Line> {
    if errors == [] then [] else [Failure(errors[0])] + Failures(errors[1..])
  }

  lemma {:induction false} OnlyFailuresCount(errors: seq<FileError>)
    ensures ErrorsIn(Failures(errors)) == errors
  {
    if errors != [] {
      OnlyFailuresCount(errors[1..]);
      ErrorsInTwo([Failure(errors[0])], Failures(errors[1..]));
      assert [errors[0]] + errors[1..] == errors;
    }
  }

  /** Lines that are not errors may fall anywhere, summaries included. */
  lemma NoiseIsIgnored(before: seq<Line>, noise: Line, after: seq<Line>)
    requires !noise.Failure?
    ensures ErrorsIn(before + [noise] + after) == ErrorsIn(before + after)
    ensures !noise.Finish? ==> LastFinish(before + [noise] + after) == LastFinish(before + after)
  {
    ErrorsInTwo(before + [noise], after);
    ErrorsInTwo(before, [noise]);
    ErrorsInTwo(before, after);
    assert [noise][..0] == [];
    if !noise.Finish? {
      LastFinishOfTwo(before + [noise], after);
      LastFinishOfTwo(before, after);
      assert (before + [noise])[..|before|] == before;
    }
  }

  predicate HasFinish(lines: seq<Line>) { exists i :: 0 <= i < |lines| && lines[i].Finish? }

  lemma {:induction false} LastFinishOfTwo(a: seq<Line>, b: seq<Line>)
    ensures LastFinish(a + b) == if HasFinish(b) then LastFinish(b) else LastFinish(a)
  {
    if b == [] {
      assert a + b == a;
    } else {
      var front := b[..|b| - 1];
      assert (a + b)[..|a + b| - 1] == a + front;
      if !b[|b| - 1].Finish? {
        LastFinishOfTwo(a, front);
        assert HasFinish(b) <==> HasFinish(front) by {
          if HasFinish(b) {
            var i :| 0 <= i < |b| && b[i].Finish?;
            assert front[i].Finish?;
          }
        }
      }
    }
  }
}
