/** Whole histories of one machine: updates looked for by any process, starts, settlings, and
    the list cleared. What settling believes, and for how long a version given up on stays
    away. */
module SelfUpdateHistory {
  import opened Wrappers
  import opened Text
  import opened Versions
  import opened SelfUpdate
  import opened SelfUpdateRefusals
  import opened SelfUpdateProofs

  /** `current` is the version the checking process was started as. */
  datatype Event =
    | Check(current: string, answer: Answer, luck: ApplyLuck)
    | Restart(start: StartLuck)
    | Settled(clear: bool, removeOld: bool)
    | Forgot(ok: bool)

  function After(l: Log, event: Event): Log {
    match event
    case Check(current, answer, luck) => Apply(l, current, answer, luck).0
    case Restart(start) => StartUp(l, start).0
    case Settled(clear, removeOld) => Settle(l, clear, removeOld)
    case Forgot(ok) => Forget(l, ok)
  }

  predicate Installs(l: Log, event: Event) {
    event.Check? && Apply(l, event.current, event.answer, event.luck).1.Installed?
  }

  /** The states one machine goes through. */
  ghost predicate Follows(ls: seq<Log>, events: seq<Event>) {
    && |ls| == |events| + 1
    && forall i, k :: 0 <= i < |events| && k == i + 1 ==> ls[k] == After(ls[i], events[i])
  }

  //////// What settling believes

  /** Every write to the probation file at least begins, and every removal of it works. */
  predicate Recorded(event: Event) {
    match event
    case Check(_, _, luck) => !luck.begin.NotBegun?
    case Restart(start) => !start.write.NotBegun? && start.clear
    case Settled(clear, _) => clear
    case Forgot(_) => true
  }

  function Restarts(events: seq<Event>): nat {
    if events == [] then 0
    else Restarts(events[..|events| - 1]) + (if events[|events| - 1].Restart? then 1 else 0)
  }

  predicate InstalledAt(ls: seq<Log>, events: seq<Event>, i: int)
    requires |ls| == |events| + 1
  {
    0 <= i < |events| && Installs(ls[i], events[i])
  }

  // The last install of the first `n` events.
  ghost predicate LastInstall(ls: seq<Log>, events: seq<Event>, i: int, n: nat)
    requires |ls| == |events| + 1 && n <= |events|
  {
    && i < n && InstalledAt(ls, events, i)
    && forall j :: i < j < n ==> !InstalledAt(ls, events, j)
  }

  lemma SwapWritesNothing(l: Log, luck: SwapLuck)
    ensures Swap(l, luck).0.files.mark == l.files.mark && Swap(l, luck).0.files.refused == l.files.refused
  {
  }

  lemma InstallWrites(l: Log, current: string, version: string, binary: Binary, luck: ApplyLuck)
    ensures var (after, applied) := Install(l, current, version, binary, luck);
            && after.files.refused == l.files.refused
            && after.files.mark ==
               if !applied.Installed? then l.files.mark
               else MarkAfter(l.files.mark, Holds(Probation(version, current, 0)), luck.begin)
  {
    SwapWritesNothing(l.Becomes(l.files.Put(New, Some(binary))), luck.swap);
  }

  /** All an update writes besides binaries: probation, when it happened and the write works. */
  lemma CheckWrites(l: Log, current: string, answer: Answer, luck: ApplyLuck)
    ensures var (after, applied) := Apply(l, current, answer, luck);
            && after.files.refused == l.files.refused
            && (applied.Installed? ==> answer.Release? && Parsed(answer.version).Some?)
            && after.files.mark ==
               if !applied.Installed? then l.files.mark
               else MarkAfter(l.files.mark, Holds(Probation(answer.version, current, 0)), luck.begin)
  {
    if answer.Release? && answer.binary.Some? {
      InstallWrites(l, current, answer.version, answer.binary.value, luck);
    }
  }

  lemma StartMarks(l: Log, start: StartLuck)
    requires !start.write.NotBegun? && start.clear
    ensures var before, after := ReadMark(l.files.mark), ReadMark(StartUp(l, start).0.files.mark);
            after.Some? ==> before.Some? && after.value == before.value.(starts := before.value.starts + 1)
  {
    if ReadMark(l.files.mark).Some? {
      RollBackMarks(l, ReadMark(l.files.mark).value.(starts := ReadMark(l.files.mark).value.starts + 1), start.roll);
    }
  }

  lemma RollBackMarks(l: Log, p: Probation, luck: RollLuck)
    ensures RollBack(l, p, luck).0.files.mark == l.files.mark
  {
  }

  // What one event does to what is on probation.
  predicate Goes(before: Option<Probation>, event: Event, installs: bool, after: Option<Probation>) {
    after.Some? ==>
      if installs then
        event.Check? && event.answer.Release? && after.value == Probation(event.answer.version, event.current, 0)
      else
        before.Some? && after.value == before.value.(starts := before.value.starts + (if event.Restart? then 1 else 0))
  }

  lemma EventGoes(l: Log, event: Event)
    requires Recorded(event)
    ensures Goes(ReadMark(l.files.mark), event, Installs(l, event), ReadMark(After(l, event).files.mark))
  {
    match event {
      case Check(current, answer, luck) => CheckWrites(l, current, answer, luck);
      case Restart(start) => StartMarks(l, start);
      case _ =>
    }
  }

  lemma {:induction false} ProbationIsTheLastInstalls(
    marks: seq<Option<Probation>>, events: seq<Event>, installs: seq<bool>, n: nat) returns (i: nat)
    requires |marks| == |events| + 1 && |installs| == |events| && n <= |events|
    requires forall j, k :: 0 <= j < |events| && k == j + 1 ==> Goes(marks[j], events[j], installs[j], marks[k])
    requires marks[0].None? && marks[n].Some?
    ensures i < n && installs[i] && forall j :: i < j < n ==> !installs[j]
    ensures events[i].Check? && events[i].answer.Release?
    ensures marks[n].value == Probation(events[i].answer.version, events[i].current, Restarts(events[i + 1..n]))
  {
    assert Goes(marks[n - 1], events[n - 1], installs[n - 1], marks[n]);
    if installs[n - 1] {
      i := n - 1;
      assert events[i + 1..n] == [];
    } else {
      i := ProbationIsTheLastInstalls(marks, events, installs, n - 1);
      var since := events[i + 1..n];
      assert since[..|since| - 1] == events[i + 1..n - 1] && since[|since| - 1] == events[n - 1];
    }
  }

  lemma MarksGo(ls: seq<Log>, events: seq<Event>, marks: seq<Option<Probation>>, installs: seq<bool>)
    requires Follows(ls, events) && forall e :: e in events ==> Recorded(e)
    requires |marks| == |events| + 1 && |installs| == |events|
    requires forall k :: 0 <= k <= |events| ==> marks[k] == ReadMark(ls[k].files.mark)
    requires forall k :: 0 <= k < |events| ==> installs[k] == Installs(ls[k], events[k])
    ensures forall j, k :: 0 <= j < |events| && k == j + 1 ==> Goes(marks[j], events[j], installs[j], marks[k])
  {
    forall j, k | 0 <= j < |events| && k == j + 1
      ensures Goes(marks[j], events[j], installs[j], marks[k])
    {
      assert events[j] in events;
      EventGoes(ls[j], events[j]);
    }
  }

  /** Whatever is on probation is what the last install put there, and its count is the number
      of starts since. */
  lemma StartsAreCounted(ls: seq<Log>, events: seq<Event>, n: nat) returns (i: nat)
    requires Follows(ls, events) && n <= |events| && forall e :: e in events ==> Recorded(e)
    requires ReadMark(ls[0].files.mark).None? && ReadMark(ls[n].files.mark).Some?
    ensures LastInstall(ls, events, i, n) && events[i].Check? && events[i].answer.Release?
    ensures ReadMark(ls[n].files.mark).value ==
            Probation(events[i].answer.version, events[i].current, Restarts(events[i + 1..n]))
  {
    var marks := seq(|events| + 1, k requires 0 <= k <= |events| => ReadMark(ls[k].files.mark));
    var installs := seq(|events|, k requires 0 <= k < |events| => Installs(ls[k], events[k]));
    MarksGo(ls, events, marks, installs);
    i := ProbationIsTheLastInstalls(marks, events, installs, n);
    assert InstalledAt(ls, events, i);
    forall j | i < j < n
      ensures !InstalledAt(ls, events, j)
    {
      assert !installs[j];
    }
  }

  /** With no write failing before it begins, settling believes a version that has started at least once
      exactly when a start lies between its install and the settling. Settling from the process
      that installed it is the case with none. */
  lemma SettlingBelievesAStartedVersionIff(
    ls: seq<Log>, events: seq<Event>, n: nat, clear: bool, removeOld: bool, i: nat)
    requires Follows(ls, events) && forall e :: e in events ==> Recorded(e)
    requires n < |events| && events[n] == Settled(clear, removeOld)
    requires ReadMark(ls[0].files.mark).None? && ReadMark(ls[n].files.mark).Some?
    requires LastInstall(ls, events, i, n)
    ensures ReadMark(ls[n + 1].files.mark).None?
    ensures events[i].answer.Release? && ReadMark(ls[n].files.mark).value.installed == events[i].answer.version
    ensures ReadMark(ls[n].files.mark).value.starts >= 1 <==> exists j :: i < j < n && events[j].Restart?
  {
    SettledAt(ls, events, n);
    WatchedSince(ls, events, n, i);
    SomeRestartBetween(events, i, n);
  }

  lemma SettledAt(ls: seq<Log>, events: seq<Event>, n: nat)
    requires Follows(ls, events) && n < |events| && events[n].Settled? && Recorded(events[n])
    ensures ReadMark(ls[n + 1].files.mark).None?
  {
    var after := ls[n + 1];
    assert after == After(ls[n], events[n]);
    SettlingEnds(ls[n], after, events[n]);
  }

  lemma WatchedSince(ls: seq<Log>, events: seq<Event>, n: nat, i: nat)
    requires Follows(ls, events) && n <= |events| && forall e :: e in events ==> Recorded(e)
    requires ReadMark(ls[0].files.mark).None? && ReadMark(ls[n].files.mark).Some?
    requires LastInstall(ls, events, i, n)
    ensures events[i].Check? && events[i].answer.Release?
    ensures ReadMark(ls[n].files.mark).value ==
            Probation(events[i].answer.version, events[i].current, Restarts(events[i + 1..n]))
  {
    var marks := seq(|events| + 1, k requires 0 <= k <= |events| => ReadMark(ls[k].files.mark));
    var installs := seq(|events|, k requires 0 <= k < |events| => Installs(ls[k], events[k]));
    MarksGo(ls, events, marks, installs);
    var last := ProbationIsTheLastInstalls(marks, events, installs, n);
    InstallsSay(ls, events, installs, i, last, n);
  }

  lemma InstallsSay(ls: seq<Log>, events: seq<Event>, installs: seq<bool>, i: nat, last: nat, n: nat)
    requires |ls| == |events| + 1 && |installs| == |events| && n <= |events|
    requires forall k :: 0 <= k < |events| ==> installs[k] == Installs(ls[k], events[k])
    requires last < n && installs[last] && forall j :: last < j < n ==> !installs[j]
    requires LastInstall(ls, events, i, n)
    ensures i == last
  {
    assert InstalledAt(ls, events, i) && InstalledAt(ls, events, last);
  }

  lemma SettlingEnds(before: Log, after: Log, event: Event)
    requires event.Settled? && event.clear && after == After(before, event)
    ensures ReadMark(after.files.mark).None?
  {
  }

  lemma SomeRestartBetween(events: seq<Event>, i: nat, n: nat)
    requires i < n <= |events|
    ensures Restarts(events[i + 1..n]) > 0 <==> exists j :: i < j < n && events[j].Restart?
  {
    var since := events[i + 1..n];
    SomeRestartIff(since);
    if Restarts(since) > 0 {
      var k :| 0 <= k < |since| && since[k].Restart?;
      assert events[i + 1 + k].Restart?;
    }
    forall j | i < j < n && events[j].Restart?
      ensures Restarts(since) > 0
    {
      assert since[j - (i + 1)] == events[j];
    }
  }

  lemma {:induction false} SomeRestartIff(events: seq<Event>)
    ensures Restarts(events) > 0 <==> exists k :: 0 <= k < |events| && events[k].Restart?
  {
    if events != [] {
      var front := events[..|events| - 1];
      SomeRestartIff(front);
      if Restarts(front) > 0 {
        var k :| 0 <= k < |front| && front[k].Restart?;
        assert events[k].Restart?;
      }
      forall k | 0 <= k < |events| && events[k].Restart?
        ensures Restarts(events) > 0
      {
        assert k < |front| ==> front[k].Restart?;
      }
    }
  }

  //////// The list cleared

  /** Clearing removes the file, so that nothing is listed and nothing else has changed; a removal
      that fails changes nothing. */
  lemma ForgettingIs(l: Log, ok: bool)
    ensures ok ==> Listing(Forget(l, ok).files.refused) == []
    ensures Forget(l, ok).files == l.files.(refused := Forget(l, ok).files.refused)
    ensures !ok ==> Forget(l, ok) == l
  {
    NothingListed();
  }

  /** A version on the list that would otherwise be installed is installed by the next check
      exactly when the list could be cleared. */
  lemma ForgottenIsInstalledIff(l: Log, ok: bool, current: string, b: Binary, luck: ApplyLuck)
    requires l.files.exe.Some? && b.version in Listing(l.files.refused)
    requires Newer(current, b.version) && SmokeTest(b, b.version)
    requires luck.writable && luck.swap.aside && luck.swap.install
    ensures Installs(Forget(l, ok), Check(current, Release(b.version, Some(b)), luck)) <==> ok
  {
    ForgettingIs(l, ok);
    if ok {
      UnlistedIsInstalled(Forget(l, ok), current, b, luck);
    } else {
      ListedIsNotInstalled(l, current, b, luck);
    }
  }

  lemma ListedIsNotInstalled(l: Log, current: string, b: Binary, luck: ApplyLuck)
    requires b.version in Listing(l.files.refused)
    ensures !Installs(l, Check(current, Release(b.version, Some(b)), luck))
  {
    RefusedIsNotInstalled(l, current, Release(b.version, Some(b)), luck);
  }

  lemma UnlistedIsInstalled(l: Log, current: string, b: Binary, luck: ApplyLuck)
    requires l.files.exe.Some? && b.version !in Listing(l.files.refused)
    requires Newer(current, b.version) && SmokeTest(b, b.version)
    requires luck.writable && luck.swap.aside && luck.swap.install
    ensures Installs(l, Check(current, Release(b.version, Some(b)), luck))
  {
    TryingIsInstalling(l, current, Release(b.version, Some(b)), luck);
    InstallEnds(l, current, b.version, b, luck);
  }

  //////// Given up on

  /** Versions that can be installed have no white space around them. */
  predicate Trim(version: string) { Parsed(version).Some? ==> TrimSpace(version) == version }

  /** Nothing clears the list, no write of it is cut off, and what is offered reads back. */
  predicate Unforgotten(event: Event) {
    && (event.Forgot? ==> !event.ok)
    && (event.Restart? ==> !event.start.roll.refuse.Torn?)
    && (event.Check? && event.answer.Release? ==> Trim(event.answer.version))
  }

  // What is on probation, if anything is, reads back.
  predicate CleanMark(f: Files) { ReadMark(f.mark).Some? ==> Clean(ReadMark(f.mark).value.installed) }

  /** How many times a version is given up on that was not on the list. */
  function Refusals(l: Log, events: seq<Event>): nat
    decreases |events|
  {
    if events == [] then 0
    else
      var next := After(l, events[0]);
      (if next.files.refused != l.files.refused then 1 else 0) + Refusals(next, events[1..])
  }

  ghost predicate NeverInstalls(l: Log, events: seq<Event>, version: string)
    decreases |events|
  {
    events != [] ==>
      && !(Installs(l, events[0]) && events[0].answer.version == version)
      && NeverInstalls(After(l, events[0]), events[1..], version)
  }

  // The list takes one version it did not have.
  predicate Adds(before: Files, version: string, after: Files) {
    && version !in Listing(before.refused)
    && Listing(after.refused) == Refuse(Listing(before.refused), version)
  }

  // One event: the mark stays clean, and the list stays as it is or takes one clean version.
  lemma OneEvent(l: Log, event: Event)
    requires Unforgotten(event) && CleanMark(l.files)
    ensures var after := After(l, event).files;
            && CleanMark(after)
            && (after.refused == l.files.refused
                || (ReadMark(l.files.mark).Some? && Adds(l.files, ReadMark(l.files.mark).value.installed, after)))
  {
    match event {
      case Check(current, answer, luck) =>
        CheckWrites(l, current, answer, luck);
        if answer.Release? && Parsed(answer.version).Some? {
          InstallableIsCleanIff(answer.version);
        }
      case Restart(start) => OneStart(l, start);
      case _ =>
    }
  }

  lemma OneStart(l: Log, start: StartLuck)
    requires CleanMark(l.files) && !start.roll.refuse.Torn?
    ensures var after := StartUp(l, start).0.files;
            && CleanMark(after)
            && (after.refused == l.files.refused
                || (ReadMark(l.files.mark).Some? && Adds(l.files, ReadMark(l.files.mark).value.installed, after)))
  {
    if ReadMark(l.files.mark).Some? {
      var p := ReadMark(l.files.mark).value;
      var counted := p.(starts := p.starts + 1);
      RollBackMarks(l, counted, start.roll);
      RollBackRefuses(l, counted, start.roll);
      CleanRefusalIs(l.files.refused, p.installed);
    }
  }

  // One event moves a listed version at most one place toward the end it is dropped from.
  lemma ListedThroughOneEvent(l: Log, event: Event, version: string, k: nat) returns (k': nat)
    requires CleanMark(l.files) && Unforgotten(event)
    requires k < |Listing(l.files.refused)| <= MAX_REFUSED && Listing(l.files.refused)[k] == version
    requires k > 0 || |Listing(l.files.refused)| < MAX_REFUSED || After(l, event).files.refused == l.files.refused
    ensures CleanMark(After(l, event).files) && !(Installs(l, event) && event.answer.version == version)
    ensures k' < |Listing(After(l, event).files.refused)| <= MAX_REFUSED
    ensures Listing(After(l, event).files.refused)[k'] == version
    ensures |Listing(After(l, event).files.refused)| - k' ==
            |Listing(l.files.refused)| - k + (if After(l, event).files.refused != l.files.refused then 1 else 0)
  {
    var list, after := Listing(l.files.refused), After(l, event).files.refused;
    OneEvent(l, event);
    if event.Check? && event.answer.Release? && event.answer.version == version {
      assert version in list;
      RefusedIsNotInstalled(l, event.current, event.answer, event.luck);
    }
    if after == l.files.refused {
      k' := k;
    } else {
      k' := ListedThroughRefusal(list, ReadMark(l.files.mark).value.installed, k);
    }
  }

  lemma ListedThroughRefusal(list: seq<string>, refused: string, k: nat) returns (k': nat)
    requires k < |list| <= MAX_REFUSED && refused !in list && (k > 0 || |list| < MAX_REFUSED)
    ensures var next := Refuse(list, refused);
            k' < |next| <= MAX_REFUSED && next[k'] == list[k] && |next| - k' == |list| - k + 1
  {
    k' := k - (|list| + 1 - |Refuse(list, refused)|);
  }

  /** A version on the list is not installed while there is room behind it: the last of ten
      places counts from the newest end, and each version newly given up on takes one. Later
      refusals may fail to be written, as long as none is cut off. */
  lemma {:induction false} NotInstalledWhileListed(l: Log, events: seq<Event>, version: string, k: nat)
    requires CleanMark(l.files) && forall e :: e in events ==> Unforgotten(e)
    requires k < |Listing(l.files.refused)| <= MAX_REFUSED && Listing(l.files.refused)[k] == version
    requires |Listing(l.files.refused)| - k + Refusals(l, events) <= MAX_REFUSED
    ensures NeverInstalls(l, events, version)
    decreases |events|
  {
    if events != [] {
      assert events[0] in events;
      var k' := ListedThroughOneEvent(l, events[0], version, k);
      NotInstalledWhileListed(After(l, events[0]), events[1..], version, k');
    }
  }

  lemma GivenUpIsNewest(l: Log, luck: StartLuck)
    requires CleanMark(l.files) && |Listing(l.files.refused)| <= MAX_REFUSED
    requires StartUp(l, luck).1.RolledBack? && luck.roll.refuse.Done?
    requires StartUp(l, luck).1.failed !in Listing(l.files.refused)
    ensures var after, list := StartUp(l, luck).0.files, Listing(StartUp(l, luck).0.files.refused);
            && CleanMark(after) && 0 < |list| <= MAX_REFUSED
            && list[|list| - 1] == StartUp(l, luck).1.failed
  {
    OneStart(l, luck);
    GivenUpIsRecognisedIff(l, luck);
    RefuseAdds(Listing(l.files.refused), StartUp(l, luck).1.failed);
  }

  /** A version rolled back from, its refusal written, is not installed again by any process in
      any history until the list is cleared, a write of it is cut off or ten others have been
      given up on. */
  lemma NotInstalledAgain(l: Log, luck: StartLuck, events: seq<Event>)
    requires CleanMark(l.files) && forall e :: e in events ==> Unforgotten(e)
    requires StartUp(l, luck).1.RolledBack? && luck.roll.refuse.Done? && |Listing(l.files.refused)| <= MAX_REFUSED
    requires StartUp(l, luck).1.failed !in Listing(l.files.refused)
    requires Refusals(StartUp(l, luck).0, events) < MAX_REFUSED
    ensures NeverInstalls(StartUp(l, luck).0, events, StartUp(l, luck).1.failed)
  {
    GivenUpIsNewest(l, luck);
    var after, failed := StartUp(l, luck).0, StartUp(l, luck).1.failed;
    NotInstalledWhileListed(after, events, failed, |Listing(after.files.refused)| - 1);
  }
}
