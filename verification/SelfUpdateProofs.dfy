/** Safety of self-update: no crash point loses a binary, probation ends, and what opens, keeps
    and loses the way back. */
module SelfUpdateProofs {
  import opened Wrappers
  import opened Text
  import opened Versions
  import opened SelfUpdate
  import opened SelfUpdateRefusals

  //////// Binaries are conserved

  /** What must not be lost: one binary, or two of them in places of their own. */
  datatype Stock = One(a: Binary) | Two(a: Binary, b: Binary)

  predicate Safe(f: Files, stock: Stock) {
    var a := Some(stock.a);
    match stock
    case One(_) => f.exe == a || f.old_ == a || f.back == a
    case Two(_, second) =>
      var b := Some(second);
      || (f.exe == a && (f.old_ == b || f.back == b))
      || (f.old_ == a && (f.exe == b || f.back == b))
      || (f.back == a && (f.exe == b || f.old_ == b))
  }

  /** The operations from `l` to `after` only add states, and each one added is safe. */
  ghost predicate SafeThroughout(l: Log, after: Log, stock: Stock) {
    && l.trace <= after.trace
    && forall i :: |l.trace| <= i < |after.trace| ==> Safe(after.trace[i], stock)
  }

  lemma RenameIsSafe(l: Log, mid: Log, from: Slot, to: Slot, ok: bool, stock: Stock)
    requires SafeThroughout(l, mid, stock)
    requires Moves(mid, from, ok) ==> Safe(Renamed(mid, from, to, ok).files, stock)
    ensures SafeThroughout(l, Renamed(mid, from, to, ok), stock)
  {
  }

  /** Whichever renames fail, and wherever the machine stops, the binary that was installed
      when the swap began is at `exe` or `.old`; what a swap that returns has done. */
  lemma SwapConserves(l: Log, luck: SwapLuck)
    requires l.files.exe.Some?
    ensures SafeThroughout(l, Swap(l, luck).0, One(l.files.exe.value))
  {
  }

  lemma SwapEnds(l: Log, luck: SwapLuck)
    requires l.files.exe.Some?
    ensures var (after, result) := Swap(l, luck);
            && (result.Swapped? ==> after.files.exe == l.files.new_ && after.files.old_ == l.files.exe)
            && (result.AsideFailed? || result.InstallFailed? ==> after.files.exe == l.files.exe)
            && (after.files.exe.None? <==> result.NothingLeft?)
            && (result.NothingLeft? ==> after.files.old_ == l.files.exe && !luck.restore
                                        && (l.files.new_.Some? ==> !luck.install))
  {
  }

  /** The same for going back: the failed binary and the previous one, each in a place of its
      own, at every crash point. */
  lemma RollBackConserves(l: Log, p: Probation, luck: RollLuck)
    requires l.files.exe.Some? && l.files.old_.Some?
    ensures SafeThroughout(l, RollBack(l, p, luck).0, Two(l.files.exe.value, l.files.old_.value))
  {
    var stock := Two(l.files.exe.value, l.files.old_.value);
    if SmokeTest(l.files.old_.value, p.previous) {
      var l0 := Refused(l, p.installed, luck.refuse);
      RefusalIsSafe(l, p.installed, luck.refuse, stock);
      RenameIsSafe(l, l0, Old, Back, luck.stage, stock);
      if luck.stage {
        var l1 := Renamed(l0, Old, Back, luck.stage);
        RenameIsSafe(l, l1, Exe, Old, luck.aside, stock);
        var l2 := Renamed(l1, Exe, Old, luck.aside);
        if luck.aside {
          RenameIsSafe(l, l2, Back, Exe, luck.install, stock);
          RenameIsSafe(l, Renamed(l2, Back, Exe, luck.install), Old, Exe, !luck.install && luck.restore, stock);
        } else {
          RenameIsSafe(l, l2, Back, Old, luck.unstage, stock);
        }
      }
    }
  }

  lemma RefusalIsSafe(l: Log, version: string, write: Write, stock: Stock)
    requires Safe(l.files, stock)
    ensures SafeThroughout(l, Refused(l, version, write), stock)
    ensures Refused(l, version, write).files == l.files.(refused := Refused(l, version, write).files.refused)
  {
  }

  /** `exe` ends up empty only when two renames failed, and otherwise holds the previous binary
      or the one it held. */
  lemma RollBackEnds(l: Log, p: Probation, luck: RollLuck)
    requires l.files.exe.Some?
    ensures var (after, result) := RollBack(l, p, luck);
            && (result.Restored? ==> after.files.exe == l.files.old_ && after.files.old_ == l.files.exe)
            && (after.files.exe.None? <==> result.RollNothingLeft?)
            && (result.RollNothingLeft? ==> !luck.install && !luck.restore)
            && (!result.Restored? && !result.RollNothingLeft? ==> after.files.exe == l.files.exe)
  {
  }

  /** Conservation is about the binary at `exe`. After a swap whose undoing failed there is
      none there, the only copy is at `.old`, and the next attempt begins by removing it:
      everything is lost exactly when that removal works. */
  lemma SwapWithoutExeLosesIff(l: Log, luck: SwapLuck)
    requires l.files.exe.None? && l.files.old_.Some?
    ensures Swap(l, luck).1.AsideFailed?
    ensures Safe(Swap(l, luck).0.files, One(l.files.old_.value)) <==>
            !luck.remove || l.files.back == l.files.old_
  {
  }

  /** An update tried while another is on probation takes the way back from it: if it then
      fails, what was at `exe` and at `.old` is still there exactly when neither the removal of
      `.old` nor the first rename worked. */
  lemma FailedSwapKeepsTheWayBackIff(l: Log, luck: SwapLuck)
    requires l.files.exe.Some? && l.files.old_.Some? && !Swap(l, luck).1.Swapped?
    ensures var after := Swap(l, luck).0.files;
            && after.mark == l.files.mark
            && (after.exe == l.files.exe && after.old_ == l.files.old_ <==> !luck.remove && !luck.aside)
  {
  }

  //////// Probation ends

  function FailedWrites(lucks: seq<StartLuck>): nat {
    if lucks == [] then 0 else FailedWrites(lucks[1..]) + (if lucks[0].write.Done? then 0 else 1)
  }

  ghost predicate AllOnProbation(l: Log, lucks: seq<StartLuck>)
    decreases |lucks|
  {
    lucks != [] ==> StartUp(l, lucks[0]).1.OnProbation? && AllOnProbation(StartUp(l, lucks[0]).0, lucks[1..])
  }

  lemma UnwatchedIsNotOnProbation(l: Log, lucks: seq<StartLuck>)
    requires ReadMark(l.files.mark).None? && AllOnProbation(l, lucks)
    ensures lucks == []
  {
  }

  /** A version that never settles gets at most three starts, and one more for every start
      that could not be written down in full. */
  lemma {:induction false} ProbationIsBounded(l: Log, lucks: seq<StartLuck>)
    requires ReadMark(l.files.mark).Some? && ReadMark(l.files.mark).value.starts <= 3
    requires AllOnProbation(l, lucks)
    ensures |lucks| <= 3 - ReadMark(l.files.mark).value.starts + FailedWrites(lucks)
    decreases |lucks|
  {
    if lucks != [] {
      var next := StartUp(l, lucks[0]).0;
      if lucks[0].write.Torn? {
        UnwatchedIsNotOnProbation(next, lucks[1..]);
      } else {
        ProbationIsBounded(next, lucks[1..]);
      }
    }
  }

  // Going back changes the list in one place.
  lemma RollBackRefuses(l: Log, p: Probation, luck: RollLuck)
    ensures var (after, result) := RollBack(l, p, luck);
            after.files.refused == if result.NoWayBack? then l.files.refused
                                   else Refused(l, p.installed, luck.refuse).files.refused
  {
  }

  /** The file after a refusal knows the version exactly when it did before, when the refusal
      was written in full and reads back, or when a write cut off happens to leave it there. */
  predicate Recognised(text: string, version: string, write: Write) {
    || version in Listing(text)
    || (write.Done? && Clean(version))
    || (write.Torn? && version in Listing(write.left))
  }

  lemma RefusedIsRecognisedIff(l: Log, version: string, write: Write)
    ensures version in Listing(Refused(l, version, write).files.refused) <==>
            Recognised(l.files.refused, version, write)
  {
    if version !in Listing(l.files.refused) {
      RecognisedIff(l.files.refused, version);
    }
  }

  /** The start after the last attempt ends probation: it goes back or it says it is stuck,
      and what it restored is the recorded previous version. */
  lemma LastStartDecides(l: Log, luck: StartLuck)
    requires ReadMark(l.files.mark).Some? && ReadMark(l.files.mark).value.starts >= PROBATION_STARTS
    requires l.files.exe.Some? && luck.clear
    ensures var p := ReadMark(l.files.mark).value;
            var (after, started) := StartUp(l, luck);
            && (started == RolledBack(p.previous, p.installed) || started == Stuck(p.installed))
            && after.files.mark == NoFile
            && (started.RolledBack? ==>
                  && after.files.exe == l.files.old_ && after.files.old_ == l.files.exe
                  && SmokeTest(after.files.exe.value, p.previous))
            && (started.Stuck? ==> after.files.exe == l.files.exe || (!luck.roll.install && !luck.roll.restore))
  {
    var p := ReadMark(l.files.mark).value;
    RollBackEnds(l, p.(starts := p.starts + 1), luck.roll);
  }

  /** The version gone back from is recognised from then on exactly when it already was, when its
      refusal was written in full and the file gives it back as it is, or when the write was cut
      off and what it left holds it. */
  lemma GivenUpIsRecognisedIff(l: Log, luck: StartLuck)
    requires StartUp(l, luck).1.RolledBack?
    ensures var failed := StartUp(l, luck).1.failed;
            failed in Listing(StartUp(l, luck).0.files.refused) <==>
            Recognised(l.files.refused, failed, luck.roll.refuse)
  {
    var p := ReadMark(l.files.mark).value;
    RollBackRefuses(l, p.(starts := p.starts + 1), luck.roll);
    RefusedIsRecognisedIff(l, p.installed, luck.roll.refuse);
  }

  //////// What the smoke test tells apart

  lemma NumeralHasNoDot(n: nat)
    ensures multiset(Itoa(n))['.'] == 0
  {
    assert '.' !in Itoa(n);
  }

  lemma TagHasTwoDots(major: nat, minor: nat, patch: nat)
    ensures multiset(Tag(major, minor, patch))['.'] == 2
  {
    NumeralHasNoDot(major);
    NumeralHasNoDot(minor);
    NumeralHasNoDot(patch);
    DotsAdd("v" + Itoa(major) + "." + Itoa(minor) + ".", Itoa(patch));
    DotsAdd("v" + Itoa(major) + ".", Itoa(minor) + ".");
    DotsAdd(Itoa(minor), ".");
    DotsAdd("v", Itoa(major) + ".");
    DotsAdd(Itoa(major), ".");
    Associative("v", Itoa(major), ".");
    Associative("v" + Itoa(major) + ".", Itoa(minor), ".");
  }

  lemma DotsAdd(a: string, b: string)
    ensures multiset(a + b)['.'] == multiset(a)['.'] + multiset(b)['.']
  {
  }

  lemma TagShape(major: nat, minor: nat, patch: nat)
    ensures var t := Tag(major, minor, patch);
            t != "" && t[0] == 'v' && forall i :: 1 <= i < |t| ==> IsDigit(t[i]) || t[i] == '.'
  {
  }

  // A tag that goes on where another ends goes on with a digit.
  lemma GoesOnWithADigit(t: string, s: string)
    requires |s| < |t| && s != "" && s == t[..|s|] && multiset(s)['.'] == multiset(t)['.']
    requires forall i :: 1 <= i < |t| ==> IsDigit(t[i]) || t[i] == '.'
    ensures IsDigit(t[|s|])
  {
    var rest := t[|s|..];
    assert t == s + rest && rest[0] == t[|s|];
    assert multiset(rest)['.'] == 0;
    assert rest[0] != '.' by {
      assert rest[0] in multiset(rest);
    }
  }

  /** A binary that prints its tag among other words, none of them holding another such tag,
      passes for exactly the versions whose tag its own begins with: v1.4.10 for v1.4.1. */
  lemma SmokeTestPassesIff(b: Binary, pre: string, own: (nat, nat, nat), post: string, want: (nat, nat, nat))
    requires b.output == pre + Tag(own.0, own.1, own.2) + post
    requires 'v' !in pre && (post == "" || !IsDigit(post[0]))
    requires forall i :: !FoundAt(post, Tag(want.0, want.1, want.2), i)
    ensures SmokeTest(b, Tag(want.0, want.1, want.2)) <==>
            b.runs && Tag(want.0, want.1, want.2) <= Tag(own.0, own.1, own.2)
  {
    TagShape(own.0, own.1, own.2);
    TagShape(want.0, want.1, want.2);
    TagHasTwoDots(own.0, own.1, own.2);
    TagHasTwoDots(want.0, want.1, want.2);
    FoundIff(pre, Tag(own.0, own.1, own.2), post, Tag(want.0, want.1, want.2));
  }

  lemma NotFoundElsewhere(pre: string, own: string, post: string, want: string, i: int)
    requires 'v' !in pre && i != |pre| && !FoundAt(post, want, i - |pre| - |own|)
    requires want != "" && want[0] == 'v'
    requires forall k :: 1 <= k < |own| ==> IsDigit(own[k]) || own[k] == '.'
    ensures !FoundAt(pre + own + post, want, i)
  {
    var out := pre + own + post;
    if 0 <= i <= |out| - |want| {
      assert out[i..i + |want|][0] == out[i];
      if i < |pre| {
        assert out[i] == pre[i] && pre[i] in pre;
      } else if i < |pre| + |own| {
        assert out[i] == own[i - |pre|];
      } else {
        var k := i - |pre| - |own|;
        assert out[i..i + |want|] == post[k..k + |want|];
      }
    }
  }

  lemma FoundAtTheTag(pre: string, own: string, post: string, want: string)
    requires FoundAt(pre + own + post, want, |pre|) && (post == "" || !IsDigit(post[0]))
    requires own != "" && multiset(own)['.'] == multiset(want)['.']
    requires forall k :: 1 <= k < |want| ==> IsDigit(want[k]) || want[k] == '.'
    ensures want <= own
  {
    var out := pre + own + post;
    assert forall k :: 0 <= k < |want| ==> want[k] == out[|pre| + k];
    if |own| < |want| {
      assert want[|own|] == post[0] && own == want[..|own|];
      GoesOnWithADigit(want, own);
    }
  }

  lemma FoundIff(pre: string, own: string, post: string, want: string)
    requires 'v' !in pre && (post == "" || !IsDigit(post[0])) && forall i :: !FoundAt(post, want, i)
    requires own != "" && want != "" && want[0] == 'v' && multiset(own)['.'] == multiset(want)['.']
    requires forall k :: 1 <= k < |own| ==> IsDigit(own[k]) || own[k] == '.'
    requires forall k :: 1 <= k < |want| ==> IsDigit(want[k]) || want[k] == '.'
    ensures Contains(pre + own + post, want) <==> want <= own
  {
    var out := pre + own + post;
    forall i | i != |pre|
      ensures !FoundAt(out, want, i)
    {
      NotFoundElsewhere(pre, own, post, want, i);
    }
    ContainedAtOnePlace(out, want, |pre|);
    if want <= own {
      FoundAfter(pre, own, post, want);
    } else if FoundAt(out, want, |pre|) {
      FoundAtTheTag(pre, own, post, want);
    }
  }

  lemma ContainedAtOnePlace(s: string, t: string, at: nat)
    requires forall i :: i != at ==> !FoundAt(s, t, i)
    ensures Contains(s, t) <==> FoundAt(s, t, at)
  {
  }

  lemma FoundAfter(pre: string, own: string, post: string, want: string)
    requires want <= own
    ensures FoundAt(pre + own + post, want, |pre|)
  {
    assert (pre + own + post)[|pre|..|pre| + |want|] == own[..|want|];
  }

  /** Such a pair. */
  lemma SmokeTestIsContainment()
    ensures Tag(1, 4, 1) <= Tag(1, 4, 10) && Tag(1, 4, 1) != Tag(1, 4, 10)
    ensures var output := "sion-backup " + Tag(1, 4, 10) + " (linux/amd64, go1.24)\n";
            SmokeTest(Binary(Tag(1, 4, 10), output, true), Tag(1, 4, 1))
  {
    assert Itoa(10) == Itoa(1) + Itoa(0);
    assert Tag(1, 4, 10) == Tag(1, 4, 1) + Itoa(0);
    FoundAfter("sion-backup ", Tag(1, 4, 1), Itoa(0) + " (linux/amd64, go1.24)\n", Tag(1, 4, 1));
    assert "sion-backup " + Tag(1, 4, 1) + (Itoa(0) + " (linux/amd64, go1.24)\n") ==
           "sion-backup " + Tag(1, 4, 10) + " (linux/amd64, go1.24)\n";
  }

  //////// A version given up on

  lemma RefusedIsNotInstalled(l: Log, current: string, answer: Answer, luck: ApplyLuck)
    requires answer.Release? && answer.version in Listing(l.files.refused)
    ensures Apply(l, current, answer, luck).0 == l && !Apply(l, current, answer, luck).1.Installed?
  {
  }

  lemma InstallEnds(l: Log, current: string, version: string, binary: Binary, luck: ApplyLuck)
    requires l.files.exe.Some?
    ensures var (after, applied) := Install(l, current, version, binary, luck);
            var f := after.files;
            && f.refused == l.files.refused && f.back == l.files.back
            && (applied == Installed(version) || applied == ApplyFailed)
            && (applied.Installed? ==>
                  && SmokeTest(binary, version) && f.exe == Some(binary) && f.old_ == l.files.exe
                  && f.mark == MarkAfter(l.files.mark, Holds(Probation(version, current, 0)), luck.begin))
            && (!applied.Installed? ==> (f.exe == l.files.exe || f.exe.None?) && f.mark == l.files.mark)
            && (applied.Installed? <==> luck.swap.aside && luck.swap.install && SmokeTest(binary, version))
  {
    SwapEnds(l.Becomes(l.files.Put(New, Some(binary))), luck.swap);
  }

  /** One install, seen from both sides. */
  lemma InstallIs(l: Log, current: string, answer: Answer, luck: ApplyLuck)
    requires l.files.exe.Some? && Apply(l, current, answer, luck).1.Installed?
    ensures answer.Release? && answer.binary.Some? && SmokeTest(answer.binary.value, answer.version)
    ensures Newer(current, answer.version) && answer.version !in Listing(l.files.refused)
    ensures Apply(l, current, answer, luck).1 == Installed(answer.version)
    ensures luck.writable && luck.swap.aside && luck.swap.install
    ensures var after := Apply(l, current, answer, luck).0.files;
            && after.exe == answer.binary && after.old_ == l.files.exe
            && after.refused == l.files.refused && after.back == l.files.back
            && after.mark == MarkAfter(l.files.mark, Holds(Probation(answer.version, current, 0)), luck.begin)
  {
    InstallEnds(l, current, answer.version, answer.binary.value, luck);
  }

  lemma NoInstallIs(l: Log, current: string, answer: Answer, luck: ApplyLuck)
    requires l.files.exe.Some? && !Apply(l, current, answer, luck).1.Installed?
    ensures var after := Apply(l, current, answer, luck).0.files;
            && (after.exe == l.files.exe || after.exe.None?)
            && after.refused == l.files.refused && after.mark == l.files.mark
  {
    if answer.Release? && answer.binary.Some? {
      InstallEnds(l, current, answer.version, answer.binary.value, luck);
    }
  }

  //////// What the callers must not do

  /** Applying again before the restart: the process still calls itself by the version it
      started as, so the same release installs a second time, the original binary is gone, and
      the rollback this leaves recorded is to a version that is no longer there. */
  lemma ApplyingTwiceLosesTheOriginal(
    l: Log, current: string, answer: Answer, first: ApplyLuck, second: ApplyLuck)
    requires answer.Release?
    requires l.files.exe.Some? && l.files.exe != answer.binary && l.files.back.None?
    requires Apply(l, current, answer, first).1.Installed?
    requires second.writable && second.begin.Done? && second.swap.aside && second.swap.install
    ensures var once := Apply(l, current, answer, first).0;
            var (twice, applied) := Apply(once, current, answer, second);
            && applied.Installed?
            && !Safe(twice.files, One(l.files.exe.value))
            && twice.files.mark == Holds(Probation(answer.version, current, 0))
            && twice.files.old_ == answer.binary
            && (!SmokeTest(answer.binary.value, current) ==>
                  forall luck :: RollBack(twice, Probation(answer.version, current, 4), luck).1.NoWayBack?)
  {
    InstallIs(l, current, answer, first);
    var once := Apply(l, current, answer, first).0;
    InstallEnds(once, current, answer.version, answer.binary.value, second);
  }

  /** Settling from the process that installed rather than from the one installed: the new
      version is believed without having started once, and no start ever looks at it again. */
  lemma SettlingTooSoon(l: Log, current: string, answer: Answer, luck: ApplyLuck, start: StartLuck)
    requires answer.Release? && answer.version != "" && l.files.exe.Some? && l.files.back.None?
    requires Apply(l, current, answer, luck).1.Installed? && luck.begin.Done?
    ensures var settled := Settle(Apply(l, current, answer, luck).0, true, true);
            && settled.files.exe == answer.binary && settled.files.old_.None? && settled.files.back.None?
            && ReadMark(settled.files.mark).None?
            && StartUp(settled, start).1 == Nothing
  {
    InstallIs(l, current, answer, luck);
    SettlingIsTheEnd(Apply(l, current, answer, luck).0, start);
  }

  lemma SettlingIsTheEnd(l: Log, start: StartLuck)
    requires ReadMark(l.files.mark).Some?
    ensures var settled := Settle(l, true, true);
            && settled.files == l.files.(mark := NoFile, old_ := None)
            && StartUp(settled, start).1 == Nothing
  {
  }

  //////// The way back

  /** On probation, what is installed is the version being tried and what is beside it is the
      version it replaced. */
  ghost predicate WayBack(f: Files) {
    var read := ReadMark(f.mark);
    read.Some? ==>
      && f.exe.Some? && f.exe.value.version == read.value.installed
      && f.old_.Some? && f.old_.value.version == read.value.previous
  }

  /** An update that happened opens a way back exactly when the process that made it was the
      version at `exe`. */
  lemma InstallOpensTheWayBackIff(l: Log, current: string, answer: Answer, luck: ApplyLuck)
    requires l.files.exe.Some? && Apply(l, current, answer, luck).1.Installed? && luck.begin.Done?
    requires answer.binary.Some? ==> answer.binary.value.version == answer.version
    ensures WayBack(Apply(l, current, answer, luck).0.files) <==> l.files.exe.value.version == current
  {
    InstallIs(l, current, answer, luck);
  }

  /** The update gets as far as a verified download. */
  predicate Tries(l: Log, current: string, answer: Answer, luck: ApplyLuck) {
    && answer.Release? && Newer(current, answer.version)
    && answer.version !in Listing(l.files.refused)
    && luck.writable && answer.binary.Some?
  }

  /** It gets as far as moving files about. */
  predicate ReachesSwap(l: Log, current: string, answer: Answer, luck: ApplyLuck) {
    Tries(l, current, answer, luck) && SmokeTest(answer.binary.value, answer.version)
  }

  lemma TryingIsInstalling(l: Log, current: string, answer: Answer, luck: ApplyLuck)
    requires Tries(l, current, answer, luck)
    ensures Apply(l, current, answer, luck) == Install(l, current, answer.version, answer.binary.value, luck)
  {
  }

  lemma NotTryingLeavesAlone(l: Log, current: string, answer: Answer, luck: ApplyLuck)
    requires !Tries(l, current, answer, luck)
    ensures Apply(l, current, answer, luck).0 == l || Apply(l, current, answer, luck).0 == Removed(l, New, luck.sweep)
  {
  }

  lemma FailedInstallKeepsTheWayBackIff(l: Log, current: string, version: string, binary: Binary, luck: ApplyLuck)
    requires SmokeTest(binary, version) && !Install(l, current, version, binary, luck).1.Installed?
    requires ReadMark(l.files.mark).Some? && WayBack(l.files)
    ensures WayBack(Install(l, current, version, binary, luck).0.files) <==> !luck.swap.remove && !luck.swap.aside
  {
    var staged := l.Becomes(l.files.Put(New, Some(binary)));
    FailedSwapKeepsTheWayBackIff(staged, luck.swap);
    SwapEnds(staged, luck.swap);
  }

  lemma NoSwapLeavesAlone(l: Log, current: string, answer: Answer, luck: ApplyLuck)
    requires !ReachesSwap(l, current, answer, luck)
    ensures var after := Apply(l, current, answer, luck).0.files;
            after.exe == l.files.exe && after.old_ == l.files.old_ && after.mark == l.files.mark
  {
    if Tries(l, current, answer, luck) {
      TryingIsInstalling(l, current, answer, luck);
      FailedSmokeTestLeavesAlone(l, current, answer.version, answer.binary.value, luck);
    } else {
      NotTryingLeavesAlone(l, current, answer, luck);
    }
  }

  lemma FailedSmokeTestLeavesAlone(l: Log, current: string, version: string, binary: Binary, luck: ApplyLuck)
    requires !SmokeTest(binary, version)
    ensures var after := Install(l, current, version, binary, luck).0.files;
            after.exe == l.files.exe && after.old_ == l.files.old_ && after.mark == l.files.mark
  {
  }

  /** One that did not happen keeps an open way back exactly when it never got to the swap, or
      the swap's first two operations both failed. */
  lemma NoInstallKeepsTheWayBackIff(l: Log, current: string, answer: Answer, luck: ApplyLuck)
    requires !Apply(l, current, answer, luck).1.Installed?
    requires ReadMark(l.files.mark).Some? && WayBack(l.files)
    ensures WayBack(Apply(l, current, answer, luck).0.files) <==>
            !ReachesSwap(l, current, answer, luck) || (!luck.swap.remove && !luck.swap.aside)
  {
    if ReachesSwap(l, current, answer, luck) {
      TryingIsInstalling(l, current, answer, luck);
      FailedInstallKeepsTheWayBackIff(l, current, answer.version, answer.binary.value, luck);
    } else {
      NoSwapLeavesAlone(l, current, answer, luck);
    }
  }

  /** A crash while a start is being counted loses the way back exactly when it comes after the
      file was emptied and before it was written: the next start watches nothing, and removes
      the previous binary. A count cut off without a crash is the same. */
  lemma CrashWhileCountingLosesTheWayBackIff(l: Log, luck: StartLuck, i: nat, next: StartLuck)
    requires ReadMark(l.files.mark).Some? && ReadMark(l.files.mark).value.starts < PROBATION_STARTS
    requires |l.trace| <= i < |StartUp(l, luck).0.trace|
    ensures var crashed := StartUp(l, luck).0.trace[i];
            var (after, started) := StartUp(Log(crashed, []), next);
            && crashed == l.files.(mark := crashed.mark)
            && (crashed.mark == Unreadable <==> i == |l.trace| || luck.write.Torn?)
            && (started == Nothing <==> i == |l.trace| || luck.write.Torn?)
            && (started == Nothing ==> (after.files.old_.None? <==> l.files.old_.None? || next.removeOld))
            && (started != Nothing ==> ReadMark(crashed.mark).value.starts == ReadMark(l.files.mark).value.starts + 1)
  {
  }

  /** With the way back open, a previous binary that still runs and says its own version is
      restored whenever the three renames succeed. */
  lemma WayBackIsTaken(l: Log, luck: StartLuck)
    requires ReadMark(l.files.mark).Some? && WayBack(l.files)
    requires ReadMark(l.files.mark).value.starts >= PROBATION_STARTS
    requires SmokeTest(l.files.old_.value, l.files.old_.value.version)
    requires luck.roll.stage && luck.roll.aside && luck.roll.install
    ensures var p := ReadMark(l.files.mark).value;
            var (after, started) := StartUp(l, luck);
            started == RolledBack(p.previous, p.installed) && after.files.exe == l.files.old_
  {
  }
}
