/** What each operation of an update answers, and what it leaves in every file, told from what was
    there and from what failed. */
module SelfUpdateAnswers {
  import opened Wrappers
  import opened Text
  import opened Versions
  import opened SelfUpdate
  import opened SelfUpdateProofs

  //////// Looking for an update

  /** The version offered is not wanted: it is no newer, or it was given up on here. */
  predicate Unwanted(l: Log, current: string, answer: Answer) {
    answer.Release? && (!Newer(current, answer.version) || answer.version in Listing(l.files.refused))
  }

  lemma UnwantedIsLeft(l: Log, current: string, answer: Answer, luck: ApplyLuck)
    requires Unwanted(l, current, answer)
    ensures Apply(l, current, answer, luck) == (l, NothingToDo)
  {
  }

  /** Without an answer that can be installed, or without a place to write to, it fails and has
      touched nothing. */
  lemma UnansweredIsLeft(l: Log, current: string, answer: Answer, luck: ApplyLuck)
    requires !answer.Release? || (!Unwanted(l, current, answer) && !luck.writable)
    ensures Apply(l, current, answer, luck) == (l, ApplyFailed)
  {
  }

  /** A download that fails leaves at most what was half-way there. */
  lemma FailedDownloadIsSwept(l: Log, current: string, answer: Answer, luck: ApplyLuck)
    requires answer.Release? && !Unwanted(l, current, answer) && luck.writable && answer.binary.None?
    ensures var (after, applied) := Apply(l, current, answer, luck);
            && applied == ApplyFailed
            && after.files == l.files.(new_ := if luck.sweep then None else l.files.new_)
  {
    assert Apply(l, current, answer, luck) == (Removed(l, New, luck.sweep), ApplyFailed);
    NewIsRemoved(l, luck.sweep);
  }

  lemma NewIsRemoved(l: Log, ok: bool)
    ensures Removed(l, New, ok).files == l.files.(new_ := if ok then None else l.files.new_)
  {
  }

  lemma FailedSmokeTestIsSwept(l: Log, current: string, version: string, binary: Binary, luck: ApplyLuck)
    requires !SmokeTest(binary, version)
    ensures var (after, applied) := Install(l, current, version, binary, luck);
            && applied == ApplyFailed
            && after.files == l.files.(new_ := if luck.sweep then None else Some(binary))
  {
  }

  /** The new binary is at `exe`, the one it replaced at `.old`, and nothing at `.new`; a probation
      whose write was cut off is a probation nobody watches. */
  lemma InstallLeaves(l: Log, current: string, version: string, binary: Binary, luck: ApplyLuck)
    requires SmokeTest(binary, version) && l.files.exe.Some? && luck.swap.aside && luck.swap.install
    ensures var (after, applied) := Install(l, current, version, binary, luck);
            && applied == Installed(version)
            && after.files.exe == Some(binary) && after.files.old_ == l.files.exe && after.files.new_ == None
            && after.files.back == l.files.back && after.files.refused == l.files.refused
            && after.files.mark == MarkAfter(l.files.mark, Holds(Probation(version, current, 0)), luck.begin)
  {
  }

  /** A swap that cannot move the old binary aside has at most removed an older one. */
  lemma NotMovedAside(l: Log, current: string, version: string, binary: Binary, luck: ApplyLuck)
    requires SmokeTest(binary, version) && (l.files.exe.None? || !luck.swap.aside)
    ensures var (after, applied) := Install(l, current, version, binary, luck);
            && applied == ApplyFailed
            && after.files == l.files.(old_ := if luck.swap.remove then None else l.files.old_,
                                       new_ := if luck.sweep then None else Some(binary))
  {
  }

  /** One that cannot move the new binary in puts the old one back, if it can. */
  lemma NotMovedIn(l: Log, current: string, version: string, binary: Binary, luck: ApplyLuck)
    requires SmokeTest(binary, version) && l.files.exe.Some? && luck.swap.aside && !luck.swap.install
    ensures var (after, applied) := Install(l, current, version, binary, luck);
            && applied == ApplyFailed
            && after.files == l.files.(exe := if luck.swap.restore then l.files.exe else None,
                                       old_ := if luck.swap.restore then None else l.files.exe,
                                       new_ := if luck.sweep then None else Some(binary))
  {
  }

  /** So an update is answered "installed" exactly when it is wanted, downloads, passes for its
      version, and both renames of the swap work; and "nothing to do" exactly when it is not
      wanted. */
  lemma AppliedIff(l: Log, current: string, answer: Answer, luck: ApplyLuck)
    ensures var applied := Apply(l, current, answer, luck).1;
            && (applied == NothingToDo <==> Unwanted(l, current, answer))
            && (applied.Installed? <==>
                  && answer.Release? && !Unwanted(l, current, answer) && luck.writable && answer.binary.Some?
                  && SmokeTest(answer.binary.value, answer.version)
                  && l.files.exe.Some? && luck.swap.aside && luck.swap.install)
            && (applied.Installed? ==> applied.version == answer.version)
  {
    if Tries(l, current, answer, luck) {
      TryingIsInstalling(l, current, answer, luck);
      InstalledIff(l, current, answer.version, answer.binary.value, luck);
    }
  }

  lemma InstalledIff(l: Log, current: string, version: string, binary: Binary, luck: ApplyLuck)
    ensures Install(l, current, version, binary, luck).1 ==
            if SmokeTest(binary, version) && l.files.exe.Some? && luck.swap.aside && luck.swap.install
            then Installed(version) else ApplyFailed
  {
    if !SmokeTest(binary, version) {
      FailedSmokeTestIsSwept(l, current, version, binary, luck);
    } else if l.files.exe.None? || !luck.swap.aside {
      NotMovedAside(l, current, version, binary, luck);
    } else if luck.swap.install {
      InstallLeaves(l, current, version, binary, luck);
    } else {
      NotMovedIn(l, current, version, binary, luck);
    }
  }

  //////// Going back

  /** There is a previous binary here, and it still runs and says what it was. */
  predicate CanGoBack(l: Log, p: Probation) { l.files.old_.Some? && SmokeTest(l.files.old_.value, p.previous) }

  lemma NoWayBackIsLeft(l: Log, p: Probation, luck: RollLuck)
    ensures RollBack(l, p, luck).1.NoWayBack? <==> !CanGoBack(l, p)
    ensures !CanGoBack(l, p) ==> RollBack(l, p, luck).0 == l
  {
  }

  /** What going back does to the files, rename by rename, but for the list: each failure puts the
      binaries where they were as far as the renames that undo it work. */
  function WentBack(f: Files, luck: RollLuck): Files {
    if !luck.stage then f
    else if f.exe.None? || !luck.aside then
      (if luck.unstage then f else f.(old_ := None, back := f.old_))
    else if luck.install then f.(exe := f.old_, old_ := f.exe, back := None)
    else if luck.restore then f.(old_ := None, back := f.old_)
    else f.(exe := None, old_ := f.exe, back := f.old_)
  }

  lemma RollBackLeaves(l: Log, p: Probation, luck: RollLuck)
    requires CanGoBack(l, p) && l.files.back.None?
    ensures var (after, result) := RollBack(l, p, luck);
            && after.files == WentBack(l.files, luck).(refused := Refused(l, p.installed, luck.refuse).files.refused)
            && (result.Restored? <==> luck.stage && l.files.exe.Some? && luck.aside && luck.install)
            && (result.StageFailed? <==> !luck.stage)
            && (result.RollAsideFailed? <==> luck.stage && (l.files.exe.None? || !luck.aside))
            && (result.RollInstallFailed? <==>
                  luck.stage && l.files.exe.Some? && luck.aside && !luck.install && luck.restore)
            && (result.RollNothingLeft? <==>
                  luck.stage && l.files.exe.Some? && luck.aside && !luck.install && !luck.restore)
  {
    RefusalWritesTheList(l, p.installed, luck.refuse);
  }

  /** A write that fails before it begins leaves every file as it was. */
  lemma UnbegunIsLeft(l: Log, version: string, mark: Mark)
    ensures Refused(l, version, NotBegun) == l && Marked(l, mark, NotBegun) == l
  {
  }

  lemma RefusalWritesTheList(l: Log, version: string, write: Write)
    ensures Refused(l, version, write).files == l.files.(refused := Refused(l, version, write).files.refused)
  {
  }

  //////// A start

  /** A start answers "nothing" exactly when nothing readable is on probation, and then only tidies
      away the previous binary; the first three of a version are counted and change the count
      alone; any later one gives up. */
  lemma StartIs(l: Log, luck: StartLuck)
    ensures var read := ReadMark(l.files.mark);
            var (after, started) := StartUp(l, luck);
            && (read.None? ==>
                  started == Nothing && after.files == l.files.(old_ := if luck.removeOld then None else l.files.old_))
            && (read.Some? && read.value.starts < 3 ==>
                  && started == OnProbation(read.value.installed, read.value.starts + 1)
                  && after.files.mark ==
                     MarkAfter(l.files.mark, Holds(read.value.(starts := read.value.starts + 1)), luck.write)
                  && after.files == l.files.(mark := after.files.mark))
            && (read.Some? && read.value.starts >= 3 ==> started.RolledBack? || started.Stuck?)
  {
  }

  /** A start that gives up goes back exactly when a rollback restores, names the version it gave up
      on and the one it went back to, and ends probation if that can be cleared. */
  lemma GivingUpIs(l: Log, luck: StartLuck)
    requires ReadMark(l.files.mark).Some? && ReadMark(l.files.mark).value.starts >= 3
    ensures var p := ReadMark(l.files.mark).value;
            var (after, started) := StartUp(l, luck);
            var (rolled, result) := RollBack(l, p.(starts := p.starts + 1), luck.roll);
            && started == (if result.Restored? then RolledBack(p.previous, p.installed) else Stuck(p.installed))
            && after.files == rolled.files.(mark := if luck.clear then NoFile else rolled.files.mark)
  {
  }

  //////// Settling

  /** Settling ends probation and removes the way back, in that order, and does nothing at all when
      nothing is on probation or probation cannot be cleared. */
  lemma SettlingIs(l: Log, clear: bool, removeOld: bool)
    ensures (ReadMark(l.files.mark).None? || !clear) ==> Settle(l, clear, removeOld) == l
    ensures ReadMark(l.files.mark).Some? && clear ==>
              Settle(l, clear, removeOld).files ==
              l.files.(mark := NoFile, old_ := if removeOld then None else l.files.old_)
  {
  }

  /** Settling again changes nothing. */
  lemma SettlingTwice(l: Log, clear: bool, removeOld: bool, again: bool, more: bool)
    requires clear
    ensures Settle(Settle(l, clear, removeOld), again, more) == Settle(l, clear, removeOld)
  {
    SettlingIs(l, clear, removeOld);
    SettlingIs(Settle(l, clear, removeOld), again, more);
  }
}
