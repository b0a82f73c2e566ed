/** The updater as the program has it: one operation on the files after another, with the
    undoing of a failed one in its error branch. `trace` records every state the files pass
    through. */
module SelfUpdater {
  import opened Wrappers
  import opened Text
  import opened Versions
  import opened SelfUpdate

  class Updater {
    const current: string
    var files: Files
    ghost var trace: seq<Files>

    constructor (current: string, files: Files)
      ensures this.current == current && Abstract() == Log(files, [])
    {
      this.current, this.files, trace := current, files, [];
    }

    ghost function Abstract(): Log
      reads this
    {
      Log(files, trace)
    }

    method Rename(from: Slot, to: Slot, ok: bool) returns (done: bool)
      modifies this
      ensures done == Moves(old(Abstract()), from, ok)
      ensures Abstract() == Renamed(old(Abstract()), from, to, ok)
    {
      done := ok && files.Get(from).Some?;
      if done {
        files := files.Put(to, files.Get(from)).Put(from, None);
        trace := trace + [files];
      }
    }

    method Remove(slot: Slot, ok: bool)
      modifies this
      ensures Abstract() == Removed(old(Abstract()), slot, ok)
    {
      if ok && files.Get(slot).Some? {
        files := files.Put(slot, None);
        trace := trace + [files];
      }
    }

    method WriteMark(mark: Mark, write: Write)
      modifies this
      ensures Abstract() == Marked(old(Abstract()), mark, write)
    {
      if !write.NotBegun? {
        files := files.(mark := Unreadable);
        trace := trace + [files];
        if write.Done? {
          files := files.(mark := mark);
        }
        trace := trace + [files];
      }
    }

    method WriteRefused(text: string, write: Write)
      modifies this
      ensures Abstract() == Rewritten(old(Abstract()), text, write)
    {
      if !write.NotBegun? {
        files := files.(refused := "");
        trace := trace + [files];
        files := files.(refused := if write.Done? then text else write.left);
        trace := trace + [files];
      }
    }

    method ClearMark(ok: bool)
      modifies this
      ensures Abstract() == Cleared(old(Abstract()), ok)
    {
      if ok {
        files := files.(mark := NoFile);
        trace := trace + [files];
      }
    }

    method SwapFiles(luck: SwapLuck) returns (result: SwapResult)
      modifies this
      ensures (Abstract(), result) == Swap(old(Abstract()), luck)
    {
      Remove(Old, luck.remove);
      var aside := Rename(Exe, Old, luck.aside);
      if !aside { return AsideFailed; }
      var installed := Rename(New, Exe, luck.install);
      if !installed {
        var restored := Rename(Old, Exe, luck.restore);
        return if restored then InstallFailed else NothingLeft;
      }
      return Swapped;
    }

    method ApplyUpdate(answer: Answer, luck: ApplyLuck) returns (applied: Applied)
      modifies this
      ensures (Abstract(), applied) == Apply(old(Abstract()), current, answer, luck)
    {
      if !answer.Release? { return ApplyFailed; }
      var newer := IsNewer(current, answer.version);
      if !newer { return NothingToDo; }
      var given := Refuses(answer.version);
      if given { return NothingToDo; }
      if !luck.writable { return ApplyFailed; }
      if answer.binary.None? {
        Remove(New, luck.sweep);
        return ApplyFailed;
      }
      applied := InstallBinary(answer.version, answer.binary.value, luck);
    }

    method InstallBinary(version: string, binary: Binary, luck: ApplyLuck) returns (applied: Applied)
      modifies this
      ensures (Abstract(), applied) == Install(old(Abstract()), current, version, binary, luck)
    {
      files := files.Put(New, Some(binary));
      trace := trace + [files];
      if !SmokeTest(binary, version) {
        Remove(New, luck.sweep);
        return ApplyFailed;
      }
      var result := SwapFiles(luck.swap);
      if !result.Swapped? {
        Remove(New, luck.sweep);
        return ApplyFailed;
      }
      WriteMark(Holds(Probation(version, current, 0)), luck.begin);
      Remove(New, luck.sweep);
      return Installed(version);
    }

    method RefusedVersions() returns (list: seq<string>)
      ensures list == Listing(files.refused)
    {
      list := [];
      var lines := Split(files.refused, NEWLINE);
      var i := 0;
      while i < |lines|
        invariant 0 <= i <= |lines|
        invariant list + Entries(lines[i..]) == Entries(lines)
      {
        ghost var before := list;
        var v := TrimSpace(lines[i]);
        if v != "" {
          list := list + [v];
        }
        EntriesGoOn(lines, i, before, list);
        i := i + 1;
      }
    }

    method Refuses(version: string) returns (has: bool)
      ensures has <==> version in Listing(files.refused)
    {
      var list := RefusedVersions();
      has := Among(list, version);
    }

    static method Among(list: seq<string>, version: string) returns (has: bool)
      ensures has <==> version in list
    {
      var i := 0;
      while i < |list|
        invariant 0 <= i <= |list| && version !in list[..i]
      {
        if list[i] == version { return true; }
        i := i + 1;
      }
      return false;
    }

    method RefuseVersion(version: string, write: Write)
      modifies this
      ensures Abstract() == Refused(old(Abstract()), version, write)
    {
      var list := RefusedVersions();
      var already := Among(list, version);
      if already { return; }
      var more := list + [version];
      if |more| > MAX_REFUSED {
        more := more[|more| - MAX_REFUSED..];
      }
      WriteRefused(Written(more), write);
    }

    method ForgetRefused(ok: bool)
      modifies this
      ensures Abstract() == Forget(old(Abstract()), ok)
    {
      if ok {
        files := files.(refused := "");
        trace := trace + [files];
      }
    }

    method RollBackFiles(p: Probation, luck: RollLuck) returns (result: RollResult)
      modifies this
      ensures (Abstract(), result) == RollBack(old(Abstract()), p, luck)
    {
      if files.old_.None? { return NoWayBack; }
      if !SmokeTest(files.old_.value, p.previous) { return NoWayBack; }
      RefuseVersion(p.installed, luck.refuse);
      var staged := Rename(Old, Back, luck.stage);
      if !staged { return StageFailed; }
      var aside := Rename(Exe, Old, luck.aside);
      if !aside {
        var unstaged := Rename(Back, Old, luck.unstage);
        return RollAsideFailed;
      }
      var installed := Rename(Back, Exe, luck.install);
      if !installed {
        var restored := Rename(Old, Exe, luck.restore);
        return if restored then RollInstallFailed else RollNothingLeft;
      }
      return Restored;
    }

    method Start(luck: StartLuck) returns (started: Started)
      modifies this
      ensures (Abstract(), started) == StartUp(old(Abstract()), luck)
    {
      var read := ReadMark(files.mark);
      if read.None? {
        Remove(Old, luck.removeOld);
        return Nothing;
      }
      var p := read.value.(starts := read.value.starts + 1);
      if p.starts <= PROBATION_STARTS {
        WriteMark(Holds(p), luck.write);
        return OnProbation(p.installed, p.starts);
      }
      var result := RollBackFiles(p, luck.roll);
      ClearMark(luck.clear);
      return if result.Restored? then RolledBack(p.previous, p.installed) else Stuck(p.installed);
    }

    method SettleVersion(clear: bool, removeOld: bool)
      modifies this
      ensures Abstract() == Settle(old(Abstract()), clear, removeOld)
    {
      var read := ReadMark(files.mark);
      if read.None? { return; }
      ClearMark(clear);
      if !clear { return; }
      Remove(Old, removeOld);
    }
  }

  lemma EntriesGoOn(lines: seq<string>, i: nat, before: seq<string>, list: seq<string>)
    requires i < |lines| && before + Entries(lines[i..]) == Entries(lines)
    requires list == before + (if TrimSpace(lines[i]) == "" then [] else [TrimSpace(lines[i])])
    ensures list + Entries(lines[i + 1..]) == Entries(lines)
  {
    assert lines[i..][1..] == lines[i + 1..];
    var v := TrimSpace(lines[i]);
    Associative(before, if v == "" then [] else [v], Entries(lines[i + 1..]));
  }
}
