/** Replacing the running program, and putting the previous one back, as what happens to the
    files beside it. Every function threads a `Log`: the files now, and every state they have
    been in since. A rename or a removal adds one state, and writing a file adds two, since it is
    emptied first and a write cut off there may leave anything in it. A crash can leave the
    machine in any of those states, so what holds of all of them holds at every crash point.
    `SelfUpdater.Updater` is the imperative program proved against these functions. */
module SelfUpdate {
  import opened Wrappers
  import opened Text
  import opened Versions

  const PROBATION_STARTS := 3
  const MAX_REFUSED := 10

  /** `version` is stamped in at build time; `output` is what `version` prints. */
  datatype Binary = Binary(version: string, output: string, runs: bool)

  predicate FoundAt(s: string, t: string, i: int) { 0 <= i <= |s| - |t| && s[i..i + |t|] == t }

  /** strings.Contains. */
  function Contains(s: string, t: string, from: nat := 0): (has: bool)
    ensures has <==> exists i :: from <= i && FoundAt(s, t, i)
    decreases |s| - from
  {
    if from > |s| - |t| then false
    else FoundAt(s, t, from) || Contains(s, t, from + 1)
  }

  /** The binary runs and what it prints contains the version it should be. */
  predicate SmokeTest(b: Binary, want: string) { b.runs && Contains(b.output, want) }

  datatype Probation = Probation(installed: string, previous: string, starts: int)

  /** The `.probation` file. */
  datatype Mark = NoFile | Unreadable | Holds(state: Probation)

  /** How writing a whole file goes. One that fails before it began leaves the file alone; one
      that is cut off, by an error or by a crash, leaves any text. */
  datatype Write = NotBegun | Torn(left: string) | Done

  /** A probation file cut off is one nothing can be read from. */
  function MarkAfter(before: Mark, mark: Mark, write: Write): Mark {
    match write
    case NotBegun => before
    case Torn(_) => Unreadable
    case Done => mark
  }

  function TextAfter(before: string, text: string, write: Write): string {
    match write
    case NotBegun => before
    case Torn(left) => left
    case Done => text
  }

  function ReadMark(mark: Mark): Option<Probation> {
    if mark.Holds? && mark.state.installed != "" then Some(mark.state) else None
  }

  datatype Slot = Exe | Old | New | Back

  /** `refused` is the text of the `.refused` file, empty when there is none. */
  datatype Files = Files(
    exe: Option<Binary>, old_: Option<Binary>, new_: Option<Binary>, back: Option<Binary>,
    mark: Mark, refused: string)
  {
    function Get(slot: Slot): Option<Binary> {
      match slot
      case Exe => exe
      case Old => old_
      case New => new_
      case Back => back
    }

    function Put(slot: Slot, b: Option<Binary>): Files {
      match slot
      case Exe => this.(exe := b)
      case Old => this.(old_ := b)
      case New => this.(new_ := b)
      case Back => this.(back := b)
    }
  }

  datatype Log = Log(files: Files, trace: seq<Files>) {
    function Becomes(files': Files): Log { Log(files', trace + [files']) }
  }

  //////// The versions given up on, as they are kept

  const NEWLINE := '\n'

  /** What the reader makes of the lines: each trimmed, blank ones dropped. */
  function Entries(lines: seq<string>): seq<string> {
    if lines == [] then []
    else
      var v := TrimSpace(lines[0]);
      (if v == "" then [] else [v]) + Entries(lines[1..])
  }

  function Listing(text: string): seq<string> { Entries(Split(text, NEWLINE)) }

  function Written(list: seq<string>): string { Join(list, NEWLINE) + [NEWLINE] }

  /** The list with one more version, newest last, capped. */
  function Refuse(list: seq<string>, version: string): seq<string> {
    if version in list then list
    else
      var more := list + [version];
      if |more| > MAX_REFUSED then more[|more| - MAX_REFUSED..] else more
  }

  /** The file after giving up on a version: read, added to, written back. */
  function RefusedText(text: string, version: string): string {
    if version in Listing(text) then text else Written(Refuse(Listing(text), version))
  }

  //////// Single operations

  /** A rename may fail on its own (`ok`), and always fails without a source. It replaces
      whatever was at the destination. */
  predicate Moves(l: Log, from: Slot, ok: bool) { ok && l.files.Get(from).Some? }

  function Renamed(l: Log, from: Slot, to: Slot, ok: bool): Log {
    if Moves(l, from, ok) then l.Becomes(l.files.Put(to, l.files.Get(from)).Put(from, None)) else l
  }

  function Removed(l: Log, slot: Slot, ok: bool): Log {
    if ok && l.files.Get(slot).Some? then l.Becomes(l.files.Put(slot, None)) else l
  }

  function Cleared(l: Log, ok: bool): Log {
    if ok then l.Becomes(l.files.(mark := NoFile)) else l
  }

  function Marked(l: Log, mark: Mark, write: Write): Log {
    if write.NotBegun? then l
    else
      var emptied := l.Becomes(l.files.(mark := Unreadable));
      emptied.Becomes(l.files.(mark := MarkAfter(l.files.mark, mark, write)))
  }

  function Rewritten(l: Log, text: string, write: Write): Log {
    if write.NotBegun? then l
    else
      var emptied := l.Becomes(l.files.(refused := ""));
      emptied.Becomes(l.files.(refused := TextAfter(l.files.refused, text, write)))
  }

  //////// Putting a new binary in place

  datatype SwapLuck = SwapLuck(remove: bool, aside: bool, install: bool, restore: bool)

  datatype SwapResult = Swapped | AsideFailed | InstallFailed | NothingLeft

  function Swap(l: Log, luck: SwapLuck): (Log, SwapResult) {
    var l0 := Removed(l, Old, luck.remove);
    var l1 := Renamed(l0, Exe, Old, luck.aside);
    if !Moves(l0, Exe, luck.aside) then (l1, AsideFailed)
    else
      var l2 := Renamed(l1, New, Exe, luck.install);
      if Moves(l1, New, luck.install) then (l2, Swapped)
      else
        (Renamed(l2, Old, Exe, luck.restore),
         if Moves(l2, Old, luck.restore) then InstallFailed else NothingLeft)
  }

  /** What the source answers: an error, a release that cannot be installed, or a release,
      with the binary the download would yield (`None` when it fails or does not hash). */
  datatype Answer =
    | SourceFailed
    | NotInstallable
    | Release(version: string, binary: Option<Binary>)

  datatype ApplyLuck = ApplyLuck(writable: bool, swap: SwapLuck, begin: Write, sweep: bool)

  datatype Applied = Installed(version: string) | NothingToDo | ApplyFailed

  function Apply(l: Log, current: string, answer: Answer, luck: ApplyLuck): (Log, Applied) {
    if !answer.Release? then (l, ApplyFailed)
    else if !Newer(current, answer.version) then (l, NothingToDo)
    else if answer.version in Listing(l.files.refused) then (l, NothingToDo)
    else if !luck.writable then (l, ApplyFailed)
    else if answer.binary.None? then (Removed(l, New, luck.sweep), ApplyFailed)
    else Install(l, current, answer.version, answer.binary.value, luck)
  }

  /** From a verified download on: try it, swap it in, put it on probation. */
  function Install(l: Log, current: string, version: string, binary: Binary, luck: ApplyLuck): (Log, Applied) {
    var staged := l.Becomes(l.files.Put(New, Some(binary)));
    if !SmokeTest(binary, version) then (Removed(staged, New, luck.sweep), ApplyFailed)
    else
      var (swapped, result) := Swap(staged, luck.swap);
      if !result.Swapped? then (Removed(swapped, New, luck.sweep), ApplyFailed)
      else
        var begun := Marked(swapped, Holds(Probation(version, current, 0)), luck.begin);
        (Removed(begun, New, luck.sweep), Installed(version))
  }

  //////// Giving up on one

  function Refused(l: Log, version: string, write: Write): Log {
    if version in Listing(l.files.refused) then l
    else Rewritten(l, RefusedText(l.files.refused, version), write)
  }

  datatype RollLuck = RollLuck(refuse: Write, stage: bool, aside: bool, unstage: bool, install: bool, restore: bool)

  datatype RollResult = Restored | NoWayBack | StageFailed | RollAsideFailed | RollInstallFailed | RollNothingLeft

  function RollBack(l: Log, p: Probation, luck: RollLuck): (Log, RollResult) {
    if l.files.old_.None? || !SmokeTest(l.files.old_.value, p.previous) then (l, NoWayBack)
    else
      var l0 := Refused(l, p.installed, luck.refuse);
      var l1 := Renamed(l0, Old, Back, luck.stage);
      if !luck.stage then (l1, StageFailed)
      else
        var l2 := Renamed(l1, Exe, Old, luck.aside);
        if !Moves(l1, Exe, luck.aside) then (Renamed(l2, Back, Old, luck.unstage), RollAsideFailed)
        else
          var l3 := Renamed(l2, Back, Exe, luck.install);
          if luck.install then (l3, Restored)
          else
            (Renamed(l3, Old, Exe, luck.restore),
             if luck.restore then RollInstallFailed else RollNothingLeft)
  }

  datatype StartLuck = StartLuck(removeOld: bool, write: Write, roll: RollLuck, clear: bool)

  datatype Started =
    | Nothing
    | OnProbation(version: string, starts: int)
    | RolledBack(version: string, failed: string)
    | Stuck(failed: string)

  function StartUp(l: Log, luck: StartLuck): (Log, Started) {
    var read := ReadMark(l.files.mark);
    if read.None? then (Removed(l, Old, luck.removeOld), Nothing)
    else
      var p := read.value.(starts := read.value.starts + 1);
      if p.starts <= PROBATION_STARTS then
        (Marked(l, Holds(p), luck.write), OnProbation(p.installed, p.starts))
      else
        var (rolled, result) := RollBack(l, p, luck.roll);
        (Cleared(rolled, luck.clear),
         if result.Restored? then RolledBack(p.previous, p.installed) else Stuck(p.installed))
  }

  function Settle(l: Log, clear: bool, removeOld: bool): Log {
    if ReadMark(l.files.mark).None? || !clear then l
    else Removed(Cleared(l, true), Old, removeOld)
  }

  function Forget(l: Log, ok: bool): Log {
    if ok then l.Becomes(l.files.(refused := "")) else l
  }
}
