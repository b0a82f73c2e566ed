/** One backup: write a fresh nonce, run restic, and believe the run only if that nonce comes
    back out of the repository. `Executed` is the specification; `Runner.Execute` fills in the
    run's row step by step. */
module BackupRun {
  import opened Wrappers

  datatype Outcome = Failed | Success | Degraded | Incomplete | Unverified | Cancelled

  /** How one restic process ended. */
  datatype Exit = Ok | SomeUnreadable | Locked | OtherFailure

  /** One restic backup: how it exited, the summary it printed, and what it left behind. It may
      have written a snapshot whatever its exit was, and the snapshot may lack any one file.
      `refusalWords` is whether what it said on standard error looks like the operating system
      declining a filesystem snapshot, which any exit but a good one may be read for. */
  datatype Attempt = Attempt(
    exit: Exit, refusalWords: bool, snapshot: string, errors: seq<string>, errorCount: nat, wrote: bool, hasFile: bool)

  /** A snapshot in the repository: which run took it (none for another writer's), and what it
      holds at the verification file's path. */
  datatype Snap = Snap(taker: Option<nat>, file: Option<string>)

  datatype Message =
    | Blank
    | CouldNotPrepare
    | CouldNotWriteNonce
    | Stopped(reason: string, lockLeft: bool)
    | NotRead(count: nat)
    | LockCleared
    | LockStuck
    | ResticFailed
    | NotReadBack
    | NoSnapshotUsed
    | Added

  datatype Row = Row(
    outcome: Outcome, message: Message, snapshot: string, unreadable: seq<string>, verified: bool, vssFellBack: bool)

  /** Everything a run does not decide for itself. `cancelled` is the cause found on the
      run's context when restic returned; `restored` is what the restore left at the
      verification file's place. */
  datatype World = World(
    clearFirst: bool, nonceWritten: bool,
    useSnapshot: bool, allowFallback: bool, first: Attempt, second: Attempt,
    cancelled: Option<string>, unlock: bool,
    others: seq<Snap>, restored: Option<string>, clearLast: bool)

  datatype State = State(repo: seq<Snap>, scratch: Option<string>)

  //////// The nonce

  function HexDigit(n: nat): char
    requires n < 16
  {
    "0123456789abcdef"[n]
  }

  /** hex.EncodeToString. */
  function Hex(raw: seq<bv8>): (s: string)
    ensures |s| == 2 * |raw|
  {
    if raw == [] then ""
    else [HexDigit((raw[0] / 16) as nat), HexDigit((raw[0] % 16) as nat)] + Hex(raw[1..])
  }

  /** The verification file: a timestamp, a space, and the nonce. */
  function Body(stamp: string, raw: seq<bv8>): string { stamp + " " + Hex(raw) }

  //////// The run

  predicate RetriedWithout(w: World) {
    !w.first.exit.Ok? && w.useSnapshot && w.allowFallback && w.first.refusalWords
  }

  function LastAttempt(w: World): Attempt { if RetriedWithout(w) then w.second else w.first }

  function Left(taker: nat, a: Attempt, body: string): seq<Snap> {
    if a.wrote then [Snap(Some(taker), if a.hasFile then Some(body) else None)] else []
  }

  /** What this run's restic wrote, with whatever other writers added meanwhile. */
  function Written(taker: nat, w: World, body: string): seq<Snap> {
    Left(taker, w.first, body) + (if RetriedWithout(w) then Left(taker, w.second, body) else []) + w.others
  }

  function FailedRow(message: Message): Row { Row(Failed, message, "", [], false, false) }

  function Executed(s: State, taker: nat, body: string, w: World): (State, Row) {
    if !w.clearFirst then (s, FailedRow(CouldNotPrepare))
    else if !w.nonceWritten then (s.(scratch := None), FailedRow(CouldNotWriteNonce))
    else
      var after := State(s.repo + Written(taker, w, body), None);
      var a := LastAttempt(w);
      if w.cancelled.Some? then
        (after, Row(Cancelled, Stopped(w.cancelled.value, !w.unlock), "", [], false, false))
      else
        var filled := Row(Failed, Blank, a.snapshot, a.errors, false, RetriedWithout(w));
        match a.exit
        case Locked => (after, filled.(message := if w.unlock then LockCleared else LockStuck))
        case OtherFailure => (after, filled.(message := ResticFailed))
        case _ =>
          if w.restored != Some(body) then
            (after.(scratch := w.restored), filled.(outcome := Unverified, message := NotReadBack))
          else
            (after.(scratch := if w.clearLast then None else w.restored),
             if a.exit.SomeUnreadable? then
               filled.(outcome := Incomplete, message := NotRead(a.errorCount), verified := true)
             else if RetriedWithout(w) then filled.(outcome := Degraded, message := NoSnapshotUsed, verified := true)
             else filled.(outcome := Success, message := Added, verified := true))
  }

  /** The row of a run in progress. */
  class Run {
    var outcome: Outcome
    var message: Message
    var snapshot: string
    var unreadable: seq<string>
    var verified: bool
    var vssFellBack: bool

    constructor ()
      ensures View() == FailedRow(Blank)
    {
      outcome, message, snapshot, unreadable, verified, vssFellBack := Failed, Blank, "", [], false, false;
    }

    function View(): Row
      reads this
    {
      Row(outcome, message, snapshot, unreadable, verified, vssFellBack)
    }
  }

  class Runner {
    var repo: seq<Snap>
    var scratch: Option<string>

    constructor (repo: seq<Snap>, scratch: Option<string>)
      ensures Abstract() == State(repo, scratch)
    {
      this.repo, this.scratch := repo, scratch;
    }

    function Abstract(): State
      reads this
    {
      State(repo, scratch)
    }

    method ClearScratch(ok: bool) returns (done: bool)
      modifies this`scratch
      ensures done == ok && scratch == if ok then None else old(scratch)
    {
      if ok {
        scratch := None;
      }
      done := ok;
    }

    /** restic, retried once without the filesystem snapshot if that was refused. */
    method Backup(taker: nat, body: string, w: World) returns (summary: Attempt, fellBack: bool)
      modifies this`repo
      ensures repo == old(repo) + Written(taker, w, body)
      ensures summary == LastAttempt(w) && fellBack == RetriedWithout(w)
    {
      summary, fellBack := w.first, false;
      var added := Left(taker, w.first, body);
      if !w.first.exit.Ok? && w.useSnapshot && w.allowFallback && w.first.refusalWords {
        summary, fellBack := w.second, true;
        added := added + Left(taker, w.second, body);
      }
      repo := repo + (added + w.others);
      assert added + w.others == Written(taker, w, body);
    }

    method Verify(body: string, w: World) returns (matches: bool)
      requires scratch.None?
      modifies this`scratch
      ensures scratch == w.restored
      ensures matches <==> w.restored == Some(body)
    {
      // The restore's own exit status is not the verdict; the bytes are.
      scratch := w.restored;
      matches := scratch == Some(body);
    }

    method Execute(run: Run, taker: nat, body: string, w: World)
      requires run.View() == FailedRow(Blank)
      modifies this, run
      ensures (Abstract(), run.View()) == Executed(old(Abstract()), taker, body, w)
    {
      var cleared := ClearScratch(w.clearFirst);
      if !cleared {
        run.message := CouldNotPrepare;
        return;
      }
      if !w.nonceWritten {
        run.message := CouldNotWriteNonce;
        return;
      }
      var summary, fellBack := Backup(taker, body, w);
      if w.cancelled.Some? {
        run.outcome := Cancelled;
        run.message := Stopped(w.cancelled.value, !w.unlock);
        return;
      }
      run.snapshot, run.vssFellBack := summary.snapshot, fellBack;
      run.unreadable := summary.errors;
      match summary.exit {
        case SomeUnreadable =>
          run.outcome := Incomplete;
          run.message := NotRead(summary.errorCount);
        case Locked =>
          run.message := if w.unlock then LockCleared else LockStuck;
          return;
        case Ok =>
          run.outcome := Success;
        case OtherFailure =>
          run.message := ResticFailed;
          return;
      }
      var matches := Verify(body, w);
      if !matches {
        run.outcome, run.message := Unverified, NotReadBack;
        return;
      }
      run.verified := true;
      if run.vssFellBack && run.outcome.Success? {
        run.outcome, run.message := Degraded, NoSnapshotUsed;
      }
      if run.message.Blank? {
        run.message := Added;
      }
      var swept := ClearScratch(w.clearLast);
    }
  }

  //////// What an outcome means

  /** restic answered about this run's own work, undisturbed. */
  predicate Answered(w: World) { w.clearFirst && w.nonceWritten && w.cancelled.None? }

  predicate HasSnapshot(a: Attempt) { a.exit.Ok? || a.exit.SomeUnreadable? }

  lemma OutcomeMeans(s: State, taker: nat, body: string, w: World)
    ensures var row := Executed(s, taker, body, w).1;
            && (row.verified <==> Answered(w) && HasSnapshot(LastAttempt(w)) && w.restored == Some(body))
            && (row.outcome.Success? <==> row.verified && LastAttempt(w).exit.Ok? && !RetriedWithout(w))
            && (row.outcome.Degraded? <==> row.verified && LastAttempt(w).exit.Ok? && RetriedWithout(w))
            && (row.outcome.Incomplete? <==> row.verified && LastAttempt(w).exit.SomeUnreadable?)
            && (row.outcome.Unverified? <==> Answered(w) && HasSnapshot(LastAttempt(w)) && w.restored != Some(body))
            && (row.outcome.Cancelled? <==> w.clearFirst && w.nonceWritten && w.cancelled.Some?)
  {
  }

  /** The attempt whose summary the row is filled from: a first one that ended badly is repeated
      once, without the filesystem snapshot, if one was asked for, may be done without, and what
      restic said looks like the refusal of one. */
  lemma RowIsTheLastAttempts(s: State, taker: nat, body: string, w: World)
    ensures var row := Executed(s, taker, body, w).1;
            var again := !w.first.exit.Ok? && w.useSnapshot && w.allowFallback && w.first.refusalWords;
            && row.snapshot == (if !Answered(w) then "" else if again then w.second.snapshot else w.first.snapshot)
            && row.unreadable == (if !Answered(w) then [] else if again then w.second.errors else w.first.errors)
            && (row.vssFellBack <==> Answered(w) && again)
  {
  }

  /** Each message in exactly its own case; a finished row never has none. */
  lemma MessageMeans(s: State, taker: nat, body: string, w: World)
    ensures var row := Executed(s, taker, body, w).1;
            var a := LastAttempt(w);
            && (row.message == CouldNotPrepare <==> !w.clearFirst)
            && (row.message == CouldNotWriteNonce <==> w.clearFirst && !w.nonceWritten)
            && (row.outcome.Cancelled? ==> row.message == Stopped(w.cancelled.value, !w.unlock))
            && (row.message.Stopped? ==> row.outcome.Cancelled?)
            && (row.message == LockCleared <==> Answered(w) && a.exit.Locked? && w.unlock)
            && (row.message == LockStuck <==> Answered(w) && a.exit.Locked? && !w.unlock)
            && (row.message == ResticFailed <==> Answered(w) && a.exit.OtherFailure?)
            && (row.message == NotReadBack <==> row.outcome.Unverified?)
            && (row.outcome.Incomplete? ==> row.message == NotRead(a.errorCount))
            && (row.message.NotRead? ==> row.outcome.Incomplete?)
            && (row.message == NoSnapshotUsed <==> row.outcome.Degraded?)
            && (row.message == Added <==> row.outcome.Success?)
            && row.message != Blank
  {
  }

  /** An attempt that wrote left one snapshot of this run's, with this run's nonce if it holds the
      file at all; the repeated one counts only if it was made; and other writers' come besides. */
  lemma WrittenIs(taker: nat, w: World, body: string)
    ensures var again := !w.first.exit.Ok? && w.useSnapshot && w.allowFallback && w.first.refusalWords;
            var one := if !w.first.wrote then [] else [Snap(Some(taker), if w.first.hasFile then Some(body) else None)];
            var two := if !again || !w.second.wrote then []
                       else [Snap(Some(taker), if w.second.hasFile then Some(body) else None)];
            Written(taker, w, body) == one + two + w.others
  {
  }

  /** What a run leaves behind it: the repository as it was unless restic was reached, and then
      with what both attempts wrote; the scratch directory untouched if it could not be cleared,
      else empty unless a restore left something there and the last clearing was not reached or
      failed. */
  lemma RunLeaves(s: State, taker: nat, body: string, w: World)
    ensures var after := Executed(s, taker, body, w).0;
            && after.repo == (if w.clearFirst && w.nonceWritten then s.repo + Written(taker, w, body) else s.repo)
            && (!w.clearFirst ==> after.scratch == s.scratch)
            && (w.clearFirst ==>
                  after.scratch ==
                  if Answered(w) && HasSnapshot(LastAttempt(w)) && !(w.restored == Some(body) && w.clearLast)
                  then w.restored else None)
  {
  }

  //////// Verification is about this run

  /** A restore may fail, stop part-way or pick an older snapshot, but every byte it gives came
      out of some snapshot in the repository. */
  ghost predicate NothingInvented(repo: seq<Snap>, restored: Option<string>) {
    restored.Some? ==>
      exists i :: 0 <= i < |repo| && repo[i].file.Some? && restored.value <= repo[i].file.value
  }

  datatype Night = Night(stamp: string, raw: seq<bv8>, w: World) {
    function Nonce(): string { Body(stamp, raw) }
  }

  const STAMP_LENGTH := 20
  const NONCE_BYTES := 16

  // A snapshot by another writer does not begin with any nonce of this machine's.
  ghost predicate Alien(s: Snap, nights: seq<Night>) {
    && s.taker.None?
    && (s.file.Some? ==> forall k :: 0 <= k < |nights| ==> !(nights[k].Nonce() <= s.file.value))
  }

  ghost predicate AllAlien(snaps: seq<Snap>, nights: seq<Night>) {
    forall i :: 0 <= i < |snaps| ==> Alien(snaps[i], nights)
  }

  /** The runs of one machine: nonces never repeat, and other writers use bytes of their own. */
  ghost predicate Plausible(start: State, nights: seq<Night>) {
    && (forall k :: 0 <= k < |nights| ==> |nights[k].stamp| == STAMP_LENGTH && |nights[k].raw| == NONCE_BYTES)
    && (forall j, k :: 0 <= j < k < |nights| ==> nights[j].raw != nights[k].raw)
    && AllAlien(start.repo, nights)
    && (forall k :: 0 <= k < |nights| ==> AllAlien(nights[k].w.others, nights))
  }

  /** The state after the first `n` runs. */
  ghost function After(start: State, nights: seq<Night>, n: nat): State
    requires n <= |nights|
  {
    if n == 0 then start
    else Executed(After(start, nights, n - 1), n - 1, nights[n - 1].Nonce(), nights[n - 1].w).0
  }

  lemma {:induction false} HexIsInjective(a: seq<bv8>, b: seq<bv8>)
    requires |a| == |b| && Hex(a) == Hex(b)
    ensures a == b
  {
    if a != [] {
      HexHead(a);
      HexHead(b);
      NibblesMakeByte(a[0], b[0]);
      HexIsInjective(a[1..], b[1..]);
    }
  }

  /** What a digit of a nonce stands for. */
  function DigitValue(c: char): int { if '0' <= c <= '9' then c as int - '0' as int else c as int - 'a' as int + 10 }

  predicate LowerHex(c: char) { '0' <= c <= '9' || 'a' <= c <= 'f' }

  /** These two digits stand for this byte, the high half first. */
  predicate ReadsAs(high: char, low: char, b: int) {
    LowerHex(high) && LowerHex(low) && DigitValue(high) * 16 + DigitValue(low) == b
  }

  ghost predicate Reads(s: string, raw: seq<bv8>) {
    && |s| == 2 * |raw|
    && forall i :: 0 <= i < |raw| ==> ReadsAs(s[2 * i], s[2 * i + 1], raw[i] as int)
  }

  lemma ReadsMore(high: char, low: char, s: string, b: bv8, raw: seq<bv8>)
    requires Reads(s, raw) && ReadsAs(high, low, b as int)
    ensures Reads([high, low] + s, [b] + raw)
  {
    var more, bytes := [high, low] + s, [b] + raw;
    forall i | 0 <= i < |bytes|
      ensures ReadsAs(more[2 * i], more[2 * i + 1], bytes[i] as int)
    {
      if i > 0 {
        assert more[2 * i] == s[2 * (i - 1)] && more[2 * i + 1] == s[2 * (i - 1) + 1] && bytes[i] == raw[i - 1];
      }
    }
  }

  /** A nonce is written with two lower-case digits a byte. */
  lemma {:induction false} HexIsRead(raw: seq<bv8>)
    ensures Reads(Hex(raw), raw)
  {
    if raw != [] {
      var high, low := HexDigit((raw[0] / 16) as nat), HexDigit((raw[0] % 16) as nat);
      HexIsRead(raw[1..]);
      HalvesMakeByte(raw[0]);
      ReadsMore(high, low, Hex(raw[1..]), raw[0], raw[1..]);
      assert raw == [raw[0]] + raw[1..];
    }
  }

  lemma DigitIsRead(n: nat)
    requires n < 16
    ensures LowerHex(HexDigit(n)) && DigitValue(HexDigit(n)) == n
  {
  }

  lemma HalvesMakeByte(x: bv8)
    ensures ReadsAs(HexDigit((x / 16) as nat), HexDigit((x % 16) as nat), x as int)
  {
    DigitIsRead((x / 16) as nat);
    DigitIsRead((x % 16) as nat);
    HalvesAre(x);
  }

  lemma HalvesAre(x: bv8)
    ensures (x / 16) as int * 16 + (x % 16) as int == x as int
  {
    assert x == (x / 16) * 16 + x % 16;
  }

  lemma HexHead(a: seq<bv8>)
    requires a != []
    ensures Hex(a)[..2] == [HexDigit((a[0] / 16) as nat), HexDigit((a[0] % 16) as nat)]
    ensures Hex(a)[2..] == Hex(a[1..])
    ensures Hex(a)[0] == HexDigit((a[0] / 16) as nat) && Hex(a)[1] == HexDigit((a[0] % 16) as nat)
  {
  }

  lemma NibblesMakeByte(x: bv8, y: bv8)
    requires HexDigit((x / 16) as nat) == HexDigit((y / 16) as nat)
    requires HexDigit((x % 16) as nat) == HexDigit((y % 16) as nat)
    ensures x == y
  {
    assert x / 16 == y / 16 && x % 16 == y % 16;
  }

  lemma BodiesDiffer(s: string, a: seq<bv8>, t: string, b: seq<bv8>)
    requires |s| == |t| && |a| == |b| && a != b
    ensures !(Body(s, a) <= Body(t, b))
  {
    if Body(s, a) <= Body(t, b) {
      assert Body(s, a) == Body(t, b);
      assert Body(s, a)[|s| + 1..] == Hex(a) && Body(t, b)[|t| + 1..] == Hex(b);
      HexIsInjective(a, b);
    }
  }

  /** Another writer's, or written by one of the first `n` runs and holding its nonce or
      nothing. */
  ghost predicate Known(s: Snap, nights: seq<Night>, n: nat)
    requires n <= |nights|
  {
    || Alien(s, nights)
    || (s.taker.Some? && s.taker.value < n
        && (s.file.Some? ==> s.file.value == nights[s.taker.value].Nonce()))
  }

  ghost predicate Accounted(repo: seq<Snap>, nights: seq<Night>, n: nat)
    requires n <= |nights|
  {
    forall i :: 0 <= i < |repo| ==> Known(repo[i], nights, n)
  }

  lemma WrittenIsAccounted(nights: seq<Night>, n: nat)
    requires n < |nights| && AllAlien(nights[n].w.others, nights)
    ensures Accounted(Written(n, nights[n].w, nights[n].Nonce()), nights, n + 1)
  {
  }

  lemma RunAddsOnlyItsOwn(s: State, taker: nat, body: string, w: World)
    ensures Executed(s, taker, body, w).0.repo == s.repo
            || Executed(s, taker, body, w).0.repo == s.repo + Written(taker, w, body)
    ensures Executed(s, taker, body, w).1.verified ==>
              Executed(s, taker, body, w).0.repo == s.repo + Written(taker, w, body) && w.restored == Some(body)
  {
  }

  lemma {:induction false} EverythingIsAccounted(start: State, nights: seq<Night>, n: nat)
    requires n <= |nights| && Plausible(start, nights)
    ensures Accounted(After(start, nights, n).repo, nights, n)
    decreases n
  {
    if n > 0 {
      EverythingIsAccounted(start, nights, n - 1);
      OneMoreRun(start, nights, n - 1);
    }
  }

  lemma OneMoreRun(start: State, nights: seq<Night>, n: nat)
    requires n < |nights| && AllAlien(nights[n].w.others, nights)
    requires Accounted(After(start, nights, n).repo, nights, n)
    ensures Accounted(After(start, nights, n + 1).repo, nights, n + 1)
  {
    var before := After(start, nights, n);
    WrittenIsAccounted(nights, n);
    RunAddsOnlyItsOwn(before, n, nights[n].Nonce(), nights[n].w);
    assert Accounted(before.repo, nights, n + 1);
  }

  /** Whatever begins with this run's nonce was written by this run. */
  lemma NonceFindsItsRun(nights: seq<Night>, n: nat, s: Snap)
    requires n < |nights| && Known(s, nights, n + 1) && s.file.Some? && nights[n].Nonce() <= s.file.value
    requires forall k :: 0 <= k <= n ==> |nights[k].stamp| == STAMP_LENGTH && |nights[k].raw| == NONCE_BYTES
    requires forall k :: 0 <= k < n ==> nights[k].raw != nights[n].raw
    ensures s == Snap(Some(n), Some(nights[n].Nonce()))
  {
    assert !Alien(s, nights);
    var k := s.taker.value;
    if k != n {
      BodiesDiffer(nights[n].stamp, nights[n].raw, nights[k].stamp, nights[k].raw);
    }
  }

  /** A run counts as verified only if the repository holds a snapshot taken by that very run
      whose verification file is that run's nonce, byte for byte. An older snapshot, a
      half-finished restore or a leftover in the scratch directory cannot pass. */
  lemma VerifiedIsAboutThisRun(start: State, nights: seq<Night>, n: nat)
    requires n < |nights| && Plausible(start, nights)
    requires NothingInvented(
               Executed(After(start, nights, n), n, nights[n].Nonce(), nights[n].w).0.repo, nights[n].w.restored)
    requires Executed(After(start, nights, n), n, nights[n].Nonce(), nights[n].w).1.verified
    ensures Snap(Some(n), Some(nights[n].Nonce())) in After(start, nights, n + 1).repo
  {
    var before := After(start, nights, n);
    EverythingIsAccounted(start, nights, n);
    OneMoreRun(start, nights, n);
    var repo := After(start, nights, n + 1).repo;
    RunAddsOnlyItsOwn(before, n, nights[n].Nonce(), nights[n].w);
    var i :| 0 <= i < |repo| && repo[i].file.Some? && nights[n].Nonce() <= repo[i].file.value;
    NonceFindsItsRun(nights, n, repo[i]);
  }

  /** And it is still there after any number of further runs. */
  lemma {:induction false} SnapshotsStay(start: State, nights: seq<Night>, m: nat, n: nat)
    requires m <= n <= |nights|
    ensures After(start, nights, m).repo <= After(start, nights, n).repo
    decreases n
  {
    if m < n {
      SnapshotsStay(start, nights, m, n - 1);
      NightRemovesNothing(start, nights, n - 1);
    }
  }

  lemma NightRemovesNothing(start: State, nights: seq<Night>, n: nat)
    requires n < |nights|
    ensures After(start, nights, n).repo <= After(start, nights, n + 1).repo
  {
    RunAddsOnlyItsOwn(After(start, nights, n), n, nights[n].Nonce(), nights[n].w);
  }
}
