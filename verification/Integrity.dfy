/** Reading a slice of the repository back each week, and the arithmetic of slices and units. */
module Integrity {
  import opened Wrappers

  //////// How much to read

  const MIB := 0x10_0000
  const GIB := 1024 * MIB
  const MIN_CHECK_BYTES := 64 * MIB
  const MAX_CHECK_BYTES := GIB
  const WEEKS := 52

  /** Integer division as Go has it: toward zero. */
  function Quotient(n: int, d: int): int
    requires d > 0
  {
    if n >= 0 then n / d else -(-n / d)
  }

  /** One week's slice in whole mebibytes, for a repository of this many bytes (zero or less
      when nobody has measured it). */
  function CheckSubset(bytes: int): int {
    var want := Quotient(bytes, WEEKS);
    var clamped := if want < MIN_CHECK_BYTES then MIN_CHECK_BYTES
                   else if want > MAX_CHECK_BYTES then MAX_CHECK_BYTES else want;
    clamped / MIB
  }

  lemma SliceIsClamped(bytes: int)
    ensures 64 <= CheckSubset(bytes) <= 1024
    ensures CheckSubset(bytes) == 64 <==> bytes < 52 * 65 * 0x10_0000
    ensures CheckSubset(bytes) == 1024 <==> bytes >= 52 * 1024 * 0x10_0000
  {
  }

  lemma SliceIsMonotone(a: int, b: int)
    requires a <= b
    ensures CheckSubset(a) <= CheckSubset(b)
  {
  }

  /** Fifty-two weekly slices come to within 52 MiB of the repository, or more, exactly when it
      is smaller than 52 GiB and 52 MiB; beyond that a year of checks samples rather than
      covers. */
  lemma AYearCoversIff(bytes: int)
    ensures 52 * CheckSubset(bytes) * 0x10_0000 > bytes - 52 * 0x10_0000 <==> bytes < 52 * 1025 * 0x10_0000
  {
  }

  //////// Units

  const MAX_INT64: int := 0x7fff_ffff_ffff_ffff
  const UNIT := 1024

  function Power(exp: nat): nat { if exp == 0 then 1 else UNIT * Power(exp - 1) }

  lemma PowersFit(n: nat)
    requires n <= MAX_INT64
    ensures Power(7) > n && Power(6) <= MAX_INT64
    ensures forall e :: e >= 7 ==> Power(e) > n
  {
    assert Power(4) == 1024 * Power(3) == 0x100_0000_0000;
    assert Power(7) == 1024 * Power(6) == 0x40_0000_0000_0000_0000;
    forall e | e >= 7
      ensures Power(e) > n
    {
      PowersGrow(7, e);
    }
  }

  lemma {:induction false} PowersGrow(a: nat, b: nat)
    requires a <= b
    ensures Power(a) <= Power(b)
    decreases b
  {
    if a < b {
      PowersGrow(a, b - 1);
    }
  }

  // Dividing once more by 1024 is dividing by 1024 times as much.
  lemma OneUnitMore(n: int, v: int, div: int)
    requires div > 0 && v >= 0 && v * div <= n < (v + 1) * div
    ensures (v / UNIT) * (div * UNIT) <= n < (v / UNIT + 1) * (div * UNIT)
  {
    var q, r := v / UNIT, v % UNIT;
    assert v == q * UNIT + r && 0 <= r < UNIT;
    assert q * (div * UNIT) == (q * UNIT) * div <= v * div by {
      TimesMonotone(q * UNIT, v, div);
    }
    assert (q + 1) * (div * UNIT) == ((q + 1) * UNIT) * div >= (v + 1) * div by {
      TimesMonotone(v + 1, (q + 1) * UNIT, div);
    }
  }

  lemma TimesMonotone(a: int, b: int, d: int)
    requires a <= b && d >= 0
    ensures a * d <= b * d
  {
  }

  /** The unit a byte count is shown in: the largest power of 1024 not above it, its letter
      among the six there are, and no step on the way too big for 64 bits. */
  method HumanUnit(n: int) returns (div: int, exp: nat)
    requires UNIT <= n <= MAX_INT64
    ensures exp <= 5 && exp < |"KMGTPE"|
    ensures div == Power(exp + 1) && div <= MAX_INT64
    ensures div <= n < UNIT * div
  {
    div, exp := UNIT, 0;
    var v := n / UNIT;
    assert Power(1) == UNIT * Power(0);
    while v >= UNIT
      invariant v >= 1 && div == Power(exp + 1) > 0
      invariant v * div <= n < (v + 1) * div
      decreases v
    {
      OneUnitMore(n, v, div);
      v := v / UNIT;
      div := div * UNIT;
      exp := exp + 1;
    }
    TimesMonotone(1, v, div);
    TimesMonotone(v + 1, UNIT, div);
    PowersFit(n);
  }

  //////// The weekly check

  type Time = int

  const CHECK_EVERY: Time := 7 * 24 * 3600

  /** The last check of a repository; `at` is missing when there has been none, `skipped` when
      it was really made. */
  datatype Result = Result(url: string, at: Option<Time>, sound: bool, skipped: Option<string>, detail: string)

  const NEVER := Result("", None, false, None, "")

  function For(last: Result, url: string): Result { if last.url != url then NEVER else last }

  predicate Due(last: Result, url: string, now: Time) {
    last.url != url || last.at.None? || now - last.at.value >= CHECK_EVERY
  }

  /** What the rotation policy reads as an unsound repository. */
  predicate Failed(last: Result) { last.at.Some? && last.skipped.None? && !last.sound }

  /** How restic's check ends: `Damaged` when it read the repository back and could not put it
      together, `Unfinished` for anything else that went wrong, an unreachable bucket, a wrong
      password or a context cancelled half-way among them. */
  datatype Checked = Sound | Locked | Damaged(words: string) | Unfinished(words: string) {
    // An error, and not the lock's.
    predicate Errs() { Damaged? || Unfinished? }
  }

  /** What one week's check meets: whether the last result can be read, the connection, up to
      two answers from restic, and whether the lock between them can be cleared. */
  datatype Week = Week(readable: bool, metered: bool, first: Checked, unlocks: bool, second: Checked, stored: bool)

  function Answer(w: Week): Checked { if w.first.Locked? && w.unlocks then w.second else w.first }

  predicate Makes(last: Result, url: string, now: Time, w: Week) {
    w.readable && Due(For(last, url), url, now)
  }

  /** The stored result after one week, whatever it meets. */
  function AfterWeek(last: Result, url: string, now: Time, w: Week): Result {
    if !Makes(last, url, now, w) || !w.stored then last
    else if w.metered then Result(url, Some(now), false, Some("metered connection"), "")
    else if Answer(w).Locked? then
      Result(url, Some(now), false,
             Some(if w.unlocks then "the repository was locked by something still running"
                  else "the repository was locked and the lock could not be cleared"), "")
    else Result(url, Some(now), Answer(w).Sound?, None, if Answer(w).Errs() then Answer(w).words else "")
  }

  class Keeper {
    var last: Result
    var damageReports: nat

    constructor (last: Result)
      ensures this.last == last && damageReports == 0
    {
      this.last, damageReports := last, 0;
    }

    method Record(url: string, now: Time, result: Result, stored: bool)
      modifies this`last
      ensures last == if stored then result.(url := url, at := Some(now)) else old(last)
    {
      if stored {
        last := result.(url := url, at := Some(now));
      }
    }

    method CheckRepository(url: string, now: Time, w: Week)
      modifies this
      ensures last == AfterWeek(old(last), url, now, w)
      ensures damageReports == old(damageReports) +
              (if Makes(old(last), url, now, w) && !w.metered && Answer(w).Errs() then 1 else 0)
    {
      if !w.readable { return; }
      if !Due(For(last, url), url, now) { return; }
      var blank := Result(url, None, false, None, "");
      if w.metered {
        Record(url, now, blank.(skipped := Some("metered connection")), w.stored);
        return;
      }
      var checked := w.first;
      if checked.Locked? {
        if !w.unlocks {
          var stuck := blank.(skipped := Some("the repository was locked and the lock could not be cleared"));
          Record(url, now, stuck, w.stored);
          return;
        }
        checked := w.second;
      }
      match checked {
        case Locked =>
          Record(url, now, blank.(skipped := Some("the repository was locked by something still running")), w.stored);
        case Sound =>
          Record(url, now, blank.(sound := true), w.stored);
        case _ =>
          Record(url, now, blank.(detail := checked.words), w.stored);
          damageReports := damageReports + 1;
      }
    }
  }

  /** A check is made once a week, of this repository: a result for another one, or for none, does
      not put it off, and one that cannot be read does. */
  lemma MadeIff(last: Result, url: string, now: Time, w: Week)
    ensures Makes(last, url, now, w) <==>
            w.readable && (last.url != url || last.at.None? || now - last.at.value >= 604800)
  {
  }

  /** What one check records, told from what restic said first and, once a lock was cleared, second:
      when, of what, why it was skipped if it was, whether the repository is sound, and the words of
      any other end. */
  lemma RecordIs(last: Result, url: string, now: Time, w: Week)
    requires Makes(last, url, now, w)
    ensures var after := AfterWeek(last, url, now, w);
            var again := w.first.Locked? && w.unlocks;
            && (!w.stored ==> after == last)
            && (w.stored ==>
                  && after.url == url && after.at == Some(now)
                  && after.skipped ==
                     (if w.metered then Some("metered connection")
                      else if w.first.Locked? && !w.unlocks then
                        Some("the repository was locked and the lock could not be cleared")
                      else if again && w.second.Locked? then
                        Some("the repository was locked by something still running")
                      else None)
                  && (after.sound <==> !w.metered && (w.first.Sound? || (again && w.second.Sound?)))
                  && after.detail ==
                     (if !w.metered && w.first.Errs() then w.first.words
                      else if !w.metered && again && w.second.Errs() then w.second.words else ""))
  {
  }

  /** Nothing is made of a check that was not. */
  lemma NoCheckNoRecord(last: Result, url: string, now: Time, w: Week)
    requires !Makes(last, url, now, w)
    ensures AfterWeek(last, url, now, w) == last
  {
  }

  /** A recorded check counts as failed exactly when restic, once any stale lock was out of the
      way, ended in any error at all. A lock is not a failure, and neither is a connection
      somebody pays for. */
  lemma WeekDecides(last: Result, url: string, now: Time, w: Week)
    ensures var after := AfterWeek(last, url, now, w);
            var recorded := Makes(last, url, now, w) && w.stored;
            && (Failed(after) <==> if recorded then !w.metered && Answer(w).Errs() else Failed(last))
            && (recorded ==> after.url == url && after.at == Some(now) && !Due(after, url, now))
            && (recorded && Failed(after) ==> after.detail == Answer(w).words)
            && (recorded && w.first.Locked? && !w.unlocks ==> !Failed(after))
  {
  }

  /** So what is recorded is true to what restic found exactly when the check was finished:
      damage is called damage and nothing else is, unless something kept restic from ending. */
  lemma RecordIsTrueIff(last: Result, url: string, now: Time, w: Week)
    requires Makes(last, url, now, w) && w.stored && !w.metered
    ensures (Failed(AfterWeek(last, url, now, w)) <==> Answer(w).Damaged?) <==> !Answer(w).Unfinished?
  {
  }

  /** A bucket that could not be reached once is, to the rotation policy, a damaged one. */
  lemma UnreachableCountsAsDamage(url: string, now: Time)
    ensures var w := Week(true, false, Unfinished("connection reset"), true, Sound, true);
            Makes(NEVER, url, now, w) && Failed(AfterWeek(NEVER, url, now, w))
  {
  }

  datatype Visit = Visit(now: Time, week: Week)

  function AfterAll(last: Result, url: string, visits: seq<Visit>): Result {
    if visits == [] then last
    else
      var v := visits[|visits| - 1];
      AfterWeek(AfterAll(last, url, visits[..|visits| - 1]), url, v.now, v.week)
  }

  ghost predicate RecordedAt(last: Result, url: string, visits: seq<Visit>, i: int) {
    && 0 <= i < |visits| && visits[i].week.stored
    && Makes(AfterAll(last, url, visits[..i]), url, visits[i].now, visits[i].week)
  }

  predicate Erred(v: Visit) { !v.week.metered && Answer(v.week).Errs() }

  ghost predicate LastRecordedAt(last: Result, url: string, visits: seq<Visit>, i: int) {
    RecordedAt(last, url, visits, i) && forall j :: i < j < |visits| ==> !RecordedAt(last, url, visits, j)
  }

  lemma {:induction false} SomeRecordIsLast(last: Result, url: string, visits: seq<Visit>) returns (i: int)
    ensures i >= 0 ==> LastRecordedAt(last, url, visits, i)
    ensures i < 0 ==> forall j :: 0 <= j < |visits| ==> !RecordedAt(last, url, visits, j)
    ensures Failed(AfterAll(last, url, visits)) <==> if i >= 0 then Erred(visits[i]) else Failed(last)
  {
    if visits == [] {
      i := -1;
    } else {
      var front := visits[..|visits| - 1];
      var v := visits[|visits| - 1];
      i := SomeRecordIsLast(last, url, front);
      forall j | 0 <= j < |front|
        ensures RecordedAt(last, url, visits, j) <==> RecordedAt(last, url, front, j)
      {
        assert front[..j] == visits[..j];
      }
      WeekDecides(AfterAll(last, url, front), url, v.now, v.week);
      if RecordedAt(last, url, visits, |visits| - 1) {
        i := |visits| - 1;
      }
    }
  }

  /** Over any number of weeks it is the last recorded visit alone that decides, skips
      included: a week on a metered connection takes the standing of "damaged" away again. */
  lemma LastRecordDecides(last: Result, url: string, visits: seq<Visit>, i: int)
    requires LastRecordedAt(last, url, visits, i)
    ensures Failed(AfterAll(last, url, visits)) <==> Erred(visits[i])
  {
    var k := SomeRecordIsLast(last, url, visits);
    assert k == i;
  }
}
