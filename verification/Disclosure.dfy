/** The check a machine makes of its own disclosure log: a reading of the server's hash chain
    against every head this machine has written down. */
module Disclosure {
  import opened Wrappers

  type Hash = string
  type Time = int

  datatype Kind =
    | Minted | Adopted | Enrolled | Fetched | Revealed | Exported
    | KeysGranted | KeysRetired | KeysForeign
    | Unheard(name: string)  // a kind a later server invented
  {
    predicate AboutBucket() { KeysGranted? || KeysRetired? || KeysForeign? }
  }

  /** `detail` stands for all the fields no check reads. */
  datatype Entry = Entry(
    seqNo: int, at: Time, kind: Kind, byMachine: bool, detail: string, prevHash: Hash, hash: Hash)

  datatype Witness = Witness(count: int, hash: Hash, at: Option<Time>) {
    predicate Zero() { count == 0 && hash == "" }
  }

  datatype Keep = Keep(head: Witness, seen: Time)

  /** One reading: the whole chain's length and head, and its newest entries, newest first. */
  datatype Log = Log(count: int, head: Hash, entries: seq<Entry>) {
    function Head(): Witness {
      Witness(count, head, if entries == [] then None else Some(entries[0].at))
    }
  }

  datatype Verdict = FirstLook | Agrees | Unproven | Shrunk | Rewritten | Broken {
    predicate Wrong() { Shrunk? || Rewritten? || Broken? }
  }

  //////// What a verdict means

  /** The reading holds together on its own terms. */
  ghost predicate LinksUp(log: Log) {
    if log.entries == [] then log.count == 0 && log.head == ""
    else
      && (log.entries[0].seqNo == log.count ==> log.entries[0].hash == log.head)
      && forall i, j :: 0 <= i < |log.entries| - 1 && j == i + 1 && log.entries[i].seqNo == log.entries[j].seqNo + 1
           ==> log.entries[i].prevHash == log.entries[j].hash
  }

  /** The entry shown at a position in the chain, if the list reaches it. */
  function EntryAt(entries: seq<Entry>, n: int): (found: Option<Entry>)
    ensures found.Some? ==> found.value in entries && found.value.seqNo == n
    ensures found.None? ==> forall e :: e in entries ==> e.seqNo != n
  {
    if entries == [] then None
    else if entries[0].seqNo == n then Some(entries[0])
    else EntryAt(entries[1..], n)
  }

  datatype Finding = Silent | Confirms | TooShort | Differs

  /** What one kept head says about a reading. */
  function Against(log: Log, k: Keep): Finding {
    if k.head.Zero() then Silent
    else if log.count < k.head.count then TooShort
    else
      match EntryAt(log.entries, k.head.count)
      case None => Silent
      case Some(entry) => if entry.hash == k.head.hash then Confirms else Differs
  }

  predicate Contradicts(f: Finding) { f.TooShort? || f.Differs? }

  /** The first kept head, oldest first, that makes the wanted kind of finding. */
  function FirstFinding(log: Log, kept: seq<Keep>, contradiction: bool, from: nat := 0): (found: Option<nat>)
    requires from <= |kept|
    ensures found.Some? ==> from <= found.value < |kept| && Wanted(Against(log, kept[found.value]), contradiction)
    ensures forall j :: from <= j < (if found.Some? then found.value else |kept|) ==>
              !Wanted(Against(log, kept[j]), contradiction)
    decreases |kept| - from
  {
    if from == |kept| then None
    else if Wanted(Against(log, kept[from]), contradiction) then Some(from)
    else FirstFinding(log, kept, contradiction, from + 1)
  }

  predicate Wanted(f: Finding, contradiction: bool) {
    if contradiction then Contradicts(f) else f.Confirms?
  }

  ghost predicate NoneBefore(log: Log, kept: seq<Keep>, contradiction: bool, n: nat)
    requires n <= |kept|
  {
    forall j :: 0 <= j < n ==> !Wanted(Against(log, kept[j]), contradiction)
  }

  lemma FirstFindingIs(log: Log, kept: seq<Keep>, contradiction: bool, n: nat)
    requires n <= |kept| && NoneBefore(log, kept, contradiction, n)
    ensures n == |kept| ==> FirstFinding(log, kept, contradiction).None?
    ensures n < |kept| && Wanted(Against(log, kept[n]), contradiction) ==>
              FirstFinding(log, kept, contradiction) == Some(n)
  {
    var found := FirstFinding(log, kept, contradiction);
    if found.Some? {
      assert Wanted(Against(log, kept[found.value]), contradiction);
    }
  }

  ghost function Judge(log: Log, kept: seq<Keep>): (Verdict, Option<Keep>) {
    if !LinksUp(log) then (Broken, None)
    else
      var bad := FirstFinding(log, kept, true);
      var good := FirstFinding(log, kept, false);
      if bad.Some? then (if Against(log, kept[bad.value]).TooShort? then Shrunk else Rewritten, None)
      else if good.Some? then (Agrees, Some(kept[good.value]))
      else if kept == [] then (FirstLook, None)
      else (Unproven, None)
  }

  /** What is kept of a reading: its count, its head, and the time of its newest entry if it shows
      any. */
  lemma HeadIs(log: Log)
    ensures log.Head().count == log.count && log.Head().hash == log.head
    ensures log.entries == [] ==> log.Head().at == None
    ensures log.entries != [] ==> log.Head().at == Some(log.entries[0].at)
  {
  }

  /** The head of a chain still empty says nothing of any reading. */
  lemma EmptyHeadIsSilent(log: Log, k: Keep)
    requires k.head.count == 0 && k.head.hash == ""
    ensures Against(log, k).Silent?
  {
  }

  //////// The check

  method Linked(log: Log) returns (ok: bool)
    ensures ok <==> LinksUp(log)
  {
    if |log.entries| == 0 { return log.count == 0 && log.head == ""; }
    var newest := log.entries[0];
    if newest.seqNo == log.count && newest.hash != log.head { return false; }
    var i := 0;
    while i + 1 < |log.entries|
      invariant 0 <= i < |log.entries|
      invariant forall a, b :: 0 <= a < i && b == a + 1 && log.entries[a].seqNo == log.entries[b].seqNo + 1
                  ==> log.entries[a].prevHash == log.entries[b].hash
    {
      var entry, prev := log.entries[i], log.entries[i + 1];
      if entry.seqNo == prev.seqNo + 1 && entry.prevHash != prev.hash { return false; }
      i := i + 1;
    }
    return true;
  }

  method At(entries: seq<Entry>, n: int) returns (found: Option<Entry>)
    ensures found == EntryAt(entries, n)
  {
    var i := 0;
    while i < |entries|
      invariant 0 <= i <= |entries|
      invariant EntryAt(entries, n) == EntryAt(entries[i..], n)
    {
      if entries[i].seqNo == n { return Some(entries[i]); }
      i := i + 1;
    }
    return None;
  }

  method Look(log: Log, k: Keep) returns (finding: Finding)
    ensures finding == Against(log, k)
  {
    if k.head.Zero() { return Silent; }
    if log.count < k.head.count { return TooShort; }
    var entry := At(log.entries, k.head.count);
    if entry.None? { return Silent; }
    return if entry.value.hash == k.head.hash then Confirms else Differs;
  }

  method Check(log: Log, kept: seq<Keep>) returns (verdict: Verdict, vouched: Option<Keep>)
    ensures (verdict, vouched) == Judge(log, kept)
  {
    var ok := Linked(log);
    if !ok { return Broken, None; }
    vouched := None;
    ghost var first: Option<nat> := None;
    var i := 0;
    while i < |kept|
      invariant 0 <= i <= |kept| && NoneBefore(log, kept, true, i)
      invariant vouched.None? ==> NoneBefore(log, kept, false, i)
      invariant vouched.Some? ==> first.Some? && first.value < i && vouched == Some(kept[first.value])
                                  && FirstFinding(log, kept, false) == first
    {
      var k := kept[i];
      FirstFindingIs(log, kept, true, i);
      var finding := Look(log, k);
      if finding.TooShort? { return Shrunk, None; }
      if finding.Differs? { return Rewritten, None; }
      if finding.Confirms? && vouched.None? {
        FirstFindingIs(log, kept, false, i);
        vouched, first := Some(k), Some(i);
      }
      i := i + 1;
    }
    FirstFindingIs(log, kept, true, i);
    if vouched.Some? { return Agrees, vouched; }
    FirstFindingIs(log, kept, false, i);
    return if |kept| == 0 then FirstLook else Unproven, None;
  }

  //////// Sorting a reading for the page

  datatype Column = People | Machines | Keys

  function ColumnOf(e: Entry): Column {
    if e.kind.AboutBucket() then Keys else if e.byMachine then Machines else People
  }

  function InColumn(entries: seq<Entry>, column: Column): seq<Entry> {
    if entries == [] then []
    else
      var last := entries[|entries| - 1];
      InColumn(entries[..|entries| - 1], column) + (if ColumnOf(last) == column then [last] else [])
  }

  function ForeignOnly(entries: seq<Entry>): seq<Entry> {
    if entries == [] then []
    else
      var last := entries[|entries| - 1];
      ForeignOnly(entries[..|entries| - 1]) + (if last.kind.KeysForeign? then [last] else [])
  }

  datatype Report = Report(
    log: Log,
    people: seq<Entry>, machines: seq<Entry>, keys: seq<Entry>, foreign: seq<Entry>,
    capped: bool, verdict: Verdict, against: Option<Keep>, kept: nat)

  method Split(log: Log) returns (r: Report)
    ensures r == Report(log, InColumn(log.entries, People), InColumn(log.entries, Machines),
                        InColumn(log.entries, Keys), ForeignOnly(log.entries),
                        |log.entries| < log.count, FirstLook, None, 0)
  {
    var people, machines, keys, foreign := [], [], [], [];
    var i := 0;
    while i < |log.entries|
      invariant 0 <= i <= |log.entries|
      invariant people == InColumn(log.entries[..i], People)
      invariant machines == InColumn(log.entries[..i], Machines)
      invariant keys == InColumn(log.entries[..i], Keys)
      invariant foreign == ForeignOnly(log.entries[..i])
    {
      var e := log.entries[i];
      assert log.entries[..i + 1][..i] == log.entries[..i];
      if e.kind.AboutBucket() {
        keys := keys + [e];
        if e.kind.KeysForeign? {
          foreign := foreign + [e];
        }
      } else if e.byMachine {
        machines := machines + [e];
      } else {
        people := people + [e];
      }
      i := i + 1;
    }
    assert log.entries[..i] == log.entries;
    return Report(log, people, machines, keys, foreign, |log.entries| < log.count, FirstLook, None, 0);
  }

  lemma {:induction false} ColumnHolds(entries: seq<Entry>, e: Entry, column: Column)
    ensures multiset(InColumn(entries, column))[e] == if ColumnOf(e) == column then multiset(entries)[e] else 0
  {
    if entries != [] {
      var front := entries[..|entries| - 1];
      assert entries == front + [entries[|entries| - 1]];
      ColumnHolds(front, e, column);
    }
  }

  lemma {:induction false} ForeignHolds(entries: seq<Entry>, e: Entry)
    ensures multiset(ForeignOnly(entries))[e] == if e.kind.KeysForeign? then multiset(entries)[e] else 0
  {
    if entries != [] {
      var front := entries[..|entries| - 1];
      assert entries == front + [entries[|entries| - 1]];
      ForeignHolds(front, e);
    }
  }

  /** The columns: what was done to the keys of buckets, what machines did, what people did; and of
      the first, the keys this server does not hold. Each entry is where it belongs as often as it
      was listed, and nowhere else. */
  lemma ColumnsAre(entries: seq<Entry>, e: Entry)
    ensures var n, about := multiset(entries)[e], e.kind.KeysGranted? || e.kind.KeysRetired? || e.kind.KeysForeign?;
            && multiset(InColumn(entries, Keys))[e] == (if about then n else 0)
            && multiset(InColumn(entries, Machines))[e] == (if !about && e.byMachine then n else 0)
            && multiset(InColumn(entries, People))[e] == (if !about && !e.byMachine then n else 0)
            && multiset(ForeignOnly(entries))[e] == (if e.kind.KeysForeign? then n else 0)
  {
    ColumnHolds(entries, e, Keys);
    ColumnHolds(entries, e, Machines);
    ColumnHolds(entries, e, People);
    ForeignHolds(entries, e);
  }

  /** Each column keeps the order of the list: it is the column of the first part followed by that
      of the rest, wherever the list is cut. */
  lemma {:induction false} ColumnsKeepOrder(a: seq<Entry>, b: seq<Entry>, column: Column)
    ensures InColumn(a + b, column) == InColumn(a, column) + InColumn(b, column)
    ensures ForeignOnly(a + b) == ForeignOnly(a) + ForeignOnly(b)
  {
    if b == [] {
      assert a + b == a;
    } else {
      var front := b[..|b| - 1];
      assert (a + b)[..|a + b| - 1] == a + front;
      ColumnsKeepOrder(a, front, column);
    }
  }

  //////// Keeping heads

  ghost predicate Sorted(kept: seq<Keep>) {
    forall i, j :: 0 <= i < j < |kept| ==> kept[i].head.count < kept[j].head.count
  }

  ghost predicate NoneOf(kept: seq<Keep>, count: int) { forall k :: k in kept ==> k.head.count != count }

  // In order, and with one more head exactly when none of its count was there.
  ghost predicate OneMore(kept: seq<Keep>, more: Keep, after: seq<Keep>) {
    Sorted(after) && forall k :: k in after <==> k in kept || (k == more && NoneOf(kept, more.head.count))
  }

  lemma OneMoreAtTheEnd(kept: seq<Keep>, more: Keep)
    requires Sorted(kept) && kept != [] && kept[|kept| - 1].head.count < more.head.count
    ensures OneMore(kept, more, kept + [more])
  {
    forall k | k in kept
      ensures k.head.count < more.head.count
    {
      var i :| 0 <= i < |kept| && kept[i] == k;
    }
  }

  lemma OneMoreBeforeTheEnd(front: seq<Keep>, last: Keep, more: Keep, rest: seq<Keep>)
    requires Sorted(front + [last]) && more.head.count < last.head.count && OneMore(front, more, rest)
    ensures OneMore(front + [last], more, rest + [last])
  {
    var kept := front + [last];
    forall k | k in rest
      ensures k.head.count < last.head.count
    {
      if k in front {
        var i :| 0 <= i < |front| && front[i] == k;
        assert kept[i] == k && kept[|front|] == last;
      }
    }
    forall i | 0 <= i < |rest|
      ensures rest[i].head.count < last.head.count
    {
      assert rest[i] in rest;
    }
    assert NoneOf(kept, more.head.count) <==> NoneOf(front, more.head.count) by {
      assert forall k :: k in kept <==> k in front || k == last;
    }
  }

  /** The heads in order of count, with a new one put in its place unless one of that count
      is already there. */
  function Remembered(kept: seq<Keep>, w: Witness, seen: Time): (after: seq<Keep>)
    requires Sorted(kept)
    ensures OneMore(kept, Keep(w, seen), after)
  {
    if kept == [] then [Keep(w, seen)]
    else
      var last := kept[|kept| - 1];
      var front := kept[..|kept| - 1];
      if last.head.count == w.count then
        assert last in kept;
        kept
      else if last.head.count < w.count then
        OneMoreAtTheEnd(kept, Keep(w, seen));
        kept + [Keep(w, seen)]
      else
        assert kept == front + [last];
        var rest := Remembered(front, w, seen);
        OneMoreBeforeTheEnd(front, last, Keep(w, seen), rest);
        rest + [last]
  }

  /** What can stop a reading before it becomes a report. */
  datatype Outcome = Read(report: Report) | NotEnrolled | Unlisted | Unread | Unkept

  class Trail {
    var kept: seq<Keep>

    constructor ()
      ensures kept == []
    {
      kept := [];
    }

    /** The new head is kept whatever the verdict; a failure keeps nothing. */
    method Reading(available: bool, listed: Option<Log>, readable: bool, now: Time, storable: bool)
      returns (outcome: Outcome)
      requires Sorted(kept)
      modifies this
      ensures Sorted(kept)
      ensures !outcome.Read? ==> kept == old(kept)
      ensures outcome == NotEnrolled <==> !available
      ensures outcome == Unlisted <==> available && listed.None?
      ensures outcome == Unread <==> available && listed.Some? && !readable
      ensures outcome == Unkept <==> available && listed.Some? && readable && !storable
      ensures available && listed.Some? && readable && storable ==>
                && outcome.Read?
                && (outcome.report.verdict, outcome.report.against) == Judge(listed.value, old(kept))
                && outcome.report.kept == |old(kept)|
                && outcome.report.log == listed.value
                && outcome.report.people == InColumn(listed.value.entries, People)
                && outcome.report.machines == InColumn(listed.value.entries, Machines)
                && outcome.report.keys == InColumn(listed.value.entries, Keys)
                && outcome.report.foreign == ForeignOnly(listed.value.entries)
                && (outcome.report.capped <==> |listed.value.entries| < listed.value.count)
                && kept == Remembered(old(kept), listed.value.Head(), now)
    {
      if !available { return NotEnrolled; }
      if listed.None? { return Unlisted; }
      if !readable { return Unread; }
      var report := Split(listed.value);
      var verdict, against := Check(listed.value, kept);
      report := report.(kept := |kept|, verdict := verdict, against := against);
      if !storable { return Unkept; }
      kept := Remembered(kept, listed.value.Head(), now);
      return Read(report);
    }
  }
}
