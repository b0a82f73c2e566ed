/** What the verdicts are worth: tamper evidence under an injective hash, and no false alarm
    over any honest history. */
module DisclosureProofs {
  import opened Wrappers
  import opened Disclosure

  //////// Honest chains

  type Hasher = (Hash, Entry) -> Hash

  /** Nothing but equal inputs hashes to equal outputs. */
  ghost predicate Injective(h: Hasher) {
    forall p, e, q, f :: h(p, e) == h(q, f) ==> p == q && e == f
  }

  function Fields(e: Entry): Entry { e.(prevHash := "", hash := "") }

  const GENESIS: Hash := ""

  predicate Covers(h: Hasher, chain: seq<Entry>, i: nat)
    requires i < |chain|
  {
    && chain[i].prevHash == (if i == 0 then GENESIS else chain[i - 1].hash)
    && chain[i].hash == h(chain[i].prevHash, Fields(chain[i]))
  }

  /** Oldest first, numbered from one, every hash covering the fields and the hash before. */
  ghost predicate Chained(h: Hasher, chain: seq<Entry>) {
    && (forall i :: 0 <= i < |chain| ==> chain[i].seqNo == i + 1)
    && (forall i :: 0 <= i < |chain| ==> Covers(h, chain, i))
  }

  function HeadHash(chain: seq<Entry>): Hash {
    if chain == [] then "" else chain[|chain| - 1].hash
  }

  function Shown(chain: seq<Entry>, cap: nat): nat { if cap < |chain| then cap else |chain| }

  /** A server showing this chain with its list capped. */
  function Show(chain: seq<Entry>, cap: nat): (log: Log)
    ensures |log.entries| == Shown(chain, cap)
    ensures forall i :: 0 <= i < Shown(chain, cap) ==> log.entries[i] == chain[|chain| - 1 - i]
  {
    Log(|chain|, HeadHash(chain),
        seq(Shown(chain, cap), i requires 0 <= i < Shown(chain, cap) => chain[|chain| - 1 - i]))
  }

  // The list reaches back to the n-th entry.
  predicate ReachesBack(chain: seq<Entry>, cap: nat, n: int) { |chain| - Shown(chain, cap) < n <= |chain| }

  lemma {:induction false} EntryAtIs(entries: seq<Entry>, n: int, i: nat)
    requires i < |entries| && entries[i].seqNo == n
    requires forall j :: 0 <= j < i ==> entries[j].seqNo != n
    ensures EntryAt(entries, n) == Some(entries[i])
  {
    if i > 0 {
      EntryAtIs(entries[1..], n, i - 1);
    }
  }

  lemma ShownAt(h: Hasher, chain: seq<Entry>, cap: nat, n: int)
    requires Chained(h, chain)
    ensures EntryAt(Show(chain, cap).entries, n) ==
            if ReachesBack(chain, cap, n) then Some(chain[n - 1]) else None
  {
    var entries := Show(chain, cap).entries;
    if ReachesBack(chain, cap, n) {
      EntryAtIs(entries, n, |chain| - n);
    } else {
      forall e | e in entries
        ensures e.seqNo != n
      {
        var i :| 0 <= i < |entries| && entries[i] == e;
        assert chain[|chain| - 1 - i].seqNo == |chain| - i;
      }
    }
  }

  /** A reading of an honest chain links up exactly when the list is not cut down to nothing,
      which is why a limit below one is never asked for. */
  lemma HonestReadingLinksIff(h: Hasher, chain: seq<Entry>, cap: nat)
    requires Chained(h, chain)
    ensures LinksUp(Show(chain, cap)) <==> chain == [] || cap >= 1
  {
    var log := Show(chain, cap);
    if chain != [] && cap >= 1 {
      forall i, j | 0 <= i < |log.entries| - 1 && j == i + 1
        ensures log.entries[i].prevHash == log.entries[j].hash
      {
        assert log.entries[i] == chain[|chain| - 1 - i];
        assert log.entries[j] == chain[|chain| - 1 - j];
        assert Covers(h, chain, |chain| - 1 - i);
      }
    }
  }

  //////// Tamper evidence

  /** Equal hashes at a position mean equal chains up to it. */
  lemma {:induction false} HashFixesPrefix(h: Hasher, a: seq<Entry>, b: seq<Entry>, n: nat)
    requires Injective(h) && Chained(h, a) && Chained(h, b)
    requires 0 < n <= |a| && n <= |b| && a[n - 1].hash == b[n - 1].hash
    ensures a[..n] == b[..n]
  {
    var x, y := a[n - 1], b[n - 1];
    assert Covers(h, a, n - 1) && Covers(h, b, n - 1);
    assert h(x.prevHash, Fields(x)) == h(y.prevHash, Fields(y));
    assert x == Fields(x).(prevHash := x.prevHash, hash := x.hash);
    assert y == Fields(y).(prevHash := y.prevHash, hash := y.hash);
    assert a[..n] == a[..n - 1] + [x] && b[..n] == b[..n - 1] + [y];
    if n > 1 {
      HashFixesPrefix(h, a, b, n - 1);
    }
  }

  /** The kept heads are those of the chains this machine was shown on the days it looked. */
  ghost predicate HeadsOf(h: Hasher, kept: seq<Keep>, past: seq<seq<Entry>>) {
    && |kept| == |past|
    && forall i :: 0 <= i < |kept| ==>
         && Chained(h, past[i])
         && kept[i].head.count == |past[i]| && kept[i].head.hash == HeadHash(past[i])
  }

  predicate Extends(now: seq<Entry>, before: seq<Entry>) { before <= now }

  /** What one kept head finds in a reading, said about the chains themselves. */
  lemma FindingIs(h: Hasher, now: seq<Entry>, cap: nat, k: Keep, before: seq<Entry>)
    requires Injective(h) && Chained(h, now) && Chained(h, before)
    requires k.head.count == |before| && k.head.hash == HeadHash(before)
    ensures var f := Against(Show(now, cap), k);
            && (f.TooShort? <==> |now| < |before|)
            && (f.Differs? <==> before != [] && ReachesBack(now, cap, |before|) && !Extends(now, before))
            && (f.Confirms? <==> before != [] && ReachesBack(now, cap, |before|) && Extends(now, before))
  {
    if 0 < |before| <= |now| {
      ShownAt(h, now, cap, |before|);
      if now[|before| - 1].hash == before[|before| - 1].hash {
        HashFixesPrefix(h, now, before, |before|);
        assert before[..|before|] == before;
      } else {
        assert Extends(now, before) ==> now[|before| - 1] == before[|before| - 1];
      }
    }
  }

  /** The verdict is an alarm exactly when some chain shown before is not a prefix of the
      chain shown now and the list, or the count, reaches far enough to tell. */
  lemma AlarmIff(h: Hasher, now: seq<Entry>, cap: nat, kept: seq<Keep>, past: seq<seq<Entry>>)
    requires Injective(h) && Chained(h, now) && HeadsOf(h, kept, past) && cap >= 1
    ensures Judge(Show(now, cap), kept).0.Wrong() <==>
            exists i :: 0 <= i < |past| && !Extends(now, past[i])
                        && (|now| < |past[i]| || ReachesBack(now, cap, |past[i]|))
  {
    var log := Show(now, cap);
    HonestReadingLinksIff(h, now, cap);
    forall i | 0 <= i < |kept|
      ensures Contradicts(Against(log, kept[i])) <==>
              !Extends(now, past[i]) && (|now| < |past[i]| || ReachesBack(now, cap, |past[i]|))
    {
      FindingIs(h, now, cap, kept[i], past[i]);
      if past[i] == [] {
        assert Extends(now, past[i]);
      }
    }
    var bad := FirstFinding(log, kept, true);
    if bad.Some? {
      assert Contradicts(Against(log, kept[bad.value]));
    }
  }

  /** "Agrees" names the date it vouches from: the chain shown then is a prefix, entry for
      entry, of the chain shown now, and so is every chain whose head the list reaches. */
  lemma AgreementMeansPrefix(h: Hasher, now: seq<Entry>, cap: nat, kept: seq<Keep>, past: seq<seq<Entry>>)
    requires Injective(h) && Chained(h, now) && HeadsOf(h, kept, past)
    requires Judge(Show(now, cap), kept).0.Agrees?
    ensures var vouched := Judge(Show(now, cap), kept).1;
            && vouched.Some?
            && exists i :: 0 <= i < |kept| && kept[i] == vouched.value && past[i] != [] && Extends(now, past[i])
                           && forall j :: 0 <= j < i ==> past[j] == [] || !ReachesBack(now, cap, |past[j]|)
    ensures forall i :: 0 <= i < |past| ==> |past[i]| <= |now|
    ensures forall i :: 0 <= i < |past| && ReachesBack(now, cap, |past[i]|) ==> Extends(now, past[i])
  {
    var log := Show(now, cap);
    forall i | 0 <= i < |kept|
      ensures !Contradicts(Against(log, kept[i]))
      ensures |past[i]| <= |now|
      ensures ReachesBack(now, cap, |past[i]|) ==> Extends(now, past[i])
      ensures Against(log, kept[i]).Confirms? <==> past[i] != [] && ReachesBack(now, cap, |past[i]|)
    {
      FindingIs(h, now, cap, kept[i], past[i]);
    }
    var good := FirstFinding(log, kept, false).value;
    assert Against(log, kept[good]).Confirms?;
    forall j | 0 <= j < good
      ensures past[j] == [] || !ReachesBack(now, cap, |past[j]|)
    {
      assert !Against(log, kept[j]).Confirms?;
    }
  }

  /** The edge of the guarantee: nothing here recomputes a hash, so a server that edits the
      fields of an entry and shows it with the old hashes gets the same verdict. */
  lemma VerdictReadsNoFields(log: Log, edited: Log, kept: seq<Keep>)
    requires log.count == edited.count && log.head == edited.head && |log.entries| == |edited.entries|
    requires forall i :: 0 <= i < |log.entries| ==>
               && log.entries[i].seqNo == edited.entries[i].seqNo
               && log.entries[i].prevHash == edited.entries[i].prevHash
               && log.entries[i].hash == edited.entries[i].hash
    ensures Judge(log, kept) == Judge(edited, kept)
  {
    forall k | k in kept
      ensures Against(log, k) == Against(edited, k)
    {
      SameHashesSameEntry(log.entries, edited.entries, k.head.count);
    }
    SameFindingsSameFirst(log, edited, kept, true, 0);
    SameFindingsSameFirst(log, edited, kept, false, 0);
  }

  lemma {:induction false} SameHashesSameEntry(a: seq<Entry>, b: seq<Entry>, n: int)
    requires |a| == |b| && forall i :: 0 <= i < |a| ==> a[i].seqNo == b[i].seqNo && a[i].hash == b[i].hash
    ensures EntryAt(a, n).Some? <==> EntryAt(b, n).Some?
    ensures EntryAt(a, n).Some? ==> EntryAt(a, n).value.hash == EntryAt(b, n).value.hash
  {
    if a != [] {
      SameHashesSameEntry(a[1..], b[1..], n);
    }
  }

  lemma SameFindingsSameFirst(a: Log, b: Log, kept: seq<Keep>, contradiction: bool, from: nat)
    requires from <= |kept| && forall k :: k in kept ==> Against(a, k) == Against(b, k)
    ensures FirstFinding(a, kept, contradiction, from) == FirstFinding(b, kept, contradiction, from)
    decreases |kept| - from
  {
  }

  //////// No false alarm

  /** One honest day: the server records a disclosure, or the machine reads its log. */
  datatype Deed =
    | Record(at: Time, kind: Kind, byMachine: bool, detail: string)
    | Look(limit: int, now: Time)

  datatype History = History(chain: seq<Entry>, kept: seq<Keep>)

  /** The limit the source asks the server for. */
  function Clamp(limit: int): nat { if limit < 1 then 1 else if limit > 500 then 500 else limit }

  function Appended(h: Hasher, chain: seq<Entry>, deed: Deed): seq<Entry>
    requires deed.Record?
  {
    var bare := Entry(|chain| + 1, deed.at, deed.kind, deed.byMachine, deed.detail, "", "");
    var prev := if chain == [] then GENESIS else chain[|chain| - 1].hash;
    chain + [bare.(prevHash := prev, hash := h(prev, bare))]
  }

  ghost predicate Honest(h: Hasher, s: History) {
    && Chained(h, s.chain) && Sorted(s.kept)
    && forall k :: k in s.kept ==>
         && 0 <= k.head.count <= |s.chain|
         && k.head.hash == HeadHash(s.chain[..k.head.count])
  }

  function Live(h: Hasher, s: History, deed: Deed): History
    requires Sorted(s.kept)
  {
    match deed
    case Record(_, _, _, _) => s.(chain := Appended(h, s.chain, deed))
    case Look(limit, now) => s.(kept := Remembered(s.kept, Show(s.chain, Clamp(limit)).Head(), now))
  }

  lemma LiveStaysHonest(h: Hasher, s: History, deed: Deed)
    requires Honest(h, s)
    ensures Honest(h, Live(h, s, deed))
  {
    var after := Live(h, s, deed);
    match deed {
      case Record(_, _, _, _) =>
        var last := after.chain[|s.chain|];
        assert Fields(last) == Entry(|s.chain| + 1, deed.at, deed.kind, deed.byMachine, deed.detail, "", "");
        forall i | 0 <= i < |after.chain|
          ensures Covers(h, after.chain, i)
        {
          if i < |s.chain| {
            assert Covers(h, s.chain, i);
          }
        }
        forall k | k in s.kept
          ensures after.chain[..k.head.count] == s.chain[..k.head.count]
        {
        }
      case Look(limit, now) =>
        assert s.chain[..|s.chain|] == s.chain;
    }
  }

  ghost function Lived(h: Hasher, deeds: seq<Deed>): (s: History)
    ensures Honest(h, s)
  {
    if deeds == [] then History([], [])
    else
      var before := Lived(h, deeds[..|deeds| - 1]);
      LiveStaysHonest(h, before, deeds[|deeds| - 1]);
      Live(h, before, deeds[|deeds| - 1])
  }

  lemma HonestFinding(h: Hasher, s: History, k: Keep, cap: nat)
    requires Honest(h, s) && k in s.kept
    ensures var f := Against(Show(s.chain, cap), k);
            && !Contradicts(f)
            && (f.Confirms? <==> k.head.count > 0 && ReachesBack(s.chain, cap, k.head.count))
  {
    var n := k.head.count;
    ShownAt(h, s.chain, cap, n);
    if n > 0 {
      assert s.chain[..n][n - 1] == s.chain[n - 1];
    }
  }

  /** After any honest history, a reading with any limit raises no alarm; it is a first look
      exactly when nothing is kept, and it agrees exactly when some non-empty kept head is
      within reach of the list. No property of the hash is needed. */
  lemma NoFalseAlarm(h: Hasher, deeds: seq<Deed>, limit: int)
    ensures var s := Lived(h, deeds);
            var verdict := Judge(Show(s.chain, Clamp(limit)), s.kept).0;
            && !verdict.Wrong()
            && (verdict.FirstLook? <==> s.kept == [])
            && (verdict.Agrees? <==>
                  exists k :: k in s.kept && k.head.count > 0 && ReachesBack(s.chain, Clamp(limit), k.head.count))
  {
    var s := Lived(h, deeds);
    var cap := Clamp(limit);
    var log := Show(s.chain, cap);
    HonestReadingLinksIff(h, s.chain, cap);
    forall i | 0 <= i < |s.kept|
      ensures !Contradicts(Against(log, s.kept[i]))
      ensures Against(log, s.kept[i]).Confirms? <==>
              s.kept[i].head.count > 0 && ReachesBack(s.chain, cap, s.kept[i].head.count)
    {
      HonestFinding(h, s, s.kept[i], cap);
    }
    var good := FirstFinding(log, s.kept, false);
    if good.Some? {
      assert s.kept[good.value] in s.kept;
    }
  }

  lemma {:induction false} KeptForever(h: Hasher, deeds: seq<Deed>, more: seq<Deed>, k: Keep)
    requires k in Lived(h, deeds).kept
    ensures k in Lived(h, deeds + more).kept
  {
    if more == [] {
      assert deeds + more == deeds;
    } else {
      var front := more[..|more| - 1];
      KeptForever(h, deeds, front, k);
      assert (deeds + more)[..|deeds + more| - 1] == deeds + front;
    }
  }

  // In an honest machine's hands, any head within reach is vouched from or improved upon.
  lemma VouchesFromTheOldest(h: Hasher, s: History, cap: nat, k: Keep)
    requires Honest(h, s) && cap >= 1
    requires k in s.kept && k.head.count > 0 && ReachesBack(s.chain, cap, k.head.count)
    ensures var (verdict, against) := Judge(Show(s.chain, cap), s.kept);
            && verdict.Agrees? && against.Some? && against.value in s.kept
            && against.value.head.count <= k.head.count
            && (against.value.head.count == k.head.count ==> against.value == k)
  {
    var log := Show(s.chain, cap);
    NothingContradicts(h, s, cap);
    HonestFinding(h, s, k, cap);
    var i :| 0 <= i < |s.kept| && s.kept[i] == k;
    var good := FirstFinding(log, s.kept, false);
    assert good.Some? && good.value <= i;
  }

  lemma NothingContradicts(h: Hasher, s: History, cap: nat)
    requires Honest(h, s) && cap >= 1
    ensures LinksUp(Show(s.chain, cap)) && FirstFinding(Show(s.chain, cap), s.kept, true).None?
  {
    HonestReadingLinksIff(h, s.chain, cap);
    forall i | 0 <= i < |s.kept|
      ensures !Contradicts(Against(Show(s.chain, cap), s.kept[i]))
    {
      HonestFinding(h, s, s.kept[i], cap);
    }
  }

  /** Looking again never moves the date the check reaches back to: an uncapped reading, at any
      later time, vouches from the oldest non-empty head and its first sighting. */
  lemma VouchesFromTheFirstSighting(h: Hasher, deeds: seq<Deed>, more: seq<Deed>, k: Keep, limit: int)
    requires k in Lived(h, deeds).kept && k.head.count > 0
    requires |Lived(h, deeds + more).chain| <= Clamp(limit)
    ensures var s := Lived(h, deeds + more);
            var (verdict, against) := Judge(Show(s.chain, Clamp(limit)), s.kept);
            && verdict.Agrees? && against.Some? && against.value in s.kept
            && against.value.head.count <= k.head.count
            && (against.value.head.count == k.head.count ==> against.value == k)
  {
    KeptForever(h, deeds, more, k);
    var s := Lived(h, deeds + more);
    VouchesFromTheOldest(h, s, Clamp(limit), k);
  }
}
