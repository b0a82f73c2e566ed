/** What holding together is worth, of any list a server may show and not only of an honest one:
    two lists that hold together under one head are one list, and which single alterations of an
    honest list are seen. */
module DisclosureLinks {
  import opened Wrappers
  import opened Disclosure
  import opened DisclosureProofs

  //////// Any two lists under one head

  /** A list whose entries are hashed as they stand and numbered down from the count. Nothing is
      said of how it was made: entries may be invented, edited or taken from other chains. */
  ghost predicate Hashed(h: Hasher, log: Log) {
    forall i :: 0 <= i < |log.entries| ==>
      && log.entries[i].seqNo == log.count - i
      && log.entries[i].hash == h(log.entries[i].prevHash, Fields(log.entries[i]))
  }

  lemma NotBrokenMeansLinked(log: Log, kept: seq<Keep>, i: nat)
    requires i < |log.entries| && !Judge(log, kept).0.Broken?
    requires forall j :: 0 <= j < |log.entries| ==> log.entries[j].seqNo == log.count - j
    ensures log.entries[i].hash == if i == 0 then log.head else log.entries[i - 1].prevHash
  {
    if i > 0 {
      assert log.entries[i - 1].seqNo == log.entries[i].seqNo + 1;
    }
  }

  lemma SameHashSameEntry(h: Hasher, x: Entry, y: Entry)
    requires Injective(h) && x.hash == y.hash
    requires x.hash == h(x.prevHash, Fields(x)) && y.hash == h(y.prevHash, Fields(y))
    ensures x == y
  {
    assert x == Fields(x).(prevHash := x.prevHash, hash := x.hash);
    assert y == Fields(y).(prevHash := y.prevHash, hash := y.hash);
  }

  /** Two such lists of one count under one head, neither of them called broken, whatever either
      machine has kept: they show the same entries as far as both reach. A spliced list is called
      broken, or it is the list it claims to be. */
  lemma {:induction false} OneHeadOneList(
    h: Hasher, a: Log, keptA: seq<Keep>, b: Log, keptB: seq<Keep>, i: nat)
    requires Injective(h) && Hashed(h, a) && Hashed(h, b) && a.count == b.count && a.head == b.head
    requires !Judge(a, keptA).0.Broken? && !Judge(b, keptB).0.Broken?
    requires i < |a.entries| && i < |b.entries|
    ensures a.entries[i] == b.entries[i]
  {
    NotBrokenMeansLinked(a, keptA, i);
    NotBrokenMeansLinked(b, keptB, i);
    if i > 0 {
      OneHeadOneList(h, a, keptA, b, keptB, i - 1);
    }
    SameHashSameEntry(h, a.entries[i], b.entries[i]);
  }

  //////// One alteration of an honest list

  lemma ShownLinks(h: Hasher, chain: seq<Entry>, cap: nat, i: nat)
    requires Chained(h, chain) && i < Shown(chain, cap)
    ensures var log := Show(chain, cap);
            && log.entries[i].seqNo == log.count - i
            && log.entries[i].hash == if i == 0 then log.head else log.entries[i - 1].prevHash
  {
    assert Covers(h, chain, |chain| - 1 - i);
    if i > 0 {
      assert Covers(h, chain, |chain| - i);
    }
  }

  lemma ShownLinksEverywhere(h: Hasher, chain: seq<Entry>, cap: nat)
    requires Chained(h, chain)
    ensures var log := Show(chain, cap);
            forall i :: 0 <= i < |log.entries| ==>
              && log.entries[i].seqNo == log.count - i
              && log.entries[i].hash == if i == 0 then log.head else log.entries[i - 1].prevHash
  {
    forall i | 0 <= i < Shown(chain, cap)
      ensures var log := Show(chain, cap);
              && log.entries[i].seqNo == log.count - i
              && log.entries[i].hash == if i == 0 then log.head else log.entries[i - 1].prevHash
    {
      ShownLinks(h, chain, cap, i);
    }
  }

  /** Another head over an honest list is always seen, over the empty one too. */
  lemma AlteredHeadIsBroken(h: Hasher, chain: seq<Entry>, cap: nat, head: Hash, kept: seq<Keep>)
    requires Chained(h, chain) && cap >= 1 && head != HeadHash(chain)
    ensures Judge(Show(chain, cap).(head := head), kept).0 == Broken
  {
    if chain != [] {
      ShownLinks(h, chain, cap, 0);
    }
  }

  /** Another count is seen only over the empty list: a newest entry that is not numbered by the
      count is not compared with the head. */
  lemma AlteredCountIsBrokenIff(h: Hasher, chain: seq<Entry>, cap: nat, count: int, kept: seq<Keep>)
    requires Chained(h, chain) && cap >= 1 && count != |chain|
    ensures Judge(Show(chain, cap).(count := count), kept).0 == Broken <==> chain == []
  {
    if chain != [] {
      ShownLinksEverywhere(h, chain, cap);
    }
  }

  /** Another hash on any entry shown is always seen: by the head, or by the entry after it. */
  lemma AlteredHashIsBroken(h: Hasher, chain: seq<Entry>, cap: nat, i: nat, hash: Hash, kept: seq<Keep>)
    requires Chained(h, chain) && i < Shown(chain, cap) && hash != Show(chain, cap).entries[i].hash
    ensures var log := Show(chain, cap);
            Judge(log.(entries := log.entries[i := log.entries[i].(hash := hash)]), kept).0 == Broken
  {
    var log := Show(chain, cap);
    var altered := log.entries[i := log.entries[i].(hash := hash)];
    ShownLinks(h, chain, cap, i);
    if i > 0 {
      ShownLinks(h, chain, cap, i - 1);
      assert altered[i - 1] == log.entries[i - 1] && altered[i].hash == hash;
    }
  }

  /** Another link is seen exactly when the entry it should lead to is shown. */
  lemma AlteredLinkIsBrokenIff(h: Hasher, chain: seq<Entry>, cap: nat, i: nat, prevHash: Hash, kept: seq<Keep>)
    requires Chained(h, chain) && i < Shown(chain, cap) && prevHash != Show(chain, cap).entries[i].prevHash
    ensures var log := Show(chain, cap);
            Judge(log.(entries := log.entries[i := log.entries[i].(prevHash := prevHash)]), kept).0 == Broken
            <==> i + 1 < Shown(chain, cap)
  {
    var log := Show(chain, cap);
    var altered := log.entries[i := log.entries[i].(prevHash := prevHash)];
    ShownLinksEverywhere(h, chain, cap);
    if i + 1 < Shown(chain, cap) {
      assert altered[i].prevHash == prevHash && altered[i + 1] == log.entries[i + 1];
    }
  }

  /** Leaving one of several entries out is never seen here, wherever it was: entries that do not
      claim to be neighbours are not compared. */
  lemma LeavingOutIsNotBroken(h: Hasher, chain: seq<Entry>, cap: nat, i: nat, kept: seq<Keep>)
    requires Chained(h, chain) && i < Shown(chain, cap) && Shown(chain, cap) > 1
    ensures var log := Show(chain, cap);
            Judge(log.(entries := log.entries[..i] + log.entries[i + 1..]), kept).0 != Broken
  {
    var log := Show(chain, cap);
    var rest := log.entries[..i] + log.entries[i + 1..];
    ShownLinksEverywhere(h, chain, cap);
    assert forall j :: 0 <= j < |rest| ==> rest[j] == log.entries[if j < i then j else j + 1];
  }

  /** Nor is turning the list round, although the check is described as catching one that was
      reordered. */
  lemma ReversedIsNotBroken(h: Hasher, chain: seq<Entry>, cap: nat, kept: seq<Keep>)
    requires Chained(h, chain) && Shown(chain, cap) > 1
    ensures var log := Show(chain, cap);
            var n := |log.entries|;
            Judge(log.(entries := seq(n, i requires 0 <= i < n => log.entries[n - 1 - i])), kept).0 != Broken
  {
    ShownLinksEverywhere(h, chain, cap);
  }

  //////// Which alarm

  // This head is in reach and its chain is no prefix of the one shown now.
  ghost predicate Rewrites(now: seq<Entry>, cap: nat, past: seq<seq<Entry>>, i: int) {
    0 <= i < |past| && ReachesBack(now, cap, |past[i]|) && !Extends(now, past[i])
  }

  // This head is past the end.
  ghost predicate Outgrown(now: seq<Entry>, past: seq<seq<Entry>>, i: int) {
    0 <= i < |past| && |now| < |past[i]|
  }

  lemma EachFindingIs(h: Hasher, now: seq<Entry>, cap: nat, kept: seq<Keep>, past: seq<seq<Entry>>, i: nat)
    requires Injective(h) && Chained(h, now) && HeadsOf(h, kept, past) && i < |kept|
    ensures Against(Show(now, cap), kept[i]).Differs? <==> Rewrites(now, cap, past, i)
    ensures Against(Show(now, cap), kept[i]).TooShort? <==> Outgrown(now, past, i)
  {
    FindingIs(h, now, cap, kept[i], past[i]);
    if past[i] == [] {
      assert Extends(now, past[i]);
    }
  }

  // The verdict is the first contradiction's.
  lemma FirstDecides(log: Log, kept: seq<Keep>, differs: seq<bool>, short: seq<bool>)
    requires LinksUp(log) && |differs| == |short| == |kept|
    requires forall i :: 0 <= i < |kept| ==>
               (Against(log, kept[i]).Differs? <==> differs[i]) && (Against(log, kept[i]).TooShort? <==> short[i])
    requires forall i, j :: 0 <= i < |kept| && 0 <= j < |kept| && differs[i] && short[j] ==> i < j
    ensures Judge(log, kept).0.Rewritten? <==> true in differs
    ensures Judge(log, kept).0.Shrunk? <==> true !in differs && true in short
  {
    var bad := FirstFinding(log, kept, true);
    if bad.Some? {
      assert Contradicts(Against(log, kept[bad.value]));
      assert differs[bad.value] || short[bad.value];
    }
  }

  /** With heads kept in order of count, an alarm about an honest-looking list is that history
      was rewritten when a head in reach differs, and that it was cut off when none does and
      some head is past the end. */
  lemma WhichAlarm(h: Hasher, now: seq<Entry>, cap: nat, kept: seq<Keep>, past: seq<seq<Entry>>)
    requires Injective(h) && Chained(h, now) && HeadsOf(h, kept, past) && cap >= 1 && Sorted(kept)
    ensures var verdict := Judge(Show(now, cap), kept).0;
            && (verdict.Rewritten? <==> exists i :: Rewrites(now, cap, past, i))
            && (verdict.Shrunk? <==> (forall i :: !Rewrites(now, cap, past, i)) && exists i :: Outgrown(now, past, i))
  {
    var n := |kept|;
    var differs := seq(n, i requires 0 <= i < n => Rewrites(now, cap, past, i));
    var short := seq(n, i requires 0 <= i < n => Outgrown(now, past, i));
    HonestReadingLinksIff(h, now, cap);
    forall i | 0 <= i < n
      ensures Against(Show(now, cap), kept[i]).Differs? <==> differs[i]
      ensures Against(Show(now, cap), kept[i]).TooShort? <==> short[i]
    {
      EachFindingIs(h, now, cap, kept, past, i);
    }
    forall i, j | 0 <= i < n && 0 <= j < n && differs[i] && short[j]
      ensures i < j
    {
      assert kept[i].head.count <= |now| < kept[j].head.count;
    }
    FirstDecides(Show(now, cap), kept, differs, short);
    assert forall i :: Rewrites(now, cap, past, i) ==> 0 <= i < n && differs[i];
    assert forall i :: Outgrown(now, past, i) ==> 0 <= i < n && short[i];
  }
}
