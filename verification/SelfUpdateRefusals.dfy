/** The versions a machine has given up on, through the file they are kept in: which of them
    the file gives back, and for how long. */
module SelfUpdateRefusals {
  import opened Wrappers
  import opened Text
  import opened Versions
  import opened SelfUpdate

  //////// What the file gives back

  /** A line of its own that nothing is trimmed off. */
  predicate Clean(v: string) { v != "" && TrimSpace(v) == v && NEWLINE !in v }

  ghost predicate AllClean(list: seq<string>) { forall v :: v in list ==> Clean(v) }

  lemma {:induction false} EntriesOfTwo(a: seq<string>, b: seq<string>)
    ensures Entries(a + b) == Entries(a) + Entries(b)
  {
    if a == [] {
      assert a + b == b;
    } else {
      assert (a + b)[1..] == a[1..] + b;
      EntriesOfTwo(a[1..], b);
    }
  }

  lemma ListingOfTwo(a: string, b: string)
    ensures Listing(a + [NEWLINE] + b) == Listing(a) + Listing(b)
  {
    SplitOfTwo(a, NEWLINE, b);
    EntriesOfTwo(Split(a, NEWLINE), Split(b, NEWLINE));
  }

  lemma TrimmedIsTrimmed(s: string)
    ensures TrimSpace(TrimSpace(s)) == TrimSpace(s)
    ensures forall c :: c in TrimSpace(s) ==> c in s
  {
    var left := TrimLeft(s);
    var pad := TrimLeftDropsSpace(s);
    var tail := TrimRightDropsSpace(left);
    var t := TrimRight(left);
    assert t != "" ==> t[0] == left[0];
  }

  lemma {:induction false} EntriesAreClean(lines: seq<string>)
    requires forall line :: line in lines ==> NEWLINE !in line
    ensures AllClean(Entries(lines))
  {
    if lines != [] {
      assert lines[0] in lines;
      TrimmedIsTrimmed(lines[0]);
      EntriesAreClean(lines[1..]);
    }
  }

  /** Everything the reader lists is clean, whatever the file holds. */
  lemma ListingIsClean(text: string)
    ensures AllClean(Listing(text))
  {
    EntriesAreClean(Split(text, NEWLINE));
  }

  lemma CleanListsItself(v: string)
    requires Clean(v)
    ensures Listing(v) == [v]
  {
    SplitOfPlain(v, NEWLINE);
    assert Entries([v][1..]) == [];
  }

  lemma NothingListed()
    ensures Listing("") == []
  {
    assert Split("", NEWLINE) == [""] && Entries([""][1..]) == [];
  }

  lemma JoinOfFirst(first: string, rest: seq<string>, last: string)
    ensures Join([first] + rest + [last], NEWLINE) == first + [NEWLINE] + Join(rest + [last], NEWLINE)
  {
    assert ([first] + rest + [last])[1..] == rest + [last];
  }

  lemma CleanLineFirst(first: string, text: string)
    requires Clean(first)
    ensures Listing(first + [NEWLINE] + text) == [first] + Listing(text)
  {
    ListingOfTwo(first, text);
    CleanListsItself(first);
  }

  lemma {:induction false} CleanListComesBack(list: seq<string>, last: string)
    requires AllClean(list)
    ensures Listing(Join(list + [last], NEWLINE)) == list + Listing(last)
  {
    if list == [] {
      assert list + [last] == [last];
    } else {
      var first, rest, tail := list[0], list[1..], Listing(last);
      assert first in list && list == [first] + rest;
      CleanListComesBack(rest, last);
      JoinOfFirst(first, rest, last);
      CleanLineFirst(first, Join(rest + [last], NEWLINE));
      assert [first] + (rest + tail) == list + tail;
    }
  }

  /** What is read after giving up on a new version: the newest nine at most of what was there,
      and whatever that version comes back as. */
  lemma ListingAfterRefusal(text: string, version: string)
    requires version !in Listing(text)
    ensures var list := Refuse(Listing(text), version);
            Listing(RefusedText(text, version)) == list[..|list| - 1] + Listing(version)
  {
    var list := Refuse(Listing(text), version);
    var front := list[..|list| - 1];
    ListingIsClean(text);
    assert AllClean(front) by {
      forall v | v in front
        ensures v in Listing(text)
      {
      }
    }
    assert list == front + [version];
    CleanListComesBack(front, version);
    ListingOfTwo(Join(list, NEWLINE), "");
    assert Join(list, NEWLINE) + [NEWLINE] + "" == Written(list);
    NothingListed();
  }

  /** A version once given up on is recognised from then on exactly when it is clean. */
  lemma RecognisedIff(text: string, version: string)
    requires version !in Listing(text)
    ensures version in Listing(RefusedText(text, version)) <==> Clean(version)
  {
    ListingAfterRefusal(text, version);
    ListingIsClean(RefusedText(text, version));
    if Clean(version) {
      CleanListsItself(version);
    }
  }

  lemma CleanRefusalIs(text: string, version: string)
    requires Clean(version)
    ensures Listing(RefusedText(text, version)) == Refuse(Listing(text), version)
  {
    if version !in Listing(text) {
      ListingAfterRefusal(text, version);
      CleanListsItself(version);
    }
  }

  //////// Which versions those are

  lemma NumberHasNoNewline(part: string)
    requires Part(part).Some?
    ensures NEWLINE !in part
  {
    var signed := part[0] == '-' || part[0] == '+';
    var digits := if signed then part[1..] else part;
    assert AllDigits(digits) && part == if signed then [part[0]] + digits else digits;
  }

  /** Of the versions an update can be installed under, those the file gives back are the ones
      with no white space around them. */
  lemma InstallableIsCleanIff(v: string)
    requires Parsed(v).Some?
    ensures Clean(v) <==> TrimSpace(v) == v
  {
    if TrimSpace(v) == v {
      ParsedHasNoNewline(v);
    }
  }

  lemma ParsedHasNoNewline(v: string)
    requires Parsed(v).Some? && TrimSpace(v) == v
    ensures v != "" && NEWLINE !in v
  {
    NumbersHaveNoNewline(Split(TrimV(v), '.'));
    assert v == TrimV(v) || v == ['v'] + TrimV(v);
  }

  lemma NumbersHaveNoNewline(parts: seq<string>)
    requires |parts| == 3 && Numbers(parts).Some?
    ensures NEWLINE !in Join(parts, '.')
  {
    NumberHasNoNewline(parts[0]);
    NumberHasNoNewline(parts[1]);
    NumberHasNoNewline(parts[2]);
    assert parts == [parts[0], parts[1], parts[2]];
    JoinOfThree(parts[0], parts[1], parts[2]);
  }

  lemma PaddingParses(v: string, pad: string)
    requires AllSpace(pad)
    ensures TrimSpace(v + pad) == TrimSpace(v) && Parsed(v + pad) == Parsed(v)
  {
    var left := TrimLeftDropsSpace(v);
    assert v + pad == left + (TrimLeft(v) + pad);
    TrimLeftSkipsPad(left, TrimLeft(v) + pad);
    if TrimLeft(v) == "" {
      TrimLeftSkipsPad(pad, "");
      assert TrimLeft(v) + pad == pad + "";
    } else {
      assert TrimLeft(TrimLeft(v) + pad) == TrimLeft(v) + pad;
      TrimRightSkipsPad(TrimLeft(v), pad);
    }
  }

  // A tag a repository may carry: v1.4.0 and a no-break space.
  const SPACED_TAG := Tag(1, 4, 0) + "\U{00A0}"

  lemma SpacedTagReadsBack()
    ensures Parsed(SPACED_TAG) == Some((1, 4, 0)) && !Clean(SPACED_TAG)
    ensures Listing(SPACED_TAG) == [Tag(1, 4, 0)]
  {
    TagRoundTrip(1, 4, 0);
    TagIsClean(1, 4, 0);
    PaddingParses(Tag(1, 4, 0), "\U{00A0}");
    SplitOfPlain(SPACED_TAG, NEWLINE);
    assert Entries([SPACED_TAG][1..]) == [];
  }

  /** It parses, so it can be installed, and once given up on it is not recognised: giving up
      again adds it again, as the version it is not. */
  lemma SpacedTagWitness(text: string)
    ensures Parsed(SPACED_TAG) == Some((1, 4, 0)) && TrimSpace(SPACED_TAG) != SPACED_TAG
    ensures SPACED_TAG !in Listing(RefusedText(text, SPACED_TAG))
    ensures Listing(RefusedText(RefusedText("", SPACED_TAG), SPACED_TAG)) == [Tag(1, 4, 0), Tag(1, 4, 0)]
  {
    SpacedTagReadsBack();
    InstallableIsCleanIff(SPACED_TAG);
    ListingIsClean(RefusedText(text, SPACED_TAG));
    RefusedTwice(SPACED_TAG, Tag(1, 4, 0));
  }

  lemma RefusedTwice(version: string, plain: string)
    requires !Clean(version) && Listing(version) == [plain]
    ensures Listing(RefusedText(RefusedText("", version), version)) == [plain, plain]
  {
    NothingListed();
    var once := RefusedText("", version);
    ListingAfterRefusal("", version);
    ListingIsClean(once);
    ListingAfterRefusal(once, version);
  }

  lemma TagIsClean(major: nat, minor: nat, patch: nat)
    requires major <= MAX_INT && minor <= MAX_INT && patch <= MAX_INT
    ensures Clean(Tag(major, minor, patch))
  {
    TagRoundTrip(major, minor, patch);
    var tag := Tag(major, minor, patch);
    assert !IsSpace(tag[0]) && IsDigit(tag[|tag| - 1]);
    assert TrimSpace(tag) == tag;
    InstallableIsCleanIff(tag);
  }

  //////// For how long

  lemma RefuseAdds(refused: seq<string>, version: string)
    ensures version in Refuse(refused, version)
    ensures version !in refused ==> Refuse(refused, version)[|Refuse(refused, version)| - 1] == version
    ensures |refused| <= MAX_REFUSED ==> |Refuse(refused, version)| <= MAX_REFUSED
  {
  }

  function RefuseAll(refused: seq<string>, versions: seq<string>): seq<string>
    decreases |versions|
  {
    if versions == [] then refused
    else RefuseAll(Refuse(refused, versions[0]), versions[1..])
  }

  /** A version `depth` places from the newest end of the list survives exactly as many new
      refusals as there are places left behind it. */
  lemma {:induction false} RefusalLasts(refused: seq<string>, k: nat, versions: seq<string>)
    requires k < |refused| <= MAX_REFUSED
    requires |refused| - k + |versions| <= MAX_REFUSED
    ensures refused[k] in RefuseAll(refused, versions)
    decreases |versions|
  {
    if versions != [] {
      var next := Refuse(refused, versions[0]);
      var k' := if versions[0] in refused then k else k - (|refused| + 1 - |next|);
      assert next[k'] == refused[k];
      RefusalLasts(next, k', versions[1..]);
    }
  }

  function Newest(all: seq<string>): seq<string> {
    if |all| > MAX_REFUSED then all[|all| - MAX_REFUSED..] else all
  }

  lemma NewestOfNewest(all: seq<string>, more: seq<string>)
    ensures Newest(Newest(all) + more) == Newest(all + more)
  {
  }

  lemma NewestOneByOne(all: seq<string>, more: seq<string>)
    requires more != []
    ensures Newest(Newest(all + [more[0]]) + more[1..]) == Newest(all + more)
  {
    NewestOfNewest(all + [more[0]], more[1..]);
    assert all + more == (all + [more[0]]) + more[1..];
  }

  lemma RefuseNew(refused: seq<string>, version: string)
    requires |refused| <= MAX_REFUSED && version !in refused
    ensures Refuse(refused, version) == Newest(refused + [version])
    ensures |Refuse(refused, version)| <= MAX_REFUSED
    ensures forall v :: v in Refuse(refused, version) ==> v in refused || v == version
  {
  }

  // New to the list, and each other's own.
  ghost predicate AllNew(refused: seq<string>, versions: seq<string>) {
    && (forall i :: 0 <= i < |versions| ==> versions[i] !in refused)
    && (forall i, j :: 0 <= i < j < |versions| ==> versions[i] != versions[j])
  }

  lemma RestIsNew(refused: seq<string>, versions: seq<string>)
    requires |refused| <= MAX_REFUSED && versions != [] && AllNew(refused, versions)
    ensures AllNew(Refuse(refused, versions[0]), versions[1..])
  {
    RefuseNew(refused, versions[0]);
    forall i | 0 <= i < |versions[1..]|
      ensures versions[1..][i] !in Refuse(refused, versions[0])
    {
      assert versions[i + 1] !in refused && versions[0] != versions[i + 1];
    }
  }

  lemma {:induction false} RefuseAllNew(refused: seq<string>, versions: seq<string>)
    requires |refused| <= MAX_REFUSED && AllNew(refused, versions)
    ensures RefuseAll(refused, versions) == Newest(refused + versions)
    decreases |versions|
  {
    if versions == [] {
      assert refused + versions == refused;
    } else {
      RefuseNew(refused, versions[0]);
      RestIsNew(refused, versions);
      RefuseAllNew(Refuse(refused, versions[0]), versions[1..]);
      NewestOneByOne(refused, versions);
    }
  }

  function RefuseAllText(text: string, versions: seq<string>): string
    decreases |versions|
  {
    if versions == [] then text else RefuseAllText(RefusedText(text, versions[0]), versions[1..])
  }

  lemma {:induction false} RefuseAllTextIs(text: string, versions: seq<string>)
    requires AllClean(versions)
    ensures Listing(RefuseAllText(text, versions)) == RefuseAll(Listing(text), versions)
    decreases |versions|
  {
    if versions != [] {
      assert versions[0] in versions;
      CleanRefusalIs(text, versions[0]);
      RefuseAllTextIs(RefusedText(text, versions[0]), versions[1..]);
    }
  }

  /** Through the file: a clean version given up on is recognised through nine other refusals
      and forgotten at the tenth. */
  lemma GivenUpOnUntilTenOthers(text: string, version: string, others: seq<string>)
    requires |Listing(text)| <= 10 && version !in Listing(text)
    requires Clean(version) && AllClean(others)
    requires AllNew(Listing(text) + [version], others)
    ensures version in Listing(RefuseAllText(RefusedText(text, version), others)) <==> |others| < 10
  {
    var before := Listing(text);
    var refused := Refuse(before, version);
    CleanRefusalIs(text, version);
    RefuseAllTextIs(RefusedText(text, version), others);
    RefuseAdds(before, version);
    if |others| < MAX_REFUSED {
      RefusalLasts(refused, |refused| - 1, others);
    } else {
      RefuseNew(before, version);
      RefuseAllNew(refused, others);
      TenOthersPushOut(refused, others);
    }
  }

  lemma TenOthersPushOut(refused: seq<string>, others: seq<string>)
    requires |others| >= MAX_REFUSED
    ensures forall v :: v in Newest(refused + others) ==> v in others
  {
  }
}
