/** Installs and rollbacks cannot go on for ever, for versions the refusal file gives back; and
    do, for the others. */
module SelfUpdateChurn {
  import opened Wrappers
  import opened Text
  import opened Versions
  import opened SelfUpdate
  import opened SelfUpdateRefusals
  import opened SelfUpdateProofs
  import opened SelfUpdateHistory

  /** The versions this fleet ever offers; a binary offered under a version reports it. */
  ghost predicate Offers(releases: set<string>, answer: Answer) {
    answer.Release? ==>
      && answer.version in releases
      && (answer.binary.Some? ==> answer.binary.value.version == answer.version)
  }

  /** The writes this claim rests on: a version given up on is written down, probation is
      cleared when it ends, and nobody clears the list. Everything else may fail: renames,
      removals, downloads, smoke tests, putting a version on probation, counting a start. */
  predicate GivingUpIsRecorded(event: Event) {
    && (event.Restart? ==> event.start.clear && event.start.roll.refuse.Done?)
    && (event.Forgot? ==> !event.ok)
  }

  //////// The measure

  function Without(releases: set<string>, list: seq<string>): set<string> { set v | v in releases && v !in list }

  function Unrefused(releases: set<string>, f: Files): set<string> { Without(releases, Listing(f.refused)) }

  function Ahead(releases: set<string>, f: Files): set<string> {
    if f.exe.None? then {} else set v | v in releases && Newer(f.exe.value.version, v)
  }

  function Times(u: nat, n: nat): nat { if u == 0 then 0 else n + Times(u - 1, n) }

  /** The lexicographic measure (versions not given up on, versions ahead of the installed
      one) as one number. */
  function Potential(releases: set<string>, f: Files): nat {
    Times(|Unrefused(releases, f)|, |releases| + 1) + |Ahead(releases, f)|
  }

  ghost predicate Distinct(list: seq<string>) {
    forall i, j :: 0 <= i < j < |list| ==> list[i] != list[j]
  }

  ghost predicate Listed(releases: set<string>, list: seq<string>) {
    Distinct(list) && forall v :: v in list ==> v in releases
  }

  /** At most ten versions, so none is ever dropped from the list, and no white space around any
      that can be installed, so each is recognised on it; what is on probation has not been
      given up on. */
  ghost predicate Tame(releases: set<string>, f: Files) {
    && |releases| <= MAX_REFUSED && (forall v :: v in releases ==> Trim(v))
    && Listed(releases, Listing(f.refused))
    && var read := ReadMark(f.mark);
       read.Some? ==>
         && read.value.installed in releases && Clean(read.value.installed)
         && read.value.installed !in Listing(f.refused)
  }

  lemma {:induction false} DistinctFits(refused: seq<string>, releases: set<string>)
    requires Distinct(refused) && forall v :: v in refused ==> v in releases
    ensures |refused| <= |releases|
  {
    if refused != [] {
      var last := refused[|refused| - 1];
      var front := refused[..|refused| - 1];
      forall v | v in front
        ensures v in releases - {last}
      {
      }
      DistinctFits(front, releases - {last});
    }
  }

  lemma RefusingIsProgress(releases: set<string>, f: Files, g: Files, version: string)
    requires |releases| <= MAX_REFUSED && Listed(releases, Listing(f.refused))
    requires version in releases && version !in Listing(f.refused)
    requires Listing(g.refused) == Refuse(Listing(f.refused), version)
    ensures Listed(releases, Listing(g.refused))
    ensures |Unrefused(releases, g)| == |Unrefused(releases, f)| - 1
  {
    DistinctFits(Listing(f.refused) + [version], releases);
    assert Unrefused(releases, g) == Unrefused(releases, f) - {version};
  }

  lemma AheadIsBounded(releases: set<string>, f: Files)
    ensures |Ahead(releases, f)| <= |releases|
  {
    SubsetSize(Ahead(releases, f), releases);
  }

  lemma WithoutIsBounded(releases: set<string>, list: seq<string>)
    ensures |Without(releases, list)| <= |releases|
  {
    SubsetSize(Without(releases, list), releases);
  }

  lemma {:induction false} SubsetSize(a: set<string>, b: set<string>)
    requires a <= b
    ensures |a| <= |b|
    ensures a != b ==> |a| < |b|
  {
    assert b == a + (b - a) && a !! (b - a);
  }

  lemma InstallIsProgress(releases: set<string>, f: Files, g: Files, version: string)
    requires f.exe.Some? && g.exe.Some? && g.exe.value.version == version && g.refused == f.refused
    requires version in releases && Newer(f.exe.value.version, version)
    ensures Potential(releases, g) < Potential(releases, f)
  {
    FewerAreAhead(releases, f, g, version);
    FewerAheadIsProgress(releases, f, g);
  }

  lemma FewerAheadIsProgress(releases: set<string>, f: Files, g: Files)
    requires g.refused == f.refused && |Ahead(releases, g)| < |Ahead(releases, f)|
    ensures Potential(releases, g) < Potential(releases, f)
  {
    assert Unrefused(releases, g) == Unrefused(releases, f);
  }

  lemma FewerAreAhead(releases: set<string>, f: Files, g: Files, version: string)
    requires f.exe.Some? && g.exe.Some? && g.exe.value.version == version
    requires version in releases && Newer(f.exe.value.version, version)
    ensures |Ahead(releases, g)| < |Ahead(releases, f)|
  {
    var before, after := Ahead(releases, f), Ahead(releases, g);
    forall v | v in after
      ensures v in before
    {
      NewerIsStrict(f.exe.value.version, version, v);
    }
    NewerIsStrict(version, version, version);
    assert version in before && version !in after;
    SubsetSize(after, before);
  }

  lemma {:induction false} TimesGrows(w: nat, u: nat, n: nat)
    requires w < u
    ensures Times(w, n) + n <= Times(u, n)
    decreases u
  {
    if w < u - 1 {
      TimesGrows(w, u - 1, n);
    }
  }

  lemma RefusalPaysForEverything(releases: set<string>, f: Files, g: Files)
    requires |Unrefused(releases, g)| < |Unrefused(releases, f)|
    ensures Potential(releases, g) < Potential(releases, f)
  {
    AheadIsBounded(releases, g);
    TimesGrows(|Unrefused(releases, g)|, |Unrefused(releases, f)|, |releases| + 1);
  }

  //////// One event

  lemma InstallPays(releases: set<string>, f: Files, g: Files, version: string)
    requires Tame(releases, f) && f.exe.Some? && g.exe.Some? && g.exe.value.version == version
    requires version in releases && Newer(f.exe.value.version, version) && version !in Listing(f.refused)
    requires g.refused == f.refused
    requires ReadMark(g.mark).Some? ==> ReadMark(g.mark).value.installed == version || g.mark == f.mark
    ensures Tame(releases, g) && Potential(releases, g) < Potential(releases, f)
  {
    InstallableIsCleanIff(version);
    InstallIsProgress(releases, f, g, version);
  }

  lemma NoInstallPays(releases: set<string>, f: Files, g: Files)
    requires Tame(releases, f) && g.refused == f.refused && g.mark == f.mark
    requires g.exe == f.exe || g.exe.None?
    ensures Tame(releases, g) && Potential(releases, g) <= Potential(releases, f)
  {
    assert Unrefused(releases, g) == Unrefused(releases, f);
    if g.exe.None? {
      assert Ahead(releases, g) == {};
    } else {
      assert Ahead(releases, g) == Ahead(releases, f);
    }
  }

  lemma InstalledPays(releases: set<string>, l: Log, answer: Answer, luck: ApplyLuck)
    requires Tame(releases, l.files) && l.files.exe.Some? && Offers(releases, answer)
    requires Apply(l, l.files.exe.value.version, answer, luck).1.Installed?
    ensures var after := Apply(l, l.files.exe.value.version, answer, luck).0.files;
            Tame(releases, after) && Potential(releases, after) < Potential(releases, l.files)
  {
    var current := l.files.exe.value.version;
    InstallIs(l, current, answer, luck);
    InstallPays(releases, l.files, Apply(l, current, answer, luck).0.files, answer.version);
  }

  lemma NotInstalledPays(releases: set<string>, l: Log, answer: Answer, luck: ApplyLuck)
    requires Tame(releases, l.files) && l.files.exe.Some?
    requires !Apply(l, l.files.exe.value.version, answer, luck).1.Installed?
    ensures var after := Apply(l, l.files.exe.value.version, answer, luck).0.files;
            Tame(releases, after) && Potential(releases, after) <= Potential(releases, l.files)
  {
    var current := l.files.exe.value.version;
    NoInstallIs(l, current, answer, luck);
    NoInstallPays(releases, l.files, Apply(l, current, answer, luck).0.files);
  }

  lemma CheckPays(releases: set<string>, l: Log, answer: Answer, luck: ApplyLuck)
    requires Tame(releases, l.files) && l.files.exe.Some? && Offers(releases, answer)
    ensures var event := Check(l.files.exe.value.version, answer, luck);
            && Tame(releases, After(l, event).files)
            && Potential(releases, After(l, event).files) + (if Installs(l, event) then 1 else 0)
               <= Potential(releases, l.files)
  {
    if Installs(l, Check(l.files.exe.value.version, answer, luck)) {
      InstalledPays(releases, l, answer, luck);
    } else {
      NotInstalledPays(releases, l, answer, luck);
    }
  }

  /** A start either leaves the list and the installed binary alone, or gives up on the version
      it was watching, and then watches nothing. */
  lemma StartRefusesAtMostOne(l: Log, luck: StartLuck)
    requires l.files.exe.Some? && luck.clear && luck.roll.refuse.Done?
    requires var read := ReadMark(l.files.mark);
             read.Some? ==> Clean(read.value.installed) && read.value.installed !in Listing(l.files.refused)
    ensures var after := StartUp(l, luck).0.files;
            var read := ReadMark(l.files.mark);
            || (after.refused == l.files.refused && after.exe == l.files.exe
                && (ReadMark(after.mark).Some? ==>
                      read.Some? && ReadMark(after.mark).value.installed == read.value.installed))
            || (read.Some? && ReadMark(after.mark).None?
                && Listing(after.refused) == Refuse(Listing(l.files.refused), read.value.installed))
  {
    var read := ReadMark(l.files.mark);
    if read.Some? {
      RollBackRefuses(l, read.value.(starts := read.value.starts + 1), luck.roll);
      CleanRefusalIs(l.files.refused, read.value.installed);
    }
  }

  lemma StartPays(releases: set<string>, l: Log, luck: StartLuck)
    requires Tame(releases, l.files) && l.files.exe.Some? && luck.clear && luck.roll.refuse.Done?
    ensures var after := StartUp(l, luck).0.files;
            Tame(releases, after) && Potential(releases, after) <= Potential(releases, l.files)
  {
    StartRefusesAtMostOne(l, luck);
    StartedPays(releases, l.files, StartUp(l, luck).0.files);
  }

  lemma StartedPays(releases: set<string>, f: Files, g: Files)
    requires Tame(releases, f)
    requires var read := ReadMark(f.mark);
             || (g.refused == f.refused && g.exe == f.exe
                 && (ReadMark(g.mark).Some? ==>
                       read.Some? && ReadMark(g.mark).value.installed == read.value.installed))
             || (read.Some? && ReadMark(g.mark).None?
                 && Listing(g.refused) == Refuse(Listing(f.refused), read.value.installed))
    ensures Tame(releases, g) && Potential(releases, g) <= Potential(releases, f)
  {
    if g.refused == f.refused && g.exe == f.exe {
      assert Unrefused(releases, g) == Unrefused(releases, f);
      assert Ahead(releases, g) == Ahead(releases, f);
    } else {
      RefusingIsProgress(releases, f, g, ReadMark(f.mark).value.installed);
      RefusalPaysForEverything(releases, f, g);
    }
  }

  //////// Every history

  /** Checks are made by the version installed, and starts need something installed to start. */
  ghost predicate Happens(releases: set<string>, l: Log, events: seq<Event>)
    decreases |events|
  {
    events != [] ==>
      && l.files.exe.Some?
      && (events[0].Check? ==>
            events[0].current == l.files.exe.value.version && Offers(releases, events[0].answer))
      && GivingUpIsRecorded(events[0])
      && Happens(releases, After(l, events[0]), events[1..])
  }

  function InstallCount(l: Log, events: seq<Event>): nat
    decreases |events|
  {
    if events == [] then 0
    else (if Installs(l, events[0]) then 1 else 0) + InstallCount(After(l, events[0]), events[1..])
  }

  lemma EventPays(releases: set<string>, l: Log, event: Event)
    requires Tame(releases, l.files) && Happens(releases, l, [event])
    ensures Tame(releases, After(l, event).files)
    ensures Potential(releases, After(l, event).files) + (if Installs(l, event) then 1 else 0)
            <= Potential(releases, l.files)
  {
    match event {
      case Check(_, answer, luck) => CheckPays(releases, l, answer, luck);
      case Restart(start) => StartPays(releases, l, start);
      case _ =>
        var after := After(l, event).files;
        assert Unrefused(releases, after) == Unrefused(releases, l.files);
        assert Ahead(releases, after) == Ahead(releases, l.files);
    }
  }

  lemma {:induction false} InstallsAreBounded(releases: set<string>, l: Log, events: seq<Event>)
    requires Tame(releases, l.files) && Happens(releases, l, events)
    ensures InstallCount(l, events) <= Potential(releases, l.files)
    decreases |events|
  {
    if events != [] {
      EventPays(releases, l, events[0]);
      InstallsAreBounded(releases, After(l, events[0]), events[1..]);
    }
  }

  /** However long the machine lives and whatever the source answers, ten versions without white
      space around them allow at most a hundred and twenty installs, and in general n of them
      allow n * (n + 2). */
  lemma ChurnEnds(releases: set<string>, l: Log, events: seq<Event>)
    requires Tame(releases, l.files) && Happens(releases, l, events)
    ensures InstallCount(l, events) <= Times(|releases|, |releases| + 1) + |releases|
    ensures InstallCount(l, events) <= 120
  {
    InstallsAreBounded(releases, l, events);
    PotentialIsBounded(releases, l.files);
    AtMost120(|releases|);
  }

  lemma PotentialIsBounded(releases: set<string>, f: Files)
    requires |releases| <= MAX_REFUSED
    ensures Potential(releases, f) <= Times(|releases|, |releases| + 1) + |releases|
  {
    AheadIsBounded(releases, f);
    WithoutIsBounded(releases, Listing(f.refused));
    TimesFits(|Unrefused(releases, f)|, |releases| + 1, |releases|, |releases| + 1);
  }

  lemma AtMost120(n: nat)
    requires n <= 10
    ensures Times(n, n + 1) + n <= 120
  {
    TimesFits(n, n + 1, 10, 11);
    TimesIsProduct(10, 11);
  }

  lemma {:induction false} TimesFits(u: nat, n: nat, u': nat, n': nat)
    requires u <= u' && n <= n'
    ensures Times(u, n) <= Times(u', n')
    decreases u'
  {
    if u > 0 {
      TimesFits(u - 1, n, u' - 1, n');
    }
  }

  lemma {:induction false} TimesIsProduct(u: nat, n: nat)
    ensures Times(u, n) == u * n
  {
    if u > 0 {
      TimesIsProduct(u - 1, n);
      assert u * n == (u - 1) * n + n;
    }
  }

  //////// Where it does not end

  const GOOD_SWAP := SwapLuck(true, true, true, true)
  const GOOD_APPLY := ApplyLuck(true, GOOD_SWAP, Done, true)
  const GOOD_START := StartLuck(true, Done, RollLuck(Done, true, true, true, true, true), true)

  const FOUR_STARTS := [Restart(GOOD_START), Restart(GOOD_START), Restart(GOOD_START), Restart(GOOD_START)]

  /** A process of one version finds another, everything working. */
  function Offered(current: Binary, b: Binary): Event {
    Check(current.version, Release(b.version, Some(b)), GOOD_APPLY)
  }

  /** A version that never settles: installed, started three times, gone back from. */
  function Round(current: Binary, b: Binary): seq<Event> { [Offered(current, b)] + FOUR_STARTS }

  function Repeated(round: seq<Event>, n: nat): seq<Event> {
    if n == 0 then [] else round + Repeated(round, n - 1)
  }

  function Rounds(current: Binary, b: Binary, n: nat): seq<Event> { Repeated(Round(current, b), n) }

  // A machine on a working version, with nothing on probation.
  ghost predicate Quiet(l: Log, current: Binary) {
    l.files.exe == Some(current) && SmokeTest(current, current.version) && ReadMark(l.files.mark).None?
  }

  // And with this version not on its list.
  ghost predicate Ready(l: Log, current: Binary, b: Binary) {
    Quiet(l, current) && b.version !in Listing(l.files.refused)
  }

  // An update that installs.
  predicate Upgrades(current: Binary, b: Binary) {
    Newer(current.version, b.version) && SmokeTest(b, b.version)
  }

  lemma OneInstall(l: Log, current: Binary, b: Binary)
    requires Ready(l, current, b) && Upgrades(current, b)
    ensures var event := Offered(current, b);
            && Installs(l, event)
            && var after := After(l, event).files;
               && after.exe == Some(b) && after.old_ == Some(current) && after.refused == l.files.refused
               && after.mark == Holds(Probation(b.version, current.version, 0)) && b.version != ""
  {
    InstallEnds(l, current.version, b.version, b, GOOD_APPLY);
  }

  // The same files but for the count.
  lemma OneMoreStart(l: Log, p: Probation)
    requires l.files.mark == Holds(p) && p.installed != "" && p.starts < PROBATION_STARTS
    ensures After(l, Restart(GOOD_START)).files == l.files.(mark := Holds(p.(starts := p.starts + 1)))
    ensures !Installs(l, Restart(GOOD_START))
  {
  }

  lemma GoneBack(l: Log, p: Probation)
    requires l.files.mark == Holds(p) && p.installed != "" && p.starts == PROBATION_STARTS && l.files.exe.Some?
    requires l.files.old_.Some? && SmokeTest(l.files.old_.value, p.previous)
    ensures var after := After(l, Restart(GOOD_START)).files;
            && after.exe == l.files.old_ && ReadMark(after.mark).None?
            && after.refused == Refused(l, p.installed, Done).files.refused
    ensures !Installs(l, Restart(GOOD_START))
  {
  }

  function Play(l: Log, events: seq<Event>): Log
    decreases |events|
  {
    if events == [] then l else Play(After(l, events[0]), events[1..])
  }

  lemma {:induction false} PlayTwo(releases: set<string>, l: Log, a: seq<Event>, b: seq<Event>)
    requires Happens(releases, l, a) && Happens(releases, Play(l, a), b)
    ensures Happens(releases, l, a + b)
    ensures InstallCount(l, a + b) == InstallCount(l, a) + InstallCount(Play(l, a), b)
    ensures Play(l, a + b) == Play(Play(l, a), b)
    decreases |a|
  {
    if a == [] {
      assert a + b == b;
    } else {
      assert (a + b)[0] == a[0] && (a + b)[1..] == a[1..] + b;
      PlayTwo(releases, After(l, a[0]), a[1..], b);
    }
  }

  lemma PlayOne(releases: set<string>, l: Log, event: Event)
    requires l.files.exe.Some? && GivingUpIsRecorded(event)
    requires event.Check? ==> event.current == l.files.exe.value.version && Offers(releases, event.answer)
    ensures Happens(releases, l, [event]) && Play(l, [event]) == After(l, event)
    ensures InstallCount(l, [event]) == if Installs(l, event) then 1 else 0
  {
    assert [event][1..] == [];
  }

  lemma FourStartsPlay(releases: set<string>, l1: Log, p: Probation) returns (l5: Log)
    requires l1.files.mark == Holds(p) && p.installed != "" && p.starts == 0 && l1.files.exe.Some?
    requires l1.files.old_.Some? && SmokeTest(l1.files.old_.value, p.previous)
    ensures Happens(releases, l1, FOUR_STARTS) && InstallCount(l1, FOUR_STARTS) == 0 && Play(l1, FOUR_STARTS) == l5
    ensures l5.files.exe == l1.files.old_ && ReadMark(l5.files.mark).None?
    ensures l5.files.refused == if p.installed in Listing(l1.files.refused) then l1.files.refused
                                else RefusedText(l1.files.refused, p.installed)
  {
    var start := Restart(GOOD_START);
    var l2, l3, l4;
    l2, l3, l4, l5 := FourStarts(l1, p);
    PlayOne(releases, l1, start);
    PlayOne(releases, l2, start);
    PlayOne(releases, l3, start);
    PlayOne(releases, l4, start);
    PlayTwo(releases, l1, [start], [start]);
    PlayTwo(releases, l3, [start], [start]);
    PlayTwo(releases, l1, [start] + [start], [start] + [start]);
    assert FOUR_STARTS == ([start] + [start]) + ([start] + [start]);
  }

  /** One round installs once, and leaves the machine as it was but for the list. */
  lemma RoundPlays(releases: set<string>, l: Log, current: Binary, b: Binary)
    requires Ready(l, current, b) && Upgrades(current, b) && b.version in releases
    ensures var round := Round(current, b);
            && Happens(releases, l, round) && InstallCount(l, round) == 1
            && Quiet(Play(l, round), current)
            && Play(l, round).files.refused == RefusedText(l.files.refused, b.version)
  {
    var check := Offered(current, b);
    OneInstall(l, current, b);
    PlayOne(releases, l, check);
    var l5 := FourStartsPlay(releases, After(l, check), Probation(b.version, current.version, 0));
    PlayTwo(releases, l, [check], FOUR_STARTS);
  }

  // One install, and the machine is where it was.
  ghost predicate Cycles(l: Log, current: Binary, b: Binary, round: seq<Event>) {
    && Happens({b.version}, l, round) && InstallCount(l, round) == 1
    && Ready(Play(l, round), current, b)
  }

  lemma {:induction false} CyclesGoOn(l: Log, current: Binary, b: Binary, round: seq<Event>, n: nat)
    requires Ready(l, current, b)
    requires forall m {:trigger Cycles(m, current, b, round)} :: Ready(m, current, b) ==> Cycles(m, current, b, round)
    ensures Happens({b.version}, l, Repeated(round, n)) && InstallCount(l, Repeated(round, n)) == n
    decreases n
  {
    if n > 0 {
      assert Cycles(l, current, b, round);
      CyclesGoOn(Play(l, round), current, b, round, n - 1);
      OneRoundMore(l, b, round, n - 1);
    }
  }

  lemma OneRoundMore(l: Log, b: Binary, round: seq<Event>, n: nat)
    requires Happens({b.version}, l, round) && InstallCount(l, round) == 1
    requires var after := Play(l, round);
             Happens({b.version}, after, Repeated(round, n)) && InstallCount(after, Repeated(round, n)) == n
    ensures Happens({b.version}, l, Repeated(round, n + 1)) && InstallCount(l, Repeated(round, n + 1)) == n + 1
  {
    PlayTwo({b.version}, l, round, Repeated(round, n));
  }

  lemma UncleanRoundCycles(l: Log, current: Binary, b: Binary)
    requires Ready(l, current, b) && Upgrades(current, b) && !Clean(b.version)
    ensures Cycles(l, current, b, Round(current, b))
  {
    RoundPlays({b.version}, l, current, b);
    RecognisedIff(l.files.refused, b.version);
  }

  /** A version the list does not give back is installed as often as there are rounds: for any
      number n there is a history with n installs of that one version, every write working. */
  lemma UncleanVersionChurnsForEver(l: Log, current: Binary, b: Binary, n: nat)
    requires Ready(l, current, b) && Upgrades(current, b) && !Clean(b.version)
    ensures Happens({b.version}, l, Rounds(current, b, n))
    ensures InstallCount(l, Rounds(current, b, n)) == n
  {
    forall m | Ready(m, current, b)
      ensures Cycles(m, current, b, Round(current, b))
    {
      UncleanRoundCycles(m, current, b);
    }
    CyclesGoOn(l, current, b, Round(current, b), n);
  }

  lemma FourStarts(l1: Log, p: Probation) returns (l2: Log, l3: Log, l4: Log, l5: Log)
    requires l1.files.mark == Holds(p) && p.installed != "" && p.starts == 0 && l1.files.exe.Some?
    requires l1.files.old_.Some? && SmokeTest(l1.files.old_.value, p.previous)
    ensures l2 == After(l1, Restart(GOOD_START)) && l3 == After(l2, Restart(GOOD_START))
    ensures l4 == After(l3, Restart(GOOD_START)) && l5 == After(l4, Restart(GOOD_START))
    ensures l2.files.exe.Some? && l3.files.exe.Some? && l4.files.exe.Some?
    ensures l4.files.refused == l1.files.refused && l5.files.exe == l1.files.old_
    ensures ReadMark(l5.files.mark).None? && l5.files.refused == Refused(l4, p.installed, Done).files.refused
  {
    l2 := After(l1, Restart(GOOD_START));
    OneMoreStart(l1, p);
    l3 := After(l2, Restart(GOOD_START));
    OneMoreStart(l2, p.(starts := 1));
    l4 := After(l3, Restart(GOOD_START));
    OneMoreStart(l3, p.(starts := 2));
    l5 := After(l4, Restart(GOOD_START));
    GoneBack(l4, p.(starts := 3));
  }

  lemma SpacedTagIsNewer()
    ensures Newer(Tag(1, 3, 0), SPACED_TAG) && !Clean(SPACED_TAG)
  {
    SpacedTagReadsBack();
    TagRoundTrip(1, 3, 0);
  }

  // A machine with nothing beside its binary.
  lemma FreshMachineIsReady(l: Log, current: Binary, b: Binary)
    requires l.files == Files(Some(current), None, None, None, NoFile, "") && SmokeTest(current, current.version)
    ensures Ready(l, current, b)
  {
    NothingListed();
  }

  /** There is such a version: a tag with a no-break space after it. */
  lemma SpacedTagChurnsForEver(l: Log, current: Binary, b: Binary, n: nat)
    requires l.files == Files(Some(current), None, None, None, NoFile, "")
    requires current.version == Tag(1, 3, 0) && SmokeTest(current, current.version)
    requires b.version == SPACED_TAG && SmokeTest(b, b.version)
    ensures Happens({b.version}, l, Rounds(current, b, n))
    ensures InstallCount(l, Rounds(current, b, n)) == n
  {
    SpacedTagIsNewer();
    FreshMachineIsReady(l, current, b);
    UncleanVersionChurnsForEver(l, current, b, n);
  }

  //////// More versions than the list holds

  lemma {:induction false} SomeVersionIsNotListed(bs: seq<Binary>, list: seq<string>) returns (i: nat)
    requires |bs| > |list|
    requires forall i, j :: 0 <= i < j < |bs| ==> bs[i].version != bs[j].version
    ensures i < |bs| && bs[i].version !in list
  {
    i := 0;
    if list != [] {
      var last, front := list[|list| - 1], list[..|list| - 1];
      i := SomeVersionIsNotListed(bs[..|bs| - 1], front);
      if bs[i].version == last {
        // The one other candidate: repeat without the version that is listed last.
        var others := bs[..i] + bs[i + 1..];
        var k := SomeVersionIsNotListed(others, front);
        i := if k < i then k else k + 1;
      }
    }
  }

  /** Eleven versions, each clean and each newer than the one that works, keep a machine busy
      for ever although every write works: giving up on the eleventh drops the oldest refusal,
      and that version is installed again. */
  lemma {:induction false} ElevenVersionsChurnForEver(
    releases: set<string>, l: Log, current: Binary, bs: seq<Binary>, n: nat) returns (events: seq<Event>)
    requires |bs| > MAX_REFUSED && |Listing(l.files.refused)| <= MAX_REFUSED && Quiet(l, current)
    requires forall i, j :: 0 <= i < j < |bs| ==> bs[i].version != bs[j].version
    requires forall b :: b in bs ==> Upgrades(current, b) && Clean(b.version) && b.version in releases
    ensures Happens(releases, l, events) && InstallCount(l, events) == n
    decreases n
  {
    events := [];
    if n > 0 {
      var i := SomeVersionIsNotListed(bs, Listing(l.files.refused));
      var b := bs[i];
      var round := Round(current, b);
      var l' := RoundOfClean(releases, l, current, b);
      var rest := ElevenVersionsChurnForEver(releases, l', current, bs, n - 1);
      PlayTwo(releases, l, round, rest);
      events := round + rest;
    }
  }

  lemma RoundOfClean(releases: set<string>, l: Log, current: Binary, b: Binary) returns (l': Log)
    requires Ready(l, current, b) && Upgrades(current, b) && b.version in releases && Clean(b.version)
    requires |Listing(l.files.refused)| <= MAX_REFUSED
    ensures Happens(releases, l, Round(current, b)) && InstallCount(l, Round(current, b)) == 1
    ensures l' == Play(l, Round(current, b)) && Quiet(l', current)
    ensures Listing(l'.files.refused) == Refuse(Listing(l.files.refused), b.version)
    ensures |Listing(l'.files.refused)| <= MAX_REFUSED
  {
    RoundPlays(releases, l, current, b);
    l' := Play(l, Round(current, b));
    CleanRefusalIs(l.files.refused, b.version);
    RefuseAdds(Listing(l.files.refused), b.version);
  }

  lemma OldestIsDropped(list: seq<string>, version: string)
    requires |list| == MAX_REFUSED && Distinct(list) && version !in list
    ensures list[0] !in Refuse(list, version)
  {
    var oldest, next := list[0], Refuse(list, version);
    assert next == list[1..] + [version];
    forall i | 0 <= i < |next|
      ensures next[i] != oldest
    {
      assert next[i] == if i + 1 < |list| then list[i + 1] else version;
    }
  }

  /** The first step of that: with the list full, a new refusal drops the oldest, and the very
      next check installs it. */
  lemma OldestRefusalComesBack(releases: set<string>, l: Log, current: Binary, b: Binary, oldest: Binary)
    requires Ready(l, current, b) && Upgrades(current, b) && b.version in releases && Clean(b.version)
    requires |Listing(l.files.refused)| == MAX_REFUSED && Listing(l.files.refused)[0] == oldest.version
    requires Distinct(Listing(l.files.refused)) && Upgrades(current, oldest)
    ensures var after := Play(l, Round(current, b));
            !Installs(l, Offered(current, oldest)) && Installs(after, Offered(current, oldest))
  {
    ListedIsNotInstalled(l, current.version, oldest, GOOD_APPLY);
    OldestIsDropped(Listing(l.files.refused), b.version);
    var after := RoundOfClean(releases, l, current, b);
    OneInstall(after, current, oldest);
  }

  //////// A refusal whose write is cut off

  /** The fourth start gives up on its version while the disk is full: the list is emptied, and
      every version given up on long before is installed again. */
  lemma TornRefusalForgetsTheOthers(l: Log, start: StartLuck, b: Binary)
    requires l.files.exe.Some? && StartUp(l, start).1.RolledBack? && start.roll.refuse == Torn("")
    requires StartUp(l, start).1.failed !in Listing(l.files.refused)
    requires b.version in Listing(l.files.refused) && start.clear
    requires l.files.old_.Some? && l.files.old_.value.version == StartUp(l, start).1.version
    requires Upgrades(l.files.old_.value, b)
    ensures var check := Offered(l.files.old_.value, b);
            !Installs(l, check) && Installs(After(l, Restart(start)), check)
  {
    ListedIsNotInstalled(l, l.files.old_.value.version, b, GOOD_APPLY);
    TornRefusalEmptiesTheList(l, start);
    OneInstall(After(l, Restart(start)), l.files.old_.value, b);
  }

  lemma TornRefusalEmptiesTheList(l: Log, start: StartLuck)
    requires l.files.exe.Some? && StartUp(l, start).1.RolledBack? && start.roll.refuse == Torn("")
    requires StartUp(l, start).1.failed !in Listing(l.files.refused) && start.clear
    ensures var after := After(l, Restart(start)).files;
            && Listing(after.refused) == [] && after.mark == NoFile && after.exe == l.files.old_
            && SmokeTest(l.files.old_.value, StartUp(l, start).1.version)
  {
    var p := ReadMark(l.files.mark).value;
    RollBackRefuses(l, p.(starts := p.starts + 1), start.roll);
    LastStartDecides(l, start);
    NothingListed();
  }

  /** A crash while the refusal is written loses them too, even if the write would have worked:
      the list is empty, and the rest is as it was, so the next start only refuses anew the
      version it was about to. */
  lemma CrashWhileRefusingForgetsTheOthers(l: Log, start: StartLuck)
    requires ReadMark(l.files.mark).Some? && ReadMark(l.files.mark).value.starts >= PROBATION_STARTS
    requires ReadMark(l.files.mark).value.installed !in Listing(l.files.refused)
    requires l.files.old_.Some? && SmokeTest(l.files.old_.value, ReadMark(l.files.mark).value.previous)
    requires !start.roll.refuse.NotBegun?
    ensures var trace := StartUp(l, start).0.trace;
            && |l.trace| < |trace| && trace[|l.trace|] == l.files.(refused := "")
            && Listing(trace[|l.trace|].refused) == []
  {
    NothingListed();
  }

  /** Without the restart the claim is false: a process that has installed an update and goes
      on checking installs the same release again each time, and the files end up the same. */
  lemma CheckingWithoutRestartGoesOn(l: Log, current: string, answer: Answer, luck: ApplyLuck)
    requires answer.Release? && l.files.exe.Some? && Apply(l, current, answer, luck).1.Installed?
    requires luck.swap.remove && luck.begin.Done? && luck.sweep
    ensures var once := Apply(l, current, answer, luck).0;
            var (twice, again) := Apply(once, current, answer, luck);
            var (thrice, still) := Apply(twice, current, answer, luck);
            again.Installed? && still.Installed? && thrice.files == twice.files
  {
    var once := Apply(l, current, answer, luck).0;
    InstallIs(l, current, answer, luck);
    SameLuckInstalls(l, once, current, answer, luck);
    var twice := Apply(once, current, answer, luck).0;
    InstallIs(once, current, answer, luck);
    SameLuckInstalls(once, twice, current, answer, luck);
    InstallIs(twice, current, answer, luck);
  }

  lemma SameLuckInstalls(l: Log, l': Log, current: string, answer: Answer, luck: ApplyLuck)
    requires answer.Release? && l.files.exe.Some? && Apply(l, current, answer, luck).1.Installed?
    requires l'.files.exe.Some? && answer.version !in Listing(l'.files.refused)
    ensures Apply(l', current, answer, luck).1.Installed?
    ensures luck.sweep ==> Apply(l', current, answer, luck).0.files.new_.None?
  {
    InstallIs(l, current, answer, luck);
    TryingIsInstalling(l', current, answer, luck);
    InstallEnds(l', current, answer.version, answer.binary.value, luck);
    SweepEmptiesNew(l', current, answer.version, answer.binary.value, luck);
  }

  lemma SweepEmptiesNew(l: Log, current: string, version: string, binary: Binary, luck: ApplyLuck)
    ensures luck.sweep ==> Install(l, current, version, binary, luck).0.files.new_.None?
  {
  }
}
