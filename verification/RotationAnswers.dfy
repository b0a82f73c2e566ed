/** What each request is answered and what it changes, told from the states of the rows alone, and
    what a bucket being filled is told over every sequence of requests until it is retired. */
module RotationAnswers {
  import opened Wrappers
  import opened Text
  import opened Rotation
  import opened RotationRows

  //////// Good rows, seen from outside

  /** Row `a` is the active one. */
  ghost predicate ActiveIs(s: State, a: nat) { RowInv(s.rows) && a < |s.rows| && s.rows[a].state.Active? }

  /** No bucket is being filled. */
  ghost predicate Steady(rows: seq<Row>) { forall k :: 0 <= k < |rows| ==> !rows[k].state.CuttingOver? }

  /** Row `k` is the one being filled. */
  ghost predicate FillingIs(s: State, k: nat) { RowInv(s.rows) && k < |s.rows| && s.rows[k].state.CuttingOver? }

  /** Row `o` is the newest of those offered. */
  ghost predicate NewestOfferIs(rows: seq<Row>, o: nat) {
    && o < |rows| && rows[o].state.Offered?
    && forall k :: o < k < |rows| ==> !rows[k].state.Offered?
  }

  ghost predicate NothingOnOffer(rows: seq<Row>) { forall k :: 0 <= k < |rows| ==> !rows[k].state.Offered? }

  lemma SteadyIsActive(s: State, a: nat)
    requires ActiveIs(s, a) && Steady(s.rows)
    ensures Current(s.rows) == Some(a)
  {
    GoodRowsSelect(s.rows, a);
  }

  lemma FillingLeavesActive(s: State, k: nat, a: nat)
    requires FillingIs(s, k) && ActiveIs(s, a)
    ensures Current(s.rows) == Some(k) && PreviousTo(s.rows, k) == Some(a)
  {
    GoodRowsSelect(s.rows, a);
    FillingIsCurrent(s, k, s.rows[k].url);
  }

  lemma NewestOfferIsFound(rows: seq<Row>, o: nat)
    requires NewestOfferIs(rows, o)
    ensures OfferedRow(rows) == Some(o)
  {
    LastIs(rows, InState(Offered), o);
  }

  lemma NothingOnOfferIsFound(rows: seq<Row>)
    requires NothingOnOffer(rows)
    ensures OfferedRow(rows) == None
  {
  }

  //////// Answers

  /** A machine is sent to the bucket being filled, or else to the active one, and may create only
      a bucket being filled that is not adopted and has no snapshot reported. */
  lemma SentTo(s: State, a: nat)
    requires ActiveIs(s, a)
    ensures Steady(s.rows) ==> Credentials(s) == Some(Grant(s.rows[a].url, Active, false))
    ensures forall k: nat :: FillingIs(s, k) ==>
              Credentials(s) == Some(Grant(s.rows[k].url, CuttingOver, !s.rows[k].adopted && !s.rows[k].snapshot))
  {
    if Steady(s.rows) {
      SteadyIsActive(s, a);
    }
    forall k: nat | FillingIs(s, k)
      ensures Credentials(s) == Some(Grant(s.rows[k].url, CuttingOver, !s.rows[k].adopted && !s.rows[k].snapshot))
    {
      FillingIsCurrent(s, k, s.rows[k].url);
    }
  }

  /** A rotation can be asked for exactly when none was asked for, none is under way and nothing
      is on offer; each refusal is for the first of these that fails. */
  lemma AskedIff(s: State, a: nat)
    requires ActiveIs(s, a)
    ensures var (after, reply) := RotationRequest(s);
            && (reply == Asked <==> !s.rotationAsked && Steady(s.rows) && NothingOnOffer(s.rows))
            && (reply == Conflict(AlreadyAsked) <==> s.rotationAsked)
            && (reply == Conflict(AlreadyCuttingOver) <==> !s.rotationAsked && !Steady(s.rows))
            && (reply == Conflict(OfferWaiting) <==> !s.rotationAsked && Steady(s.rows) && !NothingOnOffer(s.rows))
            && after == State(s.rows, s.rotationAsked || reply == Asked)
  {
    if Steady(s.rows) {
      SteadyIsActive(s, a);
    } else {
      var k :| 0 <= k < |s.rows| && s.rows[k].state.CuttingOver?;
      FillingLeavesActive(s, k, a);
    }
    if NothingOnOffer(s.rows) {
      NothingOnOfferIsFound(s.rows);
    }
  }

  /** The URL names the bucket being filled. */
  ghost predicate NamesFilling(s: State, named: string) {
    exists k: nat :: FillingIs(s, k) && SameRepository(s.rows[k].url, named)
  }

  /** An acceptance of the bucket being filled is answered as the first one was. */
  lemma AcceptedAlready(s: State, named: string, k: nat)
    requires FillingIs(s, k) && SameRepository(s.rows[k].url, named)
    ensures Cutover(s, named) == (s, MovedTo(s.rows[k].url))
  {
    FillingIsCurrent(s, k, s.rows[k].url);
  }

  /** Any other moves the newest offer, under any spelling of its URL, and nothing else, and closes
      the request for a rotation. One that names anything else is told what is on offer, or that
      nothing is. */
  lemma AcceptedIff(s: State, named: string, a: nat)
    requires ActiveIs(s, a) && !NamesFilling(s, named)
    ensures NothingOnOffer(s.rows) ==> Cutover(s, named) == (s, Conflict(NothingOffered))
    ensures forall o: nat :: NewestOfferIs(s.rows, o) ==>
              Cutover(s, named) ==
              if SameRepository(s.rows[o].url, named) then
                (State(s.rows[o := s.rows[o].(state := CuttingOver)], false), MovedTo(s.rows[o].url))
              else (s, WrongUrl(s.rows[o].url))
  {
    NotAcceptedAlready(s, named, a);
    if NothingOnOffer(s.rows) {
      NothingOnOfferIsFound(s.rows);
    }
    forall o: nat | NewestOfferIs(s.rows, o)
      ensures OfferedRow(s.rows) == Some(o)
    {
      NewestOfferIsFound(s.rows, o);
    }
  }

  lemma NotAcceptedAlready(s: State, named: string, a: nat)
    requires ActiveIs(s, a) && !NamesFilling(s, named)
    ensures Current(s.rows).Some?
    ensures var cur := s.rows[Current(s.rows).value];
            !(cur.state.CuttingOver? && SameRepository(cur.url, named))
  {
    GoodRowsSelect(s.rows, a);
    var c := Current(s.rows).value;
    assert s.rows[c].state.CuttingOver? ==> FillingIs(s, c);
  }

  /** The old bucket is let go exactly when the one being filled is named and verified, and then
      the active row alone is dated, once; each refusal is in its own case. */
  lemma LetGoIff(s: State, named: string, now: Time, a: nat)
    requires ActiveIs(s, a)
    ensures Steady(s.rows) ==> OldBucket(s, named, now) == (s, Conflict(NotCuttingOver))
    ensures forall k: nat :: FillingIs(s, k) ==>
              OldBucket(s, named, now) ==
              if !SameRepository(s.rows[k].url, named) then (s, WrongUrl(s.rows[k].url))
              else if !s.rows[k].verified then (s, Conflict(NothingVerified))
              else
                var at := if s.rows[a].releaseAskedAt.Some? then s.rows[a].releaseAskedAt.value else now;
                (s.(rows := s.rows[a := s.rows[a].(releaseAskedAt := Some(at))]), LetGo(s.rows[a].url, at))
  {
    if Steady(s.rows) {
      SteadyIsActive(s, a);
    }
    forall k: nat | FillingIs(s, k)
      ensures Current(s.rows) == Some(k) && PreviousTo(s.rows, k) == Some(a)
    {
      FillingLeavesActive(s, k, a);
    }
  }

  /** Retiring swaps the active row out and the one being filled in, and changes nothing else;
      with none being filled it is refused. */
  lemma RetiredIff(s: State, a: nat)
    requires ActiveIs(s, a)
    ensures Steady(s.rows) ==> AdminRetire(s) == (s, Conflict(NotCuttingOver))
    ensures forall k: nat :: FillingIs(s, k) ==>
              AdminRetire(s) ==
              (s.(rows := s.rows[a := s.rows[a].(state := Retired)][k := s.rows[k].(state := Active)]),
               RetiredRow(s.rows[a].url, s.rows[k].url))
  {
    if Steady(s.rows) {
      SteadyIsActive(s, a);
    }
    forall k: nat | FillingIs(s, k)
      ensures Current(s.rows) == Some(k) && PreviousTo(s.rows, k) == Some(a)
    {
      FillingLeavesActive(s, k, a);
    }
  }

  /** Only in the steady state is a machine pointed elsewhere, and what was reported of the old
      place is forgotten, even when the new place is the old one. */
  lemma PointedIff(s: State, url: string, a: nat)
    requires ActiveIs(s, a) && url != ""
    ensures Steady(s.rows) ==>
              AdminPointAt(s, url) ==
              (s.(rows := s.rows[a := s.rows[a].(url := url, snapshot := false, verified := false)]), Done)
    ensures !Steady(s.rows) ==> AdminPointAt(s, url) == (s, Conflict(NotSteady))
  {
    if Steady(s.rows) {
      SteadyIsActive(s, a);
    } else {
      var k :| 0 <= k < |s.rows| && s.rows[k].state.CuttingOver?;
      FillingLeavesActive(s, k, a);
    }
  }

  /** A place needs a name. */
  lemma NamelessIsRefused(s: State, adopted: bool, now: Time)
    ensures AdminOffer(s, "", adopted, now) == (s, BadRequest)
    ensures AdminPointAt(s, "") == (s, BadRequest)
  {
  }

  /** Every other offer is one more row at the end, with nothing reported of it. */
  lemma OfferedLast(s: State, url: string, adopted: bool, now: Time)
    requires url != ""
    ensures var (after, reply) := AdminOffer(s, url, adopted, now);
            && reply == Done && after.rotationAsked == s.rotationAsked
            && |after.rows| == |s.rows| + 1 && after.rows[..|s.rows|] == s.rows
            && after.rows[|s.rows|] == Row(url, Offered, now, adopted, Some(now), None, false, false)
            && NewestOfferIs(after.rows, |s.rows|)
  {
  }

  //////// Rows that are not good

  /** With nothing but offers and retired rows there is nowhere to send a machine. */
  lemma NowhereToSend(s: State, named: string, now: Time, url: string)
    requires forall k :: 0 <= k < |s.rows| ==> s.rows[k].state.Offered? || s.rows[k].state.Retired?
    requires url != ""
    ensures Credentials(s) == None
    ensures RotationRequest(s) == (s, NoRepository) && Cutover(s, named) == (s, NoRepository)
    ensures OldBucket(s, named, now) == (s, NoRepository) && AdminPointAt(s, url) == (s, NoRepository)
    ensures AdminRetire(s) == (s, Conflict(NotCuttingOver))
  {
  }

  /** And with no other row than the one being filled there is nothing to let go. */
  lemma NothingLeftBehind(s: State, k: nat, named: string, now: Time)
    requires k < |s.rows| && s.rows[k].state.CuttingOver?
    requires forall j :: 0 <= j < |s.rows| && j != k ==> s.rows[j].state.Offered? || s.rows[j].state.Retired?
    ensures SameRepository(s.rows[k].url, named) && s.rows[k].verified ==>
              OldBucket(s, named, now) == (s, Conflict(NoEarlierBucket))
    ensures AdminRetire(s) == (s, Conflict(NoEarlierBucket))
  {
    FirstIs(s.rows, InState(CuttingOver), k);
  }

  //////// What a report does

  /** It is acknowledged whatever it says. */
  lemma ReportIsAcknowledged(s: State, event: Event)
    ensures Serve(s, Land(event)) == (NoteRun(s, event), Done)
  {
  }

  /** A report of a snapshot in this bucket, under any spelling of its URL. */
  predicate Tells(event: Event, url: string) {
    event.finished && event.snapshot != "" && SameRepository(url, event.url)
  }

  ghost predicate FirstOf(rows: seq<Row>, k: nat, url: string) {
    && k < |rows| && SameRepository(rows[k].url, url)
    && forall j :: 0 <= j < k ==> !SameRepository(rows[j].url, url)
  }

  /** A finished event with a snapshot sets the flags of the first row of its URL, never clears
      one, and touches no other row and no other field. */
  lemma ReportMarksFirst(s: State, event: Event, k: nat)
    requires event.finished && event.snapshot != "" && FirstOf(s.rows, k, event.url)
    ensures var after := NoteRun(s, event);
            && |after.rows| == |s.rows| && after.rotationAsked == s.rotationAsked
            && after.rows[k] == s.rows[k].(snapshot := true, verified := after.rows[k].verified)
            && (after.rows[k].verified <==> s.rows[k].verified || event.verified)
            && forall j :: 0 <= j < |s.rows| && j != k ==> after.rows[j] == s.rows[j]
  {
    FirstIs(s.rows, Named(event.url), k);
  }

  /** Any other event changes nothing. */
  lemma OtherReportsChangeNothing(s: State, event: Event)
    requires forall k :: 0 <= k < |s.rows| ==> !Tells(event, s.rows[k].url)
    ensures NoteRun(s, event) == s
  {
    var found := Find(s.rows, event.url);
    if found.Some? {
      assert Meets(Named(event.url), found.value, s.rows[found.value]);
    }
  }

  //////// What is reported stays reported

  // The operator points the machine somewhere while this row is the active one.
  predicate Repoints(s: State, request: Request, k: nat) {
    request.PointAt? && request.url != "" && Current(s.rows) == Some(k) && k < |s.rows| && s.rows[k].state.Active?
  }

  lemma FlagsAreKept(s: State, request: Request, k: nat)
    requires k < |s.rows| && !Repoints(s, request, k)
    ensures var after := Serve(s, request).0.rows;
            && k < |after| && after[k].url == s.rows[k].url
            && (s.rows[k].snapshot ==> after[k].snapshot) && (s.rows[k].verified ==> after[k].verified)
  {
  }

  ghost predicate NeverRepoints(s: State, requests: seq<Request>, k: nat)
    decreases |requests|
  {
    requests != [] ==> !Repoints(s, requests[0], k) && NeverRepoints(Serve(s, requests[0]).0, requests[1..], k)
  }

  /** Over every sequence of requests, stale acceptances included, a row keeps its URL and what
      has been reported of it, for as long as the operator does not point that row elsewhere. */
  lemma {:induction false} FlagsStay(s: State, requests: seq<Request>, k: nat)
    requires k < |s.rows| && NeverRepoints(s, requests, k)
    ensures var after := ServeAll(s, requests).rows;
            && k < |after| && after[k].url == s.rows[k].url
            && (s.rows[k].snapshot ==> after[k].snapshot) && (s.rows[k].verified ==> after[k].verified)
    decreases |requests|
  {
    if requests != [] {
      FlagsAreKept(s, requests[0], k);
      FlagsStay(Serve(s, requests[0]).0, requests[1..], k);
    }
  }

  //////// A bucket being filled

  // What its row remembers of it.
  datatype Memory = Memory(adopted: bool, snapshot: bool, verified: bool)

  function MemoryOf(row: Row): Memory { Memory(row.adopted, row.snapshot, row.verified) }

  function Told(m: Memory, url: string, request: Request): Memory {
    if request.Land? && Tells(request.event, url)
    then m.(snapshot := true, verified := m.verified || request.event.verified) else m
  }

  // Row `k` is being filled, and it is the first of its URL.
  ghost predicate Fills(s: State, k: nat, url: string) {
    RowInv(s.rows) && Filling(s, k, url) && FirstOf(s.rows, k, url)
  }

  lemma FillingIsToldOfReports(s: State, k: nat, url: string, request: Request)
    requires Fills(s, k, url) && !request.Retire? && !StaleAccept(s, request)
    ensures Fills(Serve(s, request).0, k, url)
    ensures MemoryOf(Serve(s, request).0.rows[k]) == Told(MemoryOf(s.rows[k]), url, request)
  {
    KeepsRowsIff(s, request);
    FillingGoesOn(s, k, url, request);
    FillingIsCurrent(s, k, url);
    UrlsBeforeStay(s, k, request);
    if request.Land? {
      LandingIsTold(s, k, url, request.event);
    } else {
      OthersAreNotTold(s, k, request);
    }
  }

  lemma UrlsBeforeStay(s: State, k: nat, request: Request)
    requires k < |s.rows| && Current(s.rows) == Some(k) && s.rows[k].state.CuttingOver?
    ensures var after := Serve(s, request).0.rows;
            |s.rows| <= |after| && forall j :: 0 <= j < |s.rows| ==> after[j].url == s.rows[j].url
  {
  }

  lemma LandingIsTold(s: State, k: nat, url: string, event: Event)
    requires Fills(s, k, url)
    ensures k < |NoteRun(s, event).rows|
    ensures MemoryOf(NoteRun(s, event).rows[k]) == Told(MemoryOf(s.rows[k]), url, Land(event))
  {
    if Tells(event, url) {
      assert FirstOf(s.rows, k, event.url);
      ReportMarksFirst(s, event, k);
    } else {
      var found := Find(s.rows, event.url);
      if found.Some? {
        assert Meets(Named(event.url), found.value, s.rows[found.value]);
      }
    }
  }

  lemma OthersAreNotTold(s: State, k: nat, request: Request)
    requires k < |s.rows| && Current(s.rows) == Some(k) && s.rows[k].state.CuttingOver? && !request.Land?
    ensures k < |Serve(s, request).0.rows|
    ensures MemoryOf(Serve(s, request).0.rows[k]) == MemoryOf(s.rows[k])
  {
  }

  predicate SomeSnapshot(requests: seq<Request>, url: string) {
    exists i :: 0 <= i < |requests| && requests[i].Land? && Tells(requests[i].event, url)
  }

  predicate SomeVerified(requests: seq<Request>, url: string) {
    exists i :: 0 <= i < |requests| && requests[i].Land? && Tells(requests[i].event, url) && requests[i].event.verified
  }

  lemma SomeMore(requests: seq<Request>, url: string)
    requires requests != []
    ensures var first, rest := requests[0], requests[1..];
            && (SomeSnapshot(requests, url) <==> (first.Land? && Tells(first.event, url)) || SomeSnapshot(rest, url))
            && (SomeVerified(requests, url) <==>
                  (first.Land? && Tells(first.event, url) && first.event.verified) || SomeVerified(rest, url))
  {
    var first, rest := requests[0], requests[1..];
    assert forall i :: 0 < i < |requests| ==> requests[i] == rest[i - 1];
    if SomeSnapshot(rest, url) {
      var i :| 0 <= i < |rest| && rest[i].Land? && Tells(rest[i].event, url);
      assert requests[i + 1] == rest[i];
    }
    if SomeVerified(rest, url) {
      var i :| 0 <= i < |rest| && rest[i].Land? && Tells(rest[i].event, url) && rest[i].event.verified;
      assert requests[i + 1] == rest[i];
    }
  }

  lemma {:induction false} FillingRemembers(s: State, k: nat, url: string, requests: seq<Request>)
    requires Fills(s, k, url) && NoStaleAccept(s, requests) && Retire !in requests
    ensures var after := ServeAll(s, requests);
            && Fills(after, k, url)
            && MemoryOf(after.rows[k]) ==
               Memory(s.rows[k].adopted, s.rows[k].snapshot || SomeSnapshot(requests, url),
                      s.rows[k].verified || SomeVerified(requests, url))
    decreases |requests|
  {
    if requests != [] {
      assert requests[0] in requests;
      FillingIsToldOfReports(s, k, url, requests[0]);
      SomeMore(requests, url);
      FillingRemembers(Serve(s, requests[0]).0, k, url, requests[1..]);
    }
  }

  /** From the acceptance of an empty bucket until it is promoted, whatever else is asked of the
      server, a machine is sent there, and may create there exactly until the first snapshot in it
      has been reported. */
  lemma PermittedUntilReported(s: State, k: nat, url: string, requests: seq<Request>)
    requires Fills(s, k, url) && NoStaleAccept(s, requests) && Retire !in requests
    ensures Credentials(ServeAll(s, requests)) ==
            Some(Grant(url, CuttingOver, !s.rows[k].adopted && !s.rows[k].snapshot && !SomeSnapshot(requests, url)))
  {
    FillingRemembers(s, k, url, requests);
    var after := ServeAll(s, requests);
    var a :| 0 <= a < |after.rows| && after.rows[a].state.Active?;
    SentTo(after, a);
    assert FillingIs(after, k);
  }

  /** And over the same time the old bucket is let go exactly once a verified snapshot in the new
      one has been reported; nothing reported later, verified or not, takes that back. */
  lemma LetGoOnceVerified(s: State, k: nat, url: string, requests: seq<Request>, named: string, now: Time)
    requires Fills(s, k, url) && NoStaleAccept(s, requests) && Retire !in requests && SameRepository(url, named)
    ensures var reply := OldBucket(ServeAll(s, requests), named, now).1;
            && (reply.LetGo? <==> s.rows[k].verified || SomeVerified(requests, url))
            && (!reply.LetGo? ==> reply == Conflict(NothingVerified))
  {
    FillingRemembers(s, k, url, requests);
    var after := ServeAll(s, requests);
    var a :| 0 <= a < |after.rows| && after.rows[a].state.Active?;
    LetGoIff(after, named, now, a);
    assert FillingIs(after, k);
  }

  //////// A whole rotation

  // These rows and one more, being filled.
  function Filled(s: State, url: string, adopted: bool, made: Time, snapshot: bool, verified: bool): State {
    State(s.rows + [Row(url, CuttingOver, made, adopted, Some(made), None, snapshot, verified)], false)
  }

  lemma FilledIsGood(s: State, a: nat, url: string, adopted: bool, made: Time, snapshot: bool, verified: bool)
    requires ActiveIs(s, a) && Steady(s.rows)
    ensures var after := Filled(s, url, adopted, made, snapshot, verified);
            ActiveIs(after, a) && FillingIs(after, |s.rows|)
  {
    assert Filled(s, url, adopted, made, snapshot, verified).rows[a] == s.rows[a];
  }

  // Row `a` has been let go.
  function Dated(s: State, a: nat, released: Time): State
    requires a < |s.rows|
  {
    s.(rows := s.rows[a := s.rows[a].(releaseAskedAt := Some(released))])
  }

  lemma OfferIsIn(s: State, a: nat, offered: Row)
    requires ActiveIs(s, a) && Steady(s.rows) && offered.state.Offered?
    ensures var after := State(s.rows + [offered], true);
            && ActiveIs(after, a) && NewestOfferIs(after.rows, |s.rows|)
            && forall named :: !NamesFilling(after, named)
  {
    var rows := s.rows + [offered];
    assert rows[a] == s.rows[a] && rows[|s.rows|] == offered;
    assert forall k :: 0 <= k < |rows| ==> !rows[k].state.CuttingOver?;
  }

  lemma AcceptanceIsIn(s: State, a: nat, url: string, adopted: bool, made: Time)
    requires ActiveIs(s, a) && Steady(s.rows) && url != ""
    ensures Cutover(State(s.rows + [Row(url, Offered, made, adopted, Some(made), None, false, false)], true), url) ==
            (Filled(s, url, adopted, made, false, false), MovedTo(url))
  {
    var offered := Row(url, Offered, made, adopted, Some(made), None, false, false);
    OfferIsIn(s, a, offered);
    AcceptedIff(State(s.rows + [offered], true), url, a);
    assert (s.rows + [offered])[|s.rows| := offered.(state := CuttingOver)]
           == Filled(s, url, adopted, made, false, false).rows;
  }

  lemma ReportIsIn(s: State, a: nat, url: string, adopted: bool, event: Event, made: Time)
    requires ActiveIs(s, a) && Steady(s.rows) && Tells(event, url) && event.verified
    requires forall k :: 0 <= k < |s.rows| ==> !SameRepository(s.rows[k].url, url)
    ensures NoteRun(Filled(s, url, adopted, made, false, false), event) == Filled(s, url, adopted, made, true, true)
  {
    var before, after := Filled(s, url, adopted, made, false, false), Filled(s, url, adopted, made, true, true);
    assert FirstOf(before.rows, |s.rows|, event.url);
    ReportMarksFirst(before, event, |s.rows|);
    assert NoteRun(before, event).rows == after.rows;
  }

  lemma ReleaseIsIn(s: State, a: nat, url: string, adopted: bool, made: Time, released: Time)
    requires ActiveIs(s, a) && Steady(s.rows) && s.rows[a].releaseAskedAt.None?
    ensures OldBucket(Filled(s, url, adopted, made, true, true), url, released) ==
            (Filled(Dated(s, a, released), url, adopted, made, true, true), LetGo(s.rows[a].url, released))
  {
    var full := Filled(s, url, adopted, made, true, true);
    var left := s.rows[a].(releaseAskedAt := Some(released));
    FilledIsGood(s, a, url, adopted, made, true, true);
    LetGoIff(full, url, released, a);
    UpdateBeforeTheEnd(s.rows, full.rows[|s.rows|], a, left);
  }

  lemma RetirementIsIn(s: State, a: nat, url: string, adopted: bool, made: Time)
    requires ActiveIs(s, a) && Steady(s.rows)
    ensures AdminRetire(Filled(s, url, adopted, made, true, true)) ==
            (State(s.rows[a := s.rows[a].(state := Retired)]
                   + [Row(url, Active, made, adopted, Some(made), None, true, true)], false),
             RetiredRow(s.rows[a].url, url))
  {
    var full := Filled(s, url, adopted, made, true, true);
    var last := full.rows[|s.rows|];
    var gone := s.rows[a].(state := Retired);
    FilledIsGood(s, a, url, adopted, made, true, true);
    RetiredIff(full, a);
    UpdateBeforeTheEnd(s.rows, last, a, gone);
    assert (s.rows[a := gone] + [last])[|s.rows| := last.(state := Active)]
           == s.rows[a := gone] + [last.(state := Active)];
  }

  lemma UpdateBeforeTheEnd(rows: seq<Row>, last: Row, a: nat, row: Row)
    requires a < |rows|
    ensures (rows + [last])[a := row] == rows[a := row] + [last]
  {
  }

  lemma TwoUpdates(rows: seq<Row>, a: nat, first: Row, second: Row)
    requires a < |rows|
    ensures rows[a := first][a := second] == rows[a := second]
  {
  }

  lemma DatedIsGood(s: State, a: nat, released: Time)
    requires ActiveIs(s, a) && Steady(s.rows)
    ensures ActiveIs(Dated(s, a, released), a) && Steady(Dated(s, a, released).rows)
  {
    SameStatesSameInv(s.rows, Dated(s, a, released).rows);
  }

  /** From any steady state with nothing asked for and nothing on offer, a rotation onto a new
      name goes through: each request gets its answer, and in the end the old row is retired and
      dated, the new one active and verified, and every other row as it was. */
  lemma RotationGoesThrough(s: State, a: nat, url: string, adopted: bool, event: Event, made: Time, released: Time)
    requires ActiveIs(s, a) && Steady(s.rows) && NothingOnOffer(s.rows) && !s.rotationAsked
    requires url != "" && (forall k :: 0 <= k < |s.rows| ==> !SameRepository(s.rows[k].url, url))
    requires Tells(event, url) && event.verified && s.rows[a].releaseAskedAt.None?
    ensures var asked := State(s.rows, true);
            var offered := State(s.rows + [Row(url, Offered, made, adopted, Some(made), None, false, false)], true);
            var filling := Filled(s, url, adopted, made, false, false);
            var verified := Filled(s, url, adopted, made, true, true);
            var dated := Filled(Dated(s, a, released), url, adopted, made, true, true);
            var gone := s.rows[a].(state := Retired, releaseAskedAt := Some(released));
            && RotationRequest(s) == (asked, Asked)
            && AdminOffer(asked, url, adopted, made) == (offered, Done)
            && Cutover(offered, url) == (filling, MovedTo(url))
            && NoteRun(filling, event) == verified
            && OldBucket(verified, url, released) == (dated, LetGo(s.rows[a].url, released))
            && AdminRetire(dated) ==
               (State(s.rows[a := gone] + [Row(url, Active, made, adopted, Some(made), None, true, true)], false),
                RetiredRow(s.rows[a].url, url))
  {
    AskedIff(s, a);
    AcceptanceIsIn(s, a, url, adopted, made);
    ReportIsIn(s, a, url, adopted, event, made);
    ReleaseIsIn(s, a, url, adopted, made, released);
    DatedIsGood(s, a, released);
    RetirementIsIn(Dated(s, a, released), a, url, adopted, made);
    TwoUpdates(s.rows, a, s.rows[a].(releaseAskedAt := Some(released)),
               s.rows[a].(state := Retired, releaseAskedAt := Some(released)));
  }
}
