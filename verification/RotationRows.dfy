/** What the server's rows keep over every sequence of requests, and the one request that
    can break it. */
module RotationRows {
  import opened Wrappers
  import opened Text
  import opened Rotation

  ghost predicate AtMostOne(rows: seq<Row>, state: RowState) {
    forall i, j :: 0 <= i < j < |rows| ==> !(rows[i].state == state && rows[j].state == state)
  }

  /** One active row, and at most one being cut over to. */
  ghost predicate RowInv(rows: seq<Row>) {
    && (exists a :: 0 <= a < |rows| && rows[a].state.Active?)
    && AtMostOne(rows, Active)
    && AtMostOne(rows, CuttingOver)
  }

  /** Accepting an offer while another bucket is already being filled. This is the branch of
      the cutover handler that no guard closes. */
  predicate StaleAccept(s: State, request: Request) {
    && request.AcceptOffer?
    && var cur := Current(s.rows);
       var offer := OfferedRow(s.rows);
       && cur.Some? && s.rows[cur.value].state.CuttingOver?
       && !SameRepository(s.rows[cur.value].url, request.named)
       && offer.Some? && SameRepository(s.rows[offer.value].url, request.named)
  }

  ghost predicate NoStaleAccept(s: State, requests: seq<Request>)
    decreases |requests|
  {
    requests != [] ==>
      && !StaleAccept(s, requests[0])
      && NoStaleAccept(Serve(s, requests[0]).0, requests[1..])
  }

  /** In good rows the machine always has a repository: the cutting-over row if there is
      one, else the active row; and the bucket being left behind is the active one. */
  lemma GoodRowsSelect(rows: seq<Row>, a: nat)
    requires RowInv(rows) && a < |rows| && rows[a].state.Active?
    ensures Current(rows).Some?
    ensures rows[Current(rows).value].state.Active? ==>
      Current(rows) == Some(a) && forall j :: 0 <= j < |rows| ==> !rows[j].state.CuttingOver?
    ensures rows[Current(rows).value].state.CuttingOver? ==> PreviousTo(rows, Current(rows).value) == Some(a)
  {
  }

  // Requests that write other fields leave the invariant alone.
  lemma SameStatesSameInv(before: seq<Row>, after: seq<Row>)
    requires |before| == |after| && forall k :: 0 <= k < |before| ==> before[k].state == after[k].state
    requires RowInv(before)
    ensures RowInv(after)
  {
  }

  // An acceptance that changes anything puts one offered row into the filling state.
  lemma AcceptanceMovesAnOffer(s: State, named: string)
    requires Cutover(s, named).0 != s
    ensures OfferedRow(s.rows).Some?
    ensures var o := OfferedRow(s.rows).value;
            && s.rows[o].state.Offered?
            && Cutover(s, named).0.rows == s.rows[o := s.rows[o].(state := CuttingOver)]
            && Current(s.rows).Some?
            && (StaleAccept(s, AcceptOffer(named)) <==> s.rows[Current(s.rows).value].state.CuttingOver?)
  {
    assert Meets(InState(Offered), OfferedRow(s.rows).value, s.rows[OfferedRow(s.rows).value]);
  }

  lemma CutoverKeepsRowsIff(s: State, named: string)
    requires RowInv(s.rows)
    ensures RowInv(Cutover(s, named).0.rows) <==> !StaleAccept(s, AcceptOffer(named))
  {
    var a :| 0 <= a < |s.rows| && s.rows[a].state.Active?;
    GoodRowsSelect(s.rows, a);
    if Cutover(s, named).0 != s {
      AcceptanceMovesAnOffer(s, named);
      MovingAnOfferKeepsRowsIff(s.rows, OfferedRow(s.rows).value, a, Current(s.rows).value);
    }
  }

  lemma MovingAnOfferKeepsRowsIff(rows: seq<Row>, o: nat, a: nat, c: nat)
    requires RowInv(rows) && o < |rows| && rows[o].state.Offered?
    requires a < |rows| && rows[a].state.Active?
    requires c < |rows| && (rows[c].state.CuttingOver? || forall k :: 0 <= k < |rows| ==> !rows[k].state.CuttingOver?)
    ensures RowInv(rows[o := rows[o].(state := CuttingOver)]) <==> !rows[c].state.CuttingOver?
  {
    var after := rows[o := rows[o].(state := CuttingOver)];
    assert after[a].state.Active? && after[o].state.CuttingOver?;
    if rows[c].state.CuttingOver? {
      assert after[c].state.CuttingOver? && c != o;
    }
  }

  lemma RetireKeepsRows(s: State)
    requires RowInv(s.rows)
    ensures RowInv(AdminRetire(s).0.rows)
    ensures AdminRetire(s).1.RetiredRow? ==>
              forall k :: 0 <= k < |s.rows| ==> !AdminRetire(s).0.rows[k].state.CuttingOver?
  {
    var a :| 0 <= a < |s.rows| && s.rows[a].state.Active?;
    GoodRowsSelect(s.rows, a);
    var c := Current(s.rows).value;
    if AdminRetire(s).1.RetiredRow? {
      assert AdminRetire(s).0.rows[c].state.Active?;
    }
  }

  lemma OfferKeepsRows(s: State, url: string, adopted: bool, now: Time)
    requires RowInv(s.rows)
    ensures RowInv(AdminOffer(s, url, adopted, now).0.rows)
  {
    var a :| 0 <= a < |s.rows| && s.rows[a].state.Active?;
    assert AdminOffer(s, url, adopted, now).0.rows[a].state.Active?;
  }

  lemma StatesStay(s: State, request: Request)
    requires RowInv(s.rows) && !request.AcceptOffer? && !request.Retire? && !request.Offer?
    ensures RowInv(Serve(s, request).0.rows)
  {
    SameStatesSameInv(s.rows, Serve(s, request).0.rows);
  }

  /** One request keeps the rows good exactly when it is not a stale acceptance. */
  lemma KeepsRowsIff(s: State, request: Request)
    requires RowInv(s.rows)
    ensures RowInv(Serve(s, request).0.rows) <==> !StaleAccept(s, request)
  {
    match request {
      case AcceptOffer(named) => CutoverKeepsRowsIff(s, named);
      case Retire => RetireKeepsRows(s);
      case Offer(url, adopted, now) => OfferKeepsRows(s, url, adopted, now);
      case _ => StatesStay(s, request);
    }
  }

  /** Over every run of the server in which no acceptance is stale. */
  lemma {:induction false} RowsStayGood(s: State, requests: seq<Request>)
    requires RowInv(s.rows) && NoStaleAccept(s, requests)
    ensures RowInv(ServeAll(s, requests).rows)
    decreases |requests|
  {
    if requests != [] {
      KeepsRowsIff(s, requests[0]);
      RowsStayGood(Serve(s, requests[0]).0, requests[1..]);
    }
  }

  lemma StartIsGood(url: string, adopted: bool, created: Time)
    ensures RowInv(Start(url, adopted, created).rows)
  {
    assert Start(url, adopted, created).rows[0].state.Active?;
  }

  //////// What no request undoes

  /** Rows are never dropped or reordered: each keeps its place, its dates and whether it was
      adopted, moves only forward through its states, and keeps a release date once it is
      set. */
  ghost predicate Forward(before: seq<Row>, after: seq<Row>) {
    && |before| <= |after|
    && forall k :: 0 <= k < |before| ==>
         && before[k].state.Rank() <= after[k].state.Rank()
         && before[k].createdAt == after[k].createdAt && before[k].offeredAt == after[k].offeredAt
         && before[k].adopted == after[k].adopted
         && (before[k].releaseAskedAt.Some? ==> after[k].releaseAskedAt == before[k].releaseAskedAt)
  }

  lemma ServeIsForward(s: State, request: Request)
    ensures Forward(s.rows, Serve(s, request).0.rows)
  {
    match request {
      case Retire => RetireIsForward(s);
      case AcceptOffer(named) =>
        if Cutover(s, named).0 != s {
          AcceptanceMovesAnOffer(s, named);
        }
      case ReleaseOld(named, now) => ReleaseIsForward(s, named, now);
      case _ => OtherRequestsKeepStates(s, request);
    }
  }

  lemma ReleaseIsForward(s: State, named: string, now: Time)
    ensures Forward(s.rows, OldBucket(s, named, now).0.rows)
  {
  }

  lemma OtherRequestsKeepStates(s: State, request: Request)
    requires !request.Retire? && !request.AcceptOffer? && !request.ReleaseOld?
    ensures Forward(s.rows, Serve(s, request).0.rows)
  {
  }

  lemma RetireIsForward(s: State)
    ensures Forward(s.rows, AdminRetire(s).0.rows)
  {
  }

  /** Over any run at all, stale acceptances included: a date once set never changes. */
  lemma {:induction false} RunsAreForward(s: State, requests: seq<Request>)
    ensures Forward(s.rows, ServeAll(s, requests).rows)
    decreases |requests|
  {
    if requests != [] {
      ServeIsForward(s, requests[0]);
      RunsAreForward(Serve(s, requests[0]).0, requests[1..]);
    }
  }

  //////// Acceptance is idempotent

  ghost predicate Filling(s: State, k: nat, url: string) {
    k < |s.rows| && s.rows[k].state.CuttingOver? && s.rows[k].url == url
  }

  lemma FillingIsCurrent(s: State, k: nat, url: string)
    requires RowInv(s.rows) && Filling(s, k, url)
    ensures Current(s.rows) == Some(k)
  {
  }

  lemma FillingGoesOn(s: State, k: nat, url: string, request: Request)
    requires RowInv(s.rows) && Filling(s, k, url) && !request.Retire? && !StaleAccept(s, request)
    ensures Filling(Serve(s, request).0, k, url)
  {
  }

  lemma {:induction false} FillingGoesOnOverRuns(s: State, k: nat, url: string, requests: seq<Request>)
    requires RowInv(s.rows) && Filling(s, k, url) && NoStaleAccept(s, requests)
    requires Retire !in requests
    ensures RowInv(ServeAll(s, requests).rows) && Filling(ServeAll(s, requests), k, url)
    decreases |requests|
  {
    if requests != [] {
      KeepsRowsIff(s, requests[0]);
      FillingGoesOn(s, k, url, requests[0]);
      FillingGoesOnOverRuns(Serve(s, requests[0]).0, k, url, requests[1..]);
    }
  }

  /** A machine whose acknowledgement was lost may accept again, after anything else short of
      the retirement, under any spelling of the same URL: nothing changes and the answer is
      the first answer. */
  lemma AcceptingAgain(s: State, named: string, requests: seq<Request>, again: string)
    requires RowInv(s.rows) && !StaleAccept(s, AcceptOffer(named)) && Cutover(s, named).1.MovedTo?
    requires var s1 := Cutover(s, named).0; NoStaleAccept(s1, requests)
    requires Retire !in requests && SameRepository(named, again)
    ensures var s2 := ServeAll(Cutover(s, named).0, requests);
            Cutover(s2, again) == (s2, Cutover(s, named).1)
  {
    var (s1, reply) := Cutover(s, named);
    CutoverKeepsRowsIff(s, named);
    var c := Current(s.rows).value;
    var k := if s1 == s then c else OfferedRow(s.rows).value;
    assert Filling(s1, k, reply.url) && SameRepository(reply.url, named);
    FillingGoesOnOverRuns(s1, k, reply.url, requests);
    FillingIsCurrent(ServeAll(s1, requests), k, reply.url);
  }

  /** After the superseded row is retired the machine is in its steady state again, so the
      next rotation can be asked for. */
  lemma RetirementReopensRotation(s: State)
    requires RowInv(s.rows) && AdminRetire(s).1.RetiredRow?
    ensures var after := AdminRetire(s).0;
            && Current(after.rows) == Current(s.rows)
            && RotationRequest(after).1 != Conflict(AlreadyCuttingOver)
  {
    RetireKeepsRows(s);
    var after := AdminRetire(s).0;
    var c := Current(s.rows).value;
    GoodRowsSelect(after.rows, c);
  }

  /** Reports are delivered at least once: landing one again changes nothing. */
  lemma LandingAgain(s: State, event: Event)
    ensures NoteRun(NoteRun(s, event), event) == NoteRun(s, event)
  {
    var once := NoteRun(s, event);
    if once != s {
      var k := Find(s.rows, event.url).value;
      FirstIs(once.rows, Named(event.url), k);
      assert once.rows[k := once.rows[k]] == once.rows;
    }
  }

  //////// What the missing guard allows

  // A row of these histories: made and, unless it is the first, offered at this time.
  function Plain(url: string, state: RowState, at: Time): Row {
    Row(url, state, at, false, if at == 0 then None else Some(at), None, false, false)
  }

  function Three(a: RowState, b: RowState, c: RowState): State {
    State([Plain("a", a, 0), Plain("b", b, 1), Plain("c", c, 2)], false)
  }

  // Two offers are made; the machine accepts the newer, then the older one it had read
  // before.
  function TwoOffers(): State { Three(Active, Offered, Offered) }

  lemma CanonOfLetters()
    ensures Canon("a") == "a" && Canon("b") == "b" && Canon("c") == "c"
  {
  }

  lemma TwoOffersReached()
    ensures ServeAll(Start("a", false, 0), [Offer("b", false, 1), Offer("c", false, 2)]) == TwoOffers()
    ensures RowInv(TwoOffers().rows)
  {
    var s0 := Start("a", false, 0);
    var s1 := Serve(s0, Offer("b", false, 1)).0;
    var rest := [Offer("c", false, 2)];
    assert [Offer("b", false, 1), Offer("c", false, 2)][1..] == rest;
    assert ServeAll(s1, rest) == ServeAll(Serve(s1, rest[0]).0, []);
    assert TwoOffers().rows[0].state.Active?;
  }

  lemma NewerAccepted()
    ensures Cutover(TwoOffers(), "c") == (Three(Active, Offered, CuttingOver), MovedTo("c"))
  {
    CanonOfLetters();
    LastIs(TwoOffers().rows, InState(Offered), 2);
    LastIs(TwoOffers().rows, InState(Active), 0);
    assert TwoOffers().rows[2 := Plain("c", CuttingOver, 2)] == Three(Active, Offered, CuttingOver).rows;
  }

  lemma OlderAcceptedToo()
    ensures StaleAccept(Three(Active, Offered, CuttingOver), AcceptOffer("b"))
    ensures Cutover(Three(Active, Offered, CuttingOver), "b") == (Three(Active, CuttingOver, CuttingOver), MovedTo("b"))
  {
    CanonOfLetters();
    FirstIs(Three(Active, Offered, CuttingOver).rows, InState(CuttingOver), 2);
    LastIs(Three(Active, Offered, CuttingOver).rows, InState(Offered), 1);
    assert Three(Active, Offered, CuttingOver).rows[1 := Plain("b", CuttingOver, 1)] ==
           Three(Active, CuttingOver, CuttingOver).rows;
  }

  lemma RetiresTheWrongOne()
    ensures AdminRetire(Three(Active, CuttingOver, CuttingOver)) ==
            (Three(Active, Active, Retired), RetiredRow("c", "b"))
  {
    FirstIs(Three(Active, CuttingOver, CuttingOver).rows, InState(CuttingOver), 1);
    LastIs(Three(Active, CuttingOver, CuttingOver).rows, LeftBehind(1), 2);
    assert Three(Active, CuttingOver, CuttingOver).rows[2 := Plain("c", Retired, 2)][1 := Plain("b", Active, 1)] ==
           Three(Active, Active, Retired).rows;
  }

  /** Both acceptances succeed, two rows are then cutting over, and retiring leaves two
      active rows while it is the bucket being filled that is retired. */
  lemma StaleAcceptanceWitness()
    ensures Cutover(TwoOffers(), "c") == (Three(Active, Offered, CuttingOver), MovedTo("c"))
    ensures RowInv(Three(Active, Offered, CuttingOver).rows)
    ensures StaleAccept(Three(Active, Offered, CuttingOver), AcceptOffer("b"))
    ensures Cutover(Three(Active, Offered, CuttingOver), "b") == (Three(Active, CuttingOver, CuttingOver), MovedTo("b"))
    ensures AdminRetire(Three(Active, CuttingOver, CuttingOver)) ==
            (Three(Active, Active, Retired), RetiredRow("c", "b"))
    ensures Credentials(Three(Active, Active, Retired)) == Some(Grant("b", Active, false))
  {
    NewerAccepted();
    OlderAcceptedToo();
    RetiresTheWrongOne();
    OneCutoverIsGood();
    TheLaterActiveIsCurrent();
  }

  lemma TheLaterActiveIsCurrent()
    ensures Credentials(Three(Active, Active, Retired)) == Some(Grant("b", Active, false))
  {
    var rows := Three(Active, Active, Retired).rows;
    assert forall k :: 0 <= k < |rows| ==> !rows[k].state.CuttingOver?;
    LastIs(rows, InState(Active), 1);
  }

  lemma OneCutoverIsGood()
    ensures RowInv(Three(Active, Offered, CuttingOver).rows)
  {
    assert Three(Active, Offered, CuttingOver).rows[0].state.Active?;
  }

  // The searches find what they are said to find.
  lemma FirstIs(rows: seq<Row>, sel: Selector, k: nat)
    requires k < |rows| && Meets(sel, k, rows[k])
    requires forall j :: 0 <= j < k ==> !Meets(sel, j, rows[j])
    ensures First(rows, sel) == Some(k)
  {
  }

  lemma LastIs(rows: seq<Row>, sel: Selector, k: nat)
    requires k < |rows| && Meets(sel, k, rows[k])
    requires forall j :: k < j < |rows| ==> !Meets(sel, j, rows[j])
    ensures Last(rows, sel) == Some(k)
  {
  }

  /** The bucket a machine moves off is described as the newest one older than the one it
      moves onto. The code looks at no ages, so that holds, for an acceptance from the steady
      state, exactly when the accepted offer was made after the active row. */
  lemma LeavesAnOlderRowIff(s: State, named: string, a: nat)
    requires RowInv(s.rows) && a < |s.rows| && s.rows[a].state.Active?
    requires s.rows[Current(s.rows).value].state.Active? && Cutover(s, named).1.MovedTo?
    ensures var after := Cutover(s, named).0.rows;
            var onto := OfferedRow(s.rows).value;
            && Current(after) == Some(onto)
            && PreviousTo(after, onto) == Some(a)
            && (PreviousTo(after, onto).value < onto <==> a < onto)
  {
    GoodRowsSelect(s.rows, a);
    CutoverKeepsRowsIff(s, named);
    var after := Cutover(s, named).0.rows;
    var onto := OfferedRow(s.rows).value;
    assert Meets(InState(CuttingOver), onto, after[onto]);
    GoodRowsSelect(after, a);
  }

  lemma OldestRetired()
    ensures AdminRetire(Three(Active, Offered, CuttingOver)) == (Three(Retired, Offered, Active), RetiredRow("a", "c"))
  {
    FirstIs(Three(Active, Offered, CuttingOver).rows, InState(CuttingOver), 2);
    LastIs(Three(Active, Offered, CuttingOver).rows, LeftBehind(2), 0);
    assert Three(Active, Offered, CuttingOver).rows[0 := Plain("a", Retired, 0)][2 := Plain("c", Active, 2)] ==
           Three(Retired, Offered, Active).rows;
  }

  lemma LeftOverAccepted()
    ensures Cutover(Three(Retired, Offered, Active), "b") == (Three(Retired, CuttingOver, Active), MovedTo("b"))
  {
    CanonOfLetters();
    LastIs(Three(Retired, Offered, Active).rows, InState(Active), 2);
    LastIs(Three(Retired, Offered, Active).rows, InState(Offered), 1);
    assert Three(Retired, Offered, Active).rows[1 := Plain("b", CuttingOver, 1)] ==
           Three(Retired, CuttingOver, Active).rows;
  }

  /** An older offer left over from before can be accepted later, and then the bucket let go
      of is the newer one. */
  lemma NewerRowLeftBehindWitness()
    ensures AdminRetire(Cutover(TwoOffers(), "c").0).0 == Three(Retired, Offered, Active)
    ensures Cutover(Three(Retired, Offered, Active), "b") == (Three(Retired, CuttingOver, Active), MovedTo("b"))
    ensures var rows := Three(Retired, CuttingOver, Active).rows;
            && RowInv(rows) && Current(rows) == Some(1)
            && PreviousTo(rows, 1) == Some(2) && rows[1].createdAt < rows[2].createdAt
  {
    NewerAccepted();
    OldestRetired();
    LeftOverAccepted();
    var rows := Three(Retired, CuttingOver, Active).rows;
    FirstIs(rows, InState(CuttingOver), 1);
    LastIs(rows, LeftBehind(1), 2);
    assert rows[2].state.Active?;
  }
}
