/** Safety of the rotation protocol over every run of the system. */
module RotationSafety {
  import opened Wrappers
  import opened Text
  import opened Rotation
  import opened RotationAnswers
  import opened RotationRows
  import opened RotationProtocol

  //////// A run is what its fetch said

  /** At index `f` this run fetched its answer, and the answer is what it still carries. */
  ghost predicate FetchedAt(ws: seq<World>, steps: seq<Step>, f: int, i: int, run: nat)
    requires Behaviour(ws, steps) && 0 <= i <= |steps| && run in ws[i].runs
  {
    && 0 <= f < i && steps[f] == Fetch(run)
    && Credentials(ws[f].server) ==
       Some(Grant(ws[i].runs[run].url,
                  if ws[i].runs[run].cuttingOver then CuttingOver else Active,
                  ws[i].runs[run].permit))
  }

  lemma StepKeepsRuns(w: World, step: Step, run: nat)
    requires Enabled(w, step) && run in w.runs
    ensures run in Next(w, step).runs
    ensures Next(w, step).runs[run] == w.runs[run].(phase := Next(w, step).runs[run].phase)
  {
  }

  lemma {:induction false} RunsAreFetched(ws: seq<World>, steps: seq<Step>, i: nat, run: nat)
    requires Behaviour(ws, steps) && i <= |steps| && run in ws[i].runs
    ensures exists f :: FetchedAt(ws, steps, f, i, run)
  {
    if i > 0 {
      if run in ws[i - 1].runs {
        StepAt(ws, steps, i - 1);
        StepKeepsRuns(ws[i - 1], steps[i - 1], run);
        RunsAreFetched(ws, steps, i - 1, run);
        var f :| FetchedAt(ws, steps, f, i - 1, run);
        assert FetchedAt(ws, steps, f, i, run);
      } else {
        assert FetchedAt(ws, steps, i - 1, i, run);
      }
    }
  }

  lemma {:induction false} RunsPersist(ws: seq<World>, steps: seq<Step>, f: nat, i: nat, run: nat)
    requires Behaviour(ws, steps) && f <= i <= |steps| && run in ws[f].runs
    ensures run in ws[i].runs && ws[i].runs[run] == ws[f].runs[run].(phase := ws[i].runs[run].phase)
    decreases i
  {
    if f < i {
      RunsPersist(ws, steps, f, i - 1, run);
      StepAt(ws, steps, i - 1);
      StepKeepsRuns(ws[i - 1], steps[i - 1], run);
    }
  }

  //////// What a run reports happened

  /** At index `v` this run read its own snapshot back out of the bucket it was sent to. */
  ghost predicate ReadBackAt(ws: seq<World>, steps: seq<Step>, v: int, i: int, run: nat, event: Event)
    requires Behaviour(ws, steps) && 0 <= i <= |steps|
  {
    && 0 <= v < i && steps[v] == Verify(run, true)
    && run in ws[v].runs && ws[v].runs[run].url == event.url
    && event.snapshot in Snapshots(ws[v], event.url)
  }

  // At this index a run's report lands.
  ghost predicate ReportsAt(ws: seq<World>, steps: seq<Step>, i: int, run: nat)
    requires Behaviour(ws, steps)
  {
    0 <= i < |steps| && steps[i] == Report(run) && run in ws[i].runs && ws[i].runs[run].phase.Ended?
  }

  /** A report names the bucket its run wrote to, whatever has been cut over since, and says
      "verified" only of a snapshot that was read back there. */
  lemma {:induction false} EventsAreHonest(ws: seq<World>, steps: seq<Step>, i: nat, run: nat)
    requires Behaviour(ws, steps) && i <= |steps| && run in ws[i].runs && ws[i].runs[run].phase.Ended?
    ensures var event := ws[i].runs[run].phase.event;
            && event.finished && event.url == ws[i].runs[run].url
            && (event.verified ==> exists v :: ReadBackAt(ws, steps, v, i, run, event))
  {
    var event := ws[i].runs[run].phase.event;
    if i > 0 {
      if run in ws[i - 1].runs && ws[i - 1].runs[run].phase.Ended? {
        assert ws[i - 1].runs[run].phase.event == event;
        StepAt(ws, steps, i - 1);
        StepKeepsRuns(ws[i - 1], steps[i - 1], run);
        EventsAreHonest(ws, steps, i - 1, run);
        if event.verified {
          var v :| ReadBackAt(ws, steps, v, i - 1, run, event);
          assert ReadBackAt(ws, steps, v, i, run, event);
        }
      } else if event.verified {
        assert ReadBackAt(ws, steps, i - 1, i, run, event);
      }
    }
  }

  //////// Creation

  ghost predicate SawNothingAt(ws: seq<World>, steps: seq<Step>, p: int, i: int, run: nat)
    requires Behaviour(ws, steps) && 0 <= i <= |steps| && run in ws[i].runs
  {
    && 0 <= p < i && steps[p] == Probe(run, Absent)
    && run in ws[p].runs && ws[p].runs[run].permit && ws[p].runs[run].url == ws[i].runs[run].url
    && !Present(ws[p], ws[i].runs[run].url)
  }

  lemma {:induction false} CreatorsProbed(ws: seq<World>, steps: seq<Step>, i: nat, run: nat)
    requires Behaviour(ws, steps) && i <= |steps| && InPhase(ws[i], run, SawNothing)
    ensures exists p :: SawNothingAt(ws, steps, p, i, run)
  {
    if i > 0 {
      StepAt(ws, steps, i - 1);
      if steps[i - 1] == Probe(run, Absent) {
        assert SawNothingAt(ws, steps, i - 1, i, run);
      } else {
        assert InPhase(ws[i - 1], run, SawNothing);
        StepKeepsRuns(ws[i - 1], steps[i - 1], run);
        CreatorsProbed(ws, steps, i - 1, run);
        var p :| SawNothingAt(ws, steps, p, i - 1, run);
        assert SawNothingAt(ws, steps, p, i, run);
      }
    }
  }

  /** The only thing that permits a creation: this run's own fetch named this URL, for a row
      that was then cutting over, not adopted, and had no snapshot reported; between that
      fetch and the creation this run looked and was told there is no repository; and there
      is none at the moment of creation. */
  ghost predicate CreationIsSafe(ws: seq<World>, steps: seq<Step>, i: int, f: int, p: int, run: nat)
    requires Behaviour(ws, steps) && 0 <= i <= |steps| && run in ws[i].runs
  {
    && 0 <= f < p < i
    && steps[f] == Fetch(run)
    && steps[p] == Probe(run, Absent)
    && (var cur := Current(ws[f].server.rows);
        cur.Some? && ExpectEmpty(ws[f].server.rows[cur.value])
        && ws[f].server.rows[cur.value].url == ws[i].runs[run].url)
    && !Present(ws[p], ws[i].runs[run].url)
    && !Present(ws[i], ws[i].runs[run].url)
  }

  lemma SafeCreation(ws: seq<World>, steps: seq<Step>, i: nat, run: nat, url: string)
    requires Behaviour(ws, steps) && i < |steps|
    requires steps[i].Create? && steps[i].run == run && Creates(ws[i], steps[i], url)
    ensures exists f, p :: CreationIsSafe(ws, steps, i, f, p, run)
  {
    StepAt(ws, steps, i);
    CreatorsProbed(ws, steps, i, run);
    var p :| SawNothingAt(ws, steps, p, i, run);
    RunsPersist(ws, steps, p, i, run);
    RunsAreFetched(ws, steps, p, run);
    var f :| FetchedAt(ws, steps, f, p, run);
    assert CreationIsSafe(ws, steps, i, f, p, run);
  }

  //////// History is never lost to a client

  /** Every step but somebody emptying this very bucket keeps the repository and every
      snapshot in it. */
  lemma StepKeepsHistory(w: World, step: Step, url: string)
    requires Enabled(w, step)
    requires !(step.Empty? && SameRepository(step.url, url))
    ensures Snapshots(w, url) <= Snapshots(Next(w, step), url)
    ensures Present(w, url) ==> Present(Next(w, step), url)
  {
  }

  lemma {:induction false} HistoryIsNeverLost(ws: seq<World>, steps: seq<Step>, i: nat, j: nat, url: string)
    requires Behaviour(ws, steps) && i <= j <= |steps|
    requires forall k :: i <= k < j ==> !(steps[k].Empty? && SameRepository(steps[k].url, url))
    ensures Snapshots(ws[i], url) <= Snapshots(ws[j], url)
    ensures Present(ws[i], url) ==> Present(ws[j], url)
    decreases j
  {
    if i < j {
      HistoryIsNeverLost(ws, steps, i, j - 1, url);
      StepAt(ws, steps, j - 1);
      StepKeepsHistory(ws[j - 1], steps[j - 1], url);
    }
  }

  //////// The creation window closes

  /** No row under this URL can permit a creation now or become able to. */
  ghost predicate Closed(rows: seq<Row>, url: string) {
    forall k :: 0 <= k < |rows| && SameRepository(rows[k].url, url) ==> Spent(rows[k])
  }

  ghost predicate Distinct(rows: seq<Row>) {
    forall i, j :: 0 <= i < j < |rows| ==> !SameRepository(rows[i].url, rows[j].url)
  }

  // This row cannot permit a creation, now or later.
  predicate Spent(row: Row) { row.adopted || row.snapshot || row.state.Active? || row.state.Retired? }

  /** The report marks one row; the others under the same URL are what the window may still
      stand open at. */
  ghost predicate OthersSpent(rows: seq<Row>, url: string) {
    forall k :: 0 <= k < |rows| && SameRepository(rows[k].url, url) && Find(rows, url) != Some(k) ==> Spent(rows[k])
  }

  /** Recording one finished run with a snapshot closes the window exactly when no other row
      under that URL could still be created under. */
  lemma ReportClosesIff(s: State, event: Event)
    requires event.finished && event.snapshot != ""
    ensures Closed(NoteRun(s, event).rows, event.url) <==> OthersSpent(s.rows, event.url)
  {
    var found := Find(s.rows, event.url);
    var after := NoteRun(s, event).rows;
    if Closed(after, event.url) {
      forall k | 0 <= k < |s.rows| && SameRepository(s.rows[k].url, event.url) && found != Some(k)
        ensures Spent(s.rows[k])
      {
        assert after[k] == s.rows[k];
      }
    }
  }

  lemma DistinctRowsAreSpent(rows: seq<Row>, url: string)
    requires Distinct(rows)
    ensures OthersSpent(rows, url)
  {
    var found := Find(rows, url);
    forall k | 0 <= k < |rows| && SameRepository(rows[k].url, url)
      ensures found == Some(k)
    {
      assert Meets(Named(url), k, rows[k]);
      assert found.Some? && SameRepository(rows[found.value].url, rows[k].url);
    }
  }

  lemma ClosedMeansNoPermit(s: State, url: string)
    requires Closed(s.rows, url) && Credentials(s).Some? && SameRepository(Credentials(s).value.url, url)
    ensures !Credentials(s).value.permit
  {
  }

  /** What can reopen a closed window is one thing only: offering the same URL again as
      empty storage. Not a cutover, not a retirement, and not pointing the active row at it. */
  lemma ServeKeepsClosedIff(s: State, request: Request, url: string)
    requires Closed(s.rows, url)
    ensures Closed(Serve(s, request).0.rows, url) <==> !Reoffers(request, url)
  {
    match request {
      case AcceptOffer(named) =>
        if Cutover(s, named).0 != s {
          assert Meets(InState(Offered), OfferedRow(s.rows).value, s.rows[OfferedRow(s.rows).value]);
        }
      case Offer(offered, adopted, now) => OfferKeepsClosedIff(s, offered, adopted, now, url);
      case _ =>
    }
  }

  lemma OfferKeepsClosedIff(s: State, offered: string, adopted: bool, now: Time, url: string)
    requires Closed(s.rows, url)
    ensures Closed(AdminOffer(s, offered, adopted, now).0.rows, url) <==>
            !(offered != "" && !adopted && SameRepository(offered, url))
  {
    var after := AdminOffer(s, offered, adopted, now).0.rows;
    if offered != "" {
      assert after[|s.rows|].url == offered && after[|s.rows|].state.Offered?;
    }
  }

  lemma StepKeepsClosed(w: World, step: Step, url: string)
    requires Enabled(w, step) && Closed(w.server.rows, url) && !Reopens(step, url)
    ensures Closed(Next(w, step).server.rows, url)
  {
    var request := RequestOf(w, step);
    if request.Some? {
      ServeKeepsClosedIff(w.server, request.value, url);
    }
  }

  lemma {:induction false} ClosedChain(ws: seq<World>, i: nat, j: nat, url: string)
    requires i <= j < |ws| && Closed(ws[i].server.rows, url)
    requires forall m, n :: i <= m < j && n == m + 1 && Closed(ws[m].server.rows, url) ==>
               Closed(ws[n].server.rows, url)
    ensures Closed(ws[j].server.rows, url)
    decreases j
  {
    if i < j {
      ClosedChain(ws, i, j - 1, url);
    }
  }

  lemma ClosedStaysClosed(ws: seq<World>, steps: seq<Step>, i: nat, j: nat, url: string)
    requires Behaviour(ws, steps) && i <= j <= |steps| && Closed(ws[i].server.rows, url)
    requires forall k :: i <= k < j ==> !Reopens(steps[k], url)
    ensures Closed(ws[j].server.rows, url)
  {
    forall m, n | i <= m < j && n == m + 1 && Closed(ws[m].server.rows, url)
      ensures Closed(ws[n].server.rows, url)
    {
      StepAt(ws, steps, m);
      StepKeepsClosed(ws[m], steps[m], url);
    }
    ClosedChain(ws, i, j, url);
  }

  ghost predicate NewTo(step: Step, rows: seq<Row>) {
    forall k :: 0 <= k < |rows| ==> !Introduces(step, rows[k].url)
  }

  /** Every offer and every move of the active row names a URL that no row has carried so
      far, under any spelling. */
  ghost predicate FreshNames(ws: seq<World>, steps: seq<Step>)
    requires Behaviour(ws, steps)
  {
    forall m, i :: 0 <= m <= i < |steps| ==> NewTo(steps[i], ws[m].server.rows)
  }

  lemma SameUrlsStayDistinct(before: seq<Row>, after: seq<Row>)
    requires Distinct(before) && |before| == |after|
    requires forall k :: 0 <= k < |before| ==> before[k].url == after[k].url
    ensures Distinct(after)
  {
  }

  lemma OfferKeepsDistinct(s: State, request: Request)
    requires Distinct(s.rows) && request.Offer?
    requires forall k :: 0 <= k < |s.rows| ==> !SameRepository(request.url, s.rows[k].url)
    ensures Distinct(Serve(s, request).0.rows)
  {
  }

  lemma PointAtKeepsDistinct(s: State, request: Request)
    requires Distinct(s.rows) && request.PointAt?
    requires forall k :: 0 <= k < |s.rows| ==> !SameRepository(request.url, s.rows[k].url)
    ensures Distinct(Serve(s, request).0.rows)
  {
  }

  lemma OtherRequestsKeepUrls(s: State, request: Request)
    requires !request.Offer? && !request.PointAt?
    ensures var after := Serve(s, request).0.rows;
            |after| == |s.rows| && forall k :: 0 <= k < |s.rows| ==> after[k].url == s.rows[k].url
  {
  }

  lemma ServeKeepsDistinct(s: State, request: Request)
    requires Distinct(s.rows)
    requires (request.Offer? || request.PointAt?) ==>
      forall k :: 0 <= k < |s.rows| ==> !SameRepository(request.url, s.rows[k].url)
    ensures Distinct(Serve(s, request).0.rows)
  {
    if request.Offer? {
      OfferKeepsDistinct(s, request);
    } else if request.PointAt? {
      PointAtKeepsDistinct(s, request);
    } else {
      OtherRequestsKeepUrls(s, request);
      SameUrlsStayDistinct(s.rows, Serve(s, request).0.rows);
    }
  }

  lemma StepKeepsDistinct(w: World, step: Step)
    requires Enabled(w, step) && Distinct(w.server.rows) && NewTo(step, w.server.rows)
    ensures Distinct(Next(w, step).server.rows)
  {
    var request := RequestOf(w, step);
    var rows := w.server.rows;
    if request.Some? {
      if request.value.Offer? || request.value.PointAt? {
        forall k | 0 <= k < |rows|
          ensures !SameRepository(request.value.url, rows[k].url)
        {
          assert !Introduces(step, rows[k].url);
        }
      }
      ServeKeepsDistinct(w.server, request.value);
    }
  }

  lemma {:induction false} NamesStayDistinct(ws: seq<World>, steps: seq<Step>, i: nat)
    requires Behaviour(ws, steps) && FreshNames(ws, steps) && i <= |steps|
    ensures Distinct(ws[i].server.rows)
  {
    if i > 0 {
      NamesStayDistinct(ws, steps, i - 1);
      StepAt(ws, steps, i - 1);
      assert NewTo(steps[i - 1], ws[i - 1].server.rows);
      StepKeepsDistinct(ws[i - 1], steps[i - 1]);
    }
  }

  // The URL a run carries was some row's, so it is never introduced again.
  lemma CarriedUrlsAreNotReused(ws: seq<World>, steps: seq<Step>, i: nat, j: nat, run: nat)
    requires Behaviour(ws, steps) && FreshNames(ws, steps) && i <= j < |steps|
    requires run in ws[i].runs
    ensures !Introduces(steps[j], ws[i].runs[run].url)
  {
    RunsAreFetched(ws, steps, i, run);
    var f :| FetchedAt(ws, steps, f, i, run);
    var cur := Current(ws[f].server.rows).value;
    assert NewTo(steps[j], ws[f].server.rows);
    assert !Introduces(steps[j], ws[f].server.rows[cur].url);
  }

  /** Once a finished run with a snapshot has been reported, no later fetch that names its
      bucket carries the permission, if at that moment no other row of the same URL stood open
      and nobody has since offered the URL again as empty storage. */
  lemma WindowClosesForGood(ws: seq<World>, steps: seq<Step>, i: nat, run: nat, j: nat, grant: Grant)
    requires Behaviour(ws, steps) && i < j <= |steps|
    requires ReportsAt(ws, steps, i, run) && ws[i].runs[run].phase.event.snapshot != ""
    requires OthersSpent(ws[i].server.rows, ws[i].runs[run].url)
    requires forall k :: i < k < j ==> !Reopens(steps[k], ws[i].runs[run].url)
    requires Credentials(ws[j].server) == Some(grant) && SameRepository(grant.url, ws[i].runs[run].url)
    ensures !grant.permit
  {
    var event := ws[i].runs[run].phase.event;
    EventsAreHonest(ws, steps, i, run);
    StepAt(ws, steps, i);
    ReportClosesIff(ws[i].server, event);
    ClosedStaysClosed(ws, steps, i + 1, j, event.url);
    ClosedMeansNoPermit(ws[j].server, event.url);
  }

  /** Both conditions come for nothing when an administrator never names a URL twice. */
  lemma FreshNamesCloseEveryWindow(ws: seq<World>, steps: seq<Step>, i: nat, run: nat, j: nat)
    requires Behaviour(ws, steps) && FreshNames(ws, steps) && i < j <= |steps|
    requires run in ws[i].runs
    ensures OthersSpent(ws[i].server.rows, ws[i].runs[run].url)
    ensures forall k :: i < k < j ==> !Reopens(steps[k], ws[i].runs[run].url)
  {
    NamesStayDistinct(ws, steps, i);
    DistinctRowsAreSpent(ws[i].server.rows, ws[i].runs[run].url);
    forall k | i < k < j
      ensures !Reopens(steps[k], ws[i].runs[run].url)
    {
      CarriedUrlsAreNotReused(ws, steps, i, k, run);
    }
  }

  // One offer posted twice, accepted once, and a verified run reported.
  function OfferedTwice(): State {
    State([Row("a", Active, 0, false, None, None, false, false),
           Row("b", Offered, 1, false, Some(1), None, true, true),
           Row("b", CuttingOver, 2, false, Some(2), None, false, false)], false)
  }

  const POSTED_TWICE :=
    [Offer("b", false, 1), Offer("b", false, 2), AcceptOffer("b"), Land(Event(true, "b", "s", true))]

  function PostedTwice(): State {
    State([Row("a", Active, 0, false, None, None, false, false),
           Row("b", Offered, 1, false, Some(1), None, false, false),
           Row("b", Offered, 2, false, Some(2), None, false, false)], false)
  }

  function AcceptedOnce(): State {
    State([Row("a", Active, 0, false, None, None, false, false),
           Row("b", Offered, 1, false, Some(1), None, false, false),
           Row("b", CuttingOver, 2, false, Some(2), None, false, false)], false)
  }

  lemma PostingsLand()
    ensures Serve(Serve(Start("a", false, 0), Offer("b", false, 1)).0, Offer("b", false, 2)).0 == PostedTwice()
  {
  }

  lemma AcceptanceTakesTheNewest()
    ensures Serve(PostedTwice(), AcceptOffer("b")).0 == AcceptedOnce()
  {
    CanonOfLetters();
    LastIs(PostedTwice().rows, InState(Active), 0);
    LastIs(PostedTwice().rows, InState(Offered), 2);
  }

  lemma ReportMarksTheOldest()
    ensures Serve(AcceptedOnce(), Land(Event(true, "b", "s", true))).0 == OfferedTwice()
  {
    CanonOfLetters();
    FirstIs(AcceptedOnce().rows, Named("b"), 1);
  }

  /** Without the condition the window stays open: the acceptance takes the newest row of the
      URL, the report marks the oldest, and in rows that are otherwise good the machine is still
      permitted to create where its verified backup is. */
  lemma PostedTwiceWitness()
    ensures ServeAll(Start("a", false, 0), POSTED_TWICE) == OfferedTwice()
    ensures RowInv(OfferedTwice().rows)
    ensures Credentials(OfferedTwice()) == Some(Grant("b", CuttingOver, true))
    ensures !Closed(OfferedTwice().rows, "b")
  {
    PostingsLand();
    AcceptanceTakesTheNewest();
    ReportMarksTheOldest();
    FourRequests(Start("a", false, 0), POSTED_TWICE);
    FirstIs(OfferedTwice().rows, InState(CuttingOver), 2);
    assert OfferedTwice().rows[0].state.Active?;
  }

  lemma FourRequests(s: State, requests: seq<Request>)
    requires |requests| == 4
    ensures ServeAll(s, requests) ==
            Serve(Serve(Serve(Serve(s, requests[0]).0, requests[1]).0, requests[2]).0, requests[3]).0
  {
    var s1 := Serve(s, requests[0]).0;
    var s2 := Serve(s1, requests[1]).0;
    var s3 := Serve(s2, requests[2]).0;
    assert requests[1..][1..] == requests[2..] && requests[2..][1..] == requests[3..];
    assert ServeAll(s3, requests[3..]) == ServeAll(Serve(s3, requests[3]).0, []);
    assert ServeAll(s2, requests[2..]) == ServeAll(s3, requests[3..]);
    assert ServeAll(s1, requests[1..]) == ServeAll(s2, requests[2..]);
  }

  //////// An emptied bucket stays empty

  /** No run still holds a permission for this URL that it has not used up. */
  ghost predicate NoOpenPermit(w: World, url: string) {
    forall run :: run in w.runs && SameRepository(w.runs[run].url, url) && w.runs[run].permit ==>
      !w.runs[run].phase.Holding? && !w.runs[run].phase.SawNothing?
  }

  lemma StepOpensNoPermit(w: World, step: Step, url: string)
    requires Enabled(w, step) && Closed(w.server.rows, url) && NoOpenPermit(w, url)
    ensures NoOpenPermit(Next(w, step), url)
    ensures !Creates(w, step, url) || !w.runs[step.run].permit
  {
    if step.Fetch? && Credentials(w.server).Some? && SameRepository(Credentials(w.server).value.url, url) {
      ClosedMeansNoPermit(w.server, url);
    }
  }

  // Only a permitted run ever probes or creates.
  lemma {:induction false} CreatorsArePermitted(ws: seq<World>, steps: seq<Step>, i: nat, run: nat)
    requires Behaviour(ws, steps) && i <= |steps| && InPhase(ws[i], run, SawNothing)
    ensures ws[i].runs[run].permit
  {
    CreatorsProbed(ws, steps, i, run);
    var p :| SawNothingAt(ws, steps, p, i, run);
    RunsPersist(ws, steps, p, i, run);
  }

  lemma {:induction false} NoPermitChain(ws: seq<World>, i: nat, j: nat, url: string)
    requires i <= j < |ws| && NoOpenPermit(ws[i], url)
    requires forall m, n :: i <= m < j && n == m + 1 && NoOpenPermit(ws[m], url) ==> NoOpenPermit(ws[n], url)
    ensures NoOpenPermit(ws[j], url)
    decreases j
  {
    if i < j {
      NoPermitChain(ws, i, j - 1, url);
    }
  }

  lemma PermitsStayUsedUp(ws: seq<World>, steps: seq<Step>, i: nat, j: nat, url: string)
    requires Behaviour(ws, steps) && i <= j <= |steps|
    requires Closed(ws[i].server.rows, url) && NoOpenPermit(ws[i], url)
    requires forall k :: i <= k < j ==> !Reopens(steps[k], url)
    ensures NoOpenPermit(ws[j], url)
  {
    forall m, n | i <= m < j && n == m + 1 && NoOpenPermit(ws[m], url)
      ensures NoOpenPermit(ws[n], url)
    {
      ClosedStaysClosed(ws, steps, i, m, url);
      StepAt(ws, steps, m);
      StepOpensNoPermit(ws[m], steps[m], url);
    }
    NoPermitChain(ws, i, j, url);
  }

  /** From a state in which the window is closed and no run holds an unused permission, no
      client ever creates a repository at this URL again, whatever happens to the bucket. */
  lemma NeverRecreated(ws: seq<World>, steps: seq<Step>, i: nat, j: nat, url: string)
    requires Behaviour(ws, steps) && i <= j < |steps|
    requires Closed(ws[i].server.rows, url) && NoOpenPermit(ws[i], url)
    requires forall k :: i <= k < j ==> !Reopens(steps[k], url)
    ensures !Creates(ws[j], steps[j], url)
  {
    PermitsStayUsedUp(ws, steps, i, j, url);
    StepAt(ws, steps, j);
    if Creates(ws[j], steps[j], url) {
      CreatorsArePermitted(ws, steps, j, steps[j].run);
    }
  }

  lemma StepLeavesEmpty(w: World, step: Step, url: string)
    requires Enabled(w, step) && !Present(w, url) && !Creates(w, step, url)
    requires !(step.Appear? && SameRepository(step.url, url))
    ensures !Present(Next(w, step), url)
  {
  }

  lemma {:induction false} EmptyChain(ws: seq<World>, i: nat, j: nat, url: string)
    requires i <= j < |ws| && !Present(ws[i], url)
    requires forall m, n :: i <= m < j && n == m + 1 && !Present(ws[m], url) ==> !Present(ws[n], url)
    ensures !Present(ws[j], url)
    decreases j
  {
    if i < j {
      EmptyChain(ws, i, j - 1, url);
    }
  }

  /** So a bucket emptied after that stays empty until somebody other than a client puts a
      repository there: the run that finds nothing fails, loudly. */
  lemma EmptiedStaysEmpty(ws: seq<World>, steps: seq<Step>, i: nat, j: nat, url: string)
    requires Behaviour(ws, steps) && i <= j <= |steps|
    requires Closed(ws[i].server.rows, url) && NoOpenPermit(ws[i], url) && !Present(ws[i], url)
    requires forall k :: i <= k < j ==> !Reopens(steps[k], url)
    requires forall k :: i <= k < j ==> !(steps[k].Appear? && SameRepository(steps[k].url, url))
    ensures !Present(ws[j], url)
  {
    forall m, n | i <= m < j && n == m + 1 && !Present(ws[m], url)
      ensures !Present(ws[n], url)
    {
      NeverRecreated(ws, steps, i, m, url);
      StepAt(ws, steps, m);
      StepLeavesEmpty(ws[m], steps[m], url);
    }
    EmptyChain(ws, i, j, url);
  }

  /** The condition is needed: whatever the server has since recorded, a run that fetched its
      permission earlier and has not used it creates a repository in the emptied bucket. */
  lemma OpenPermitRecreates(w: World, run: nat)
    requires run in w.runs && w.runs[run].permit && !Present(w, w.runs[run].url)
    requires w.runs[run].phase.Holding? || w.runs[run].phase.SawNothing?
    ensures !NoOpenPermit(w, w.runs[run].url)
    ensures var looked := if w.runs[run].phase.Holding? && Enabled(w, Probe(run, Absent))
                          then Next(w, Probe(run, Absent)) else w;
            && Enabled(looked, Create(run, Created))
            && Creates(looked, Create(run, Created), w.runs[run].url)
            && looked.server == w.server
            && Present(Next(looked, Create(run, Created)), w.runs[run].url)
  {
  }

  //////// Letting go of the old bucket

  /** Where a row's verified flag can come from: it was set under the same URL before, or
      this request is a finished, verified event with a snapshot for that URL. */
  lemma VerifiedComesFromAnEvent(s: State, request: Request, k: nat)
    requires k < |Serve(s, request).0.rows| && Serve(s, request).0.rows[k].verified
    ensures var row := Serve(s, request).0.rows[k];
            || (k < |s.rows| && s.rows[k].verified && s.rows[k].url == row.url)
            || (request.Land? && request.event.finished && request.event.snapshot != ""
                && request.event.verified && SameRepository(row.url, request.event.url))
  {
  }

  // The flag is set here, under this URL.
  predicate VerifiedAs(rows: seq<Row>, k: nat, url: string) {
    k < |rows| && rows[k].verified && rows[k].url == url
  }

  /** At `r` run `run` reported a verified snapshot of this bucket, having read it back there at
      `v`; that report set this row's flag, and it has stayed set. */
  ghost predicate Evidence(
    ws: seq<World>, steps: seq<Step>, v: int, r: int, i: int, run: nat, k: nat, url: string)
    requires Behaviour(ws, steps) && 0 <= i <= |steps|
  {
    && 0 <= v < r < i && steps[r] == Report(run) && steps[v] == Verify(run, true)
    && run in ws[v].runs && run in ws[r].runs && ws[r].runs[run].phase.Ended?
    && ws[v].runs[run].url == ws[r].runs[run].phase.event.url
    && SameRepository(url, ws[v].runs[run].url)
    && ws[r].runs[run].phase.event.snapshot in Snapshots(ws[v], url)
    && !VerifiedAs(ws[r].server.rows, k, url)
    && forall m :: r < m <= i ==> VerifiedAs(ws[m].server.rows, k, url)
  }

  lemma StepVerifies(w: World, step: Step, k: nat)
    requires Enabled(w, step) && k < |Next(w, step).server.rows| && Next(w, step).server.rows[k].verified
    ensures var url := Next(w, step).server.rows[k].url;
            || (k < |w.server.rows| && w.server.rows[k].verified && w.server.rows[k].url == url)
            || (step.Report? && w.runs[step.run].phase.event.verified
                && SameRepository(url, w.runs[step.run].phase.event.url))
  {
    var request := RequestOf(w, step);
    if request.Some? {
      VerifiedComesFromAnEvent(w.server, request.value, k);
    }
  }

  lemma ReportIsEvidence(ws: seq<World>, steps: seq<Step>, r: nat, i: nat, run: nat, k: nat, url: string)
    requires Behaviour(ws, steps) && r < i <= |steps| && ReportsAt(ws, steps, r, run)
    requires ws[r].runs[run].phase.event.verified
    requires SameRepository(url, ws[r].runs[run].phase.event.url)
    requires !VerifiedAs(ws[r].server.rows, k, url)
    requires forall m :: r < m <= i ==> VerifiedAs(ws[m].server.rows, k, url)
    ensures exists v :: Evidence(ws, steps, v, r, i, run, k, url)
  {
    EventsAreHonest(ws, steps, r, run);
    var v :| ReadBackAt(ws, steps, v, r, run, ws[r].runs[run].phase.event);
    assert Evidence(ws, steps, v, r, i, run, k, url);
  }

  // If it is set now and was not at first, there is a step that set it for good.
  lemma {:induction false} FlagIsSetSomewhere(ws: seq<World>, i: nat, k: nat, url: string) returns (r: nat)
    requires i < |ws| && VerifiedAs(ws[i].server.rows, k, url) && !VerifiedAs(ws[0].server.rows, k, url)
    ensures r < i && !VerifiedAs(ws[r].server.rows, k, url)
    ensures forall m :: r < m <= i ==> VerifiedAs(ws[m].server.rows, k, url)
  {
    if VerifiedAs(ws[i - 1].server.rows, k, url) {
      r := FlagIsSetSomewhere(ws, i - 1, k, url);
    } else {
      r := i - 1;
    }
  }

  lemma VerifiedRowsHaveEvidence(ws: seq<World>, steps: seq<Step>, i: nat, k: nat, url: string)
    requires Behaviour(ws, steps) && i <= |steps| && VerifiedAs(ws[i].server.rows, k, url)
    ensures exists v, r, run :: Evidence(ws, steps, v, r, i, run, k, url)
  {
    var r := FlagIsSetSomewhere(ws, i, k, url);
    StepAt(ws, steps, r);
    assert VerifiedAs(ws[r + 1].server.rows, k, url);
    StepVerifies(ws[r], steps[r], k);
    ReportIsEvidence(ws, steps, r, i, steps[r].run, k, url);
  }

  /** No acceptance in this run of the system was stale. */
  ghost predicate NoStaleStep(ws: seq<World>, steps: seq<Step>)
    requires Behaviour(ws, steps)
  {
    forall i :: 0 <= i < |steps| && steps[i].Other? ==> !StaleAccept(ws[i].server, steps[i].request)
  }

  lemma {:induction false} RowsAreGood(ws: seq<World>, steps: seq<Step>, i: nat)
    requires Behaviour(ws, steps) && NoStaleStep(ws, steps) && i <= |steps|
    ensures RowInv(ws[i].server.rows)
  {
    if i == 0 {
      assert ws[0].server.rows[0].state.Active?;
    } else {
      RowsAreGood(ws, steps, i - 1);
      StepAt(ws, steps, i - 1);
      var request := RequestOf(ws[i - 1], steps[i - 1]);
      if request.Some? {
        KeepsRowsIff(ws[i - 1].server, request.value);
      }
    }
  }

  // The one request that dates a row, and what it found.
  lemma OnlyReleasesDate(s: State, request: Request, k: nat)
    requires k < |s.rows| && s.rows[k].releaseAskedAt.None?
    requires Serve(s, request).0.rows[k].releaseAskedAt.Some?
    ensures request.ReleaseOld? && Current(s.rows).Some?
    ensures PreviousTo(s.rows, Current(s.rows).value) == Some(k)
    ensures var onto := s.rows[Current(s.rows).value];
            onto.state.CuttingOver? && onto.verified && SameRepository(onto.url, request.named)
  {
  }

  /** In every run of the system, stale acceptances included: a bucket gets a release date only
      as the row a cutting-over successor leaves behind, at the request of a run that was sent
      to that successor, and after some run reported a verified snapshot it had read back out
      of the successor's bucket, by which very report the successor's row was marked verified.
      In good rows the bucket let go of is the active one. */
  lemma ReleaseNeedsEvidence(ws: seq<World>, steps: seq<Step>, i: nat, k: nat)
    requires Behaviour(ws, steps) && i < |steps|
    requires k < |ws[i].server.rows| && ws[i].server.rows[k].releaseAskedAt.None?
    requires k < |ws[i + 1].server.rows| && ws[i + 1].server.rows[k].releaseAskedAt.Some?
    ensures var rows := ws[i].server.rows;
            && Current(rows).Some? && PreviousTo(rows, Current(rows).value) == Some(k)
            && (rows[k].state.Active? || rows[k].state.CuttingOver?)
            && (RowInv(rows) ==> rows[k].state.Active?)
            && var onto := rows[Current(rows).value];
            && onto.state.CuttingOver?
            && (exists v, r, run :: Evidence(ws, steps, v, r, i, run, Current(rows).value, onto.url))
            && steps[i].AskRelease? && steps[i].run in ws[i].runs
            && SameRepository(onto.url, ws[i].runs[steps[i].run].url)
  {
    var rows := ws[i].server.rows;
    StepAt(ws, steps, i);
    var request := RequestOf(ws[i], steps[i]);
    OnlyReleasesDate(ws[i].server, request.value, k);
    var onto := Current(rows).value;
    assert Meets(LeftBehind(onto), k, rows[k]);
    VerifiedRowsHaveEvidence(ws, steps, i, onto, rows[onto].url);
    if RowInv(rows) {
      var a :| 0 <= a < |rows| && rows[a].state.Active?;
      GoodRowsSelect(rows, a);
    }
  }

  lemma StepIsForward(w: World, step: Step)
    requires Enabled(w, step)
    ensures Forward(w.server.rows, Next(w, step).server.rows)
  {
    var request := RequestOf(w, step);
    if request.Some? {
      ServeIsForward(w.server, request.value);
    }
  }

  lemma {:induction false} ForwardChain(ws: seq<World>, i: nat, j: nat, k: nat)
    requires i <= j < |ws|
    requires forall m, n :: i <= m < j && n == m + 1 ==> Forward(ws[m].server.rows, ws[n].server.rows)
    requires k < |ws[i].server.rows| && ws[i].server.rows[k].releaseAskedAt.Some?
    ensures k < |ws[j].server.rows|
    ensures ws[j].server.rows[k].releaseAskedAt == ws[i].server.rows[k].releaseAskedAt
    decreases j
  {
    if i < j {
      ForwardChain(ws, i, j - 1, k);
    }
  }

  /** The date, once set, never changes, stale acceptances or not. */
  lemma ReleaseDateIsKept(ws: seq<World>, steps: seq<Step>, i: nat, j: nat, k: nat)
    requires Behaviour(ws, steps) && i <= j <= |steps|
    requires k < |ws[i].server.rows| && ws[i].server.rows[k].releaseAskedAt.Some?
    ensures k < |ws[j].server.rows|
    ensures ws[j].server.rows[k].releaseAskedAt == ws[i].server.rows[k].releaseAskedAt
  {
    forall m, n | i <= m < j && n == m + 1
      ensures Forward(ws[m].server.rows, ws[n].server.rows)
    {
      StepAt(ws, steps, m);
      StepIsForward(ws[m], steps[m]);
    }
    ForwardChain(ws, i, j, k);
  }

  //////// Granted until it is retired

  // Still being filled, and verified.
  ghost predicate FilledAndVerified(w: World, k: nat, url: string) {
    Fills(w.server, k, url) && w.server.rows[k].verified
  }

  /** Neither the retirement nor a stale acceptance. */
  predicate Undisturbing(w: World, step: Step) {
    step.Other? ==> !step.request.Retire? && !StaleAccept(w.server, step.request)
  }

  lemma StaysVerified(w: World, step: Step, k: nat, url: string)
    requires Enabled(w, step) && Undisturbing(w, step) && FilledAndVerified(w, k, url)
    ensures FilledAndVerified(Next(w, step), k, url)
  {
    var request := RequestOf(w, step);
    if request.Some? {
      FillingIsToldOfReports(w.server, k, url, request.value);
    }
  }

  lemma ReportVerifies(w: World, step: Step, k: nat, url: string)
    requires Enabled(w, step) && step.Report? && Fills(w.server, k, url)
    requires Tells(w.runs[step.run].phase.event, url) && w.runs[step.run].phase.event.verified
    ensures FilledAndVerified(Next(w, step), k, url)
  {
    FillingIsToldOfReports(w.server, k, url, Land(w.runs[step.run].phase.event));
  }

  lemma {:induction false} VerifiedChain(ws: seq<World>, i: nat, j: nat, k: nat, url: string)
    requires i <= j < |ws| && FilledAndVerified(ws[i], k, url)
    requires forall m, n :: i <= m < j && n == m + 1 && FilledAndVerified(ws[m], k, url) ==>
               FilledAndVerified(ws[n], k, url)
    ensures FilledAndVerified(ws[j], k, url)
    decreases j
  {
    if i < j {
      VerifiedChain(ws, i, j - 1, k, url);
    }
  }

  /** Once a run has reported a verified snapshot of the bucket being filled, every request to let
      the old one go that names it is granted until it is retired, whatever is reported later. */
  lemma GrantedUntilRetired(
    ws: seq<World>, steps: seq<Step>, r: nat, run: nat, j: nat, k: nat, url: string, named: string, now: Time)
    requires Behaviour(ws, steps) && r < j <= |steps| && ReportsAt(ws, steps, r, run)
    requires Fills(ws[r].server, k, url) && SameRepository(url, named)
    requires var event := ws[r].runs[run].phase.event; Tells(event, url) && event.verified
    requires forall m :: r < m < j ==> Undisturbing(ws[m], steps[m])
    ensures OldBucket(ws[j].server, named, now).1.LetGo?
  {
    StepAt(ws, steps, r);
    ReportVerifies(ws[r], steps[r], k, url);
    forall m, n | r < m < j && n == m + 1 && FilledAndVerified(ws[m], k, url)
      ensures FilledAndVerified(ws[n], k, url)
    {
      StepAt(ws, steps, m);
      StaysVerified(ws[m], steps[m], k, url);
    }
    VerifiedChain(ws, r + 1, j, k, url);
    VerifiedIsGranted(ws[j].server, k, url, named, now);
  }

  lemma VerifiedIsGranted(s: State, k: nat, url: string, named: string, now: Time)
    requires Fills(s, k, url) && s.rows[k].verified && SameRepository(url, named)
    ensures OldBucket(s, named, now).1.LetGo?
  {
    assert ServeAll(s, []) == s && NoStaleAccept(s, []);
    LetGoOnceVerified(s, k, url, [], named, now);
  }
}
