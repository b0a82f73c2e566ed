/** The first run into a new bucket when nothing goes wrong: every step of it may be taken in turn,
    and at the end the bucket holds the run's snapshot, the server knows it was read back, and the
    old bucket is let go. */
module RotationFirstRun {
  import opened Wrappers
  import opened Text
  import opened Rotation
  import opened RotationRows
  import opened RotationAnswers
  import opened RotationProtocol

  /** The world with this run at this point of its work. */
  function With(w: World, run: nat, r: Run): World { w.(runs := w.runs[run := r]) }

  /** And with these snapshots, and no others, in the bucket of this URL. */
  function Holds(w: World, url: string, snapshots: set<string>): World {
    w.(buckets := w.buckets[Canon(url) := snapshots])
  }

  /** A fetch puts the answer of that moment in hand, or nothing if there is nowhere to send the
      machine, and changes nothing else. */
  lemma FetchIs(w: World, run: nat)
    requires run !in w.runs
    ensures Enabled(w, Fetch(run))
    ensures Credentials(w.server).None? ==> Next(w, Fetch(run)) == w
    ensures Credentials(w.server).Some? ==>
              var grant := Credentials(w.server).value;
              Next(w, Fetch(run)) == With(w, run, Run(grant.url, grant.permit, grant.state == CuttingOver, Holding))
  {
  }

  /** A permitted run looks first: it goes on when the repository is there, may create when the look
      found none, and gives up when it learned nothing. One that is not permitted does not look. */
  lemma LookIs(w: World, run: nat, url: string, cuttingOver: bool)
    ensures var permitted := With(w, run, Run(url, true, cuttingOver, Holding));
            && (Present(w, url) ==> Enabled(permitted, Probe(run, Opened)) && !Enabled(permitted, Probe(run, Absent)))
            && (!Present(w, url) ==> Enabled(permitted, Probe(run, Absent)) && !Enabled(permitted, Probe(run, Opened)))
            && Enabled(permitted, Probe(run, Unreachable)) && !Enabled(permitted, OpenUnasked(run))
            && (forall look :: Enabled(permitted, Probe(run, look)) ==>
                  Next(permitted, Probe(run, look)) ==
                  With(w, run, Run(url, true, cuttingOver,
                                   if look == Opened then Ready else if look == Absent then SawNothing else GaveUp)))
    ensures var other := With(w, run, Run(url, false, cuttingOver, Holding));
            && Enabled(other, OpenUnasked(run)) && (forall look :: !Enabled(other, Probe(run, look)))
            && Next(other, OpenUnasked(run)) == With(w, run, Run(url, false, cuttingOver, Ready))
  {
  }

  /** Creating makes an empty repository where there was none, even when the answer is lost; a run
      that heard of it looks again, and any other gives up. */
  lemma CreateIs(w: World, run: nat, url: string, permit: bool, cuttingOver: bool, init: Init)
    ensures var looked := With(w, run, Run(url, permit, cuttingOver, SawNothing));
            && (Enabled(looked, Create(run, init)) <==> init.NotCreated? || !Present(w, url))
            && (Enabled(looked, Create(run, init)) ==>
                  Next(looked, Create(run, init)) ==
                  With(if init.NotCreated? then w else Holds(w, url, {}), run,
                       Run(url, permit, cuttingOver, if init.Created? then Made else GaveUp)))
  {
  }

  lemma ReadBackIs(w: World, run: nat, url: string, permit: bool, cuttingOver: bool)
    requires Present(w, url)
    ensures var made := With(w, run, Run(url, permit, cuttingOver, Made));
            && Enabled(made, ReadBack(run, Opened))
            && Next(made, ReadBack(run, Opened)) == With(w, run, Run(url, permit, cuttingOver, Ready))
  {
  }

  /** A backup adds its snapshot to what is there, or ends without one. */
  lemma WriteIs(w: World, run: nat, url: string, permit: bool, cuttingOver: bool, id: string)
    requires Present(w, url) && id != ""
    ensures var ready := With(w, run, Run(url, permit, cuttingOver, Ready));
            && Enabled(ready, Write(run, Some(id)))
            && Next(ready, Write(run, Some(id))) ==
               With(Holds(w, url, Snapshots(w, url) + {id}), run, Run(url, permit, cuttingOver, Wrote(id)))
            && Enabled(ready, Write(run, None))
            && Next(ready, Write(run, None)) ==
               With(w, run, Run(url, permit, cuttingOver, Ended(Event(true, url, "", false))))
  {
  }

  /** Only a snapshot that is there can be read back, and the report says whether it was. */
  lemma VerifyIs(w: World, run: nat, url: string, permit: bool, cuttingOver: bool, id: string, ok: bool)
    ensures var wrote := With(w, run, Run(url, permit, cuttingOver, Wrote(id)));
            && (Enabled(wrote, Verify(run, ok)) <==> (ok ==> id in Snapshots(w, url)))
            && (Enabled(wrote, Verify(run, ok)) ==>
                  Next(wrote, Verify(run, ok)) ==
                  With(w, run, Run(url, permit, cuttingOver, Ended(Event(true, url, id, ok)))))
  {
  }

  /** The report is made of every run that ended; a release is asked for only by one that was sent
      to a bucket being filled and read its snapshot back. */
  lemma ReportIs(w: World, run: nat, url: string, permit: bool, cuttingOver: bool, event: Event, now: Time)
    ensures var ended := With(w, run, Run(url, permit, cuttingOver, Ended(event)));
            && Enabled(ended, Report(run))
            && Next(ended, Report(run)) == ended.(server := NoteRun(w.server, event))
            && (Enabled(ended, AskRelease(run, now)) <==> cuttingOver && event.snapshot != "" && event.verified)
            && (Enabled(ended, AskRelease(run, now)) ==>
                  Next(ended, AskRelease(run, now)) == ended.(server := OldBucket(w.server, url, now).0))
  {
  }

  /** Anything may happen to a bucket from outside at any time: it may be emptied, and a repository
      with any snapshots may turn up in it; no other bucket, run or row is touched. */
  lemma OutsideIs(w: World, url: string, snapshots: set<string>)
    ensures Enabled(w, Empty(url)) && Enabled(w, Appear(url, snapshots))
    ensures var emptied := Next(w, Empty(url));
            && !Present(emptied, url) && emptied.server == w.server && emptied.runs == w.runs
            && forall other :: !SameRepository(other, url) ==> Snapshots(emptied, other) == Snapshots(w, other)
    ensures Next(w, Appear(url, snapshots)) == Holds(w, url, Snapshots(w, url) + snapshots)
  {
  }

  /** From the acceptance of an empty bucket: the run is permitted, finds nothing, creates, backs up,
      reads back and reports, and its request to let the old bucket go is granted. */
  lemma FirstRunGoesThrough(w: World, run: nat, k: nat, a: nat, url: string, id: string, now: Time)
    requires Fills(w.server, k, url) && ActiveIs(w.server, a) && w.server.rows[a].releaseAskedAt.None?
    requires !w.server.rows[k].adopted && !w.server.rows[k].snapshot
    requires run !in w.runs && !Present(w, url) && id != ""
    ensures Enabled(w, Fetch(run))
    ensures Next(w, Fetch(run)) == With(w, run, Run(url, true, true, Holding))
    ensures var filled := Holds(w, url, {id});
            var ended := With(filled, run, Run(url, true, true, Ended(Event(true, url, id, true))));
            && Reaches(With(w, run, Run(url, true, true, Holding)), run, id, ended)
            && Enabled(ended, Report(run))
            && var reported := Next(ended, Report(run));
               && reported == ended.(server := NoteRun(w.server, Event(true, url, id, true)))
               && Enabled(reported, AskRelease(run, now))
               && OldBucket(reported.server, url, now).1 == LetGo(w.server.rows[a].url, now)
  {
    SentTo(w.server, a);
    assert FillingIs(w.server, k);
    FetchIs(w, run);
    WorkGoesThrough(w, run, url, id);
    var event := Event(true, url, id, true);
    var filled := Holds(w, url, {id});
    ReportIs(filled, run, url, true, true, event, now);
    ReportIs(filled.(server := NoteRun(w.server, event)), run, url, true, true, event, now);
    FillingIsToldOfReports(w.server, k, url, Land(event));
    ReportMarksFirst(w.server, event, k);
    assert a != k;
    LetGoIff(NoteRun(w.server, event), url, now, a);
    assert FillingIs(NoteRun(w.server, event), k);
  }

  // Looking, creating, looking again, writing and reading back lead from the one world to the other.
  predicate Reaches(w: World, run: nat, id: string, ended: World) {
    && Enabled(w, Probe(run, Absent))
    && var looked := Next(w, Probe(run, Absent));
    && Enabled(looked, Create(run, Created))
    && var made := Next(looked, Create(run, Created));
    && Enabled(made, ReadBack(run, Opened))
    && var ready := Next(made, ReadBack(run, Opened));
    && Enabled(ready, Write(run, Some(id)))
    && var wrote := Next(ready, Write(run, Some(id)));
    && Enabled(wrote, Verify(run, true)) && Next(wrote, Verify(run, true)) == ended
  }

  lemma WorkGoesThrough(w: World, run: nat, url: string, id: string)
    requires !Present(w, url) && id != ""
    ensures Reaches(With(w, run, Run(url, true, true, Holding)), run, id,
                    With(Holds(w, url, {id}), run, Run(url, true, true, Ended(Event(true, url, id, true)))))
  {
    var created := Holds(w, url, {});
    LookIs(w, run, url, true);
    CreateIs(w, run, url, true, true, Created);
    ReadBackIs(created, run, url, true, true);
    WriteIs(created, run, url, true, true, id);
    assert Holds(created, url, Snapshots(created, url) + {id}) == Holds(w, url, {id}) by {
      assert {} + {id} == {id};
      assert w.buckets[Canon(url) := {}][Canon(url) := {id}] == w.buckets[Canon(url) := {id}];
    }
    VerifyIs(Holds(w, url, {id}), run, url, true, true, id, true);
  }
}
