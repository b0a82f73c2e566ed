/** What reporting is worth over every history: nothing is marked before it was answered, the
    dashboard ends up with each run once, and a flush that gets through shortens the queue. */
module ReportingProofs {
  import opened Wrappers
  import opened Text
  import opened Reporting

  //////// Exactly once

  ghost predicate UniqueIds(runs: seq<Run>) {
    forall j, k :: 0 <= j < k < |runs| && runs[j].uuid != "" ==> runs[j].uuid != runs[k].uuid
  }

  ghost predicate UniqueEvents(dashboard: seq<Event>) {
    forall i, j :: 0 <= i < j < |dashboard| ==> dashboard[i].uuid != dashboard[j].uuid
  }

  // This dashboard row is that run's.
  predicate Tells(s: State, i: int, k: int) {
    0 <= i < |s.dashboard| && 0 <= k < |s.runs| && Describes(s.dashboard[i], s.runs[k])
  }

  ghost predicate Told(s: State, i: int) { exists k :: Tells(s, i, k) }

  ghost predicate Sound(s: State) {
    && UniqueIds(s.runs) && UniqueEvents(s.dashboard)
    && (forall i :: 0 <= i < |s.dashboard| ==> s.dashboard[i].Identified() && Told(s, i))
    && (forall k :: k in s.accepted ==>
          k < |s.runs| && s.runs[k].detail.Some? && s.runs[k].uuid != "" && Has(s.dashboard, s.runs[k].uuid))
    && (forall k :: 0 <= k < |s.runs| && s.runs[k].reported ==> k in s.accepted || k in s.rejected)
  }

  const EMPTY := State([], [], {}, {})

  // Changing runs without unfinishing any keeps what the dashboard tells.
  lemma RunsChange(s: State, after: State)
    requires Sound(s) && Refines(s, after) && after.dashboard == s.dashboard && after.accepted == s.accepted
    requires UniqueIds(after.runs)
    requires forall k :: 0 <= k < |after.runs| && after.runs[k].reported ==> k in after.accepted || k in after.rejected
    ensures Sound(after)
  {
    forall i | 0 <= i < |after.dashboard|
      ensures Told(after, i)
    {
      var k :| Tells(s, i, k);
      StillTells(s, after, i, k);
    }
  }

  lemma StillTells(s: State, after: State, i: int, k: int)
    requires Tells(s, i, k) && Refines(s, after) && s.dashboard <= after.dashboard
    ensures Tells(after, i, k)
  {
    assert after.dashboard[i] == s.dashboard[i];
  }

  lemma SendKeepsSound(s: State, id: nat, event: Event, net: Net)
    requires Sound(s) && Enabled(s, Send(id, event, net))
    ensures Sound(Act(s, Send(id, event, net)))
  {
    var after := Act(s, Send(id, event, net));
    forall i | 0 <= i < |after.dashboard|
      ensures Told(after, i)
    {
      if i < |s.dashboard| {
        var k :| Tells(s, i, k);
        StillTells(s, after, i, k);
      } else {
        assert Tells(after, i, id);
      }
    }
    forall k | k in after.accepted
      ensures Has(after.dashboard, after.runs[k].uuid)
    {
      if k in s.accepted {
        var i :| 0 <= i < |s.dashboard| && s.dashboard[i].uuid == s.runs[k].uuid;
        assert after.dashboard[i].uuid == s.runs[k].uuid;
      } else if !Has(s.dashboard, event.uuid) {
        assert after.dashboard[|s.dashboard|].uuid == event.uuid;
      }
    }
  }

  lemma ActKeepsSound(s: State, act: Action)
    requires Sound(s) && Enabled(s, act)
    ensures Sound(Act(s, act))
  {
    if act.Send? {
      SendKeepsSound(s, act.id, act.event, act.net);
    } else {
      ActRefines(s, act);
      RunsChange(s, Act(s, act));
    }
  }

  lemma {:induction false} AlwaysSound(s: State, acts: seq<Action>)
    requires Sound(s) && Allowed(s, acts)
    ensures Sound(Perform(s, acts))
    decreases |acts|
  {
    if acts != [] {
      ActKeepsSound(s, acts[0]);
      AlwaysSound(Act(s, acts[0]), acts[1..]);
    }
  }

  /** A run is known to the dashboard. */
  ghost predicate Known(s: State, k: int) { exists i :: Tells(s, i, k) }

  lemma RowIsOneRuns(s: State, i: int, k: int)
    requires Sound(s) && 0 <= i < |s.dashboard| && 0 <= k < |s.runs| && s.dashboard[i].uuid == s.runs[k].uuid
    ensures Tells(s, i, k)
  {
    var j :| Tells(s, i, j);
    assert s.runs[j].uuid == s.runs[k].uuid != "";
  }

  /** Whatever was lost, repeated or sent out of line: a run marked without any rejection has
      exactly one row on the dashboard and it says what the run says; a rejected one has at most
      one, and none if it has no identity; and every row is exactly one run's. */
  lemma ExactlyOnce(acts: seq<Action>, k: nat)
    requires Allowed(EMPTY, acts) && k < |Perform(EMPTY, acts).runs|
    ensures var s := Perform(EMPTY, acts);
            && (s.runs[k].reported ==> Known(s, k) || k in s.rejected)
            && (k in s.accepted ==> Known(s, k))
            && (forall i, j :: Tells(s, i, k) && Tells(s, j, k) ==> i == j)
            && (s.runs[k].uuid == "" ==> k !in s.accepted && forall i :: !Tells(s, i, k))
            && (forall i :: 0 <= i < |s.dashboard| ==> Told(s, i))
            && (forall i, j :: Tells(s, i, k) && Tells(s, i, j) ==> j == k)
  {
    AlwaysSound(EMPTY, acts);
    var s := Perform(EMPTY, acts);
    if k in s.accepted {
      var i :| 0 <= i < |s.dashboard| && s.dashboard[i].uuid == s.runs[k].uuid;
      RowIsOneRuns(s, i, k);
    }
  }

  /** A send that is stored, whether or not its answer comes back. */
  predicate Stores(act: Action, k: int) {
    act.Send? && act.id == k && act.net.Stores() && act.event.Identified()
  }

  lemma StoringMakesKnown(s: State, act: Action, k: int)
    requires Sound(s) && Enabled(s, act) && Stores(act, k)
    ensures Known(Act(s, act), k)
  {
    var after := Act(s, act);
    if Has(s.dashboard, act.event.uuid) {
      var i :| 0 <= i < |s.dashboard| && s.dashboard[i].uuid == act.event.uuid;
      RowIsOneRuns(s, i, k);
      assert Tells(after, i, k);
    } else {
      assert Tells(after, |s.dashboard|, k);
    }
  }

  lemma KnownStaysKnown(s: State, act: Action, k: int)
    requires Enabled(s, act) && Known(s, k)
    ensures Known(Act(s, act), k)
  {
    var i :| Tells(s, i, k);
    ActRefines(s, act);
    StillTells(s, Act(s, act), i, k);
  }

  lemma BecomingKnownIsStoring(s: State, act: Action, k: int)
    requires Sound(s) && Enabled(s, act) && !Known(s, k) && Known(Act(s, act), k)
    ensures Stores(act, k)
  {
    var after := Act(s, act);
    var i :| Tells(after, i, k);
    if i < |s.dashboard| {
      var j :| Tells(s, i, j);
      assert s.dashboard[i].uuid == after.runs[k].uuid == s.runs[j].uuid != "";
      assert Tells(s, i, k);
      assert false;
    } else {
      assert act.event.uuid == s.runs[act.id].uuid == s.runs[k].uuid;
    }
  }

  lemma {:induction false} KnownIff(s: State, acts: seq<Action>, k: int)
    requires Sound(s) && Allowed(s, acts)
    ensures Known(Perform(s, acts), k) <==> Known(s, k) || exists m :: 0 <= m < |acts| && Stores(acts[m], k)
    decreases |acts|
  {
    if acts != [] {
      var next := Act(s, acts[0]);
      ActKeepsSound(s, acts[0]);
      KnownIff(next, acts[1..], k);
      SomeOfTheRestIff(acts, k);
      if Known(s, k) {
        KnownStaysKnown(s, acts[0], k);
      } else if Stores(acts[0], k) {
        StoringMakesKnown(s, acts[0], k);
      } else if Known(next, k) {
        BecomingKnownIsStoring(s, acts[0], k);
      }
    }
  }

  lemma SomeOfTheRestIff(acts: seq<Action>, k: int)
    requires acts != []
    ensures (exists m :: 0 <= m < |acts| && Stores(acts[m], k)) <==>
            Stores(acts[0], k) || exists m :: 0 <= m < |acts[1..]| && Stores(acts[1..][m], k)
  {
    forall m | 0 <= m < |acts| && Stores(acts[m], k)
      ensures m == 0 || Stores(acts[1..][m - 1], k)
    {
    }
    forall m | 0 <= m < |acts[1..]| && Stores(acts[1..][m], k)
      ensures Stores(acts[m + 1], k)
    {
    }
  }

  /** A run has a row on the dashboard exactly when some send of its event, under an identity,
      was stored there, whether or not the answer was heard and whatever else was answered. */
  lemma OnTheDashboardIff(acts: seq<Action>, k: nat)
    requires Allowed(EMPTY, acts)
    ensures Known(Perform(EMPTY, acts), k) <==> exists m :: 0 <= m < |acts| && Stores(acts[m], k)
  {
    KnownIff(EMPTY, acts, k);
  }

  /** What "rejected" means: some send of this run's was answered with a rejection, because
      the server called it malformed or because it carried no identity. */
  ghost predicate RejectedAt(acts: seq<Action>, m: int, k: nat) {
    && 0 <= m < |acts| && acts[m].Send? && acts[m].id == k
    && (acts[m].net.TurnedDown? || (acts[m].net.Delivered? && !acts[m].event.Identified()))
  }

  lemma {:induction false} RejectionsWereAnswered(s: State, acts: seq<Action>, k: nat)
    requires k !in s.rejected && k in Perform(s, acts).rejected
    ensures exists m :: RejectedAt(acts, m, k)
    decreases |acts|
  {
    if acts != [] {
      if k in Act(s, acts[0]).rejected {
        assert RejectedAt(acts, 0, k);
      } else {
        RejectionsWereAnswered(Act(s, acts[0]), acts[1..], k);
        var m :| RejectedAt(acts[1..], m, k);
        assert RejectedAt(acts, m + 1, k);
      }
    }
  }

  /** A rejected run can be marked and never reach the dashboard. */
  lemma RejectedRunIsLost()
    ensures var acts := [Open("u"), Close(0, "d"), Send(0, Event("u", "d", "v1"), TurnedDown), Mark(0)];
            && Allowed(EMPTY, acts)
            && Perform(EMPTY, acts) == State([Run("u", Some("d"), true)], [], {}, {0})
  {
    var acts := [Open("u"), Close(0, "d"), Send(0, Event("u", "d", "v1"), TurnedDown), Mark(0)];
    var s1 := Act(EMPTY, acts[0]);
    var s2 := Act(s1, acts[1]);
    var s3 := Act(s2, acts[2]);
    var s4 := Act(s3, acts[3]);
    assert acts[1..][1..] == [acts[2], acts[3]] && acts[1..][1..][1..] == [acts[3]];
    assert Perform(s3, [acts[3]]) == Perform(s4, []) && Allowed(s3, [acts[3]]);
    assert Perform(s2, [acts[2], acts[3]]) == s4 && Allowed(s2, [acts[2], acts[3]]);
    assert Perform(s1, acts[1..]) == s4 && Allowed(s1, acts[1..]);
  }

  //////// Reporting from several places at once

  /** Finished runs stay as they are, and what was answered stays answered. */
  ghost predicate Refines(s: State, t: State) {
    && |s.runs| <= |t.runs| && s.accepted <= t.accepted && s.rejected <= t.rejected
    && forall k :: 0 <= k < |s.runs| ==>
         t.runs[k].uuid == s.runs[k].uuid && (s.runs[k].detail.Some? ==> t.runs[k].detail == s.runs[k].detail)
  }

  predicate Reports(act: Action) { act.Send? || act.Mark? }

  lemma ActRefines(s: State, act: Action)
    requires Enabled(s, act)
    ensures Refines(s, Act(s, act))
  {
  }

  // What could be reported in one state can be reported in a later one.
  lemma {:induction false} StillAllowed(s: State, t: State, acts: seq<Action>)
    requires Refines(s, t) && Allowed(s, acts) && forall a :: a in acts ==> Reports(a)
    ensures Allowed(t, acts)
    decreases |acts|
  {
    if acts != [] {
      assert Reports(acts[0]) && Enabled(t, acts[0]);
      StillAllowed(Act(s, acts[0]), Act(t, acts[0]), acts[1..]);
    }
  }

  ghost predicate Merged(a: seq<Action>, b: seq<Action>, m: seq<Action>)
    decreases |m|
  {
    if m == [] then a == [] && b == []
    else (a != [] && m[0] == a[0] && Merged(a[1..], b, m[1..]))
         || (b != [] && m[0] == b[0] && Merged(a, b[1..], m[1..]))
  }

  /** A flush and the report of a run that has just ended may interleave in any way: what each
      may do on its own it may do amid the other's actions, so everything above still holds. */
  lemma {:induction false} InterleavingIsAllowed(s: State, a: seq<Action>, b: seq<Action>, m: seq<Action>)
    requires Allowed(s, a) && Allowed(s, b) && Merged(a, b, m)
    requires forall x :: x in a || x in b ==> Reports(x)
    ensures Allowed(s, m)
    decreases |m|
  {
    if m != [] {
      if a != [] && m[0] == a[0] && Merged(a[1..], b, m[1..]) {
        ActRefines(s, a[0]);
        StillAllowed(s, Act(s, a[0]), b);
        InterleavingIsAllowed(Act(s, a[0]), a[1..], b, m[1..]);
      } else {
        ActRefines(s, b[0]);
        StillAllowed(s, Act(s, b[0]), a);
        InterleavingIsAllowed(Act(s, b[0]), a, b[1..], m[1..]);
      }
    }
  }

  //////// A flush

  /** A flush marks nothing it did not first send and have answered. */
  lemma {:induction false} FlushIsAllowed(s: State, pending: seq<Pending>, luck: seq<Luck>)
    requires |luck| == |pending|
    requires forall p :: p in pending ==> p.id < |s.runs| && Describes(p.event, s.runs[p.id])
    ensures Allowed(s, FlushActions(pending, luck))
    ensures forall a :: a in FlushActions(pending, luck) ==> Reports(a)
    decreases |pending|
  {
    if pending != [] {
      var p := pending[0];
      var send := Send(p.id, p.event, luck[0].net);
      assert p in pending;
      var acts := FlushActions(pending, luck);
      if |acts| > 1 {
        var rest := FlushActions(pending[1..], luck[1..]);
        var sent := Act(s, send);
        FlushIsAllowed(Act(sent, Mark(p.id)), pending[1..], luck[1..]);
        assert acts[1..] == [Mark(p.id)] + rest && acts[1..][1..] == rest;
        assert Allowed(sent, acts[1..]);
      } else {
        assert acts == [send] && acts[1..] == [];
      }
    }
  }

  /** The report of a run that has just ended is marked exactly when it was accepted and the mark was
      taken; a rejected one is left for the next flush. */
  lemma InlineMarksIff(s: State, id: nat, event: Event, luck: Luck)
    requires id < |s.runs|
    ensures var after := Perform(s, InlineActions(id, event, luck));
            after.runs == if ReplyTo(event, luck.net) == Accepted && luck.mark
                          then s.runs[id := s.runs[id].(reported := true)] else s.runs
  {
    var send := Send(id, event, luck.net);
    PerformFirst(s, send, []);
    PerformFirst(s, send, [Mark(id)]);
    PerformFirst(Act(s, send), Mark(id), []);
  }

  lemma InlineIsAllowed(s: State, id: nat, event: Event, luck: Luck)
    requires Enabled(s, Send(id, event, luck.net))
    ensures Allowed(s, InlineActions(id, event, luck))
    ensures forall a :: a in InlineActions(id, event, luck) ==> Reports(a)
  {
  }

  function Ids(pending: seq<Pending>): set<nat> { set p | p in pending :: p.id }

  ghost predicate InOrder(pending: seq<Pending>) {
    forall i, j :: 0 <= i < j < |pending| ==> pending[i].id < pending[j].id
  }

  function MarkAll(runs: seq<Run>, pending: seq<Pending>): (after: seq<Run>)
    requires forall p :: p in pending ==> p.id < |runs|
    ensures |after| == |runs|
    ensures forall k :: 0 <= k < |runs| ==>
              after[k] == if k in Ids(pending) then runs[k].(reported := true) else runs[k]
    decreases |pending|
  {
    if pending == [] then runs
    else
      assert Ids(pending) == {pending[0].id} + Ids(pending[1..]);
      MarkAll(runs[pending[0].id := runs[pending[0].id].(reported := true)], pending[1..])
  }

  function ReceiveAll(dashboard: seq<Event>, pending: seq<Pending>, luck: seq<Luck>): seq<Event>
    requires |luck| == |pending|
    decreases |pending|
  {
    if pending == [] then dashboard
    else
      ReceiveAll(if luck[0].net.Stores() then Received(dashboard, pending[0].event) else dashboard,
                 pending[1..], luck[1..])
  }

  // How many events a flush sends: those it marks, and the one that stopped it.
  function Attempted(pending: seq<Pending>, luck: seq<Luck>): (n: nat)
    requires |luck| == |pending|
    ensures n <= |pending|
  {
    var n := Through(pending, luck);
    if n < |pending| then n + 1 else n
  }

  lemma {:induction false} FlushMarks(s: State, pending: seq<Pending>, luck: seq<Luck>)
    requires |luck| == |pending| && forall p :: p in pending ==> p.id < |s.runs|
    ensures Perform(s, FlushActions(pending, luck)).runs == MarkAll(s.runs, pending[..Through(pending, luck)])
    decreases |pending|
  {
    var n := Through(pending, luck);
    if pending != [] {
      var p := pending[0];
      assert p in pending;
      FlushBegins(s, pending, luck);
      if n > 0 {
        TailOfPrefix(pending, n);
        FlushMarks(Tried(s, p, luck[0]), pending[1..], luck[1..]);
      }
    }
  }

  /** What reaches the dashboard is what the events it sent add, in order: those it marks and
      the one that stopped it. */
  lemma {:induction false} FlushStores(s: State, pending: seq<Pending>, luck: seq<Luck>)
    requires |luck| == |pending|
    ensures var m := Attempted(pending, luck);
            Perform(s, FlushActions(pending, luck)).dashboard == ReceiveAll(s.dashboard, pending[..m], luck[..m])
    decreases |pending|
  {
    var m := Attempted(pending, luck);
    if pending != [] {
      FlushBegins(s, pending, luck);
      ReceivesFirst(s.dashboard, pending, luck, m);
      if !Stops(pending[0], luck[0]) {
        FlushStores(Tried(s, pending[0], luck[0]), pending[1..], luck[1..]);
      }
    }
  }

  lemma ReceivesFirst(dashboard: seq<Event>, pending: seq<Pending>, luck: seq<Luck>, m: nat)
    requires 0 < m <= |pending| == |luck|
    ensures ReceiveAll(dashboard, pending[..m], luck[..m]) ==
            ReceiveAll(if luck[0].net.Stores() then Received(dashboard, pending[0].event) else dashboard,
                       pending[1..][..m - 1], luck[1..][..m - 1])
  {
    TailOfPrefix(pending, m);
    TailOfPrefix(luck, m);
  }

  /** What is marked is a prefix of what was pending, oldest first, and nothing else about any
      run changes. */
  lemma FlushMarksAPrefix(s: State, pending: seq<Pending>, luck: seq<Luck>, k: nat)
    requires |luck| == |pending| && (forall p :: p in pending ==> p.id < |s.runs|) && k < |s.runs|
    ensures var after := Perform(s, FlushActions(pending, luck));
            && |after.runs| == |s.runs|
            && after.runs[k] == if k in Ids(pending[..Through(pending, luck)])
                                then s.runs[k].(reported := true) else s.runs[k]
  {
    FlushMarks(s, pending, luck);
  }

  //////// The queue gets shorter

  function Backlog(runs: seq<Run>): nat {
    if runs == [] then 0 else (if runs[0].Waiting() then 1 else 0) + Backlog(runs[1..])
  }

  lemma {:induction false} MarkingShortens(runs: seq<Run>, k: nat)
    requires k < |runs| && runs[k].Waiting()
    ensures Backlog(runs[k := runs[k].(reported := true)]) == Backlog(runs) - 1
  {
    var after := runs[k := runs[k].(reported := true)];
    if k > 0 {
      assert after[1..] == runs[1..][k - 1 := runs[k].(reported := true)];
      MarkingShortens(runs[1..], k - 1);
    } else {
      assert after[1..] == runs[1..];
    }
  }

  lemma {:induction false} MarkingAllShortens(runs: seq<Run>, pending: seq<Pending>)
    requires InOrder(pending) && forall p :: p in pending ==> p.id < |runs| && runs[p.id].Waiting()
    ensures Backlog(MarkAll(runs, pending)) == Backlog(runs) - |pending|
    decreases |pending|
  {
    if pending != [] {
      var id := pending[0].id;
      MarkingShortens(runs, id);
      MarkingAllShortens(runs[id := runs[id].(reported := true)], pending[1..]);
    }
  }

  /** The queue shrinks by exactly the number of events that were answered and marked before
      the first that was not; so it strictly shrinks whenever the oldest one is. A rejected
      event counts: it never holds up the ones behind it. */
  lemma FlushShortensTheQueue(s: State, limit: int, agent: string, luck: seq<Luck>)
    requires |luck| == |Unreported(s.runs, limit, agent)|
    ensures var pending := Unreported(s.runs, limit, agent);
            var after := Perform(s, FlushActions(pending, luck));
            && Backlog(after.runs) == Backlog(s.runs) - Through(pending, luck)
            && (pending != [] && luck[0].net.Answers() && luck[0].mark ==> Backlog(after.runs) < Backlog(s.runs))
  {
    var pending := Unreported(s.runs, limit, agent);
    FlushMarks(s, pending, luck);
    MarkingAllShortens(s.runs, pending[..Through(pending, luck)]);
  }

  lemma {:induction false} OldestSize(runs: seq<Run>, limit: nat, agent: string, from: nat)
    requires from <= |runs|
    ensures |Oldest(runs, limit, agent, from)| ==
            if Backlog(runs[from..]) < limit then Backlog(runs[from..]) else limit
    decreases |runs| - from
  {
    if from < |runs| {
      assert runs[from..][1..] == runs[from + 1..];
      OldestSize(runs, if runs[from].Waiting() && limit > 0 then limit - 1 else limit, agent, from + 1);
    }
  }

  /** As many as are waiting, up to the limit; a limit below one means fifty. */
  lemma UnreportedSize(runs: seq<Run>, limit: int, agent: string)
    ensures var most := if limit < 1 then 50 else limit;
            |Unreported(runs, limit, agent)| == if Backlog(runs) < most then Backlog(runs) else most
  {
    OldestSize(runs, LimitFor(limit), agent, 0);
    assert runs[0..] == runs;
  }

  lemma {:induction false} GoodLuckGoesThrough(pending: seq<Pending>, luck: seq<Luck>)
    requires |luck| == |pending| && forall l :: l in luck ==> l.net.Answers() && l.mark
    ensures Through(pending, luck) == |pending|
    decreases |pending|
  {
    if pending != [] {
      assert luck[0] in luck;
      GoodLuckGoesThrough(pending[1..], luck[1..]);
    }
  }

  /** With the network and the store working, one flush clears the queue or fifty of it. */
  lemma WorkingFlushDrains(s: State, agent: string, luck: seq<Luck>)
    requires |luck| == |Unreported(s.runs, FLUSH_LIMIT, agent)|
    requires forall l :: l in luck ==> l.net.Answers() && l.mark
    ensures var after := Perform(s, FlushActions(Unreported(s.runs, FLUSH_LIMIT, agent), luck));
            Backlog(after.runs) == if Backlog(s.runs) < FLUSH_LIMIT then 0 else Backlog(s.runs) - FLUSH_LIMIT
  {
    var pending := Unreported(s.runs, FLUSH_LIMIT, agent);
    FlushShortensTheQueue(s, FLUSH_LIMIT, agent, luck);
    GoodLuckGoesThrough(pending, luck);
    UnreportedSize(s.runs, FLUSH_LIMIT, agent);
  }
}
