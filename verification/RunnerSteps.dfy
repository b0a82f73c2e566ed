/** One attempt taken step by step when nothing else goes on: what each step may follow and what it
    changes, and where a run, a cancelled run, a failed start and a refused one end up. */
module RunnerSteps {
  import opened Wrappers
  import BackupRun
  import opened RunnerFlight

  /** The runner with this attempt at this point, and these rows. */
  function With(s: State, a: nat, t: Attempt, rows: seq<RunRow>): State {
    s.(attempts := s.attempts[a := t], rows := rows)
  }

  /** A start comes in. */
  lemma StartIs(s: State, a: nat)
    requires a !in s.attempts
    ensures Enabled(s, Start(a)) && Next(s, Start(a)) == With(s, a, Attempt(Preparing, Unset, None), s.rows)
  {
  }

  /** It is refused while a run is going, and that is all that happens; else it takes the guard. */
  lemma BeginIs(s: State, a: nat, cause: Cause, row: Option<nat>, rows: seq<RunRow>)
    ensures var before := With(s, a, Attempt(Preparing, cause, row), rows);
            && Enabled(before, Begin(a))
            && (s.running ==> Next(before, Begin(a)) == With(s, a, Attempt(Refused, cause, row), rows))
            && (!s.running ==>
                  Next(before, Begin(a)) == With(s.(running := true), a, Attempt(Begun, cause, row), rows))
  {
  }

  /** Its cancel function is stored, and a machine already going down has cancelled it. */
  lemma ArmIs(s: State, a: nat, cause: Cause, row: Option<nat>, rows: seq<RunRow>)
    ensures var before := With(s, a, Attempt(Begun, cause, row), rows);
            && Enabled(before, Arm(a))
            && Next(before, Arm(a)) ==
               With(s.(cancel := Some(a)), a, Attempt(Armed, if s.down then ShutDown else cause, row), rows)
  {
  }

  /** Its row is made, or the run is over for want of one. */
  lemma CreateIs(s: State, a: nat, cause: Cause, rows: seq<RunRow>, ok: bool)
    ensures var before := With(s, a, Attempt(Armed, cause, None), rows);
            && Enabled(before, Create(a, ok))
            && Next(before, Create(a, ok)) ==
               if ok then With(s, a, Attempt(Executing, cause, Some(|rows|)), rows + [RunRow(a, None)])
               else With(s, a, Attempt(Leaving(false), cause, None), rows)
  {
  }

  /** restic returns: a press that cancelled the run decides over whatever it returned with. */
  lemma ReturnIs(s: State, a: nat, cause: Cause, row: Option<nat>, rows: seq<RunRow>, own: End)
    requires !own.outcome.Cancelled?
    ensures var before := With(s, a, Attempt(Executing, cause, row), rows);
            && Enabled(before, Return(a, own))
            && Next(before, Return(a, own)) ==
               With(s, a, Attempt(Looked(if cause.Asked? then End(BackupRun.Cancelled, cause.reason) else own),
                                  cause, row), rows)
  {
  }

  lemma BalkIs(s: State, a: nat, cause: Cause, row: Option<nat>, rows: seq<RunRow>, why: string)
    ensures var before := With(s, a, Attempt(Executing, cause, row), rows);
            && Enabled(before, Balk(a, why))
            && Next(before, Balk(a, why)) ==
               With(s, a, Attempt(Looked(End(BackupRun.Failed, why)), cause, row), rows)
  {
  }

  /** The end is written into its own row, or could not be. */
  lemma FinishIs(s: State, a: nat, cause: Cause, r: nat, rows: seq<RunRow>, end: End, ok: bool)
    requires r < |rows|
    ensures var before := With(s, a, Attempt(Looked(end), cause, Some(r)), rows);
            && Enabled(before, Finish(a, ok))
            && Next(before, Finish(a, ok)) ==
               With(s, a, Attempt(Leaving(ok), cause, Some(r)),
                    if ok then rows[r := RunRow(rows[r].owner, Some(end))] else rows)
  {
  }

  lemma DisarmIs(s: State, a: nat, cause: Cause, row: Option<nat>, rows: seq<RunRow>, ok: bool)
    ensures var before := With(s, a, Attempt(Leaving(ok), cause, row), rows);
            && Enabled(before, Disarm(a))
            && Next(before, Disarm(a)) == With(s.(cancel := None), a, Attempt(Disarmed(ok), cause, row), rows)
  {
  }

  lemma LeaveIs(s: State, a: nat, cause: Cause, row: Option<nat>, rows: seq<RunRow>, ok: bool)
    ensures var before := With(s, a, Attempt(Disarmed(ok), cause, row), rows);
            && Enabled(before, Leave(a))
            && Next(before, Leave(a)) == With(s.(running := false), a, Attempt(Over(ok), cause, row), rows)
  {
  }

  /** A press loads the stored function, if there is one, and changes nothing yet. */
  lemma LoadIs(s: State, press: nat, reason: string)
    requires press !in s.presses
    ensures Enabled(s, Load(press, reason))
    ensures Next(s, Load(press, reason)) ==
            s.(presses := s.presses[press := if s.cancel.None? then NothingRunning else Loaded(s.cancel.value, reason)])
  {
  }

  /** When it is called, the run it loaded is cancelled for its reason unless it was already. */
  lemma FireIs(s: State, press: nat, a: nat, reason: string)
    requires press in s.presses && s.presses[press] == Loaded(a, reason) && a in s.attempts
    ensures var t := s.attempts[a];
            && Enabled(s, Fire(press))
            && Next(s, Fire(press)) ==
               s.(presses := s.presses[press := Fired],
                  attempts := s.attempts[a := t.(cause := if t.cause == Unset then Asked(reason) else t.cause)])
  {
  }

  /** The machine may go down at any time; every run whose context is there and was not cancelled
      yet is cancelled for that. */
  lemma DownIs(s: State)
    ensures Enabled(s, GoDown) && Next(s, GoDown) == s.(down := true, attempts := Next(s, GoDown).attempts)
    ensures Next(s, GoDown).attempts.Keys == s.attempts.Keys
    ensures forall a :: a in s.attempts ==>
              var t := s.attempts[a];
              Next(s, GoDown).attempts[a] ==
              t.(cause := if t.phase.Listening() && t.cause == Unset then ShutDown else t.cause)
  {
  }

  //////// A run

  /** The runner after this attempt has come and gone. */
  function Gone(s: State, a: nat, t: Attempt, rows: seq<RunRow>): State {
    With(s.(running := false, cancel := None), a, t, rows)
  }

  predicate Idle(s: State) { !s.running && s.cancel.None? }

  // These steps may be taken one after another, and lead here.
  ghost predicate Leads(s: State, steps: seq<Step>, after: State)
    decreases |steps|
  {
    if steps == [] then s == after
    else Enabled(s, steps[0]) && Leads(Next(s, steps[0]), steps[1..], after)
  }

  lemma LeadsOn(s: State, step: Step, rest: seq<Step>, after: State)
    requires Enabled(s, step) && Leads(Next(s, step), rest, after)
    ensures Leads(s, [step] + rest, after)
  {
    assert ([step] + rest)[1..] == rest;
  }

  lemma {:induction false} LeadsThrough(s: State, a: seq<Step>, mid: State, b: seq<Step>, after: State)
    requires Leads(s, a, mid) && Leads(mid, b, after)
    ensures Leads(s, a + b, after)
    decreases |a|
  {
    if a == [] {
      assert a + b == b;
    } else {
      LeadsThrough(Next(s, a[0]), a[1..], mid, b, after);
      LeadsOn(s, a[0], a[1..] + b, after);
      assert a + b == [a[0]] + (a[1..] + b);
    }
  }

  function Working(s: State, a: nat): State {
    With(s.(running := true, cancel := Some(a)), a,
         Attempt(Executing, if s.down then ShutDown else Unset, Some(|s.rows|)), s.rows + [RunRow(a, None)])
  }

  lemma WorkBegins(s: State, a: nat)
    requires Idle(s) && a !in s.attempts
    ensures Leads(s, [Start(a), Begin(a), Arm(a), Create(a, true)], Working(s, a))
  {
    var cause := if s.down then ShutDown else Unset;
    var held := s.(running := true);
    var armed := held.(cancel := Some(a));
    StartIs(s, a);
    BeginIs(s, a, Unset, None, s.rows);
    ArmIs(held, a, Unset, None, s.rows);
    CreateIs(armed, a, cause, s.rows, true);
    assert Leads(Working(s, a), [], Working(s, a));
    LeadsOn(With(armed, a, Attempt(Armed, cause, None), s.rows), Create(a, true), [], Working(s, a));
    LeadsOn(With(held, a, Attempt(Begun, Unset, None), s.rows), Arm(a), [Create(a, true)], Working(s, a));
    LeadsOn(With(s, a, Attempt(Preparing, Unset, None), s.rows), Begin(a), [Arm(a), Create(a, true)], Working(s, a));
    LeadsOn(s, Start(a), [Begin(a), Arm(a), Create(a, true)], Working(s, a));
    assert [Arm(a)] + [Create(a, true)] == [Arm(a), Create(a, true)];
    assert [Begin(a)] + [Arm(a), Create(a, true)] == [Begin(a), Arm(a), Create(a, true)];
    assert [Start(a)] + [Begin(a), Arm(a), Create(a, true)] == [Start(a), Begin(a), Arm(a), Create(a, true)];
  }

  lemma WorkEnds(s: State, a: nat, cause: Cause, r: nat, rows: seq<RunRow>, own: End)
    requires s.running && s.cancel == Some(a) && r < |rows| && !own.outcome.Cancelled?
    ensures var end := if cause.Asked? then End(BackupRun.Cancelled, cause.reason) else own;
            Leads(With(s, a, Attempt(Executing, cause, Some(r)), rows),
                  [Return(a, own), Finish(a, true), Disarm(a), Leave(a)],
                  Gone(s, a, Attempt(Over(true), cause, Some(r)), rows[r := RunRow(rows[r].owner, Some(end))]))
  {
    var end := if cause.Asked? then End(BackupRun.Cancelled, cause.reason) else own;
    var ended := rows[r := RunRow(rows[r].owner, Some(end))];
    var after := Gone(s, a, Attempt(Over(true), cause, Some(r)), ended);
    var disarmed := s.(cancel := None);
    ReturnIs(s, a, cause, Some(r), rows, own);
    FinishIs(s, a, cause, r, rows, end, true);
    DisarmIs(s, a, cause, Some(r), ended, true);
    LeaveIs(disarmed, a, cause, Some(r), ended, true);
    assert Leads(after, [], after);
    LeadsOn(With(disarmed, a, Attempt(Disarmed(true), cause, Some(r)), ended), Leave(a), [], after);
    LeadsOn(With(s, a, Attempt(Leaving(true), cause, Some(r)), ended), Disarm(a), [Leave(a)], after);
    LeadsOn(With(s, a, Attempt(Looked(end), cause, Some(r)), rows), Finish(a, true), [Disarm(a), Leave(a)], after);
    LeadsOn(With(s, a, Attempt(Executing, cause, Some(r)), rows), Return(a, own),
            [Finish(a, true), Disarm(a), Leave(a)], after);
    assert [Disarm(a)] + [Leave(a)] == [Disarm(a), Leave(a)];
    assert [Finish(a, true)] + [Disarm(a), Leave(a)] == [Finish(a, true), Disarm(a), Leave(a)];
    assert [Return(a, own)] + [Finish(a, true), Disarm(a), Leave(a)]
           == [Return(a, own), Finish(a, true), Disarm(a), Leave(a)];
  }

  /** On an idle runner a run goes through: one more row, finished with what restic came to, and the
      runner idle again. */
  lemma RunGoesThrough(s: State, a: nat, own: End)
    requires Idle(s) && a !in s.attempts && !own.outcome.Cancelled?
    ensures Leads(s,
                  [Start(a), Begin(a), Arm(a), Create(a, true)]
                  + [Return(a, own), Finish(a, true), Disarm(a), Leave(a)],
                  Gone(s, a, Attempt(Over(true), if s.down then ShutDown else Unset, Some(|s.rows|)),
                       s.rows + [RunRow(a, Some(own))]))
  {
    var rows := s.rows + [RunRow(a, None)];
    WorkBegins(s, a);
    WorkEnds(s.(running := true, cancel := Some(a)), a, if s.down then ShutDown else Unset, |s.rows|, rows, own);
    assert rows[|s.rows| := RunRow(a, Some(own))] == s.rows + [RunRow(a, Some(own))];
    LeadsThrough(s, [Start(a), Begin(a), Arm(a), Create(a, true)], Working(s, a),
                 [Return(a, own), Finish(a, true), Disarm(a), Leave(a)],
                 Gone(s, a, Attempt(Over(true), if s.down then ShutDown else Unset, Some(|s.rows|)),
                      s.rows + [RunRow(a, Some(own))]));
  }

  /** And one whose cancel is pressed while it works ends cancelled, in the words of the press, unless
      the machine was already going down: then it ends as restic came to. */
  lemma CancelledRunGoesThrough(s: State, a: nat, own: End, press: nat, reason: string)
    requires Idle(s) && a !in s.attempts && press !in s.presses && !own.outcome.Cancelled?
    ensures var end := if s.down then own else End(BackupRun.Cancelled, reason);
            var cause := if s.down then ShutDown else Asked(reason);
            Leads(Working(s, a),
                  [Load(press, reason), Fire(press)] + [Return(a, own), Finish(a, true), Disarm(a), Leave(a)],
                  Gone(s.(presses := s.presses[press := Fired]), a, Attempt(Over(true), cause, Some(|s.rows|)),
                       s.rows + [RunRow(a, Some(end))]))
  {
    var end := if s.down then own else End(BackupRun.Cancelled, reason);
    var cause := if s.down then ShutDown else Asked(reason);
    var rows := s.rows + [RunRow(a, None)];
    var fired := s.(running := true, cancel := Some(a), presses := s.presses[press := Fired]);
    var after := Gone(s.(presses := s.presses[press := Fired]), a, Attempt(Over(true), cause, Some(|s.rows|)),
                      s.rows + [RunRow(a, Some(end))]);
    PressLands(s, a, press, reason);
    WorkEnds(fired, a, cause, |s.rows|, rows, own);
    assert rows[|s.rows| := RunRow(a, Some(end))] == s.rows + [RunRow(a, Some(end))];
    LeadsThrough(Working(s, a), [Load(press, reason), Fire(press)],
                 With(fired, a, Attempt(Executing, cause, Some(|s.rows|)), rows),
                 [Return(a, own), Finish(a, true), Disarm(a), Leave(a)], after);
  }

  lemma PressLands(s: State, a: nat, press: nat, reason: string)
    requires press !in s.presses
    ensures var cause := if s.down then ShutDown else Asked(reason);
            Leads(Working(s, a), [Load(press, reason), Fire(press)],
                  With(s.(running := true, cancel := Some(a), presses := s.presses[press := Fired]), a,
                       Attempt(Executing, cause, Some(|s.rows|)), s.rows + [RunRow(a, None)]))
  {
    var cause := if s.down then ShutDown else Asked(reason);
    var working := Working(s, a);
    var loaded := working.(presses := working.presses[press := Loaded(a, reason)]);
    var after := With(s.(running := true, cancel := Some(a), presses := s.presses[press := Fired]), a,
                      Attempt(Executing, cause, Some(|s.rows|)), s.rows + [RunRow(a, None)]);
    LoadIs(working, press, reason);
    FireIs(loaded, press, a, reason);
    assert Next(loaded, Fire(press)).presses == after.presses;
    assert Next(loaded, Fire(press)).attempts == after.attempts;
    assert Leads(after, [], after);
    LeadsOn(loaded, Fire(press), [], after);
    LeadsOn(working, Load(press, reason), [Fire(press)], after);
    assert [Load(press, reason)] + [Fire(press)] == [Load(press, reason), Fire(press)];
  }

  //////// The other ways out

  lemma FailIs(s: State, a: nat, cause: Cause, rows: seq<RunRow>, why: string)
    ensures var begun := With(s, a, Attempt(Preparing, cause, None), rows);
            && Enabled(begun, FailEarly(a, why))
            && Next(begun, FailEarly(a, why)) == With(s, a, Attempt(Failing(why), cause, None), rows)
  {
  }

  lemma NoteIs(s: State, a: nat, cause: Cause, rows: seq<RunRow>, why: string, ok: bool)
    ensures var failing := With(s, a, Attempt(Failing(why), cause, None), rows);
            && Enabled(failing, NoteStart(a, ok))
            && Next(failing, NoteStart(a, ok)) ==
               if ok then With(s, a, Attempt(Noting(why), cause, Some(|rows|)), rows + [RunRow(a, None)])
               else With(s, a, Attempt(Over(false), cause, None), rows)
  {
  }

  lemma CloseIs(s: State, a: nat, cause: Cause, rows: seq<RunRow>, why: string, ok: bool)
    ensures var noting := With(s, a, Attempt(Noting(why), cause, Some(|rows|)), rows + [RunRow(a, None)]);
            && Enabled(noting, CloseStart(a, ok))
            && Next(noting, CloseStart(a, ok)) ==
               With(s, a, Attempt(Over(ok), cause, Some(|rows|)),
                    rows + [RunRow(a, if ok then Some(End(BackupRun.Failed, why)) else None)])
  {
    assert (rows + [RunRow(a, None)])[|rows| := RunRow(a, Some(End(BackupRun.Failed, why)))]
           == rows + [RunRow(a, Some(End(BackupRun.Failed, why)))];
  }

  /** A start that fails leaves one row, finished at once with the reason. */
  lemma FailedStartGoesThrough(s: State, a: nat, why: string)
    requires a !in s.attempts
    ensures Leads(s, [Start(a), FailEarly(a, why), NoteStart(a, true), CloseStart(a, true)],
                  With(s, a, Attempt(Over(true), Unset, Some(|s.rows|)),
                       s.rows + [RunRow(a, Some(End(BackupRun.Failed, why)))]))
  {
    var noted := s.rows + [RunRow(a, None)];
    var after := With(s, a, Attempt(Over(true), Unset, Some(|s.rows|)),
                      s.rows + [RunRow(a, Some(End(BackupRun.Failed, why)))]);
    StartIs(s, a);
    FailIs(s, a, Unset, s.rows, why);
    NoteIs(s, a, Unset, s.rows, why, true);
    CloseIs(s, a, Unset, s.rows, why, true);
    assert Leads(after, [], after);
    LeadsOn(With(s, a, Attempt(Noting(why), Unset, Some(|s.rows|)), noted), CloseStart(a, true), [], after);
    LeadsOn(With(s, a, Attempt(Failing(why), Unset, None), s.rows), NoteStart(a, true), [CloseStart(a, true)], after);
    LeadsOn(With(s, a, Attempt(Preparing, Unset, None), s.rows), FailEarly(a, why),
            [NoteStart(a, true), CloseStart(a, true)], after);
    LeadsOn(s, Start(a), [FailEarly(a, why), NoteStart(a, true), CloseStart(a, true)], after);
    assert [NoteStart(a, true)] + [CloseStart(a, true)] == [NoteStart(a, true), CloseStart(a, true)];
    assert [FailEarly(a, why)] + [NoteStart(a, true), CloseStart(a, true)]
           == [FailEarly(a, why), NoteStart(a, true), CloseStart(a, true)];
    assert [Start(a)] + [FailEarly(a, why), NoteStart(a, true), CloseStart(a, true)]
           == [Start(a), FailEarly(a, why), NoteStart(a, true), CloseStart(a, true)];
  }
}
