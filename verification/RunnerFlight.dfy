/** Any number of callers starting and cancelling backups on one runner: the single-flight
    guard, the stored cancel function and the rows, one atomic action at a time with everything
    else allowed in between. */
module RunnerFlight {
  import opened Wrappers
  import BackupRun

  /** The first cause a run's context was cancelled for; later ones change nothing. */
  datatype Cause = Unset | Asked(reason: string) | ShutDown

  datatype End = End(outcome: BackupRun.Outcome, words: string)

  datatype Phase =
    | Preparing                // fetching credentials, opening the repository
    | Failing(reason: string)  // one of those failed
    | Noting(why: string)      // the row of the failed start exists, unfinished
    | Begun                    // won the guard
    | Armed                    // its cancel function is stored
    | Executing                // its row exists, the work is going on
    | Looked(end: End)         // the work is over: the preparation failed, or restic returned
    | Leaving(ok: bool)        // the end is written, or could not be
    | Disarmed(ok: bool)       // the cancel function is cleared
    | Refused                  // another run held the guard
    | Over(ok: bool)           // returned; `ok` when nothing went unrecorded
  {
    predicate Inside() { Begun? || Armed? || Executing? || Looked? || Leaving? || Disarmed? }
    predicate Listening() { Armed? || Executing? || Looked? || Leaving? }
    predicate Reachable() { Listening() || Disarmed? || Over? }
    predicate Closed() { (Leaving? || Disarmed? || Over?) && ok }
    predicate Rowless() { Preparing? || Failing? || Begun? || Armed? || Refused? }
    predicate Rowed() { Noting? || Executing? || Looked? || Closed() }
  }

  datatype Attempt = Attempt(phase: Phase, cause: Cause, row: Option<nat>)

  /** `owner` is the attempt whose identity the row carries; `end` is missing until the row is
      finished. */
  datatype RunRow = RunRow(owner: nat, end: Option<End>)

  /** A press of Cancel: the function it loaded is called some time later. */
  datatype Press = NothingRunning | Loaded(target: nat, reason: string) | Fired

  datatype State = State(
    running: bool, cancel: Option<nat>, down: bool,
    attempts: map<nat, Attempt>, rows: seq<RunRow>, presses: map<nat, Press>)

  datatype Step =
    | Start(a: nat)
    | FailEarly(a: nat, why: string)
    | NoteStart(a: nat, ok: bool)
    | CloseStart(a: nat, ok: bool)
    | Begin(a: nat)
    | Arm(a: nat)
    | Create(a: nat, ok: bool)
    | Balk(a: nat, why: string)  // the scratch directory or the nonce could not be made ready
    | Return(a: nat, own: End)   // restic returned, and the cause is looked at
    | Finish(a: nat, ok: bool)
    | Disarm(a: nat)
    | Leave(a: nat)
    | Load(press: nat, reason: string)
    | Fire(press: nat)
    | GoDown

  predicate In(s: State, a: nat, phase: Phase) { a in s.attempts && s.attempts[a].phase == phase }

  predicate Enabled(s: State, step: Step) {
    match step
    case Start(a) => a !in s.attempts
    case FailEarly(a, _) => In(s, a, Preparing)
    case NoteStart(a, _) => a in s.attempts && s.attempts[a].phase.Failing?
    case CloseStart(a, _) => a in s.attempts && s.attempts[a].phase.Noting?
    case Begin(a) => In(s, a, Preparing)
    case Arm(a) => In(s, a, Begun)
    case Create(a, _) => In(s, a, Armed)
    case Balk(a, _) => In(s, a, Executing)
    case Return(a, own) => In(s, a, Executing) && !own.outcome.Cancelled?
    case Finish(a, _) => a in s.attempts && s.attempts[a].phase.Looked?
    case Disarm(a) => a in s.attempts && s.attempts[a].phase.Leaving?
    case Leave(a) => a in s.attempts && s.attempts[a].phase.Disarmed?
    case Load(press, _) => press !in s.presses
    case Fire(press) =>
      press in s.presses && s.presses[press].Loaded? && s.presses[press].target in s.attempts
    case GoDown => true
  }

  function Moved(s: State, a: nat, phase: Phase): State
    requires a in s.attempts
  {
    s.(attempts := s.attempts[a := s.attempts[a].(phase := phase)])
  }

  /** store.Create: an unfinished row, or an error and no row. */
  function NewRow(s: State, a: nat, ok: bool, then_: Phase, else_: Phase): State
    requires a in s.attempts
  {
    if ok then
      s.(rows := s.rows + [RunRow(a, None)],
         attempts := s.attempts[a := s.attempts[a].(phase := then_, row := Some(|s.rows|))])
    else Moved(s, a, else_)
  }

  /** store.Finish on the attempt's own row. */
  function EndRow(s: State, a: nat, ok: bool, end: End): State
    requires a in s.attempts
  {
    var row := s.attempts[a].row;
    if ok && row.Some? && row.value < |s.rows|
    then s.(rows := s.rows[row.value := s.rows[row.value].(end := Some(end))])
    else s
  }

  function Caused(t: Attempt, cause: Cause): Attempt { if t.cause.Unset? then t.(cause := cause) else t }

  function EndOf(t: Attempt, own: End): End {
    if t.cause.Asked? then End(BackupRun.Cancelled, t.cause.reason) else own
  }

  function Next(s: State, step: Step): State
    requires Enabled(s, step)
  {
    match step
    case Start(a) => s.(attempts := s.attempts[a := Attempt(Preparing, Unset, None)])
    case FailEarly(a, why) => Moved(s, a, Failing(why))
    case NoteStart(a, ok) => NewRow(s, a, ok, Noting(s.attempts[a].phase.reason), Over(false))
    case CloseStart(a, ok) => Moved(EndRow(s, a, ok, End(BackupRun.Failed, s.attempts[a].phase.why)), a, Over(ok))
    case Begin(a) => if s.running then Moved(s, a, Refused) else Moved(s.(running := true), a, Begun)
    case Arm(a) =>
      var t := s.attempts[a];
      s.(cancel := Some(a),
         attempts := s.attempts[a := t.(phase := Armed, cause := if s.down then ShutDown else t.cause)])
    case Create(a, ok) => NewRow(s, a, ok, Executing, Leaving(false))
    case Balk(a, why) => Moved(s, a, Looked(End(BackupRun.Failed, why)))
    case Return(a, own) => Moved(s, a, Looked(EndOf(s.attempts[a], own)))
    case Finish(a, ok) => Moved(EndRow(s, a, ok, s.attempts[a].phase.end), a, Leaving(ok))
    case Disarm(a) => Moved(s.(cancel := None), a, Disarmed(s.attempts[a].phase.ok))
    case Leave(a) => Moved(s.(running := false), a, Over(s.attempts[a].phase.ok))
    case Load(press, reason) =>
      s.(presses := s.presses[press := if s.cancel.None? then NothingRunning else Loaded(s.cancel.value, reason)])
    case Fire(press) =>
      var p := s.presses[press];
      s.(presses := s.presses[press := Fired],
         attempts := s.attempts[p.target := Caused(s.attempts[p.target], Asked(p.reason))])
    case GoDown =>
      s.(down := true,
         attempts := map a | a in s.attempts ::
           if s.attempts[a].phase.Listening() then Caused(s.attempts[a], ShutDown) else s.attempts[a])
  }

  ghost predicate Initial(s: State) {
    s == State(false, None, s.down, map[], [], map[])
  }

  ghost predicate Behaviour(ss: seq<State>, steps: seq<Step>) {
    && |ss| == |steps| + 1
    && Initial(ss[0])
    && forall i, k :: 0 <= i < |steps| && k == i + 1 ==> Enabled(ss[i], steps[i]) && ss[k] == Next(ss[i], steps[i])
  }

  // The step taken at one place.
  lemma StepAt(ss: seq<State>, steps: seq<Step>, i: nat)
    requires Behaviour(ss, steps) && i < |steps|
    ensures Enabled(ss[i], steps[i]) && ss[i + 1] == Next(ss[i], steps[i])
  {
    var after := ss[i + 1];
  }

  /** A step some attempt takes, rather than a press of the button or the machine going down. */
  predicate Attempts(step: Step) { !step.Load? && !step.Fire? && !step.GoDown? }

  // One attempt's step leaves every other attempt alone.
  lemma LeavesAlone(s: State, step: Step, a: nat)
    requires Enabled(s, step) && Attempts(step) && step.a != a
    ensures a in Next(s, step).attempts <==> a in s.attempts
    ensures a in s.attempts ==> Next(s, step).attempts[a] == s.attempts[a]
  {
  }

  // What comes from outside changes causes only.
  lemma OutsideChangesCauses(s: State, step: Step, a: nat)
    requires Enabled(s, step) && !Attempts(step)
    ensures a in Next(s, step).attempts <==> a in s.attempts
    ensures a in s.attempts ==> Next(s, step).attempts[a] == s.attempts[a].(cause := Next(s, step).attempts[a].cause)
    ensures Next(s, step).rows == s.rows
  {
  }

  //////// One at a time

  /** The guard and the stored cancel function both belong to one attempt, or to none. */
  ghost predicate Held(s: State, holder: Option<nat>) {
    && s.running == holder.Some?
    && (holder.Some? ==> holder.value in s.attempts)
    && (forall a :: a in s.attempts ==> (s.attempts[a].phase.Inside() <==> holder == Some(a)))
    && s.cancel == if holder.Some? && s.attempts[holder.value].phase.Listening() then holder else None
  }

  function HolderAfter(s: State, step: Step, holder: Option<nat>): Option<nat> {
    match step
    case Begin(a) => if s.running then holder else Some(a)
    case Leave(a) => None
    case _ => holder
  }

  lemma PreludeKeepsHeld(s: State, step: Step, holder: Option<nat>)
    requires Enabled(s, step) && Held(s, holder)
    requires step.Start? || step.FailEarly? || step.NoteStart? || step.CloseStart?
    ensures Held(Next(s, step), holder)
  {
  }

  lemma RunKeepsHeld(s: State, step: Step, holder: Option<nat>)
    requires Enabled(s, step) && Held(s, holder)
    requires step.Create? || step.Balk? || step.Return? || step.Finish? || step.Disarm? || step.Leave?
    ensures Held(Next(s, step), HolderAfter(s, step, holder))
  {
  }

  lemma StepKeepsHeld(s: State, step: Step, holder: Option<nat>)
    requires Enabled(s, step) && Held(s, holder)
    ensures Held(Next(s, step), HolderAfter(s, step, holder))
  {
    if step.Start? || step.FailEarly? || step.NoteStart? || step.CloseStart? {
      PreludeKeepsHeld(s, step, holder);
    } else if step.Create? || step.Balk? || step.Return? || step.Finish? || step.Disarm? || step.Leave? {
      RunKeepsHeld(s, step, holder);
    }
  }

  lemma {:induction false} Guarded(ss: seq<State>, steps: seq<Step>, i: nat) returns (holder: Option<nat>)
    requires Behaviour(ss, steps) && i <= |steps|
    ensures Held(ss[i], holder)
  {
    if i == 0 {
      holder := None;
    } else {
      var before := Guarded(ss, steps, i - 1);
      StepAt(ss, steps, i - 1);
      StepKeepsHeld(ss[i - 1], steps[i - 1], before);
      holder := HolderAfter(ss[i - 1], steps[i - 1], before);
    }
  }

  /** At most one attempt is past the guard, and the guard is up exactly while one is, so a
      start is refused only while another run is really going. */
  lemma AtMostOneRuns(ss: seq<State>, steps: seq<Step>, i: nat, a: nat, b: nat)
    requires Behaviour(ss, steps) && i <= |steps| && a in ss[i].attempts && b in ss[i].attempts
    ensures ss[i].attempts[a].phase.Inside() && ss[i].attempts[b].phase.Inside() ==> a == b
    ensures ss[i].running <==> exists c :: c in ss[i].attempts && ss[i].attempts[c].phase.Inside()
    ensures ss[i].cancel == None <==> forall c :: c in ss[i].attempts ==> !ss[i].attempts[c].phase.Listening()
  {
    var holder := Guarded(ss, steps, i);
    if holder.Some? {
      assert holder.value in ss[i].attempts && ss[i].attempts[holder.value].phase.Inside();
    }
  }

  //////// One row each

  /** An attempt's rows: none before it is recorded, then exactly its own, finished once it has
      been closed. */
  ghost predicate Tally(s: State, a: nat)
    requires a in s.attempts
  {
    var t := s.attempts[a];
    && (forall r :: 0 <= r < |s.rows| && s.rows[r].owner == a ==> t.row == Some(r))
    && (t.row.Some? ==>
          && t.row.value < |s.rows| && s.rows[t.row.value].owner == a
          && (s.rows[t.row.value].end.Some? <==> t.phase.Closed()))
    && (t.phase.Rowless() ==> t.row.None?)
    && (t.phase.Rowed() ==> t.row.Some?)
  }

  ghost predicate Tallied(s: State) {
    && (forall a :: a in s.attempts ==> Tally(s, a))
    && (forall r :: 0 <= r < |s.rows| ==> s.rows[r].owner in s.attempts)
  }

  // The attempt's row is where it was and still what its phase says it is.
  predicate SameRow(before: Attempt, after: Attempt) {
    && after.row == before.row && after.phase.Closed() == before.phase.Closed()
    && (after.phase.Rowless() ==> after.row.None?)
    && (after.phase.Rowed() ==> after.row.Some?)
  }

  lemma SameRowsKeepTallies(s: State, after: State)
    requires Tallied(s) && after.rows == s.rows && after.attempts.Keys == s.attempts.Keys
    requires forall a :: a in s.attempts ==> SameRow(s.attempts[a], after.attempts[a])
    ensures Tallied(after)
  {
  }

  lemma NewRowKeepsTallies(s: State, a: nat, ok: bool, then_: Phase, else_: Phase)
    requires Tallied(s) && a in s.attempts && s.attempts[a].row.None?
    requires then_.Rowed() && !then_.Closed() && !then_.Rowless() && !else_.Rowed()
    ensures Tallied(NewRow(s, a, ok, then_, else_))
  {
  }

  lemma EndRowKeepsTallies(s: State, a: nat, ok: bool, end: End, phase: Phase)
    requires Tallied(s) && a in s.attempts && s.attempts[a].phase.Rowed() && !s.attempts[a].phase.Closed()
    requires !phase.Rowless() && phase.Closed() == ok == phase.Rowed()
    ensures Tallied(Moved(EndRow(s, a, ok, end), a, phase))
  {
  }

  lemma StepKeepsTallies(s: State, step: Step)
    requires Enabled(s, step) && Tallied(s)
    ensures Tallied(Next(s, step))
  {
    match step {
      case NoteStart(a, ok) => NewRowKeepsTallies(s, a, ok, Noting(s.attempts[a].phase.reason), Over(false));
      case Create(a, ok) => NewRowKeepsTallies(s, a, ok, Executing, Leaving(false));
      case CloseStart(a, ok) =>
        EndRowKeepsTallies(s, a, ok, End(BackupRun.Failed, s.attempts[a].phase.why), Over(ok));
      case Finish(a, ok) => EndRowKeepsTallies(s, a, ok, s.attempts[a].phase.end, Leaving(ok));
      case _ => OtherStepsKeepTallies(s, step);
    }
  }

  lemma OtherStepsKeepTheRow(s: State, step: Step, a: nat)
    requires Enabled(s, step) && a in s.attempts && Tally(s, a)
    requires !step.Start? && !step.NoteStart? && !step.Create? && !step.CloseStart? && !step.Finish?
    ensures SameRow(s.attempts[a], Next(s, step).attempts[a])
  {
    if !Attempts(step) {
      OutsideChangesCauses(s, step, a);
    } else if step.a != a {
      LeavesAlone(s, step, a);
    } else {
      OwnStepsKeepTheRow(s, step);
    }
  }

  lemma OwnStepsKeepTheRow(s: State, step: Step)
    requires Enabled(s, step) && Attempts(step) && step.a in s.attempts && Tally(s, step.a)
    requires !step.Start? && !step.NoteStart? && !step.Create? && !step.CloseStart? && !step.Finish?
    ensures SameRow(s.attempts[step.a], Next(s, step).attempts[step.a])
  {
  }

  lemma OtherStepsKeepTallies(s: State, step: Step)
    requires Enabled(s, step) && Tallied(s)
    requires !step.NoteStart? && !step.Create? && !step.CloseStart? && !step.Finish?
    ensures Tallied(Next(s, step))
  {
    if step.Start? {
      StartKeepsTallies(s, step.a);
    } else {
      forall a | a in s.attempts
        ensures SameRow(s.attempts[a], Next(s, step).attempts[a])
      {
        OtherStepsKeepTheRow(s, step, a);
      }
      SameRowsKeepTallies(s, Next(s, step));
    }
  }

  lemma StartKeepsTallies(s: State, a: nat)
    requires Tallied(s) && a !in s.attempts
    ensures Tallied(Next(s, Start(a)))
  {
  }

  lemma {:induction false} AlwaysTallied(ss: seq<State>, steps: seq<Step>, i: nat)
    requires Behaviour(ss, steps) && i <= |steps|
    ensures Tallied(ss[i])
  {
    if i > 0 {
      AlwaysTallied(ss, steps, i - 1);
      StepAt(ss, steps, i - 1);
      StepKeepsTallies(ss[i - 1], steps[i - 1]);
    }
  }

  // The one row this attempt owns.
  ghost predicate OnlyRow(rows: seq<RunRow>, a: nat, r: nat) {
    && r < |rows| && rows[r].owner == a
    && forall q :: 0 <= q < |rows| && rows[q].owner == a ==> q == r
  }

  ghost predicate NoRow(rows: seq<RunRow>, a: nat) {
    forall q :: 0 <= q < |rows| ==> rows[q].owner != a
  }

  /** However starts and cancels interleave, an attempt that returned with the store working
      has exactly one row and it is finished; one that was refused has none; and no attempt
      ever has two. */
  lemma OneFinishedRowEach(ss: seq<State>, steps: seq<Step>, i: nat, a: nat)
    requires Behaviour(ss, steps) && i <= |steps| && a in ss[i].attempts
    ensures ss[i].attempts[a].phase == Over(true) ==>
      exists r: nat :: OnlyRow(ss[i].rows, a, r) && ss[i].rows[r].end.Some?
    ensures ss[i].attempts[a].phase == Refused ==> NoRow(ss[i].rows, a)
    ensures NoRow(ss[i].rows, a) || exists r: nat :: OnlyRow(ss[i].rows, a, r)
  {
    AlwaysTallied(ss, steps, i);
    assert Tally(ss[i], a);
    var row := ss[i].attempts[a].row;
    if row.Some? {
      assert OnlyRow(ss[i].rows, a, row.value);
    }
  }

  // A store call of this attempt's that failed.
  predicate StoreFails(step: Step, a: nat) {
    || step == NoteStart(a, false) || step == CloseStart(a, false)
    || step == Create(a, false) || step == Finish(a, false)
  }

  predicate Unkept(phase: Phase) { phase == Leaving(false) || phase == Disarmed(false) || phase == Over(false) }

  lemma StepUnkeeps(s: State, step: Step, a: nat)
    requires Enabled(s, step) && a in Next(s, step).attempts && Unkept(Next(s, step).attempts[a].phase)
    ensures (a in s.attempts && Unkept(s.attempts[a].phase)) || StoreFails(step, a)
  {
    if !Attempts(step) {
      OutsideChangesCauses(s, step, a);
    } else if step.a != a {
      LeavesAlone(s, step, a);
    } else {
      OwnStepUnkeeps(s, step);
    }
  }

  lemma OwnStepUnkeeps(s: State, step: Step)
    requires Enabled(s, step) && Attempts(step)
    requires step.a in Next(s, step).attempts && Unkept(Next(s, step).attempts[step.a].phase)
    ensures (step.a in s.attempts && Unkept(s.attempts[step.a].phase)) || StoreFails(step, step.a)
  {
  }

  /** Nothing but a failing store leaves an attempt unrecorded. */
  lemma {:induction false} OnlyTheStoreLosesRuns(ss: seq<State>, steps: seq<Step>, i: nat, a: nat)
    requires Behaviour(ss, steps) && i <= |steps| && a in ss[i].attempts && Unkept(ss[i].attempts[a].phase)
    ensures exists k :: 0 <= k < i && StoreFails(steps[k], a)
  {
    if i > 0 {
      StepAt(ss, steps, i - 1);
      StepUnkeeps(ss[i - 1], steps[i - 1], a);
      if !StoreFails(steps[i - 1], a) {
        OnlyTheStoreLosesRuns(ss, steps, i - 1, a);
      }
    }
  }

  //////// What a cancel reaches

  /** A press lands on a run when it is the first thing to cancel that run's context. */
  predicate Lands(s: State, step: Step, a: nat, reason: string) {
    && step.Fire? && step.press in s.presses && s.presses[step.press] == Loaded(a, reason)
    && a in s.attempts && s.attempts[a].cause.Unset?
  }

  lemma StepAsks(s: State, step: Step, a: nat, reason: string)
    requires Enabled(s, step) && Unreached(s)
    ensures (a in Next(s, step).attempts && Next(s, step).attempts[a].cause == Asked(reason)) <==>
            ((a in s.attempts && s.attempts[a].cause == Asked(reason)) || Lands(s, step, a, reason))
  {
    if !step.Fire? {
      OnlyFiringAsks(s, step, a, reason);
    }
  }

  lemma OnlyFiringAsks(s: State, step: Step, a: nat, reason: string)
    requires Enabled(s, step) && Unreached(s) && !step.Fire?
    ensures (a in Next(s, step).attempts && Next(s, step).attempts[a].cause == Asked(reason)) <==>
            (a in s.attempts && s.attempts[a].cause == Asked(reason))
  {
    if Attempts(step) {
      if step.a != a {
        LeavesAlone(s, step, a);
      } else {
        OwnStepsAskNothing(s, step, reason);
      }
    }
  }

  lemma OwnStepsAskNothing(s: State, step: Step, reason: string)
    requires Enabled(s, step) && Unreached(s) && Attempts(step)
    ensures (step.a in Next(s, step).attempts && Next(s, step).attempts[step.a].cause == Asked(reason)) <==>
            (step.a in s.attempts && s.attempts[step.a].cause == Asked(reason))
  {
  }

  /** Before its cancel function is stored nothing can reach a run. */
  ghost predicate Unreached(s: State) {
    && (forall a :: a in s.attempts && !s.attempts[a].phase.Reachable() ==> s.attempts[a].cause.Unset?)
    && (forall p :: p in s.presses && s.presses[p].Loaded? ==>
          s.presses[p].target in s.attempts && s.attempts[s.presses[p].target].phase.Reachable())
  }

  lemma ReachableStays(s: State, step: Step, a: nat)
    requires Enabled(s, step) && a in s.attempts && s.attempts[a].phase.Reachable()
    ensures a in Next(s, step).attempts && Next(s, step).attempts[a].phase.Reachable()
  {
  }

  lemma UnreachableIsUncaused(s: State, step: Step, a: nat)
    requires Enabled(s, step) && Unreached(s)
    requires a in Next(s, step).attempts && !Next(s, step).attempts[a].phase.Reachable()
    ensures Next(s, step).attempts[a].cause.Unset?
  {
  }

  lemma StepKeepsUnreached(s: State, step: Step, holder: Option<nat>)
    requires Enabled(s, step) && Held(s, holder) && Unreached(s)
    ensures Unreached(Next(s, step))
  {
    var after := Next(s, step);
    forall a | a in after.attempts && !after.attempts[a].phase.Reachable()
      ensures after.attempts[a].cause.Unset?
    {
      UnreachableIsUncaused(s, step, a);
    }
    forall p | p in after.presses && after.presses[p].Loaded?
      ensures after.presses[p].target in after.attempts
      ensures after.attempts[after.presses[p].target].phase.Reachable()
    {
      ReachableStays(s, step, after.presses[p].target);
    }
  }

  lemma {:induction false} AlwaysUnreached(ss: seq<State>, steps: seq<Step>, i: nat)
    requires Behaviour(ss, steps) && i <= |steps|
    ensures Unreached(ss[i])
  {
    if i > 0 {
      AlwaysUnreached(ss, steps, i - 1);
      var holder := Guarded(ss, steps, i - 1);
      StepAt(ss, steps, i - 1);
      StepKeepsUnreached(ss[i - 1], steps[i - 1], holder);
    }
  }

  ghost predicate LandedBefore(ss: seq<State>, steps: seq<Step>, j: int, a: nat, reason: string)
    requires Behaviour(ss, steps) && 0 <= j <= |steps|
  {
    exists k :: 0 <= k < j && Lands(ss[k], steps[k], a, reason)
  }

  lemma {:induction false} AskedIff(ss: seq<State>, steps: seq<Step>, j: nat, a: nat, reason: string)
    requires Behaviour(ss, steps) && j <= |steps|
    ensures (a in ss[j].attempts && ss[j].attempts[a].cause == Asked(reason)) <==>
            LandedBefore(ss, steps, j, a, reason)
  {
    if j > 0 {
      AskedIff(ss, steps, j - 1, a, reason);
      AlwaysUnreached(ss, steps, j - 1);
      StepAt(ss, steps, j - 1);
      StepAsks(ss[j - 1], steps[j - 1], a, reason);
    }
  }

  //////// What the row says

  // What this attempt's row says, or will say once the store takes it.
  function Verdict(s: State, a: nat): Option<End> {
    if a !in s.attempts then None
    else if s.attempts[a].phase.Looked? then Some(s.attempts[a].phase.end)
    else
      var row := s.attempts[a].row;
      if row.Some? && row.value < |s.rows| then s.rows[row.value].end else None
  }

  predicate ReturnedAt(steps: seq<Step>, j: int, a: nat) {
    0 <= j < |steps| && steps[j].Return? && steps[j].a == a
  }

  // Steps taken by nobody, or by another attempt.
  predicate Elsewhere(step: Step, a: nat) { step.Load? || step.Fire? || step.GoDown? || step.a != a }

  lemma ElsewhereKeepsVerdict(s: State, step: Step, a: nat)
    requires Enabled(s, step) && Tallied(s) && a in s.attempts && Elsewhere(step, a)
    ensures a in Next(s, step).attempts && Verdict(Next(s, step), a) == Verdict(s, a)
  {
    assert Tally(s, a);
    if step.CloseStart? || step.Finish? {
      assert Tally(s, step.a);
      ClosingElsewhere(s, step, a);
    } else {
      NothingClosesElsewhere(s, step, a);
    }
  }

  lemma NothingClosesElsewhere(s: State, step: Step, a: nat)
    requires Enabled(s, step) && a in s.attempts && Tally(s, a)
    requires Elsewhere(step, a) && !step.CloseStart? && !step.Finish?
    ensures a in Next(s, step).attempts && Verdict(Next(s, step), a) == Verdict(s, a)
  {
    if Attempts(step) {
      LeavesAlone(s, step, a);
      RowsOnlyGrow(s, step);
    } else {
      OutsideChangesCauses(s, step, a);
    }
  }

  lemma RowsOnlyGrow(s: State, step: Step)
    requires Enabled(s, step) && Attempts(step) && !step.CloseStart? && !step.Finish?
    ensures s.rows <= Next(s, step).rows
  {
  }

  lemma ClosingElsewhere(s: State, step: Step, a: nat)
    requires Enabled(s, step) && a in s.attempts && Tally(s, a)
    requires (step.CloseStart? || step.Finish?) && step.a != a && Tally(s, step.a)
    ensures a in Next(s, step).attempts && Verdict(Next(s, step), a) == Verdict(s, a)
  {
  }

  lemma OwnStepsKeepVerdict(s: State, step: Step, a: nat)
    requires Enabled(s, step) && a in s.attempts && Tally(s, a)
    requires !Elsewhere(step, a) && !step.Return? && !step.Balk? && !step.CloseStart?
    ensures Verdict(Next(s, step), a).Some? ==> Verdict(s, a) == Verdict(Next(s, step), a)
  {
  }

  // The work is over, and this is what it came to.
  predicate Decides(step: Step, a: nat) { (step.Return? || step.Balk?) && step.a == a }

  function DecisionOf(s: State, step: Step): End
    requires (step.Return? || step.Balk?) && step.a in s.attempts
  {
    if step.Balk? then End(BackupRun.Failed, step.why) else EndOf(s.attempts[step.a], step.own)
  }

  predicate DecidedAt(steps: seq<Step>, j: int, a: nat) {
    0 <= j < |steps| && Decides(steps[j], a)
  }

  // The work is not over for this attempt, and never will be if it failed before the runner.
  predicate Early(s: State, a: nat) {
    a in s.attempts ==>
      var phase := s.attempts[a].phase;
      !phase.Looked? && !phase.Leaving? && !phase.Disarmed? && !phase.Over?
  }

  lemma PhasesGoOn(s: State, step: Step, a: nat)
    requires Enabled(s, step)
    ensures a in s.attempts ==> a in Next(s, step).attempts
    ensures Early(Next(s, step), a) ==> Early(s, a) && !Decides(step, a)
    ensures step.Return? || step.Balk? || step.CloseStart? ==> step.a in s.attempts && Early(s, step.a)
  {
  }

  // What one step does to what an attempt's row says.
  predicate Goes(s: State, step: Step, after: State, a: nat) {
    && (Verdict(after, a).Some? && Verdict(after, a) != Verdict(s, a) ==>
          || Decides(step, a)
          || (step.CloseStart? && step.a == a && !Verdict(after, a).value.outcome.Cancelled?))
    && (Decides(step, a) ==> a in s.attempts && Verdict(after, a) == Some(DecisionOf(s, step)))
    && (Early(after, a) ==> Early(s, a) && !Decides(step, a))
    && (Decides(step, a) || (step.CloseStart? && step.a == a) ==> Early(s, a))
  }

  lemma StepGoes(s: State, step: Step, a: nat)
    requires Enabled(s, step) && Tallied(s)
    ensures Goes(s, step, Next(s, step), a)
  {
    PhasesGoOn(s, step, a);
    if a in s.attempts {
      assert Tally(s, a);
      if Elsewhere(step, a) {
        ElsewhereKeepsVerdict(s, step, a);
      } else if !step.CloseStart? && !Decides(step, a) {
        OwnStepsKeepVerdict(s, step, a);
      }
    }
  }

  lemma {:induction false} DecidedOnce(ss: seq<State>, steps: seq<Step>, i: nat, a: nat) returns (j: Option<nat>)
    requires |ss| == |steps| + 1 && i <= |steps| && Early(ss[0], a) && Verdict(ss[0], a).None?
    requires forall m, n :: 0 <= m < i && n == m + 1 ==> Goes(ss[m], steps[m], ss[n], a)
    ensures Early(ss[i], a) ==> j.None?
    ensures forall k :: k < i && DecidedAt(steps, k, a) ==> j == Some(k)
    ensures j.Some? ==> j.value < i && DecidedAt(steps, j.value, a) && a in ss[j.value].attempts
    ensures var verdict := Verdict(ss[i], a);
            verdict.Some? ==>
              if j.None? then !verdict.value.outcome.Cancelled?
              else verdict.value == DecisionOf(ss[j.value], steps[j.value])
  {
    if i == 0 {
      j := None;
    } else {
      j := DecidedOnce(ss, steps, i - 1, a);
      assert Goes(ss[i - 1], steps[i - 1], ss[i], a);
      if Decides(steps[i - 1], a) {
        j := Some(i - 1);
      }
    }
  }

  /** Each attempt's row says what its work came to, at the one moment it was over: the failed
      preparation, or, if restic was reached, the press or restic's own end. */
  lemma Decided(ss: seq<State>, steps: seq<Step>, i: nat, a: nat) returns (j: Option<nat>)
    requires Behaviour(ss, steps) && i <= |steps|
    ensures Early(ss[i], a) ==> j.None?
    ensures forall k :: k < i && DecidedAt(steps, k, a) ==> j == Some(k)
    ensures j.Some? ==> j.value < i && DecidedAt(steps, j.value, a) && a in ss[j.value].attempts
    ensures var verdict := Verdict(ss[i], a);
            verdict.Some? ==>
              if j.None? then !verdict.value.outcome.Cancelled?
              else verdict.value == DecisionOf(ss[j.value], steps[j.value])
  {
    forall m, n | 0 <= m < i && n == m + 1
      ensures Goes(ss[m], steps[m], ss[n], a)
    {
      AlwaysTallied(ss, steps, m);
      StepAt(ss, steps, m);
      StepGoes(ss[m], steps[m], a);
    }
    j := DecidedOnce(ss, steps, i, a);
  }

  /** A row says "cancelled", in the words given with the press, exactly when restic was reached
      and that press landed before it returned. One that lands during verification, or while
      the end is being written, leaves the outcome as it was. */
  lemma CancelledIff(ss: seq<State>, steps: seq<Step>, i: nat, a: nat, reason: string)
    requires Behaviour(ss, steps) && i <= |steps| && a in ss[i].attempts && Verdict(ss[i], a).Some?
    ensures Verdict(ss[i], a) == Some(End(BackupRun.Cancelled, reason)) <==>
            exists j :: ReturnedAt(steps, j, a) && j < i && LandedBefore(ss, steps, j, a, reason)
  {
    var j := Decided(ss, steps, i, a);
    forall k | ReturnedAt(steps, k, a) && k < i
      ensures j == Some(k as nat)
    {
      assert DecidedAt(steps, k, a);
    }
    if j.Some? && ReturnedAt(steps, j.value, a) {
      StepAt(ss, steps, j.value);
      AskedIff(ss, steps, j.value, a, reason);
    }
  }

  /** A run whose preparation failed says so, even if it had been cancelled before: its cause
      is never looked at. */
  lemma FailedPreparationIsNotCancelled(ss: seq<State>, steps: seq<Step>, j: nat, i: nat, a: nat, why: string)
    requires Behaviour(ss, steps) && j < i <= |steps| && steps[j] == Balk(a, why)
    requires Verdict(ss[i], a).Some?
    ensures Verdict(ss[i], a) == Some(End(BackupRun.Failed, why))
  {
    var decided := Decided(ss, steps, i, a);
    assert DecidedAt(steps, j, a);
  }

  //////// A start that failed

  // It failed for this reason, and its row, once closed, says so.
  ghost predicate FailedFor(s: State, a: nat, why: string, closed: bool) {
    && a in s.attempts
    && (s.attempts[a].phase == Failing(why) || s.attempts[a].phase == Noting(why) || s.attempts[a].phase.Over?)
    && (closed ==> Verdict(s, a).Some?)
    && (Verdict(s, a).Some? ==> Verdict(s, a) == Some(End(BackupRun.Failed, why)))
  }

  lemma StaysFailed(s: State, step: Step, a: nat, why: string, closed: bool)
    requires Enabled(s, step) && Tallied(s) && FailedFor(s, a, why, closed)
    ensures FailedFor(Next(s, step), a, why, closed || step == CloseStart(a, true))
  {
    assert Tally(s, a);
    if Elsewhere(step, a) {
      ElsewhereKeepsVerdict(s, step, a);
      if Attempts(step) {
        LeavesAlone(s, step, a);
      } else {
        OutsideChangesCauses(s, step, a);
      }
    }
  }

  lemma FailsFor(s: State, a: nat, why: string)
    requires Enabled(s, FailEarly(a, why)) && Tallied(s)
    ensures FailedFor(Next(s, FailEarly(a, why)), a, why, false)
  {
    assert Tally(s, a);
  }

  lemma {:induction false} FailedSince(ss: seq<State>, a: nat, why: string, closed: bool, f: nat, i: nat)
    requires f <= i < |ss| && FailedFor(ss[f], a, why, closed)
    requires forall m, n :: f <= m < i && n == m + 1 && FailedFor(ss[m], a, why, closed) ==>
               FailedFor(ss[n], a, why, closed)
    ensures FailedFor(ss[i], a, why, closed)
    decreases i
  {
    if f < i {
      FailedSince(ss, a, why, closed, f, i - 1);
    }
  }

  lemma FailedStays(ss: seq<State>, steps: seq<Step>, f: nat, i: nat, a: nat, why: string, closed: bool)
    requires Behaviour(ss, steps) && f <= i <= |steps| && FailedFor(ss[f], a, why, closed)
    ensures FailedFor(ss[i], a, why, closed)
  {
    forall m, n | f <= m < i && n == m + 1 && FailedFor(ss[m], a, why, closed)
      ensures FailedFor(ss[n], a, why, closed)
    {
      AlwaysTallied(ss, steps, m);
      StepAt(ss, steps, m);
      StaysFailed(ss[m], steps[m], a, why, closed);
    }
    FailedSince(ss, a, why, closed, f, i);
  }

  lemma {:induction false} FailedAt(ss: seq<State>, steps: seq<Step>, j: nat, a: nat) returns (f: nat, why: string)
    requires Behaviour(ss, steps) && j <= |steps| && a in ss[j].attempts
    requires ss[j].attempts[a].phase.Failing? || ss[j].attempts[a].phase.Noting?
    ensures f < j && steps[f] == FailEarly(a, why)
  {
    StepAt(ss, steps, j - 1);
    var s, step := ss[j - 1], steps[j - 1];
    if step.FailEarly? && step.a == a {
      f, why := j - 1, step.why;
    } else {
      FailingBefore(s, step, a);
      f, why := FailedAt(ss, steps, j - 1, a);
    }
  }

  lemma FailingBefore(s: State, step: Step, a: nat)
    requires Enabled(s, step) && !(step.FailEarly? && step.a == a) && a in Next(s, step).attempts
    requires Next(s, step).attempts[a].phase.Failing? || Next(s, step).attempts[a].phase.Noting?
    ensures a in s.attempts && (s.attempts[a].phase.Failing? || s.attempts[a].phase.Noting?)
  {
  }

  /** A row closed for a start that failed says it failed, in the words of that very failure, and
      goes on saying so. */
  lemma FailedStartSaysWhy(ss: seq<State>, steps: seq<Step>, j: nat, i: nat, a: nat) returns (f: nat, why: string)
    requires Behaviour(ss, steps) && j < i <= |steps| && steps[j] == CloseStart(a, true)
    ensures f < j && steps[f] == FailEarly(a, why)
    ensures a in ss[i].attempts && Verdict(ss[i], a) == Some(End(BackupRun.Failed, why))
  {
    StepAt(ss, steps, j);
    f, why := FailedAt(ss, steps, j, a);
    AlwaysTallied(ss, steps, f);
    StepAt(ss, steps, f);
    FailsFor(ss[f], a, why);
    FailedStays(ss, steps, f + 1, j, a, why, false);
    AlwaysTallied(ss, steps, j);
    StaysFailed(ss[j], steps[j], a, why, false);
    FailedStays(ss, steps, j + 1, i, a, why, true);
  }

  /** The two ways out of the work are the two ways one backup ends: for every course of the
      backup itself, the step that matches it leaves the outcome the backup's row has. */
  lemma WorkEndsAsTheBackupDoes(s: State, a: nat, st: BackupRun.State, body: string, w: BackupRun.World, words: string)
    returns (step: Step)
    requires In(s, a, Executing)
    requires w.cancelled == (if s.attempts[a].cause.Asked? then Some(s.attempts[a].cause.reason) else None)
    ensures Enabled(s, step) && Decides(step, a)
    ensures step.Balk? <==> !w.clearFirst || !w.nonceWritten
    ensures DecisionOf(s, step).outcome == BackupRun.Executed(st, a, body, w).1.outcome
  {
    if !w.clearFirst || !w.nonceWritten {
      step := Balk(a, words);
    } else {
      var own := BackupRun.Executed(st, a, body, w.(cancelled := None)).1.outcome;
      step := Return(a, End(own, words));
    }
  }

  // A press keeps the run it found until it lands.
  predicate Holds(before: map<nat, Press>, after: map<nat, Press>, press: nat) {
    press in before ==> press in after && (after[press] == before[press] || after[press].Fired?)
  }

  lemma StepHolds(s: State, step: Step, press: nat)
    requires Enabled(s, step)
    ensures Holds(s.presses, Next(s, step).presses, press)
  {
  }

  lemma {:induction false} HeldThroughout(presses: seq<map<nat, Press>>, m: nat, n: nat, press: nat)
    requires m <= n < |presses| && press in presses[m]
    requires forall k, l :: m <= k < n && l == k + 1 ==> Holds(presses[k], presses[l], press)
    ensures press in presses[n] && (presses[n][press] == presses[m][press] || presses[n][press].Fired?)
    decreases n
  {
    if m < n {
      HeldThroughout(presses, m, n - 1, press);
      assert Holds(presses[n - 1], presses[n], press);
    }
  }

  lemma PressesKeepTheirTarget(ss: seq<State>, steps: seq<Step>, m: nat, n: nat, press: nat)
    requires Behaviour(ss, steps) && m <= n <= |steps| && press in ss[m].presses
    ensures press in ss[n].presses && (ss[n].presses[press] == ss[m].presses[press] || ss[n].presses[press].Fired?)
  {
    var presses := seq(|ss|, k requires 0 <= k < |ss| => ss[k].presses);
    forall k, l | m <= k < n && l == k + 1
      ensures Holds(presses[k], presses[l], press)
    {
      StepAt(ss, steps, k);
      StepHolds(ss[k], steps[k], press);
    }
    HeldThroughout(presses, m, n, press);
  }

  /** A cancel acts on the run it found and on no other: whatever had not stored its cancel
      function when the button was pressed is left alone, however late the press lands. */
  lemma CancelsAreNotInherited(ss: seq<State>, steps: seq<Step>, m: nat, n: nat, press: nat, reason: string, b: nat)
    requires Behaviour(ss, steps) && m < n < |steps|
    requires steps[m] == Load(press, reason) && steps[n] == Fire(press)
    requires b in ss[n].attempts && (b in ss[m].attempts ==> !ss[m].attempts[b].phase.Listening())
    ensures ss[n + 1].attempts[b] == ss[n].attempts[b]
  {
    var holder := Guarded(ss, steps, m);
    PressesKeepTheirTarget(ss, steps, m + 1, n, press);
  }

  /** And a press is turned away exactly when no run has its cancel function stored, which
      includes the moment between winning the guard and storing it. */
  lemma TurnedAwayIff(ss: seq<State>, steps: seq<Step>, m: nat, press: nat, reason: string)
    requires Behaviour(ss, steps) && m < |steps| && steps[m] == Load(press, reason)
    ensures ss[m + 1].presses[press].NothingRunning? <==>
            forall a :: a in ss[m].attempts ==> !ss[m].attempts[a].phase.Listening()
  {
    var holder := Guarded(ss, steps, m);
  }
}
