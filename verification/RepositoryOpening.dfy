/** Opening a repository on the client: look, create if permitted, look again. One sequential
    call, proved against what it leaves behind, and then shown to be exactly the protocol's
    three atomic steps taken with nothing in between. */
module RepositoryOpening {
  import opened Text
  import opened Rotation
  import opened RotationProtocol

  datatype OpenError = CouldNotReach | ThereIsNone | CouldNotCreate | CouldNotReadBack | StillNotThere

  /** `Unasked` is a run without the permission, for which nothing is looked at. */
  datatype Opening = Unasked | AlreadyThere | Fresh | Failed(why: OpenError)

  /** What restic answers to one look, given whether it could be reached at all. */
  function LookAt(present: bool, reached: bool): Look {
    if !reached then Unreachable else if present then Opened else Absent
  }

  class Repository {
    var present: bool
    var snapshots: set<string>

    /** "Absent" is never a guess: it takes a look that reached the place and found nothing. */
    method Exists(reached: bool) returns (look: Look)
      ensures look.Absent? <==> reached && !present
      ensures look.Opened? <==> reached && present
    {
      if !reached { return Unreachable; }
      look := if present then Opened else Absent;
    }

    // restic refuses to initialise a repository that is already there.
    method Initialise(init: Init) returns (ok: bool)
      modifies this
      ensures present == (old(present) || !init.NotCreated?)
      ensures old(present) ==> snapshots == old(snapshots)
      ensures ok == (!old(present) && init.Created?)
    {
      if present || init.NotCreated? { return false; }
      present, snapshots := true, {};
      ok := init.Created?;
    }

    // Somebody else, between the creation and the second look.
    method Meddle(emptied: bool)
      modifies this
      ensures present == (old(present) && !emptied)
      ensures present ==> snapshots == old(snapshots)
    {
      if emptied {
        present := false;
      }
    }

    /** `first` and `second` say whether the two looks reach the repository, `init` how the
        creation goes, `emptied` whether somebody empties the place before the second look.
        Nothing that was there is touched; a repository appears only with the permission, only
        after a look that reached and found nothing; success means a look opened it; and each
        error is answered in one case only. */
    method Ensure(mayCreate: bool, first: bool, init: Init, emptied: bool, second: bool)
      returns (opening: Opening)
      modifies this
      ensures opening != Unasked
      ensures old(present) ==> present && snapshots == old(snapshots)
      ensures !old(present) ==>
        (present <==> mayCreate && first && !init.NotCreated? && !(emptied && init.Created?))
      ensures opening == AlreadyThere <==> first && old(present)
      ensures opening == Fresh <==> first && !old(present) && mayCreate && init.Created? && second && !emptied
      ensures opening == Failed(CouldNotReach) <==> !first
      ensures opening == Failed(ThereIsNone) <==> first && !old(present) && !mayCreate
      ensures opening == Failed(CouldNotCreate) <==> first && !old(present) && mayCreate && !init.Created?
      ensures opening == Failed(CouldNotReadBack) <==>
              first && !old(present) && mayCreate && init.Created? && !second
      ensures opening == Failed(StillNotThere) <==>
              first && !old(present) && mayCreate && init.Created? && second && emptied
    {
      var look := Exists(first);
      if look == Unreachable { return Failed(CouldNotReach); }
      if look == Opened { return AlreadyThere; }
      if !mayCreate { return Failed(ThereIsNone); }
      var ok := Initialise(init);
      if !ok { return Failed(CouldNotCreate); }
      Meddle(emptied);
      look := Exists(second);
      if look == Unreachable { return Failed(CouldNotReadBack); }
      if look == Absent { return Failed(StillNotThere); }
      return Fresh;
    }

    /** The daemon's gate: without the permission on this fetch, nothing happens at all. */
    method OpenForRun(expectEmpty: bool, first: bool, init: Init, emptied: bool, second: bool)
      returns (opening: Opening)
      modifies this
      ensures !expectEmpty ==> opening == Unasked && present == old(present) && snapshots == old(snapshots)
      ensures opening != Failed(ThereIsNone)
      ensures old(present) ==> present && snapshots == old(snapshots)
      ensures !old(present) && present ==> expectEmpty && first
      ensures opening == Fresh || opening == AlreadyThere ==> present
    {
      if !expectEmpty { return Unasked; }
      opening := Ensure(true, first, init, emptied, second);
    }
  }

  /** The protocol's steps for one opening, chosen as the sequential code chooses them. */
  function OpeningSteps(w: World, run: nat, first: bool, init: Init, second: bool): seq<Step>
    requires run in w.runs
  {
    var url := w.runs[run].url;
    if !w.runs[run].permit then [OpenUnasked(run)]
    else if !first || Present(w, url) then [Probe(run, LookAt(Present(w, url), first))]
    else if !init.Created? then [Probe(run, Absent), Create(run, init)]
    else [Probe(run, Absent), Create(run, init), ReadBack(run, LookAt(true, second))]
  }

  ghost predicate Reaches(w: World, steps: seq<Step>, after: World)
    decreases |steps|
  {
    if steps == [] then w == after
    else Enabled(w, steps[0]) && Reaches(Next(w, steps[0]), steps[1..], after)
  }

  /** Taken without interruption, the steps do to the bucket what `Ensure` promises, touch no
      other bucket and not the server, and leave the run ready exactly when `Ensure` (or the
      gate before it) succeeds. */
  lemma OpeningIsItsSteps(w: World, run: nat, first: bool, init: Init, second: bool) returns (after: World)
    requires InPhase(w, run, Holding)
    ensures Reaches(w, OpeningSteps(w, run, first, init, second), after)
    ensures after.server == w.server && run in after.runs
    ensures var url := w.runs[run].url;
            var permit := w.runs[run].permit;
            && (Present(after, url) <==> Present(w, url) || (permit && first && !init.NotCreated?))
            && Snapshots(after, url) == Snapshots(w, url)
            && (forall other :: !SameRepository(other, url) ==>
                  Present(after, other) == Present(w, other) && Snapshots(after, other) == Snapshots(w, other))
            && (after.runs[run].phase.Ready? <==>
                  !permit || (first && (Present(w, url) || (init.Created? && second))))
  {
    var steps := OpeningSteps(w, run, first, init, second);
    after := Next(w, steps[0]);
    if |steps| > 1 {
      var w2 := Next(after, steps[1]);
      assert steps[1..][0] == steps[1];
      if |steps| > 2 {
        assert steps[1..][1..] == [steps[2]];
        assert Reaches(Next(w2, steps[2]), [steps[2]][1..], Next(w2, steps[2]));
        after := Next(w2, steps[2]);
      } else {
        assert steps[1..][1..] == [];
        after := w2;
      }
    }
  }
}
