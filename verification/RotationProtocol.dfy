/** A rotation as a distributed protocol: the server's rows, the buckets, and any number of
    overlapping client runs, one atomic action at a time with everything else allowed in
    between. Reports and release requests may be lost (the step is never taken), repeated, or
    delivered long after the run that caused them. */
module RotationProtocol {
  import opened Wrappers
  import opened Text
  import opened Rotation
  import opened RotationRows

  /** What opening a repository answers. Anything but `Opened` and `Absent` is `Unreachable`:
      a timeout, a wrong region, an expired key, a wrong password. */
  datatype Look = Opened | Absent | Unreachable

  /** How creating a repository ends. `Unheard` is one that was created and reported as an
      error all the same. */
  datatype Init = Created | Unheard | NotCreated

  datatype Phase =
    | Holding                       // the credential answer is in hand
    | SawNothing                    // permitted, and no repository was there
    | Made                          // created, not yet opened again
    | Ready                         // may hand over to restic
    | Wrote(snapshot: string)       // a snapshot exists, not yet read back
    | Ended(event: Event)           // finished; this is what will be reported
    | GaveUp                        // failed before a backup started

  /** One client run. URL, permission and row state come from one answer and never change. */
  datatype Run = Run(url: string, permit: bool, cuttingOver: bool, phase: Phase)

  /** Two spellings of one URL are one bucket. A URL that is not in `buckets` has no
      repository at it. */
  datatype World = World(server: State, buckets: map<string, set<string>>, runs: map<nat, Run>)

  datatype Step =
    // The client
    | Fetch(run: nat)
    | OpenUnasked(run: nat)
    | Probe(run: nat, look: Look)
    | Create(run: nat, init: Init)
    | ReadBack(run: nat, look: Look)
    | Write(run: nat, snapshot: Option<string>)
    | Verify(run: nat, ok: bool)
    | Report(run: nat)
    | AskRelease(run: nat, now: Time)
    // Everything else that reaches the server
    | Other(request: Request)
    // The world
    | Empty(url: string)
    | Appear(url: string, snapshots: set<string>)

  predicate Present(w: World, url: string) { Canon(url) in w.buckets }

  function Snapshots(w: World, url: string): set<string> {
    if Present(w, url) then w.buckets[Canon(url)] else {}
  }

  // Exit codes 0 and "no repository" are believed; every other failure says nothing.
  predicate Truthful(w: World, url: string, look: Look) {
    && (look.Opened? ==> Present(w, url))
    && (look.Absent? ==> !Present(w, url))
  }

  predicate InPhase(w: World, run: nat, phase: Phase) { run in w.runs && w.runs[run].phase == phase }

  predicate Enabled(w: World, step: Step) {
    match step
    case Fetch(run) => run !in w.runs
    case OpenUnasked(run) => InPhase(w, run, Holding) && !w.runs[run].permit
    case Probe(run, look) =>
      InPhase(w, run, Holding) && w.runs[run].permit && Truthful(w, w.runs[run].url, look)
    case Create(run, init) =>
      InPhase(w, run, SawNothing) && (!init.NotCreated? ==> !Present(w, w.runs[run].url))
    case ReadBack(run, look) => InPhase(w, run, Made) && Truthful(w, w.runs[run].url, look)
    case Write(run, snapshot) =>
      InPhase(w, run, Ready) && (snapshot.Some? ==> Present(w, w.runs[run].url) && snapshot.value != "")
    case Verify(run, ok) =>
      && run in w.runs && w.runs[run].phase.Wrote?
      && (ok ==> w.runs[run].phase.snapshot in Snapshots(w, w.runs[run].url))
    case Report(run) => run in w.runs && w.runs[run].phase.Ended?
    case AskRelease(run, now) =>
      && run in w.runs && w.runs[run].phase.Ended? && w.runs[run].cuttingOver
      && w.runs[run].phase.event.snapshot != "" && w.runs[run].phase.event.verified
    case Other(request) => !request.Land? && !request.ReleaseOld?
    case Empty(url) => true
    case Appear(url, snapshots) => true
  }

  /** The request a step makes of the server, if it makes one. */
  function RequestOf(w: World, step: Step): Option<Request>
    requires Enabled(w, step)
  {
    match step
    case Report(run) => Some(Land(w.runs[run].phase.event))
    case AskRelease(run, now) => Some(ReleaseOld(w.runs[run].url, now))
    case Other(request) => Some(request)
    case _ => None
  }

  function At(w: World, run: nat, phase: Phase): World
    requires run in w.runs
  {
    w.(runs := w.runs[run := w.runs[run].(phase := phase)])
  }

  function Filled(w: World, url: string, snapshots: set<string>): World {
    w.(buckets := w.buckets[Canon(url) := Snapshots(w, url) + snapshots])
  }

  function Next(w: World, step: Step): World
    requires Enabled(w, step)
  {
    match step
    case Fetch(run) =>
      (match Credentials(w.server)
       case None => w
       case Some(grant) =>
         w.(runs := w.runs[run := Run(grant.url, grant.permit, grant.state.CuttingOver?, Holding)]))
    case OpenUnasked(run) => At(w, run, Ready)
    case Probe(run, look) =>
      At(w, run, match look case Opened => Ready case Absent => SawNothing case Unreachable => GaveUp)
    case Create(run, init) =>
      var made := if init.NotCreated? then w else w.(buckets := w.buckets[Canon(w.runs[run].url) := {}]);
      At(made, run, if init.Created? then Made else GaveUp)
    case ReadBack(run, look) => At(w, run, if look.Opened? then Ready else GaveUp)
    case Write(run, snapshot) =>
      var url := w.runs[run].url;
      (match snapshot
       case None => At(w, run, Ended(Event(true, url, "", false)))
       case Some(id) => At(Filled(w, url, {id}), run, Wrote(id)))
    case Verify(run, ok) =>
      At(w, run, Ended(Event(true, w.runs[run].url, w.runs[run].phase.snapshot, ok)))
    case Report(_) => w.(server := Serve(w.server, RequestOf(w, step).value).0)
    case AskRelease(_, _) => w.(server := Serve(w.server, RequestOf(w, step).value).0)
    case Other(_) => w.(server := Serve(w.server, RequestOf(w, step).value).0)
    case Empty(url) => w.(buckets := w.buckets - {Canon(url)})
    case Appear(url, snapshots) => Filled(w, url, snapshots)
  }

  /** A run of the whole system: the server starts with one active row and nobody has asked
      for anything; the buckets may hold anything. */
  ghost predicate Initial(w: World) {
    && w.runs == map[]
    && exists url: string, adopted: bool, created: Time :: w.server == Start(url, adopted, created)
  }

  ghost predicate Behaviour(ws: seq<World>, steps: seq<Step>) {
    && |ws| == |steps| + 1
    && Initial(ws[0])
    && forall i, k :: 0 <= i < |steps| && k == i + 1 ==> Enabled(ws[i], steps[i]) && ws[k] == Next(ws[i], steps[i])
  }

  // The step taken at one place.
  lemma StepAt(ws: seq<World>, steps: seq<Step>, i: nat)
    requires Behaviour(ws, steps) && i < |steps|
    ensures Enabled(ws[i], steps[i]) && ws[i + 1] == Next(ws[i], steps[i])
  {
    var after := ws[i + 1];
  }

  // The step puts a URL into the rows.
  predicate Introduces(step: Step, url: string) {
    && step.Other?
    && (step.request.Offer? || step.request.PointAt?)
    && SameRepository(step.request.url, url)
  }

  /** An offer of this URL as ordinary empty storage. */
  predicate Reoffers(request: Request, url: string) {
    request.Offer? && request.url != "" && !request.adopted && SameRepository(request.url, url)
  }

  predicate Reopens(step: Step, url: string) { step.Other? && Reoffers(step.request, url) }

  predicate Creates(w: World, step: Step, url: string) {
    && step.Create? && !step.init.NotCreated?
    && step.run in w.runs && SameRepository(w.runs[step.run].url, url)
  }
}
