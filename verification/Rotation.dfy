/** The server's half of a bucket rotation, as functions on values: the repository rows and
    what each request does to them. `RotationStub.Server` is the mutable server proved
    against these functions; `RotationRows` and `RotationSafety` hold the theorems. */
module Rotation {
  import opened Wrappers
  import opened Text

  type Time = int

  datatype RowState = Offered | CuttingOver | Active | Retired {
    // The order in which a row may move through its states.
    function Rank(): nat {
      match this
      case Offered => 0
      case CuttingOver => 1
      case Active => 2
      case Retired => 3
    }
  }

  datatype Row = Row(
    url: string,
    state: RowState,
    createdAt: Time,
    adopted: bool,
    offeredAt: Option<Time>,
    releaseAskedAt: Option<Time>,
    snapshot: bool,
    verified: bool)

  datatype State = State(rows: seq<Row>, rotationAsked: bool)

  /** A finished or started run, as the machine reports it. */
  datatype Event = Event(finished: bool, url: string, snapshot: string, verified: bool)

  datatype Refusal =
    | NothingOffered
    | AlreadyAsked
    | AlreadyCuttingOver
    | OfferWaiting
    | NotCuttingOver
    | NothingVerified
    | NoEarlierBucket
    | NotSteady

  datatype Reply =
    | NoRepository
    | BadRequest
    | Conflict(why: Refusal)
    | WrongUrl(expected: string)
    | Asked
    | MovedTo(url: string)
    | LetGo(url: string, askedAt: Time)
    | Done
    | RetiredRow(gone: string, promoted: string)

  /** What a credential fetch answers, in one reply: where to write, that row's state, and
      whether this machine may create a repository there. */
  datatype Grant = Grant(url: string, state: RowState, permit: bool)

  //////// Selecting rows

  /** What a read-only search over the rows is looking for. */
  datatype Selector =
    | InState(state: RowState)
    | Named(url: string)
    | LeftBehind(current: nat)

  predicate Meets(sel: Selector, k: nat, row: Row) {
    match sel
    case InState(state) => row.state == state
    case Named(url) => SameRepository(row.url, url)
    case LeftBehind(current) => k != current && !row.state.Retired? && !row.state.Offered?
  }

  function First(rows: seq<Row>, sel: Selector, from: nat := 0): (found: Option<nat>)
    requires from <= |rows|
    ensures found.Some? ==> from <= found.value < |rows| && Meets(sel, found.value, rows[found.value])
    ensures forall j :: from <= j < (if found.Some? then found.value else |rows|) ==> !Meets(sel, j, rows[j])
    decreases |rows| - from
  {
    if from == |rows| then None
    else if Meets(sel, from, rows[from]) then Some(from)
    else First(rows, sel, from + 1)
  }

  function Last(rows: seq<Row>, sel: Selector): (found: Option<nat>)
    ensures found.Some? ==> found.value < |rows| && Meets(sel, found.value, rows[found.value])
    ensures forall j :: (if found.Some? then found.value + 1 else 0) <= j < |rows| ==> !Meets(sel, j, rows[j])
  {
    if rows == [] then None
    else if Meets(sel, |rows| - 1, rows[|rows| - 1]) then Some(|rows| - 1)
    else Last(rows[..|rows| - 1], sel)
  }

  /** The repository the machine writes to: a cutting-over row wins over an active one. */
  function Current(rows: seq<Row>): (found: Option<nat>)
    ensures found.Some? ==>
              found.value < |rows| && (rows[found.value].state.CuttingOver? || rows[found.value].state.Active?)
    ensures found.None? ==> forall k :: 0 <= k < |rows| ==> rows[k].state.Offered? || rows[k].state.Retired?
  {
    var cutting := First(rows, InState(CuttingOver));
    if cutting.Some? then cutting else Last(rows, InState(Active))
  }

  function OfferedRow(rows: seq<Row>): Option<nat> { Last(rows, InState(Offered)) }

  function Find(rows: seq<Row>, url: string): Option<nat> { First(rows, Named(url)) }

  function PreviousTo(rows: seq<Row>, current: nat): Option<nat> { Last(rows, LeftBehind(current)) }

  predicate ExpectEmpty(row: Row) { row.state.CuttingOver? && !row.adopted && !row.snapshot }

  //////// Requests

  function Credentials(s: State): Option<Grant> {
    var cur := Current(s.rows);
    if cur.None? then None
    else
      var row := s.rows[cur.value];
      Some(Grant(row.url, row.state, ExpectEmpty(row)))
  }

  function RotationRequest(s: State): (State, Reply) {
    var cur := Current(s.rows);
    if cur.None? then (s, NoRepository)
    else if s.rotationAsked then (s, Conflict(AlreadyAsked))
    else if s.rows[cur.value].state.CuttingOver? then (s, Conflict(AlreadyCuttingOver))
    else if OfferedRow(s.rows).Some? then (s, Conflict(OfferWaiting))
    else (s.(rotationAsked := true), Asked)
  }

  function Cutover(s: State, named: string): (State, Reply) {
    var cur := Current(s.rows);
    if cur.None? then (s, NoRepository)
    else if s.rows[cur.value].state.CuttingOver? && SameRepository(s.rows[cur.value].url, named) then
      (s, MovedTo(s.rows[cur.value].url))
    else
      var offer := OfferedRow(s.rows);
      if offer.None? then (s, Conflict(NothingOffered))
      else if !SameRepository(s.rows[offer.value].url, named) then (s, WrongUrl(s.rows[offer.value].url))
      else
        (State(s.rows[offer.value := s.rows[offer.value].(state := CuttingOver)], false),
         MovedTo(s.rows[offer.value].url))
  }

  function OldBucket(s: State, named: string, now: Time): (State, Reply) {
    var cur := Current(s.rows);
    if cur.None? then (s, NoRepository)
    else
      var row := s.rows[cur.value];
      if !row.state.CuttingOver? then (s, Conflict(NotCuttingOver))
      else if !SameRepository(row.url, named) then (s, WrongUrl(row.url))
      else if !row.verified then (s, Conflict(NothingVerified))
      else
        var prev := PreviousTo(s.rows, cur.value);
        if prev.None? then (s, Conflict(NoEarlierBucket))
        else
          var left := s.rows[prev.value];
          var at := if left.releaseAskedAt.Some? then left.releaseAskedAt.value else now;
          (s.(rows := s.rows[prev.value := left.(releaseAskedAt := Some(at))]),
           LetGo(left.url, at))
  }

  function NoteRun(s: State, event: Event): State {
    if !event.finished || event.snapshot == "" then s
    else
      var found := Find(s.rows, event.url);
      if found.None? then s
      else
        var row := s.rows[found.value];
        s.(rows := s.rows[found.value := row.(snapshot := true, verified := row.verified || event.verified)])
  }

  function AdminOffer(s: State, url: string, adopted: bool, now: Time): (State, Reply) {
    if url == "" then (s, BadRequest)
    else
      var row := Row(url, Offered, now, adopted, Some(now), None, false, false);
      (s.(rows := s.rows + [row]), Done)
  }

  function AdminRetire(s: State): (State, Reply) {
    var cur := Current(s.rows);
    if cur.None? || !s.rows[cur.value].state.CuttingOver? then (s, Conflict(NotCuttingOver))
    else
      var prev := PreviousTo(s.rows, cur.value);
      if prev.None? then (s, Conflict(NoEarlierBucket))
      else
        (s.(rows := s.rows[prev.value := s.rows[prev.value].(state := Retired)]
                          [cur.value := s.rows[cur.value].(state := Active)]),
         RetiredRow(s.rows[prev.value].url, s.rows[cur.value].url))
  }

  function AdminPointAt(s: State, url: string): (State, Reply) {
    if url == "" then (s, BadRequest)
    else
      var cur := Current(s.rows);
      if cur.None? then (s, NoRepository)
      else if !s.rows[cur.value].state.Active? then (s, Conflict(NotSteady))
      else
        var row := s.rows[cur.value];
        (s.(rows := s.rows[cur.value :=
           row.(url := url, snapshot := false, verified := false)]), Done)
  }

  /** Every request that can change the rows. */
  datatype Request =
    | AskRotation
    | AcceptOffer(named: string)
    | ReleaseOld(named: string, now: Time)
    | Land(event: Event)
    | Offer(url: string, adopted: bool, now: Time)
    | Retire
    | PointAt(url: string)

  function Serve(s: State, request: Request): (State, Reply) {
    match request
    case AskRotation => RotationRequest(s)
    case AcceptOffer(named) => Cutover(s, named)
    case ReleaseOld(named, now) => OldBucket(s, named, now)
    case Land(event) => (NoteRun(s, event), Done)
    case Offer(url, adopted, now) => AdminOffer(s, url, adopted, now)
    case Retire => AdminRetire(s)
    case PointAt(url) => AdminPointAt(s, url)
  }

  function ServeAll(s: State, requests: seq<Request>): State
    decreases |requests|
  {
    if requests == [] then s
    else ServeAll(Serve(s, requests[0]).0, requests[1..])
  }

  /** The state the server starts in: one active row. */
  function Start(url: string, adopted: bool, created: Time): State {
    State([Row(url, Active, created, adopted, None, None, false, false)], false)
  }
}
