/** Telling the fleet dashboard about runs: sent in order, marked only once answered, at least
    once each. The dashboard keeps one row per run, and that makes it exactly once. */
module Reporting {
  import opened Wrappers

  /** What the dashboard is sent. `detail` is everything read off the stored run; `agent` is the
      version of the program doing the sending, which may be a later one on a second try. */
  datatype Event = Event(uuid: string, detail: string, agent: string) {
    // A run whose identity could not be minted, or that failed before one was, has none.
    predicate Identified() { uuid != "" }
  }

  /** A stored run: `detail` is missing until it is finished. */
  datatype Run = Run(uuid: string, detail: Option<string>, reported: bool) {
    predicate Waiting() { detail.Some? && !reported }
  }

  /** Whether the request arrived, whether its answer did, and whether that answer called it
      malformed, which a server may say of any event. */
  datatype Net = Delivered | TurnedDown | Unheard | NotSent {
    predicate Stores() { Delivered? || Unheard? }
    predicate Answers() { Delivered? || TurnedDown? }
  }

  datatype Reply = Accepted | Rejected | NoReply

  /** An event without an identity is malformed on any server's reading. */
  function ReplyTo(e: Event, net: Net): Reply {
    match net
    case Delivered => if e.Identified() then Accepted else Rejected
    case TurnedDown => Rejected
    case _ => NoReply
  }

  /** `accepted` and `rejected` are the runs whose event the client has seen answered so. */
  datatype State = State(runs: seq<Run>, dashboard: seq<Event>, accepted: set<nat>, rejected: set<nat>)

  predicate Has(dashboard: seq<Event>, uuid: string) {
    exists i :: 0 <= i < |dashboard| && dashboard[i].uuid == uuid
  }

  /** The server's side of the bargain: a run it has already is accepted and not added again. */
  function Received(dashboard: seq<Event>, e: Event): seq<Event> {
    if !e.Identified() || Has(dashboard, e.uuid) then dashboard else dashboard + [e]
  }

  datatype Action =
    | Open(uuid: string)
    | Close(id: nat, detail: string)
    | Send(id: nat, event: Event, net: Net)
    | Mark(id: nat)

  predicate Describes(e: Event, r: Run) { r.detail.Some? && e.uuid == r.uuid && e.detail == r.detail.value }

  /** Identities are minted afresh; only finished runs are sent, as they were stored; only
      answered ones are marked. */
  ghost predicate Enabled(s: State, act: Action) {
    match act
    case Open(uuid) => uuid != "" ==> forall k :: 0 <= k < |s.runs| ==> s.runs[k].uuid != uuid
    case Close(id, _) => id < |s.runs| && s.runs[id].detail.None?
    case Send(id, event, _) => id < |s.runs| && Describes(event, s.runs[id])
    case Mark(id) => id < |s.runs| && (id in s.accepted || id in s.rejected)
  }

  function Act(s: State, act: Action): State {
    match act
    case Open(uuid) => s.(runs := s.runs + [Run(uuid, None, false)])
    case Close(id, detail) =>
      if id < |s.runs| then s.(runs := s.runs[id := s.runs[id].(detail := Some(detail))]) else s
    case Send(id, event, net) =>
      var reply := ReplyTo(event, net);
      s.(dashboard := if net.Stores() then Received(s.dashboard, event) else s.dashboard,
         accepted := if reply.Accepted? then s.accepted + {id} else s.accepted,
         rejected := if reply.Rejected? then s.rejected + {id} else s.rejected)
    case Mark(id) =>
      if id < |s.runs| then s.(runs := s.runs[id := s.runs[id].(reported := true)]) else s
  }

  function Perform(s: State, acts: seq<Action>): State
    decreases |acts|
  {
    if acts == [] then s else Perform(Act(s, acts[0]), acts[1..])
  }

  ghost predicate Allowed(s: State, acts: seq<Action>)
    decreases |acts|
  {
    acts != [] ==> Enabled(s, acts[0]) && Allowed(Act(s, acts[0]), acts[1..])
  }

  //////// One flush

  const FLUSH_LIMIT := 50

  datatype Pending = Pending(id: nat, event: Event)

  function EventFor(r: Run, agent: string): Event
    requires r.detail.Some?
  {
    Event(r.uuid, r.detail.value, agent)
  }

  /** A limit that is not positive means the usual one. */
  function LimitFor(limit: int): nat { if limit <= 0 then FLUSH_LIMIT else limit }

  /** The runs waiting from some place on, oldest first and no more than `limit`. */
  function Oldest(runs: seq<Run>, limit: nat, agent: string, from: nat := 0): seq<Pending>
    requires from <= |runs|
    decreases |runs| - from
  {
    if from == |runs| || limit == 0 then []
    else if runs[from].Waiting() then
      [Pending(from, EventFor(runs[from], agent))] + Oldest(runs, limit - 1, agent, from + 1)
    else Oldest(runs, limit, agent, from + 1)
  }

  /** Finished, unmarked runs only, as they were stored, in order; all of them, or `limit` with
      none younger before any older. */
  ghost predicate Waits(runs: seq<Run>, limit: nat, from: nat, waiting: seq<Pending>) {
    && |waiting| <= limit
    && (forall i :: 0 <= i < |waiting| ==> from <= waiting[i].id && AsStored(runs, waiting[i]))
    && (forall i, j :: 0 <= i < j < |waiting| ==> waiting[i].id < waiting[j].id)
    && (forall k :: from <= k < |runs| && runs[k].Waiting() ==>
          Among(waiting, k) || (|waiting| == limit && forall i :: 0 <= i < |waiting| ==> waiting[i].id < k))
  }

  predicate AsStored(runs: seq<Run>, p: Pending) {
    p.id < |runs| && runs[p.id].Waiting() && Describes(p.event, runs[p.id])
  }

  ghost predicate Among(waiting: seq<Pending>, k: nat) { exists i :: 0 <= i < |waiting| && waiting[i].id == k }

  lemma WaitingOneMore(runs: seq<Run>, limit: nat, from: nat, first: Pending, rest: seq<Pending>)
    requires from < |runs| && limit > 0 && Waits(runs, limit - 1, from + 1, rest)
    requires runs[from].Waiting() && first.id == from && Describes(first.event, runs[from])
    ensures Waits(runs, limit, from, [first] + rest)
  {
    var waiting := [first] + rest;
    assert waiting[0] == first && forall i :: 0 < i < |waiting| ==> waiting[i] == rest[i - 1];
    forall k | from <= k < |runs| && runs[k].Waiting()
      ensures Among(waiting, k) || (|waiting| == limit && forall i :: 0 <= i < |waiting| ==> waiting[i].id < k)
    {
      AmongOneMore(first, rest, k);
    }
  }

  lemma AmongOneMore(first: Pending, rest: seq<Pending>, k: nat)
    ensures Among([first] + rest, k) <==> first.id == k || Among(rest, k)
  {
    var waiting := [first] + rest;
    assert waiting[0] == first && forall i :: 0 <= i < |rest| ==> waiting[i + 1] == rest[i];
    if Among(waiting, k) {
      var i :| 0 <= i < |waiting| && waiting[i].id == k;
      assert i > 0 ==> rest[i - 1].id == k;
    }
  }

  lemma {:induction false} OldestWaits(runs: seq<Run>, limit: nat, agent: string, from: nat)
    requires from <= |runs|
    ensures Waits(runs, limit, from, Oldest(runs, limit, agent, from))
    decreases |runs| - from
  {
    if from < |runs| && limit > 0 {
      if runs[from].Waiting() {
        var first := Pending(from, EventFor(runs[from], agent));
        OldestWaits(runs, limit - 1, agent, from + 1);
        WaitingOneMore(runs, limit, from, first, Oldest(runs, limit - 1, agent, from + 1));
      } else {
        OldestWaits(runs, limit, agent, from + 1);
      }
    }
  }

  function Unreported(runs: seq<Run>, limit: int, agent: string): (waiting: seq<Pending>)
    ensures Waits(runs, LimitFor(limit), 0, waiting)
  {
    OldestWaits(runs, LimitFor(limit), agent, 0);
    Oldest(runs, LimitFor(limit), agent)
  }

  /** How one round trip goes, and whether the store then takes the mark. */
  datatype Luck = Luck(net: Net, mark: bool)

  predicate Stops(p: Pending, l: Luck) { ReplyTo(p.event, l.net).NoReply? || !l.mark }

  /** What a flush does, in order: everything up to the first event that gets no answer or
      whose mark is not taken. */
  function FlushActions(pending: seq<Pending>, luck: seq<Luck>): seq<Action>
    requires |luck| == |pending|
    decreases |pending|
  {
    if pending == [] then []
    else
      var p := pending[0];
      [Send(p.id, p.event, luck[0].net)]
      + (if Stops(p, luck[0]) then []
         else [Mark(p.id)] + FlushActions(pending[1..], luck[1..]))
  }

  // One event sent, and marked if it was answered.
  function Tried(s: State, p: Pending, l: Luck): State {
    var sent := Act(s, Send(p.id, p.event, l.net));
    if Stops(p, l) then sent else Act(sent, Mark(p.id))
  }

  // One more, if this reply is good.
  function Counted(n: nat, reply: Reply): nat { if reply.Accepted? then n + 1 else n }

  // How many of the first `n` landed.
  function Landed(pending: seq<Pending>, luck: seq<Luck>, n: nat): nat
    requires n <= |luck| == |pending|
  {
    if n == 0 then 0 else Counted(Landed(pending, luck, n - 1), ReplyTo(pending[n - 1].event, luck[n - 1].net))
  }

  lemma {:induction false} LandedIsCounted(pending: seq<Pending>, luck: seq<Luck>, n: nat)
    requires n <= |luck| == |pending|
    ensures Landed(pending, luck, n) == multiset(Replies(pending, luck, n))[Accepted]
  {
    if n > 0 {
      LandedIsCounted(pending, luck, n - 1);
    }
  }

  // The state it leaves, one event at a time.
  function FlushFrom(s: State, pending: seq<Pending>, luck: seq<Luck>, i: nat := 0): State
    requires i <= |luck| == |pending|
    decreases |pending| - i
  {
    if i == |pending| then s
    else
      var next := Tried(s, pending[i], luck[i]);
      if Stops(pending[i], luck[i]) then next else FlushFrom(next, pending, luck, i + 1)
  }

  /** How many of them are marked. */
  function Through(pending: seq<Pending>, luck: seq<Luck>): (n: nat)
    requires |luck| == |pending|
    ensures n <= |pending|
    decreases |pending|
  {
    if pending == [] || Stops(pending[0], luck[0]) then 0
    else 1 + Through(pending[1..], luck[1..])
  }

  // The first `n` of them let the flush go on.
  ghost predicate AllThrough(pending: seq<Pending>, luck: seq<Luck>, n: nat)
    requires n <= |luck| == |pending|
  {
    forall j :: 0 <= j < n ==> !Stops(pending[j], luck[j])
  }

  lemma {:induction false} ThroughIs(pending: seq<Pending>, luck: seq<Luck>, n: nat)
    requires n <= |luck| == |pending| && AllThrough(pending, luck, n)
    requires n < |pending| ==> Stops(pending[n], luck[n])
    ensures Through(pending, luck) == n
    decreases |pending|
  {
    if n > 0 {
      ThroughIs(pending[1..], luck[1..], n - 1);
    }
  }

  /** What the first `n` are answered. */
  function Replies(pending: seq<Pending>, luck: seq<Luck>, n: nat): (replies: seq<Reply>)
    requires n <= |luck| == |pending|
    ensures |replies| == n
  {
    if n == 0 then []
    else Replies(pending, luck, n - 1) + [ReplyTo(pending[n - 1].event, luck[n - 1].net)]
  }

  /** A run that has just ended is reported out of line, and marked only if it landed. */
  function InlineActions(id: nat, event: Event, luck: Luck): seq<Action> {
    [Send(id, event, luck.net)]
    + (if ReplyTo(event, luck.net).Accepted? && luck.mark then [Mark(id)] else [])
  }

  class Machine {
    var runs: seq<Run>
    var dashboard: seq<Event>
    ghost var accepted: set<nat>
    ghost var rejected: set<nat>

    constructor ()
      ensures Abstract() == State([], [], {}, {})
    {
      runs, dashboard, accepted, rejected := [], [], {}, {};
    }

    ghost function Abstract(): State
      reads this
    {
      State(runs, dashboard, accepted, rejected)
    }

    method Report(id: nat, event: Event, net: Net) returns (reply: Reply)
      modifies this
      ensures reply == ReplyTo(event, net)
      ensures Abstract() == Act(old(Abstract()), Send(id, event, net))
    {
      if net.Stores() {
        dashboard := Received(dashboard, event);
      }
      reply := ReplyTo(event, net);
      match reply {
        case Accepted => accepted := accepted + {id};
        case Rejected => rejected := rejected + {id};
        case NoReply =>
      }
    }

    method MarkReported(id: nat, ok: bool) returns (done: bool)
      requires id < |runs|
      modifies this
      ensures done == ok
      ensures Abstract() == if ok then Act(old(Abstract()), Mark(id)) else old(Abstract())
    {
      if ok {
        runs := runs[id := runs[id].(reported := true)];
      }
      done := ok;
    }

    method ReportEnd(id: nat, event: Event, luck: Luck)
      requires id < |runs|
      modifies this
      ensures Abstract() == Perform(old(Abstract()), InlineActions(id, event, luck))
    {
      var reply := Report(id, event, luck.net);
      if reply.Accepted? {
        ghost var sent := Abstract();
        var marked := MarkReported(id, luck.mark);
        assert Perform(sent, [Mark(id)]) == Perform(Act(sent, Mark(id)), []);
      }
    }

    // One event of a flush: unanswered, it is not marked.
    method ReportAndMark(p: Pending, luck: Luck) returns (reply: Reply, marked: bool)
      requires p.id < |runs|
      modifies this
      ensures reply == ReplyTo(p.event, luck.net) && (marked <==> !Stops(p, luck))
      ensures Abstract() == Tried(old(Abstract()), p, luck) && |runs| == old(|runs|)
    {
      marked := false;
      reply := Report(p.id, p.event, luck.net);
      if !reply.NoReply? {
        marked := MarkReported(p.id, luck.mark);
      }
    }

    method Flush(pending: seq<Pending>, luck: seq<Luck>) returns (sent: nat, failed: bool)
      requires |luck| == |pending| && forall i :: 0 <= i < |pending| ==> pending[i].id < |runs|
      modifies this
      ensures Abstract() == Perform(old(Abstract()), FlushActions(pending, luck))
      ensures sent == multiset(Replies(pending, luck, Through(pending, luck)))[Accepted]
      ensures failed <==> Through(pending, luck) < |pending|
    {
      sent, failed := 0, false;
      var i := 0;
      while i < |pending|
        invariant 0 <= i <= |pending| && |runs| == old(|runs|)
        invariant FlushFrom(old(Abstract()), pending, luck) == FlushFrom(Abstract(), pending, luck, i)
        invariant AllThrough(pending, luck, i) && sent == Landed(pending, luck, i)
      {
        var reply, marked := ReportAndMark(pending[i], luck[i]);
        if !marked {
          ThroughIs(pending, luck, i);
          LandedIsCounted(pending, luck, i);
          FlushIs(old(Abstract()), pending, luck);
          return sent, true;
        }
        if reply.Accepted? {
          sent := sent + 1;
        }
        i := i + 1;
      }
      ThroughIs(pending, luck, i);
      LandedIsCounted(pending, luck, i);
      FlushIs(old(Abstract()), pending, luck);
    }
  }

  lemma PerformFirst(s: State, a: Action, rest: seq<Action>)
    ensures Perform(s, [a] + rest) == Perform(Act(s, a), rest)
  {
    assert ([a] + rest)[1..] == rest;
  }

  // A flush tries the first and, if that worked, the rest.
  lemma FlushBegins(s: State, pending: seq<Pending>, luck: seq<Luck>)
    requires |luck| == |pending| > 0
    ensures var next := Tried(s, pending[0], luck[0]);
            Perform(s, FlushActions(pending, luck)) ==
            if Stops(pending[0], luck[0]) then next else Perform(next, FlushActions(pending[1..], luck[1..]))
  {
    var p := pending[0];
    var send := Send(p.id, p.event, luck[0].net);
    if Stops(p, luck[0]) {
      PerformFirst(s, send, []);
    } else {
      var rest := FlushActions(pending[1..], luck[1..]);
      PerformFirst(s, send, [Mark(p.id)] + rest);
      PerformFirst(Act(s, send), Mark(p.id), rest);
    }
  }

  lemma {:induction false} FlushFromIs(s: State, pending: seq<Pending>, luck: seq<Luck>, i: nat)
    requires i <= |luck| == |pending|
    ensures FlushFrom(s, pending, luck, i) == Perform(s, FlushActions(pending[i..], luck[i..]))
    decreases |pending| - i
  {
    if i < |pending| {
      FlushBegins(s, pending[i..], luck[i..]);
      if !Stops(pending[i], luck[i]) {
        FlushFromIs(Tried(s, pending[i], luck[i]), pending, luck, i + 1);
        assert pending[i..][1..] == pending[i + 1..] && luck[i..][1..] == luck[i + 1..];
      }
    }
  }

  lemma FlushIs(s: State, pending: seq<Pending>, luck: seq<Luck>)
    requires |luck| == |pending|
    ensures FlushFrom(s, pending, luck) == Perform(s, FlushActions(pending, luck))
  {
    assert pending[0..] == pending && luck[0..] == luck;
    FlushFromIs(s, pending, luck, 0);
  }

  //////// Diagnostics waiting on disk

  datatype Queued = Queued(id: string, report: string)

  datatype SinkReply = Taken | Malformed | Unreachable

  /** The queue without the report of this name. */
  function Without(waiting: seq<Queued>, id: string): seq<Queued> {
    if waiting == [] then []
    else (if waiting[0].id == id then [] else [waiting[0]]) + Without(waiting[1..], id)
  }

  lemma {:induction false} WithoutAbsent(waiting: seq<Queued>, id: string)
    requires forall q :: q in waiting ==> q.id != id
    ensures Without(waiting, id) == waiting
  {
    if waiting != [] {
      WithoutAbsent(waiting[1..], id);
    }
  }

  ghost predicate UniqueNames(waiting: seq<Queued>) {
    forall i, j :: 0 <= i < j < |waiting| ==> waiting[i].id != waiting[j].id
  }

  lemma WithoutFirst(waiting: seq<Queued>, i: nat)
    requires i < |waiting| && UniqueNames(waiting)
    ensures Without(waiting[i..], waiting[i].id) == waiting[i + 1..]
  {
    assert waiting[i..][1..] == waiting[i + 1..];
    WithoutAbsent(waiting[i + 1..], waiting[i].id);
  }

  /** How many are sent, or refused, and removed before the first that is not. */
  function Cleared(replies: seq<SinkReply>, removed: seq<bool>): (n: nat)
    requires |replies| == |removed|
    ensures n <= |replies|
    decreases |replies|
  {
    if replies == [] || replies[0].Unreachable? || !removed[0] then 0
    else 1 + Cleared(replies[1..], removed[1..])
  }

  lemma {:induction false} ClearedIs(replies: seq<SinkReply>, removed: seq<bool>, n: nat)
    requires n <= |replies| == |removed| && GoneThrough(replies, removed, n)
    requires n < |replies| ==> replies[n].Unreachable? || !removed[n]
    ensures Cleared(replies, removed) == n
    decreases |replies|
  {
    if n > 0 {
      ClearedIs(replies[1..], removed[1..], n - 1);
    }
  }

  function HowManyTaken(replies: seq<SinkReply>): nat { multiset(replies)[Taken] }

  lemma TakenGrows(replies: seq<SinkReply>, i: nat)
    requires i < |replies|
    ensures HowManyTaken(replies[..i + 1]) == HowManyTaken(replies[..i]) + (if replies[i].Taken? then 1 else 0)
  {
    assert replies[..i + 1] == replies[..i] + [replies[i]];
  }

  // Every answer and removal so far let the flush go on.
  ghost predicate GoneThrough(replies: seq<SinkReply>, removed: seq<bool>, n: nat)
    requires n <= |replies| == |removed|
  {
    forall j :: 0 <= j < n ==> !replies[j].Unreachable? && removed[j]
  }

  class Diagnostics {
    var waiting: seq<Queued>

    constructor (waiting: seq<Queued>)
      ensures this.waiting == waiting
    {
      this.waiting := waiting;
    }

    method Remove(id: string, ok: bool) returns (done: bool)
      modifies this
      ensures done == ok && waiting == if ok then Without(old(waiting), id) else old(waiting)
    {
      if ok {
        waiting := Without(waiting, id);
      }
      done := ok;
    }

    /** What leaves the queue is a prefix of it, each sent or refused first; the rest stays, in
        order, for another time. */
    method Flush(listed: bool, replies: seq<SinkReply>, removed: seq<bool>) returns (sent: nat, failed: bool)
      requires |replies| == |removed| == |waiting|
      requires UniqueNames(waiting)
      modifies this
      ensures !listed ==> waiting == old(waiting) && sent == 0 && failed
      ensures listed ==>
                && waiting == old(waiting)[Cleared(replies, removed)..]
                && sent == HowManyTaken(replies[..Cleared(replies, removed)])
                && (failed <==> Cleared(replies, removed) < |old(waiting)|)
    {
      sent, failed := 0, false;
      if !listed { return 0, true; }
      var list := waiting;
      var i := 0;
      while i < |list|
        invariant 0 <= i <= |list| && waiting == list[i..]
        invariant GoneThrough(replies, removed, i)
        invariant sent == HowManyTaken(replies[..i])
      {
        if replies[i].Unreachable? {
          ClearedIs(replies, removed, i);
          return sent, true;
        }
        WithoutFirst(list, i);
        var done := Remove(list[i].id, removed[i]);
        if !done {
          ClearedIs(replies, removed, i);
          return sent, true;
        }
        TakenGrows(replies, i);
        if replies[i].Taken? {
          sent := sent + 1;
        }
        i := i + 1;
      }
      ClearedIs(replies, removed, i);
    }
  }
}
