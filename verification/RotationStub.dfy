/** The server as the program keeps it: rows updated in place under one lock, each handler
    changing the fields of at most two of them. Every method is proved against the function
    of the same name in `Rotation`. */
module RotationStub {
  import opened Wrappers
  import opened Text
  import opened Rotation

  class Repo {
    var url: string
    var state: RowState
    const createdAt: Time
    const adopted: bool
    const offeredAt: Option<Time>
    var releaseAskedAt: Option<Time>
    var snapshot: bool
    var verified: bool

    constructor (url: string, state: RowState, createdAt: Time, adopted: bool, offeredAt: Option<Time>)
      ensures View() == Row(url, state, createdAt, adopted, offeredAt, None, false, false)
    {
      this.url, this.state := url, state;
      this.createdAt, this.adopted, this.offeredAt := createdAt, adopted, offeredAt;
      releaseAskedAt, snapshot, verified := None, false, false;
    }

    function View(): Row
      reads this
    {
      Row(url, state, createdAt, adopted, offeredAt, releaseAskedAt, snapshot, verified)
    }
  }

  class Server {
    var repos: seq<Repo>
    var rotationAsked: bool

    // The rows as values, which is what the specification speaks about.
    ghost var rows: seq<Row>

    ghost predicate Valid()
      reads this, repos
    {
      && |rows| == |repos|
      && (forall i, j :: 0 <= i < j < |repos| ==> repos[i] != repos[j])
      && (forall i :: 0 <= i < |repos| ==> repos[i].View() == rows[i])
    }

    ghost function Abstract(): State
      reads this
    {
      State(rows, rotationAsked)
    }

    constructor (url: string, adopted: bool, created: Time)
      ensures Valid() && fresh(repos)
      ensures Abstract() == Start(url, adopted, created)
    {
      var row := new Repo(url, Active, created, adopted, None);
      repos, rotationAsked := [row], false;
      rows := [row.View()];
    }

    // What a search answers: the row at this place, or nothing.
    ghost predicate IsRow(row: Repo?, k: Option<nat>)
      reads this, repos
    {
      if k.None? then row == null
      else k.value < |repos| == |rows| && row == repos[k.value] && row.View() == rows[k.value]
    }

    method CurrentRow() returns (row: Repo?)
      requires Valid()
      ensures IsRow(row, Current(rows))
    {
      row := null;
      ghost var k: Option<nat> := None;
      var i := 0;
      while i < |repos|
        invariant 0 <= i <= |repos| && IsRow(row, k)
        invariant k.Some? ==> k.value < i && rows[k.value].state.Active?
        invariant forall j :: 0 <= j < i ==> !rows[j].state.CuttingOver?
        invariant forall j :: (if k.Some? then k.value + 1 else 0) <= j < i ==> !rows[j].state.Active?
      {
        assert repos[i].View() == rows[i];
        if repos[i].state.CuttingOver? {
          assert Current(rows) == Some(i);
          return repos[i];
        }
        if repos[i].state.Active? {
          row, k := repos[i], Some(i);
        }
        i := i + 1;
      }
      assert Current(rows) == k;
    }

    method NewestOffer() returns (row: Repo?)
      requires Valid()
      ensures IsRow(row, OfferedRow(rows))
    {
      var i := |repos|;
      while i > 0
        invariant 0 <= i <= |repos|
        invariant forall j :: i <= j < |repos| ==> !rows[j].state.Offered?
      {
        i := i - 1;
        assert repos[i].View() == rows[i];
        if repos[i].state.Offered? {
          assert OfferedRow(rows) == Some(i);
          return repos[i];
        }
      }
      return null;
    }

    method FindRow(url: string) returns (row: Repo?)
      requires Valid()
      ensures IsRow(row, Find(rows, url))
    {
      var i := 0;
      while i < |repos|
        invariant 0 <= i <= |repos|
        invariant forall j :: 0 <= j < i ==> !SameRepository(rows[j].url, url)
      {
        assert repos[i].View() == rows[i];
        if SameRepository(repos[i].url, url) {
          assert Find(rows, url) == Some(i);
          return repos[i];
        }
        i := i + 1;
      }
      return null;
    }

    method RowLeftBehind(cur: Repo, ghost c: nat) returns (row: Repo?)
      requires Valid() && c < |repos| && repos[c] == cur
      ensures IsRow(row, PreviousTo(rows, c))
    {
      row := null;
      ghost var k: Option<nat> := None;
      var i := 0;
      while i < |repos|
        invariant 0 <= i <= |repos| && IsRow(row, k)
        invariant k.Some? ==> k.value < i && Meets(LeftBehind(c), k.value, rows[k.value])
        invariant forall j :: (if k.Some? then k.value + 1 else 0) <= j < i ==> !Meets(LeftBehind(c), j, rows[j])
      {
        assert repos[i].View() == rows[i];
        if !(repos[i] == cur || repos[i].state.Retired? || repos[i].state.Offered?) {
          row, k := repos[i], Some(i);
        }
        i := i + 1;
      }
      assert PreviousTo(rows, c) == k;
    }

    // Writes one row's state and nothing else.
    method Move(row: Repo, ghost k: nat, to: RowState)
      requires Valid() && k < |repos| && repos[k] == row
      modifies row, this`rows
      ensures Valid() && row.url == old(row.url)
      ensures rows == old(rows)[k := old(rows)[k].(state := to)]
    {
      row.state := to;
      rows := rows[k := row.View()];
    }

    // The machine moves onto the offered row.
    method Accept(offer: Repo, ghost o: nat)
      requires Valid() && o < |repos| && repos[o] == offer
      modifies offer, this`rows, this`rotationAsked
      ensures Valid() && offer.url == old(offer.url)
      ensures Abstract() == State(old(rows)[o := old(rows)[o].(state := CuttingOver)], false)
    {
      Move(offer, o, CuttingOver);
      rotationAsked := false;
    }

    // The row left behind is retired and the other one takes its place.
    method Promote(left: Repo, ghost o: nat, cur: Repo, ghost c: nat)
      requires Valid() && o < |repos| && repos[o] == left && c < |repos| && repos[c] == cur && o != c
      modifies left, cur, this`rows
      ensures Valid() && left.url == old(left.url) && cur.url == old(cur.url)
      ensures rows == old(rows)[o := old(rows)[o].(state := Retired)][c := old(rows)[c].(state := Active)]
    {
      Move(left, o, Retired);
      Move(cur, c, Active);
    }

    // Dates the release, unless it has been dated already.
    method DateRelease(row: Repo, ghost k: nat, now: Time) returns (at: Time)
      requires Valid() && k < |repos| && repos[k] == row
      modifies row, this`rows
      ensures Valid()
      ensures at == if old(rows)[k].releaseAskedAt.Some? then old(rows)[k].releaseAskedAt.value else now
      ensures rows == old(rows)[k := old(rows)[k].(releaseAskedAt := Some(at))]
    {
      assert row.View() == rows[k];
      if row.releaseAskedAt.None? {
        row.releaseAskedAt := Some(now);
        rows := rows[k := row.View()];
      }
      at := row.releaseAskedAt.value;
    }

    method Land(row: Repo, ghost k: nat, verified: bool)
      requires Valid() && k < |repos| && repos[k] == row
      modifies row, this`rows
      ensures Valid()
      ensures rows == old(rows)[k := old(rows)[k].(snapshot := true, verified := old(rows)[k].verified || verified)]
    {
      assert row.View() == rows[k];
      row.snapshot := true;
      if verified {
        row.verified := true;
      }
      rows := rows[k := row.View()];
    }

    method Repoint(row: Repo, ghost k: nat, url: string)
      requires Valid() && k < |repos| && repos[k] == row
      modifies row, this`rows
      ensures Valid()
      ensures rows == old(rows)[k := old(rows)[k].(url := url, snapshot := false, verified := false)]
    {
      assert row.View() == rows[k];
      row.url := url;
      row.snapshot, row.verified := false, false;
      rows := rows[k := row.View()];
    }

    method CredentialsHandler() returns (grant: Option<Grant>)
      requires Valid()
      ensures grant == Credentials(Abstract())
    {
      var cur := CurrentRow();
      if cur == null { return None; }
      return Some(Grant(cur.url, cur.state, ExpectEmpty(cur.View())));
    }

    method RotationRequestHandler() returns (reply: Reply)
      requires Valid()
      modifies this`rotationAsked
      ensures Valid()
      ensures (Abstract(), reply) == RotationRequest(old(Abstract()))
    {
      var cur := CurrentRow();
      if cur == null { return NoRepository; }
      if rotationAsked { return Conflict(AlreadyAsked); }
      if cur.state.CuttingOver? { return Conflict(AlreadyCuttingOver); }
      var offer := NewestOffer();
      if offer != null { return Conflict(OfferWaiting); }
      rotationAsked := true;
      return Asked;
    }

    method CutoverHandler(named: string) returns (reply: Reply)
      requires Valid()
      modifies this`rotationAsked, this`rows, repos
      ensures Valid()
      ensures (Abstract(), reply) == Cutover(old(Abstract()), named)
    {
      var cur := CurrentRow();
      if cur == null { return NoRepository; }
      if cur.state.CuttingOver? && SameRepository(cur.url, named) { return MovedTo(cur.url); }
      var offer := NewestOffer();
      if offer == null { return Conflict(NothingOffered); }
      if !SameRepository(offer.url, named) { return WrongUrl(offer.url); }
      Accept(offer, OfferedRow(rows).value);
      return MovedTo(offer.url);
    }

    method OldBucketHandler(named: string, now: Time) returns (reply: Reply)
      requires Valid()
      modifies this`rows, repos
      ensures Valid()
      ensures (Abstract(), reply) == OldBucket(old(Abstract()), named, now)
    {
      var cur := CurrentRow();
      if cur == null { return NoRepository; }
      if !cur.state.CuttingOver? { return Conflict(NotCuttingOver); }
      if !SameRepository(cur.url, named) { return WrongUrl(cur.url); }
      if !cur.verified { return Conflict(NothingVerified); }
      ghost var c := Current(rows).value;
      ghost var o := PreviousTo(rows, c);
      var left := RowLeftBehind(cur, c);
      if left == null { return Conflict(NoEarlierBucket); }
      var url := left.url;
      var at := DateRelease(left, o.value, now);
      return LetGo(url, at);
    }

    method NoteRunEvent(event: Event)
      requires Valid()
      modifies this`rows, repos
      ensures Valid()
      ensures Abstract() == NoteRun(old(Abstract()), event)
    {
      if !event.finished || event.snapshot == "" { return; }
      var row := FindRow(event.url);
      if row == null { return; }
      Land(row, Find(rows, event.url).value, event.verified);
    }

    method AdminOfferHandler(url: string, adopted: bool, now: Time) returns (reply: Reply)
      requires Valid()
      modifies this`rows, this`repos
      ensures Valid() && forall r :: r in repos ==> r in old(repos) || fresh(r)
      ensures (Abstract(), reply) == AdminOffer(old(Abstract()), url, adopted, now)
    {
      if url == "" { return BadRequest; }
      var row := new Repo(url, Offered, now, adopted, Some(now));
      repos := repos + [row];
      rows := rows + [row.View()];
      return Done;
    }

    method AdminRetireHandler() returns (reply: Reply)
      requires Valid()
      modifies this`rows, repos
      ensures Valid()
      ensures (Abstract(), reply) == AdminRetire(old(Abstract()))
    {
      var cur := CurrentRow();
      if cur == null || !cur.state.CuttingOver? { return Conflict(NotCuttingOver); }
      ghost var c := Current(rows).value;
      ghost var o := PreviousTo(rows, c);
      var left := RowLeftBehind(cur, c);
      if left == null { return Conflict(NoEarlierBucket); }
      Promote(left, o.value, cur, c);
      return RetiredRow(left.url, cur.url);
    }

    method AdminPointAtHandler(url: string) returns (reply: Reply)
      requires Valid()
      modifies this`rows, repos
      ensures Valid()
      ensures (Abstract(), reply) == AdminPointAt(old(Abstract()), url)
    {
      if url == "" { return BadRequest; }
      var cur := CurrentRow();
      if cur == null { return NoRepository; }
      if !cur.state.Active? { return Conflict(NotSteady); }
      Repoint(cur, Current(rows).value, url);
      return Done;
    }
  }
}
