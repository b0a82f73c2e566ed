/** What the estimate is worth. The reference looks at every entry of the trees, prunes nothing,
    and decides each one on its own by the paths above it; the pruned walk comes to the same
    figures when it is not cut short, and to no more than them when it is. */
module DirWalkProofs {
  import opened Wrappers
  import opened DirWalk

  //////// The unpruned reference

  datatype Kind = IsDir(listed: bool) | IsRegular(size: Option<nat>) | IsSpecial

  /** An entry with every path on the way to it below the root, its own last. */
  datatype Node = Node(chain: seq<string>, kind: Kind)

  function KindOf(e: Entry): Kind {
    match e
    case Dir(_, listed) => IsDir(listed)
    case Regular(size) => IsRegular(size)
    case Special => IsSpecial
  }

  function Nodes(e: Entry, path: string, chain: seq<string>): seq<Node>
    decreases e, 1
  {
    [Node(chain, KindOf(e))] + Below(e, path, chain)
  }

  function Below(e: Entry, path: string, chain: seq<string>): seq<Node>
    decreases e, 0
  {
    if e.Dir? then NodesAll(e.children, path, chain) else []
  }

  function NodesAll(children: seq<Child>, path: string, chain: seq<string>): seq<Node>
    decreases children
  {
    if children == [] then []
    else
      var here := Under(path, children[0].name);
      Nodes(children[0].entry, here, chain + [here]) + NodesAll(children[1..], path, chain)
  }

  function NodesOfRoots(roots: seq<Root>): seq<Node> {
    if roots == [] then [] else NodesOfRoot(roots[0]) + NodesOfRoots(roots[1..])
  }

  predicate Clear(r: Rules, chain: seq<string>) {
    forall i :: 0 <= i < |chain| ==> !r.excludes(chain[i])
  }

  function Parents(chain: seq<string>): seq<string> { if chain == [] then [] else chain[..|chain| - 1] }

  /** What one entry adds. A directory that cannot be listed is looked at twice. */
  function Share(r: Rules, n: Node): Tally {
    if !Clear(r, Parents(n.chain)) then NOTHING
    else if !Clear(r, n.chain) then NOTHING.(seen := 1, excluded := 1)
    else
      match n.kind
      case IsDir(listed) => if listed then NOTHING.(seen := 1) else NOTHING.(seen := 2, unreadable := 1)
      case IsSpecial => NOTHING.(seen := 1)
      case IsRegular(None) => NOTHING.(seen := 1, unreadable := 1)
      case IsRegular(Some(size)) =>
        if r.larger == 0 || size < r.larger then Tally(1, size, 1, 0, 0) else NOTHING.(seen := 1, excluded := 1)
  }

  function Plus(a: Tally, b: Tally): Tally {
    Tally(a.seen + b.seen, a.bytes + b.bytes, a.files + b.files, a.excluded + b.excluded, a.unreadable + b.unreadable)
  }

  function Sum(r: Rules, nodes: seq<Node>): Tally {
    if nodes == [] then NOTHING else Plus(Share(r, nodes[0]), Sum(r, nodes[1..]))
  }

  predicate AtMost(a: Tally, b: Tally) {
    a.seen <= b.seen && a.bytes <= b.bytes && a.files <= b.files
    && a.excluded <= b.excluded && a.unreadable <= b.unreadable
  }

  lemma PlusAssociates(a: Tally, b: Tally, c: Tally)
    ensures Plus(Plus(a, b), c) == Plus(a, Plus(b, c))
    ensures Plus(NOTHING, a) == a == Plus(a, NOTHING)
  {
  }

  lemma SumOfFirst(r: Rules, node: Node, rest: seq<Node>)
    ensures Sum(r, [node] + rest) == Plus(Share(r, node), Sum(r, rest))
  {
  }

  lemma {:induction false} SumOfTwo(r: Rules, a: seq<Node>, b: seq<Node>)
    ensures Sum(r, a + b) == Plus(Sum(r, a), Sum(r, b))
  {
    if a == [] {
      assert a + b == b;
      PlusAssociates(Sum(r, b), NOTHING, NOTHING);
    } else {
      assert a + b == [a[0]] + (a[1..] + b) && a == [a[0]] + a[1..];
      SumOfFirst(r, a[0], a[1..] + b);
      SumOfFirst(r, a[0], a[1..]);
      SumOfTwo(r, a[1..], b);
      PlusAssociates(Share(r, a[0]), Sum(r, a[1..]), Sum(r, b));
    }
  }

  //////// Pruning loses nothing

  lemma {:induction false} NothingUnderExcluded(r: Rules, e: Entry, path: string, chain: seq<string>)
    requires !Clear(r, Parents(chain))
    ensures Sum(r, Nodes(e, path, chain)) == NOTHING
    decreases e
  {
    SumOfFirst(r, Node(chain, KindOf(e)), Below(e, path, chain));
    if e.Dir? {
      assert !Clear(r, chain);
      NothingUnderExcludedAll(r, e.children, path, chain);
    }
    PlusAssociates(NOTHING, NOTHING, NOTHING);
  }

  lemma {:induction false} NothingUnderExcludedAll(r: Rules, children: seq<Child>, path: string, chain: seq<string>)
    requires !Clear(r, chain)
    ensures Sum(r, NodesAll(children, path, chain)) == NOTHING
    decreases children
  {
    if children != [] {
      var here := Under(path, children[0].name);
      assert Parents(chain + [here]) == chain;
      NothingUnderExcluded(r, children[0].entry, here, chain + [here]);
      NothingUnderExcludedAll(r, children[1..], path, chain);
      SumOfTwo(r, Nodes(children[0].entry, here, chain + [here]), NodesAll(children[1..], path, chain));
      PlusAssociates(NOTHING, NOTHING, NOTHING);
    }
  }

  // The walk went from `w` to `after` over entries that come to `total`; one stopped before its
  // budget was spent stopped with something left to look at.
  predicate Covers(r: Rules, w: Walk, after: Walk, stop: bool, total: Tally) {
    && stop == after.partial
    && AtMost(after.tally, Plus(w.tally, total))
    && (!stop ==> after.tally == Plus(w.tally, total))
    && (stop && after.tally.seen <= r.budget ==> after.tally.seen < w.tally.seen + total.seen)
  }

  // The one or two visits to an entry.
  function Visits(r: Rules, w: Walk, path: string, top: bool, e: Entry): (Walk, Next) {
    var (w1, next) := Visit(r, w, path, top, e, false);
    if next.GoOn? && e.Dir? && !e.listed then Visit(r, w1, path, top, e, true) else (w1, next)
  }

  // What comes after the visits.
  function Rest(r: Rules, mid: Walk, next: Next, path: string, e: Entry): (Walk, Next) {
    if !next.GoOn? || !e.Dir? then (mid, Passed(e, next)) else WalkAll(r, mid, path, e.children)
  }

  lemma VisitsCover(r: Rules, w: Walk, path: string, chain: seq<string>, e: Entry)
    requires !w.partial && Clear(r, Parents(chain)) && (chain != [] ==> chain[|chain| - 1] == path)
    ensures var (mid, next) := Visits(r, w, path, chain == [], e);
            && Covers(r, w, mid, next.SkipAll?, Share(r, Node(chain, KindOf(e))))
            && (next.SkipDir? ==> e.Dir? && !Clear(r, chain))
            && (next.GoOn? && e.Dir? ==> Clear(r, chain))
  {
  }

  lemma NodesSum(r: Rules, e: Entry, path: string, chain: seq<string>)
    ensures Sum(r, Nodes(e, path, chain)) == Plus(Share(r, Node(chain, KindOf(e))), Sum(r, Below(e, path, chain)))
    ensures !e.Dir? ==> Sum(r, Below(e, path, chain)) == NOTHING
  {
  }

  // Putting together the entry itself and what is below it.
  lemma Assemble(r: Rules, w: Walk, mid: Walk, after: Walk, skipped: bool, stop: bool, share: Tally, below: Tally)
    requires Covers(r, w, mid, skipped, share)
    requires if skipped then after == mid && stop else Covers(r, mid, after, stop, below)
    ensures Covers(r, w, after, stop, Plus(share, below))
  {
  }

  lemma WalkFromIs(r: Rules, w: Walk, path: string, top: bool, e: Entry)
    ensures var (mid, next) := Visits(r, w, path, top, e);
            WalkFrom(r, w, path, top, e) == Rest(r, mid, next, path, e)
  {
  }

  lemma {:induction false} RestCovers(r: Rules, mid: Walk, next: Next, path: string, chain: seq<string>, e: Entry)
    requires next.SkipAll? || (!mid.partial && (next.SkipDir? ==> e.Dir? && !Clear(r, chain))
                               && (next.GoOn? && e.Dir? ==> Clear(r, chain)))
    ensures var (after, then_) := Rest(r, mid, next, path, e);
            && !then_.SkipDir?
            && if next.SkipAll? then after == mid && then_.SkipAll?
               else Covers(r, mid, after, then_.SkipAll?, Sum(r, Below(e, path, chain)))
    decreases e, 0
  {
    if next.GoOn? && e.Dir? {
      WalkAllCovers(r, mid, path, chain, e.children);
    } else {
      if e.Dir? && next.SkipDir? {
        NothingUnderExcludedAll(r, e.children, path, chain);
      }
      PlusAssociates(mid.tally, NOTHING, NOTHING);
    }
  }

  lemma {:induction false} WalkCovers(r: Rules, w: Walk, path: string, chain: seq<string>, e: Entry)
    requires !w.partial && Clear(r, Parents(chain)) && (chain != [] ==> chain[|chain| - 1] == path)
    ensures var (after, next) := WalkFrom(r, w, path, chain == [], e);
            !next.SkipDir? && Covers(r, w, after, next.SkipAll?, Sum(r, Nodes(e, path, chain)))
    decreases e, 1
  {
    var (mid, next) := Visits(r, w, path, chain == [], e);
    VisitsCover(r, w, path, chain, e);
    RestCovers(r, mid, next, path, chain, e);
    WalkFromIs(r, w, path, chain == [], e);
    NodesSum(r, e, path, chain);
    var (after, then_) := Rest(r, mid, next, path, e);
    Assemble(r, w, mid, after, next.SkipAll?, then_.SkipAll?,
             Share(r, Node(chain, KindOf(e))), Sum(r, Below(e, path, chain)));
  }

  lemma {:induction false} WalkAllCovers(r: Rules, w: Walk, path: string, chain: seq<string>, children: seq<Child>)
    requires !w.partial && Clear(r, chain)
    ensures var (after, next) := WalkAll(r, w, path, children);
            !next.SkipDir? && Covers(r, w, after, next.SkipAll?, Sum(r, NodesAll(children, path, chain)))
    decreases children
  {
    if children == [] {
      NoneCover(r, w, path, chain);
    } else {
      var here := Under(path, children[0].name);
      assert Parents(chain + [here]) == chain;
      WalkCovers(r, w, here, chain + [here], children[0].entry);
      var (mid, next) := WalkFrom(r, w, here, false, children[0].entry);
      if next.GoOn? {
        WalkAllCovers(r, mid, path, chain, children[1..]);
      }
      FirstThenRest(r, w, path, chain, children);
    }
  }

  lemma FirstThenRest(r: Rules, w: Walk, path: string, chain: seq<string>, children: seq<Child>)
    requires children != []
    requires var here := Under(path, children[0].name);
             var (mid, next) := WalkFrom(r, w, here, false, children[0].entry);
             && !next.SkipDir?
             && Covers(r, w, mid, next.SkipAll?, Sum(r, Nodes(children[0].entry, here, chain + [here])))
             && (next.GoOn? ==>
                   var (after, then_) := WalkAll(r, mid, path, children[1..]);
                   && !then_.SkipDir?
                   && Covers(r, mid, after, then_.SkipAll?, Sum(r, NodesAll(children[1..], path, chain))))
    ensures var (after, next) := WalkAll(r, w, path, children);
            !next.SkipDir? && Covers(r, w, after, next.SkipAll?, Sum(r, NodesAll(children, path, chain)))
  {
    var here := Under(path, children[0].name);
    var (mid, next) := WalkFrom(r, w, here, false, children[0].entry);
    var (after, then_) := WalkAll(r, w, path, children);
    assert children[0..] == children;
    WalkGoesOn(r, w, path, children, 0);
    NodesAllSum(r, children, path, chain);
    Assemble(r, w, mid, after, next.SkipAll?, then_.SkipAll?,
             Sum(r, Nodes(children[0].entry, here, chain + [here])), Sum(r, NodesAll(children[1..], path, chain)));
  }

  lemma NodesAllSum(r: Rules, children: seq<Child>, path: string, chain: seq<string>)
    requires children != []
    ensures var here := Under(path, children[0].name);
            Sum(r, NodesAll(children, path, chain)) ==
            Plus(Sum(r, Nodes(children[0].entry, here, chain + [here])), Sum(r, NodesAll(children[1..], path, chain)))
  {
    var here := Under(path, children[0].name);
    var first, rest := Nodes(children[0].entry, here, chain + [here]), NodesAll(children[1..], path, chain);
    var all := NodesAll(children, path, chain);
    assert all == first + rest;
    SumOfTwo(r, first, rest);
    assert Sum(r, all) == Plus(Sum(r, first), Sum(r, rest));
  }

  lemma NoneCover(r: Rules, w: Walk, path: string, chain: seq<string>)
    requires !w.partial
    ensures WalkAll(r, w, path, []) == (w, GoOn) && Covers(r, w, w, false, Sum(r, NodesAll([], path, chain)))
  {
    PlusAssociates(w.tally, NOTHING, NOTHING);
  }

  function NodesOfRoot(root: Root): seq<Node> {
    match root
    case Missing => []
    case Vanished => [Node([], IsRegular(None))]
    case There(path, entry) => Nodes(entry, path, [])
  }

  lemma VanishedCovers(r: Rules, w: Walk)
    requires !w.partial
    ensures var after := Visit(r, w, "", true, Special, true).0;
            Covers(r, w, after, after.partial, Share(r, Node([], IsRegular(None))))
  {
  }

  lemma SumOfOne(r: Rules, n: Node)
    ensures Sum(r, [n]) == Share(r, n)
  {
    SumOfFirst(r, n, []);
    assert [n] + [] == [n];
    PlusAssociates(Share(r, n), NOTHING, NOTHING);
  }

  lemma RootCovers(r: Rules, w: Walk, root: Root)
    requires !w.partial
    ensures var after := WalkRoot(r, w, root);
            Covers(r, w, after, after.partial, Sum(r, NodesOfRoot(root)))
  {
    match root {
      case Missing => MissingCovers(r, w);
      case Vanished =>
        VanishedCovers(r, w);
        SumOfOne(r, Node([], IsRegular(None)));
      case There(path, entry) => WalkCovers(r, w, path, [], entry);
    }
  }

  lemma MissingCovers(r: Rules, w: Walk)
    requires !w.partial
    ensures Covers(r, w, w, w.partial, NOTHING)
  {
  }

  lemma {:induction false} RootsCover(r: Rules, w: Walk, roots: seq<Root>)
    requires !w.partial
    ensures var after := WalkRoots(r, w, roots);
            Covers(r, w, after, after.partial, Sum(r, NodesOfRoots(roots)))
    decreases |roots|
  {
    if roots == [] {
      PlusAssociates(w.tally, NOTHING, NOTHING);
    } else {
      var mid := WalkRoot(r, w, roots[0]);
      RootCovers(r, w, roots[0]);
      if !mid.partial {
        RootsCover(r, mid, roots[1..]);
      }
      FirstRootThenRest(r, w, roots);
    }
  }

  lemma FirstRootThenRest(r: Rules, w: Walk, roots: seq<Root>)
    requires !w.partial && roots != []
    requires var mid := WalkRoot(r, w, roots[0]);
             && Covers(r, w, mid, mid.partial, Sum(r, NodesOfRoot(roots[0])))
             && (!mid.partial ==>
                   var after := WalkRoots(r, mid, roots[1..]);
                   Covers(r, mid, after, after.partial, Sum(r, NodesOfRoots(roots[1..]))))
    ensures var after := WalkRoots(r, w, roots);
            Covers(r, w, after, after.partial, Sum(r, NodesOfRoots(roots)))
  {
    var mid, after := WalkRoot(r, w, roots[0]), WalkRoots(r, w, roots);
    SumOfTwo(r, NodesOfRoot(roots[0]), NodesOfRoots(roots[1..]));
    assert after == if mid.partial then mid else WalkRoots(r, mid, roots[1..]);
    Assemble(r, w, mid, after, mid.partial, after.partial,
             Sum(r, NodesOfRoot(roots[0])), Sum(r, NodesOfRoots(roots[1..])));
  }

  /** A walk that was not cut short found exactly what the filter finds: bytes, files, what was
      kept out (a pruned directory counting once) and what could not be read. */
  lemma CompleteWalkIsTheFilter(r: Rules, roots: seq<Root>)
    requires !WalkRoots(r, Walk(NOTHING, false), roots).partial
    ensures WalkRoots(r, Walk(NOTHING, false), roots).tally == Sum(r, NodesOfRoots(roots))
  {
    RootsCover(r, Walk(NOTHING, false), roots);
    PlusAssociates(Sum(r, NodesOfRoots(roots)), NOTHING, NOTHING);
  }

  /** One that was is a floor, figure by figure. */
  lemma PartialWalkIsAFloor(r: Rules, roots: seq<Root>)
    ensures AtMost(WalkRoots(r, Walk(NOTHING, false), roots).tally, Sum(r, NodesOfRoots(roots)))
  {
    RootsCover(r, Walk(NOTHING, false), roots);
    PlusAssociates(Sum(r, NodesOfRoots(roots)), NOTHING, NOTHING);
  }

  //////// The budget

  /** How many entries may be looked at without anything having to stop. */
  function Allowance(r: Rules): nat {
    if r.deadline.Some? && r.deadline.value < r.budget then r.deadline.value else r.budget
  }

  // How many have been when it was cut short: a cancelled walk stops before the next one, and a
  // spent budget is only noticed at it.
  function CutShortAt(r: Rules): nat {
    if r.deadline.Some? && r.deadline.value <= r.budget then r.deadline.value else r.budget + 1
  }

  predicate WithinBudget(r: Rules, w: Walk) {
    if w.partial then w.tally.seen == CutShortAt(r) else w.tally.seen <= Allowance(r)
  }

  lemma {:induction false} WalkStaysWithinBudget(r: Rules, w: Walk, path: string, top: bool, e: Entry)
    requires !w.partial && WithinBudget(r, w)
    ensures var (after, next) := WalkFrom(r, w, path, top, e);
            WithinBudget(r, after) && (next.SkipAll? <==> after.partial)
    decreases e
  {
    var (w1, next) := Visit(r, w, path, top, e, false);
    if next.GoOn? && e.Dir? {
      var (w2, next2) := if e.listed then (w1, GoOn) else Visit(r, w1, path, top, e, true);
      if next2.GoOn? {
        WalkAllStaysWithinBudget(r, w2, path, e.children);
      }
    }
  }

  lemma {:induction false} WalkAllStaysWithinBudget(r: Rules, w: Walk, path: string, children: seq<Child>)
    requires !w.partial && WithinBudget(r, w)
    ensures var (after, next) := WalkAll(r, w, path, children);
            WithinBudget(r, after) && (next.SkipAll? <==> after.partial)
    decreases children
  {
    if children != [] {
      var here := Under(path, children[0].name);
      WalkStaysWithinBudget(r, w, here, false, children[0].entry);
      var (w1, next) := WalkFrom(r, w, here, false, children[0].entry);
      if next.GoOn? {
        WalkAllStaysWithinBudget(r, w1, path, children[1..]);
      }
    }
  }

  lemma {:induction false} RootsStayWithinBudget(r: Rules, w: Walk, roots: seq<Root>)
    requires WithinBudget(r, w)
    ensures WithinBudget(r, WalkRoots(r, w, roots))
    decreases |roots|
  {
    if roots != [] && !w.partial {
      if roots[0].There? {
        WalkStaysWithinBudget(r, w, roots[0].path, true, roots[0].entry);
      }
      RootsStayWithinBudget(r, WalkRoot(r, w, roots[0]), roots[1..]);
    }
  }

  /** Over all the roots together, a walk is cut short exactly when there is more to look at than
      the budget and the moment of its cancellation allow, and then at the moment it was cancelled
      or at the first entry past the budget; otherwise it looks at everything. */
  lemma CutShortIff(r: Rules, roots: seq<Root>)
    ensures var after, all := WalkRoots(r, Walk(NOTHING, false), roots), Sum(r, NodesOfRoots(roots)).seen;
            && (after.partial <==>
                  all > if r.deadline.Some? && r.deadline.value < r.budget then r.deadline.value else r.budget)
            && after.tally.seen ==
               if !after.partial then all
               else if r.deadline.Some? && r.deadline.value <= r.budget then r.deadline.value else r.budget + 1
  {
    RootsStayWithinBudget(r, Walk(NOTHING, false), roots);
    RootsCover(r, Walk(NOTHING, false), roots);
    PlusAssociates(Sum(r, NodesOfRoots(roots)), NOTHING, NOTHING);
  }
}
