/** Estimating the size of a backup: one walk over the directory tree, pruned by the exclude
    patterns and bounded by a budget of entries. */
module DirWalk {
  import opened Wrappers
  import opened Text

  //////// Excluding

  const SEPARATOR := '/'

  /** Cleaned patterns, and the matcher of globs. */
  datatype Matcher = Matcher(patterns: seq<string>, glob: (string, string) -> bool)

  predicate HasPrefix(s: string, prefix: string) { prefix <= s }

  predicate HasSuffix(s: string, suffix: string) { |suffix| <= |s| && s[|s| - |suffix|..] == suffix }

  /** The name after the last separator. */
  function Base(path: string): string {
    if SEPARATOR !in path then path else Base(path[1..])
  }

  predicate Rooted(path: string) { HasPrefix(path, [SEPARATOR]) }

  /** What is left of a path's elements once empty ones, `.` and, where there is something to go
      back from, `..` are resolved. */
  function Resolved(elements: seq<string>, rooted: bool): seq<string> {
    if elements == [] then []
    else
      var front := Resolved(elements[..|elements| - 1], rooted);
      var last := elements[|elements| - 1];
      if last == "" || last == "." then front
      else if last == ".." && front != [] && front[|front| - 1] != ".." then front[..|front| - 1]
      else if last == ".." && rooted then front
      else front + [last]
  }

  /** filepath.Clean. */
  function Cleaned(path: string): string {
    var body := Join(Resolved(Split(path, SEPARATOR), Rooted(path)), SEPARATOR);
    if Rooted(path) then [SEPARATOR] + body else if body == "" then "." else body
  }

  /** filepath.Join of a directory and a name read in it. */
  function Under(path: string, name: string): string {
    if path == "" then Cleaned(name) else Cleaned(path + [SEPARATOR] + name)
  }

  // Elements a file system gives out: not empty, no separator, and none with a meaning of its own.
  ghost predicate Plain(elements: seq<string>) {
    forall e :: e in elements ==> e != "" && e != "." && e != ".." && SEPARATOR !in e
  }

  lemma PlainFront(elements: seq<string>)
    requires Plain(elements) && elements != []
    ensures Plain(elements[..|elements| - 1]) && elements[|elements| - 1] in elements
  {
    var front := elements[..|elements| - 1];
    forall i | 0 <= i < |front|
      ensures front[i] in elements
    {
      assert front[i] == elements[i];
    }
  }

  lemma {:induction false} PlainIsKept(lead: seq<string>, elements: seq<string>, rooted: bool)
    requires Plain(elements) && Resolved(lead, rooted) == []
    ensures Resolved(lead + elements, rooted) == elements
  {
    if elements == [] {
      assert lead + elements == lead;
    } else {
      var front, last := elements[..|elements| - 1], elements[|elements| - 1];
      PlainFront(elements);
      PlainIsKept(lead, front, rooted);
      assert (lead + elements)[..|lead + elements| - 1] == lead + front;
      assert last in elements && elements == front + [last];
    }
  }

  lemma NothingToResolve(rooted: bool)
    ensures Resolved([""], rooted) == [] == Resolved(["", ""], rooted)
  {
    assert [""][..0] == [] && ["", ""][..1] == [""];
  }

  function Absolute(elements: seq<string>): string { [SEPARATOR] + Join(elements, SEPARATOR) }

  lemma CleanedAbsolute(lead: seq<string>, elements: seq<string>)
    requires Plain(elements) && elements != [] && (lead == [""] || lead == ["", ""])
    ensures Cleaned(Join(lead + elements, SEPARATOR)) == Absolute(elements)
  {
    var parts := lead + elements;
    var path := Join(parts, SEPARATOR);
    forall e | e in parts
      ensures SEPARATOR !in e
    {
      assert e in elements || e == "";
    }
    SplitOfJoin(parts, SEPARATOR);
    NothingToResolve(true);
    PlainIsKept(lead, elements, true);
    assert path == parts[0] + [SEPARATOR] + Join(parts[1..], SEPARATOR);
  }

  lemma {:induction false} JoinOfMore(elements: seq<string>, name: string)
    requires elements != []
    ensures Join(elements + [name], SEPARATOR) == Join(elements, SEPARATOR) + [SEPARATOR] + name
  {
    assert (elements + [name])[1..] == elements[1..] + [name];
    if |elements| > 1 {
      JoinOfMore(elements[1..], name);
    }
  }

  /** Below an absolute root, the root directory itself included, a path has one separator
      before each name, which is what absolute patterns are compared with. */
  lemma UnderAbsolute(elements: seq<string>, name: string)
    requires Plain(elements + [name])
    ensures Under(Absolute(elements), name) == Absolute(elements + [name])
  {
    var lead := if elements == [] then ["", ""] else [""];
    var parts := lead + (elements + [name]);
    assert Join(parts, SEPARATOR) == Absolute(elements) + [SEPARATOR] + name by {
      if elements == [] {
        assert parts == ["", "", name] && parts[1..] == ["", name] && parts[1..][1..] == [name];
        assert Join(parts[1..], SEPARATOR) == [SEPARATOR] + name;
        assert Absolute(elements) == [SEPARATOR];
      } else {
        assert parts[1..] == elements + [name];
        JoinOfMore(elements, name);
      }
    }
    CleanedAbsolute(lead, elements + [name]);
  }

  function Excludes(patterns: seq<string>): (cleaned: seq<string>)
    ensures forall p :: p in cleaned ==> exists q :: q in patterns && TrimSpace(q) != "" && p == Cleaned(TrimSpace(q))
    ensures forall q :: q in patterns && TrimSpace(q) != "" ==> Cleaned(TrimSpace(q)) in cleaned
  {
    if patterns == [] then []
    else
      var rest := Excludes(patterns[1..]);
      var first := TrimSpace(patterns[0]);
      if first == "" then rest else [Cleaned(first)] + rest
  }

  /** One pattern against one path: an absolute path and everything under it, a relative path
      as a suffix or a glob of the whole, a bare name as a glob of the last component. */
  predicate Hits(m: Matcher, p: string, path: string) {
    if Rooted(p) then path == p || HasPrefix(path, p + [SEPARATOR])
    else if SEPARATOR in p then m.glob(p, path) || HasSuffix(path, [SEPARATOR] + p)
    else m.glob(p, Base(path))
  }

  predicate Excluded(m: Matcher, path: string) { exists i :: 0 <= i < |m.patterns| && Hits(m, m.patterns[i], path) }

  method Match(m: Matcher, path: string) returns (excluded: bool)
    ensures excluded <==> Excluded(m, path)
  {
    if |m.patterns| == 0 { return false; }
    var base := Base(path);
    var i := 0;
    while i < |m.patterns|
      invariant 0 <= i <= |m.patterns|
      invariant forall j :: 0 <= j < i ==> !Hits(m, m.patterns[j], path)
    {
      var p := m.patterns[i];
      if Rooted(p) {
        if path == p || HasPrefix(path, p + [SEPARATOR]) { return true; }
      } else if SEPARATOR in p {
        if m.glob(p, path) { return true; }
        if HasSuffix(path, [SEPARATOR] + p) { return true; }
      } else if m.glob(p, base) {
        return true;
      }
      i := i + 1;
    }
    return false;
  }

  //////// Walking

  /** What the file system shows. A directory whose listing failed part-way still shows the
      entries read before the failure. */
  datatype Entry =
    | Dir(children: seq<Child>, listed: bool)
    | Regular(size: Option<nat>)   // no size when it cannot be asked
    | Special                      // a link, a device, a socket

  datatype Child = Child(name: string, entry: Entry)

  datatype Root = Missing | Vanished | There(path: string, entry: Entry)

  /** What shapes a walk: what is excluded, the size limit (none when zero), the entry budget,
      and after how many entries, if ever, the context is cancelled. */
  datatype Rules = Rules(excludes: string -> bool, larger: nat, budget: nat, deadline: Option<nat>)

  function RulesFor(m: Matcher, larger: nat, budget: nat, deadline: Option<nat>): Rules {
    Rules(path => Excluded(m, path), larger, budget, deadline)
  }

  datatype Tally = Tally(seen: nat, bytes: nat, files: nat, excluded: nat, unreadable: nat)

  datatype Walk = Walk(tally: Tally, partial: bool)

  /** What the callback tells the walk to do next. */
  datatype Next = GoOn | SkipDir | SkipAll

  const NOTHING := Tally(0, 0, 0, 0, 0)

  predicate TooLarge(r: Rules, size: nat) { r.larger > 0 && size >= r.larger }

  function Visit(r: Rules, w: Walk, path: string, top: bool, e: Entry, failed: bool): (Walk, Next) {
    if r.deadline.Some? && w.tally.seen >= r.deadline.value then (w.(partial := true), SkipAll)
    else
      var t := w.tally.(seen := w.tally.seen + 1);
      if t.seen > r.budget then (Walk(t, true), SkipAll)
      else if failed then (w.(tally := t.(unreadable := t.unreadable + 1)), GoOn)
      else if !top && r.excludes(path) then
        (w.(tally := t.(excluded := t.excluded + 1)), if e.Dir? then SkipDir else GoOn)
      else
        match e
        case Dir(_, _) => (w.(tally := t), GoOn)
        case Special => (w.(tally := t), GoOn)
        case Regular(None) => (w.(tally := t.(unreadable := t.unreadable + 1)), GoOn)
        case Regular(Some(size)) =>
          if TooLarge(r, size) then (w.(tally := t.(excluded := t.excluded + 1)), GoOn)
          else (w.(tally := t.(files := t.files + 1, bytes := t.bytes + size)), GoOn)
  }

  /** What filepath.WalkDir makes of the callback's word about an entry it does not go into: a
      directory that is skipped is done with, anything else that says so skips the rest of the
      directory it is in. */
  function Passed(e: Entry, next: Next): Next { if next.SkipDir? && e.Dir? then GoOn else next }

  /** filepath.WalkDir from one entry, and what its directory is to do next. */
  function WalkFrom(r: Rules, w: Walk, path: string, top: bool, e: Entry): (Walk, Next)
    decreases e
  {
    var (w1, next) := Visit(r, w, path, top, e, false);
    if !next.GoOn? || !e.Dir? then (w1, Passed(e, next))
    else if e.listed then WalkAll(r, w1, path, e.children)
    else
      var (w2, next2) := Visit(r, w1, path, top, e, true);
      if !next2.GoOn? then (w2, Passed(e, next2)) else WalkAll(r, w2, path, e.children)
  }

  function WalkAll(r: Rules, w: Walk, path: string, children: seq<Child>): (Walk, Next)
    decreases children
  {
    if children == [] then (w, GoOn)
    else
      var (w1, next) := WalkFrom(r, w, Under(path, children[0].name), false, children[0].entry);
      match next
      case SkipDir => (w1, GoOn)
      case SkipAll => (w1, SkipAll)
      case GoOn => WalkAll(r, w1, path, children[1..])
  }

  // One child, and then the rest unless it says otherwise.
  lemma WalkGoesOn(r: Rules, w: Walk, path: string, children: seq<Child>, i: nat)
    requires i < |children|
    ensures var (mid, next) := WalkFrom(r, w, Under(path, children[i].name), false, children[i].entry);
            WalkAll(r, w, path, children[i..]) ==
            if next.GoOn? then WalkAll(r, mid, path, children[i + 1..])
            else (mid, if next.SkipAll? then SkipAll else GoOn)
  {
    var rest := children[i..];
    assert rest[0] == children[i] && rest[1..] == children[i + 1..];
    var (mid, next) := WalkFrom(r, w, Under(path, rest[0].name), false, rest[0].entry);
    assert WalkAll(r, w, path, rest) ==
           match next
           case SkipDir => (mid, GoOn)
           case SkipAll => (mid, SkipAll)
           case GoOn => WalkAll(r, mid, path, rest[1..]);
  }

  function WalkRoot(r: Rules, w: Walk, root: Root): Walk {
    match root
    case Missing => w
    case Vanished => Visit(r, w, "", true, Special, true).0
    case There(path, entry) => WalkFrom(r, w, path, true, entry).0
  }

  function WalkRoots(r: Rules, w: Walk, roots: seq<Root>): Walk
    decreases |roots|
  {
    if roots == [] || w.partial then w else WalkRoots(r, WalkRoot(r, w, roots[0]), roots[1..])
  }

  class Walker {
    const matcher: Matcher
    const larger: nat
    const budget: nat
    const deadline: Option<nat>
    var seen: nat
    var bytes: nat
    var files: nat
    var excluded: nat
    var unreadable: nat
    var partial: bool

    constructor (matcher: Matcher, larger: nat, budget: nat, deadline: Option<nat>)
      ensures Abstract() == Walk(NOTHING, false)
      ensures Shape() == RulesFor(matcher, larger, budget, deadline)
    {
      this.matcher, this.larger, this.budget, this.deadline := matcher, larger, budget, deadline;
      seen, bytes, files, excluded, unreadable, partial := 0, 0, 0, 0, 0, false;
    }

    function Shape(): Rules { RulesFor(matcher, larger, budget, deadline) }

    function Abstract(): Walk
      reads this
    {
      Walk(Tally(seen, bytes, files, excluded, unreadable), partial)
    }

    method VisitEntry(path: string, top: bool, e: Entry, failed: bool) returns (next: Next)
      modifies this
      ensures (Abstract(), next) == Visit(Shape(), old(Abstract()), path, top, e, failed)
    {
      if deadline.Some? && seen >= deadline.value {
        partial := true;
        return SkipAll;
      }
      seen := seen + 1;
      if seen > budget {
        partial := true;
        return SkipAll;
      }
      if failed {
        unreadable := unreadable + 1;
        return GoOn;
      }
      if !top {
        var out := Match(matcher, path);
        if out {
          excluded := excluded + 1;
          return if e.Dir? then SkipDir else GoOn;
        }
      }
      if !e.Regular? { return GoOn; }
      if e.size.None? {
        unreadable := unreadable + 1;
        return GoOn;
      }
      if larger > 0 && e.size.value >= larger {
        excluded := excluded + 1;
        return GoOn;
      }
      files := files + 1;
      bytes := bytes + e.size.value;
      return GoOn;
    }

    method WalkEntry(path: string, top: bool, e: Entry) returns (next: Next)
      modifies this
      ensures (Abstract(), next) == WalkFrom(Shape(), old(Abstract()), path, top, e)
      decreases e, 0
    {
      next := VisitEntry(path, top, e, false);
      if !next.GoOn? || !e.Dir? { return Passed(e, next); }
      if !e.listed {
        next := VisitEntry(path, top, e, true);
        if !next.GoOn? { return Passed(e, next); }
      }
      var i := 0;
      ghost var start := Abstract();
      while i < |e.children|
        invariant 0 <= i <= |e.children|
        invariant WalkAll(Shape(), start, path, e.children) == WalkAll(Shape(), Abstract(), path, e.children[i..])
      {
        WalkGoesOn(Shape(), Abstract(), path, e.children, i);
        next := WalkEntry(Under(path, e.children[i].name), false, e.children[i].entry);
        if next.SkipDir? { return GoOn; }
        if next.SkipAll? { return SkipAll; }
        i := i + 1;
      }
      return GoOn;
    }

    method Measure(roots: seq<Root>)
      modifies this
      ensures Abstract() == WalkRoots(Shape(), old(Abstract()), roots)
    {
      var i := 0;
      while i < |roots|
        invariant 0 <= i <= |roots|
        invariant WalkRoots(Shape(), old(Abstract()), roots) == WalkRoots(Shape(), Abstract(), roots[i..])
      {
        if partial { break; }
        assert roots[i..][1..] == roots[i + 1..];
        match roots[i] {
          case Missing =>
          case Vanished => var next := VisitEntry("", true, Special, true);
          case There(path, entry) => var next := WalkEntry(path, true, entry);
        }
        i := i + 1;
      }
    }
  }
}
