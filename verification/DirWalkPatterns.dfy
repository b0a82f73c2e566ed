/** What an exclude pattern means for the paths a walk comes by, told element by element. */
module DirWalkPatterns {
  import opened Wrappers
  import opened Text
  import opened DirWalk

  //////// Paths and their elements

  lemma SameAfterFirst<T>(x: T, a: seq<T>, b: seq<T>)
    requires [x] + a == [x] + b
    ensures a == b
  {
    assert a == ([x] + a)[1..] == ([x] + b)[1..] == b;
  }

  lemma ElementsComeBack(elements: seq<string>)
    requires Plain(elements)
    ensures Split(Absolute(elements), SEPARATOR) == if elements == [] then ["", ""] else [""] + elements
  {
    if elements != [] {
      var parts := [""] + elements;
      assert parts[1..] == elements && Absolute(elements) == Join(parts, SEPARATOR);
      SplitOfJoin(parts, SEPARATOR);
    }
  }

  lemma AbsoluteDetermines(a: seq<string>, b: seq<string>)
    requires Plain(a) && Plain(b) && Absolute(a) == Absolute(b)
    ensures a == b
  {
    ElementsComeBack(a);
    ElementsComeBack(b);
    if a != [] && b != [] {
      SameAfterFirst("", a, b);
    } else {
      NotTheRoot(a);
      NotTheRoot(b);
    }
  }

  lemma NotTheRoot(elements: seq<string>)
    requires Plain(elements)
    ensures elements != [] ==> [""] + elements != ["", ""]
  {
    if elements != [] {
      assert elements[0] in elements && ([""] + elements)[1] == elements[0];
    }
  }

  lemma {:induction false} JoinOfParts(a: seq<string>, b: seq<string>)
    requires a != [] && b != []
    ensures Join(a + b, SEPARATOR) == Join(a, SEPARATOR) + [SEPARATOR] + Join(b, SEPARATOR)
  {
    assert (a + b)[1..] == a[1..] + b;
    if |a| > 1 {
      JoinOfParts(a[1..], b);
    }
  }

  //////// An absolute pattern

  /** It hits the path it names and everything below that, element by element: `/home/ab` does not
      hit `/home/abc`. */
  lemma AbsolutePatternHitsIff(m: Matcher, pattern: seq<string>, path: seq<string>)
    requires Plain(pattern) && Plain(path) && pattern != []
    ensures Hits(m, Absolute(pattern), Absolute(path)) <==> pattern <= path
  {
    if pattern <= path {
      BelowIsHit(pattern, path[|pattern|..]);
      assert path == pattern + path[|pattern|..];
    } else if Absolute(path) == Absolute(pattern) {
      AbsoluteDetermines(path, pattern);
    } else if HasPrefix(Absolute(path), Absolute(pattern) + [SEPARATOR]) {
      HitIsBelow(pattern, path);
    }
  }

  lemma BelowIsHit(pattern: seq<string>, more: seq<string>)
    requires pattern != []
    ensures Absolute(pattern + more) == Absolute(pattern)
            || HasPrefix(Absolute(pattern + more), Absolute(pattern) + [SEPARATOR])
  {
    if more == [] {
      assert pattern + more == pattern;
    } else {
      JoinOfParts(pattern, more);
    }
  }

  lemma HitIsBelow(pattern: seq<string>, path: seq<string>)
    requires Plain(pattern) && Plain(path) && pattern != []
    requires HasPrefix(Absolute(path), Absolute(pattern) + [SEPARATOR])
    ensures pattern <= path
  {
    var rest := Absolute(path)[|Absolute(pattern)| + 1..];
    assert Absolute(path) == Absolute(pattern) + [SEPARATOR] + rest;
    SplitOfTwo(Absolute(pattern), SEPARATOR, rest);
    ElementsComeBack(pattern);
    ElementsComeBack(path);
    PrefixOfElements(pattern, path, Split(rest, SEPARATOR));
  }

  lemma PrefixOfElements(pattern: seq<string>, path: seq<string>, parts: seq<string>)
    requires pattern != [] && parts != []
    requires (if path == [] then ["", ""] else [""] + path) == ([""] + pattern) + parts
    ensures pattern <= path
  {
    Associative([""], pattern, parts);
    if path != [] {
      SameAfterFirst("", path, pattern + parts);
    }
  }

  //////// A relative pattern

  /** With a separator in it, it hits what its last elements name, and whatever its glob hits. */
  lemma RelativePatternHitsIff(m: Matcher, pattern: seq<string>, path: seq<string>)
    requires Plain(pattern) && Plain(path) && |pattern| > 1
    ensures var p := Join(pattern, SEPARATOR);
            Hits(m, p, Absolute(path)) <==>
            m.glob(p, Absolute(path)) || (|pattern| <= |path| && path[|path| - |pattern|..] == pattern)
  {
    var p := Join(pattern, SEPARATOR);
    assert pattern[0] in pattern && pattern[0] != "";
    assert p == pattern[0] + [SEPARATOR] + Join(pattern[1..], SEPARATOR);
    assert p[0] == pattern[0][0] && p[|pattern[0]|] == SEPARATOR;
    assert !Rooted(p) && SEPARATOR in p;
    SuffixIff(pattern, path);
  }

  lemma SuffixIff(pattern: seq<string>, path: seq<string>)
    requires Plain(pattern) && Plain(path) && pattern != []
    ensures HasSuffix(Absolute(path), [SEPARATOR] + Join(pattern, SEPARATOR)) <==>
            |pattern| <= |path| && path[|path| - |pattern|..] == pattern
  {
    if HasSuffix(Absolute(path), [SEPARATOR] + Join(pattern, SEPARATOR)) {
      SuffixIsTheEnd(pattern, path);
    }
    if |pattern| <= |path| && path[|path| - |pattern|..] == pattern {
      var lead := path[..|path| - |pattern|];
      assert path == lead + pattern;
      EndIsASuffix(lead, pattern);
    }
  }

  lemma EndIsASuffix(lead: seq<string>, pattern: seq<string>)
    requires pattern != []
    ensures HasSuffix(Absolute(lead + pattern), [SEPARATOR] + Join(pattern, SEPARATOR))
  {
    if lead == [] {
      assert lead + pattern == pattern;
    } else {
      JoinOfParts(lead, pattern);
    }
  }

  lemma SuffixIsTheEnd(pattern: seq<string>, path: seq<string>)
    requires Plain(pattern) && Plain(path) && pattern != []
    requires HasSuffix(Absolute(path), [SEPARATOR] + Join(pattern, SEPARATOR))
    ensures |pattern| <= |path| && path[|path| - |pattern|..] == pattern
  {
    var p := Join(pattern, SEPARATOR);
    var lead := Absolute(path)[..|Absolute(path)| - |p| - 1];
    assert Absolute(path) == lead + [SEPARATOR] + p;
    SplitOfTwo(lead, SEPARATOR, p);
    SplitOfJoin(pattern, SEPARATOR);
    ElementsComeBack(path);
    SuffixOfElements(pattern, path, Split(lead, SEPARATOR));
  }

  lemma SuffixOfElements(pattern: seq<string>, path: seq<string>, parts: seq<string>)
    requires Plain(pattern) && pattern != [] && parts != []
    requires (if path == [] then ["", ""] else [""] + path) == parts + pattern
    ensures |pattern| <= |path| && path[|path| - |pattern|..] == pattern
  {
    assert pattern[0] in pattern && (parts + pattern)[|parts|] == pattern[0];
    if path != [] {
      assert parts + pattern == [parts[0]] + (parts[1..] + pattern);
      assert parts[0] == ([""] + path)[0];
      SameAfterFirst("", path, parts[1..] + pattern);
    }
  }

  lemma {:induction false} BaseOfMore(s: string, name: string)
    requires SEPARATOR !in name
    ensures Base(s + [SEPARATOR] + name) == name
  {
    var path := s + [SEPARATOR] + name;
    assert path[|s|] == SEPARATOR;
    if s == "" {
      assert path[1..] == name;
    } else {
      assert path[1..] == s[1..] + [SEPARATOR] + name;
      BaseOfMore(s[1..], name);
    }
  }

  /** Without one, it is a glob of the last element alone, wherever that is. */
  lemma BareNameHitsIff(m: Matcher, p: string, path: seq<string>)
    requires SEPARATOR !in p && Plain(path) && path != []
    ensures Hits(m, p, Absolute(path)) <==> m.glob(p, path[|path| - 1])
  {
    var front, last := path[..|path| - 1], path[|path| - 1];
    assert last in path && path == front + [last];
    if front == [] {
      assert Absolute(path) == "" + [SEPARATOR] + last;
      BaseOfMore("", last);
    } else {
      JoinOfMore(front, last);
      assert Absolute(path) == Absolute(front) + [SEPARATOR] + last;
      BaseOfMore(Absolute(front), last);
    }
  }

  /** Any one pattern is enough. */
  lemma ExcludedIff(m: Matcher, path: string)
    ensures Excluded(m, path) <==> exists p :: p in m.patterns && Hits(m, p, path)
  {
    forall p | p in m.patterns && Hits(m, p, path)
      ensures Excluded(m, path)
    {
      var i :| 0 <= i < |m.patterns| && m.patterns[i] == p;
    }
  }

  //////// Cleaning

  /** How a path's elements are resolved, one more at a time: empty ones and `.` are nothing, a name
      is itself, and `..` takes back the name before it, or is dropped at a root, or kept. */
  lemma ResolvedOneMore(elements: seq<string>, last: string, rooted: bool)
    ensures var before, after := Resolved(elements, rooted), Resolved(elements + [last], rooted);
            && (last == "" || last == "." ==> after == before)
            && (Plain([last]) ==> after == before + [last])
            && (last == ".." && before == [] ==> after == if rooted then [] else [".."])
  {
    assert (elements + [last])[..|elements|] == elements;
    assert Plain([last]) ==> last in [last];
  }

  lemma NameAndBack(elements: seq<string>, name: string, rooted: bool)
    requires Plain([name])
    ensures Resolved(elements + [name] + [".."], rooted) == Resolved(elements, rooted)
  {
    assert name in [name];
    ResolvedOneMore(elements, name, rooted);
    var longer := elements + [name];
    assert (longer + [".."])[..|longer|] == longer;
    assert Resolved(longer, rooted)[..|Resolved(elements, rooted)|] == Resolved(elements, rooted);
  }

  /** Under a root nothing is left but names, so an absolute pattern cleaned is `/` and names with
      one separator between. */
  lemma {:induction false} RootedIsPlain(elements: seq<string>)
    requires forall e :: e in elements ==> SEPARATOR !in e
    ensures Plain(Resolved(elements, true))
  {
    if elements != [] {
      var front, last := elements[..|elements| - 1], elements[|elements| - 1];
      RootedIsPlain(front);
      assert last in elements;
      StaysPlain(Resolved(front, true), last);
    }
  }

  lemma StaysPlain(before: seq<string>, last: string)
    requires Plain(before) && SEPARATOR !in last
    ensures before != [] ==> before[|before| - 1] != ".." && Plain(before[..|before| - 1])
    ensures last != "" && last != "." && last != ".." ==> Plain(before + [last])
  {
    if before != [] {
      PlainFront(before);
    }
    if last != "" && last != "." && last != ".." {
      PlainAndOneMore(before, last);
    }
  }

  lemma PlainAndOneMore(before: seq<string>, last: string)
    requires Plain(before) && last != "" && last != "." && last != ".." && SEPARATOR !in last
    ensures Plain(before + [last])
  {
    forall e | e in before + [last]
      ensures e in before || e == last
    {
    }
  }

  lemma {:induction false} PlainStays(elements: seq<string>, rooted: bool)
    requires Plain(elements)
    ensures Resolved(elements, rooted) == elements
  {
    if elements != [] {
      var front, last := elements[..|elements| - 1], elements[|elements| - 1];
      PlainFront(elements);
      assert elements == front + [last];
      PlainStays(front, rooted);
    }
  }

  /** A relative pattern of names alone is clean, and nothing at all is cleaned to a dot. */
  lemma RelativeStays(elements: seq<string>)
    requires Plain(elements) && elements != []
    ensures Cleaned(Join(elements, SEPARATOR)) == Join(elements, SEPARATOR)
    ensures Cleaned("") == "."
  {
    var p := Join(elements, SEPARATOR);
    assert elements[0] in elements && elements[0] != "" && elements[0][0] != SEPARATOR;
    StartsWithTheFirst(elements);
    SplitOfJoin(elements, SEPARATOR);
    PlainStays(elements, false);
    assert Resolved([""], false) == [] by {
      assert [""][..0] == [];
    }
  }

  lemma StartsWithTheFirst(elements: seq<string>)
    requires elements != [] && elements[0] != ""
    ensures Join(elements, SEPARATOR) != "" && Join(elements, SEPARATOR)[0] == elements[0][0]
  {
  }

  /** What is read in no directory is its name alone. */
  lemma UnderNothing(name: string)
    requires Plain([name])
    ensures Under("", name) == name
  {
    RelativeStays([name]);
  }

  /** And cleaning that again changes nothing. */
  lemma CleanedAgain(path: string)
    requires Rooted(path)
    ensures Cleaned(Cleaned(path)) == Cleaned(path)
    ensures exists elements :: Plain(elements) && Cleaned(path) == Absolute(elements)
  {
    var elements := Resolved(Split(path, SEPARATOR), true);
    RootedIsPlain(Split(path, SEPARATOR));
    assert Cleaned(path) == Absolute(elements);
    if elements == [] {
      NothingToResolve(true);
      ElementsComeBack([]);
      assert Plain([]);
    } else {
      CleanedAbsolute([""], elements);
      assert [""] + elements == [""] + elements && ([""] + elements)[1..] == elements;
      assert Join([""] + elements, SEPARATOR) == Absolute(elements);
    }
  }
}
