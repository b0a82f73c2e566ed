/** String trimming as Go's `strings` package does it, and the comparison of repository
    URLs built on it. */
module Text {

  /** unicode.IsSpace. */
  predicate IsSpace(c: char) {
    || '\U{0009}' <= c <= '\U{000D}'
    || c == ' ' || c == '\U{0085}' || c == '\U{00A0}' || c == '\U{1680}'
    || '\U{2000}' <= c <= '\U{200A}'
    || c == '\U{2028}' || c == '\U{2029}' || c == '\U{202F}' || c == '\U{205F}' || c == '\U{3000}'
  }

  /** The twenty-five of them. */
  lemma SpacesAre(c: char)
    ensures IsSpace(c) <==>
            || c in "\t\n\U{000B}\U{000C}\r \U{0085}\U{00A0}\U{1680}"
            || c in "\U{2000}\U{2001}\U{2002}\U{2003}\U{2004}\U{2005}\U{2006}\U{2007}\U{2008}\U{2009}\U{200A}"
            || c in "\U{2028}\U{2029}\U{202F}\U{205F}\U{3000}"
  {
  }

  ghost predicate AllSpace(s: string) { forall i :: 0 <= i < |s| ==> IsSpace(s[i]) }

  ghost predicate AllSlash(s: string) { forall i :: 0 <= i < |s| ==> s[i] == '/' }

  function TrimLeft(s: string): string {
    if s != "" && IsSpace(s[0]) then TrimLeft(s[1..]) else s
  }

  function TrimRight(s: string): string {
    if s != "" && IsSpace(s[|s| - 1]) then TrimRight(s[..|s| - 1]) else s
  }

  function TrimSpace(s: string): string { TrimRight(TrimLeft(s)) }

  /** strings.TrimRight(s, "/"). */
  function TrimSlashes(s: string): string {
    if s != "" && s[|s| - 1] == '/' then TrimSlashes(s[..|s| - 1]) else s
  }

  /** The form in which two repository URLs are compared. */
  function Canon(url: string): string { TrimSlashes(TrimSpace(url)) }

  predicate SameRepository(a: string, b: string) { Canon(a) == Canon(b) }

  lemma {:induction false} TrimLeftDropsSpace(s: string) returns (pad: string)
    ensures AllSpace(pad) && s == pad + TrimLeft(s)
    ensures TrimLeft(s) == "" || !IsSpace(TrimLeft(s)[0])
  {
    if s != "" && IsSpace(s[0]) {
      var rest := TrimLeftDropsSpace(s[1..]);
      pad := [s[0]] + rest;
    } else {
      pad := "";
    }
  }

  lemma {:induction false} TrimRightDropsSpace(s: string) returns (pad: string)
    ensures AllSpace(pad) && s == TrimRight(s) + pad
    ensures TrimRight(s) == "" || !IsSpace(TrimRight(s)[|TrimRight(s)| - 1])
  {
    if s != "" && IsSpace(s[|s| - 1]) {
      var rest := TrimRightDropsSpace(s[..|s| - 1]);
      pad := rest + [s[|s| - 1]];
    } else {
      pad := "";
    }
  }

  lemma {:induction false} TrimSlashesDropsSlashes(s: string) returns (pad: string)
    ensures AllSlash(pad) && s == TrimSlashes(s) + pad
    ensures TrimSlashes(s) == "" || TrimSlashes(s)[|TrimSlashes(s)| - 1] != '/'
  {
    if s != "" && s[|s| - 1] == '/' {
      var rest := TrimSlashesDropsSlashes(s[..|s| - 1]);
      pad := rest + [s[|s| - 1]];
    } else {
      pad := "";
    }
  }

  /** What the comparison ignores is only surrounding space and trailing slashes. */
  lemma CanonDropsOnlyPadding(url: string) returns (left: string, slashes: string, right: string)
    ensures AllSpace(left) && AllSlash(slashes) && AllSpace(right)
    ensures url == left + Canon(url) + slashes + right
  {
    left := TrimLeftDropsSpace(url);
    right := TrimRightDropsSpace(TrimLeft(url));
    slashes := TrimSlashesDropsSlashes(TrimSpace(url));
  }

  lemma {:induction false} TrimLeftSkipsPad(pad: string, s: string)
    requires AllSpace(pad)
    ensures TrimLeft(pad + s) == TrimLeft(s)
  {
    if pad == "" {
      assert pad + s == s;
    } else {
      assert (pad + s)[1..] == pad[1..] + s;
      TrimLeftSkipsPad(pad[1..], s);
    }
  }

  lemma {:induction false} TrimRightSkipsPad(s: string, pad: string)
    requires AllSpace(pad)
    ensures TrimRight(s + pad) == TrimRight(s)
  {
    if pad == "" {
      assert s + pad == s;
    } else {
      assert (s + pad)[..|s + pad| - 1] == s + pad[..|pad| - 1];
      TrimRightSkipsPad(s, pad[..|pad| - 1]);
    }
  }

  lemma {:induction false} TrimSlashesSkipsPad(s: string, pad: string)
    requires AllSlash(pad)
    ensures TrimSlashes(s + pad) == TrimSlashes(s)
  {
    if pad == "" {
      assert s + pad == s;
    } else {
      assert (s + pad)[..|s + pad| - 1] == s + pad[..|pad| - 1];
      TrimSlashesSkipsPad(s, pad[..|pad| - 1]);
    }
  }

  /** The other half: every such padding of a bare URL is the same repository, and nothing
      else about the URL (its case, say) is folded away. */
  lemma PaddingIsIgnored(left: string, core: string, slashes: string, right: string)
    requires AllSpace(left) && AllSlash(slashes) && AllSpace(right)
    requires core != "" ==> !IsSpace(core[0]) && !IsSpace(core[|core| - 1]) && core[|core| - 1] != '/'
    ensures Canon(left + core + slashes + right) == core == Canon(core)
  {
    var url := left + core + slashes + right;
    var bare := core + slashes;
    assert url == left + (bare + right);
    TrimLeftSkipsPad(left, bare + right);
    if bare == "" {
      TrimLeftSkipsPad(right, "");
      assert bare + right == right + "";
      assert TrimSpace(url) == "";
    } else {
      assert (bare + right)[0] == bare[0];
      assert TrimLeft(bare + right) == bare + right;
      TrimRightSkipsPad(bare, right);
      assert TrimRight(bare) == bare;
      TrimSlashesSkipsPad(core, slashes);
    }
  }

  //////// Splitting and joining

  lemma Associative<T>(a: seq<T>, b: seq<T>, c: seq<T>)
    ensures (a + b) + c == a + (b + c)
  {
  }

  lemma TailOfPrefix<T>(s: seq<T>, n: nat)
    requires 0 < n <= |s|
    ensures s[..n][1..] == s[1..][..n - 1]
  {
  }

  /** strings.Split on one character: never empty, and one longer than the separators. */
  function Split<T(==)>(s: seq<T>, sep: T): (parts: seq<seq<T>>)
    ensures parts != [] && forall p :: p in parts ==> sep !in p
    ensures Join(parts, sep) == s
  {
    if s == [] then [[]]
    else
      var rest := Split(s[1..], sep);
      assert rest == [rest[0]] + rest[1..];
      if s[0] == sep then
        assert ([[]] + rest)[1..] == rest;
        [[]] + rest
      else
        var parts := [[s[0]] + rest[0]] + rest[1..];
        assert parts[1..] == rest[1..];
        parts
  }

  function Join<T>(parts: seq<seq<T>>, sep: T): seq<T> {
    if parts == [] then []
    else if |parts| == 1 then parts[0]
    else parts[0] + [sep] + Join(parts[1..], sep)
  }

  lemma {:induction false} SplitOfPlain<T>(s: seq<T>, sep: T)
    requires sep !in s
    ensures Split(s, sep) == [s]
  {
    if s != [] {
      SplitOfPlain(s[1..], sep);
      assert [s[0]] + s[1..] == s;
    }
  }

  // One more in front of what was split: a separator begins a new part.
  function Before<T(==)>(c: T, parts: seq<seq<T>>, sep: T): seq<seq<T>>
    requires parts != []
  {
    if c == sep then [[]] + parts else [[c] + parts[0]] + parts[1..]
  }

  lemma SplitOfCons<T>(c: T, s: seq<T>, sep: T)
    ensures Split([c] + s, sep) == Before(c, Split(s, sep), sep)
  {
    assert ([c] + s)[1..] == s;
  }

  lemma BeforeTwo<T>(c: T, a: seq<seq<T>>, b: seq<seq<T>>, sep: T)
    requires a != []
    ensures Before(c, a + b, sep) == Before(c, a, sep) + b
  {
    assert (a + b)[0] == a[0] && (a + b)[1..] == a[1..] + b;
  }

  /** A separator splits what is before it from what is after it. */
  lemma {:induction false} SplitOfTwo<T>(a: seq<T>, sep: T, b: seq<T>)
    ensures Split(a + [sep] + b, sep) == Split(a, sep) + Split(b, sep)
  {
    if a == [] {
      assert a + [sep] + b == [sep] + b;
      SplitOfCons(sep, b, sep);
    } else {
      SplitOfTwo(a[1..], sep, b);
      SplitOfTwoMore(a[0], a[1..], sep, b);
      FirstInFront(a, [sep] + b);
      Associative(a, [sep], b);
      Associative(a[1..], [sep], b);
    }
  }

  lemma FirstInFront<T>(a: seq<T>, b: seq<T>)
    requires a != []
    ensures [a[0]] + (a[1..] + b) == a + b
    ensures [a[0]] + a[1..] == a
  {
  }

  lemma SplitOfTwoMore<T>(c: T, a: seq<T>, sep: T, b: seq<T>)
    requires Split(a + [sep] + b, sep) == Split(a, sep) + Split(b, sep)
    ensures Split([c] + (a + [sep] + b), sep) == Split([c] + a, sep) + Split(b, sep)
  {
    SplitOfCons(c, a, sep);
    SplitOfCons(c, a + [sep] + b, sep);
    BeforeTwo(c, Split(a, sep), Split(b, sep), sep);
  }

  /** Splitting what was joined gives the parts back. */
  lemma {:induction false} SplitOfJoin<T>(parts: seq<seq<T>>, sep: T)
    requires parts != [] && forall p :: p in parts ==> sep !in p
    ensures Split(Join(parts, sep), sep) == parts
  {
    if |parts| == 1 {
      SplitOfPlain(parts[0], sep);
    } else {
      SplitOfJoin(parts[1..], sep);
      SplitOfPlain(parts[0], sep);
      SplitOfTwo(parts[0], sep, Join(parts[1..], sep));
      assert [parts[0]] + parts[1..] == parts;
    }
  }
}
