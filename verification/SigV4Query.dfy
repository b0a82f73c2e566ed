/** Canonical query strings: the same for every order a map is walked in, and as much of the
    map as can be told from it. */
module SigV4Query {
  import opened Text
  import opened Wrappers
  import opened SigV4

  type Values = map<Bytes, seq<Bytes>>

  type Pair = (Bytes, Bytes)

  //////// Byte order

  /** The order of sort.Strings. */
  predicate Below(a: Bytes, b: Bytes) {
    b != [] && (a == [] || a[0] < b[0] || (a[0] == b[0] && Below(a[1..], b[1..])))
  }

  lemma {:induction false} BelowIsTotal(a: Bytes, b: Bytes)
    ensures Below(a, b) || a == b || Below(b, a)
  {
    if a != [] && b != [] {
      BelowIsTotal(a[1..], b[1..]);
      assert a == [a[0]] + a[1..] && b == [b[0]] + b[1..];
    }
  }

  lemma {:induction false} BelowIsStrict(a: Bytes, b: Bytes, c: Bytes)
    ensures !Below(a, a)
    ensures Below(a, b) && Below(b, c) ==> Below(a, c)
  {
    if a != [] {
      if b != [] && c != [] {
        BelowIsStrict(a[1..], b[1..], c[1..]);
      } else {
        BelowIsStrict(a[1..], a[1..], a[1..]);
      }
    }
  }

  /** At this place `a` has ended and `b` has not, or they first differ there and `a`'s byte is
      the smaller one. */
  predicate FallsBehindAt(a: Bytes, b: Bytes, i: int) {
    0 <= i <= |a| && i < |b| && a[..i] == b[..i] && (i == |a| || a[i] < b[i])
  }

  /** The order written out. */
  ghost predicate FallsBehind(a: Bytes, b: Bytes) { exists i :: FallsBehindAt(a, b, i) }

  lemma {:induction false} BelowIff(a: Bytes, b: Bytes)
    ensures Below(a, b) <==> FallsBehind(a, b)
  {
    if a == [] || b == [] || a[0] != b[0] {
      assert FallsBehindAt(a, b, 0) <==> Below(a, b);
      forall i | FallsBehindAt(a, b, i)
        ensures i == 0
      {
        BehindLaterIsAlikeBefore(a, b, i);
      }
    } else {
      BelowIff(a[1..], b[1..]);
      BehindOneOn(a, b);
    }
  }

  lemma BehindLaterIsAlikeBefore(a: Bytes, b: Bytes, i: int)
    requires FallsBehindAt(a, b, i)
    ensures i > 0 ==> a != [] && b != [] && a[0] == b[0]
  {
    if i > 0 {
      assert a[..i][0] == b[..i][0];
    }
  }

  lemma BehindOneOn(a: Bytes, b: Bytes)
    requires a != [] && b != [] && a[0] == b[0]
    ensures FallsBehind(a, b) <==> FallsBehind(a[1..], b[1..])
  {
    forall i | FallsBehindAt(a, b, i)
      ensures FallsBehindAt(a[1..], b[1..], i - 1)
    {
      TailOfPrefix(a, i);
      TailOfPrefix(b, i);
    }
    forall i | FallsBehindAt(a[1..], b[1..], i)
      ensures FallsBehindAt(a, b, i + 1)
    {
      assert a[..i + 1] == [a[0]] + a[1..][..i] && b[..i + 1] == [b[0]] + b[1..][..i];
    }
  }

  ghost predicate Sorted(ks: seq<Bytes>) {
    forall i, j :: 0 <= i < j < |ks| ==> Below(ks[i], ks[j])
  }

  ghost predicate Enumerates(ks: seq<Bytes>, keys: set<Bytes>) {
    && (forall k :: k in ks <==> k in keys)
    && (forall i, j :: 0 <= i < j < |ks| ==> ks[i] != ks[j])
  }

  function Inserted(k: Bytes, ks: seq<Bytes>): (after: seq<Bytes>)
    requires Sorted(ks) && k !in ks
    ensures Sorted(after) && forall x :: x in after <==> x == k || x in ks
  {
    if ks == [] then [k]
    else if Below(k, ks[0]) then
      assert forall j :: 0 <= j < |ks| ==> Below(k, ks[j]) by {
        forall j | 0 < j < |ks|
          ensures Below(k, ks[j])
        {
          BelowIsStrict(k, ks[0], ks[j]);
        }
      }
      [k] + ks
    else
      BelowIsTotal(k, ks[0]);
      assert k != ks[0];
      var rest := Inserted(k, ks[1..]);
      assert forall x :: x in rest ==> Below(ks[0], x) by {
        forall x | x in rest
          ensures Below(ks[0], x)
        {
          assert x == k || x in ks[1..];
        }
      }
      [ks[0]] + rest
  }

  function SortedKeys(ks: seq<Bytes>): (sorted: seq<Bytes>)
    requires forall i, j :: 0 <= i < j < |ks| ==> ks[i] != ks[j]
    ensures Sorted(sorted) && forall k :: k in sorted <==> k in ks
  {
    if ks == [] then []
    else
      assert ks[0] !in ks[1..];
      Inserted(ks[0], SortedKeys(ks[1..]))
  }

  lemma SomeKey(ks: seq<Bytes>) returns (k: Bytes)
    requires ks != []
    ensures k in ks
  {
    k := ks[0];
  }

  /** There is only one sorted list of the same keys. */
  lemma {:induction false} SortedIsUnique(a: seq<Bytes>, b: seq<Bytes>)
    requires Sorted(a) && Sorted(b) && forall k :: k in a <==> k in b
    ensures a == b
  {
    if a == [] {
      if b != [] {
        var k := SomeKey(b);
      }
    } else {
      assert a[0] in b;
      var i :| 0 <= i < |b| && b[i] == a[0];
      assert b[0] in a;
      var j :| 0 <= j < |a| && a[j] == b[0];
      BelowIsStrict(a[0], b[0], a[0]);
      assert a[0] == b[0];
      forall k
        ensures k in a[1..] <==> k in b[1..]
      {
        BelowIsStrict(a[0], a[0], a[0]);
        TailHas(a, k);
        TailHas(b, k);
      }
      SortedIsUnique(a[1..], b[1..]);
    }
  }

  lemma TailHas(ks: seq<Bytes>, k: Bytes)
    requires ks != [] && Sorted(ks)
    ensures k in ks[1..] <==> k in ks && k != ks[0]
  {
    if k in ks[1..] {
      var i :| 0 <= i < |ks[1..]| && ks[1..][i] == k;
      assert Below(ks[0], ks[i + 1]);
      BelowIsStrict(k, k, k);
    }
  }

  //////// Rendering

  function PairsOf(k: Bytes, values: seq<Bytes>): seq<Pair> {
    if values == [] then [] else [(k, values[0])] + PairsOf(k, values[1..])
  }

  function Flatten(v: Values, ks: seq<Bytes>): seq<Pair>
    requires forall k :: k in ks ==> k in v
  {
    if ks == [] then [] else PairsOf(ks[0], v[ks[0]]) + Flatten(v, ks[1..])
  }

  function Render(p: Pair): Bytes { Encode(p.0) + [EQUALS] + Encode(p.1) }

  function RenderAll(pairs: seq<Pair>): (parts: seq<Bytes>)
    ensures |parts| == |pairs| && forall i :: 0 <= i < |pairs| ==> parts[i] == Render(pairs[i])
  {
    if pairs == [] then [] else [Render(pairs[0])] + RenderAll(pairs[1..])
  }

  /** The query of a map whose keys in order are these. */
  function Query(v: Values, ks: seq<Bytes>): Bytes
    requires forall k :: k in ks ==> k in v
  {
    Join(RenderAll(Flatten(v, ks)), AMPERSAND)
  }

  ghost predicate KeysOf(ks: seq<Bytes>, v: Values) {
    Sorted(ks) && forall k :: k in ks <==> k in v
  }

  lemma {:induction false} PairsGrow(k: Bytes, values: seq<Bytes>, j: nat)
    requires j < |values|
    ensures PairsOf(k, values[..j + 1]) == PairsOf(k, values[..j]) + [(k, values[j])]
  {
    if j > 0 {
      PairsGrow(k, values[1..], j - 1);
      TailOfPrefix(values, j);
      TailOfPrefix(values, j + 1);
    }
  }

  method AppendValues(parts: seq<Bytes>, k: Bytes, values: seq<Bytes>) returns (out: seq<Bytes>)
    ensures out == parts + RenderAll(PairsOf(k, values))
  {
    out := parts;
    var j := 0;
    while j < |values|
      invariant 0 <= j <= |values|
      invariant out == parts + RenderAll(PairsOf(k, values[..j]))
    {
      var name := EncodeSegment(k);
      var value := EncodeSegment(values[j]);
      PairsGrow(k, values, j);
      RenderAllOfTwo(PairsOf(k, values[..j]), [(k, values[j])]);
      out := out + [name + [EQUALS] + value];
      j := j + 1;
    }
    assert values[..j] == values;
  }

  lemma RenderAllOfTwo(a: seq<Pair>, b: seq<Pair>)
    ensures RenderAll(a + b) == RenderAll(a) + RenderAll(b)
  {
  }

  lemma {:induction false} FlattenGrows(v: Values, ks: seq<Bytes>, i: nat)
    requires (forall k :: k in ks ==> k in v) && i < |ks|
    ensures Flatten(v, ks[..i + 1]) == Flatten(v, ks[..i]) + PairsOf(ks[i], v[ks[i]])
  {
    if i > 0 {
      FlattenGrows(v, ks[1..], i - 1);
      TailOfPrefix(ks, i);
      TailOfPrefix(ks, i + 1);
    } else {
      assert ks[..1][1..] == [];
    }
  }

  /** `order` is whatever order the map happened to be walked in. */
  method EncodeQuery(v: Values, order: seq<Bytes>) returns (out: Bytes)
    requires Enumerates(order, v.Keys)
    ensures forall ks :: KeysOf(ks, v) ==> out == Query(v, ks)
  {
    var keys := SortedKeys(order);
    var parts: seq<Bytes> := [];
    var i := 0;
    while i < |keys|
      invariant 0 <= i <= |keys|
      invariant forall k :: k in keys ==> k in v
      invariant parts == RenderAll(Flatten(v, keys[..i]))
    {
      PartsGrow(v, keys, i);
      parts := AppendValues(parts, keys[i], v[keys[i]]);
      i := i + 1;
    }
    assert keys[..i] == keys;
    QueryIsOne(v, keys);
    return Join(parts, AMPERSAND);
  }

  lemma PartsGrow(v: Values, ks: seq<Bytes>, i: nat)
    requires (forall k :: k in ks ==> k in v) && i < |ks|
    ensures RenderAll(Flatten(v, ks[..i + 1])) ==
            RenderAll(Flatten(v, ks[..i])) + RenderAll(PairsOf(ks[i], v[ks[i]]))
  {
    FlattenGrows(v, ks, i);
    RenderAllOfTwo(Flatten(v, ks[..i]), PairsOf(ks[i], v[ks[i]]));
  }

  lemma QueryIsOne(v: Values, keys: seq<Bytes>)
    requires KeysOf(keys, v)
    ensures forall ks :: KeysOf(ks, v) ==> Query(v, ks) == Query(v, keys)
  {
    forall ks | KeysOf(ks, v)
      ensures ks == keys
    {
      SortedIsUnique(ks, keys);
    }
  }

  //////// What a query tells

  lemma RenderReads(p: Pair)
    ensures AMPERSAND !in Render(p)
    ensures Split(Render(p), EQUALS) == [Encode(p.0), Encode(p.1)]
  {
    EncodeHasNo(p.0, AMPERSAND);
    EncodeHasNo(p.1, AMPERSAND);
    EncodeHasNo(p.0, EQUALS);
    EncodeHasNo(p.1, EQUALS);
    SplitOfPlain(Encode(p.0), EQUALS);
    SplitOfTwo(Encode(p.0), EQUALS, Encode(p.1));
    SplitOfPlain(Encode(p.1), EQUALS);
  }

  lemma RenderIsInjective(p: Pair, q: Pair)
    requires Render(p) == Render(q)
    ensures p == q
  {
    RenderReads(p);
    RenderReads(q);
    EncodeInjective(p.0, q.0);
    EncodeInjective(p.1, q.1);
  }

  lemma JoinedIsNotEmpty(pairs: seq<Pair>)
    requires pairs != []
    ensures Split(Join(RenderAll(pairs), AMPERSAND), AMPERSAND) == RenderAll(pairs)
    ensures Join(RenderAll(pairs), AMPERSAND) != []
  {
    var parts := RenderAll(pairs);
    forall i | 0 <= i < |parts|
      ensures AMPERSAND !in parts[i]
    {
      RenderReads(pairs[i]);
    }
    SplitOfJoin(parts, AMPERSAND);
  }

  /** The pairs can be read back out of the query, every one and in order. */
  lemma PairsAreTold(a: seq<Pair>, b: seq<Pair>)
    requires Join(RenderAll(a), AMPERSAND) == Join(RenderAll(b), AMPERSAND)
    ensures a == b
  {
    if a != [] {
      JoinedIsNotEmpty(a);
    }
    if b != [] {
      JoinedIsNotEmpty(b);
    }
    if a != [] && b != [] {
      forall i | 0 <= i < |a|
        ensures a[i] == b[i]
      {
        assert RenderAll(a)[i] == RenderAll(b)[i];
        RenderIsInjective(a[i], b[i]);
      }
    }
  }

  //////// In which order

  /** What a reader takes for the name in one part of a query. */
  function NameIn(part: Bytes): Option<Bytes> { Decode(Split(part, EQUALS)[0]) }

  // No name comes after one it falls behind.
  ghost predicate NeverDescends(names: seq<Bytes>) {
    forall i, j :: 0 <= i < j < |names| ==> names[i] == names[j] || FallsBehind(names[i], names[j])
  }

  function NamesOf(pairs: seq<Pair>): (names: seq<Bytes>)
    ensures |names| == |pairs| && forall i :: 0 <= i < |pairs| ==> names[i] == pairs[i].0
  {
    if pairs == [] then [] else [pairs[0].0] + NamesOf(pairs[1..])
  }

  lemma NameIsRead(p: Pair)
    ensures NameIn(Render(p)) == Some(p.0)
  {
    RenderReads(p);
    DecodeOfEncode(p.0);
  }

  lemma {:induction false} PairsHaveOneName(k: Bytes, values: seq<Bytes>)
    ensures forall p :: p in PairsOf(k, values) ==> p.0 == k
  {
    if values != [] {
      PairsHaveOneName(k, values[1..]);
    }
  }

  lemma {:induction false} NamesAreKeys(v: Values, ks: seq<Bytes>)
    requires forall k :: k in ks ==> k in v
    ensures forall p :: p in Flatten(v, ks) ==> p.0 in ks
  {
    if ks != [] {
      PairsHaveOneName(ks[0], v[ks[0]]);
      NamesAreKeys(v, ks[1..]);
    }
  }

  lemma {:induction false} FlattenedNeverDescends(v: Values, ks: seq<Bytes>, i: nat, j: nat)
    requires (forall k :: k in ks ==> k in v) && Sorted(ks) && i < j < |Flatten(v, ks)|
    ensures var pairs := Flatten(v, ks); pairs[i].0 == pairs[j].0 || Below(pairs[i].0, pairs[j].0)
  {
    var first, rest := PairsOf(ks[0], v[ks[0]]), Flatten(v, ks[1..]);
    PairsHaveOneName(ks[0], v[ks[0]]);
    if i >= |first| {
      FlattenedNeverDescends(v, ks[1..], i - |first|, j - |first|);
    } else if j >= |first| {
      NamesAreKeys(v, ks[1..]);
      assert rest[j - |first|] in rest && first[i] in first;
    } else {
      assert first[i] in first && first[j] in first;
    }
  }

  /** Whoever splits a query at its separators and decodes the names finds the names of its pairs,
      and finds them ascending byte by byte, a prefix before what it begins. */
  lemma NamesAscend(v: Values, ks: seq<Bytes>)
    requires KeysOf(ks, v) && Query(v, ks) != []
    ensures var parts, names := Split(Query(v, ks), AMPERSAND), NamesOf(Flatten(v, ks));
            && |parts| == |names| && (forall i :: 0 <= i < |parts| ==> NameIn(parts[i]) == Some(names[i]))
            && NeverDescends(names)
  {
    var pairs := Flatten(v, ks);
    JoinedIsNotEmpty(pairs);
    forall i | 0 <= i < |pairs|
      ensures NameIn(RenderAll(pairs)[i]) == Some(pairs[i].0)
    {
      NameIsRead(pairs[i]);
    }
    forall i, j | 0 <= i < j < |pairs|
      ensures pairs[i].0 == pairs[j].0 || FallsBehind(pairs[i].0, pairs[j].0)
    {
      FlattenedNeverDescends(v, ks, i, j);
      BelowIff(pairs[i].0, pairs[j].0);
    }
  }

  //////// What two queries have in common

  function ValuesFor(pairs: seq<Pair>, k: Bytes): seq<Bytes> {
    if pairs == [] then []
    else (if pairs[0].0 == k then [pairs[0].1] else []) + ValuesFor(pairs[1..], k)
  }

  lemma {:induction false} ValuesForTwo(a: seq<Pair>, b: seq<Pair>, k: Bytes)
    ensures ValuesFor(a + b, k) == ValuesFor(a, k) + ValuesFor(b, k)
  {
    if a == [] {
      assert a + b == b;
    } else {
      assert (a + b)[1..] == a[1..] + b;
      ValuesForTwo(a[1..], b, k);
      Associative(if a[0].0 == k then [a[0].1] else [], ValuesFor(a[1..], k), ValuesFor(b, k));
    }
  }

  lemma {:induction false} ValuesForOne(name: Bytes, values: seq<Bytes>, k: Bytes)
    ensures ValuesFor(PairsOf(name, values), k) == if k == name then values else []
  {
    if values != [] {
      ValuesForOne(name, values[1..], k);
      assert [values[0]] + values[1..] == values;
    }
  }

  function Listed(v: Values, k: Bytes): seq<Bytes> { if k in v then v[k] else [] }

  lemma {:induction false} FlattenTells(v: Values, ks: seq<Bytes>, k: Bytes)
    requires (forall x :: x in ks ==> x in v) && Sorted(ks)
    ensures ValuesFor(Flatten(v, ks), k) == if k in ks then v[k] else []
  {
    if ks != [] {
      FlattenTells(v, ks[1..], k);
      ValuesForOne(ks[0], v[ks[0]], k);
      ValuesForTwo(PairsOf(ks[0], v[ks[0]]), Flatten(v, ks[1..]), k);
      TailHas(ks, k);
      if k == ks[0] {
        assert v[k] + [] == v[k];
      } else {
        assert [] + ValuesFor(Flatten(v, ks[1..]), k) == ValuesFor(Flatten(v, ks[1..]), k);
      }
    }
  }

  // What a walk over these keys lists under one of them.
  function Under(v: Values, ks: seq<Bytes>, k: Bytes): seq<Bytes> { if k in ks then Listed(v, k) else [] }

  /** Two maps have the same query exactly when they list the same values under every key; all
      that cannot be told is a key with no values from a key that is not there. */
  lemma QueriesEqualIff(v: Values, vs: seq<Bytes>, w: Values, ws: seq<Bytes>)
    requires KeysOf(vs, v) && KeysOf(ws, w)
    ensures Query(v, vs) == Query(w, ws) <==> forall k :: Listed(v, k) == Listed(w, k)
  {
    if Query(v, vs) == Query(w, ws) {
      PairsAreTold(Flatten(v, vs), Flatten(w, ws));
      forall k
        ensures Listed(v, k) == Listed(w, k)
      {
        FlattenTells(v, vs, k);
        FlattenTells(w, ws, k);
      }
    } else if forall k :: Listed(v, k) == Listed(w, k) {
      forall k
        ensures Under(v, vs, k) == Under(w, ws, k)
      {
        assert Listed(v, k) == Listed(w, k);
      }
      SameListsSameFlattening(v, vs, w, ws);
    }
  }

  // Keys with no values add nothing, so two sorted walks can be taken in step.
  lemma {:induction false} SameListsSameFlattening(v: Values, vs: seq<Bytes>, w: Values, ws: seq<Bytes>)
    requires Sorted(vs) && Sorted(ws)
    requires (forall k :: k in vs ==> k in v) && (forall k :: k in ws ==> k in w)
    requires forall k :: Under(v, vs, k) == Under(w, ws, k)
    ensures Flatten(v, vs) == Flatten(w, ws)
    decreases |vs| + |ws|
  {
    if vs != [] && v[vs[0]] == [] {
      Skip(v, vs);
      SameListsSameFlattening(v, vs[1..], w, ws);
    } else if ws != [] && w[ws[0]] == [] {
      Skip(w, ws);
      SameListsSameFlattening(v, vs, w, ws[1..]);
    } else if vs != [] {
      FirstsAgree(v, vs, w, ws);
      SameListsSameFlattening(v, vs[1..], w, ws[1..]);
    } else if ws != [] {
      FirstIsListed(w, ws, v, vs);
    }
  }

  lemma Skip(v: Values, vs: seq<Bytes>)
    requires vs != [] && Sorted(vs) && (forall k :: k in vs ==> k in v) && v[vs[0]] == []
    ensures Flatten(v, vs) == Flatten(v, vs[1..])
    ensures forall k :: Under(v, vs[1..], k) == Under(v, vs, k)
  {
    forall k
      ensures Under(v, vs[1..], k) == Under(v, vs, k)
    {
      TailHas(vs, k);
    }
  }

  lemma FirstIsListed(v: Values, vs: seq<Bytes>, w: Values, ws: seq<Bytes>)
    requires vs != [] && (forall k :: k in vs ==> k in v) && v[vs[0]] != []
    requires forall k :: Under(v, vs, k) == Under(w, ws, k)
    ensures vs[0] in ws && Listed(w, vs[0]) == v[vs[0]]
  {
    assert Under(v, vs, vs[0]) == Under(w, ws, vs[0]);
  }

  lemma FirstsAgree(v: Values, vs: seq<Bytes>, w: Values, ws: seq<Bytes>)
    requires vs != [] && Sorted(vs) && Sorted(ws)
    requires (forall k :: k in vs ==> k in v) && (forall k :: k in ws ==> k in w)
    requires v[vs[0]] != [] && (ws != [] ==> w[ws[0]] != [])
    requires forall k :: Under(v, vs, k) == Under(w, ws, k)
    ensures ws != [] && vs[0] == ws[0] && v[vs[0]] == w[ws[0]]
    ensures forall k :: Under(v, vs[1..], k) == Under(w, ws[1..], k)
  {
    FirstIsListed(v, vs, w, ws);
    FirstIsListed(w, ws, v, vs);
    var i :| 0 <= i < |ws| && ws[i] == vs[0];
    var j :| 0 <= j < |vs| && vs[j] == ws[0];
    BelowIsStrict(vs[0], ws[0], vs[0]);
    forall k
      ensures Under(v, vs[1..], k) == Under(w, ws[1..], k)
    {
      TailHas(vs, k);
      TailHas(ws, k);
      assert Under(v, vs, k) == Under(w, ws, k);
    }
  }
}
