/** Release tags: how one is read, and which of two is newer. */
module Versions {
  import opened Wrappers
  import opened Text

  const MAX_INT: int := 0x7fff_ffff_ffff_ffff

  predicate IsDigit(c: char) { '0' <= c <= '9' }

  predicate AllDigits(s: string) { forall i :: 0 <= i < |s| ==> IsDigit(s[i]) }

  function Value(s: string): nat
    requires AllDigits(s)
  {
    if s == "" then 0
    else
      assert IsDigit(s[|s| - 1]);
      Value(s[..|s| - 1]) * 10 + (s[|s| - 1] as int - '0' as int)
  }

  /** strconv.Atoi: an optional sign, at least one digit, nothing else, within 64 bits. */
  function Atoi(s: string): Option<int> {
    var signed := s != "" && (s[0] == '-' || s[0] == '+');
    var digits := if signed then s[1..] else s;
    if digits == "" || !AllDigits(digits) then None
    else
      var m: int := Value(digits);
      var n := if signed && s[0] == '-' then -m else m;
      if -MAX_INT - 1 <= n <= MAX_INT then Some(n) else None
  }

  type Triple = (int, int, int)

  function TrimV(s: string): string { if s != "" && s[0] == 'v' then s[1..] else s }

  function Part(s: string): Option<int> {
    var n := Atoi(s);
    if n.Some? && n.value < 0 then None else n
  }

  function Numbers(parts: seq<string>): Option<Triple>
    requires |parts| == 3
  {
    var a, b, c := Part(parts[0]), Part(parts[1]), Part(parts[2]);
    if a.None? || b.None? || c.None? then None else Some((a.value, b.value, c.value))
  }

  /** What a tag's three parts come to, if there are three and all are numbers. */
  function Parsed(v: string): Option<Triple> {
    var parts := Split(TrimV(TrimSpace(v)), '.');
    if |parts| == 3 then Numbers(parts) else None
  }

  predicate Below(a: Triple, b: Triple) {
    a.0 < b.0 || (a.0 == b.0 && (a.1 < b.1 || (a.1 == b.1 && a.2 < b.2)))
  }

  predicate Newer(current: string, candidate: string) {
    Parsed(current).Some? && Parsed(candidate).Some? && Below(Parsed(current).value, Parsed(candidate).value)
  }

  method Parse(v: string) returns (numbers: Option<Triple>)
    ensures numbers == Parsed(v)
  {
    var parts := Split(TrimV(TrimSpace(v)), '.');
    if |parts| != 3 { return None; }
    numbers := ReadNumbers(parts);
  }

  method ReadNumbers(parts: seq<string>) returns (numbers: Option<Triple>)
    requires |parts| == 3
    ensures numbers == Numbers(parts)
  {
    var out := new int[3];
    var i := 0;
    while i < 3
      invariant 0 <= i <= 3
      invariant forall j :: 0 <= j < i ==> Part(parts[j]) == Some(out[j])
    {
      var n := Atoi(parts[i]);
      if n.None? || n.value < 0 { return None; }
      out[i] := n.value;
      i := i + 1;
    }
    return Some((out[0], out[1], out[2]));
  }

  method IsNewer(current: string, candidate: string) returns (newer: bool)
    ensures newer == Newer(current, candidate)
  {
    var c := Parse(current);
    if c.None? { return false; }
    var n := Parse(candidate);
    if n.None? { return false; }
    newer := Later([c.value.0, c.value.1, c.value.2], [n.value.0, n.value.1, n.value.2]);
  }

  // The first place where they differ decides.
  method Later(c: seq<int>, n: seq<int>) returns (later: bool)
    requires |c| == |n| == 3
    ensures later == Below((c[0], c[1], c[2]), (n[0], n[1], n[2]))
  {
    var i := 0;
    while i < 3
      invariant 0 <= i <= 3
      invariant forall j :: 0 <= j < i ==> c[j] == n[j]
    {
      if n[i] > c[i] { return true; }
      if n[i] < c[i] { return false; }
      i := i + 1;
    }
    return false;
  }

  /** "Newer" is a strict order, so no sequence of updates can go round in a circle. */
  lemma NewerIsStrict(a: string, b: string, c: string)
    ensures !Newer(a, a)
    ensures Newer(a, b) && Newer(b, c) ==> Newer(a, c)
    ensures Newer(a, b) ==> !Newer(b, a)
  {
  }

  //////// Tags as they are written

  function Itoa(n: nat): (s: string)
    ensures s != "" && AllDigits(s) && Value(s) == n
  {
    var last := ('0' as int + n % 10) as char;
    assert IsDigit(last);
    if n < 10 then
      assert [last][..0] == "";
      [last]
    else
      var front := Itoa(n / 10);
      assert (front + [last])[..|front + [last]| - 1] == front;
      front + [last]
  }

  function Tag(major: nat, minor: nat, patch: nat): string {
    "v" + Itoa(major) + "." + Itoa(minor) + "." + Itoa(patch)
  }

  lemma AtoiOfItoa(n: nat)
    requires n <= MAX_INT
    ensures Part(Itoa(n)) == Some(n)
  {
  }

  lemma JoinOfThree(a: string, b: string, c: string)
    ensures Join([a, b, c], '.') == a + "." + b + "." + c
  {
    assert [a, b, c][1..][1..] == [c];
    assert Join([a, b, c][1..], '.') == b + "." + c;
  }

  lemma TagIsTrimmed(major: nat, minor: nat, patch: nat)
    ensures TrimSpace(Tag(major, minor, patch)) == Tag(major, minor, patch)
  {
    var tag, last := Tag(major, minor, patch), Itoa(patch);
    assert tag[0] == 'v' && tag[|tag| - 1] == last[|last| - 1];
    assert IsDigit(last[|last| - 1]);
  }

  /** A tag reads back as the three numbers it was written from. */
  lemma TagRoundTrip(major: nat, minor: nat, patch: nat)
    requires major <= MAX_INT && minor <= MAX_INT && patch <= MAX_INT
    ensures Parsed(Tag(major, minor, patch)) == Some((major, minor, patch))
  {
    var parts := [Itoa(major), Itoa(minor), Itoa(patch)];
    var tag := Tag(major, minor, patch);
    var body := Itoa(major) + "." + Itoa(minor) + "." + Itoa(patch);
    assert tag == "v" + body;
    TagIsTrimmed(major, minor, patch);
    assert tag[1..] == body;
    JoinOfThree(Itoa(major), Itoa(minor), Itoa(patch));
    forall part | part in parts
      ensures '.' !in part
    {
      assert AllDigits(part);
    }
    SplitOfJoin(parts, '.');
    AtoiOfItoa(major);
    AtoiOfItoa(minor);
    AtoiOfItoa(patch);
  }

  /** The `v` may be left out. */
  lemma BareTagReadsAlike(major: nat, minor: nat, patch: nat)
    requires major <= MAX_INT && minor <= MAX_INT && patch <= MAX_INT
    ensures Parsed(Tag(major, minor, patch)[1..]) == Some((major, minor, patch))
  {
    TagRoundTrip(major, minor, patch);
    TagIsTrimmed(major, minor, patch);
    var tag := Tag(major, minor, patch);
    var first := Itoa(major);
    assert tag[1] == first[0] && IsDigit(first[0]);
    BareTagIsTrimmed(tag);
  }

  lemma BareTagIsTrimmed(tag: string)
    requires |tag| > 1 && tag[0] == 'v' && TrimSpace(tag) == tag && !IsSpace(tag[1]) && tag[1] != 'v'
    ensures TrimSpace(tag[1..]) == tag[1..] && TrimV(tag[1..]) == TrimV(tag)
  {
    assert tag[1..][|tag[1..]| - 1] == tag[|tag| - 1];
    var pad := TrimRightDropsSpace(tag);
  }

  /** A part is digits that fit 64 bits, with at most a plus before them, or nothing but zeros after
      a minus; nothing else is a part. */
  lemma PartIs(digits: string)
    requires digits != "" && AllDigits(digits)
    ensures Part(digits) == Part("+" + digits) == if Value(digits) <= MAX_INT then Some(Value(digits)) else None
    ensures Part("-" + digits) == if Value(digits) == 0 then Some(0) else None
  {
    assert ("+" + digits)[1..] == digits && ("-" + digits)[1..] == digits;
    assert IsDigit(digits[0]);
  }

  lemma NothingElseIsAPart(s: string)
    requires forall digits :: s == digits || s == "+" + digits || s == "-" + digits ==>
               digits == "" || !AllDigits(digits)
    ensures Part(s).None?
  {
    if s != "" && (s[0] == '-' || s[0] == '+') {
      assert s == [s[0]] + s[1..];
      assert s == "+" + s[1..] || s == "-" + s[1..];
    }
  }

  // They agree before this place and the second is larger at it.
  predicate LargerAt(a: (nat, nat, nat), b: (nat, nat, nat), place: nat) {
    match place
    case 0 => a.0 < b.0
    case 1 => a.0 == b.0 && a.1 < b.1
    case 2 => a.0 == b.0 && a.1 == b.1 && a.2 < b.2
    case _ => false
  }

  /** On tags as they are written, newer means numerically larger at the first place where they
      differ: 10 comes after 9. */
  lemma NewerIsNumeric(a: (nat, nat, nat), b: (nat, nat, nat))
    requires a.0 <= MAX_INT && a.1 <= MAX_INT && a.2 <= MAX_INT
    requires b.0 <= MAX_INT && b.1 <= MAX_INT && b.2 <= MAX_INT
    ensures Newer(Tag(a.0, a.1, a.2), Tag(b.0, b.1, b.2)) <==> exists place :: LargerAt(a, b, place)
  {
    TagRoundTrip(a.0, a.1, a.2);
    TagRoundTrip(b.0, b.1, b.2);
    NumericIff(a, b);
  }

  lemma NumericIff(a: (nat, nat, nat), b: (nat, nat, nat))
    ensures Below((a.0, a.1, a.2), (b.0, b.1, b.2)) <==> exists place :: LargerAt(a, b, place)
  {
    assert Below((a.0, a.1, a.2), (b.0, b.1, b.2)) <==> LargerAt(a, b, 0) || LargerAt(a, b, 1) || LargerAt(a, b, 2);
  }
}
