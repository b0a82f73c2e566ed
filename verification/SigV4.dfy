/** Canonical percent-encoding for request signing: both ends must produce the same bytes, so
    every encoding here is a function of its input alone and loses nothing of it. */
module SigV4 {
  import opened Wrappers
  import opened Text

  newtype Byte = x: int | 0 <= x < 256

  type Bytes = seq<Byte>

  const PERCENT: Byte := 0x25
  const AMPERSAND: Byte := 0x26
  const HYPHEN: Byte := 0x2d
  const DOT: Byte := 0x2e
  const SLASH: Byte := 0x2f
  const EQUALS: Byte := 0x3d
  const UNDERSCORE: Byte := 0x5f
  const TILDE: Byte := 0x7e

  predicate Digit(b: Byte) { 0x30 <= b <= 0x39 }
  predicate Upper(b: Byte) { 0x41 <= b <= 0x5a }
  predicate Lower(b: Byte) { 0x61 <= b <= 0x7a }

  /** Section 2.3 of RFC 3986. */
  predicate Unreserved(b: Byte) {
    Upper(b) || Lower(b) || Digit(b) || b == HYPHEN || b == UNDERSCORE || b == DOT || b == TILDE
  }

  function HexDigit(n: nat): Byte
    requires n < 16
  {
    if n < 10 then 0x30 + n as Byte else 0x41 + (n - 10) as Byte
  }

  lemma UpperAre(b: Byte)
    ensures Upper(b) <==> b as char in "ABCDEFGHIJKLMNOPQRSTUVWXYZ"
  {
  }

  lemma LowerAre(b: Byte)
    ensures Lower(b) <==> b as char in "abcdefghijklmnopqrstuvwxyz"
  {
  }

  /** The sixty-six bytes that stand for themselves, as characters. */
  lemma UnreservedAre(b: Byte)
    ensures Unreserved(b) <==>
            || b as char in "ABCDEFGHIJKLMNOPQRSTUVWXYZ" || b as char in "abcdefghijklmnopqrstuvwxyz"
            || b as char in "0123456789" || b as char in "-_.~"
  {
    UpperAre(b);
    LowerAre(b);
  }

  lemma DigitsAre(n: nat)
    requires n < 16
    ensures HexDigit(n) as char == "0123456789ABCDEF"[n]
  {
  }

  function EncodeByte(b: Byte): Bytes {
    if Unreserved(b) then [b] else [PERCENT, HexDigit(b as int / 16), HexDigit(b as int % 16)]
  }

  function Encode(s: Bytes): Bytes {
    if s == [] then [] else EncodeByte(s[0]) + Encode(s[1..])
  }

  lemma EncodeStep(s: Bytes, i: nat, before: Bytes, after: Bytes)
    requires i < |s| && before + Encode(s[i..]) == Encode(s) && after == before + EncodeByte(s[i])
    ensures after + Encode(s[i + 1..]) == Encode(s)
  {
    assert s[i..][1..] == s[i + 1..];
    Associative(before, EncodeByte(s[i]), Encode(s[i + 1..]));
  }

  method EncodeSegment(s: Bytes) returns (out: Bytes)
    ensures out == Encode(s)
  {
    out := [];
    var i := 0;
    while i < |s|
      invariant 0 <= i <= |s|
      invariant out + Encode(s[i..]) == Encode(s)
    {
      var ch := s[i];
      ghost var before := out;
      if Upper(ch) || Lower(ch) || Digit(ch) || ch == HYPHEN || ch == UNDERSCORE || ch == DOT || ch == TILDE {
        out := out + [ch];
      } else {
        out := out + [PERCENT];
        out := out + [HexDigit(ch as int / 16)];
        out := out + [HexDigit(ch as int % 16)];
      }
      assert out == before + EncodeByte(ch);
      EncodeStep(s, i, before, out);
      i := i + 1;
    }
  }

  //////// Decoding, as section 2.1 of RFC 3986 has it

  function HexValue(c: Byte): Option<nat> {
    if Digit(c) then Some(c as int - 0x30)
    else if 0x41 <= c <= 0x46 then Some(c as int - 0x41 + 10)
    else if 0x61 <= c <= 0x66 then Some(c as int - 0x61 + 10)
    else None
  }

  function Octet(high: Byte, low: Byte): Option<Byte> {
    var h, l := HexValue(high), HexValue(low);
    if h.None? || l.None? then None
    else
      var n := h.value * 16 + l.value;
      if n < 256 then Some(n as Byte) else None
  }

  function Decode(t: Bytes): Option<Bytes> {
    if t == [] then Some([])
    else if t[0] == PERCENT then
      if |t| < 3 || Octet(t[1], t[2]).None? then None
      else
        var rest := Decode(t[3..]);
        if rest.None? then None else Some([Octet(t[1], t[2]).value] + rest.value)
    else
      var rest := Decode(t[1..]);
      if rest.None? then None else Some([t[0]] + rest.value)
  }

  lemma OctetOfDigits(b: Byte)
    ensures Octet(HexDigit(b as int / 16), HexDigit(b as int % 16)) == Some(b)
  {
    var h, l := b as int / 16, b as int % 16;
    assert HexValue(HexDigit(h)) == Some(h) && HexValue(HexDigit(l)) == Some(l);
  }

  /** Every byte string comes back from its encoding. */
  lemma {:induction false} DecodeOfEncode(s: Bytes)
    ensures Decode(Encode(s)) == Some(s)
  {
    if s != [] {
      var t, rest := Encode(s), Encode(s[1..]);
      DecodeOfEncode(s[1..]);
      assert [s[0]] + s[1..] == s;
      if Unreserved(s[0]) {
        assert t[1..] == rest;
      } else {
        OctetOfDigits(s[0]);
        assert t == EncodeByte(s[0]) + rest;
        assert t[3..] == rest && t[0] == PERCENT && t[1..3] == EncodeByte(s[0])[1..3];
        assert t[1] == HexDigit(s[0] as int / 16) && t[2] == HexDigit(s[0] as int % 16);
      }
    }
  }

  predicate UpperHex(c: Byte) { Digit(c) || 0x41 <= c <= 0x46 }

  /** The normal form: unreserved bytes stand for themselves, everything else is `%` and two
      upper-case digits, and nothing unreserved is escaped. */
  predicate Normal(t: Bytes) {
    t == []
    || (Unreserved(t[0]) && Normal(t[1..]))
    || (t[0] == PERCENT && |t| >= 3 && UpperHex(t[1]) && UpperHex(t[2])
        && Octet(t[1], t[2]).Some? && !Unreserved(Octet(t[1], t[2]).value) && Normal(t[3..]))
  }

  lemma {:induction false} EncodeIsNormal(s: Bytes)
    ensures Normal(Encode(s))
  {
    if s != [] {
      var t, rest := Encode(s), Encode(s[1..]);
      EncodeIsNormal(s[1..]);
      OctetOfDigits(s[0]);
      if Unreserved(s[0]) {
        assert t[1..] == rest;
      } else {
        assert t[3..] == rest;
      }
    }
  }

  lemma DigitsOfOctet(high: Byte, low: Byte)
    requires UpperHex(high) && UpperHex(low)
    ensures var b := Octet(high, low);
            b.Some? && HexDigit(b.value as int / 16) == high && HexDigit(b.value as int % 16) == low
  {
    var h, l := HexValue(high).value, HexValue(low).value;
    assert (h * 16 + l) / 16 == h && (h * 16 + l) % 16 == l;
  }

  /** The encodings are exactly the strings in normal form, each of one byte string. */
  lemma {:induction false} EncodeOfDecode(t: Bytes)
    requires Normal(t)
    ensures Decode(t).Some? && Encode(Decode(t).value) == t
  {
    if t != [] {
      if t[0] == PERCENT {
        EncodeOfDecode(t[3..]);
        DigitsOfOctet(t[1], t[2]);
        assert t == [t[0], t[1], t[2]] + t[3..];
        assert Decode(t).value[1..] == Decode(t[3..]).value;
      } else {
        EncodeOfDecode(t[1..]);
        assert t == [t[0]] + t[1..];
        assert Decode(t).value[1..] == Decode(t[1..]).value;
      }
    }
  }

  lemma EncodeByteHasNo(b: Byte, sep: Byte)
    requires sep == SLASH || sep == AMPERSAND || sep == EQUALS
    ensures sep !in EncodeByte(b)
  {
    assert forall n :: 0 <= n < 16 ==> UpperHex(HexDigit(n));
  }

  lemma {:induction false} EncodeHasNo(s: Bytes, sep: Byte)
    requires sep == SLASH || sep == AMPERSAND || sep == EQUALS
    ensures sep !in Encode(s)
  {
    if s != [] {
      EncodeHasNo(s[1..], sep);
      EncodeByteHasNo(s[0], sep);
    }
  }

  lemma EncodeInjective(a: Bytes, b: Bytes)
    ensures Encode(a) == Encode(b) <==> a == b
  {
    DecodeOfEncode(a);
    DecodeOfEncode(b);
  }

  //////// Paths

  function EncodeAll(parts: seq<Bytes>): (out: seq<Bytes>)
    ensures |out| == |parts| && forall i :: 0 <= i < |parts| ==> out[i] == Encode(parts[i])
  {
    if parts == [] then [] else [Encode(parts[0])] + EncodeAll(parts[1..])
  }

  function EncodedPath(path: Bytes): Bytes {
    if path == [] then [SLASH] else Join(EncodeAll(Split(path, SLASH)), SLASH)
  }

  method EncodePath(path: Bytes) returns (out: Bytes)
    ensures out == EncodedPath(path)
  {
    if path == [] { return [SLASH]; }
    var segments: seq<Bytes> := Split(path, SLASH);
    ghost var plain := segments;
    var i := 0;
    while i < |segments|
      invariant 0 <= i <= |segments| == |plain|
      invariant forall j :: 0 <= j < i ==> segments[j] == Encode(plain[j])
      invariant forall j :: i <= j < |plain| ==> segments[j] == plain[j]
    {
      var encoded := EncodeSegment(segments[i]);
      segments := segments[i := encoded];
      i := i + 1;
    }
    assert segments == EncodeAll(plain);
    return Join(segments, SLASH);
  }

  lemma EncodeAllHasNo(parts: seq<Bytes>, sep: Byte)
    requires sep == SLASH || sep == AMPERSAND || sep == EQUALS
    ensures forall p :: p in EncodeAll(parts) ==> sep !in p
  {
    forall i | 0 <= i < |parts|
      ensures sep !in EncodeAll(parts)[i]
    {
      EncodeHasNo(parts[i], sep);
    }
  }

  /** The separators, and only they, separate: splitting the encoded path and decoding each
      segment gives the segments of the path. */
  lemma PathRoundTrip(path: Bytes)
    requires path != []
    ensures var segments := Split(EncodedPath(path), SLASH);
            && |segments| == |Split(path, SLASH)|
            && forall i :: 0 <= i < |segments| ==> Decode(segments[i]) == Some(Split(path, SLASH)[i])
  {
    var parts := Split(path, SLASH);
    EncodeAllHasNo(parts, SLASH);
    SplitOfJoin(EncodeAll(parts), SLASH);
    forall i | 0 <= i < |parts|
      ensures Decode(EncodeAll(parts)[i]) == Some(parts[i])
    {
      DecodeOfEncode(parts[i]);
    }
  }

  predicate Root(path: Bytes) { path == [] || path == [SLASH] }

  lemma SplitsDiffer(a: Bytes, b: Bytes)
    requires Split(a, SLASH) == Split(b, SLASH)
    ensures a == b
  {
  }

  /** Two paths sign alike only if they are the same path, or one is empty and the other the
      bare root. */
  lemma PathsEqualIff(a: Bytes, b: Bytes)
    ensures EncodedPath(a) == EncodedPath(b) <==> a == b || (Root(a) && Root(b))
  {
    RootIsItself();
    if EncodedPath(a) == EncodedPath(b) {
      NonEmptyPathsDiffer(if a == [] then [SLASH] else a, if b == [] then [SLASH] else b);
    }
  }

  lemma NonEmptyPathsDiffer(a: Bytes, b: Bytes)
    requires a != [] && b != [] && EncodedPath(a) == EncodedPath(b)
    ensures a == b
  {
    PathRoundTrip(a);
    PathRoundTrip(b);
    var p, q := Split(a, SLASH), Split(b, SLASH);
    var segments := Split(EncodedPath(a), SLASH);
    forall i | 0 <= i < |p|
      ensures p[i] == q[i]
    {
      assert Decode(segments[i]) == Some(p[i]);
    }
    assert p == q;
    SplitsDiffer(a, b);
  }

  lemma RootIsItself()
    ensures EncodedPath([SLASH]) == [SLASH] == EncodedPath([])
  {
    var root: Bytes := [SLASH];
    assert root[1..] == [];
    assert Split(root, SLASH) == [[], []];
    assert EncodeAll([[], []]) == [[], []];
  }
}
