/** ILP addresses match the pattern of Interledger RFC 15, read as a regular expression:
    a scheme, then one or more times a dot and one or more letters, digits, `_`, `~` or `-`. */
module Addresses {
  import opened Text

  function Ascii(s: string): Text {
    seq(|s|, i requires 0 <= i < |s| => if s[i] < 128 as char then s[i] as int else 0)
  }

  predicate InClass(b: Byte) {
    var c := b as char;
    'a' <= c <= 'z' || 'A' <= c <= 'Z' || '0' <= c <= '9' || c == '_' || c == '~' || c == '-'
  }

  predicate AllInClass(b: Text) {
    forall i :: 0 <= i < |b| ==> InClass(b[i])
  }

  /** One or more times: a dot, then one or more characters of the class. */
  predicate DottedParts(b: Text)
    decreases |b|
  {
    && |b| >= 2 && b[0] as char == '.'
    && exists n :: 2 <= n <= |b| && AllInClass(b[1..n]) && (n == |b| || DottedParts(b[n..]))
  }

  const SCHEMES: set<string> :=
    {"g", "private", "example", "peer", "self", "test", "test1", "test2", "test3", "local"}

  ghost predicate MatchesPattern(a: Text) {
    exists scheme, k :: scheme in SCHEMES && 0 <= k <= |a| && a[..k] == Ascii(scheme) && DottedParts(a[k..])
  }

  // ---------------------------------------------------------------- splitting at a dot

  lemma {:induction false} SplitWithoutDot(x: Text)
    requires DOT !in x
    ensures Split(x) == [x]
  {
    if x != [] {
      SplitWithoutDot(x[1..]);
      assert [x[0]] + x[1..] == x;
    }
  }

  lemma {:induction false} SplitAtDot(x: Text, y: Text)
    requires DOT !in x
    ensures Split(x + [DOT] + y) == [x] + Split(y)
  {
    var t := x + [DOT] + y;
    if x == [] {
      assert t[1..] == y;
    } else {
      assert t[1..] == x[1..] + [DOT] + y;
      SplitAtDot(x[1..], y);
      assert [t[0]] + x[1..] == x;
    }
  }

  predicate GoodSegments(segments: seq<Text>) {
    forall i :: 0 <= i < |segments| ==>
      segments[i] != [] && forall j :: 0 <= j < |segments[i]| ==> IsAddressByte(segments[i][j])
  }

  lemma ClassIsAddressByte(b: Byte)
    ensures InClass(b) <==> IsAddressByte(b)
    ensures InClass(b) ==> b != DOT
  {
  }

  lemma ClassHasNoDot(x: Text)
    requires AllInClass(x)
    ensures DOT !in x
  {
  }

  lemma {:induction false} DottedPartsAreSegments(b: Text)
    requires DottedParts(b)
    ensures b[0] == DOT && GoodSegments(Split(b[1..]))
    decreases |b|
  {
    var n :| 2 <= n <= |b| && AllInClass(b[1..n]) && (n == |b| || DottedParts(b[n..]));
    var x := b[1..n];
    ClassHasNoDot(x);
    forall j | 0 <= j < |x| ensures IsAddressByte(x[j]) {
      ClassIsAddressByte(x[j]);
    }
    if n == |b| {
      SplitWithoutDot(x);
      assert b[1..] == x;
    } else {
      DottedPartsAreSegments(b[n..]);
      var y := b[n..][1..];
      assert b[1..] == x + [DOT] + y;
      SplitAtDot(x, y);
    }
  }

  lemma {:induction false} SegmentsAreDottedParts(b: Text)
    requires b != [] && b[0] == DOT && GoodSegments(Split(b[1..]))
    ensures DottedParts(b)
    decreases |b|
  {
    var s := Split(b[1..]);
    var x, n := s[0], 1 + |s[0]|;
    JoinSplit(b[1..]);
    assert AllInClass(x) by {
      forall j | 0 <= j < |x| ensures InClass(x[j]) {
        ClassIsAddressByte(x[j]);
      }
    }
    if |s| == 1 {
      assert b[1..n] == x && n == |b|;
    } else {
      var y := Join(s[1..]);
      assert b[1..] == x + [DOT] + y;
      SplitAtDot(x, y);
      assert Split(y) == s[1..];
      assert b[n..] == [DOT] + y && b[n..][1..] == y;
      SegmentsAreDottedParts(b[n..]);
      assert b[1..n] == x;
    }
  }

  lemma SchemesAreSchemes(s: Text)
    ensures IsScheme(s) <==> exists scheme :: scheme in SCHEMES && s == Ascii(scheme)
  {
    assert Ascii("g") == [103] && Ascii("private") == [112, 114, 105, 118, 97, 116, 101];
    assert Ascii("example") == [101, 120, 97, 109, 112, 108, 101] && Ascii("peer") == [112, 101, 101, 114];
    assert Ascii("self") == [115, 101, 108, 102] && Ascii("test") == [116, 101, 115, 116];
    assert Ascii("test1") == [116, 101, 115, 116, 49] && Ascii("test2") == [116, 101, 115, 116, 50];
    assert Ascii("test3") == [116, 101, 115, 116, 51] && Ascii("local") == [108, 111, 99, 97, 108];
  }

  lemma SchemeHasNoDot(s: Text)
    requires IsScheme(s)
    ensures DOT !in s
  {
  }

  lemma AddressMatches(a: Text)
    requires IsAddress(a)
    ensures MatchesPattern(a)
  {
    var s := Split(a);
    JoinSplit(a);
    var k := |s[0]|;
    var y := Join(s[1..]);
    assert a == s[0] + [DOT] + y;
    SplitAtDot(s[0], y);
    assert Split(y) == s[1..];
    assert a[..k] == s[0] && a[k..] == [DOT] + y && a[k..][1..] == y;
    SegmentsAreDottedParts(a[k..]);
    SchemesAreSchemes(s[0]);
  }

  lemma MatchIsAddress(a: Text, k: nat)
    requires k <= |a| <= 1023 && IsScheme(a[..k]) && DottedParts(a[k..])
    ensures IsAddress(a)
  {
    SchemeHasNoDot(a[..k]);
    DottedPartsAreSegments(a[k..]);
    var y := a[k..][1..];
    assert a == a[..k] + [DOT] + y;
    SplitAtDot(a[..k], y);
    var s := Split(a);
    assert forall i :: 1 <= i < |s| ==> s[i] == Split(y)[i - 1];
  }

  /** An address is accepted exactly if it has at most 1023 bytes and matches the pattern. */
  lemma AddressIffPattern(a: Text)
    ensures IsAddress(a) <==> |a| <= 1023 && MatchesPattern(a)
  {
    if IsAddress(a) {
      AddressMatches(a);
    }
    if |a| <= 1023 && MatchesPattern(a) {
      var scheme, k :| scheme in SCHEMES && 0 <= k <= |a| && a[..k] == Ascii(scheme) && DottedParts(a[k..]);
      SchemesAreSchemes(a[..k]);
      MatchIsAddress(a, k);
    }
  }
}
