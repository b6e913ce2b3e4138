/** Byte strings, the way the connector handles them.
    Rust's `str` is a byte string: `starts_with`, `len` and the ordering `<` all work
    on bytes, so text is modelled as a sequence of bytes. */
module Text {

  type Byte = b: int | 0 <= b < 256
  type Text = seq<Byte>

  const DOT: Byte := 46

  // ---------------------------------------------------------------- ordering

  /** The bytewise order on strings used to break ties between account ids. */
  predicate Less(a: Text, b: Text) {
    if b == [] then false
    else if a == [] then true
    else a[0] < b[0] || (a[0] == b[0] && Less(a[1..], b[1..]))
  }

  /** Dictionary order: up to some place the texts agree, and there `a` ends or has the smaller byte. */
  predicate DictionaryLess(a: Text, b: Text) {
    exists n :: 0 <= n <= |a| && n < |b| && a[..n] == b[..n] && (n == |a| || a[n] < b[n])
  }

  lemma {:induction false} LessIsDictionaryOrder(a: Text, b: Text)
    ensures Less(a, b) <==> DictionaryLess(a, b)
  {
    if a != [] && b != [] {
      LessIsDictionaryOrder(a[1..], b[1..]);
      if Less(a, b) {
        if a[0] < b[0] {
          assert a[..0] == b[..0];
        } else {
          var n :| 0 <= n <= |a| - 1 && n < |b| - 1 && a[1..][..n] == b[1..][..n]
                   && (n == |a| - 1 || a[1..][n] < b[1..][n]);
          assert a[..n + 1] == [a[0]] + a[1..][..n] && b[..n + 1] == [b[0]] + b[1..][..n];
        }
      }
      if n :| 0 <= n <= |a| && n < |b| && a[..n] == b[..n] && (n == |a| || a[n] < b[n]) {
        if n > 0 {
          assert a[0] == a[..n][0] && b[0] == b[..n][0];
          assert a[1..][..n - 1] == a[..n][1..] && b[1..][..n - 1] == b[..n][1..];
        }
      }
    } else if a == [] && b != [] {
      assert a[..0] == b[..0];
    }
  }

  lemma {:induction false} LessIsTotal(a: Text, b: Text)
    ensures Less(a, b) || Less(b, a) || a == b
    ensures !(Less(a, b) && Less(b, a))
    ensures !Less(a, a)
  {
    if a != [] && b != [] && a[0] == b[0] {
      LessIsTotal(a[1..], b[1..]);
      assert a == [a[0]] + a[1..] && b == [b[0]] + b[1..];
    }
    if a != [] {
      LessIsTotal(a[1..], a[1..]);
    }
  }

  lemma {:induction false} LessIsTransitive(a: Text, b: Text, c: Text)
    requires Less(a, b) && Less(b, c)
    ensures Less(a, c)
  {
    if a != [] && a[0] == b[0] && b[0] == c[0] {
      LessIsTransitive(a[1..], b[1..], c[1..]);
    }
  }

  // ---------------------------------------------------------------- segments

  /** `str::split('.')`: always at least one segment. */
  function Split(t: Text): (segments: seq<Text>)
    ensures |segments| >= 1
    ensures forall i :: 0 <= i < |segments| ==> DOT !in segments[i]
  {
    if t == [] then [[]]
    else
      var rest := Split(t[1..]);
      if t[0] == DOT then [[]] + rest
      else [[t[0]] + rest[0]] + rest[1..]
  }

  /** `segments.join(".")`. */
  function Join(segments: seq<Text>): Text {
    if segments == [] then []
    else if |segments| == 1 then segments[0]
    else segments[0] + [DOT] + Join(segments[1..])
  }

  lemma {:induction false} JoinSplit(t: Text)
    ensures Join(Split(t)) == t
  {
    if t != [] {
      JoinSplit(t[1..]);
      var rest := Split(t[1..]);
      if t[0] == DOT {
        assert ([[]] + rest)[1..] == rest;
      } else {
        var segments := [[t[0]] + rest[0]] + rest[1..];
        assert segments[1..] == rest[1..];
        assert Join(segments) == [t[0]] + Join(rest);
      }
      assert t == [t[0]] + t[1..];
    }
  }

  /** `q` is `t` cut at a segment boundary ("example.a" for "example.a.b.c"). */
  predicate SegmentPrefix(q: Text, t: Text) {
    q == t || q + [DOT] <= t
  }

  /** Joining the first segments of `t` gives a segment prefix of `t`, longer for more segments. */
  lemma JoinPrefix(t: Text, n: nat)
    requires 1 <= n <= |Split(t)|
    ensures SegmentPrefix(Join(Split(t)[..n]), t)
    ensures n == |Split(t)| ==> Join(Split(t)[..n]) == t
    ensures forall m :: 1 <= m < n ==> |Join(Split(t)[..m])| < |Join(Split(t)[..n])|
  {
    var s := Split(t);
    if n == |s| {
      assert s[..n] == s;
      JoinSplit(t);
    } else {
      assert t != [];
      JoinPrefixCut(t, n);
    }
    forall m | 1 <= m < n ensures |Join(s[..m])| < |Join(s[..n])| {
      JoinGrows(s, m, n);
    }
  }

  lemma {:induction false} JoinGrows(s: seq<Text>, m: nat, n: nat)
    requires 1 <= m < n <= |s|
    ensures |Join(s[..m])| < |Join(s[..n])|
  {
    assert s[..n][1..] == s[1..][..n - 1];
    if m > 1 {
      assert s[..m][1..] == s[1..][..m - 1];
      JoinGrows(s[1..], m - 1, n - 1);
    }
  }

  lemma {:induction false} JoinPrefixCut(t: Text, n: nat)
    requires 1 <= n < |Split(t)|
    ensures Join(Split(t)[..n]) + [DOT] <= t
    decreases |t|
  {
    var s := Split(t);
    var rest := Split(t[1..]);
    assert t == [t[0]] + t[1..];
    if t[0] == DOT {
      assert s == [[]] + rest;
      if n == 1 {
        assert s[..1] == [[]];
      } else {
        JoinPrefixCut(t[1..], n - 1);
        assert s[..n][1..] == rest[..n - 1];
        assert Join(s[..n]) == [DOT] + Join(rest[..n - 1]);
        assert Join(s[..n]) + [DOT] == [DOT] + (Join(rest[..n - 1]) + [DOT]);
      }
    } else {
      JoinPrefixCut(t[1..], n);
      assert s[..n][1..] == rest[..n][1..];
      assert Join(s[..n]) == [t[0]] + Join(rest[..n]);
      assert Join(s[..n]) + [DOT] == [t[0]] + (Join(rest[..n]) + [DOT]);
    }
  }

  /** Every segment prefix of `t` is the join of some number of its first segments. */
  lemma {:induction false} SegmentPrefixIsJoin(q: Text, t: Text) returns (n: nat)
    requires SegmentPrefix(q, t)
    ensures 1 <= n <= |Split(t)|
    ensures Join(Split(t)[..n]) == q
    decreases |t|
  {
    var s := Split(t);
    if q == t {
      n := |s|;
      assert s[..n] == s;
      JoinSplit(t);
      return;
    }
    assert t != [] && t == [t[0]] + t[1..];
    var rest := Split(t[1..]);
    if q == [] {
      assert (q + [DOT])[0] == DOT;
      n := 1;
      assert s[..1] == [[]];
    } else {
      assert q[0] == (q + [DOT])[0] == t[0];
      assert q[1..] + [DOT] == (q + [DOT])[1..];
      assert q == [q[0]] + q[1..];
      var k := SegmentPrefixIsJoin(q[1..], t[1..]);
      if t[0] == DOT {
        n := k + 1;
        assert s[..n][1..] == rest[..k];
      } else {
        n := k;
        assert s[..n][1..] == rest[..k][1..];
        assert Join(s[..n]) == [t[0]] + Join(rest[..k]);
      }
    }
  }

  // ---------------------------------------------------------------- addresses

  /** The allocation schemes an ILP address may start with. */
  predicate IsScheme(s: Text) {
    || s == [103]                                  // g
    || s == [112, 114, 105, 118, 97, 116, 101]     // private
    || s == [101, 120, 97, 109, 112, 108, 101]     // example
    || s == [112, 101, 101, 114]                   // peer
    || s == [115, 101, 108, 102]                   // self
    || s == [116, 101, 115, 116]                   // test
    || s == [116, 101, 115, 116, 49]
    || s == [116, 101, 115, 116, 50]
    || s == [116, 101, 115, 116, 51]
    || s == [108, 111, 99, 97, 108]                // local
  }

  /** `[a-zA-Z0-9_~-]` */
  predicate IsAddressByte(b: Byte) {
    97 <= b <= 122 || 65 <= b <= 90 || 48 <= b <= 57 || b == 95 || b == 126 || b == 45
  }

  const MAX_ADDRESS_LENGTH := 1023

  predicate IsAddress(a: Text) {
    var s := Split(a);
    && |a| <= MAX_ADDRESS_LENGTH
    && |s| >= 2
    && IsScheme(s[0])
    && forall i :: 1 <= i < |s| ==> s[i] != [] && forall j :: 0 <= j < |s[i]| ==> IsAddressByte(s[i][j])
  }

  /** The first segment of an address. */
  function Scheme(a: Text): Text {
    Split(a)[0]
  }

  lemma AddressIsAtLeastThreeBytes(a: Text)
    requires IsAddress(a)
    ensures |a| >= 3
  {
    var s := Split(a);
    JoinSplit(a);
    if |s| > 2 {
      assert |Join(s[1..])| >= |s[1]|;
    }
  }

  // ---------------------------------------------------------------- UTF-8

  predicate IsContinuation(b: Byte) {
    0x80 <= b < 0xC0
  }

  /** Length of the well-formed UTF-8 character at the front of `b`, or 0 if there is none. */
  function FirstCharLength(b: Text): (n: nat)
    requires b != []
    ensures n <= |b|
  {
    if b[0] < 0x80 then 1
    else if 0xC2 <= b[0] < 0xE0 && |b| >= 2 && IsContinuation(b[1]) then 2
    else if |b| >= 3 && IsContinuation(b[1]) && IsContinuation(b[2])
      && (|| (b[0] == 0xE0 && b[1] >= 0xA0)
          || (0xE1 <= b[0] < 0xF0 && b[0] != 0xED)
          || (b[0] == 0xED && b[1] < 0xA0)) then 3
    else if |b| >= 4 && IsContinuation(b[1]) && IsContinuation(b[2]) && IsContinuation(b[3])
      && ((b[0] == 0xF0 && b[1] >= 0x90) || 0xF1 <= b[0] < 0xF4 || (b[0] == 0xF4 && b[1] < 0x90)) then 4
    else 0
  }

  /** `str::from_utf8(b).is_ok()`. */
  predicate IsUtf8(b: Text) {
    b == [] || (FirstCharLength(b) > 0 && IsUtf8(b[FirstCharLength(b)..]))
  }
}
