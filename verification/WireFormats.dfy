/** Where everything stands in an encoded packet, byte by byte. Reading back what was written does not
    fix a format; these lemmas do. */
module WireFormats {
  import opened Options
  import opened Text
  import opened CcpTypes
  import opened Oer
  import opened Codec
  import opened CcpPackets
  import opened BtpPackets
  import opened IlpPackets
  import opened IlpReplies

  // ---------------------------------------------------------------- integers

  /** The byte of `v` that counts in units of 256^k. */
  function Digit(v: nat, k: nat): nat {
    v / Pow256(k) % 256
  }

  /** The `n` bytes from `at` on are the number `v`, most significant byte first. */
  predicate BigEndianAt(b: Bytes, at: nat, n: nat, v: nat) {
    at + n <= |b| && forall i :: at <= i < at + n ==> b[i] == Digit(v, at + n - 1 - i)
  }

  lemma SplitQuotient(a: nat, b: nat)
    requires b > 0
    ensures a == b * (a / b) + a % b
  {
  }

  lemma TimesMono(a: nat, b: nat, d: nat)
    requires a <= b
    ensures d * a <= d * b
  {
  }

  lemma QuotientOf(v: nat, d: nat, q: nat, r: nat)
    requires d > 0 && r < d && v == d * q + r
    ensures v / d == q
  {
    var q', r' := v / d, v % d;
    SplitQuotient(v, d);
    if q' < q {
      TimesMono(q' + 1, q, d);
    } else if q < q' {
      TimesMono(q + 1, q', d);
    }
  }

  lemma Assemble(v: nat, q: nat, p: nat, r1: nat, r2: nat)
    requires p > 0 && r1 < 256 && r2 < p && v == 256 * (p * q + r2) + r1
    ensures v / (256 * p) == q
  {
    assert 256 * (p * q) == (256 * p) * q;
    QuotientOf(v, 256 * p, q, 256 * r2 + r1);
  }

  lemma DigitBelow(v: nat, k: nat)
    ensures Digit(v / 256, k) == Digit(v, k + 1)
  {
    var p := Pow256(k);
    SplitQuotient(v / 256, p);
    SplitQuotient(v, 256);
    Assemble(v, v / 256 / p, p, v % 256, v / 256 % p);
  }

  /** Integers are written most significant byte first. */
  lemma {:induction false} UintIsBigEndian(v: nat, n: nat)
    ensures BigEndianAt(PutUint(v, n), 0, n, v)
  {
    if n > 0 {
      UintIsBigEndian(v / 256, n - 1);
      var b := PutUint(v, n);
      forall i | 0 <= i < n ensures b[i] == Digit(v, n - 1 - i) {
        if i < n - 1 {
          assert b[i] == PutUint(v / 256, n - 1)[i];
          DigitBelow(v, n - 2 - i);
        }
      }
    }
  }

  lemma BigEndianInside(b: Bytes, at: nat, n: nat, v: nat)
    requires at + n <= |b| && b[at..at + n] == PutUint(v, n)
    ensures BigEndianAt(b, at, n, v)
  {
    UintIsBigEndian(v, n);
    forall i | at <= i < at + n ensures b[i] == Digit(v, at + n - 1 - i) {
      assert b[i] == b[at..at + n][i - at];
    }
  }

  // ---------------------------------------------------------------- lengths

  /** A length below 128 is one byte; a longer one is 128 plus the number of its bytes, and then the bytes,
      no more than needed. */
  lemma LengthLayout(n: nat)
    requires n <= U64_MAX
    ensures n < 128 ==> PutLength(n) == [n]
    ensures n >= 128 ==>
              var k := |PutLength(n)| - 1;
              && 1 <= k <= 8 && PutLength(n)[0] == 128 + k && BigEndianAt(PutLength(n), 1, k, n)
              && n < Pow256(k) && (k > 1 ==> n >= Pow256(k - 1))
  {
    if n >= 128 {
      UintSizeOfU64(n);
      UintSizeIsLeast(n);
      var k := UintSize(n);
      assert PutLength(n)[1..1 + k] == PutUint(n, k);
      BigEndianInside(PutLength(n), 1, k, n);
    }
  }

  /** A variable-length integer is the number of its bytes, and then the bytes, no more than needed. */
  lemma VarUintLayout(v: nat)
    requires v <= U64_MAX
    ensures var k := |PutVarUint(v)| - 1;
            && 1 <= k <= 8 && PutVarUint(v)[0] == k && BigEndianAt(PutVarUint(v), 1, k, v)
            && v < Pow256(k) && (k > 1 ==> v >= Pow256(k - 1))
  {
    UintSizeOfU64(v);
    UintSizeIsLeast(v);
    var k := UintSize(v);
    assert PutLength(k) == [k];
    assert PutVarUint(v)[1..1 + k] == PutUint(v, k);
    BigEndianInside(PutVarUint(v), 1, k, v);
  }

  /** An octet string is its length and then its bytes. */
  lemma OctetsLayout(s: Bytes)
    requires |s| <= U64_MAX
    ensures PutOctets(s)[..|PutLength(|s|)|] == PutLength(|s|) && PutOctets(s)[|PutLength(|s|)|..] == s
  {
  }

  /** The bytes from `at` on are the given ones, and end there. */
  predicate EndsWith(b: Bytes, at: nat, s: Bytes) {
    at + |s| == |b| && b[at..] == s
  }

  predicate HasAt(b: Bytes, at: nat, s: Bytes) {
    at + |s| <= |b| && b[at..at + |s|] == s
  }

  lemma CountedLayout<T>(xs: seq<T>, encode: T --> Bytes)
    requires |xs| <= U64_MAX && forall x :: x in xs ==> encode.requires(x)
    ensures HasAt(EncodeCounted(xs, encode), 0, PutVarUint(|xs|))
  {
  }

  // ---------------------------------------------------------------- ILP packets

  /** The content of a Prepare from its offset on. */
  lemma PrepareContentLayout(b: Bytes, at: nat, amount: nat, expiry: Bytes, condition: Bytes, tail: Bytes)
    requires |expiry| == 17 && |condition| == 32
    requires at <= |b| && b[at..] == PutUint(amount, 8) + (expiry + (condition + tail))
    ensures |b| == at + 57 + |tail| && BigEndianAt(b, at, 8, amount) && HasAt(b, at + 8, expiry)
    ensures HasAt(b, at + 25, condition) && EndsWith(b, at + 57, tail)
  {
    ContentSlices(PutUint(amount, 8), expiry, condition, tail);
    var c := b[at..];
    assert b[at..at + 8] == c[..8] && b[at + 8..at + 25] == c[8..25] && b[at + 25..at + 57] == c[25..57];
    assert b[at + 57..] == c[57..];
    BigEndianInside(b, at, 8, amount);
  }

  /** A Prepare: type 12, the length of the rest, amount (8 bytes), expiry (17), condition (32),
      destination, data. */
  lemma PrepareLayout(clock: Clock, v: PrepareView)
    requires IsPrepare(v) && |clock.format(v.expiresAt)| == 17
    ensures var b := BuildPrepare(clock, v).buffer;
            var at := BuildPrepare(clock, v).contentOffset;
            && |b| == at + PrepareContentLength(v) && b[0] == 12
            && at == 1 + |PutLength(PrepareContentLength(v))| && HasAt(b, 1, PutLength(PrepareContentLength(v)))
            && BigEndianAt(b, at, 8, v.amount) && HasAt(b, at + 8, clock.format(v.expiresAt))
            && HasAt(b, at + 25, v.condition) && EndsWith(b, at + 57, PutOctets(v.destination) + PutOctets(v.data))
  {
    var b, at := BuildPrepare(clock, v).buffer, BuildPrepare(clock, v).contentOffset;
    EnvelopeBytes(12, b, PrepareContentLength(v), BuildContent(clock, v));
    PrepareContentLayout(b, at, v.amount, clock.format(v.expiresAt), v.condition, BuildTail(v));
    TailLength(v);
  }

  lemma EnvelopeBytes(kind: Byte, b: Bytes, n: nat, c: Bytes)
    requires n <= U64_MAX && b == [kind] + (PutLength(n) + c)
    ensures b[0] == kind && HasAt(b, 1, PutLength(n))
    ensures |b| == 1 + |PutLength(n)| + |c| && b[1 + |PutLength(n)|..] == c
  {
    assert b[1..1 + |PutLength(n)|] == PutLength(n);
  }

  lemma PartsFrom(b: Bytes, at: nat, first: Bytes, second: Bytes)
    requires at <= |b| && b[at..] == first + second
    ensures HasAt(b, at, first) && EndsWith(b, at + |first|, second)
  {
    assert b[at..at + |first|] == b[at..][..|first|] && b[at + |first|..] == b[at..][|first|..];
  }

  /** A Fulfill: type 13, the length of the rest, fulfillment (32), data. */
  lemma FulfillLayout(v: FulfillView)
    requires IsFulfill(v)
    ensures var b := BuildFulfill(v).buffer;
            var at := BuildFulfill(v).contentOffset;
            && |b| > at && b[0] == 13 && at == 1 + |PutLength(|b| - at)| && HasAt(b, 1, PutLength(|b| - at))
            && HasAt(b, at, v.fulfillment) && |v.fulfillment| == 32 && EndsWith(b, at + 32, PutOctets(v.data))
  {
    var b, at := BuildFulfill(v).buffer, BuildFulfill(v).contentOffset;
    OctetsSizeIsExact(v.data);
    EnvelopeBytes(13, b, FULFILLMENT_LEN + OctetsSize(|v.data|), v.fulfillment + PutOctets(v.data));
    PartsFrom(b, at, v.fulfillment, PutOctets(v.data));
  }

  /** A Reject: type 14, the length of the rest, code (3), who triggered it, message, data. Without an
      address who triggered it is an empty octet string. */
  lemma RejectLayout(v: RejectView)
    requires IsReject(v)
    ensures var b := BuildReject(v).buffer;
            var at := 1 + |PutLength(RejectContentLength(v))|;
            var triggeredBy := if v.triggeredBy.Some? then v.triggeredBy.value else [];
            && |b| == at + RejectContentLength(v) && b[0] == 14 && HasAt(b, 1, PutLength(|b| - at))
            && HasAt(b, at, v.code) && |v.code| == 3
            && EndsWith(b, at + 3, PutOctets(triggeredBy) + (PutOctets(v.message) + PutOctets(v.data)))
  {
    var b, at := BuildReject(v).buffer, 1 + |PutLength(RejectContentLength(v))|;
    RejectTailLength(v);
    EnvelopeBytes(14, b, RejectContentLength(v), v.code + BuildRejectTail(v));
    PartsFrom(b, at, v.code, BuildRejectTail(v));
  }

  // ---------------------------------------------------------------- BTP frames

  /** A frame: its type, the request id (4 bytes), and an octet string with the entries. */
  lemma FrameLayout(kind: Byte, f: Frame)
    requires IsFrame(f)
    ensures var b := EncodeFrame(kind, f);
            && |b| > 5 && b[0] == kind && BigEndianAt(b, 1, 4, f.requestId)
            && EndsWith(b, 5, PutOctets(EncodeEntries(f.protocolData)))
  {
    FrameBytes(kind, f.requestId, PutOctets(EncodeEntries(f.protocolData)));
  }

  lemma FrameBytes(kind: Byte, id: nat, contents: Bytes)
    ensures var b := [kind] + (PutUint(id, 4) + contents);
            && |b| == 5 + |contents| && b[0] == kind && BigEndianAt(b, 1, 4, id) && EndsWith(b, 5, contents)
  {
    var b := [kind] + (PutUint(id, 4) + contents);
    assert b[1..5] == PutUint(id, 4) && b[5..] == contents;
    BigEndianInside(b, 1, 4, id);
  }

  /** The list of entries starts with its count. */
  lemma EntryCounts(es: seq<ProtocolData>)
    requires AreEntries(es)
    ensures HasAt(EncodeEntries(es), 0, PutVarUint(|es|))
  {
    CountedLayout(es, EntryEncoder());
  }

  /** An entry: its name, one byte for the content type (0 octets, 1 text, otherwise as it was), its data. */
  lemma EntryLayout(e: ProtocolData)
    requires IsEntry(e)
    ensures var b, at := EncodeEntry(e), |PutOctets(e.name)|;
            && HasAt(b, 0, PutOctets(e.name)) && at < |b|
            && (e.contentType == ApplicationOctetStream ==> b[at] == 0)
            && (e.contentType == TextPlainUtf8 ==> b[at] == 1)
            && (e.contentType.Unknown? ==> b[at] == e.contentType.code)
            && EndsWith(b, at + 1, PutOctets(e.data))
  {
  }

  // ---------------------------------------------------------------- CCP requests

  /** A prop: a byte of flags (optional 128, transitive 64, partial 32, UTF-8 16), the id (2 bytes), the
      value. */
  lemma PropLayout(p: RouteProp)
    requires IsProp(p)
    ensures var b := EncodeProp(p);
            && |b| > 3
            && b[0] == (if p.isOptional then 128 else 0) + (if p.isTransitive then 64 else 0)
                       + (if p.isPartial then 32 else 0) + (if p.isUtf8 then 16 else 0)
            && b[1] == p.id / 256 && b[2] == p.id % 256 && EndsWith(b, 3, PutOctets(p.value))
  {
    var b := EncodeProp(p);
    assert b[1..3] == PutUint(p.id, 2);
    UintIsBigEndian(p.id, 2);
    assert Pow256(1) == 256;
    assert b[1] == b[1..3][0] && b[2] == b[1..3][1];
  }

  lemma FourParts(a: Bytes, b: Bytes, c: Bytes, d: Bytes)
    ensures var all := a + (b + (c + d));
            && HasAt(all, 0, a) && HasAt(all, |a|, b) && HasAt(all, |a| + |b|, c)
            && EndsWith(all, |a| + |b| + |c|, d)
  {
  }

  /** A route: its prefix, the counted path, the auth (32 bytes), the counted props. */
  lemma RouteLayout(r: Route)
    requires IsRoute(r)
    ensures var b := EncodeRoute(r);
            var at1 := |PutOctets(r.prefix)|;
            var at2 := at1 + |EncodeTexts(r.path)|;
            && HasAt(b, 0, PutOctets(r.prefix)) && HasAt(b, at1, EncodeTexts(r.path))
            && HasAt(b, at2, r.auth) && |r.auth| == 32 && EndsWith(b, at2 + 32, EncodeProps(r.props))
  {
    FourParts(PutOctets(r.prefix), EncodeTexts(r.path), r.auth, EncodeProps(r.props));
  }

  /** Every list of a route starts with its count. */
  lemma RouteCounts(r: Route)
    requires IsRoute(r)
    ensures HasAt(EncodeTexts(r.path), 0, PutVarUint(|r.path|))
    ensures HasAt(EncodeProps(r.props), 0, PutVarUint(|r.props|))
  {
    CountedLayout(r.path, TextEncoder());
    CountedLayout(r.props, PropEncoder());
  }

  /** A control request: mode (0 idle, 1 sync), table id (16), epoch (4), the counted features. */
  lemma ControlLayout(c: ControlRequest)
    requires IsControl(c)
    ensures var b := EncodeControl(c);
            && |b| > 21 && b[0] == (if c.mode == Idle then 0 else 1) && HasAt(b, 1, c.lastKnownTableId)
            && |c.lastKnownTableId| == 16 && BigEndianAt(b, 17, 4, c.lastKnownEpoch)
            && EndsWith(b, 21, EncodeTexts(c.features))
  {
    var b := EncodeControl(c);
    assert b[1..17] == c.lastKnownTableId && b[17..21] == PutUint(c.lastKnownEpoch, 4);
    assert b[21..] == EncodeTexts(c.features);
    BigEndianInside(b, 17, 4, c.lastKnownEpoch);
  }

  /** Its features start with their count. */
  lemma ControlCounts(c: ControlRequest)
    requires IsControl(c)
    ensures HasAt(EncodeTexts(c.features), 0, PutVarUint(|c.features|))
  {
    CountedLayout(c.features, TextEncoder());
  }

  /** An update: table id (16), current epoch, first epoch, last epoch and hold-down time (4 each), the
      speaker, the counted new routes, the counted withdrawn prefixes. */
  lemma UpdateLayout(u: UpdateRequest)
    requires IsUpdate(u)
    ensures var b := EncodeUpdate(u);
            && |b| > 32 && HasAt(b, 0, u.tableId) && |u.tableId| == 16
            && BigEndianAt(b, 16, 4, u.currentEpoch) && BigEndianAt(b, 20, 4, u.fromEpoch)
            && BigEndianAt(b, 24, 4, u.toEpoch) && BigEndianAt(b, 28, 4, u.holdDownTime)
            && EndsWith(b, 32, PutOctets(u.speaker) + (EncodeRoutes(u.newRoutes) + EncodeTexts(u.withdrawn)))
  {
    HeaderLayout(HeaderOf(u), EncodeUpdateBody(u));
    assert |PutOctets(u.speaker)| > 0;
  }

  lemma HeaderLayout(h: Header, body: Bytes)
    requires IsHeader(h)
    ensures var b := EncodeHeader(h, body);
            && HasAt(b, 0, h.tableId) && EndsWith(b, 32, body)
            && BigEndianAt(b, 16, 4, h.currentEpoch) && BigEndianAt(b, 20, 4, h.fromEpoch)
            && BigEndianAt(b, 24, 4, h.toEpoch) && BigEndianAt(b, 28, 4, h.holdDownTime)
  {
    var b := EncodeHeader(h, body);
    HeaderSlices(b, h.tableId, PutUint(h.currentEpoch, 4), PutUint(h.fromEpoch, 4), PutUint(h.toEpoch, 4),
                 PutUint(h.holdDownTime, 4), body);
    BigEndianInside(b, 16, 4, h.currentEpoch);
    BigEndianInside(b, 20, 4, h.fromEpoch);
    BigEndianInside(b, 24, 4, h.toEpoch);
    BigEndianInside(b, 28, 4, h.holdDownTime);
  }

  lemma HeaderSlices(b: Bytes, id: Bytes, e1: Bytes, e2: Bytes, e3: Bytes, time: Bytes, body: Bytes)
    requires |id| == 16 && |e1| == |e2| == |e3| == |time| == 4
    requires b == id + (e1 + (e2 + (e3 + (time + body))))
    ensures |b| == 32 + |body| && b[..16] == id && b[32..] == body
    ensures b[16..20] == e1 && b[20..24] == e2 && b[24..28] == e3 && b[28..32] == time
  {
    assert b[16..] == e1 + (e2 + (e3 + (time + body)));
    assert b[24..] == e3 + (time + body);
  }

  /** Both lists of an update start with their counts. */
  lemma UpdateCounts(u: UpdateRequest)
    requires IsUpdate(u)
    ensures HasAt(EncodeRoutes(u.newRoutes), 0, PutVarUint(|u.newRoutes|))
    ensures HasAt(EncodeTexts(u.withdrawn), 0, PutVarUint(|u.withdrawn|))
  {
    CountedLayout(u.newRoutes, RouteEncoder());
    CountedLayout(u.withdrawn, TextEncoder());
  }
}
