/** ILPv4 Fulfill and Reject packets: parsing, building and the offsets both record. */
module IlpReplies {
  import opened Options
  import opened Text
  import opened Oer
  import opened Codec
  import opened IlpPackets

  // ---------------------------------------------------------------- Fulfill

  datatype Fulfill = Fulfill(buffer: Bytes, contentOffset: nat)

  datatype FulfillView = FulfillView(fulfillment: Bytes, data: Bytes)

  function ParseFulfillContent(strict: bool, c: Bytes): Result<(), DecodeError> {
    if |c| < FULFILLMENT_LEN then Err(Oer(UnexpectedEof))
    else
      var (_, rest) :- Lift(ReadOctets(strict, c[FULFILLMENT_LEN..]));
      if strict && rest != [] then Err(TrailingBytes) else Ok(())
  }

  function ParseFulfill(strict: bool, b: Bytes): Result<Fulfill, DecodeError> {
    var (offset, content) :- Envelope(strict, FULFILL, b);
    var _ :- ParseFulfillContent(strict, content);
    Ok(Fulfill(b, offset))
  }

  predicate FulfillReadable(strict: bool, p: Fulfill) {
    && p.contentOffset + FULFILLMENT_LEN <= |p.buffer|
    && ReadOctets(strict, p.buffer[p.contentOffset + FULFILLMENT_LEN..]).Ok?
  }

  function FulfillViewOf(strict: bool, p: Fulfill): FulfillView
    requires FulfillReadable(strict, p)
  {
    FulfillView(p.buffer[p.contentOffset..p.contentOffset + FULFILLMENT_LEN],
                ReadOctets(strict, p.buffer[p.contentOffset + FULFILLMENT_LEN..]).value.0)
  }

  predicate IsFulfill(v: FulfillView) {
    |v.fulfillment| == FULFILLMENT_LEN && FULFILLMENT_LEN + OctetsSize(|v.data|) <= U64_MAX
  }

  function BuildFulfill(v: FulfillView): Fulfill
    requires IsFulfill(v)
  {
    var length := FULFILLMENT_LEN + OctetsSize(|v.data|);
    Fulfill([FULFILL] + (PutLength(length) + (v.fulfillment + PutOctets(v.data))), 1 + |PutLength(length)|)
  }

  lemma ParseBuiltFulfillContent(strict: bool, v: FulfillView)
    requires IsFulfill(v)
    ensures ParseFulfillContent(strict, v.fulfillment + PutOctets(v.data)).Ok?
  {
    var c := v.fulfillment + PutOctets(v.data);
    assert c[FULFILLMENT_LEN..] == PutOctets(v.data);
    OctetsRoundTrip(strict, v.data, []);
    assert PutOctets(v.data) + [] == PutOctets(v.data);
  }

  /** A built Fulfill reparses to itself, offset included, and says what it was built from. */
  lemma FulfillRoundTrip(strict: bool, v: FulfillView)
    requires IsFulfill(v)
    ensures ParseFulfill(strict, BuildFulfill(v).buffer) == Ok(BuildFulfill(v))
    ensures FulfillReadable(strict, BuildFulfill(v)) && FulfillViewOf(strict, BuildFulfill(v)) == v
  {
    var p, c := BuildFulfill(v), v.fulfillment + PutOctets(v.data);
    OctetsSizeIsExact(v.data);
    EnvelopeOfWrap(strict, FULFILL, c);
    ParseBuiltFulfillContent(strict, v);
    var k := p.contentOffset;
    assert p.buffer[k..k + FULFILLMENT_LEN] == v.fulfillment;
    assert p.buffer[k + FULFILLMENT_LEN..] == PutOctets(v.data) + [];
    OctetsRoundTrip(strict, v.data, []);
  }

  lemma FulfillContentIsCanonical(c: Bytes)
    requires ParseFulfillContent(true, c).Ok? && |c| <= U64_MAX
    ensures ReadOctets(true, c[FULFILLMENT_LEN..]).Ok?
    ensures var v := FulfillView(c[..FULFILLMENT_LEN], ReadOctets(true, c[FULFILLMENT_LEN..]).value.0);
            && IsFulfill(v) && |c| == FULFILLMENT_LEN + OctetsSize(|v.data|) && c == v.fulfillment + PutOctets(v.data)
  {
    var (data, rest) := ReadOctets(true, c[FULFILLMENT_LEN..]).value;
    ReadOctetsBounds(true, c[FULFILLMENT_LEN..]);
    OctetsAreCanonical(c[FULFILLMENT_LEN..], data, rest);
    assert PutOctets(data) + [] == PutOctets(data);
    OctetsSizeIsExact(data);
    assert c == c[..FULFILLMENT_LEN] + c[FULFILLMENT_LEN..];
  }

  lemma FulfillFromContent(strict: bool, p: Fulfill, content: Bytes)
    requires Holds(p.buffer, p.contentOffset, content) && FULFILLMENT_LEN <= |content|
    requires ReadOctets(strict, content[FULFILLMENT_LEN..]).Ok?
    ensures FulfillReadable(strict, p)
    ensures FulfillViewOf(strict, p)
         == FulfillView(content[..FULFILLMENT_LEN], ReadOctets(strict, content[FULFILLMENT_LEN..]).value.0)
  {
    var more := p.buffer[p.contentOffset + |content|..];
    assert p.buffer[p.contentOffset + FULFILLMENT_LEN..] == content[FULFILLMENT_LEN..] + more;
    ReadOctetsIsLocal(strict, content[FULFILLMENT_LEN..], more);
    SliceOfSlice(p.buffer, p.contentOffset, content, 0, FULFILLMENT_LEN);
  }

  /** A strictly parsed Fulfill is the one built from what it says. */
  lemma AcceptedFulfillReencodes(b: Bytes)
    requires ParseFulfill(true, b).Ok?
    ensures var p := ParseFulfill(true, b).value;
            && FulfillReadable(true, p) && IsFulfill(FulfillViewOf(true, p))
            && BuildFulfill(FulfillViewOf(true, p)) == p && p.buffer == b
  {
    var p := ParseFulfill(true, b).value;
    var content := Envelope(true, FULFILL, b).value.1;
    EnvelopeHoldsContent(true, FULFILL, b);
    EnvelopeIsCanonical(FULFILL, b);
    EnvelopeOfWrap(true, FULFILL, content);
    FulfillContentIsCanonical(content);
    FulfillFromContent(true, p, content);
  }

  // ---------------------------------------------------------------- Reject

  datatype Reject = Reject(buffer: Bytes, code: Bytes, triggeredByOffset: nat, messageOffset: nat, dataOffset: nat)

  datatype RejectView = RejectView(code: Bytes, triggeredBy: Option<Text>, message: Bytes, data: Bytes)

  /** `ErrorCode::new` */
  predicate IsErrorCode(code: Bytes) {
    |code| == ERROR_CODE_LEN && forall i :: 0 <= i < |code| ==> code[i] < 128
  }

  function Octets(strict: bool): Bytes -> Read<Bytes> {
    (b: Bytes) => ReadOctets(strict, b)
  }

  /** What follows the code: how much is left after the address and after the message. */
  function ParseRejectTail(strict: bool, read: Bytes -> Read<Bytes>, c: Bytes): Result<(nat, nat), DecodeError> {
    var (a, c1) :- Lift(read(c));
    if !IsAddress(a) then Err(AddressInvalid)
    else
      var (_, c2) :- Lift(read(c1));
      var (_, c3) :- Lift(read(c2));
      if strict && c3 != [] then Err(TrailingBytes) else Ok((|c1|, |c2|))
  }

  function ParseRejectContent(strict: bool, read: Bytes -> Read<Bytes>, c: Bytes): Result<(nat, nat), DecodeError> {
    if |c| < MIN_REJECT_LEN then Err(Oer(UnexpectedEof))
    else if !IsErrorCode(c[..3]) then Err(ErrorCodeConversion)
    else ParseRejectTail(strict, read, c[3..])
  }

  predicate Within(c: Bytes, r: Result<(nat, nat), DecodeError>) {
    r.Ok? ==> |c| >= 3 && r.value.0 <= |c| && r.value.1 <= |c|
  }

  lemma RejectTailShrinks(strict: bool, c: Bytes)
    ensures Within(c, ParseRejectContent(strict, Octets(strict), c))
  {
    if ParseRejectContent(strict, Octets(strict), c).Ok? {
      ReadOctetsBounds(strict, c[3..]);
      ReadOctetsBounds(strict, ReadOctets(strict, c[3..]).value.1);
    }
  }

  /** The packet with its offsets, from what is left after the address and after the message. */
  function PlaceReject(b: Bytes, offset: nat, c: Bytes, r: Result<(nat, nat), DecodeError>): Result<Reject, DecodeError>
    requires Within(c, r)
  {
    var (afterAddress, afterMessage) :- r;
    Ok(Reject(b, c[..3], offset + 3, offset + |c| - afterAddress, offset + |c| - afterMessage))
  }

  function ParseReject(strict: bool, b: Bytes): Result<Reject, DecodeError> {
    var (offset, content) :- Envelope(strict, REJECT, b);
    RejectTailShrinks(strict, content);
    PlaceReject(b, offset, content, ParseRejectContent(strict, Octets(strict), content))
  }

  predicate RejectReadable(read: Bytes -> Read<Bytes>, p: Reject) {
    && p.triggeredByOffset <= |p.buffer| && p.messageOffset <= |p.buffer| && p.dataOffset <= |p.buffer|
    && read(p.buffer[p.messageOffset..]).Ok?
    && read(p.buffer[p.dataOffset..]).Ok?
  }

  /** `triggered_by`: `None` for bytes that are not an address. */
  function TriggeredBy(read: Bytes -> Read<Bytes>, b: Bytes): Option<Text> {
    match read(b)
    case Err(_) => None
    case Ok((a, _)) => if IsAddress(a) then Some(a) else None
  }

  function RejectViewOf(read: Bytes -> Read<Bytes>, p: Reject): RejectView
    requires RejectReadable(read, p)
  {
    RejectView(p.code, TriggeredBy(read, p.buffer[p.triggeredByOffset..]),
               read(p.buffer[p.messageOffset..]).value.0, read(p.buffer[p.dataOffset..]).value.0)
  }

  function TriggeredByBytes(v: RejectView): Bytes {
    if v.triggeredBy.Some? then v.triggeredBy.value else []
  }

  function RejectContentLength(v: RejectView): nat {
    ERROR_CODE_LEN + OctetsSize(|TriggeredByBytes(v)|) + OctetsSize(|v.message|) + OctetsSize(|v.data|)
  }

  predicate IsReject(v: RejectView) {
    && IsErrorCode(v.code) && (v.triggeredBy.Some? ==> IsAddress(v.triggeredBy.value))
    && RejectContentLength(v) <= U64_MAX
  }

  function BuildRejectTail(v: RejectView): Bytes
    requires IsReject(v)
  {
    PutOctets(TriggeredByBytes(v)) + (PutOctets(v.message) + PutOctets(v.data))
  }

  function BuildReject(v: RejectView): Reject
    requires IsReject(v)
  {
    var length := RejectContentLength(v);
    var size := 1 + OctetsSize(length);
    var afterMessage := size - OctetsSize(|v.data|);
    var afterTriggeredBy := afterMessage - OctetsSize(|v.message|);
    Reject([REJECT] + (PutLength(length) + (v.code + BuildRejectTail(v))), v.code,
           afterTriggeredBy - OctetsSize(|TriggeredByBytes(v)|), afterTriggeredBy, afterMessage)
  }

  // ---------------------------------------------------------------- a built Reject

  /** What is written as an octet string is read back. */
  ghost predicate ReadsOctetsBack(read: Bytes -> Read<Bytes>) {
    forall d, rest {:trigger read(PutOctets(d) + rest)} :: |d| <= U64_MAX ==> read(PutOctets(d) + rest) == Ok((d, rest))
  }

  lemma BothModesReadOctetsBack(strict: bool)
    ensures ReadsOctetsBack(Octets(strict))
  {
    forall d, rest | |d| <= U64_MAX ensures Octets(strict)(PutOctets(d) + rest) == Ok((d, rest)) {
      OctetsRoundTrip(strict, d, rest);
    }
  }

  lemma EmptyIsNoAddress()
    ensures !IsAddress([])
  {
    if IsAddress([]) {
      AddressIsAtLeastThreeBytes([]);
    }
  }

  lemma RejectTailSteps(strict: bool, read: Bytes -> Read<Bytes>, a: Bytes, m: Bytes, d: Bytes)
    requires ReadsOctetsBack(read) && |a| <= U64_MAX && |m| <= U64_MAX && |d| <= U64_MAX
    ensures ParseRejectTail(strict, read, PutOctets(a) + (PutOctets(m) + PutOctets(d))) ==
            if IsAddress(a) then Ok((|PutOctets(m) + PutOctets(d)|, |PutOctets(d)|)) else Err(AddressInvalid)
  {
    assert PutOctets(d) == PutOctets(d) + [];
    assert read(PutOctets(d) + []) == Ok((d, []));
  }

  lemma ParseBuiltRejectContent(strict: bool, read: Bytes -> Read<Bytes>, v: RejectView)
    requires ReadsOctetsBack(read) && IsReject(v)
    ensures ParseRejectContent(strict, read, v.code + BuildRejectTail(v)) ==
            if v.triggeredBy.Some? then Ok((|PutOctets(v.message) + PutOctets(v.data)|, |PutOctets(v.data)|))
            else Err(AddressInvalid)
  {
    var c := v.code + BuildRejectTail(v);
    RejectTailLength(v);
    assert c[..3] == v.code && c[3..] == BuildRejectTail(v);
    EmptyIsNoAddress();
    RejectTailSteps(strict, read, TriggeredByBytes(v), v.message, v.data);
  }

  lemma RejectTailLength(v: RejectView)
    requires IsReject(v)
    ensures |PutOctets(TriggeredByBytes(v))| == OctetsSize(|TriggeredByBytes(v)|)
    ensures |PutOctets(v.message)| == OctetsSize(|v.message|) && |PutOctets(v.data)| == OctetsSize(|v.data|)
    ensures |v.code + BuildRejectTail(v)| == RejectContentLength(v) >= MIN_REJECT_LEN
  {
    OctetsSizeIsExact(TriggeredByBytes(v));
    OctetsSizeIsExact(v.message);
    OctetsSizeIsExact(v.data);
  }

  lemma ThreeParts(head: Bytes, t: Bytes, m: Bytes, d: Bytes)
    ensures var b := head + (t + (m + d));
            && b[|head|..] == t + (m + d) && b[|head| + |t|..] == m + d
            && b[|head| + |t| + |m|..] == d + [] && |b| == |head| + |t| + |m| + |d|
  {
  }

  lemma BuiltRejectOffsets(v: RejectView)
    requires IsReject(v)
    ensures var p := BuildReject(v);
            var at := 1 + |PutLength(RejectContentLength(v))| + 3;
            && p.triggeredByOffset == at && p.messageOffset == at + |PutOctets(TriggeredByBytes(v))|
            && p.dataOffset == p.messageOffset + |PutOctets(v.message)| <= |p.buffer|
            && p.buffer[at..] == BuildRejectTail(v)
            && p.buffer[p.messageOffset..] == PutOctets(v.message) + PutOctets(v.data)
            && p.buffer[p.dataOffset..] == PutOctets(v.data) + []
  {
    RejectTailLength(v);
    var length := PutLength(RejectContentLength(v));
    var head := [REJECT] + length + v.code;
    Append2([REJECT] + length, v.code, BuildRejectTail(v));
    Append2([REJECT], length, v.code + BuildRejectTail(v));
    assert BuildReject(v).buffer == head + BuildRejectTail(v);
    ThreeParts(head, PutOctets(TriggeredByBytes(v)), PutOctets(v.message), PutOctets(v.data));
  }

  lemma BuiltRejectSays(read: Bytes -> Read<Bytes>, v: RejectView)
    requires ReadsOctetsBack(read) && IsReject(v)
    ensures RejectReadable(read, BuildReject(v)) && RejectViewOf(read, BuildReject(v)) == v
  {
    BuiltRejectOffsets(v);
    EmptyIsNoAddress();
  }

  /** A built Reject says what it was built from, with or without an address. */
  lemma BuiltRejectViewIsInput(strict: bool, v: RejectView)
    requires IsReject(v)
    ensures RejectReadable(Octets(strict), BuildReject(v)) && RejectViewOf(Octets(strict), BuildReject(v)) == v
  {
    BothModesReadOctetsBack(strict);
    BuiltRejectSays(Octets(strict), v);
  }

  lemma EnvelopeOfBuiltReject(strict: bool, v: RejectView)
    requires IsReject(v)
    ensures Envelope(strict, REJECT, BuildReject(v).buffer)
         == Ok((1 + |PutLength(RejectContentLength(v))|, v.code + BuildRejectTail(v)))
  {
    RejectTailLength(v);
    EnvelopeOfWrap(strict, REJECT, v.code + BuildRejectTail(v));
  }

  lemma PlacedReject(p: Reject, offset: nat, c: Bytes, r: Result<(nat, nat), DecodeError>)
    requires Within(c, r)
    requires r.Ok? ==>
               && p.code == c[..3] && p.triggeredByOffset == offset + 3
               && p.messageOffset == offset + |c| - r.value.0 && p.dataOffset == offset + |c| - r.value.1
    ensures PlaceReject(p.buffer, offset, c, r) == if r.Ok? then Ok(p) else Err(r.error)
  {
  }

  /** A built Reject reparses to itself, every offset included, exactly if it names who triggered it:
      without an address the packet cannot be read back. */
  lemma RejectReparses(strict: bool, v: RejectView)
    requires IsReject(v)
    ensures ParseReject(strict, BuildReject(v).buffer) ==
            if v.triggeredBy.Some? then Ok(BuildReject(v)) else Err(AddressInvalid)
  {
    var c := v.code + BuildRejectTail(v);
    BothModesReadOctetsBack(strict);
    ParseBuiltRejectContent(strict, Octets(strict), v);
    EnvelopeOfBuiltReject(strict, v);
    RejectTailLength(v);
    assert c[..3] == v.code;
    RejectTailShrinks(strict, c);
    PlacedReject(BuildReject(v), 1 + |PutLength(RejectContentLength(v))|, c,
                 ParseRejectContent(strict, Octets(strict), c));
  }

  // ---------------------------------------------------------------- strict Rejects re-encode

  /** What strict mode accepts after the code is an address, a message and data, and no more. */
  lemma RejectTailIsCanonical(c: Bytes) returns (triggeredBy: Text, message: Bytes, data: Bytes)
    requires ParseRejectTail(true, Octets(true), c).Ok?
    ensures IsAddress(triggeredBy) && |message| <= U64_MAX && |data| <= U64_MAX
    ensures c == PutOctets(triggeredBy) + (PutOctets(message) + PutOctets(data))
  {
    var (a, c1) := ReadOctets(true, c).value;
    var (m, c2) := ReadOctets(true, c1).value;
    var (d, c3) := ReadOctets(true, c2).value;
    triggeredBy, message, data := a, m, d;
    ReadOctetsBounds(true, c1);
    ReadOctetsBounds(true, c2);
    OctetsAreCanonical(c, triggeredBy, c1);
    OctetsAreCanonical(c1, message, c2);
    OctetsAreCanonical(c2, data, c3);
    assert PutOctets(data) + [] == PutOctets(data);
  }

  lemma RejectContentIsCanonical(c: Bytes) returns (v: RejectView)
    requires ParseRejectContent(true, Octets(true), c).Ok? && |c| <= U64_MAX
    ensures IsReject(v) && v.triggeredBy.Some? && c == v.code + BuildRejectTail(v)
  {
    var triggeredBy, message, data := RejectTailIsCanonical(c[3..]);
    v := RejectView(c[..3], Some(triggeredBy), message, data);
    OctetsSizeIsExact(triggeredBy);
    OctetsSizeIsExact(message);
    OctetsSizeIsExact(data);
    assert c == c[..3] + c[3..];
  }

  /** A strictly parsed Reject is the one built from what it says. */
  lemma AcceptedRejectReencodes(b: Bytes)
    requires ParseReject(true, b).Ok?
    ensures var p := ParseReject(true, b).value;
            && RejectReadable(Octets(true), p) && IsReject(RejectViewOf(Octets(true), p))
            && BuildReject(RejectViewOf(Octets(true), p)) == p && p.buffer == b
  {
    var p := ParseReject(true, b).value;
    var content := Envelope(true, REJECT, b).value.1;
    EnvelopeIsCanonical(REJECT, b);
    var v := RejectContentIsCanonical(content);
    RejectTailLength(v);
    assert BuildReject(v).buffer == b;
    RejectReparses(true, v);
    BuiltRejectViewIsInput(true, v);
  }
}
