/** The wire format of CCP requests: routes nested in updates, paths and props nested in routes. */
module CcpPackets {
  import opened Options
  import opened Text
  import opened Oer
  import opened Codec
  import opened CcpTypes

  // ---------------------------------------------------------------- props

  predicate IsProp(p: RouteProp) {
    p.id < 0x1_0000 && |p.value| <= U64_MAX
  }

  function Flag(set_: bool, bit: nat): nat {
    if set_ then bit else 0
  }

  /** optional 0x80, transitive 0x40, partial 0x20, utf8 0x10 */
  function Meta(p: RouteProp): Byte {
    Flag(p.isOptional, 0x80) + Flag(p.isTransitive, 0x40) + Flag(p.isPartial, 0x20) + Flag(p.isUtf8, 0x10)
  }

  predicate HasFlag(meta: Byte, bit: nat)
    requires bit > 0
  {
    meta / bit % 2 == 1
  }

  function EncodeProp(p: RouteProp): Bytes
    requires IsProp(p)
  {
    [Meta(p)] + PutUint(p.id, 2) + PutOctets(p.value)
  }

  function DecodeProp(strict: bool, b: Bytes): Parsed<RouteProp> {
    if |b| < 4 then Err(Oer(UnexpectedEof))
    else
      var meta := b[0];
      var (value, rest) :- Lift(ReadOctets(strict, b[3..]));
      Ok((RouteProp(HasFlag(meta, 0x80), HasFlag(meta, 0x40), HasFlag(meta, 0x20), GetUint(b[1..3]),
                    HasFlag(meta, 0x10), value), rest))
  }

  function PropDecoder(strict: bool): Bytes -> Parsed<RouteProp> {
    (b: Bytes) => DecodeProp(strict, b)
  }

  function PropEncoder(): RouteProp --> Bytes {
    (p: RouteProp) requires IsProp(p) => EncodeProp(p)
  }

  function IsPropPredicate(): RouteProp -> bool {
    (p: RouteProp) => IsProp(p)
  }

  lemma TwoBytes(v: nat)
    requires v < 0x1_0000
    ensures GetUint(PutUint(v, 2)) == v
  {
    assert Pow256(2) == 256 * Pow256(1) && Pow256(1) == 256;
    GetPutUint(v, 2);
  }

  lemma MetaRoundTrip(p: RouteProp)
    ensures HasFlag(Meta(p), 0x80) == p.isOptional && HasFlag(Meta(p), 0x40) == p.isTransitive
    ensures HasFlag(Meta(p), 0x20) == p.isPartial && HasFlag(Meta(p), 0x10) == p.isUtf8
  {
  }

  lemma PropRoundTrip(strict: bool, p: RouteProp, rest: Bytes)
    requires IsProp(p)
    ensures DecodeProp(strict, EncodeProp(p) + rest) == Ok((p, rest))
  {
    var b := EncodeProp(p) + rest;
    var tail := PutOctets(p.value) + rest;
    assert b[3..] == tail;
    assert b[1..3] == PutUint(p.id, 2);
    TwoBytes(p.id);
    MetaRoundTrip(p);
    OctetsRoundTrip(strict, p.value, rest);
  }

  lemma DecodedPropIsProp(strict: bool, b: Bytes)
    ensures DecodeProp(strict, b).Ok? ==> IsProp(DecodeProp(strict, b).value.0)
  {
    if |b| >= 4 {
      ReadOctetsBounds(strict, b[3..]);
      PutGetUint(b[1..3]);
      assert Pow256(2) == 256 * Pow256(1) && Pow256(1) == 256;
    }
  }

  // ---------------------------------------------------------------- routes

  const AUTH_LEN := 32

  predicate IsRoute(r: Route) {
    && IsText(r.prefix)
    && AreTexts(r.path)
    && |r.auth| == AUTH_LEN
    && |r.props| <= U64_MAX && forall p :: p in r.props ==> IsProp(p)
  }

  function EncodeProps(ps: seq<RouteProp>): Bytes
    requires |ps| <= U64_MAX && forall p :: p in ps ==> IsProp(p)
  {
    EncodeCounted(ps, PropEncoder())
  }

  function DecodeProps(strict: bool, b: Bytes): Parsed<seq<RouteProp>> {
    DecodeCounted(strict, b, PropDecoder(strict))
  }

  lemma PropsRoundTrip(strict: bool, ps: seq<RouteProp>, rest: Bytes)
    requires |ps| <= U64_MAX && forall p :: p in ps ==> IsProp(p)
    ensures DecodeProps(strict, EncodeProps(ps) + rest) == Ok((ps, rest))
  {
    forall p, r | p in ps ensures PropDecoder(strict)(PropEncoder()(p) + r) == Ok((p, r)) {
      PropRoundTrip(strict, p, r);
    }
    CountedRoundTrip(strict, ps, PropEncoder(), PropDecoder(strict), rest);
  }

  lemma DecodedPropsAreProps(strict: bool, b: Bytes)
    ensures DecodeProps(strict, b).Ok? ==>
              var ps := DecodeProps(strict, b).value.0;
              |ps| <= U64_MAX && forall p :: p in ps ==> IsProp(p)
  {
    if DecodeProps(strict, b).Ok? {
      forall c ensures PropDecoder(strict)(c).Ok? ==> IsPropPredicate()(PropDecoder(strict)(c).value.0) {
        DecodedPropIsProp(strict, c);
      }
      CountedAreGood(strict, b, PropDecoder(strict), IsPropPredicate());
      forall p | p in DecodeProps(strict, b).value.0 ensures IsProp(p) {
        assert IsPropPredicate()(p);
      }
    }
  }

  function EncodeRoute(r: Route): Bytes
    requires IsRoute(r)
  {
    PutOctets(r.prefix) + (EncodeTexts(r.path) + (r.auth + EncodeProps(r.props)))
  }

  function DecodeRoute(strict: bool, b: Bytes): Parsed<Route> {
    var (prefix, b1) :- DecodeText(strict, b);
    var (path, b2) :- DecodeTexts(strict, b1);
    var (auth, b3) :- Fixed(AUTH_LEN, b2);
    var (props, b4) :- DecodeProps(strict, b3);
    Ok((Route(prefix, path, auth, props), b4))
  }

  function RouteDecoder(strict: bool): Bytes -> Parsed<Route> {
    (b: Bytes) => DecodeRoute(strict, b)
  }

  function RouteEncoder(): Route --> Bytes {
    (r: Route) requires IsRoute(r) => EncodeRoute(r)
  }

  function IsRoutePredicate(): Route -> bool {
    (r: Route) => IsRoute(r)
  }

  lemma DecodeRouteSteps(strict: bool, b: Bytes, r: Route, b1: Bytes, b2: Bytes, b3: Bytes, b4: Bytes)
    requires DecodeText(strict, b) == Ok((r.prefix, b1))
    requires DecodeTexts(strict, b1) == Ok((r.path, b2))
    requires Fixed(AUTH_LEN, b2) == Ok((r.auth, b3))
    requires DecodeProps(strict, b3) == Ok((r.props, b4))
    ensures DecodeRoute(strict, b) == Ok((r, b4))
  {
  }

  lemma RouteRoundTrip(strict: bool, r: Route, rest: Bytes)
    requires IsRoute(r)
    ensures DecodeRoute(strict, EncodeRoute(r) + rest) == Ok((r, rest))
  {
    var b3 := EncodeProps(r.props) + rest;
    var b2 := r.auth + b3;
    var b1 := EncodeTexts(r.path) + b2;
    Append4(PutOctets(r.prefix), EncodeTexts(r.path), r.auth, EncodeProps(r.props), rest);
    TextRoundTrip(strict, r.prefix, b1);
    TextsRoundTrip(strict, r.path, b2);
    FixedRoundTrip(r.auth, b3);
    PropsRoundTrip(strict, r.props, rest);
    DecodeRouteSteps(strict, EncodeRoute(r) + rest, r, b1, b2, b3, rest);
  }

  lemma DecodedRouteIsRoute(strict: bool, b: Bytes)
    ensures DecodeRoute(strict, b).Ok? ==> IsRoute(DecodeRoute(strict, b).value.0)
  {
    if DecodeRoute(strict, b).Ok? {
      DecodedTextIsText(strict, b);
      var b1 := DecodeText(strict, b).value.1;
      DecodedTextsAreTexts(strict, b1);
      var b2 := DecodeTexts(strict, b1).value.1;
      DecodedPropsAreProps(strict, b2[AUTH_LEN..]);
    }
  }

  predicate AreRoutes(rs: seq<Route>) {
    |rs| <= U64_MAX && forall r :: r in rs ==> IsRoute(r)
  }

  function EncodeRoutes(rs: seq<Route>): Bytes
    requires AreRoutes(rs)
  {
    EncodeCounted(rs, RouteEncoder())
  }

  function DecodeRoutes(strict: bool, b: Bytes): Parsed<seq<Route>> {
    DecodeCounted(strict, b, RouteDecoder(strict))
  }

  lemma RoutesRoundTrip(strict: bool, rs: seq<Route>, rest: Bytes)
    requires AreRoutes(rs)
    ensures DecodeRoutes(strict, EncodeRoutes(rs) + rest) == Ok((rs, rest))
  {
    forall r, c | r in rs ensures RouteDecoder(strict)(RouteEncoder()(r) + c) == Ok((r, c)) {
      RouteRoundTrip(strict, r, c);
    }
    CountedRoundTrip(strict, rs, RouteEncoder(), RouteDecoder(strict), rest);
  }

  lemma DecodedRoutesAreRoutes(strict: bool, b: Bytes)
    ensures DecodeRoutes(strict, b).Ok? ==> AreRoutes(DecodeRoutes(strict, b).value.0)
  {
    if DecodeRoutes(strict, b).Ok? {
      forall c ensures RouteDecoder(strict)(c).Ok? ==> IsRoutePredicate()(RouteDecoder(strict)(c).value.0) {
        DecodedRouteIsRoute(strict, c);
      }
      CountedAreGood(strict, b, RouteDecoder(strict), IsRoutePredicate());
      forall r | r in DecodeRoutes(strict, b).value.0 ensures IsRoute(r) {
        assert IsRoutePredicate()(r);
      }
    }
  }

  // ---------------------------------------------------------------- requests

  const TABLE_ID_LEN := 16
  const MIN_CONTROL_LEN := 1 + 16 + 4 + 2
  const MIN_UPDATE_LEN := 16 + 4 * 3 + 4 + 4 + 2 + 2

  predicate IsControl(c: ControlRequest) {
    |c.lastKnownTableId| == TABLE_ID_LEN && IsU32(c.lastKnownEpoch) && AreTexts(c.features)
  }

  function EncodeControl(c: ControlRequest): Bytes
    requires IsControl(c)
  {
    [if c.mode.Idle? then 0 else 1] + (c.lastKnownTableId + (PutUint(c.lastKnownEpoch, 4) + EncodeTexts(c.features)))
  }

  /** Bytes after the last feature are ignored. */
  function DecodeControl(strict: bool, b: Bytes): Result<ControlRequest, DecodeError> {
    if |b| < MIN_CONTROL_LEN then Err(Oer(UnexpectedEof))
    else if b[0] > 1 then Err(UnexpectedMode(b[0]))
    else
      var mode := if b[0] == 0 then Idle else Mode.Sync;
      var (epoch, rest) := GetU32(b[17..]);
      var (features, _) :- DecodeTexts(strict, rest);
      Ok(ControlRequest(mode, b[1..17], epoch, features))
  }

  lemma DecodeControlSteps(
    strict: bool, mode: Mode, id: TableId, epoch: nat, tail: Bytes, features: seq<Text>, rest: Bytes)
    requires |id| == TABLE_ID_LEN && IsU32(epoch) && |tail| >= 2
    requires DecodeTexts(strict, tail) == Ok((features, rest))
    ensures DecodeControl(strict, [if mode.Idle? then 0 else 1] + (id + (PutUint(epoch, 4) + tail)))
         == Ok(ControlRequest(mode, id, epoch, features))
  {
    var b := [if mode.Idle? then 0 else 1] + (id + (PutUint(epoch, 4) + tail));
    assert b[1..17] == id;
    assert b[17..] == PutUint(epoch, 4) + tail;
    U32RoundTrip(epoch, tail);
  }

  /** Decoding an encoded control request returns the original, whatever follows it. */
  lemma ControlRoundTrip(strict: bool, c: ControlRequest, rest: Bytes)
    requires IsControl(c)
    ensures DecodeControl(strict, EncodeControl(c) + rest) == Ok(c)
  {
    TextsRoundTrip(strict, c.features, rest);
    DecodeControlSteps(strict, c.mode, c.lastKnownTableId, c.lastKnownEpoch, EncodeTexts(c.features) + rest,
                       c.features, rest);
    Append4([if c.mode.Idle? then 0 else 1], c.lastKnownTableId, PutUint(c.lastKnownEpoch, 4),
            EncodeTexts(c.features), rest);
  }

  predicate IsUpdate(u: UpdateRequest) {
    && IsHeader(HeaderOf(u))
    && IsAddress(u.speaker)
    && AreRoutes(u.newRoutes) && AreTexts(u.withdrawn)
  }

  function EncodeUpdateBody(u: UpdateRequest): Bytes
    requires IsUpdate(u)
  {
    PutOctets(u.speaker) + (EncodeRoutes(u.newRoutes) + EncodeTexts(u.withdrawn))
  }

  datatype Header = Header(tableId: TableId, currentEpoch: nat, fromEpoch: nat, toEpoch: nat, holdDownTime: nat)

  predicate IsHeader(h: Header) {
    && |h.tableId| == TABLE_ID_LEN
    && IsU32(h.currentEpoch) && IsU32(h.fromEpoch) && IsU32(h.toEpoch) && IsU32(h.holdDownTime)
  }

  function HeaderOf(u: UpdateRequest): Header {
    Header(u.tableId, u.currentEpoch, u.fromEpoch, u.toEpoch, u.holdDownTime)
  }

  function EncodeHeader(h: Header, rest: Bytes): Bytes {
    h.tableId + (PutUint(h.currentEpoch, 4) + (PutUint(h.fromEpoch, 4) + (PutUint(h.toEpoch, 4)
      + (PutUint(h.holdDownTime, 4) + rest))))
  }

  function DecodeHeader(b: Bytes): (Header, Bytes)
    requires |b| >= 32
  {
    var (currentEpoch, b1) := GetU32(b[16..]);
    var (fromEpoch, b2) := GetU32(b1);
    var (toEpoch, b3) := GetU32(b2);
    var (holdDownTime, b4) := GetU32(b3);
    (Header(b[..16], currentEpoch, fromEpoch, toEpoch, holdDownTime), b4)
  }

  lemma HeaderRoundTrip(h: Header, rest: Bytes)
    requires IsHeader(h)
    ensures |EncodeHeader(h, rest)| == 32 + |rest|
    ensures DecodeHeader(EncodeHeader(h, rest)) == (h, rest)
  {
    var b3 := PutUint(h.holdDownTime, 4) + rest;
    var b2 := PutUint(h.toEpoch, 4) + b3;
    var b1 := PutUint(h.fromEpoch, 4) + b2;
    var b0 := PutUint(h.currentEpoch, 4) + b1;
    U32RoundTrip(h.currentEpoch, b1);
    U32RoundTrip(h.fromEpoch, b2);
    U32RoundTrip(h.toEpoch, b3);
    U32RoundTrip(h.holdDownTime, rest);
    assert (h.tableId + b0)[..16] == h.tableId && (h.tableId + b0)[16..] == b0;
  }

  lemma DecodedHeaderIsHeader(b: Bytes)
    requires |b| >= 32
    ensures IsHeader(DecodeHeader(b).0)
  {
    GetU32Fits(b[16..]);
    GetU32Fits(b[16..][4..]);
    GetU32Fits(b[16..][4..][4..]);
    GetU32Fits(b[16..][4..][4..][4..]);
  }

  function EncodeUpdate(u: UpdateRequest): Bytes
    requires IsUpdate(u)
  {
    EncodeHeader(HeaderOf(u), EncodeUpdateBody(u))
  }

  function DecodeUpdate(strict: bool, b: Bytes): Result<UpdateRequest, DecodeError> {
    if |b| < MIN_UPDATE_LEN then Err(Oer(UnexpectedEof))
    else
      var (h, b0) := DecodeHeader(b);
      var (speaker, b1) :- DecodeAddress(strict, b0);
      var (newRoutes, b2) :- DecodeRoutes(strict, b1);
      var (withdrawn, _) :- DecodeTexts(strict, b2);
      Ok(UpdateRequest(h.tableId, h.currentEpoch, h.fromEpoch, h.toEpoch, h.holdDownTime,
                       speaker, newRoutes, withdrawn))
  }

  lemma DecodeUpdateSteps(strict: bool, b: Bytes, u: UpdateRequest, b0: Bytes, b1: Bytes, b2: Bytes, b3: Bytes)
    requires |b| >= MIN_UPDATE_LEN && DecodeHeader(b) == (HeaderOf(u), b0)
    requires DecodeAddress(strict, b0) == Ok((u.speaker, b1))
    requires DecodeRoutes(strict, b1) == Ok((u.newRoutes, b2))
    requires DecodeTexts(strict, b2) == Ok((u.withdrawn, b3))
    ensures DecodeUpdate(strict, b) == Ok(u)
  {
  }

  lemma HeaderAppend(h: Header, body: Bytes, rest: Bytes)
    ensures EncodeHeader(h, body) + rest == EncodeHeader(h, body + rest)
  {
    Append4(h.tableId, PutUint(h.currentEpoch, 4), PutUint(h.fromEpoch, 4),
            PutUint(h.toEpoch, 4) + (PutUint(h.holdDownTime, 4) + body), rest);
    Append3(PutUint(h.toEpoch, 4), PutUint(h.holdDownTime, 4), body, rest);
  }

  /** Decoding an encoded update returns the original for every nesting of routes, paths and props,
      whatever follows it: in particular no minimum-length guard rejects it. */
  lemma UpdateRoundTrip(strict: bool, u: UpdateRequest, rest: Bytes)
    requires IsUpdate(u)
    ensures DecodeUpdate(strict, EncodeUpdate(u) + rest) == Ok(u)
  {
    var speaker, routes, texts := PutOctets(u.speaker), EncodeRoutes(u.newRoutes), EncodeTexts(u.withdrawn);
    var b2 := texts + rest;
    var b1 := routes + b2;
    var b0 := EncodeUpdateBody(u) + rest;
    Append3(speaker, routes, texts, rest);
    HeaderAppend(HeaderOf(u), EncodeUpdateBody(u), rest);
    HeaderRoundTrip(HeaderOf(u), b0);
    AddressRoundTrip(strict, u.speaker, b1);
    RoutesRoundTrip(strict, u.newRoutes, b2);
    TextsRoundTrip(strict, u.withdrawn, rest);
    assert |b0| >= 8;
    DecodeUpdateSteps(strict, EncodeUpdate(u) + rest, u, b0, b1, b2, rest);
  }

  /** Whatever bytes are accepted as an update, encoding and decoding the result again returns it. */
  lemma AcceptedUpdateRoundTrips(strict: bool, b: Bytes)
    requires DecodeUpdate(strict, b).Ok?
    ensures IsUpdate(DecodeUpdate(strict, b).value)
    ensures DecodeUpdate(strict, EncodeUpdate(DecodeUpdate(strict, b).value)) == DecodeUpdate(strict, b)
  {
    var u := DecodeUpdate(strict, b).value;
    DecodedHeaderIsHeader(b);
    var b1 := DecodeAddress(strict, DecodeHeader(b).1).value.1;
    DecodedRoutesAreRoutes(strict, b1);
    DecodedTextsAreTexts(strict, DecodeRoutes(strict, b1).value.1);
    UpdateRoundTrip(strict, u, []);
    assert EncodeUpdate(u) + [] == EncodeUpdate(u);
  }

  lemma AcceptedControlRoundTrips(strict: bool, b: Bytes)
    requires DecodeControl(strict, b).Ok?
    ensures IsControl(DecodeControl(strict, b).value)
    ensures DecodeControl(strict, EncodeControl(DecodeControl(strict, b).value)) == DecodeControl(strict, b)
  {
    var c := DecodeControl(strict, b).value;
    GetU32Fits(b[17..]);
    DecodedTextsAreTexts(strict, GetU32(b[17..]).1);
    ControlRoundTrip(strict, c, []);
    assert EncodeControl(c) + [] == EncodeControl(c);
  }
}
