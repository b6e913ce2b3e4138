/** When accepted CCP requests re-encode to the bytes they came from. The decoders ignore the low four
    bits of a prop's meta byte and whatever follows the last field. An exact decoder that refuses both is
    defined here; it accepts precisely the strict requests that survive a round trip byte for byte. */
module CcpCanonical {
  import opened Options
  import opened Text
  import opened Oer
  import opened Codec
  import opened CcpTypes
  import opened CcpPackets

  // ---------------------------------------------------------------- texts

  lemma TextIsCanonical(b: Bytes)
    ensures DecodeText(true, b).Ok? ==>
              var (t, rest) := DecodeText(true, b).value;
              IsText(t) && b == PutOctets(t) + rest
  {
    if DecodeText(true, b).Ok? {
      var (t, rest) := ReadOctets(true, b).value;
      ReadOctetsBounds(true, b);
      OctetsAreCanonical(b, t, rest);
    }
  }

  lemma TextsAreCanonical(b: Bytes)
    requires DecodeTexts(true, b).Ok?
    ensures var (ts, rest) := DecodeTexts(true, b).value;
            AreTexts(ts) && b == EncodeTexts(ts) + rest
  {
    DecodedTextsAreTexts(true, b);
    forall c ensures TextDecoder(true)(c).Ok? ==>
               && TextEncoder().requires(TextDecoder(true)(c).value.0)
               && c == TextEncoder()(TextDecoder(true)(c).value.0) + TextDecoder(true)(c).value.1 {
      TextIsCanonical(c);
    }
    CountedAreCanonical(b, TextEncoder(), TextDecoder(true));
  }

  // ---------------------------------------------------------------- props

  /** Strict, and without reserved bits. */
  function ExactProp(b: Bytes): Parsed<RouteProp> {
    if b != [] && b[0] % 16 != 0 then Err(ReservedBits(b[0])) else DecodeProp(true, b)
  }

  function ExactPropDecoder(): Bytes -> Parsed<RouteProp> {
    (b: Bytes) => ExactProp(b)
  }

  lemma FlagsMakeTheMeta(meta: Byte)
    requires meta % 16 == 0
    ensures Flag(HasFlag(meta, 0x80), 0x80) + Flag(HasFlag(meta, 0x40), 0x40)
          + Flag(HasFlag(meta, 0x20), 0x20) + Flag(HasFlag(meta, 0x10), 0x10) == meta
  {
  }

  lemma PropOfParts(b: Bytes, p: RouteProp, rest: Bytes)
    requires |b| >= 3 && IsProp(p) && b[0] == Meta(p) && b[1..3] == PutUint(p.id, 2)
    requires b[3..] == PutOctets(p.value) + rest
    ensures b == EncodeProp(p) + rest
  {
    assert b == [b[0]] + b[1..3] + b[3..];
    Append2([b[0]] + b[1..3], PutOctets(p.value), rest);
  }

  lemma ValueIsCanonical(b: Bytes)
    requires |b| >= 3 && ReadOctets(true, b[3..]).Ok?
    ensures var (value, rest) := ReadOctets(true, b[3..]).value;
            |value| <= U64_MAX && b[3..] == PutOctets(value) + rest
  {
    var (value, rest) := ReadOctets(true, b[3..]).value;
    ReadOctetsBounds(true, b[3..]);
    OctetsAreCanonical(b[3..], value, rest);
  }

  lemma ExactPropIsCanonical(b: Bytes)
    ensures ExactProp(b).Ok? ==>
              var (p, rest) := ExactProp(b).value;
              IsProp(p) && b == EncodeProp(p) + rest
  {
    if ExactProp(b).Ok? {
      var (p, rest) := ExactProp(b).value;
      DecodedPropIsProp(true, b);
      FlagsMakeTheMeta(b[0]);
      PutGetUint(b[1..3]);
      ValueIsCanonical(b);
      PropOfParts(b, p, rest);
    }
  }

  lemma ExactPropRoundTrip(p: RouteProp, rest: Bytes)
    requires IsProp(p)
    ensures ExactProp(EncodeProp(p) + rest) == Ok((p, rest))
  {
    PropRoundTrip(true, p, rest);
  }

  function ExactProps(b: Bytes): Parsed<seq<RouteProp>> {
    DecodeCounted(true, b, ExactPropDecoder())
  }

  predicate AreProps(ps: seq<RouteProp>) {
    |ps| <= U64_MAX && forall p :: p in ps ==> IsProp(p)
  }

  lemma ExactPropsAreCanonical(b: Bytes)
    requires ExactProps(b).Ok?
    ensures var (ps, rest) := ExactProps(b).value;
            AreProps(ps) && b == EncodeProps(ps) + rest
  {
    var decode, encode := ExactPropDecoder(), PropEncoder();
    forall c ensures decode(c).Ok? ==>
               && encode.requires(decode(c).value.0) && IsPropPredicate()(decode(c).value.0)
               && c == encode(decode(c).value.0) + decode(c).value.1 {
      ExactPropIsCanonical(c);
    }
    CountedAreGood(true, b, decode, IsPropPredicate());
    forall p | p in ExactProps(b).value.0 ensures IsProp(p) {
      assert IsPropPredicate()(p);
    }
    CountedAreCanonical(b, encode, decode);
  }

  lemma ExactPropsRoundTrip(ps: seq<RouteProp>, rest: Bytes)
    requires AreProps(ps)
    ensures ExactProps(EncodeProps(ps) + rest) == Ok((ps, rest))
  {
    forall p, r | p in ps ensures ExactPropDecoder()(PropEncoder()(p) + r) == Ok((p, r)) {
      ExactPropRoundTrip(p, r);
    }
    CountedRoundTrip(true, ps, PropEncoder(), ExactPropDecoder(), rest);
  }

  // ---------------------------------------------------------------- routes

  function ExactRoute(b: Bytes): Parsed<Route> {
    var (prefix, b1) :- DecodeText(true, b);
    var (path, b2) :- DecodeTexts(true, b1);
    var (auth, b3) :- Fixed(AUTH_LEN, b2);
    var (props, b4) :- ExactProps(b3);
    Ok((Route(prefix, path, auth, props), b4))
  }

  function ExactRouteDecoder(): Bytes -> Parsed<Route> {
    (b: Bytes) => ExactRoute(b)
  }

  lemma FixedIsCanonical(n: nat, b: Bytes)
    requires Fixed(n, b).Ok?
    ensures |Fixed(n, b).value.0| == n && b == Fixed(n, b).value.0 + Fixed(n, b).value.1
  {
  }

  lemma RouteOfParts(b: Bytes, r: Route, b1: Bytes, b2: Bytes, b3: Bytes, b4: Bytes)
    requires IsText(r.prefix) && AreTexts(r.path) && |r.auth| == AUTH_LEN && AreProps(r.props)
    requires b == PutOctets(r.prefix) + b1 && b1 == EncodeTexts(r.path) + b2 && b2 == r.auth + b3
    requires b3 == EncodeProps(r.props) + b4
    ensures IsRoute(r) && b == EncodeRoute(r) + b4
  {
    Append4(PutOctets(r.prefix), EncodeTexts(r.path), r.auth, EncodeProps(r.props), b4);
  }

  lemma ExactRouteIsCanonical(b: Bytes)
    requires ExactRoute(b).Ok?
    ensures var (r, rest) := ExactRoute(b).value;
            IsRoute(r) && b == EncodeRoute(r) + rest
  {
    var (prefix, b1) := DecodeText(true, b).value;
    var (path, b2) := DecodeTexts(true, b1).value;
    var (auth, b3) := Fixed(AUTH_LEN, b2).value;
    var (props, b4) := ExactProps(b3).value;
    TextIsCanonical(b);
    TextsAreCanonical(b1);
    FixedIsCanonical(AUTH_LEN, b2);
    ExactPropsAreCanonical(b3);
    RouteOfParts(b, Route(prefix, path, auth, props), b1, b2, b3, b4);
  }

  lemma ExactRouteSteps(b: Bytes, r: Route, b1: Bytes, b2: Bytes, b3: Bytes, b4: Bytes)
    requires DecodeText(true, b) == Ok((r.prefix, b1)) && DecodeTexts(true, b1) == Ok((r.path, b2))
    requires Fixed(AUTH_LEN, b2) == Ok((r.auth, b3)) && ExactProps(b3) == Ok((r.props, b4))
    ensures ExactRoute(b) == Ok((r, b4))
  {
  }

  lemma ExactRouteRoundTrip(r: Route, rest: Bytes)
    requires IsRoute(r)
    ensures ExactRoute(EncodeRoute(r) + rest) == Ok((r, rest))
  {
    var b3 := EncodeProps(r.props) + rest;
    var b2 := r.auth + b3;
    var b1 := EncodeTexts(r.path) + b2;
    Append4(PutOctets(r.prefix), EncodeTexts(r.path), r.auth, EncodeProps(r.props), rest);
    TextRoundTrip(true, r.prefix, b1);
    TextsRoundTrip(true, r.path, b2);
    FixedRoundTrip(r.auth, b3);
    ExactPropsRoundTrip(r.props, rest);
    ExactRouteSteps(EncodeRoute(r) + rest, r, b1, b2, b3, rest);
  }

  function ExactRoutes(b: Bytes): Parsed<seq<Route>> {
    DecodeCounted(true, b, ExactRouteDecoder())
  }

  lemma ExactRouteCodec()
    ensures forall c {:trigger ExactRouteDecoder()(c)} :: ExactRouteDecoder()(c).Ok? ==>
              && RouteEncoder().requires(ExactRouteDecoder()(c).value.0)
              && IsRoutePredicate()(ExactRouteDecoder()(c).value.0)
              && c == RouteEncoder()(ExactRouteDecoder()(c).value.0) + ExactRouteDecoder()(c).value.1
  {
    forall c | ExactRouteDecoder()(c).Ok?
      ensures RouteEncoder().requires(ExactRouteDecoder()(c).value.0)
      ensures IsRoutePredicate()(ExactRouteDecoder()(c).value.0)
      ensures c == RouteEncoder()(ExactRouteDecoder()(c).value.0) + ExactRouteDecoder()(c).value.1
    {
      ExactRouteIsCanonical(c);
    }
  }

  lemma ExactRoutesAreCanonical(b: Bytes)
    requires ExactRoutes(b).Ok?
    ensures var (rs, rest) := ExactRoutes(b).value;
            AreRoutes(rs) && b == EncodeRoutes(rs) + rest
  {
    ExactRouteCodec();
    CountedAreGood(true, b, ExactRouteDecoder(), IsRoutePredicate());
    CountedAreCanonical(b, RouteEncoder(), ExactRouteDecoder());
    forall r | r in ExactRoutes(b).value.0 ensures IsRoute(r) {
      assert IsRoutePredicate()(r);
    }
  }

  lemma ExactRoutesRoundTrip(rs: seq<Route>, rest: Bytes)
    requires AreRoutes(rs)
    ensures ExactRoutes(EncodeRoutes(rs) + rest) == Ok((rs, rest))
  {
    forall r, c | r in rs ensures ExactRouteDecoder()(RouteEncoder()(r) + c) == Ok((r, c)) {
      ExactRouteRoundTrip(r, c);
    }
    CountedRoundTrip(true, rs, RouteEncoder(), ExactRouteDecoder(), rest);
  }

  // ---------------------------------------------------------------- requests

  /** Strict, without reserved bits, and with nothing after the last withdrawn prefix. */
  function ExactUpdate(b: Bytes): Result<UpdateRequest, DecodeError> {
    if |b| < MIN_UPDATE_LEN then Err(DecodeError.Oer(UnexpectedEof))
    else
      var (h, b0) := DecodeHeader(b);
      var (speaker, b1) :- DecodeAddress(true, b0);
      var (newRoutes, b2) :- ExactRoutes(b1);
      var (withdrawn, b3) :- DecodeTexts(true, b2);
      if b3 != [] then Err(TrailingBytes)
      else Ok(UpdateRequest(h.tableId, h.currentEpoch, h.fromEpoch, h.toEpoch, h.holdDownTime,
                            speaker, newRoutes, withdrawn))
  }

  lemma HeaderIsCanonical(b: Bytes)
    requires |b| >= 32
    ensures var (h, rest) := DecodeHeader(b);
            IsHeader(h) && b == EncodeHeader(h, rest)
  {
    DecodedHeaderIsHeader(b);
    var b1 := b[16..];
    var b2 := b1[4..];
    var b3 := b2[4..];
    var b4 := b3[4..];
    U32IsCanonical(b1);
    U32IsCanonical(b2);
    U32IsCanonical(b3);
    U32IsCanonical(b4);
    assert b == b[..16] + b1;
  }

  lemma U32IsCanonical(b: Bytes)
    requires |b| >= 4
    ensures b == PutUint(GetU32(b).0, 4) + GetU32(b).1
  {
    PutGetUint(b[..4]);
    assert b == b[..4] + b[4..];
  }

  lemma AddressIsCanonical(b: Bytes)
    requires DecodeAddress(true, b).Ok?
    ensures var (a, rest) := DecodeAddress(true, b).value;
            IsAddress(a) && b == PutOctets(a) + rest
  {
    var (a, rest) := ReadOctets(true, b).value;
    OctetsAreCanonical(b, a, rest);
  }

  lemma UpdateOfParts(b: Bytes, u: UpdateRequest, b0: Bytes, b1: Bytes, b2: Bytes)
    requires IsHeader(HeaderOf(u)) && IsAddress(u.speaker) && AreRoutes(u.newRoutes) && AreTexts(u.withdrawn)
    requires b == EncodeHeader(HeaderOf(u), b0) && b0 == PutOctets(u.speaker) + b1
    requires b1 == EncodeRoutes(u.newRoutes) + b2 && b2 == EncodeTexts(u.withdrawn) + []
    ensures IsUpdate(u) && b == EncodeUpdate(u)
  {
    assert EncodeTexts(u.withdrawn) + [] == EncodeTexts(u.withdrawn);
  }

  lemma ExactUpdateIsCanonical(b: Bytes)
    requires ExactUpdate(b).Ok?
    ensures IsUpdate(ExactUpdate(b).value) && b == EncodeUpdate(ExactUpdate(b).value)
  {
    var (h, b0) := DecodeHeader(b);
    var (speaker, b1) := DecodeAddress(true, b0).value;
    var (newRoutes, b2) := ExactRoutes(b1).value;
    HeaderIsCanonical(b);
    AddressIsCanonical(b0);
    ExactRoutesAreCanonical(b1);
    TextsAreCanonical(b2);
    UpdateOfParts(b, ExactUpdate(b).value, b0, b1, b2);
  }

  lemma ExactUpdateSteps(b: Bytes, u: UpdateRequest, b0: Bytes, b1: Bytes, b2: Bytes)
    requires |b| >= MIN_UPDATE_LEN && DecodeHeader(b) == (HeaderOf(u), b0)
    requires DecodeAddress(true, b0) == Ok((u.speaker, b1)) && ExactRoutes(b1) == Ok((u.newRoutes, b2))
    requires DecodeTexts(true, b2) == Ok((u.withdrawn, []))
    ensures ExactUpdate(b) == Ok(u)
  {
  }

  lemma ExactUpdateRoundTrip(u: UpdateRequest)
    requires IsUpdate(u)
    ensures ExactUpdate(EncodeUpdate(u)) == Ok(u)
  {
    var b2 := EncodeTexts(u.withdrawn);
    var b1 := EncodeRoutes(u.newRoutes) + b2;
    var b0 := EncodeUpdateBody(u);
    HeaderRoundTrip(HeaderOf(u), b0);
    AddressRoundTrip(true, u.speaker, b1);
    ExactRoutesRoundTrip(u.newRoutes, b2);
    TextsRoundTrip(true, u.withdrawn, []);
    assert b2 + [] == b2;
    assert |b0| >= 8;
    ExactUpdateSteps(EncodeUpdate(u), u, b0, b1, b2);
  }

  /** An update accepted in strict mode re-encodes to its bytes if and only if no prop sets a reserved bit
      and nothing follows the last withdrawn prefix. */
  lemma AcceptedUpdateReencodesIff(b: Bytes)
    requires DecodeUpdate(true, b).Ok?
    ensures IsUpdate(DecodeUpdate(true, b).value)
    ensures EncodeUpdate(DecodeUpdate(true, b).value) == b <==> ExactUpdate(b).Ok?
  {
    AcceptedUpdateRoundTrips(true, b);
    var u := DecodeUpdate(true, b).value;
    if EncodeUpdate(u) == b {
      ExactUpdateRoundTrip(u);
    }
    if ExactUpdate(b).Ok? {
      ExactUpdateIsCanonical(b);
      UpdateRoundTrip(true, ExactUpdate(b).value, []);
      assert b + [] == b;
    }
  }

  /** What is left after the features of a control request. */
  function AfterFeatures(b: Bytes): Bytes
    requires DecodeControl(true, b).Ok?
  {
    DecodeTexts(true, GetU32(b[17..]).1).value.1
  }

  lemma ControlOfParts(b: Bytes, c: ControlRequest, rest: Bytes)
    requires |b| >= MIN_CONTROL_LEN && IsControl(c) && b[0] == (if c.mode.Idle? then 0 else 1)
    requires b[1..17] == c.lastKnownTableId
    requires b[17..] == PutUint(c.lastKnownEpoch, 4) + (EncodeTexts(c.features) + rest)
    ensures b == EncodeControl(c) + rest
  {
    Append4([if c.mode.Idle? then 0 else 1], c.lastKnownTableId, PutUint(c.lastKnownEpoch, 4),
            EncodeTexts(c.features), rest);
    assert b == [b[0]] + (b[1..17] + b[17..]);
  }

  /** A control request accepted in strict mode re-encodes to its bytes exactly if nothing follows them. */
  lemma AcceptedControlReencodesIff(b: Bytes)
    requires DecodeControl(true, b).Ok?
    ensures IsControl(DecodeControl(true, b).value)
    ensures EncodeControl(DecodeControl(true, b).value) == b <==> AfterFeatures(b) == []
  {
    var c := DecodeControl(true, b).value;
    AcceptedControlRoundTrips(true, b);
    U32IsCanonical(b[17..]);
    TextsAreCanonical(GetU32(b[17..]).1);
    ControlOfParts(b, c, AfterFeatures(b));
  }
}
