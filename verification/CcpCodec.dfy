/** The decoders and encoders of CCP requests as the source runs them: a cursor advanced through
    counted loops, a buffer appended to. Each is proved against the format in `CcpPackets`. */
module CcpCodec {
  import opened Options
  import opened Text
  import opened Oer
  import opened Codec
  import opened CcpTypes
  import opened CcpPackets

  // ---------------------------------------------------------------- reading

  /** One round of the loop below: `texts` are read, `n` are to come. */
  method ReadNextText(
    reader: Reader, strict: bool,
    ghost many: (nat, Bytes) -> Parsed<seq<Text>>, ghost texts: seq<Text>, ghost n: nat)
    returns (r: Result<Text, DecodeError>)
    requires n > 0 && IsListDecoder(many, TextDecoder(strict))
    modifies reader
    ensures var whole := Prepend(texts, many(n, old(reader.rest)));
            match r
            case Ok(text) => whole == Prepend(texts + [text], many(n - 1, reader.rest))
            case Err(e) => whole == Err(e)
  {
    DecodeManyStep(texts, n, reader.rest, TextDecoder(strict));
    r := ReadText(reader, strict);
  }

  method ReadTextsTimes(reader: Reader, strict: bool, count: nat, ghost many: (nat, Bytes) -> Parsed<seq<Text>>)
    returns (r: Result<seq<Text>, DecodeError>)
    requires IsListDecoder(many, TextDecoder(strict))
    modifies reader
    ensures r.Ok? ==> many(count, old(reader.rest)) == Ok((r.value, reader.rest))
    ensures r.Err? ==> many(count, old(reader.rest)) == Err(r.error)
  {
    var texts: seq<Text> := [];
    PrependNothing(many(count, reader.rest));
    for i := 0 to count
      invariant many(count, old(reader.rest)) == Prepend(texts, many(count - i, reader.rest))
    {
      var text := ReadNextText(reader, strict, many, texts, count - i);
      if text.Err? {
        return Err(text.error);
      }
      texts := texts + [text.value];
    }
    ListDone(many, TextDecoder(strict), texts, reader.rest);
    return Ok(texts);
  }

  method ReadTexts(reader: Reader, strict: bool) returns (r: Result<seq<Text>, DecodeError>)
    modifies reader
    ensures r.Ok? ==> DecodeTexts(strict, old(reader.rest)) == Ok((r.value, reader.rest))
    ensures r.Err? ==> DecodeTexts(strict, old(reader.rest)) == Err(r.error)
  {
    var count := reader.ReadVariableUint(strict);
    if count.Err? {
      return Err(DecodeError.Oer(count.error));
    }
    r := ReadTextsTimes(reader, strict, count.value, (n, b) => DecodeMany(n, b, TextDecoder(strict)));
  }

  method ReadProp(reader: Reader, strict: bool) returns (r: Result<RouteProp, DecodeError>)
    modifies reader
    ensures r.Ok? ==> DecodeProp(strict, old(reader.rest)) == Ok((r.value, reader.rest))
    ensures r.Err? ==> DecodeProp(strict, old(reader.rest)) == Err(r.error)
  {
    if |reader.rest| < 4 {
      return Err(DecodeError.Oer(UnexpectedEof));
    }
    ghost var b := reader.rest;
    var meta := reader.Take(1);
    var id := reader.Take(2);
    assert meta[0] == b[0] && id == b[1..3] && reader.rest == b[3..];
    var value := reader.ReadVarOctetString(strict);
    if value.Err? {
      return Err(DecodeError.Oer(value.error));
    }
    return Ok(RouteProp(HasFlag(meta[0], 0x80), HasFlag(meta[0], 0x40), HasFlag(meta[0], 0x20),
                        GetUint(id), HasFlag(meta[0], 0x10), value.value));
  }

  /** One round of the loop below: `props` are read, `n` are to come. */
  method ReadNextProp(
    reader: Reader, strict: bool,
    ghost many: (nat, Bytes) -> Parsed<seq<RouteProp>>, ghost props: seq<RouteProp>, ghost n: nat)
    returns (r: Result<RouteProp, DecodeError>)
    requires n > 0 && IsListDecoder(many, PropDecoder(strict))
    modifies reader
    ensures var whole := Prepend(props, many(n, old(reader.rest)));
            match r
            case Ok(prop) => whole == Prepend(props + [prop], many(n - 1, reader.rest))
            case Err(e) => whole == Err(e)
  {
    DecodeManyStep(props, n, reader.rest, PropDecoder(strict));
    r := ReadProp(reader, strict);
  }

  method ReadPropsTimes(reader: Reader, strict: bool, count: nat, ghost many: (nat, Bytes) -> Parsed<seq<RouteProp>>)
    returns (r: Result<seq<RouteProp>, DecodeError>)
    requires IsListDecoder(many, PropDecoder(strict))
    modifies reader
    ensures r.Ok? ==> many(count, old(reader.rest)) == Ok((r.value, reader.rest))
    ensures r.Err? ==> many(count, old(reader.rest)) == Err(r.error)
  {
    var props: seq<RouteProp> := [];
    PrependNothing(many(count, reader.rest));
    for i := 0 to count
      invariant many(count, old(reader.rest)) == Prepend(props, many(count - i, reader.rest))
    {
      var prop := ReadNextProp(reader, strict, many, props, count - i);
      if prop.Err? {
        return Err(prop.error);
      }
      props := props + [prop.value];
    }
    ListDone(many, PropDecoder(strict), props, reader.rest);
    return Ok(props);
  }

  method ReadProps(reader: Reader, strict: bool) returns (r: Result<seq<RouteProp>, DecodeError>)
    modifies reader
    ensures r.Ok? ==> DecodeProps(strict, old(reader.rest)) == Ok((r.value, reader.rest))
    ensures r.Err? ==> DecodeProps(strict, old(reader.rest)) == Err(r.error)
  {
    var count := reader.ReadVariableUint(strict);
    if count.Err? {
      return Err(DecodeError.Oer(count.error));
    }
    r := ReadPropsTimes(reader, strict, count.value, (n, b) => DecodeMany(n, b, PropDecoder(strict)));
  }

  method ReadRoute(reader: Reader, strict: bool) returns (r: Result<Route, DecodeError>)
    modifies reader
    ensures r.Ok? ==> DecodeRoute(strict, old(reader.rest)) == Ok((r.value, reader.rest))
    ensures r.Err? ==> DecodeRoute(strict, old(reader.rest)) == Err(r.error)
  {
    var prefix := ReadText(reader, strict);
    if prefix.Err? {
      return Err(prefix.error);
    }
    var path := ReadTexts(reader, strict);
    if path.Err? {
      return Err(path.error);
    }
    if |reader.rest| < AUTH_LEN {
      return Err(DecodeError.Oer(UnexpectedEof));
    }
    var auth := reader.Take(AUTH_LEN);
    var props := ReadProps(reader, strict);
    if props.Err? {
      return Err(props.error);
    }
    return Ok(Route(prefix.value, path.value, auth, props.value));
  }

  /** One round of the loop below: `routes` are read, `n` are to come. */
  method ReadNextRoute(
    reader: Reader, strict: bool,
    ghost many: (nat, Bytes) -> Parsed<seq<Route>>, ghost routes: seq<Route>, ghost n: nat)
    returns (r: Result<Route, DecodeError>)
    requires n > 0 && IsListDecoder(many, RouteDecoder(strict))
    modifies reader
    ensures var whole := Prepend(routes, many(n, old(reader.rest)));
            match r
            case Ok(route) => whole == Prepend(routes + [route], many(n - 1, reader.rest))
            case Err(e) => whole == Err(e)
  {
    DecodeManyStep(routes, n, reader.rest, RouteDecoder(strict));
    r := ReadRoute(reader, strict);
  }

  method ReadRoutesTimes(reader: Reader, strict: bool, count: nat, ghost many: (nat, Bytes) -> Parsed<seq<Route>>)
    returns (r: Result<seq<Route>, DecodeError>)
    requires IsListDecoder(many, RouteDecoder(strict))
    modifies reader
    ensures r.Ok? ==> many(count, old(reader.rest)) == Ok((r.value, reader.rest))
    ensures r.Err? ==> many(count, old(reader.rest)) == Err(r.error)
  {
    var routes: seq<Route> := [];
    PrependNothing(many(count, reader.rest));
    for i := 0 to count
      invariant many(count, old(reader.rest)) == Prepend(routes, many(count - i, reader.rest))
    {
      var route := ReadNextRoute(reader, strict, many, routes, count - i);
      if route.Err? {
        return Err(route.error);
      }
      routes := routes + [route.value];
    }
    ListDone(many, RouteDecoder(strict), routes, reader.rest);
    return Ok(routes);
  }

  method ReadRoutes(reader: Reader, strict: bool) returns (r: Result<seq<Route>, DecodeError>)
    modifies reader
    ensures r.Ok? ==> DecodeRoutes(strict, old(reader.rest)) == Ok((r.value, reader.rest))
    ensures r.Err? ==> DecodeRoutes(strict, old(reader.rest)) == Err(r.error)
  {
    var count := reader.ReadVariableUint(strict);
    if count.Err? {
      return Err(DecodeError.Oer(count.error));
    }
    r := ReadRoutesTimes(reader, strict, count.value, (n, b) => DecodeMany(n, b, RouteDecoder(strict)));
  }

  method ReadControl(strict: bool, data: Bytes) returns (r: Result<ControlRequest, DecodeError>)
    ensures r == DecodeControl(strict, data)
  {
    if |data| < MIN_CONTROL_LEN {
      return Err(DecodeError.Oer(UnexpectedEof));
    }
    var reader := new Reader(data);
    var mode := reader.Take(1);
    if mode[0] > 1 {
      return Err(UnexpectedMode(mode[0]));
    }
    var id := reader.Take(16);
    assert id == data[1..17] && reader.rest == data[17..];
    var epoch := reader.Take(4);
    var features := ReadTexts(reader, strict);
    if features.Err? {
      return Err(features.error);
    }
    return Ok(ControlRequest(if mode[0] == 0 then Idle else Mode.Sync, id, GetUint(epoch), features.value));
  }

  method ReadHeader(reader: Reader) returns (h: Header)
    requires |reader.rest| >= 32
    modifies reader
    ensures (h, reader.rest) == DecodeHeader(old(reader.rest))
  {
    var id := reader.Take(16);
    var currentEpoch := reader.Take(4);
    var fromEpoch := reader.Take(4);
    var toEpoch := reader.Take(4);
    var holdDownTime := reader.Take(4);
    h := Header(id, GetUint(currentEpoch), GetUint(fromEpoch), GetUint(toEpoch), GetUint(holdDownTime));
  }

  method ReadUpdate(strict: bool, data: Bytes) returns (r: Result<UpdateRequest, DecodeError>)
    ensures r == DecodeUpdate(strict, data)
  {
    if |data| < MIN_UPDATE_LEN {
      return Err(DecodeError.Oer(UnexpectedEof));
    }
    var reader := new Reader(data);
    var h := ReadHeader(reader);
    var speaker := reader.ReadVarOctetString(strict);
    if speaker.Err? {
      return Err(DecodeError.Oer(speaker.error));
    }
    if !IsAddress(speaker.value) {
      return Err(AddressInvalid);
    }
    var newRoutes := ReadRoutes(reader, strict);
    if newRoutes.Err? {
      return Err(newRoutes.error);
    }
    var withdrawn := ReadTexts(reader, strict);
    if withdrawn.Err? {
      return Err(withdrawn.error);
    }
    return Ok(UpdateRequest(h.tableId, h.currentEpoch, h.fromEpoch, h.toEpoch, h.holdDownTime,
                            speaker.value, newRoutes.value, withdrawn.value));
  }

  // ---------------------------------------------------------------- writing

  method WriteTexts(writer: Writer, texts: seq<Text>)
    requires AreTexts(texts)
    modifies writer
    ensures writer.bytes == old(writer.bytes) + EncodeTexts(texts)
  {
    writer.PutVariableUint(|texts|);
    ghost var start, encode := writer.bytes, TextEncoder();
    assert forall x :: x in texts ==> encode.requires(x);
    for i := 0 to |texts|
      invariant writer.bytes == start + EncodeMany(texts[..i], encode)
    {
      assert texts[i] in texts;
      writer.PutVarOctetString(texts[i]);
      EncodeManyNext(start, texts, i, encode);
    }
    assert texts[..|texts|] == texts;
    Append2(old(writer.bytes), PutVarUint(|texts|), EncodeMany(texts, encode));
  }

  method WriteProp(writer: Writer, prop: RouteProp)
    requires IsProp(prop)
    modifies writer
    ensures writer.bytes == old(writer.bytes) + EncodeProp(prop)
  {
    var meta := 0;
    if prop.isOptional {
      meta := meta + 0x80;
    }
    if prop.isPartial {
      meta := meta + 0x20;
    }
    if prop.isTransitive {
      meta := meta + 0x40;
    }
    if prop.isUtf8 {
      meta := meta + 0x10;
    }
    writer.PutSlice([meta]);
    writer.PutSlice(PutUint(prop.id, 2));
    writer.PutVarOctetString(prop.value);
  }

  method WriteProps(writer: Writer, props: seq<RouteProp>)
    requires |props| <= U64_MAX && forall p :: p in props ==> IsProp(p)
    modifies writer
    ensures writer.bytes == old(writer.bytes) + EncodeProps(props)
  {
    writer.PutVariableUint(|props|);
    ghost var start, encode := writer.bytes, PropEncoder();
    assert forall x :: x in props ==> encode.requires(x);
    for i := 0 to |props|
      invariant writer.bytes == start + EncodeMany(props[..i], encode)
    {
      assert props[i] in props;
      WriteProp(writer, props[i]);
      EncodeManyNext(start, props, i, encode);
    }
    assert props[..|props|] == props;
    Append2(old(writer.bytes), PutVarUint(|props|), EncodeMany(props, encode));
  }

  method WriteRoute(writer: Writer, route: Route)
    requires IsRoute(route)
    modifies writer
    ensures writer.bytes == old(writer.bytes) + EncodeRoute(route)
  {
    writer.PutVarOctetString(route.prefix);
    WriteTexts(writer, route.path);
    writer.PutSlice(route.auth);
    WriteProps(writer, route.props);
    Flatten4(old(writer.bytes), PutOctets(route.prefix), EncodeTexts(route.path), route.auth, EncodeProps(route.props));
  }

  lemma Flatten4(a: Bytes, b: Bytes, c: Bytes, d: Bytes, e: Bytes)
    ensures a + b + c + d + e == a + (b + (c + (d + e)))
  {
  }

  method WriteEachRoute(writer: Writer, routes: seq<Route>, ghost encode: Route --> Bytes)
    requires forall r :: r in routes ==> IsRoute(r) && encode.requires(r) && encode(r) == EncodeRoute(r)
    modifies writer
    ensures writer.bytes == old(writer.bytes) + EncodeMany(routes, encode)
  {
    ghost var start := writer.bytes;
    for i := 0 to |routes|
      invariant writer.bytes == start + EncodeMany(routes[..i], encode)
    {
      assert routes[i] in routes;
      WriteRoute(writer, routes[i]);
      EncodeManyNext(start, routes, i, encode);
    }
    assert routes[..|routes|] == routes;
  }

  method WriteRoutes(writer: Writer, routes: seq<Route>)
    requires AreRoutes(routes)
    modifies writer
    ensures writer.bytes == old(writer.bytes) + EncodeRoutes(routes)
  {
    writer.PutVariableUint(|routes|);
    WriteEachRoute(writer, routes, RouteEncoder());
    Append2(old(writer.bytes), PutVarUint(|routes|), EncodeMany(routes, RouteEncoder()));
  }

  method WriteControl(c: ControlRequest) returns (data: Bytes)
    requires IsControl(c)
    ensures data == EncodeControl(c)
  {
    var writer := new Writer();
    writer.PutSlice([if c.mode.Idle? then 0 else 1]);
    writer.PutSlice(c.lastKnownTableId);
    writer.PutSlice(PutUint(c.lastKnownEpoch, 4));
    WriteTexts(writer, c.features);
    Flatten4([], [if c.mode.Idle? then 0 else 1], c.lastKnownTableId, PutUint(c.lastKnownEpoch, 4),
             EncodeTexts(c.features));
    data := writer.bytes;
  }

  method WriteHeader(writer: Writer, h: Header)
    modifies writer
    ensures writer.bytes == old(writer.bytes) + EncodeHeader(h, [])
  {
    writer.PutSlice(h.tableId);
    writer.PutSlice(PutUint(h.currentEpoch, 4));
    writer.PutSlice(PutUint(h.fromEpoch, 4));
    writer.PutSlice(PutUint(h.toEpoch, 4));
    writer.PutSlice(PutUint(h.holdDownTime, 4));
  }

  lemma BodyAfterHeader(h: Header, a: Bytes, b: Bytes, c: Bytes)
    ensures EncodeHeader(h, []) + a + b + c == EncodeHeader(h, a + (b + c))
  {
    HeaderAppend(h, [], a + (b + c));
    Append2(EncodeHeader(h, []) + a, b, c);
    Append2(EncodeHeader(h, []), a, b + c);
    assert [] + (a + (b + c)) == a + (b + c);
  }

  method WriteUpdate(u: UpdateRequest) returns (data: Bytes)
    requires IsUpdate(u)
    ensures data == EncodeUpdate(u)
  {
    var writer := new Writer();
    WriteHeader(writer, HeaderOf(u));
    assert [] + EncodeHeader(HeaderOf(u), []) == EncodeHeader(HeaderOf(u), []);
    AddressIsAtLeastThreeBytes(u.speaker);
    writer.PutVarOctetString(u.speaker);
    WriteRoutes(writer, u.newRoutes);
    WriteTexts(writer, u.withdrawn);
    data := writer.bytes;
    BodyAfterHeader(HeaderOf(u), PutOctets(u.speaker), EncodeRoutes(u.newRoutes), EncodeTexts(u.withdrawn));
  }
}
