/** BTP Message and Response frames (Interledger RFC 23): a type byte, a request id and an octet
    string that holds a counted list of named protocol data entries. */
module BtpPackets {
  import opened Options
  import opened Text
  import opened Oer
  import opened Codec

  datatype ContentType = ApplicationOctetStream | TextPlainUtf8 | Unknown(code: Byte)

  function ContentTypeOf(b: Byte): ContentType {
    if b == 0 then ApplicationOctetStream else if b == 1 then TextPlainUtf8 else Unknown(b)
  }

  function ContentByte(t: ContentType): Byte {
    match t
    case ApplicationOctetStream => 0
    case TextPlainUtf8 => 1
    case Unknown(x) => x
  }

  datatype ProtocolData = ProtocolData(name: Text, contentType: ContentType, data: Bytes)

  /** The contents of a Message (type 6) or a Response (type 1). */
  datatype Frame = Frame(requestId: nat, protocolData: seq<ProtocolData>)

  // ---------------------------------------------------------------- entries

  predicate IsEntry(e: ProtocolData) {
    IsText(e.name) && |e.data| <= U64_MAX
  }

  /** The two known content types are not spelled `Unknown(0)` or `Unknown(1)`. */
  predicate IsNormal(e: ProtocolData) {
    e.contentType != Unknown(0) && e.contentType != Unknown(1)
  }

  function EncodeEntry(e: ProtocolData): Bytes
    requires IsEntry(e)
  {
    PutOctets(e.name) + ([ContentByte(e.contentType)] + PutOctets(e.data))
  }

  function DecodeEntry(strict: bool, b: Bytes): Parsed<ProtocolData> {
    var (name, b1) :- DecodeText(strict, b);
    var (code, b2) :- Fixed(1, b1);
    var (data, b3) :- Lift(ReadOctets(strict, b2));
    Ok((ProtocolData(name, ContentTypeOf(code[0]), data), b3))
  }

  function EntryDecoder(strict: bool): Bytes -> Parsed<ProtocolData> {
    (b: Bytes) => DecodeEntry(strict, b)
  }

  function EntryEncoder(): ProtocolData --> Bytes {
    (e: ProtocolData) requires IsEntry(e) => EncodeEntry(e)
  }

  function DecodablePredicate(): ProtocolData -> bool {
    (e: ProtocolData) => IsEntry(e) && IsNormal(e)
  }

  lemma EntryRoundTrip(strict: bool, e: ProtocolData, rest: Bytes)
    requires IsEntry(e) && IsNormal(e)
    ensures DecodeEntry(strict, EncodeEntry(e) + rest) == Ok((e, rest))
  {
    var code, data := [ContentByte(e.contentType)], PutOctets(e.data);
    Append3(PutOctets(e.name), code, data, rest);
    TextRoundTrip(strict, e.name, code + (data + rest));
    FixedRoundTrip(code, data + rest);
    OctetsRoundTrip(strict, e.data, rest);
  }

  lemma EntryOfParts(b: Bytes, e: ProtocolData, b1: Bytes, b2: Bytes, rest: Bytes)
    requires IsEntry(e) && b == PutOctets(e.name) + b1
    requires b1 == [ContentByte(e.contentType)] + b2 && b2 == PutOctets(e.data) + rest
    ensures b == EncodeEntry(e) + rest
  {
    Append3(PutOctets(e.name), [ContentByte(e.contentType)], PutOctets(e.data), rest);
  }

  lemma StrictOctets(b: Bytes)
    requires ReadOctets(true, b).Ok?
    ensures var (s, rest) := ReadOctets(true, b).value;
            |s| <= U64_MAX && b == PutOctets(s) + rest
  {
    var (s, rest) := ReadOctets(true, b).value;
    ReadOctetsBounds(true, b);
    OctetsAreCanonical(b, s, rest);
  }

  /** The bytes are the encoding of the entry, then the rest. */
  predicate EntryFirst(b: Bytes, e: ProtocolData, rest: Bytes) {
    IsEntry(e) && IsNormal(e) && b == EncodeEntry(e) + rest
  }

  lemma CanonicalEntry(b: Bytes, name: Text, b1: Bytes, code: Byte, b2: Bytes, data: Bytes, rest: Bytes)
    requires IsText(name) && |data| <= U64_MAX
    requires b == PutOctets(name) + b1 && b1 == [code] + b2 && b2 == PutOctets(data) + rest
    ensures EntryFirst(b, ProtocolData(name, ContentTypeOf(code), data), rest)
  {
    EntryOfParts(b, ProtocolData(name, ContentTypeOf(code), data), b1, b2, rest);
  }

  /** The parts an entry is read from. */
  lemma EntryParts(b: Bytes) returns (b1: Bytes, b2: Bytes)
    requires DecodeEntry(true, b).Ok?
    ensures ReadOctets(true, b).Ok? && ReadOctets(true, b).value.1 == b1 && IsText(ReadOctets(true, b).value.0)
    ensures b1 != [] && b2 == b1[1..] && ReadOctets(true, b2).Ok?
    ensures DecodeEntry(true, b).value
         == (ProtocolData(ReadOctets(true, b).value.0, ContentTypeOf(b1[0]), ReadOctets(true, b2).value.0),
             ReadOctets(true, b2).value.1)
  {
    DecodedTextIsText(true, b);
    b1 := ReadOctets(true, b).value.1;
    b2 := b1[1..];
  }

  lemma EntryIsFirst(b: Bytes, name: Read<Bytes>, b1: Bytes, b2: Bytes, data: Read<Bytes>)
    requires name == ReadOctets(true, b) && name.Ok? && name.value.1 == b1 && IsText(name.value.0)
    requires b1 != [] && b2 == b1[1..] && data == ReadOctets(true, b2) && data.Ok?
    ensures EntryFirst(b, ProtocolData(name.value.0, ContentTypeOf(b1[0]), data.value.0), data.value.1)
  {
    StrictOctets(b);
    StrictOctets(b2);
    CanonicalEntry(b, name.value.0, b1, b1[0], b2, data.value.0, data.value.1);
  }

  lemma EntriesAreCanonical(b: Bytes)
    ensures DecodeEntry(true, b).Ok? ==> EntryFirst(b, DecodeEntry(true, b).value.0, DecodeEntry(true, b).value.1)
  {
    if DecodeEntry(true, b).Ok? {
      var b1, b2 := EntryParts(b);
      EntryIsFirst(b, ReadOctets(true, b), b1, b2, ReadOctets(true, b2));
    }
  }

  lemma DecodedEntryIsNormal(strict: bool, b: Bytes)
    ensures DecodeEntry(strict, b).Ok? ==>
              IsEntry(DecodeEntry(strict, b).value.0) && IsNormal(DecodeEntry(strict, b).value.0)
  {
    if DecodeEntry(strict, b).Ok? {
      DecodedTextIsText(strict, b);
      ReadOctetsBounds(strict, DecodeText(strict, b).value.1[1..]);
    }
  }

  // ---------------------------------------------------------------- entry lists

  predicate AreEntries(es: seq<ProtocolData>) {
    |es| <= U64_MAX && forall e :: e in es ==> IsEntry(e)
  }

  predicate AreNormal(es: seq<ProtocolData>) {
    forall e :: e in es ==> IsNormal(e)
  }

  function EncodeEntries(es: seq<ProtocolData>): Bytes
    requires AreEntries(es)
  {
    EncodeCounted(es, EntryEncoder())
  }

  function DecodeEntries(strict: bool, b: Bytes): Result<seq<ProtocolData>, DecodeError> {
    var (es, rest) :- DecodeCounted(strict, b, EntryDecoder(strict));
    if rest == [] then Ok(es) else Err(TrailingBytes)
  }

  lemma EntriesRoundTrip(strict: bool, es: seq<ProtocolData>)
    requires AreEntries(es) && AreNormal(es)
    ensures DecodeEntries(strict, EncodeEntries(es)) == Ok(es)
  {
    forall e, r | e in es ensures EntryDecoder(strict)(EntryEncoder()(e) + r) == Ok((e, r)) {
      EntryRoundTrip(strict, e, r);
    }
    CountedRoundTrip(strict, es, EntryEncoder(), EntryDecoder(strict), []);
    assert EncodeEntries(es) + [] == EncodeEntries(es);
  }

  lemma EntryCodecIsCanonical()
    ensures forall c {:trigger EntryDecoder(true)(c)} :: EntryDecoder(true)(c).Ok? ==>
              && EntryEncoder().requires(EntryDecoder(true)(c).value.0)
              && c == EntryEncoder()(EntryDecoder(true)(c).value.0) + EntryDecoder(true)(c).value.1
  {
    forall c ensures EntryDecoder(true)(c).Ok? ==>
               && EntryEncoder().requires(EntryDecoder(true)(c).value.0)
               && c == EntryEncoder()(EntryDecoder(true)(c).value.0) + EntryDecoder(true)(c).value.1 {
      EntriesAreCanonical(c);
    }
  }

  lemma DecodedEntriesAreNormal(strict: bool, b: Bytes)
    ensures DecodeEntries(strict, b).Ok? ==>
              AreEntries(DecodeEntries(strict, b).value) && AreNormal(DecodeEntries(strict, b).value)
  {
    if DecodeEntries(strict, b).Ok? {
      forall c ensures EntryDecoder(strict)(c).Ok? ==> DecodablePredicate()(EntryDecoder(strict)(c).value.0) {
        DecodedEntryIsNormal(strict, c);
      }
      CountedAreGood(strict, b, EntryDecoder(strict), DecodablePredicate());
      forall e | e in DecodeEntries(strict, b).value ensures IsEntry(e) && IsNormal(e) {
        assert DecodablePredicate()(e);
      }
    }
  }

  lemma EntryListsAreCanonical(b: Bytes)
    requires DecodeEntries(true, b).Ok?
    ensures AreEntries(DecodeEntries(true, b).value) && b == EncodeEntries(DecodeEntries(true, b).value)
  {
    DecodedEntriesAreNormal(true, b);
    EntryCodecIsCanonical();
    CountedAreCanonical(b, EntryEncoder(), EntryDecoder(true));
    var es := DecodeEntries(true, b).value;
    assert EncodeEntries(es) + [] == EncodeEntries(es);
  }

  // ---------------------------------------------------------------- frames

  const MIN_LEN := 1 + 4 + 1

  predicate IsFrame(f: Frame) {
    && IsU32(f.requestId)
    && AreEntries(f.protocolData) && |EncodeEntries(f.protocolData)| <= U64_MAX
  }

  function EncodeFrame(kind: Byte, f: Frame): Bytes
    requires IsFrame(f)
  {
    [kind] + (PutUint(f.requestId, 4) + PutOctets(EncodeEntries(f.protocolData)))
  }

  function DecodeFrame(strict: bool, kind: Byte, b: Bytes): Result<Frame, DecodeError> {
    if |b| < MIN_LEN then Err(Oer(UnexpectedEof))
    else if b[0] != kind then Err(UnexpectedType(b[0], kind))
    else
      var (requestId, b1) := GetU32(b[1..]);
      var (contents, rest) :- Lift(ReadOctets(strict, b1));
      if rest != [] then Err(TrailingBytes)
      else
        var es :- DecodeEntries(strict, contents);
        Ok(Frame(requestId, es))
  }

  lemma DecodeFrameSteps(strict: bool, kind: Byte, id: nat, contents: Bytes)
    requires IsU32(id) && |contents| <= U64_MAX
    ensures DecodeFrame(strict, kind, [kind] + (PutUint(id, 4) + PutOctets(contents)))
         == if DecodeEntries(strict, contents).Ok?
            then Ok(Frame(id, DecodeEntries(strict, contents).value)) else Err(DecodeEntries(strict, contents).error)
  {
    var b := [kind] + (PutUint(id, 4) + PutOctets(contents));
    assert b[1..] == PutUint(id, 4) + PutOctets(contents);
    U32RoundTrip(id, PutOctets(contents));
    OctetsRoundTrip(strict, contents, []);
    assert PutOctets(contents) + [] == PutOctets(contents);
  }

  /** Decoding an encoded frame gives it back if and only if no entry spells a known content type as
      an unknown one; both build modes agree. */
  lemma FrameRoundTrip(strict: bool, kind: Byte, f: Frame)
    requires IsFrame(f)
    ensures DecodeFrame(strict, kind, EncodeFrame(kind, f)) == Ok(f) <==> AreNormal(f.protocolData)
  {
    var contents := EncodeEntries(f.protocolData);
    DecodeFrameSteps(strict, kind, f.requestId, contents);
    DecodedEntriesAreNormal(strict, contents);
    if AreNormal(f.protocolData) {
      EntriesRoundTrip(strict, f.protocolData);
    }
  }

  lemma JoinFrame(b: Bytes, id: Bytes, octets: Bytes)
    requires |b| >= 5 && b[1..][..4] == id && b[1..][4..] == octets
    ensures b == [b[0]] + (id + octets)
  {
    assert b[1..] == b[1..][..4] + b[1..][4..];
  }

  lemma FrameOfParts(kind: Byte, b: Bytes, f: Frame, contents: Bytes)
    requires IsFrame(f) && |b| >= 5 && b[0] == kind && b[1..][..4] == PutUint(f.requestId, 4)
    requires EncodeEntries(f.protocolData) == contents && |contents| <= U64_MAX && b[1..][4..] == PutOctets(contents)
    ensures EncodeFrame(kind, f) == b
  {
    JoinFrame(b, PutUint(f.requestId, 4), PutOctets(contents));
  }

  /** Strict frames are canonical: accepted bytes re-encode to themselves. */
  lemma AcceptedFramesReencode(kind: Byte, b: Bytes)
    requires DecodeFrame(true, kind, b).Ok?
    ensures var f := DecodeFrame(true, kind, b).value;
            IsFrame(f) && AreNormal(f.protocolData) && EncodeFrame(kind, f) == b
  {
    var b1 := b[1..][4..];
    var (contents, rest) := ReadOctets(true, b1).value;
    ReadOctetsBounds(true, b1);
    OctetsAreCanonical(b1, contents, rest);
    assert PutOctets(contents) + [] == PutOctets(contents);
    EntryListsAreCanonical(contents);
    DecodedEntriesAreNormal(true, contents);
    GetU32Fits(b[1..]);
    PutGetUint(b[1..][..4]);
    FrameOfParts(kind, b, DecodeFrame(true, kind, b).value, contents);
  }

  /** Hence a strict frame has exactly one encoding, and the two frame types never mix. */
  lemma FramesAreCanonical(kind: Byte, b: Bytes, f: Frame)
    requires IsFrame(f) && AreNormal(f.protocolData)
    ensures DecodeFrame(true, kind, b) == Ok(f) <==> b == EncodeFrame(kind, f)
    ensures forall other :: other != kind ==> DecodeFrame(true, other, EncodeFrame(kind, f)).Err?
  {
    FrameRoundTrip(true, kind, f);
    if DecodeFrame(true, kind, b) == Ok(f) {
      AcceptedFramesReencode(kind, b);
    }
  }

  // ---------------------------------------------------------------- reader and writer loops

  method ReadEntry(reader: Reader, strict: bool) returns (r: Result<ProtocolData, DecodeError>)
    modifies reader
    ensures r.Ok? ==> DecodeEntry(strict, old(reader.rest)) == Ok((r.value, reader.rest))
    ensures r.Err? ==> DecodeEntry(strict, old(reader.rest)) == Err(r.error)
  {
    var name := ReadText(reader, strict);
    if name.Err? {
      return Err(name.error);
    }
    if |reader.rest| < 1 {
      return Err(DecodeError.Oer(UnexpectedEof));
    }
    var code := reader.Take(1);
    var data := reader.ReadVarOctetString(strict);
    if data.Err? {
      return Err(DecodeError.Oer(data.error));
    }
    return Ok(ProtocolData(name.value, ContentTypeOf(code[0]), data.value));
  }

  /** One round of the loop below: `entries` are read, `n` are to come. */
  method ReadNextEntry(
    reader: Reader, strict: bool,
    ghost many: (nat, Bytes) -> Parsed<seq<ProtocolData>>, ghost entries: seq<ProtocolData>, ghost n: nat)
    returns (r: Result<ProtocolData, DecodeError>)
    requires n > 0 && IsListDecoder(many, EntryDecoder(strict))
    modifies reader
    ensures var whole := Prepend(entries, many(n, old(reader.rest)));
            match r
            case Ok(entry) => whole == Prepend(entries + [entry], many(n - 1, reader.rest))
            case Err(e) => whole == Err(e)
  {
    DecodeManyStep(entries, n, reader.rest, EntryDecoder(strict));
    r := ReadEntry(reader, strict);
  }

  method ReadEntriesTimes(
    reader: Reader, strict: bool, count: nat, ghost many: (nat, Bytes) -> Parsed<seq<ProtocolData>>)
    returns (r: Result<seq<ProtocolData>, DecodeError>)
    requires IsListDecoder(many, EntryDecoder(strict))
    modifies reader
    ensures r.Ok? ==> many(count, old(reader.rest)) == Ok((r.value, reader.rest))
    ensures r.Err? ==> many(count, old(reader.rest)) == Err(r.error)
  {
    var entries: seq<ProtocolData> := [];
    PrependNothing(many(count, reader.rest));
    for i := 0 to count
      invariant many(count, old(reader.rest)) == Prepend(entries, many(count - i, reader.rest))
    {
      var entry := ReadNextEntry(reader, strict, many, entries, count - i);
      if entry.Err? {
        return Err(entry.error);
      }
      entries := entries + [entry.value];
    }
    ListDone(many, EntryDecoder(strict), entries, reader.rest);
    return Ok(entries);
  }

  method ReadProtocolData(strict: bool, contents: Bytes) returns (r: Result<seq<ProtocolData>, DecodeError>)
    ensures r == DecodeEntries(strict, contents)
  {
    var reader := new Reader(contents);
    var count := reader.ReadVariableUint(strict);
    if count.Err? {
      return Err(DecodeError.Oer(count.error));
    }
    var entries := ReadEntriesTimes(reader, strict, count.value, (n, b) => DecodeMany(n, b, EntryDecoder(strict)));
    if entries.Err? {
      return Err(entries.error);
    }
    if reader.rest != [] {
      return Err(TrailingBytes);
    }
    return Ok(entries.value);
  }

  method FromBytes(strict: bool, kind: Byte, bytes: Bytes) returns (r: Result<Frame, DecodeError>)
    ensures r == DecodeFrame(strict, kind, bytes)
  {
    if |bytes| < MIN_LEN {
      return Err(DecodeError.Oer(UnexpectedEof));
    }
    var reader := new Reader(bytes);
    var packetType := reader.Take(1);
    if packetType[0] != kind {
      return Err(UnexpectedType(packetType[0], kind));
    }
    var requestId := reader.Take(4);
    var contents := reader.ReadVarOctetString(strict);
    if contents.Err? {
      return Err(DecodeError.Oer(contents.error));
    }
    if reader.rest != [] {
      return Err(TrailingBytes);
    }
    var entries := ReadProtocolData(strict, contents.value);
    if entries.Err? {
      return Err(entries.error);
    }
    return Ok(Frame(GetUint(requestId), entries.value));
  }

  method PutEntry(writer: Writer, e: ProtocolData)
    requires IsEntry(e)
    modifies writer
    ensures writer.bytes == old(writer.bytes) + EncodeEntry(e)
  {
    writer.PutVarOctetString(e.name);
    writer.PutSlice([ContentByte(e.contentType)]);
    writer.PutVarOctetString(e.data);
    Append3(old(writer.bytes), PutOctets(e.name), [ContentByte(e.contentType)], PutOctets(e.data));
  }

  method PutProtocolData(writer: Writer, entries: seq<ProtocolData>)
    requires AreEntries(entries)
    modifies writer
    ensures writer.bytes == old(writer.bytes) + EncodeEntries(entries)
  {
    writer.PutVariableUint(|entries|);
    ghost var start, encode := writer.bytes, EntryEncoder();
    assert forall e :: e in entries ==> encode.requires(e);
    for i := 0 to |entries|
      invariant writer.bytes == start + EncodeMany(entries[..i], encode)
    {
      assert entries[i] in entries;
      PutEntry(writer, entries[i]);
      EncodeManyNext(start, entries, i, encode);
    }
    assert entries[..|entries|] == entries;
    Append2(old(writer.bytes), PutVarUint(|entries|), EncodeMany(entries, encode));
  }

  method ToBytes(kind: Byte, f: Frame) returns (bytes: Bytes)
    requires IsFrame(f)
    ensures bytes == EncodeFrame(kind, f)
  {
    var writer := new Writer();
    writer.PutSlice([kind]);
    assert writer.bytes == [kind];
    writer.PutSlice(PutUint(f.requestId, 4));
    var contents := new Writer();
    PutProtocolData(contents, f.protocolData);
    assert contents.bytes == EncodeEntries(f.protocolData);
    writer.PutVarOctetString(contents.bytes);
    bytes := writer.bytes;
    Append2([kind], PutUint(f.requestId, 4), PutOctets(EncodeEntries(f.protocolData)));
  }
}
