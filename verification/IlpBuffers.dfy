/** ILPv4 packets as the source holds them: a byte array overwritten in place beside cached fields,
    filled by a builder and scanned by a moving cursor. Proved against `IlpPackets`. */
module IlpBuffers {
  import opened Options
  import opened Text
  import opened Oer
  import opened Codec
  import opened IlpPackets

  /** Copies `s` over the bytes of `a` from `at` on. */
  method Overwrite(a: array<Byte>, at: nat, s: Bytes)
    requires at + |s| <= a.Length
    modifies a
    ensures a[..] == Splice(old(a[..]), at, s)
  {
    for i := 0 to |s|
      invariant forall j :: 0 <= j < i ==> a[at + j] == s[j]
      invariant forall k :: 0 <= k < a.Length && !(at <= k < at + i) ==> a[k] == old(a[k])
    {
      a[at + i] := s[i];
    }
    forall k | 0 <= k < a.Length ensures a[k] == Splice(old(a[..]), at, s)[k] {
      if at <= k < at + |s| {
        assert a[at + (k - at)] == s[k - at];
      }
    }
  }

  method DeserializeEnvelope(strict: bool, kind: Byte, b: Bytes) returns (r: Result<(nat, Bytes), DecodeError>)
    ensures r == Envelope(strict, kind, b)
  {
    if |b| < 1 {
      return Err(DecodeError.Oer(UnexpectedEof));
    }
    if b[0] != kind {
      return Err(UnexpectedType(b[0], kind));
    }
    var peek := new Reader(b[1..]);
    var length := peek.ReadVarOctetStringLength(strict);
    if length.Err? {
      return Err(DecodeError.Oer(length.error));
    }
    ReadLengthBounds(strict, b[1..]);
    var contentOffset := 1 + (|b[1..]| - |peek.rest|);
    var reader := new Reader(b[1..]);
    var content := reader.ReadVarOctetString(strict);
    if content.Err? {
      return Err(DecodeError.Oer(content.error));
    }
    if strict && reader.rest != [] {
      return Err(TrailingBytes);
    }
    return Ok((contentOffset, content.value));
  }

  method ReadAddress(reader: Reader, strict: bool) returns (r: Result<Text, DecodeError>)
    modifies reader
    ensures r.Ok? ==> DecodeAddress(strict, old(reader.rest)) == Ok((r.value, reader.rest))
    ensures r.Err? ==> DecodeAddress(strict, old(reader.rest)) == Err(r.error)
  {
    var octets := reader.ReadVarOctetString(strict);
    if octets.Err? {
      return Err(DecodeError.Oer(octets.error));
    }
    if !IsAddress(octets.value) {
      return Err(AddressInvalid);
    }
    return Ok(octets.value);
  }

  lemma AddressLeaves(strict: bool, c: Bytes)
    requires DecodeAddress(strict, c).Ok?
    ensures |DecodeAddress(strict, c).value.1| <= |c|
  {
    ReadOctetsBounds(strict, c);
  }

  lemma TailInSteps(strict: bool, c: Bytes)
    ensures DecodeAddress(strict, c).Err? ==> ParseTail(strict, c) == Err(DecodeAddress(strict, c).error)
    ensures DecodeAddress(strict, c).Ok? ==>
              var (destination, tail) := DecodeAddress(strict, c).value;
              var data := ReadOctets(strict, tail);
              && |tail| <= |c|
              && ParseTail(strict, c) ==
                 if data.Err? then Err(DecodeError.Oer(data.error))
                 else if strict && data.value.1 != [] then Err(TrailingBytes)
                 else Ok((destination, |c| - |tail|))
  {
    if DecodeAddress(strict, c).Ok? {
      AddressLeaves(strict, c);
    }
  }

  method ReadTail(strict: bool, c: Bytes) returns (r: Result<(Text, nat), DecodeError>)
    ensures r == ParseTail(strict, c)
  {
    TailInSteps(strict, c);
    var reader := new Reader(c);
    var destination := ReadAddress(reader, strict);
    if destination.Err? {
      return Err(destination.error);
    }
    var dataOffset := |c| - |reader.rest|;
    var data := reader.ReadVarOctetString(strict);
    if data.Err? {
      return Err(DecodeError.Oer(data.error));
    }
    if strict && reader.rest != [] {
      return Err(TrailingBytes);
    }
    return Ok((destination.value, dataOffset));
  }

  lemma Flatten(a: Bytes, b: Bytes, c: Bytes, d: Bytes, e: Bytes, f: Bytes)
    ensures a + b + c + d + e + f == a + (b + (c + (d + (e + f))))
  {
  }

  /** The bytes a builder appends, and where the content starts among them. */
  method Fill(clock: Clock, v: PrepareView) returns (bytes: Bytes, contentOffset: nat)
    requires IsPrepare(v)
    ensures bytes == BuildPrepare(clock, v).buffer && contentOffset == BuildPrepare(clock, v).contentOffset
  {
    var length := STATIC_LEN + OctetsSize(|v.destination|) + OctetsSize(|v.data|);
    var writer := new Writer();
    writer.PutSlice([PREPARE]);
    writer.PutVarOctetStringLength(length);
    assert writer.bytes == [PREPARE] + PutLength(length);
    contentOffset := |writer.bytes|;
    writer.PutSlice(PutUint(v.amount, AMOUNT_LEN));
    writer.PutSlice(clock.format(v.expiresAt));
    writer.PutSlice(v.condition);
    writer.PutVarOctetString(v.destination);
    writer.PutVarOctetString(v.data);
    bytes := writer.bytes;
    Flatten([PREPARE] + PutLength(length), PutUint(v.amount, AMOUNT_LEN), clock.format(v.expiresAt), v.condition,
            PutOctets(v.destination), PutOctets(v.data));
    Append2([PREPARE], PutLength(length), BuildContent(clock, v));
  }

  class PreparePacket {
    var buffer: array<Byte>
    var contentOffset: nat
    var destination: Text
    var amount: nat
    var expiresAt: int
    var dataOffset: nat

    ghost function Snapshot(): Prepare
      reads this, buffer
    {
      Prepare(buffer[..], contentOffset, destination, amount, expiresAt, dataOffset)
    }

    /** The builder. */
    constructor Build(clock: Clock, v: PrepareView)
      requires IsPrepare(v)
      ensures fresh(buffer) && Snapshot() == BuildPrepare(clock, v)
    {
      var bytes, offset := Fill(clock, v);
      buffer := new Byte[|bytes|](i requires 0 <= i < |bytes| => bytes[i]);
      contentOffset, destination, amount, expiresAt := offset, v.destination, v.amount, v.expiresAt;
      var length := STATIC_LEN + OctetsSize(|v.destination|) + OctetsSize(|v.data|);
      dataOffset := 1 + OctetsSize(length) - OctetsSize(|v.data|);
    }

    constructor Restore(bytes: array<Byte>, p: Prepare)
      requires bytes[..] == p.buffer
      ensures buffer == bytes && Snapshot() == p
    {
      buffer, contentOffset, destination, amount, expiresAt, dataOffset :=
        bytes, p.contentOffset, p.destination, p.amount, p.expiresAt, p.dataOffset;
    }

    /** Overwrites the eight amount bytes and the cached amount. */
    method SetAmount(amount: nat)
      requires contentOffset + AMOUNT_LEN <= buffer.Length
      modifies this`amount, buffer
      ensures Snapshot() == IlpPackets.SetAmount(old(Snapshot()), amount)
    {
      this.amount := amount;
      Overwrite(buffer, contentOffset, PutUint(amount, AMOUNT_LEN));
    }

    /** Overwrites the seventeen expiry bytes and the cached expiry. */
    method SetExpiresAt(clock: Clock, t: int)
      requires |clock.format(t)| == EXPIRY_LEN
      requires contentOffset + AMOUNT_LEN + EXPIRY_LEN <= buffer.Length
      modifies this`expiresAt, buffer
      ensures Snapshot() == IlpPackets.SetExpiresAt(clock, old(Snapshot()), t)
    {
      expiresAt := t;
      Overwrite(buffer, contentOffset + AMOUNT_LEN, clock.format(t));
    }

    method ExecutionCondition(ghost strict: bool) returns (condition: Bytes)
      requires Readable(FormatOf(strict), Snapshot())
      ensures condition == ViewOf(FormatOf(strict), Snapshot()).condition
    {
      var begin := contentOffset + AMOUNT_LEN + EXPIRY_LEN;
      condition := buffer[begin..begin + CONDITION_LEN];
    }

    /** The accessor unwraps: a readable packet never makes it fail. */
    method Data(strict: bool) returns (data: Bytes)
      requires Readable(FormatOf(strict), Snapshot())
      ensures data == ViewOf(FormatOf(strict), Snapshot()).data
    {
      var peek := new Reader(buffer[dataOffset..]);
      assert peek.rest == Snapshot().buffer[dataOffset..];
      var r := peek.ReadVarOctetString(strict);
      data := r.value;
    }
  }

  method CheckDigits(text: Bytes) returns (digits: bool)
    ensures digits <==> AreDigits(text)
  {
    digits := true;
    for i := 0 to |text|
      invariant digits <==> AreDigits(text[..i])
    {
      assert text[..i + 1] == text[..i] + [text[i]];
      digits := digits && 48 <= text[i] <= 57;
    }
    assert text[..|text|] == text;
  }

  method ReadContent(strict: bool, clock: Clock, c: Bytes) returns (r: Result<PrepareContent, DecodeError>)
    ensures r == ParseContent(FormatOf(strict), clock, c)
  {
    if |c| < MIN_PREPARE_LEN {
      return Err(DecodeError.Oer(UnexpectedEof));
    }
    var reader := new Reader(c);
    var amount := reader.Take(AMOUNT_LEN);
    var expiry := reader.Take(EXPIRY_LEN);
    assert expiry == c[8..25];
    var digits := CheckDigits(expiry);
    if !digits {
      return Err(TimestampConversion);
    }
    var expiresAt := clock.parse(expiry);
    if expiresAt.None? {
      return Err(TimestampConversion);
    }
    var _ := reader.Take(CONDITION_LEN);
    assert reader.rest == c[STATIC_LEN..];
    var tail := ReadTail(strict, reader.rest);
    if tail.Err? {
      return Err(tail.error);
    }
    return Ok(PrepareContent(GetUint(amount), expiresAt.value, tail.value.0, STATIC_LEN + tail.value.1));
  }

  /** The packet that an envelope at the given offset and its content make up. */
  function PacketOf(b: Bytes, offset: nat, c: PrepareContent): Prepare {
    Prepare(b, offset, c.destination, c.amount, c.expiresAt, offset + c.dataOffset)
  }

  lemma ParsedInSteps(f: Format, clock: Clock, b: Bytes)
    ensures f.open(b).Err? ==> ParsePrepare(f, clock, b) == Err(f.open(b).error)
    ensures f.open(b).Ok? ==>
              var (offset, content) := f.open(b).value;
              var c := ParseContent(f, clock, content);
              ParsePrepare(f, clock, b) == if c.Err? then Err(c.error) else Ok(PacketOf(b, offset, c.value))
  {
  }

  method Scan(strict: bool, clock: Clock, b: Bytes) returns (r: Result<Prepare, DecodeError>)
    ensures r == ParsePrepare(FormatOf(strict), clock, b)
  {
    ParsedInSteps(FormatOf(strict), clock, b);
    var envelope := DeserializeEnvelope(strict, PREPARE, b);
    assert FormatOf(strict).open(b) == envelope;
    if envelope.Err? {
      return Err(envelope.error);
    }
    var (contentOffset, content) := envelope.value;
    var c := ReadContent(strict, clock, content);
    if c.Err? {
      return Err(c.error);
    }
    return Ok(PacketOf(b, contentOffset, c.value));
  }

  lemma ParsingKeepsTheBuffer(strict: bool, clock: Clock, b: Bytes)
    ensures ParsePrepare(FormatOf(strict), clock, b).Ok? ==> ParsePrepare(FormatOf(strict), clock, b).value.buffer == b
  {
  }

  /** Parsing keeps the given buffer and caches what it says. */
  method TryFrom(strict: bool, clock: Clock, buffer: array<Byte>) returns (r: Result<PreparePacket, DecodeError>)
    ensures r.Ok? ==> fresh(r.value) && r.value.buffer == buffer
    ensures r.Ok? ==> ParsePrepare(FormatOf(strict), clock, buffer[..]) == Ok(r.value.Snapshot())
    ensures r.Err? ==> ParsePrepare(FormatOf(strict), clock, buffer[..]) == Err(r.error)
  {
    var scanned := Scan(strict, clock, buffer[..]);
    if scanned.Err? {
      return Err(scanned.error);
    }
    ParsingKeepsTheBuffer(strict, clock, buffer[..]);
    var packet := new PreparePacket.Restore(buffer, scanned.value);
    return Ok(packet);
  }
}
