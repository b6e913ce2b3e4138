/** What the packet formats share: counted lists, text and fixed-width fields on top of OER. */
module Codec {
  import opened Options
  import opened Text
  import opened Oer

  datatype DecodeError =
    | Oer(error: OerError)
    | UnexpectedMode(byte: Byte)
    | UnexpectedType(got: Byte, expected: Byte)
    | Utf8Conversion
    | AddressInvalid
    | TimestampConversion
    | ErrorCodeConversion
    | TrailingBytes
    | ReservedBits(meta: Byte)

  /** A value decoded from the front of the input, and the rest of the input. */
  type Parsed<T> = Result<(T, Bytes), DecodeError>

  function Lift<T>(r: Read<T>): Parsed<T> {
    match r
    case Ok(v) => Ok(v)
    case Err(e) => Err(Oer(e))
  }

  function Fixed(n: nat, b: Bytes): Parsed<Bytes> {
    if |b| < n then Err(Oer(UnexpectedEof)) else Ok((b[..n], b[n..]))
  }

  lemma Append2(a: Bytes, b: Bytes, c: Bytes)
    ensures (a + b) + c == a + (b + c)
  {
  }

  lemma Append3(a: Bytes, b: Bytes, c: Bytes, d: Bytes)
    ensures (a + (b + c)) + d == a + (b + (c + d))
  {
  }

  lemma Append4(a: Bytes, b: Bytes, c: Bytes, d: Bytes, e: Bytes)
    ensures (a + (b + (c + d))) + e == a + (b + (c + (d + e)))
  {
  }

  // ---------------------------------------------------------------- counted lists

  function EncodeMany<T>(xs: seq<T>, encode: T --> Bytes): Bytes
    requires forall x :: x in xs ==> encode.requires(x)
  {
    if xs == [] then [] else encode(xs[0]) + EncodeMany(xs[1..], encode)
  }

  function DecodeMany<T>(n: nat, b: Bytes, decode: Bytes -> Parsed<T>): Parsed<seq<T>> {
    if n == 0 then Ok(([], b))
    else
      var (x, rest) :- decode(b);
      var (xs, end) :- DecodeMany(n - 1, rest, decode);
      Ok(([x] + xs, end))
  }

  lemma {:induction false} ManyRoundTrip<T>(xs: seq<T>, encode: T --> Bytes, decode: Bytes -> Parsed<T>, rest: Bytes)
    requires forall x :: x in xs ==> encode.requires(x)
    requires forall x, r :: x in xs ==> decode(encode(x) + r) == Ok((x, r))
    ensures DecodeMany(|xs|, EncodeMany(xs, encode) + rest, decode) == Ok((xs, rest))
  {
    if xs != [] {
      var tail := EncodeMany(xs[1..], encode) + rest;
      assert EncodeMany(xs, encode) + rest == encode(xs[0]) + tail;
      assert decode(encode(xs[0]) + tail) == Ok((xs[0], tail));
      ManyRoundTrip(xs[1..], encode, decode, rest);
      assert xs == [xs[0]] + xs[1..];
    } else {
      assert [] + rest == rest;
    }
  }

  lemma {:induction false} ManyAreGood<T>(n: nat, b: Bytes, decode: Bytes -> Parsed<T>, good: T -> bool)
    requires forall c :: decode(c).Ok? ==> good(decode(c).value.0)
    ensures DecodeMany(n, b, decode).Ok? ==>
              var xs := DecodeMany(n, b, decode).value.0;
              |xs| == n && forall x :: x in xs ==> good(x)
  {
    if n > 0 && decode(b).Ok? {
      ManyAreGood(n - 1, decode(b).value.1, decode, good);
    }
  }

  /** If every accepted item is the encoding of its value, every accepted list is. */
  lemma {:induction false} ManyAreCanonical<T>(n: nat, b: Bytes, encode: T --> Bytes, decode: Bytes -> Parsed<T>)
    requires forall c :: decode(c).Ok? ==>
               encode.requires(decode(c).value.0) && c == encode(decode(c).value.0) + decode(c).value.1
    ensures DecodeMany(n, b, decode).Ok? ==>
              var (xs, rest) := DecodeMany(n, b, decode).value;
              |xs| == n && (forall x :: x in xs ==> encode.requires(x)) && b == EncodeMany(xs, encode) + rest
  {
    if DecodeMany(n, b, decode).Ok? {
      if n == 0 {
        assert b == [] + b;
      } else {
        var (x, tail) := decode(b).value;
        ManyAreCanonical(n - 1, tail, encode, decode);
        var (xs, rest) := DecodeMany(n - 1, tail, decode).value;
        assert ([x] + xs)[1..] == xs;
        Append2(encode(x), EncodeMany(xs, encode), rest);
      }
    }
  }

  /** A count followed by that many items. */
  function EncodeCounted<T>(xs: seq<T>, encode: T --> Bytes): (b: Bytes)
    requires |xs| <= U64_MAX && forall x :: x in xs ==> encode.requires(x)
    ensures |b| >= 2
  {
    UintSizeOfU64(|xs|);
    PutVarUint(|xs|) + EncodeMany(xs, encode)
  }

  function DecodeCounted<T>(strict: bool, b: Bytes, decode: Bytes -> Parsed<T>): Parsed<seq<T>> {
    var (n, rest) :- Lift(ReadVarUint(strict, b));
    DecodeMany(n, rest, decode)
  }

  lemma CountedRoundTrip<T>(strict: bool, xs: seq<T>, encode: T --> Bytes, decode: Bytes -> Parsed<T>, rest: Bytes)
    requires |xs| <= U64_MAX && forall x :: x in xs ==> encode.requires(x)
    requires forall x, r :: x in xs ==> decode(encode(x) + r) == Ok((x, r))
    ensures DecodeCounted(strict, EncodeCounted(xs, encode) + rest, decode) == Ok((xs, rest))
  {
    var tail := EncodeMany(xs, encode) + rest;
    assert EncodeCounted(xs, encode) + rest == PutVarUint(|xs|) + tail;
    VarUintRoundTrip(strict, |xs|, tail);
    ManyRoundTrip(xs, encode, decode, rest);
  }

  /** In strict mode a counted list of canonical items is canonical. */
  lemma CountedAreCanonical<T>(b: Bytes, encode: T --> Bytes, decode: Bytes -> Parsed<T>)
    requires forall c :: decode(c).Ok? ==>
               encode.requires(decode(c).value.0) && c == encode(decode(c).value.0) + decode(c).value.1
    ensures DecodeCounted(true, b, decode).Ok? ==>
              var (xs, rest) := DecodeCounted(true, b, decode).value;
              && |xs| <= U64_MAX && (forall x :: x in xs ==> encode.requires(x))
              && b == EncodeCounted(xs, encode) + rest
  {
    if DecodeCounted(true, b, decode).Ok? {
      ReadVarUintBounds(true, b);
      var (n, tail) := ReadVarUint(true, b).value;
      VarUintsAreCanonical(b, n, tail);
      ManyAreCanonical(n, tail, encode, decode);
      var (xs, rest) := DecodeMany(n, tail, decode).value;
      Append2(PutVarUint(n), EncodeMany(xs, encode), rest);
    }
  }

  lemma CountedAreGood<T>(strict: bool, b: Bytes, decode: Bytes -> Parsed<T>, good: T -> bool)
    requires forall c :: decode(c).Ok? ==> good(decode(c).value.0)
    ensures DecodeCounted(strict, b, decode).Ok? ==>
              var xs := DecodeCounted(strict, b, decode).value.0;
              |xs| <= U64_MAX && forall x :: x in xs ==> good(x)
  {
    if DecodeCounted(strict, b, decode).Ok? {
      ReadVarUintBounds(strict, b);
      var (n, rest) := ReadVarUint(strict, b).value;
      ManyAreGood(n, rest, decode, good);
    }
  }

  // ---------------------------------------------------------------- text

  predicate IsText(t: Text) {
    IsUtf8(t) && |t| <= U64_MAX
  }

  function DecodeText(strict: bool, b: Bytes): Parsed<Text> {
    var (t, rest) :- Lift(ReadOctets(strict, b));
    if IsUtf8(t) then Ok((t, rest)) else Err(Utf8Conversion)
  }

  function TextDecoder(strict: bool): Bytes -> Parsed<Text> {
    (b: Bytes) => DecodeText(strict, b)
  }

  function TextEncoder(): Text --> Bytes {
    (t: Text) requires |t| <= U64_MAX => PutOctets(t)
  }

  function IsTextPredicate(): Text -> bool {
    (t: Text) => IsText(t)
  }

  lemma TextRoundTrip(strict: bool, t: Text, rest: Bytes)
    requires IsText(t)
    ensures DecodeText(strict, PutOctets(t) + rest) == Ok((t, rest))
  {
    OctetsRoundTrip(strict, t, rest);
  }

  lemma DecodedTextIsText(strict: bool, b: Bytes)
    ensures DecodeText(strict, b).Ok? ==> IsText(DecodeText(strict, b).value.0)
  {
    ReadOctetsBounds(strict, b);
  }

  function DecodeAddress(strict: bool, b: Bytes): Parsed<Text> {
    var (a, rest) :- Lift(ReadOctets(strict, b));
    if IsAddress(a) then Ok((a, rest)) else Err(AddressInvalid)
  }

  lemma AddressRoundTrip(strict: bool, a: Text, rest: Bytes)
    requires IsAddress(a)
    ensures DecodeAddress(strict, PutOctets(a) + rest) == Ok((a, rest))
    ensures |PutOctets(a)| >= 4
  {
    AddressIsAtLeastThreeBytes(a);
    OctetsRoundTrip(strict, a, rest);
  }

  predicate AreTexts(ts: seq<Text>) {
    |ts| <= U64_MAX && forall t :: t in ts ==> IsText(t)
  }

  function EncodeTexts(ts: seq<Text>): Bytes
    requires AreTexts(ts)
  {
    EncodeCounted(ts, TextEncoder())
  }

  function DecodeTexts(strict: bool, b: Bytes): Parsed<seq<Text>> {
    DecodeCounted(strict, b, TextDecoder(strict))
  }

  lemma TextsRoundTrip(strict: bool, ts: seq<Text>, rest: Bytes)
    requires AreTexts(ts)
    ensures DecodeTexts(strict, EncodeTexts(ts) + rest) == Ok((ts, rest))
  {
    forall t, r | t in ts ensures TextDecoder(strict)(TextEncoder()(t) + r) == Ok((t, r)) {
      TextRoundTrip(strict, t, r);
    }
    CountedRoundTrip(strict, ts, TextEncoder(), TextDecoder(strict), rest);
  }

  lemma DecodedTextsAreTexts(strict: bool, b: Bytes)
    ensures DecodeTexts(strict, b).Ok? ==> AreTexts(DecodeTexts(strict, b).value.0)
  {
    if DecodeTexts(strict, b).Ok? {
      forall c ensures TextDecoder(strict)(c).Ok? ==> IsTextPredicate()(TextDecoder(strict)(c).value.0) {
        DecodedTextIsText(strict, c);
      }
      CountedAreGood(strict, b, TextDecoder(strict), IsTextPredicate());
      forall t | t in DecodeTexts(strict, b).value.0 ensures IsText(t) {
        assert IsTextPredicate()(t);
      }
    }
  }

  predicate IsU32(v: nat) {
    v < 0x1_0000_0000
  }

  /** `get_u32` */
  function GetU32(b: Bytes): (nat, Bytes)
    requires |b| >= 4
  {
    (GetUint(b[..4]), b[4..])
  }

  lemma Pow256Of4()
    ensures Pow256(4) == 0x1_0000_0000
  {
    assert Pow256(2) == 256 * Pow256(1) && Pow256(1) == 256;
    assert Pow256(4) == 256 * Pow256(3) && Pow256(3) == 256 * Pow256(2);
  }

  lemma U32RoundTrip(v: nat, rest: Bytes)
    requires IsU32(v)
    ensures GetU32(PutUint(v, 4) + rest) == (v, rest)
  {
    Pow256Of4();
    GetPutUint(v, 4);
    assert (PutUint(v, 4) + rest)[..4] == PutUint(v, 4);
  }

  lemma GetU32Fits(b: Bytes)
    requires |b| >= 4
    ensures IsU32(GetU32(b).0)
  {
    Pow256Of4();
    PutGetUint(b[..4]);
  }

  lemma FixedRoundTrip(a: Bytes, rest: Bytes)
    ensures Fixed(|a|, a + rest) == Ok((a, rest))
  {
  }

  // ---------------------------------------------------------------- counted loops

  /** What remains to be decoded, with what was decoded before put in front. */
  function Prepend<T>(before: seq<T>, r: Parsed<seq<T>>): Parsed<seq<T>> {
    match r
    case Ok((xs, rest)) => Ok((before + xs, rest))
    case Err(e) => Err(e)
  }

  lemma PrependNothing<T>(r: Parsed<seq<T>>)
    ensures Prepend([], r) == r
  {
    if r.Ok? {
      assert [] + r.value.0 == r.value.0;
    }
  }

  /** One more item moves from what remains to what was decoded. */
  lemma DecodeManyStep<T>(before: seq<T>, n: nat, b: Bytes, decode: Bytes -> Parsed<T>)
    requires n > 0
    ensures decode(b).Err? ==> Prepend(before, DecodeMany(n, b, decode)) == Err(decode(b).error)
    ensures decode(b).Ok? ==>
              Prepend(before, DecodeMany(n, b, decode)) ==
              Prepend(before + [decode(b).value.0], DecodeMany(n - 1, decode(b).value.1, decode))
  {
    if decode(b).Ok? {
      var r := DecodeMany(n - 1, decode(b).value.1, decode);
      if r.Ok? {
        assert before + ([decode(b).value.0] + r.value.0) == before + [decode(b).value.0] + r.value.0;
      }
    }
  }

  lemma DecodeManyDone<T>(before: seq<T>, b: Bytes, decode: Bytes -> Parsed<T>)
    ensures Prepend(before, DecodeMany(0, b, decode)) == Ok((before, b))
  {
    assert before + [] == before;
  }

  /** `many` decodes lists of what `decode` decodes; a loop proved with it does not see how. */
  ghost predicate IsListDecoder<T(!new)>(many: (nat, Bytes) -> Parsed<seq<T>>, decode: Bytes -> Parsed<T>) {
    forall n, b {:trigger DecodeMany(n, b, decode)} :: many(n, b) == DecodeMany(n, b, decode)
  }

  lemma ListDone<T(!new)>(many: (nat, Bytes) -> Parsed<seq<T>>, decode: Bytes -> Parsed<T>, before: seq<T>, b: Bytes)
    requires IsListDecoder(many, decode)
    ensures Prepend(before, many(0, b)) == Ok((before, b))
  {
    DecodeManyDone(before, b, decode);
  }

  lemma {:induction false} EncodeManySnoc<T>(xs: seq<T>, x: T, encode: T --> Bytes)
    requires encode.requires(x) && forall y :: y in xs ==> encode.requires(y)
    ensures EncodeMany(xs + [x], encode) == EncodeMany(xs, encode) + encode(x)
  {
    if xs == [] {
      assert xs + [x] == [x];
      assert EncodeMany([x], encode) == encode(x) + EncodeMany([], encode);
    } else {
      EncodeManySnoc(xs[1..], x, encode);
      assert (xs + [x])[1..] == xs[1..] + [x];
    }
  }

  lemma EncodeManyNext<T>(start: Bytes, xs: seq<T>, i: nat, encode: T --> Bytes)
    requires i < |xs| && forall y :: y in xs ==> encode.requires(y)
    ensures start + EncodeMany(xs[..i + 1], encode) == start + EncodeMany(xs[..i], encode) + encode(xs[i])
  {
    EncodeManySnoc(xs[..i], xs[i], encode);
    assert xs[..i + 1] == xs[..i] + [xs[i]];
    Append2(start, EncodeMany(xs[..i], encode), encode(xs[i]));
  }


  method ReadText(reader: Reader, strict: bool) returns (r: Result<Text, DecodeError>)
    modifies reader
    ensures r.Ok? ==> DecodeText(strict, old(reader.rest)) == Ok((r.value, reader.rest))
    ensures r.Err? ==> DecodeText(strict, old(reader.rest)) == Err(r.error)
  {
    var octets := reader.ReadVarOctetString(strict);
    if octets.Err? {
      return Err(DecodeError.Oer(octets.error));
    }
    if !IsUtf8(octets.value) {
      return Err(Utf8Conversion);
    }
    return Ok(octets.value);
  }
}
