/** ILPv4 packets (Interledger RFC 27): a mutable byte buffer beside cached fields and offsets.
    The `strict` build feature is a flag. */
module IlpPackets {
  import opened Options
  import opened Text
  import opened Oer
  import opened Codec

  const PREPARE: Byte := 12
  const FULFILL: Byte := 13
  const REJECT: Byte := 14

  const AMOUNT_LEN := 8
  const EXPIRY_LEN := 17
  const CONDITION_LEN := 32
  const STATIC_LEN := 57
  const FULFILLMENT_LEN := 32
  const ERROR_CODE_LEN := 3
  const MIN_PREPARE_LEN := 57 + 4 + 1
  const MIN_REJECT_LEN := 3 + 3

  // ---------------------------------------------------------------- the envelope

  /** Overwrites the bytes from `at` on with `s`. */
  function Splice(b: Bytes, at: nat, s: Bytes): (r: Bytes)
    requires at + |s| <= |b|
    ensures |r| == |b|
  {
    b[..at] + s + b[at + |s|..]
  }

  function Wrap(kind: Byte, content: Bytes): Bytes
    requires |content| <= U64_MAX
  {
    [kind] + PutOctets(content)
  }

  /** The offset of the content in the buffer, and the content. */
  function Envelope(strict: bool, kind: Byte, b: Bytes): Result<(nat, Bytes), DecodeError> {
    if |b| < 1 then Err(Oer(UnexpectedEof))
    else if b[0] != kind then Err(UnexpectedType(b[0], kind))
    else
      match ReadLength(strict, b[1..])
      case Err(e) => Err(Oer(e))
      case Ok((n, after)) =>
        if |after| < n then Err(Oer(UnexpectedEof))
        else if strict && n < |after| then Err(TrailingBytes)
        else
          ReadLengthBounds(strict, b[1..]);
          Ok((|b| - |after|, after[..n]))
  }

  lemma EnvelopeOfWrap(strict: bool, kind: Byte, content: Bytes)
    requires |content| <= U64_MAX
    ensures Envelope(strict, kind, Wrap(kind, content)) == Ok((1 + |PutLength(|content|)|, content))
  {
    var b := Wrap(kind, content);
    assert b[1..] == PutLength(|content|) + content;
    LengthRoundTrip(strict, |content|, content);
    assert content[..|content|] == content;
  }

  /** The content lies in the buffer at its offset. */
  lemma EnvelopeHoldsContent(strict: bool, kind: Byte, b: Bytes)
    ensures Envelope(strict, kind, b).Ok? ==>
              var (at, content) := Envelope(strict, kind, b).value;
              0 < at && at + |content| <= |b| && b[at..at + |content|] == content && |content| <= U64_MAX
  {
    if Envelope(strict, kind, b).Ok? {
      var after := ReadLength(strict, b[1..]).value.1;
      ReadLengthBounds(strict, b[1..]);
      ReadLengthIsLocal(strict, b[1..], after);
      assert b[|b| - |after|..] == after;
    }
  }

  lemma SpliceAfter(b: Bytes, after: Bytes, at: nat, s: Bytes)
    requires |after| < |b| && b[|b| - |after|..] == after && |b| - |after| <= at && at + |s| <= |b|
    ensures Splice(b, at, s)[1..] == b[1..][..|b| - 1 - |after|] + Splice(after, at - (|b| - |after|), s)
  {
  }

  lemma SpliceTake(b: Bytes, n: nat, at: nat, s: Bytes)
    requires at + |s| <= n <= |b|
    ensures Splice(b, at, s)[..n] == Splice(b[..n], at, s)
  {
  }

  lemma EnvelopeSteps(strict: bool, kind: Byte, b: Bytes, n: nat, after: Bytes)
    requires |b| >= 1 && b[0] == kind && ReadLength(strict, b[1..]) == Ok((n, after))
    requires n <= |after| < |b| && (strict ==> n == |after|)
    ensures Envelope(strict, kind, b) == Ok((|b| - |after|, after[..n]))
  {
  }

  lemma LengthOfSplice(strict: bool, b: Bytes, n: nat, after: Bytes, at: nat, s: Bytes)
    requires |b| >= 1 && ReadLength(strict, b[1..]) == Ok((n, after)) && |after| < |b|
    requires |b| - |after| <= at && at + |s| <= |b|
    ensures ReadLength(strict, Splice(b, at, s)[1..]) == Ok((n, Splice(after, at - (|b| - |after|), s)))
  {
    ReadLengthIsLocal(strict, b[1..], Splice(after, at - (|b| - |after|), s));
    assert b[|b| - |after|..] == after;
    SpliceAfter(b, after, at, s);
  }

  /** Overwriting content bytes moves no boundary. */
  lemma EnvelopeSplice(strict: bool, kind: Byte, b: Bytes, at: nat, s: Bytes)
    requires Envelope(strict, kind, b).Ok?
    requires Envelope(strict, kind, b).value.0 <= at
    requires at + |s| <= Envelope(strict, kind, b).value.0 + |Envelope(strict, kind, b).value.1| <= |b|
    ensures var (offset, content) := Envelope(strict, kind, b).value;
            Envelope(strict, kind, Splice(b, at, s)) == Ok((offset, Splice(content, at - offset, s)))
  {
    ReadLengthBounds(strict, b[1..]);
    var (n, after) := ReadLength(strict, b[1..]).value;
    var offset := |b| - |after|;
    LengthOfSplice(strict, b, n, after, at, s);
    EnvelopeSteps(strict, kind, Splice(b, at, s), n, Splice(after, at - offset, s));
    SpliceTake(after, n, at - offset, s);
  }

  /** A strict envelope has only one form. */
  lemma EnvelopeIsCanonical(kind: Byte, b: Bytes)
    requires Envelope(true, kind, b).Ok?
    ensures var content := Envelope(true, kind, b).value.1;
            |content| <= U64_MAX && b == Wrap(kind, content)
  {
    var (n, after) := ReadLength(true, b[1..]).value;
    LengthIsCanonical(b[1..]);
    assert after[..n] == after;
    assert b == [b[0]] + b[1..];
  }

  /** An octet string that ends before the input does is read the same without what follows. */
  lemma ReadOctetsIsLocal(strict: bool, b: Bytes, more: Bytes)
    requires ReadOctets(strict, b).Ok?
    ensures ReadOctets(strict, b + more) == Ok((ReadOctets(strict, b).value.0, ReadOctets(strict, b).value.1 + more))
  {
    var (n, after) := ReadLength(strict, b).value;
    ReadLengthIsLocal(strict, b, after + more);
    assert b[..|b| - |after|] + (after + more) == b + more;
    assert (after + more)[..n] == after[..n] && (after + more)[n..] == after[n..] + more;
  }

  // ---------------------------------------------------------------- timestamps

  /** The date library: instants in nanoseconds, written as 17 characters down to the millisecond. It
      can write the instants it covers. */
  datatype Clock = Clock(format: int -> Bytes, parse: Bytes -> Option<int>, covers: int -> bool)

  function Truncate(t: int): int {
    t - t % 1_000_000
  }

  /** The last whole millisecond that is not after `t`. */
  lemma TruncateIsToTheMillisecond(t: int)
    ensures Truncate(t) <= t < Truncate(t) + 1_000_000 && exists k :: Truncate(t) == 1_000_000 * k
  {
    assert Truncate(t) == 1_000_000 * (t / 1_000_000);
  }

  predicate AreDigits(b: Bytes) {
    forall i :: 0 <= i < |b| ==> 48 <= b[i] <= 57
  }

  ghost predicate Lawful(clock: Clock) {
    && (forall t :: clock.covers(t) ==>
          && |clock.format(t)| == EXPIRY_LEN && AreDigits(clock.format(t))
          && clock.parse(clock.format(t)) == Some(Truncate(t)))
    && (forall b :: clock.parse(b).Some? ==> Truncate(clock.parse(b).value) == clock.parse(b).value)
  }

  /** The milliseconds as seventeen decimal digits: one lawful clock among others. */
  function PutDigits(v: nat, n: nat): (b: Bytes)
    ensures |b| == n && AreDigits(b)
  {
    if n == 0 then [] else PutDigits(v / 10, n - 1) + [48 + v % 10]
  }

  function GetDigits(b: Bytes): nat
    requires AreDigits(b)
  {
    if b == [] then 0 else 10 * GetDigits(b[..|b| - 1]) + (b[|b| - 1] - 48)
  }

  function Pow10(n: nat): nat {
    if n == 0 then 1 else 10 * Pow10(n - 1)
  }

  lemma {:induction false} GetPutDigits(v: nat, n: nat)
    requires v < Pow10(n)
    ensures GetDigits(PutDigits(v, n)) == v
  {
    if n > 0 {
      assert v / 10 < Pow10(n - 1);
      GetPutDigits(v / 10, n - 1);
      assert PutDigits(v, n)[..n - 1] == PutDigits(v / 10, n - 1);
    }
  }

  function DecimalClock(width: nat): Clock {
    Clock(t => if t >= 0 then PutDigits(t / 1_000_000, width) else [],
          b => if AreDigits(b) then Some(1_000_000 * GetDigits(b)) else None,
          t => 0 <= t && t / 1_000_000 < Pow10(width))
  }

  lemma DecimalTime(t: nat, width: nat)
    requires t / 1_000_000 < Pow10(width)
    ensures 1_000_000 * GetDigits(PutDigits(t / 1_000_000, width)) == Truncate(t)
  {
    GetPutDigits(t / 1_000_000, width);
  }

  /** The laws asked of the date library can be met. */
  lemma DecimalClockIsLawful(width: nat)
    requires width == EXPIRY_LEN
    ensures Lawful(DecimalClock(width)) && DecimalClock(width).covers(0)
  {
    var clock := DecimalClock(width);
    forall t | clock.covers(t)
      ensures |clock.format(t)| == EXPIRY_LEN && AreDigits(clock.format(t))
      ensures clock.parse(clock.format(t)) == Some(Truncate(t))
    {
      DecimalClockReadsBack(width, t);
    }
    forall b | clock.parse(b).Some? ensures Truncate(clock.parse(b).value) == clock.parse(b).value {
      WholeMilliseconds(GetDigits(b));
    }
    Pow10IsPositive(width);
  }

  lemma DecimalClockReadsBack(width: nat, t: int)
    requires DecimalClock(width).covers(t)
    ensures var b := DecimalClock(width).format(t);
            |b| == width && AreDigits(b) && DecimalClock(width).parse(b) == Some(Truncate(t))
  {
    DecimalTime(t, width);
  }

  lemma WholeMilliseconds(n: nat)
    ensures Truncate(1_000_000 * n) == 1_000_000 * n
  {
  }

  lemma {:induction false} Pow10IsPositive(n: nat)
    ensures Pow10(n) > 0
  {
    if n > 0 {
      Pow10IsPositive(n - 1);
    }
  }

  // ---------------------------------------------------------------- the parts of a Prepare

  datatype Prepare = Prepare(
    buffer: Bytes, contentOffset: nat, destination: Text, amount: nat, expiresAt: int, dataOffset: nat)

  /** What a Prepare says; also what its builder takes. */
  datatype PrepareView = PrepareView(amount: nat, expiresAt: int, condition: Bytes, destination: Text, data: Bytes)

  datatype PrepareContent = PrepareContent(amount: nat, expiresAt: int, destination: Text, dataOffset: nat)

  /** What follows the fixed-width fields: the destination, and where the data starts. */
  function ParseTail(strict: bool, c: Bytes): Result<(Text, nat), DecodeError> {
    var (destination, tail) :- DecodeAddress(strict, c);
    var (_, rest) :- Lift(ReadOctets(strict, tail));
    if strict && rest != [] then Err(TrailingBytes)
    else
      ReadOctetsBounds(strict, c);
      Ok((destination, |c| - |tail|))
  }

  /** The readers a Prepare is taken apart with. */
  datatype Format = Format(
    open: Bytes -> Result<(nat, Bytes), DecodeError>,
    tail: Bytes -> Result<(Text, nat), DecodeError>,
    read: Bytes -> Read<Bytes>)

  function FormatOf(strict: bool): Format {
    Format((b: Bytes) => Envelope(strict, PREPARE, b),
           (c: Bytes) => ParseTail(strict, c),
           (b: Bytes) => ReadOctets(strict, b))
  }

  function ParseContent(f: Format, clock: Clock, c: Bytes): Result<PrepareContent, DecodeError> {
    if |c| < MIN_PREPARE_LEN then Err(Oer(UnexpectedEof))
    else if !AreDigits(c[8..25]) then Err(TimestampConversion)
    else if clock.parse(c[8..25]).None? then Err(TimestampConversion)
    else
      var (destination, at) :- f.tail(c[STATIC_LEN..]);
      Ok(PrepareContent(GetUint(c[..8]), clock.parse(c[8..25]).value, destination, STATIC_LEN + at))
  }

  function ParsePrepare(f: Format, clock: Clock, b: Bytes): Result<Prepare, DecodeError> {
    var (offset, content) :- f.open(b);
    var c :- ParseContent(f, clock, content);
    Ok(Prepare(b, offset, c.destination, c.amount, c.expiresAt, offset + c.dataOffset))
  }

  predicate Readable(f: Format, p: Prepare) {
    && p.contentOffset + STATIC_LEN <= p.dataOffset <= |p.buffer|
    && f.read(p.buffer[p.dataOffset..]).Ok?
  }

  function ViewOf(f: Format, p: Prepare): PrepareView
    requires Readable(f, p)
  {
    PrepareView(p.amount, p.expiresAt, p.buffer[p.contentOffset + 25..p.contentOffset + STATIC_LEN], p.destination,
                f.read(p.buffer[p.dataOffset..]).value.0)
  }

  /** The cached fields are what parsing the buffer gives, the expiry to the millisecond. */
  predicate Agrees(f: Format, clock: Clock, p: Prepare) {
    ParsePrepare(f, clock, p.buffer) == Ok(p.(expiresAt := Truncate(p.expiresAt)))
  }

  // ---------------------------------------------------------------- what the readers promise

  predicate Holds(b: Bytes, offset: nat, content: Bytes) {
    0 < offset && offset + |content| <= |b| && |content| <= U64_MAX && b[offset..offset + |content|] == content
  }

  /** The content lies where the envelope says, and overwriting part of it moves no boundary. */
  ghost predicate OpensInPlace(f: Format) {
    && (forall b :: f.open(b).Ok? ==> Holds(b, f.open(b).value.0, f.open(b).value.1))
    && (forall b, at, s {:trigger f.open(Splice(b, at, s))} ::
          && f.open(b).Ok? && f.open(b).value.0 <= at
          && at + |s| <= f.open(b).value.0 + |f.open(b).value.1| <= |b|
          ==> f.open(Splice(b, at, s)) == Ok((f.open(b).value.0, Splice(f.open(b).value.1, at - f.open(b).value.0, s))))
  }

  /** What follows the destination is an octet string, read the same whatever comes after it. */
  ghost predicate EndsInData(f: Format) {
    && (forall c :: f.tail(c).Ok? ==> f.tail(c).value.1 <= |c| && f.read(c[f.tail(c).value.1..]).Ok?)
    && (forall b, more {:trigger f.read(b + more)} ::
          f.read(b).Ok? ==> f.read(b + more).Ok? && f.read(b + more).value.0 == f.read(b).value.0)
  }

  /** What is written is read back. */
  ghost predicate ReadsBack(f: Format) {
    && (forall c {:trigger f.open(Wrap(PREPARE, c))} ::
          |c| <= U64_MAX ==> f.open(Wrap(PREPARE, c)) == Ok((1 + |PutLength(|c|)|, c)))
    && (forall a, d {:trigger f.tail(PutOctets(a) + PutOctets(d))} ::
          IsAddress(a) && |d| <= U64_MAX ==> f.tail(PutOctets(a) + PutOctets(d)) == Ok((a, |PutOctets(a)|)))
    && (forall d {:trigger f.read(PutOctets(d))} :: |d| <= U64_MAX ==> f.read(PutOctets(d)) == Ok((d, [])))
  }

  lemma BothModesOpenInPlace(strict: bool)
    ensures OpensInPlace(FormatOf(strict))
  {
    var f := FormatOf(strict);
    forall b | f.open(b).Ok? ensures Holds(b, f.open(b).value.0, f.open(b).value.1) {
      EnvelopeHoldsContent(strict, PREPARE, b);
    }
    forall b, at: nat, s |
      && f.open(b).Ok? && f.open(b).value.0 <= at
      && at + |s| <= f.open(b).value.0 + |f.open(b).value.1| <= |b|
      ensures f.open(Splice(b, at, s)) == Ok((f.open(b).value.0, Splice(f.open(b).value.1, at - f.open(b).value.0, s)))
    {
      EnvelopeSplice(strict, PREPARE, b, at, s);
    }
  }

  lemma ReadOctetsLeaves(strict: bool, b: Bytes)
    requires ReadOctets(strict, b).Ok?
    ensures var rest := ReadOctets(strict, b).value.1;
            |rest| <= |b| && b[|b| - |rest|..] == rest
  {
    var (n, after) := ReadLength(strict, b).value;
    ReadLengthBounds(strict, b);
    ReadLengthIsLocal(strict, b, after);
    assert b[|b| - |after|..] == after;
  }

  lemma BothModesEndInData(strict: bool)
    ensures EndsInData(FormatOf(strict))
  {
    var f := FormatOf(strict);
    forall c | f.tail(c).Ok? ensures f.tail(c).value.1 <= |c| && f.read(c[f.tail(c).value.1..]).Ok? {
      ReadOctetsLeaves(strict, c);
    }
    forall b, more | f.read(b).Ok? ensures f.read(b + more).Ok? && f.read(b + more).value.0 == f.read(b).value.0 {
      ReadOctetsIsLocal(strict, b, more);
    }
  }

  lemma TailRoundTrip(strict: bool, a: Text, d: Bytes)
    requires IsAddress(a) && |d| <= U64_MAX
    ensures ParseTail(strict, PutOctets(a) + PutOctets(d)) == Ok((a, |PutOctets(a)|))
  {
    AddressRoundTrip(strict, a, PutOctets(d));
    OctetsRoundTrip(strict, d, []);
    assert PutOctets(d) + [] == PutOctets(d);
  }

  lemma BothModesReadBack(strict: bool)
    ensures ReadsBack(FormatOf(strict))
  {
    var f := FormatOf(strict);
    forall c | |c| <= U64_MAX ensures f.open(Wrap(PREPARE, c)) == Ok((1 + |PutLength(|c|)|, c)) {
      EnvelopeOfWrap(strict, PREPARE, c);
    }
    forall a, d | IsAddress(a) && |d| <= U64_MAX
      ensures f.tail(PutOctets(a) + PutOctets(d)) == Ok((a, |PutOctets(a)|))
    {
      TailRoundTrip(strict, a, d);
    }
    forall d | |d| <= U64_MAX ensures f.read(PutOctets(d)) == Ok((d, [])) {
      OctetsRoundTrip(strict, d, []);
      assert PutOctets(d) + [] == PutOctets(d);
    }
  }

  /** What strict mode accepts after the fixed-width fields is a destination and data, and no more. */
  lemma TailIsCanonical(c: Bytes)
    requires ParseTail(true, c).Ok?
    ensures var (destination, at) := ParseTail(true, c).value;
            && IsAddress(destination) && at <= |c| && ReadOctets(true, c[at..]).Ok?
            && |ReadOctets(true, c[at..]).value.0| <= U64_MAX
            && c == PutOctets(destination) + PutOctets(ReadOctets(true, c[at..]).value.0)
  {
    var (destination, tail) := DecodeAddress(true, c).value;
    OctetsAreCanonical(c, destination, tail);
    ReadOctetsLeaves(true, c);
    var (data, rest) := ReadOctets(true, tail).value;
    ReadOctetsBounds(true, tail);
    OctetsAreCanonical(tail, data, rest);
    assert PutOctets(data) + [] == PutOctets(data);
  }

  // ---------------------------------------------------------------- reading

  lemma PeekInside(f: Format, b: Bytes, offset: nat, content: Bytes, at: nat)
    requires EndsInData(f) && Holds(b, offset, content)
    requires at <= |content| && f.read(content[at..]).Ok?
    ensures f.read(b[offset + at..]).Ok? && f.read(b[offset + at..]).value.0 == f.read(content[at..]).value.0
  {
    var more := b[offset + |content|..];
    assert b[offset + at..] == content[at..] + more;
  }

  /** The accessors of a packet whose cache agrees never fail. */
  lemma AgreeingIsReadable(f: Format, clock: Clock, p: Prepare)
    requires OpensInPlace(f) && EndsInData(f) && Agrees(f, clock, p)
    ensures Readable(f, p)
  {
    var (offset, content) := f.open(p.buffer).value;
    var at := p.dataOffset - offset;
    assert content[STATIC_LEN..][at - STATIC_LEN..] == content[at..];
    PeekInside(f, p.buffer, offset, content, at);
  }

  // ---------------------------------------------------------------- the setters

  function SetAmount(p: Prepare, amount: nat): Prepare
    requires p.contentOffset + AMOUNT_LEN <= |p.buffer|
  {
    p.(amount := amount, buffer := Splice(p.buffer, p.contentOffset, PutUint(amount, AMOUNT_LEN)))
  }

  function SetExpiresAt(clock: Clock, p: Prepare, t: int): Prepare
    requires |clock.format(t)| == EXPIRY_LEN
    requires p.contentOffset + AMOUNT_LEN + EXPIRY_LEN <= |p.buffer|
  {
    p.(expiresAt := t, buffer := Splice(p.buffer, p.contentOffset + AMOUNT_LEN, clock.format(t)))
  }

  lemma SpliceFirst(c: Bytes, s: Bytes)
    requires |s| == AMOUNT_LEN && STATIC_LEN <= |c|
    ensures var c' := Splice(c, 0, s);
            c'[..8] == s && c'[8..25] == c[8..25] && c'[STATIC_LEN..] == c[STATIC_LEN..]
  {
  }

  lemma SpliceSecond(c: Bytes, s: Bytes)
    requires |s| == EXPIRY_LEN && STATIC_LEN <= |c|
    ensures var c' := Splice(c, AMOUNT_LEN, s);
            c'[..8] == c[..8] && c'[8..25] == s && c'[STATIC_LEN..] == c[STATIC_LEN..]
  {
  }

  lemma AmountRoundTrip(amount: nat)
    requires amount <= U64_MAX
    ensures GetUint(PutUint(amount, AMOUNT_LEN)) == amount
  {
    Pow256Of8();
    GetPutUint(amount, 8);
  }

  lemma ContentWithAmount(f: Format, clock: Clock, c: Bytes, amount: nat)
    requires ParseContent(f, clock, c).Ok? && amount <= U64_MAX
    ensures ParseContent(f, clock, Splice(c, 0, PutUint(amount, AMOUNT_LEN)))
         == Ok(ParseContent(f, clock, c).value.(amount := amount))
  {
    AmountRoundTrip(amount);
    SpliceFirst(c, PutUint(amount, AMOUNT_LEN));
  }

  lemma ContentWithExpiry(f: Format, clock: Clock, c: Bytes, t: int)
    requires Lawful(clock) && clock.covers(t) && ParseContent(f, clock, c).Ok?
    ensures ParseContent(f, clock, Splice(c, AMOUNT_LEN, clock.format(t)))
         == Ok(ParseContent(f, clock, c).value.(expiresAt := Truncate(t)))
  {
    SpliceSecond(c, clock.format(t));
  }

  /** `set_amount` keeps cache and buffer in agreement. */
  lemma SetAmountAgrees(f: Format, clock: Clock, p: Prepare, amount: nat)
    requires OpensInPlace(f) && Agrees(f, clock, p) && amount <= U64_MAX
    requires p.contentOffset + AMOUNT_LEN <= |p.buffer|
    ensures Agrees(f, clock, SetAmount(p, amount))
  {
    ContentWithAmount(f, clock, f.open(p.buffer).value.1, amount);
    assert f.open(Splice(p.buffer, p.contentOffset, PutUint(amount, AMOUNT_LEN))).Ok?;
  }

  /** `set_expires_at` keeps cache and buffer in agreement. */
  lemma SetExpiresAtAgrees(f: Format, clock: Clock, p: Prepare, t: int)
    requires OpensInPlace(f) && Lawful(clock) && Agrees(f, clock, p) && clock.covers(t)
    requires p.contentOffset + AMOUNT_LEN + EXPIRY_LEN <= |p.buffer|
    ensures Agrees(f, clock, SetExpiresAt(clock, p, t))
  {
    ContentWithExpiry(f, clock, f.open(p.buffer).value.1, t);
    assert f.open(Splice(p.buffer, p.contentOffset + AMOUNT_LEN, clock.format(t))).Ok?;
  }

  /** Bytes overwritten below the condition leave condition and data alone. */
  lemma SpliceKeepsTail(p: Prepare, at: nat, s: Bytes)
    requires p.contentOffset + STATIC_LEN <= p.dataOffset <= |p.buffer|
    requires p.contentOffset <= at && at + |s| <= p.contentOffset + 25
    ensures var b := Splice(p.buffer, at, s);
            && b[p.dataOffset..] == p.buffer[p.dataOffset..]
            && b[p.contentOffset + 25..p.contentOffset + STATIC_LEN]
               == p.buffer[p.contentOffset + 25..p.contentOffset + STATIC_LEN]
  {
  }

  /** `set_amount` changes the amount and no other field. */
  lemma SetAmountChangesAmount(f: Format, p: Prepare, amount: nat)
    requires Readable(f, p)
    ensures Readable(f, SetAmount(p, amount))
    ensures ViewOf(f, SetAmount(p, amount)) == ViewOf(f, p).(amount := amount)
  {
    SpliceKeepsTail(p, p.contentOffset, PutUint(amount, AMOUNT_LEN));
  }

  /** `set_expires_at` changes the expiry and no other field. */
  lemma SetExpiresAtChangesExpiry(f: Format, clock: Clock, p: Prepare, t: int)
    requires Readable(f, p) && |clock.format(t)| == EXPIRY_LEN
    ensures Readable(f, SetExpiresAt(clock, p, t))
    ensures ViewOf(f, SetExpiresAt(clock, p, t)) == ViewOf(f, p).(expiresAt := t)
  {
    SpliceKeepsTail(p, p.contentOffset + AMOUNT_LEN, clock.format(t));
  }

  // ---------------------------------------------------------------- building

  function PrepareContentLength(v: PrepareView): nat {
    STATIC_LEN + OctetsSize(|v.destination|) + OctetsSize(|v.data|)
  }

  predicate IsPrepare(v: PrepareView) {
    && v.amount <= U64_MAX && |v.condition| == CONDITION_LEN && IsAddress(v.destination)
    && PrepareContentLength(v) <= U64_MAX
  }

  function BuildTail(v: PrepareView): Bytes
    requires IsPrepare(v)
  {
    PutOctets(v.destination) + PutOctets(v.data)
  }

  function BuildContent(clock: Clock, v: PrepareView): Bytes
    requires IsPrepare(v)
  {
    PutUint(v.amount, AMOUNT_LEN) + (clock.format(v.expiresAt) + (v.condition + BuildTail(v)))
  }

  function BuildPrepare(clock: Clock, v: PrepareView): Prepare
    requires IsPrepare(v)
  {
    var length := PrepareContentLength(v);
    var buffer := [PREPARE] + (PutLength(length) + BuildContent(clock, v));
    Prepare(buffer, 1 + |PutLength(length)|, v.destination, v.amount, v.expiresAt,
            1 + OctetsSize(length) - OctetsSize(|v.data|))
  }

  lemma TailLength(v: PrepareView)
    requires IsPrepare(v)
    ensures |BuildTail(v)| == OctetsSize(|v.destination|) + OctetsSize(|v.data|) >= 5
    ensures |PutOctets(v.destination)| == OctetsSize(|v.destination|)
  {
    OctetsSizeIsExact(v.destination);
    OctetsSizeIsExact(v.data);
    AddressIsAtLeastThreeBytes(v.destination);
  }

  lemma ContentSlices(a: Bytes, e: Bytes, k: Bytes, tail: Bytes)
    requires |a| == AMOUNT_LEN && |e| == EXPIRY_LEN && |k| == CONDITION_LEN
    ensures var c := a + (e + (k + tail));
            && |c| == STATIC_LEN + |tail| && c[..8] == a && c[8..25] == e
            && c[25..STATIC_LEN] == k && c[STATIC_LEN..] == tail
  {
  }

  lemma ParseBuiltContent(f: Format, clock: Clock, v: PrepareView)
    requires ReadsBack(f) && Lawful(clock) && clock.covers(v.expiresAt) && IsPrepare(v)
    ensures |BuildContent(clock, v)| == PrepareContentLength(v)
    ensures ParseContent(f, clock, BuildContent(clock, v))
         == Ok(PrepareContent(v.amount, Truncate(v.expiresAt), v.destination, STATIC_LEN + |PutOctets(v.destination)|))
  {
    ContentSlices(PutUint(v.amount, AMOUNT_LEN), clock.format(v.expiresAt), v.condition, BuildTail(v));
    AmountRoundTrip(v.amount);
    TailLength(v);
  }

  lemma ParsePrepareSteps(f: Format, clock: Clock, p: Prepare, content: Bytes)
    requires f.open(p.buffer) == Ok((p.contentOffset, content)) && p.contentOffset <= p.dataOffset
    requires ParseContent(f, clock, content)
          == Ok(PrepareContent(p.amount, p.expiresAt, p.destination, p.dataOffset - p.contentOffset))
    ensures ParsePrepare(f, clock, p.buffer) == Ok(p)
  {
  }

  lemma SplitAt(head: Bytes, x: Bytes, lo: nat, hi: nat)
    requires lo <= hi <= |x|
    ensures (head + x)[|head| + lo..|head| + hi] == x[lo..hi]
    ensures (head + x)[|head| + lo..] == x[lo..]
  {
  }

  lemma BuiltOffsets(clock: Clock, v: PrepareView)
    requires IsPrepare(v) && |clock.format(v.expiresAt)| == EXPIRY_LEN
    ensures var p := BuildPrepare(clock, v);
            && p.dataOffset == p.contentOffset + STATIC_LEN + |PutOctets(v.destination)| <= |p.buffer|
            && p.buffer[p.contentOffset + 25..p.contentOffset + STATIC_LEN] == v.condition
            && p.buffer[p.dataOffset..] == PutOctets(v.data)
  {
    var p, c, n := BuildPrepare(clock, v), BuildContent(clock, v), |PutOctets(v.destination)|;
    var head := [PREPARE] + PutLength(PrepareContentLength(v));
    TailLength(v);
    ContentSlices(PutUint(v.amount, AMOUNT_LEN), clock.format(v.expiresAt), v.condition, BuildTail(v));
    Append2([PREPARE], PutLength(PrepareContentLength(v)), c);
    SplitAt(head, c, 25, STATIC_LEN);
    SplitAt(head, c, STATIC_LEN + n, STATIC_LEN + n);
    assert c[STATIC_LEN + n..] == c[STATIC_LEN..][n..];
  }

  lemma BuiltViewIsInput(f: Format, clock: Clock, v: PrepareView)
    requires ReadsBack(f) && IsPrepare(v) && |clock.format(v.expiresAt)| == EXPIRY_LEN
    ensures Readable(f, BuildPrepare(clock, v)) && ViewOf(f, BuildPrepare(clock, v)) == v
  {
    BuiltOffsets(clock, v);
  }

  /** A built packet says what it was built from, and its cache agrees with its buffer. */
  lemma BuiltAgrees(f: Format, clock: Clock, v: PrepareView)
    requires ReadsBack(f) && Lawful(clock) && clock.covers(v.expiresAt) && IsPrepare(v)
    ensures Agrees(f, clock, BuildPrepare(clock, v))
    ensures Readable(f, BuildPrepare(clock, v)) && ViewOf(f, BuildPrepare(clock, v)) == v
  {
    var p, c := BuildPrepare(clock, v), BuildContent(clock, v);
    ParseBuiltContent(f, clock, v);
    BuiltOffsets(clock, v);
    assert p.buffer == Wrap(PREPARE, c);
    ParsePrepareSteps(f, clock, p.(expiresAt := Truncate(p.expiresAt)), c);
    BuiltViewIsInput(f, clock, v);
  }

  /** A parsed packet agrees with its buffer. */
  lemma ParsedAgrees(f: Format, clock: Clock, b: Bytes)
    requires Lawful(clock) && ParsePrepare(f, clock, b).Ok?
    ensures Agrees(f, clock, ParsePrepare(f, clock, b).value)
  {
  }

  // ---------------------------------------------------------------- any sequence of changes

  datatype Change = Amount(amount: nat) | ExpiresAt(t: int)

  predicate Possible(clock: Clock, c: Change) {
    match c
    case Amount(a) => a <= U64_MAX
    case ExpiresAt(t) => clock.covers(t) && |clock.format(t)| == EXPIRY_LEN
  }

  function Changed(clock: Clock, p: Prepare, c: Change): (r: Prepare)
    requires Possible(clock, c)
    requires p.contentOffset + STATIC_LEN <= |p.buffer|
    ensures |r.buffer| == |p.buffer| && r.contentOffset == p.contentOffset
  {
    match c
    case Amount(a) => SetAmount(p, a)
    case ExpiresAt(t) => SetExpiresAt(clock, p, t)
  }

  function ChangedAll(clock: Clock, p: Prepare, cs: seq<Change>): Prepare
    requires forall c :: c in cs ==> Possible(clock, c)
    requires p.contentOffset + STATIC_LEN <= |p.buffer|
    decreases |cs|
  {
    if cs == [] then p else ChangedAll(clock, Changed(clock, p, cs[0]), cs[1..])
  }

  function ChangedView(v: PrepareView, cs: seq<Change>): PrepareView
    decreases |cs|
  {
    if cs == [] then v
    else ChangedView(if cs[0].Amount? then v.(amount := cs[0].amount) else v.(expiresAt := cs[0].t), cs[1..])
  }

  lemma ChangeAgrees(f: Format, clock: Clock, p: Prepare, c: Change)
    requires OpensInPlace(f) && Lawful(clock) && Agrees(f, clock, p) && Readable(f, p) && Possible(clock, c)
    ensures Agrees(f, clock, Changed(clock, p, c)) && Readable(f, Changed(clock, p, c))
    ensures ViewOf(f, Changed(clock, p, c)) == ChangedView(ViewOf(f, p), [c])
  {
    match c
    case Amount(a) =>
      SetAmountAgrees(f, clock, p, a);
      SetAmountChangesAmount(f, p, a);
    case ExpiresAt(t) =>
      SetExpiresAtAgrees(f, clock, p, t);
      SetExpiresAtChangesExpiry(f, clock, p, t);
  }

  /** After any sequence of setter calls the cache still agrees with the buffer and every field shows
      its last setting. */
  lemma {:induction false} ChangesAgree(f: Format, clock: Clock, p: Prepare, cs: seq<Change>)
    requires OpensInPlace(f) && Lawful(clock) && Agrees(f, clock, p) && Readable(f, p)
    requires forall c :: c in cs ==> Possible(clock, c)
    ensures Agrees(f, clock, ChangedAll(clock, p, cs))
    ensures Readable(f, ChangedAll(clock, p, cs))
    ensures ViewOf(f, ChangedAll(clock, p, cs)) == ChangedView(ViewOf(f, p), cs)
    decreases |cs|
  {
    if cs != [] {
      var c := cs[0];
      assert Possible(clock, c);
      ChangeAgrees(f, clock, p, c);
      ChangesAgree(f, clock, Changed(clock, p, c), cs[1..]);
    }
  }

  /** How a packet comes to be. */
  datatype Origin = Built(view: PrepareView) | Parsed(bytes: Bytes)

  ghost predicate Comes(f: Format, clock: Clock, origin: Origin, p: Prepare) {
    match origin
    case Built(v) => IsPrepare(v) && clock.covers(v.expiresAt) && p == BuildPrepare(clock, v)
    case Parsed(b) => ParsePrepare(f, clock, b) == Ok(p)
  }

  lemma OriginAgrees(f: Format, clock: Clock, origin: Origin, p: Prepare)
    requires OpensInPlace(f) && EndsInData(f) && ReadsBack(f) && Lawful(clock) && Comes(f, clock, origin, p)
    ensures Agrees(f, clock, p) && Readable(f, p)
  {
    if origin.Built? {
      BuiltAgrees(f, clock, origin.view);
    } else {
      ParsedAgrees(f, clock, origin.bytes);
      AgreeingIsReadable(f, clock, p);
    }
  }

  /** Reparsing gives a packet with the same offsets that says the same, the expiry to the millisecond. */
  ghost predicate ReparsesTo(f: Format, clock: Clock, p: Prepare, v: PrepareView) {
    && Readable(f, p) && ViewOf(f, p) == v
    && ParsePrepare(f, clock, p.buffer).Ok?
    && var again := ParsePrepare(f, clock, p.buffer).value;
       && again.contentOffset == p.contentOffset && again.dataOffset == p.dataOffset
       && Readable(f, again) && ViewOf(f, again) == v.(expiresAt := Truncate(v.expiresAt))
  }

  lemma AgreeingReparses(f: Format, clock: Clock, p: Prepare)
    requires Agrees(f, clock, p) && Readable(f, p)
    ensures ReparsesTo(f, clock, p, ViewOf(f, p))
  {
  }

  /** Whether it was built or parsed, in either mode, and whatever the setters then wrote: the packet
      shows the last setting of every field, and so does a packet parsed from its buffer. */
  lemma CacheAlwaysAgrees(strict: bool, clock: Clock, origin: Origin, p: Prepare, cs: seq<Change>)
    requires Lawful(clock) && Comes(FormatOf(strict), clock, origin, p)
    requires forall c :: c in cs ==> Possible(clock, c)
    ensures Readable(FormatOf(strict), p)
    ensures ReparsesTo(FormatOf(strict), clock, ChangedAll(clock, p, cs), ChangedView(ViewOf(FormatOf(strict), p), cs))
  {
    BothModesOpenInPlace(strict);
    BothModesEndInData(strict);
    BothModesReadBack(strict);
    CacheAgreesIn(FormatOf(strict), clock, origin, p, cs);
  }

  lemma CacheAgreesIn(f: Format, clock: Clock, origin: Origin, p: Prepare, cs: seq<Change>)
    requires OpensInPlace(f) && EndsInData(f) && ReadsBack(f) && Lawful(clock) && Comes(f, clock, origin, p)
    requires forall c :: c in cs ==> Possible(clock, c)
    ensures Readable(f, p)
    ensures ReparsesTo(f, clock, ChangedAll(clock, p, cs), ChangedView(ViewOf(f, p), cs))
  {
    OriginAgrees(f, clock, origin, p);
    ChangesAgree(f, clock, p, cs);
    AgreeingReparses(f, clock, ChangedAll(clock, p, cs));
  }

  // ---------------------------------------------------------------- strict packets re-encode

  lemma SameStart(a: Bytes, x: Bytes, y: Bytes)
    ensures a + x == a + y <==> x == y
  {
    assert (a + x)[|a|..] == x && (a + y)[|a|..] == y;
  }

  lemma SameEnd(x: Bytes, y: Bytes, a: Bytes)
    ensures x + a == y + a <==> x == y
  {
    if x + a == y + a {
      assert |x| == |y| && (x + a)[..|x|] == x && (y + a)[..|x|] == y;
    }
  }

  lemma SliceOfSlice(b: Bytes, offset: nat, content: Bytes, lo: nat, hi: nat)
    requires Holds(b, offset, content) && lo <= hi <= |content|
    ensures b[offset + lo..offset + hi] == content[lo..hi]
  {
    forall i | lo <= i < hi ensures b[offset + i] == content[i] {
      assert content[i] == b[offset..offset + |content|][i];
    }
  }

  predicate HasFields(c: Bytes, v: PrepareView) {
    && IsPrepare(v) && STATIC_LEN <= |c| == PrepareContentLength(v)
    && c[..8] == PutUint(v.amount, AMOUNT_LEN) && c[25..STATIC_LEN] == v.condition
    && c[STATIC_LEN..] == BuildTail(v)
  }

  lemma RebuiltContent(clock: Clock, v: PrepareView, c: Bytes)
    requires HasFields(c, v)
    ensures BuildPrepare(clock, v).buffer == [PREPARE] + (PutLength(|c|) + c) <==> clock.format(v.expiresAt) == c[8..25]
  {
    var e, end := clock.format(v.expiresAt), v.condition + BuildTail(v);
    assert c == c[..8] + (c[8..25] + (c[25..STATIC_LEN] + c[STATIC_LEN..]));
    SameStart([PREPARE], PutLength(|c|) + BuildContent(clock, v), PutLength(|c|) + c);
    SameStart(PutLength(|c|), BuildContent(clock, v), c);
    SameStart(PutUint(v.amount, AMOUNT_LEN), e + end, c[8..25] + end);
    SameEnd(e, c[8..25], end);
  }

  lemma FieldsFit(c: Bytes, v: PrepareView)
    requires STATIC_LEN <= |c| <= U64_MAX && v.amount == GetUint(c[..8])
    requires IsAddress(v.destination) && |v.data| <= U64_MAX
    requires c[25..STATIC_LEN] == v.condition
    requires c[STATIC_LEN..] == PutOctets(v.destination) + PutOctets(v.data)
    ensures HasFields(c, v)
  {
    PutGetUint(c[..8]);
    Pow256Of8();
    OctetsSizeIsExact(v.destination);
    OctetsSizeIsExact(v.data);
    assert |c| == STATIC_LEN + |c[STATIC_LEN..]|;
  }

  lemma ViewFromContent(f: Format, p: Prepare, content: Bytes, at: nat)
    requires EndsInData(f) && Readable(f, p) && Holds(p.buffer, p.contentOffset, content)
    requires STATIC_LEN <= at <= |content| && p.dataOffset == p.contentOffset + at && f.read(content[at..]).Ok?
    ensures ViewOf(f, p).condition == content[25..STATIC_LEN] && ViewOf(f, p).data == f.read(content[at..]).value.0
  {
    PeekInside(f, p.buffer, p.contentOffset, content, at);
    SliceOfSlice(p.buffer, p.contentOffset, content, 25, STATIC_LEN);
  }

  /** Where a strictly accepted content has its destination and data. */
  predicate HasTail(f: Format, p: Prepare, content: Bytes, at: nat) {
    && STATIC_LEN <= at <= |content| && p.dataOffset == p.contentOffset + at && f.read(content[at..]).Ok?
    && IsAddress(p.destination) && |f.read(content[at..]).value.0| <= U64_MAX
    && content[STATIC_LEN..] == PutOctets(p.destination) + PutOctets(f.read(content[at..]).value.0)
  }

  lemma AcceptedHasFields(f: Format, p: Prepare, content: Bytes, at: nat)
    requires EndsInData(f) && Readable(f, p) && Holds(p.buffer, p.contentOffset, content)
    requires HasTail(f, p, content, at) && p.amount == GetUint(content[..8])
    ensures HasFields(content, ViewOf(f, p))
  {
    ViewFromContent(f, p, content, at);
    FieldsFit(content, ViewOf(f, p));
  }

  lemma AcceptedParts(f: Format, clock: Clock, b: Bytes, p: Prepare)
    requires ParsePrepare(f, clock, b) == Ok(p)
    ensures var content := f.open(b).value.1;
            && p.buffer == b && STATIC_LEN <= |content| && p.amount == GetUint(content[..8])
            && p.contentOffset == f.open(b).value.0 && p.contentOffset + STATIC_LEN <= p.dataOffset
            && f.tail(content[STATIC_LEN..]) == Ok((p.destination, p.dataOffset - p.contentOffset - STATIC_LEN))
  {
    var (offset, content) := f.open(b).value;
    var (destination, at) := f.tail(content[STATIC_LEN..]).value;
    assert ParseContent(f, clock, content).value.dataOffset == STATIC_LEN + at;
  }

  predicate SplitsTail(f: Format, c: Bytes, destination: Text, at: nat) {
    && at <= |c| && f.read(c[at..]).Ok? && IsAddress(destination) && |f.read(c[at..]).value.0| <= U64_MAX
    && c == PutOctets(destination) + PutOctets(f.read(c[at..]).value.0)
  }

  /** Whatever is accepted has only one form. */
  ghost predicate Canonical(f: Format) {
    && (forall c :: f.tail(c).Ok? ==> SplitsTail(f, c, f.tail(c).value.0, f.tail(c).value.1))
    && (forall b :: f.open(b).Ok? ==> |f.open(b).value.1| <= U64_MAX && b == Wrap(PREPARE, f.open(b).value.1))
  }

  lemma StrictIsCanonical()
    ensures Canonical(FormatOf(true))
  {
    var f := FormatOf(true);
    forall c | f.tail(c).Ok? ensures SplitsTail(f, c, f.tail(c).value.0, f.tail(c).value.1) {
      TailIsCanonical(c);
    }
    forall b | f.open(b).Ok? ensures |f.open(b).value.1| <= U64_MAX && b == Wrap(PREPARE, f.open(b).value.1) {
      EnvelopeIsCanonical(PREPARE, b);
    }
  }

  lemma TailOfContent(f: Format, p: Prepare, content: Bytes)
    requires STATIC_LEN <= |content| && p.contentOffset + STATIC_LEN <= p.dataOffset
    requires SplitsTail(f, content[STATIC_LEN..], p.destination, p.dataOffset - p.contentOffset - STATIC_LEN)
    ensures HasTail(f, p, content, p.dataOffset - p.contentOffset)
  {
    var at := p.dataOffset - p.contentOffset;
    assert content[STATIC_LEN..][at - STATIC_LEN..] == content[at..];
  }

  lemma AcceptedReencodes(f: Format, clock: Clock, p: Prepare, content: Bytes)
    requires EndsInData(f) && Readable(f, p) && Holds(p.buffer, p.contentOffset, content)
    requires p.buffer == Wrap(PREPARE, content) && HasFields(content, ViewOf(f, p))
    ensures BuildPrepare(clock, ViewOf(f, p)).buffer == p.buffer <==>
            clock.format(p.expiresAt) == p.buffer[p.contentOffset + 8..p.contentOffset + 25]
  {
    SliceOfSlice(p.buffer, p.contentOffset, content, 8, 25);
    RebuiltContent(clock, ViewOf(f, p), content);
  }

  /** In strict mode, rebuilding what an accepted packet says gives its bytes back if and only if the
      date library writes the expiry the way it was received. */
  lemma AcceptedPrepareReencodes(clock: Clock, b: Bytes, p: Prepare)
    requires Lawful(clock) && ParsePrepare(FormatOf(true), clock, b) == Ok(p)
    ensures Readable(FormatOf(true), p) && IsPrepare(ViewOf(FormatOf(true), p)) && p.contentOffset + STATIC_LEN <= |b|
    ensures BuildPrepare(clock, ViewOf(FormatOf(true), p)).buffer == b <==>
            clock.format(p.expiresAt) == b[p.contentOffset + 8..p.contentOffset + 25]
  {
    BothModesOpenInPlace(true);
    BothModesEndInData(true);
    StrictIsCanonical();
    AcceptedIn(FormatOf(true), clock, b, p);
  }

  lemma AcceptedTail(f: Format, clock: Clock, b: Bytes, p: Prepare)
    requires Canonical(f) && ParsePrepare(f, clock, b) == Ok(p)
    ensures var content := f.open(b).value.1;
            && p.buffer == b == Wrap(PREPARE, content) && p.contentOffset == f.open(b).value.0 <= p.dataOffset
            && HasTail(f, p, content, p.dataOffset - p.contentOffset) && p.amount == GetUint(content[..8])
  {
    AcceptedParts(f, clock, b, p);
    TailOfContent(f, p, f.open(b).value.1);
  }

  lemma AcceptedShape(f: Format, clock: Clock, p: Prepare, content: Bytes)
    requires EndsInData(f) && Readable(f, p) && Holds(p.buffer, p.contentOffset, content)
    requires p.buffer == Wrap(PREPARE, content) && p.amount == GetUint(content[..8])
    requires HasTail(f, p, content, p.dataOffset - p.contentOffset)
    ensures IsPrepare(ViewOf(f, p))
    ensures BuildPrepare(clock, ViewOf(f, p)).buffer == p.buffer <==>
            clock.format(p.expiresAt) == p.buffer[p.contentOffset + 8..p.contentOffset + 25]
  {
    AcceptedHasFields(f, p, content, p.dataOffset - p.contentOffset);
    AcceptedReencodes(f, clock, p, content);
  }

  lemma AcceptedIn(f: Format, clock: Clock, b: Bytes, p: Prepare)
    requires OpensInPlace(f) && EndsInData(f) && Canonical(f) && Lawful(clock) && ParsePrepare(f, clock, b) == Ok(p)
    ensures Readable(f, p) && IsPrepare(ViewOf(f, p)) && p.contentOffset + STATIC_LEN <= |b|
    ensures BuildPrepare(clock, ViewOf(f, p)).buffer == b <==>
            clock.format(p.expiresAt) == b[p.contentOffset + 8..p.contentOffset + 25]
  {
    ParsedAgrees(f, clock, b);
    AgreeingIsReadable(f, clock, p);
    AcceptedTail(f, clock, b, p);
    AcceptedShape(f, clock, p, f.open(b).value.1);
  }
}
