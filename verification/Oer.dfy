/** The octet encoding rules used by every packet format: big-endian integers, length
    determinants, octet strings and variable-length unsigned integers
    (Interledger RFC 30, Notes on OER Encoding).
    Readers take the `strict` build feature as a flag. */
module Oer {
  import opened Options
  import opened Text

  type Bytes = seq<Byte>

  datatype OerError =
    | UnexpectedEof
    | IndefiniteLength
    | LengthTooLarge
    | LeadingZeros
    | StrictLeadingZeros
    | UintZeroLength
    | UintTooLarge

  /** A value read from the front of the input, and the rest of the input. */
  type Read<T> = Result<(T, Bytes), OerError>

  // ---------------------------------------------------------------- fixed-width integers

  function Pow256(n: nat): (p: nat)
    ensures p >= 1
  {
    if n == 0 then 1 else 256 * Pow256(n - 1)
  }

  /** The low `n` bytes of `v`, most significant first. */
  function PutUint(v: nat, n: nat): (b: Bytes)
    ensures |b| == n
  {
    if n == 0 then [] else PutUint(v / 256, n - 1) + [v % 256]
  }

  function GetUint(b: Bytes): nat {
    if b == [] then 0 else 256 * GetUint(b[..|b| - 1]) + b[|b| - 1]
  }

  lemma {:induction false} GetPutUint(v: nat, n: nat)
    requires v < Pow256(n)
    ensures GetUint(PutUint(v, n)) == v
  {
    if n > 0 {
      assert v / 256 < Pow256(n - 1);
      GetPutUint(v / 256, n - 1);
      assert PutUint(v, n)[..n - 1] == PutUint(v / 256, n - 1);
    }
  }

  lemma {:induction false} PutGetUint(b: Bytes)
    ensures PutUint(GetUint(b), |b|) == b
    ensures GetUint(b) < Pow256(|b|)
  {
    if b != [] {
      PutGetUint(b[..|b| - 1]);
      assert GetUint(b) / 256 == GetUint(b[..|b| - 1]) && GetUint(b) % 256 == b[|b| - 1];
    }
  }

  /** The leading byte decides whether the number needs all its bytes. */
  lemma {:induction false} LeadingByte(b: Bytes)
    requires b != []
    ensures GetUint(b) < Pow256(|b| - 1) <==> b[0] == 0
  {
    if |b| > 1 {
      LeadingByte(b[..|b| - 1]);
      assert b[..|b| - 1][0] == b[0];
      assert Pow256(|b| - 1) == 256 * Pow256(|b| - 2);
    } else {
      assert b[..0] == [];
    }
  }

  // ---------------------------------------------------------------- the size of an integer

  /** `value | 1` */
  function OrOne(v: nat): nat {
    if v % 2 == 0 then v + 1 else v
  }

  /** `64 - value.leading_zeros()` */
  function BitLength(v: nat): nat {
    if v == 0 then 0 else 1 + BitLength(v / 2)
  }

  /** `predict_var_uint_size`: the bit length rounded up to bytes. */
  function UintSize(v: nat): nat {
    (BitLength(OrOne(v)) + 7) / 8
  }

  function Pow2(n: nat): (p: nat)
    ensures p >= 1
  {
    if n == 0 then 1 else 2 * Pow2(n - 1)
  }

  lemma {:induction false} BitLengthBounds(v: nat)
    requires v > 0
    ensures BitLength(v) >= 1
    ensures Pow2(BitLength(v) - 1) <= v < Pow2(BitLength(v))
  {
    if v > 1 {
      BitLengthBounds(v / 2);
      assert Pow2(BitLength(v)) == 2 * Pow2(BitLength(v / 2));
    } else {
      assert BitLength(1) == 1 + BitLength(0);
    }
  }

  lemma {:induction false} Pow2Monotone(a: nat, b: nat)
    requires a <= b
    ensures Pow2(a) <= Pow2(b)
  {
    if a < b {
      Pow2Monotone(a, b - 1);
    }
  }

  lemma {:induction false} Pow256IsPow2(n: nat)
    ensures Pow256(n) == Pow2(8 * n)
  {
    if n > 0 {
      Pow256IsPow2(n - 1);
      var k := 8 * (n - 1);
      assert Pow2(k + 2) == 4 * Pow2(k);
      assert Pow2(k + 4) == 4 * Pow2(k + 2);
      assert Pow2(k + 6) == 4 * Pow2(k + 4);
      assert Pow2(k + 8) == 4 * Pow2(k + 6);
    }
  }

  lemma {:induction false} Pow256Monotone(a: nat, b: nat)
    requires a <= b
    ensures Pow256(a) <= Pow256(b)
  {
    if a < b {
      Pow256Monotone(a, b - 1);
    }
  }

  lemma UintSizeFits(v: nat)
    ensures UintSize(v) >= 1 && v < Pow256(UintSize(v))
  {
    var x, size := OrOne(v), UintSize(v);
    BitLengthBounds(x);
    Pow256IsPow2(size);
    Pow2Monotone(BitLength(x), 8 * size);
  }

  lemma OrOneStaysBelow(v: nat, half: nat)
    requires v < 2 * half
    ensures OrOne(v) < 2 * half
  {
  }

  lemma UintSizeIsMinimal(v: nat, n: nat)
    requires 1 <= n && v < Pow256(n)
    ensures UintSize(v) <= n
  {
    var x := OrOne(v);
    assert Pow256(n) == 2 * (128 * Pow256(n - 1));
    OrOneStaysBelow(v, 128 * Pow256(n - 1));
    BitLengthBounds(x);
    Pow256IsPow2(n);
    if 8 * n <= BitLength(x) - 1 {
      Pow2Monotone(8 * n, BitLength(x) - 1);
    }
  }

  /** The predicted size is the least n >= 1 with v < 256^n. */
  lemma UintSizeIsLeast(v: nat)
    ensures UintSize(v) >= 1 && v < Pow256(UintSize(v))
    ensures forall n :: 1 <= n && v < Pow256(n) ==> UintSize(v) <= n
  {
    UintSizeFits(v);
    forall n | 1 <= n && v < Pow256(n) ensures UintSize(v) <= n {
      UintSizeIsMinimal(v, n);
    }
  }

  lemma Pow256Of8()
    ensures Pow256(8) == U64_MAX + 1
  {
    assert Pow256(4) == 0x1_0000_0000;
    assert Pow256(8) == 0x1_0000_0000 * Pow256(4);
  }

  lemma UintSizeOfU64(v: nat)
    requires v <= U64_MAX
    ensures 1 <= UintSize(v) <= 8
  {
    UintSizeIsLeast(v);
    Pow256Of8();
  }

  /** A byte string has the predicted size for its number exactly if it has no leading zero byte;
      a single byte always does. */
  lemma SizeOnWire(b: Bytes)
    requires b != []
    ensures |b| == UintSize(GetUint(b)) <==> |b| == 1 || b[0] != 0
  {
    var v := GetUint(b);
    PutGetUint(b);
    LeadingByte(b);
    UintSizeIsLeast(v);
    if |b| > 1 && b[0] == 0 {
      assert UintSize(v) <= |b| - 1;
    } else if UintSize(v) < |b| {
      Pow256Monotone(UintSize(v), |b| - 1);
    }
  }

  // ---------------------------------------------------------------- length determinants

  function PutLength(n: nat): Bytes
    requires n <= U64_MAX
  {
    if n < 128 then [n]
    else
      UintSizeOfU64(n);
      [128 + UintSize(n)] + PutUint(n, UintSize(n))
  }

  function ReadLength(strict: bool, b: Bytes): Read<nat> {
    if |b| < 1 then Err(UnexpectedEof)
    else if b[0] < 128 then Ok((b[0], b[1..]))
    else
      var k := b[0] - 128;
      if k > 8 then Err(LengthTooLarge)
      else if k == 0 then Err(IndefiniteLength)
      else if |b| - 1 < k then Err(UnexpectedEof)
      else
        var uint := GetUint(b[1..1 + k]);
        if strict && k != UintSize(uint) then Err(StrictLeadingZeros)
        else if k == 1 && uint < 128 then Err(LeadingZeros)
        else Ok((uint, b[1 + k..]))
  }

  /** What is written as a length is read back, in both modes. */
  lemma LengthRoundTrip(strict: bool, n: nat, rest: Bytes)
    requires n <= U64_MAX
    ensures ReadLength(strict, PutLength(n) + rest) == Ok((n, rest))
  {
    var b := PutLength(n) + rest;
    if n >= 128 {
      UintSizeOfU64(n);
      UintSizeIsLeast(n);
      var k := UintSize(n);
      GetPutUint(n, k);
      assert b[1..1 + k] == PutUint(n, k);
      assert b[1 + k..] == rest;
    } else {
      assert b[1..] == rest;
    }
  }

  lemma OneByteSize(n: nat)
    requires n < 256
    ensures UintSize(n) == 1
  {
    assert Pow256(1) == 256;
    UintSizeFits(n);
    UintSizeIsMinimal(n, 1);
  }

  lemma LongLengthIsCanonical(digits: Bytes, n: nat)
    requires 1 <= |digits| <= 8 && n == GetUint(digits) <= U64_MAX
    requires |digits| == UintSize(n) && !(|digits| == 1 && n < 128)
    ensures PutLength(n) == [128 + |digits|] + digits
  {
    PutGetUint(digits);
    if n < 128 {
      OneByteSize(n);
    }
  }

  /** In strict mode a length has only one encoding. */
  lemma LengthIsCanonical(b: Bytes)
    requires ReadLength(true, b).Ok?
    ensures var (n, rest) := ReadLength(true, b).value;
            n <= U64_MAX && b == PutLength(n) + rest
  {
    var (n, rest) := ReadLength(true, b).value;
    ReadLengthBounds(true, b);
    if b[0] >= 128 {
      var k := b[0] - 128;
      LongLengthIsCanonical(b[1..1 + k], n);
      assert b == ([b[0]] + b[1..1 + k]) + b[1 + k..];
    } else {
      assert b == [b[0]] + b[1..];
    }
  }

  /** A length read is a 64-bit number, and the cursor moves forward. */
  lemma ReadLengthBounds(strict: bool, b: Bytes)
    ensures ReadLength(strict, b).Ok? ==>
              ReadLength(strict, b).value.0 <= U64_MAX && |ReadLength(strict, b).value.1| < |b|
  {
    if ReadLength(strict, b).Ok? && b[0] >= 128 {
      var k := b[0] - 128;
      PutGetUint(b[1..1 + k]);
      Pow256Monotone(k, 8);
      Pow256Of8();
    }
  }

  /** The lenient reader accepts more than the strict one exactly when a multi-byte length starts with
      a zero byte. */
  lemma LenientAcceptsLeadingZeros(b: Bytes)
    ensures ReadLength(false, b).Ok? && ReadLength(true, b).Err?
       <==> |b| >= 3 && 130 <= b[0] <= 136 && |b| > b[0] - 128 && b[1] == 0
    ensures ReadLength(true, b).Ok? ==> ReadLength(false, b) == ReadLength(true, b)
  {
    if |b| >= 1 && b[0] > 128 && b[0] <= 136 && |b| - 1 >= b[0] - 128 {
      var k := b[0] - 128;
      SizeOnWire(b[1..1 + k]);
      assert b[1..1 + k][0] == b[1];
    }
  }

  /** Reading a length only looks at the bytes it consumes. */
  lemma ReadLengthIsLocal(strict: bool, b: Bytes, rest': Bytes)
    requires ReadLength(strict, b).Ok?
    ensures var (n, rest) := ReadLength(strict, b).value;
            var c := |b| - |rest|;
            && 0 < c && b[c..] == rest
            && ReadLength(strict, b[..c] + rest') == Ok((n, rest'))
  {
    ReadLengthBounds(strict, b);
    var (n, rest) := ReadLength(strict, b).value;
    var c := |b| - |rest|;
    var b' := b[..c] + rest';
    assert b'[c..] == rest' && b'[0] == b[0];
    if b[0] >= 128 {
      assert b'[1..c] == b[1..c];
    }
  }

  // ---------------------------------------------------------------- octet strings

  function PutOctets(s: Bytes): Bytes
    requires |s| <= U64_MAX
  {
    PutLength(|s|) + s
  }

  /** `predict_var_octet_string` */
  function OctetsSize(length: nat): nat {
    if length < 128 then 1 + length else 1 + UintSize(length) + length
  }

  lemma OctetsSizeIsExact(s: Bytes)
    requires |s| <= U64_MAX
    ensures |PutOctets(s)| == OctetsSize(|s|)
  {
  }

  function ReadOctets(strict: bool, b: Bytes): Read<Bytes> {
    match ReadLength(strict, b)
    case Err(e) => Err(e)
    case Ok((n, rest)) =>
      if |rest| < n then Err(UnexpectedEof) else Ok((rest[..n], rest[n..]))
  }

  lemma OctetsRoundTrip(strict: bool, s: Bytes, rest: Bytes)
    requires |s| <= U64_MAX
    ensures ReadOctets(strict, PutOctets(s) + rest) == Ok((s, rest))
  {
    assert PutOctets(s) + rest == PutLength(|s|) + (s + rest);
    LengthRoundTrip(strict, |s|, s + rest);
  }

  /** Strict octet strings are canonical: reading gives (s, rest) if and only if the input is the
      encoding of s followed by rest. */
  lemma OctetsAreCanonical(b: Bytes, s: Bytes, rest: Bytes)
    requires |s| <= U64_MAX
    ensures ReadOctets(true, b) == Ok((s, rest)) <==> b == PutOctets(s) + rest
  {
    if ReadOctets(true, b) == Ok((s, rest)) {
      LengthIsCanonical(b);
      var (n, tail) := ReadLength(true, b).value;
      assert tail == s + rest;
      assert PutLength(n) + (s + rest) == PutOctets(s) + rest;
    }
    if b == PutOctets(s) + rest {
      OctetsRoundTrip(true, s, rest);
    }
  }

  lemma ReadOctetsBounds(strict: bool, b: Bytes)
    ensures ReadOctets(strict, b).Ok? ==>
              var (s, rest) := ReadOctets(strict, b).value;
              |s| <= U64_MAX && |s| + |rest| < |b|
  {
    ReadLengthBounds(strict, b);
  }

  // ---------------------------------------------------------------- variable-length integers

  function PutVarUint(v: nat): Bytes
    requires v <= U64_MAX
  {
    UintSizeOfU64(v);
    PutLength(UintSize(v)) + PutUint(v, UintSize(v))
  }

  function ReadVarUint(strict: bool, b: Bytes): Read<nat> {
    match ReadLength(strict, b)
    case Err(e) => Err(e)
    case Ok((size, rest)) =>
      if size == 0 then Err(UintZeroLength)
      else if size > 8 then Err(UintTooLarge)
      else if |rest| < size then Err(UnexpectedEof)
      else
        var uint := GetUint(rest[..size]);
        if strict && size != UintSize(uint) then Err(StrictLeadingZeros)
        else Ok((uint, rest[size..]))
  }

  lemma VarUintRoundTrip(strict: bool, v: nat, rest: Bytes)
    requires v <= U64_MAX
    ensures ReadVarUint(strict, PutVarUint(v) + rest) == Ok((v, rest))
  {
    UintSizeOfU64(v);
    UintSizeIsLeast(v);
    var size := UintSize(v);
    var tail := PutUint(v, size) + rest;
    assert PutVarUint(v) + rest == PutLength(size) + tail;
    LengthRoundTrip(strict, size, tail);
    GetPutUint(v, size);
    assert tail[..size] == PutUint(v, size) && tail[size..] == rest;
  }

  lemma ReadVarUintBounds(strict: bool, b: Bytes)
    ensures ReadVarUint(strict, b).Ok? ==>
              ReadVarUint(strict, b).value.0 <= U64_MAX && |ReadVarUint(strict, b).value.1| < |b|
  {
    ReadLengthBounds(strict, b);
    if ReadVarUint(strict, b).Ok? {
      var (size, rest) := ReadLength(strict, b).value;
      PutGetUint(rest[..size]);
      Pow256Monotone(size, 8);
      Pow256Of8();
    }
  }

  /** Strict variable-length integers are canonical too. */
  lemma VarUintsAreCanonical(b: Bytes, v: nat, rest: Bytes)
    requires v <= U64_MAX
    ensures ReadVarUint(true, b) == Ok((v, rest)) <==> b == PutVarUint(v) + rest
  {
    if ReadVarUint(true, b) == Ok((v, rest)) {
      LengthIsCanonical(b);
      var (size, tail) := ReadLength(true, b).value;
      PutGetUint(tail[..size]);
      assert tail == PutUint(v, size) + rest;
      assert PutLength(size) + (PutUint(v, size) + rest) == PutVarUint(v) + rest;
    }
    if b == PutVarUint(v) + rest {
      VarUintRoundTrip(true, v, rest);
    }
  }

  // ---------------------------------------------------------------- the cursor and the buffer

  /** A read cursor: each read advances `rest`. */
  class Reader {
    var rest: Bytes

    constructor (b: Bytes)
      ensures rest == b
    {
      rest := b;
    }

    method ReadVarOctetStringLength(strict: bool) returns (r: Result<nat, OerError>)
      modifies this
      ensures r.Ok? ==> ReadLength(strict, old(rest)) == Ok((r.value, rest))
      ensures r.Err? ==> ReadLength(strict, old(rest)) == Err(r.error)
    {
      if |rest| < 1 {
        return Err(UnexpectedEof);
      }
      ghost var before := rest;
      var length := rest[0];
      rest := rest[1..];
      if length >= 128 {
        var k := length - 128;
        if k > 8 {
          return Err(LengthTooLarge);
        } else if k == 0 {
          return Err(IndefiniteLength);
        }
        if |rest| < k {
          return Err(UnexpectedEof);
        }
        var uint := GetUint(rest[..k]);
        assert rest[..k] == before[1..1 + k] && rest[k..] == before[1 + k..];
        rest := rest[k..];
        if strict && k != UintSize(uint) {
          return Err(StrictLeadingZeros);
        }
        if k == 1 && uint < 128 {
          return Err(LeadingZeros);
        }
        return Ok(uint);
      }
      return Ok(length);
    }

    method ReadVarOctetString(strict: bool) returns (r: Result<Bytes, OerError>)
      modifies this
      ensures r.Ok? ==> ReadOctets(strict, old(rest)) == Ok((r.value, rest))
      ensures r.Err? ==> ReadOctets(strict, old(rest)) == Err(r.error)
    {
      var length := ReadVarOctetStringLength(strict);
      if length.Err? {
        return Err(length.error);
      }
      if |rest| < length.value {
        return Err(UnexpectedEof);
      }
      r := Ok(rest[..length.value]);
      rest := rest[length.value..];
    }

    method ReadVariableUint(strict: bool) returns (r: Result<nat, OerError>)
      modifies this
      ensures r.Ok? ==> ReadVarUint(strict, old(rest)) == Ok((r.value, rest))
      ensures r.Err? ==> ReadVarUint(strict, old(rest)) == Err(r.error)
    {
      var size := ReadVarOctetStringLength(strict);
      if size.Err? {
        return Err(size.error);
      }
      if size.value == 0 {
        return Err(UintZeroLength);
      } else if size.value > 8 {
        return Err(UintTooLarge);
      }
      if |rest| < size.value {
        return Err(UnexpectedEof);
      }
      var uint := GetUint(rest[..size.value]);
      rest := rest[size.value..];
      if strict && size.value != UintSize(uint) {
        return Err(StrictLeadingZeros);
      }
      return Ok(uint);
    }

    /** `get_uint(n)` and `copy_to_slice`: the next `n` bytes, which must be there. */
    method Take(n: nat) returns (b: Bytes)
      requires n <= |rest|
      modifies this
      ensures b == old(rest)[..n] && rest == old(rest)[n..]
    {
      b := rest[..n];
      rest := rest[n..];
    }
  }

  /** A growing byte buffer. */
  class Writer {
    var bytes: Bytes

    constructor ()
      ensures bytes == []
    {
      bytes := [];
    }

    method PutSlice(b: Bytes)
      modifies this
      ensures bytes == old(bytes) + b
    {
      bytes := bytes + b;
    }

    method PutVarOctetStringLength(length: nat)
      requires length <= U64_MAX
      modifies this
      ensures bytes == old(bytes) + PutLength(length)
    {
      if length < 128 {
        bytes := bytes + [length];
      } else {
        UintSizeOfU64(length);
        var size := UintSize(length);
        bytes := bytes + [128 + size];
        bytes := bytes + PutUint(length, size);
      }
    }

    method PutVarOctetString(s: Bytes)
      requires |s| <= U64_MAX
      modifies this
      ensures bytes == old(bytes) + PutOctets(s)
    {
      PutVarOctetStringLength(|s|);
      PutSlice(s);
    }

    method PutVariableUint(v: nat)
      requires v <= U64_MAX
      modifies this
      ensures bytes == old(bytes) + PutVarUint(v)
    {
      UintSizeOfU64(v);
      var size := UintSize(v);
      PutVarOctetStringLength(size);
      PutSlice(PutUint(v, size));
    }
  }
}
