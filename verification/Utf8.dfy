/** The check for UTF-8 accepts exactly the encodings of sequences of Unicode scalar values. */
module Utf8 {
  import opened Text

  predicate IsScalar(c: int) {
    0 <= c < 0xD800 || 0xE000 <= c < 0x11_0000
  }

  function EncodeChar(c: int): (b: Text)
    requires IsScalar(c)
    ensures 1 <= |b| <= 4
  {
    if c < 0x80 then [c]
    else if c < 0x800 then [0xC0 + c / 64, 0x80 + c % 64]
    else if c < 0x1_0000 then [0xE0 + c / 4096, 0x80 + c / 64 % 64, 0x80 + c % 64]
    else [0xF0 + c / 262144, 0x80 + c / 4096 % 64, 0x80 + c / 64 % 64, 0x80 + c % 64]
  }

  predicate AreScalars(cs: seq<int>) {
    forall i :: 0 <= i < |cs| ==> IsScalar(cs[i])
  }

  function EncodeChars(cs: seq<int>): Text
    requires AreScalars(cs)
  {
    if cs == [] then [] else EncodeChar(cs[0]) + EncodeChars(cs[1..])
  }

  lemma EncodedCharIsFirst(c: int, rest: Text)
    requires IsScalar(c)
    ensures FirstCharLength(EncodeChar(c) + rest) == |EncodeChar(c)|
  {
    var e := EncodeChar(c);
    var b := e + rest;
    assert forall i :: 0 <= i < |e| ==> b[i] == e[i];
  }

  /** The character at the front of well-formed bytes. */
  function FirstChar(b: Text): int
    requires b != [] && FirstCharLength(b) > 0
  {
    var n := FirstCharLength(b);
    if n == 1 then b[0]
    else if n == 2 then Chain(b[0] as int - 0xC0, b[1])
    else if n == 3 then Chain(Chain(b[0] as int - 0xE0, b[1]), b[2])
    else Chain(Chain(Chain(b[0] as int - 0xF0, b[1]), b[2]), b[3])
  }

  /** Six more bits from a continuation byte. */
  function Chain(c: int, next: Byte): int {
    64 * c + (next as int - 0x80)
  }

  lemma FirstCharIsEncoded(b: Text)
    requires b != [] && FirstCharLength(b) > 0
    ensures IsScalar(FirstChar(b)) && EncodeChar(FirstChar(b)) == b[..FirstCharLength(b)]
  {
    var n, c := FirstCharLength(b), FirstChar(b);
    if n == 2 {
      Unchain(b[0] as int - 0xC0, b[1]);
    } else if n == 3 {
      var c1 := Chain(b[0] as int - 0xE0, b[1]);
      Unchain(b[0] as int - 0xE0, b[1]);
      Unchain(c1, b[2]);
    } else if n == 4 {
      var c1 := Chain(b[0] as int - 0xF0, b[1]);
      var c2 := Chain(c1, b[2]);
      Unchain(b[0] as int - 0xF0, b[1]);
      Unchain(c1, b[2]);
      Unchain(c2, b[3]);
    }
  }

  lemma Unchain(c: int, next: Byte)
    requires IsContinuation(next)
    ensures Chain(c, next) / 64 == c && Chain(c, next) % 64 == next as int - 0x80
  {
  }

  lemma {:induction false} EncodedCharsAreUtf8(cs: seq<int>)
    requires AreScalars(cs)
    ensures IsUtf8(EncodeChars(cs))
  {
    if cs != [] {
      EncodedCharIsFirst(cs[0], EncodeChars(cs[1..]));
      EncodedCharsAreUtf8(cs[1..]);
      var b := EncodeChars(cs);
      assert b[|EncodeChar(cs[0])|..] == EncodeChars(cs[1..]);
    }
  }

  lemma {:induction false} Utf8IsEncodedChars(b: Text) returns (cs: seq<int>)
    requires IsUtf8(b)
    ensures AreScalars(cs) && EncodeChars(cs) == b
  {
    if b == [] {
      cs := [];
    } else {
      var n := FirstCharLength(b);
      FirstCharIsEncoded(b);
      var more := Utf8IsEncodedChars(b[n..]);
      cs := [FirstChar(b)] + more;
      assert cs[1..] == more && b == b[..n] + b[n..];
    }
  }

  /** Bytes pass the check exactly if they encode some sequence of scalar values. */
  lemma Utf8IffEncoded(b: Text)
    ensures IsUtf8(b) <==> exists cs :: AreScalars(cs) && EncodeChars(cs) == b
  {
    if IsUtf8(b) {
      var cs := Utf8IsEncodedChars(b);
    }
    if cs :| AreScalars(cs) && EncodeChars(cs) == b {
      EncodedCharsAreUtf8(cs);
    }
  }
}
