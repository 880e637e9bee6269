/** Which byte sequences are texts: the encodings of Unicode scalar values, in a row (section 3 of RFC 3629). */
module Utf8Meaning {
  import opened Basics
  import opened Bytes

  /** Every code point but the surrogates. */
  predicate IsScalar(c: nat) {
    c < 0xD800 || 0xE000 <= c < 0x11_0000
  }

  type Scalar = c: nat | IsScalar(c)

  /** The last six bits go into the last byte, and so on; the first byte tells how many there are. */
  function Encoded(c: Scalar): Data {
    if c < 0x80 then [c]
    else if c < 0x800 then [0xC0 + c / 64, Six(c)]
    else if c < 0x1_0000 then [0xE0 + c / 64 / 64, Six(c / 64), Six(c)]
    else
      assert IsScalar(c);
      [0xF0 + c / 64 / 64 / 64, Six(c / 64 / 64), Six(c / 64), Six(c)]
  }

  function Six(c: nat): Byte {
    0x80 + c % 64
  }

  function AllEncoded(text: seq<Scalar>): Data {
    if text == [] then [] else Encoded(text[0]) + AllEncoded(text[1..])
  }

  lemma EncodedIsOneSequence(c: Scalar, rest: Data)
    ensures SequenceLength(Encoded(c) + rest) == |Encoded(c)| > 0
  {
    var d := Encoded(c) + rest;
    assert IsScalar(c);
    assert forall n: nat :: Continues(Six(n));
    assert d[0] == Encoded(c)[0];
    if c >= 0x80 {
      assert d[1] == Encoded(c)[1];
    }
    if c >= 0x800 {
      assert d[2] == Six(if c < 0x1_0000 then c else c / 64);
    }
    if c >= 0x1_0000 {
      assert d[3] == Six(c);
    }
  }

  /** Six more bits at the end. */
  function Longer(c: nat, b: Byte): nat
    requires Continues(b)
  {
    c * 64 + ((b as int) - 0x80)
  }

  lemma SixComeBack(c: nat, b: Byte)
    requires Continues(b)
    ensures Longer(c, b) / 64 == c && Six(Longer(c, b)) == b
  {
  }

  lemma SequenceIsEncoded(d: Data) returns (c: Scalar)
    requires d != [] && SequenceLength(d) > 0
    ensures d[..SequenceLength(d)] == Encoded(c)
  {
    var n, a := SequenceLength(d), d[0] as int;
    if n == 1 {
      c := d[0];
    } else if n == 2 {
      SixComeBack(a - 0xC0, d[1]);
      c := Longer(a - 0xC0, d[1]);
    } else if n == 3 {
      var high := Longer(a - 0xE0, d[1]);
      SixComeBack(a - 0xE0, d[1]);
      SixComeBack(high, d[2]);
      c := Longer(high, d[2]);
    } else {
      var high := Longer(a - 0xF0, d[1]);
      var middle := Longer(high, d[2]);
      SixComeBack(a - 0xF0, d[1]);
      SixComeBack(high, d[2]);
      SixComeBack(middle, d[3]);
      c := Longer(middle, d[3]);
    }
  }

  lemma {:induction false} TextIsUtf8(text: seq<Scalar>)
    ensures IsUtf8(AllEncoded(text))
  {
    if text != [] {
      var rest := AllEncoded(text[1..]);
      hide Encoded, SequenceLength;
      EncodedIsOneSequence(text[0], rest);
      TextIsUtf8(text[1..]);
      assert (Encoded(text[0]) + rest)[|Encoded(text[0])|..] == rest;
    }
  }

  lemma {:induction false} Utf8IsText(d: Data) returns (text: seq<Scalar>)
    requires IsUtf8(d)
    ensures AllEncoded(text) == d
    decreases |d|
  {
    hide Encoded, SequenceLength;
    if d == [] {
      text := [];
    } else {
      var c := SequenceIsEncoded(d);
      var rest := Utf8IsText(d[SequenceLength(d)..]);
      assert ([c] + rest)[1..] == rest;
      text := [c] + rest;
    }
  }

  /** A byte sequence is valid exactly when it encodes some text. */
  lemma Utf8Means(d: Data)
    ensures IsUtf8(d) <==> exists text :: AllEncoded(text) == d
  {
    if IsUtf8(d) {
      var text := Utf8IsText(d);
    }
    if text :| AllEncoded(text) == d {
      TextIsUtf8(text);
    }
  }
}
