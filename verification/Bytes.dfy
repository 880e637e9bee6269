/** Bytes, little-endian numbers and UTF-8 texts. */
module Bytes {
  import opened Basics

  type Byte = b: int | 0 <= b < 256

  type Data = seq<Byte>

  // ---------- Little-endian numbers ----------

  function Pow256(n: nat): nat {
    if n == 0 then 1 else 256 * Pow256(n - 1)
  }

  function PutLe(n: nat, width: nat): (d: Data)
    ensures |d| == width
  {
    if width == 0 then [] else [n % 256] + PutLe(n / 256, width - 1)
  }

  function GetLe(d: Data): nat {
    if d == [] then 0 else d[0] + 256 * GetLe(d[1..])
  }

  lemma {:induction false} LeRoundTrip(n: nat, width: nat)
    requires n < Pow256(width)
    ensures GetLe(PutLe(n, width)) == n
  {
    if width > 0 {
      LeRoundTrip(n / 256, width - 1);
      assert PutLe(n, width)[1..] == PutLe(n / 256, width - 1);
    }
  }

  lemma {:induction false} GetLeBelow(d: Data)
    ensures GetLe(d) < Pow256(|d|)
  {
    if d != [] {
      GetLeBelow(d[1..]);
    }
  }

  lemma Widths()
    ensures Pow256(1) == 0x100 && Pow256(4) == 0x1_0000_0000 && Pow256(8) == 0x1_0000_0000_0000_0000
  {
    assert Pow256(2) == 0x1_0000;
    assert Pow256(4) == 256 * (256 * Pow256(2));
    assert Pow256(6) == 256 * (256 * Pow256(4));
    assert Pow256(8) == 256 * (256 * Pow256(6));
  }

  // ---------- UTF-8 ----------

  predicate Continues(b: Byte) {
    0x80 <= b < 0xC0
  }

  /** The length of the well-formed sequence at the start of `d`; 0 if there is none. */
  function SequenceLength(d: Data): (n: nat)
    requires d != []
    ensures n <= |d|
  {
    var a := d[0];
    if a < 0x80 then 1
    else if 0xC2 <= a <= 0xDF && |d| >= 2 && Continues(d[1]) then 2
    else if 0xE0 <= a <= 0xEF && |d| >= 3 && Continues(d[1]) && Continues(d[2])
            && (a == 0xE0 ==> d[1] >= 0xA0) && (a == 0xED ==> d[1] < 0xA0) then 3
    else if 0xF0 <= a <= 0xF4 && |d| >= 4 && Continues(d[1]) && Continues(d[2]) && Continues(d[3])
            && (a == 0xF0 ==> d[1] >= 0x90) && (a == 0xF4 ==> d[1] < 0x90) then 4
    else 0
  }

  predicate IsUtf8(d: Data) {
    d == [] || (SequenceLength(d) > 0 && IsUtf8(d[SequenceLength(d)..]))
  }

  type Utf8 = d: Data | IsUtf8(d)
}
