/** Unsigned integers stored as byte strings, in either byte order. */
module ByteOrder {
  import opened Chunks

  /** 256 to the power `n`: one more than the largest value of `n` bytes. */
  function Pow256(n: nat): (p: nat)
    ensures p >= 1
  {
    if n == 0 then 1 else 256 * Pow256(n - 1)
  }

  /** The value of `bs` read with the first byte most significant. */
  function BigEndian(bs: seq<byte>): nat {
    if bs == [] then 0 else BigEndian(bs[..|bs| - 1]) * 256 + bs[|bs| - 1]
  }

  /** The value of `bs` read with the first byte least significant. */
  function LittleEndian(bs: seq<byte>): nat {
    if bs == [] then 0 else bs[0] + 256 * LittleEndian(bs[1..])
  }

  function Reverse(bs: seq<byte>): (r: seq<byte>)
    ensures |r| == |bs|
    ensures forall k :: 0 <= k < |bs| ==> r[k] == bs[|bs| - 1 - k]
  {
    if bs == [] then [] else Reverse(bs[1..]) + [bs[0]]
  }

  /** Reading the reversed bytes most significant first is reading the bytes
      least significant first. */
  lemma {:induction false} BigEndianOfReverse(bs: seq<byte>)
    ensures BigEndian(Reverse(bs)) == LittleEndian(bs)
  {
    if bs != [] {
      var r := Reverse(bs);
      assert r[..|r| - 1] == Reverse(bs[1..]);
      BigEndianOfReverse(bs[1..]);
    }
  }

  /** `n` bytes hold a value below 256 to the power `n`. */
  lemma {:induction false} LittleEndianBound(bs: seq<byte>)
    ensures LittleEndian(bs) < Pow256(|bs|)
  {
    if bs != [] {
      LittleEndianBound(bs[1..]);
    }
  }

  lemma LittleEndianPair(b0: byte, b1: byte)
    ensures LittleEndian([b0, b1]) == b0 + 0x100 * b1
  {
    assert [b0, b1][1..] == [b1];
    assert [b1][1..] == [];
    assert LittleEndian([b1]) == b1;
  }

  lemma BigEndianPair(b0: byte, b1: byte)
    ensures BigEndian([b0, b1]) == b0 * 0x100 + b1
  {
    assert [b0, b1][..1] == [b0];
    assert [b0][..0] == [];
    assert BigEndian([b0]) == b0;
  }

  lemma LittleEndianQuad(b0: byte, b1: byte, b2: byte, b3: byte)
    ensures LittleEndian([b0, b1, b2, b3]) == b0 + 0x100 * b1 + 0x1_0000 * b2 + 0x100_0000 * b3
  {
    assert [b0, b1, b2, b3][1..] == [b1, b2, b3];
    assert [b1, b2, b3][1..] == [b2, b3];
    LittleEndianPair(b2, b3);
  }

  lemma BigEndianQuad(b0: byte, b1: byte, b2: byte, b3: byte)
    ensures BigEndian([b0, b1, b2, b3]) == b0 * 0x100_0000 + b1 * 0x1_0000 + b2 * 0x100 + b3
  {
    assert [b0, b1, b2, b3][..3] == [b0, b1, b2];
    assert [b0, b1, b2][..2] == [b0, b1];
    BigEndianPair(b0, b1);
  }
}
