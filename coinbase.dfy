/** `getBlockHeight`: the block height at the start of a coinbase script.

    BIP 34 puts the height first in the coinbase script, as a push of its
    little-endian bytes. The library reads the first byte as the push length,
    takes that many bytes, reverses them and reads them as an unsigned
    big-endian number. */
module Coinbase {
  import opened Wrappers
  import opened Chunks
  import opened ByteOrder
  import opened Codec

  /** The height of a coinbase script, and `false` (here `None`) for any
      other script. A missing length byte reads as 0, giving height 0. */
  function GetBlockHeight(buffer: seq<byte>, isCoinbase: bool): (r: Option<nat>)
    ensures !isCoinbase ==> r == None
    ensures isCoinbase ==> r == Some(LittleEndian(Slice(buffer, 1, 1 + ByteAt(buffer, 0))))
  {
    if isCoinbase then
      var heightBytes := Slice(buffer, 1, 1 + ByteAt(buffer, 0));
      BigEndianOfReverse(heightBytes);
      Some(BigEndian(Reverse(heightBytes)))
    else None
  }

  /** The height BIP 34 encodes is read back: a coinbase script that starts
      with a direct push of the height's bytes, least significant first,
      yields that height, below 256 to the power of its length. */
  lemma BlockHeightOfPush(heightBytes: seq<byte>, rest: seq<byte>)
    requires 1 <= |heightBytes| < OP_PUSHDATA1
    ensures GetBlockHeight([|heightBytes|] + heightBytes + rest, true) == Some(LittleEndian(heightBytes))
    ensures LittleEndian(heightBytes) < Pow256(|heightBytes|)
  {
    var n := |heightBytes|;
    var buffer := [n as byte] + heightBytes + rest;
    assert ByteAt(buffer, 0) == n;
    assert buffer[1..1 + n] == heightBytes;
    assert Slice(buffer, 1, 1 + n) == heightBytes;
    LittleEndianBound(heightBytes);
  }

  /** The coinbase script 03 d8 91 00 04 50 a8 eb 0b 4e d2 01 00 is at
      height 37336. */
  lemma BlockHeightExample()
    ensures GetBlockHeight([0x03, 0xd8, 0x91, 0x00, 0x04, 0x50, 0xa8, 0xeb, 0x0b, 0x4e, 0xd2, 0x01, 0x00], true)
         == Some(37336)
  {
    var h: seq<byte> := [0xd8, 0x91, 0x00];
    var rest: seq<byte> := [0x04, 0x50, 0xa8, 0xeb, 0x0b, 0x4e, 0xd2, 0x01, 0x00];
    assert [0x03, 0xd8, 0x91, 0x00, 0x04, 0x50, 0xa8, 0xeb, 0x0b, 0x4e, 0xd2, 0x01, 0x00] == [|h|] + h + rest;
    BlockHeightOfPush(h, rest);
    assert h[1..] == [0x91, 0x00];
    LittleEndianPair(0x91, 0x00);
  }
}
