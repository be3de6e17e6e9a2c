/** Bytes, opcode values and the chunk type shared by every part of the model.

    The opcode values are those of the standard Bitcoin opcode table, which the
    library reads from its opcode dependency. */
module Chunks {

  /** One element of a script buffer. */
  type byte = b: int | 0 <= b < 256

  const OP_0: int := 0
  const OP_PUSHDATA1: int := 76
  const OP_PUSHDATA2: int := 77
  const OP_PUSHDATA4: int := 78
  const OP_RESERVED: int := 80
  const OP_1: int := 81
  const OP_16: int := 96
  const OP_RETURN: int := 106
  const OP_DUP: int := 118
  const OP_EQUAL: int := 135
  const OP_EQUALVERIFY: int := 136
  const OP_HASH160: int := 169
  const OP_CHECKSIG: int := 172
  const OP_CHECKMULTISIG: int := 174

  /** A decoded unit of a script: a bare opcode (possibly a two-byte one, so an
      `int`) or a pushed payload. The library keeps opcodes as numbers and
      payloads as arrays inside one array; the two variants replace that test
      of the run-time type. */
  datatype Chunk = Op(code: int) | Data(bytes: seq<byte>)

  /** The errors the library signals, by throwing or by returning `false`. */
  datatype ScriptError =
    | NotEnoughSignatures      // createMultiSigInputScript returns false
    | TypeError                // a property of undefined is read
    | NoPubKeyInScript         // simpleInPubKey on a pay-to-pubkey input
    | NonStandardScriptSig     // simpleInPubKey on any other input
    | UnsupportedAddressType   // createOutputScript returns false

  /** A chunk that the builder can append: an opcode that fits in one byte of
      the buffer, or any payload. */
  predicate Writable(c: Chunk) {
    c.Op? ==> 0 <= c.code < 256
  }

  predicate AllWritable(cs: seq<Chunk>) {
    forall k :: 0 <= k < |cs| ==> Writable(cs[k])
  }

  lemma AllWritableAppend(cs: seq<Chunk>, c: Chunk)
    requires AllWritable(cs) && Writable(c)
    ensures AllWritable(cs + [c])
  {
    assert forall k :: 0 <= k < |cs| ==> (cs + [c])[k] == cs[k];
  }

  /** The payloads of a sequence of data chunks. */
  function Payloads(cs: seq<Chunk>): (ps: seq<seq<byte>>)
    requires forall k :: 0 <= k < |cs| ==> cs[k].Data?
    ensures |ps| == |cs|
    ensures forall k :: 0 <= k < |cs| ==> cs[k] == Data(ps[k])
  {
    seq(|cs|, k requires 0 <= k < |cs| => cs[k].bytes)
  }

  /** One data chunk per payload, in order. */
  function DataChunks(ps: seq<seq<byte>>): (cs: seq<Chunk>)
    ensures |cs| == |ps|
    ensures forall k :: 0 <= k < |ps| ==> cs[k] == Data(ps[k])
  {
    seq(|ps|, k requires 0 <= k < |ps| => Data(ps[k]))
  }
}
