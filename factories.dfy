/** The chunk sequences the script factories emit: `createMultiSigOutputScript`,
    `createInputScript` and `createMultiSigInputScript` (the output script of
    `createOutputScript` is `Addresses.OutputScript`). The factories
    themselves, which write these chunks one by one, are in `Scripts`. */
module Factories {
  import opened Wrappers
  import opened Chunks
  import opened Codec
  import opened Templates
  import opened Ordering

  /** The keys in the order they are written: as given under explicit
      sorting, otherwise sorted by their text (`Ordering`). */
  function KeyOrder(pubkeys: seq<seq<byte>>, explicitSorting: bool): seq<seq<byte>> {
    if explicitSorting then pubkeys else SortKeys(pubkeys)
  }

  /** `createMultiSigOutputScript(m, pubkeys, explicitSorting)`: opcode
      `OP_1 + m - 1`, the keys, opcode `OP_1 + n - 1`, OP_CHECKMULTISIG. */
  function MultisigOutput(m: int, pubkeys: seq<seq<byte>>, explicitSorting: bool): seq<Chunk> {
    MultisigScript(OP_1 + m - 1, KeyOrder(pubkeys, explicitSorting))
  }

  /** The factory's output is a multisig template exactly when `m` is 1 to
      the number of keys (or the value -80, which gives OP_0) and there are
      1 to 16 keys. */
  lemma MultisigOutputClassified(m: int, pubkeys: seq<seq<byte>>, explicitSorting: bool)
    ensures GetOutType(MultisigOutput(m, pubkeys, explicitSorting)) == Multisig
      <==> (m == -80 || 1 <= m <= |pubkeys|) && 1 <= |pubkeys| <= 16
  {
    var keys := KeyOrder(pubkeys, explicitSorting);
    assert |keys| == |pubkeys| by {
      SortKeysSortsAndPermutes(pubkeys);
    }
    MultisigScriptClassified(OP_1 + m - 1, keys);
  }

  /** Without explicit sorting the output does not depend on the order of
      the keys given. */
  lemma MultisigOutputPermutationInvariant(m: int, a: seq<seq<byte>>, b: seq<seq<byte>>)
    requires multiset(a) == multiset(b)
    ensures MultisigOutput(m, a, false) == MultisigOutput(m, b, false)
  {
    SortKeysPermutationInvariant(a, b);
  }

  /** The keys are written sorted (or as given), each exactly once. */
  lemma MultisigOutputKeys(m: int, pubkeys: seq<seq<byte>>, explicitSorting: bool)
    ensures var cs := MultisigOutput(m, pubkeys, explicitSorting);
      var keys := Payloads(cs[1..|cs| - 2]);
      && |cs| == |pubkeys| + 3
      && multiset(keys) == multiset(pubkeys)
      && (explicitSorting ==> keys == pubkeys)
      && (!explicitSorting ==> Sorted(keys))
  {
    var keys := KeyOrder(pubkeys, explicitSorting);
    SortKeysSortsAndPermutes(pubkeys);
    MultisigScriptShape(OP_1 + m - 1, keys);
    var cs := MultisigOutput(m, pubkeys, explicitSorting);
    assert Payloads(cs[1..|cs| - 2]) == keys;
  }

  /** `createInputScript(signature, pubKey)`. */
  function InputScript(signature: seq<byte>, pubKey: seq<byte>): seq<Chunk> {
    [Data(signature), Data(pubKey)]
  }

  /** The input the factory builds is classified as pubkeyhash, and
      `simpleInPubKey` returns its key. */
  lemma InputScriptClassified(signature: seq<byte>, pubKey: seq<byte>)
    ensures GetInType(InputScript(signature, pubKey)) == Success(InPubKeyHash)
    ensures SimpleInPubKey(InputScript(signature, pubKey)) == Success(pubKey)
  {
    InTypeShapes(InputScript(signature, pubKey));
  }

  /** `createMultiSigInputScript(signatures, script)`: the redeem script is
      re-read, `k = chunks[0][0]` is taken from its first chunk, and too few
      signatures give `false`. The first chunk of a parsed script is usually
      an opcode, whose `[0]` is `undefined`, and then the count is never
      checked; a script with no chunks at all throws a TypeError. */
  function MultiSigInput(signatures: seq<seq<byte>>, redeem: seq<byte>): (r: Result<seq<Chunk>, ScriptError>)
    ensures r.Success? ==> r.value == [Op(OP_0)] + DataChunks(signatures) + [Data(redeem)]
    ensures r == Failure(TypeError) <==> redeem == []
  {
    var cs := InitialChunks(redeem, false);
    InitialChunksEmpty(redeem, false);
    if cs == [] then Failure(TypeError)
    else if cs[0].Data? && |cs[0].bytes| > 0 && |signatures| < cs[0].bytes[0] then Failure(NotEnoughSignatures)
    else Success([Op(OP_0)] + DataChunks(signatures) + [Data(redeem)])
  }

  /** The count is checked only when the redeem script starts with a push:
      for one that starts with a direct push (and is parsed, being within the
      size limit), too few signatures means fewer than the first payload
      byte, `redeem[1]`. A script over the limit keeps its bytes as opcode
      chunks and is never checked. */
  lemma DirectPushRedeemChecksCount(signatures: seq<seq<byte>>, redeem: seq<byte>)
    requires |redeem| > 1 && 1 <= redeem[0] < OP_PUSHDATA1
    ensures IsValid(redeem) ==>
      (MultiSigInput(signatures, redeem) == Failure(NotEnoughSignatures) <==> |signatures| < redeem[1])
    ensures !IsValid(redeem) ==> MultiSigInput(signatures, redeem).Success?
  {
    if IsValid(redeem) {
      var s := StepAt(redeem, 0);
      assert OpcodeAt(redeem, 0) == redeem[0] && AfterOpcode(redeem, 0) == 1;
      assert s == Read(Data(Slice(redeem, 1, 1 + redeem[0])), 1 + redeem[0]);
      assert Slice(redeem, 1, 1 + redeem[0])[0] == redeem[1];
      ParseFromStep(redeem, 0);
    }
  }

  /** The first chunk of a standard redeem script is the opcode of `m`, so
      the signature count is never checked: any number of signatures, even
      none, is accepted. */
  lemma StandardRedeemSkipsSignatureCount(signatures: seq<seq<byte>>, m: int, keys: seq<seq<byte>>)
    requires 1 <= m <= 16 && |keys| <= 175
    ensures AllWritable(MultisigScript(OP_1 + m - 1, keys))
    ensures MultiSigInput(signatures, Serialize(MultisigScript(OP_1 + m - 1, keys))).Success?
  {
    var cs := MultisigScript(OP_1 + m - 1, keys);
    MultisigScriptShape(OP_1 + m - 1, keys);
    assert AllWritable(cs) by {
      forall k | 0 <= k < |cs| ensures Writable(cs[k]) {
        if 1 <= k < |cs| - 2 {
          assert cs[1..|cs| - 2][k - 1] == cs[k];
        }
      }
    }
    FirstChunkOfRedeem(m, keys);
  }

  /** `createMultiSigInputScript` as its "not enough sigs" check evidently
      means it: the threshold is the number `m` that the redeem script's first
      opcode encodes (OP_m minus OP_RESERVED). */
  function MultiSigInputIntended(signatures: seq<seq<byte>>, redeem: seq<byte>): (r: Result<seq<Chunk>, ScriptError>)
    ensures r.Success? ==> r.value == [Op(OP_0)] + DataChunks(signatures) + [Data(redeem)]
    ensures r == Failure(TypeError) <==> redeem == []
  {
    var cs := InitialChunks(redeem, false);
    InitialChunksEmpty(redeem, false);
    if cs == [] then Failure(TypeError)
    else if IsSmallIntOp(cs[0]) && |signatures| < cs[0].code - OP_RESERVED then Failure(NotEnoughSignatures)
    else Success([Op(OP_0)] + DataChunks(signatures) + [Data(redeem)])
  }

  /** With the intended check, a standard m-of-n redeem script accepts
      exactly the inputs with at least `m` signatures. */
  lemma StandardRedeemChecksSignatureCount(signatures: seq<seq<byte>>, m: int, keys: seq<seq<byte>>)
    requires 1 <= m <= 16 && |keys| <= 175
    ensures AllWritable(MultisigScript(OP_1 + m - 1, keys))
    ensures MultiSigInputIntended(signatures, Serialize(MultisigScript(OP_1 + m - 1, keys))).Success?
      <==> |signatures| >= m
  {
    StandardRedeemSkipsSignatureCount(signatures, m, keys);
    FirstChunkOfRedeem(m, keys);
  }

  /** The redeem script is read back starting with the opcode of `m`. */
  lemma FirstChunkOfRedeem(m: int, keys: seq<seq<byte>>)
    requires 1 <= m <= 16 && |keys| <= 175
    requires AllWritable(MultisigScript(OP_1 + m - 1, keys))
    ensures var redeem := Serialize(MultisigScript(OP_1 + m - 1, keys));
      InitialChunks(redeem, false) != [] && InitialChunks(redeem, false)[0] == Op(OP_1 + m - 1)
  {
    hide StepAt;
    var cs := MultisigScript(OP_1 + m - 1, keys);
    var redeem := Serialize(cs);
    assert redeem == EncodeChunk(Op(OP_1 + m - 1)) + Serialize(cs[1..]);
    if IsValid(redeem) {
      StepEncoded(Op(OP_1 + m - 1), Serialize(cs[1..]));
      ParseFromStep(redeem, 0);
    }
  }

  /** As written, the input a multisig factory builds from signatures and a
      standard redeem script is not recognised by `getInType`: the fold
      reaches the redeem script, a payload that does not start with 0x30,
      and throws. The intended classifier recognises it. */
  lemma MultisigInputRejectedAsWritten(signatures: seq<seq<byte>>, redeem: seq<byte>)
    requires forall k :: 0 <= k < |signatures| ==> LooksLikeSignature(Data(signatures[k]))
    requires redeem != [] && redeem[0] != 0x30
    ensures var cs := [Op(OP_0)] + DataChunks(signatures) + [Data(redeem)];
      GetInType(cs) == Failure(TypeError) && GetInTypeIntended(cs) == InMultisig
  {
    var cs := [Op(OP_0)] + DataChunks(signatures) + [Data(redeem)];
    var rest := cs[1..];
    assert rest == DataChunks(signatures) + [Data(redeem)];
    ReduceFromTrue(rest);
    var i := FirstNonSignature(rest);
    assert forall k :: 0 <= k < |signatures| ==> LooksLikeSignature(rest[k]);
    assert !LooksLikeSignature(rest[|signatures|]);
    assert i == |signatures|;
    assert IsSignatureList(rest);
  }
}
