/** The template classifiers: `getOutType` with its helpers `isSmallIntOp`
    and `arePubkeys`, `getInType`, `simpleInPubKey` and `extractPubkeys`.

    The library compares chunks with JavaScript's loose `==` and `<=`, under
    which a one-byte payload also equals the opcode of the same value. The
    model matches an opcode only against an `Op` chunk. */
module Templates {
  import opened Wrappers
  import opened Chunks

  datatype OutType = PubKeyHash | PubKey | ScriptHash | Multisig | NullData | NonStandard

  datatype InType = InPubKey | InPubKeyHash | InMultisig | InNonStandard

  /** `isSmallIntOp`: OP_0 or one of OP_1 .. OP_16. */
  predicate IsSmallIntOp(c: Chunk) {
    c.Op? && (c.code == OP_0 || OP_1 <= c.code <= OP_16)
  }

  predicate AllData(cs: seq<Chunk>) {
    forall k :: 0 <= k < |cs| ==> cs[k].Data?
  }

  /** `arePubkeys`: every chunk is a payload. */
  method ArePubkeys(pubkeys: seq<Chunk>) returns (r: bool)
    ensures r <==> AllData(pubkeys)
  {
    var i := 0;
    while i < |pubkeys|
      invariant 0 <= i <= |pubkeys|
      invariant AllData(pubkeys[..i])
    {
      if !pubkeys[i].Data? {
        assert !AllData(pubkeys);
        return false;
      }
      i := i + 1;
    }
    assert pubkeys[..i] == pubkeys;
    return true;
  }

  // ---------------------------------------------------------------------------
  // Output templates

  /** `getOutType`: the first template the chunks match, in the library's
      order. */
  function GetOutType(cs: seq<Chunk>): OutType {
    var n := |cs|;
    if n == 5 && cs[0] == Op(OP_DUP) && cs[1] == Op(OP_HASH160) && cs[2].Data? && |cs[2].bytes| == 20
       && cs[3] == Op(OP_EQUALVERIFY) && cs[4] == Op(OP_CHECKSIG)
    then PubKeyHash
    else if n == 2 && cs[0].Data? && cs[1] == Op(OP_CHECKSIG) then PubKey
    else if n == 3 && cs[2] == Op(OP_EQUAL) && cs[0] == Op(OP_HASH160) && cs[1].Data? && |cs[1].bytes| == 20
    then ScriptHash
    else if n > 3 && IsSmallIntOp(cs[0]) && IsSmallIntOp(cs[n - 2])
       && cs[0].code <= cs[n - 2].code
       && cs[n - 2].code != OP_0
       && n - 3 == cs[n - 2].code - OP_RESERVED
       && AllData(cs[1..n - 2])
       && cs[n - 1] == Op(OP_CHECKMULTISIG)
    then Multisig
    else if n > 0 && cs[0] == Op(OP_RETURN) then NullData
    else NonStandard
  }

  /** OP_DUP OP_HASH160 [hash] OP_EQUALVERIFY OP_CHECKSIG */
  function PayToPubKeyHash(hash: seq<byte>): seq<Chunk> {
    [Op(OP_DUP), Op(OP_HASH160), Data(hash), Op(OP_EQUALVERIFY), Op(OP_CHECKSIG)]
  }

  /** [pubkey] OP_CHECKSIG */
  function PayToPubKey(pubkey: seq<byte>): seq<Chunk> {
    [Data(pubkey), Op(OP_CHECKSIG)]
  }

  /** OP_HASH160 [hash] OP_EQUAL, the pay-to-script-hash output of BIP 16. */
  function PayToScriptHash(hash: seq<byte>): seq<Chunk> {
    [Op(OP_HASH160), Data(hash), Op(OP_EQUAL)]
  }

  /** m [key] ... [key] n OP_CHECKMULTISIG, where `n` is the opcode of the
      number of keys (BIP 11). */
  function MultisigScript(mOp: int, keys: seq<seq<byte>>): seq<Chunk> {
    [Op(mOp)] + DataChunks(keys) + [Op(OP_RESERVED + |keys|), Op(OP_CHECKMULTISIG)]
  }

  /** The multisig templates `getOutType` accepts: a small-integer `m` no
      larger than the 1 to 16 keys. */
  predicate MultisigParams(mOp: int, nKeys: int) {
    IsSmallIntOp(Op(mOp)) && mOp <= OP_RESERVED + nKeys && 1 <= nKeys <= 16
  }

  lemma MultisigScriptShape(mOp: int, keys: seq<seq<byte>>)
    ensures var cs := MultisigScript(mOp, keys);
      && |cs| == |keys| + 3 && cs[0] == Op(mOp)
      && cs[|cs| - 2] == Op(OP_RESERVED + |keys|) && cs[|cs| - 1] == Op(OP_CHECKMULTISIG)
      && cs[1..|cs| - 2] == DataChunks(keys)
  {
  }

  /** The templates are mutually exclusive, so the order in which
      `getOutType` tries them never decides the result; each type holds
      exactly for the chunk sequences of its template. */
  lemma OutTypePubKeyHash(cs: seq<Chunk>)
    ensures GetOutType(cs) == PubKeyHash <==> exists h :: |h| == 20 && cs == PayToPubKeyHash(h)
  {
    if GetOutType(cs) == PubKeyHash {
      assert cs == PayToPubKeyHash(cs[2].bytes);
    }
  }

  lemma OutTypePubKey(cs: seq<Chunk>)
    ensures GetOutType(cs) == PubKey <==> exists pk :: cs == PayToPubKey(pk)
  {
    if GetOutType(cs) == PubKey {
      assert cs == PayToPubKey(cs[0].bytes);
    }
  }

  lemma OutTypeScriptHash(cs: seq<Chunk>)
    ensures GetOutType(cs) == ScriptHash <==> exists h :: |h| == 20 && cs == PayToScriptHash(h)
  {
    if GetOutType(cs) == ScriptHash {
      assert cs == PayToScriptHash(cs[1].bytes);
    }
  }

  lemma MultisigIsScript(cs: seq<Chunk>)
    requires GetOutType(cs) == Multisig
    ensures var keys := Payloads(cs[1..|cs| - 2]);
      MultisigParams(cs[0].code, |keys|) && cs == MultisigScript(cs[0].code, keys)
  {
    var n := |cs|;
    var keys := Payloads(cs[1..n - 2]);
    assert cs[1..n - 2] == DataChunks(keys);
    assert cs == [cs[0]] + cs[1..n - 2] + [cs[n - 2], cs[n - 1]];
  }

  lemma MultisigScriptIsMultisig(mOp: int, keys: seq<seq<byte>>)
    requires MultisigParams(mOp, |keys|)
    ensures GetOutType(MultisigScript(mOp, keys)) == Multisig
  {
    MultisigScriptShape(mOp, keys);
  }

  /** A chunk sequence of the multisig shape is classified as multisig
      exactly when its parameters are ones `getOutType` accepts. */
  lemma MultisigScriptClassified(mOp: int, keys: seq<seq<byte>>)
    ensures GetOutType(MultisigScript(mOp, keys)) == Multisig <==> MultisigParams(mOp, |keys|)
  {
    var cs := MultisigScript(mOp, keys);
    MultisigScriptShape(mOp, keys);
    if GetOutType(cs) == Multisig {
      MultisigIsScript(cs);
      assert |Payloads(cs[1..|cs| - 2])| == |keys|;
    } else if MultisigParams(mOp, |keys|) {
      MultisigScriptIsMultisig(mOp, keys);
    }
  }

  lemma OutTypeMultisig(cs: seq<Chunk>)
    ensures GetOutType(cs) == Multisig <==>
      exists mOp, keys :: MultisigParams(mOp, |keys|) && cs == MultisigScript(mOp, keys)
  {
    if GetOutType(cs) == Multisig {
      MultisigIsScript(cs);
    }
    if exists mOp, keys :: MultisigParams(mOp, |keys|) && cs == MultisigScript(mOp, keys) {
      var mOp, keys :| MultisigParams(mOp, |keys|) && cs == MultisigScript(mOp, keys);
      MultisigScriptIsMultisig(mOp, keys);
    }
  }

  lemma OutTypeNullData(cs: seq<Chunk>)
    ensures GetOutType(cs) == NullData <==> |cs| > 0 && cs[0] == Op(OP_RETURN)
  {
  }

  // ---------------------------------------------------------------------------
  // Input templates

  /** A payload whose first byte is 0x30, the tag that opens a DER-encoded
      signature. */
  predicate LooksLikeSignature(c: Chunk) {
    c.Data? && |c.bytes| > 0 && c.bytes[0] == 0x30
  }

  /** The callback `getInType` passes to `reduce`, on accumulator `t` and
      chunk `c`. Its last operand reads `this.chunks.length`, but `this` inside
      the callback is not the script and has no `chunks`: whenever that
      operand is evaluated, the read throws a TypeError. */
  function ReduceCallback(t: bool, c: Chunk): Result<bool, ScriptError> {
    if !t || !c.Data? then Success(false)
    else if LooksLikeSignature(c) then Success(true)
    else Failure(TypeError)
  }

  /** `cs.reduce(callback, t)`: the callback applied left to right, a throw
      ending the fold. */
  function Reduce(cs: seq<Chunk>, t: bool): Result<bool, ScriptError> {
    if cs == [] then Success(t)
    else
      match ReduceCallback(t, cs[0])
      case Failure(e) => Failure(e)
      case Success(t') => Reduce(cs[1..], t')
  }

  /** The index of the first chunk that is not a signature-like payload, or
      `|cs|` when there is none. */
  function FirstNonSignature(cs: seq<Chunk>): (i: nat)
    ensures i <= |cs|
    ensures forall k :: 0 <= k < i ==> LooksLikeSignature(cs[k])
    ensures i < |cs| ==> !LooksLikeSignature(cs[i])
  {
    if cs == [] || !LooksLikeSignature(cs[0]) then 0 else 1 + FirstNonSignature(cs[1..])
  }

  lemma {:induction false} ReduceFromFalse(cs: seq<Chunk>)
    ensures Reduce(cs, false) == Success(false)
  {
    if cs != [] {
      ReduceFromFalse(cs[1..]);
    }
  }

  /** What the fold computes: true when every chunk looks like a signature;
      otherwise the first chunk that does not decides, false for an opcode and
      a TypeError for a payload. */
  lemma {:induction false} ReduceFromTrue(cs: seq<Chunk>)
    ensures var i := FirstNonSignature(cs);
      Reduce(cs, true) ==
        if i == |cs| then Success(true)
        else if cs[i].Op? then Success(false)
        else Failure(TypeError)
  {
    if cs != [] {
      if LooksLikeSignature(cs[0]) {
        ReduceFromTrue(cs[1..]);
      } else if cs[0].Op? {
        ReduceFromFalse(cs[1..]);
      }
    }
  }

  /** `getInType` as written: the multisig test runs the broken fold. */
  function GetInType(cs: seq<Chunk>): Result<InType, ScriptError> {
    if |cs| == 1 && cs[0].Data? then Success(InPubKey)
    else if |cs| == 2 && cs[0].Data? && cs[1].Data? then Success(InPubKeyHash)
    else if |cs| > 0 && cs[0] == Op(OP_0) then
      match Reduce(cs[1..], true)
      case Failure(e) => Failure(e)
      case Success(isMultisig) => Success(if isMultisig then InMultisig else InNonStandard)
    else Success(InNonStandard)
  }

  /** `getInType` as its documentation describes it: OP_0 followed only by
      payloads, every one but the last a signature (the last being the
      redeem script). */
  function GetInTypeIntended(cs: seq<Chunk>): InType {
    if |cs| == 1 && cs[0].Data? then InPubKey
    else if |cs| == 2 && cs[0].Data? && cs[1].Data? then InPubKeyHash
    else if |cs| > 0 && cs[0] == Op(OP_0) && IsSignatureList(cs[1..]) then InMultisig
    else InNonStandard
  }

  predicate IsSignatureList(ss: seq<Chunk>) {
    AllData(ss) && forall k :: 0 <= k < |ss| - 1 ==> LooksLikeSignature(ss[k])
  }

  /** One and two payloads are recognised as pubkey and pubkeyhash inputs;
      OP_0 and signatures only as multisig; all of these without error. */
  lemma InTypeShapes(cs: seq<Chunk>)
    ensures GetInType(cs) == Success(InPubKey) <==> |cs| == 1 && cs[0].Data?
    ensures GetInType(cs) == Success(InPubKeyHash) <==> |cs| == 2 && AllData(cs)
    ensures GetInType(cs) == Success(InMultisig) <==>
      |cs| > 0 && cs[0] == Op(OP_0) && forall k :: 1 <= k < |cs| ==> LooksLikeSignature(cs[k])
  {
    if |cs| > 0 && cs[0] == Op(OP_0) {
      var rest := cs[1..];
      ReduceFromTrue(rest);
      assert forall k :: 0 <= k < |rest| ==> rest[k] == cs[k + 1];
    }
  }

  /** The as-written classifier fails exactly when, after OP_0, the first
      chunk that is not a signature is a payload. */
  lemma InTypeError(cs: seq<Chunk>)
    ensures GetInType(cs).Failure? <==>
      && |cs| > 0 && cs[0] == Op(OP_0)
      && var i := FirstNonSignature(cs[1..]); i < |cs| - 1 && cs[1 + i].Data?
    ensures GetInType(cs).Failure? ==> GetInType(cs).error == TypeError
  {
    if |cs| > 0 && cs[0] == Op(OP_0) {
      ReduceFromTrue(cs[1..]);
      assert forall k :: 0 <= k < |cs| - 1 ==> cs[1..][k] == cs[k + 1];
    }
  }

  /** Wherever the as-written classifier returns a type, it is the intended
      one. */
  lemma InTypeAgreesWhereDefined(cs: seq<Chunk>)
    ensures GetInType(cs).Success? ==> GetInType(cs).value == GetInTypeIntended(cs)
  {
    if |cs| > 0 && cs[0] == Op(OP_0) {
      var rest := cs[1..];
      ReduceFromTrue(rest);
      var i := FirstNonSignature(rest);
      if i == |rest| {
        assert IsSignatureList(rest);
      } else if rest[i].Op? {
        assert !AllData(rest);
      }
    }
  }

  /** `simpleInPubKey`: the public key of a pubkeyhash input; distinct
      errors for a pubkey input and for every other input, and the TypeError
      of `getInType` passed on. */
  function SimpleInPubKey(cs: seq<Chunk>): (r: Result<seq<byte>, ScriptError>)
    ensures r.Success? <==> |cs| == 2 && AllData(cs)
    ensures r.Success? ==> r.value == cs[1].bytes
    ensures r == Failure(NoPubKeyInScript) <==> |cs| == 1 && cs[0].Data?
    ensures r == Failure(TypeError) <==>
      && |cs| > 0 && cs[0] == Op(OP_0)
      && var i := FirstNonSignature(cs[1..]); i < |cs| - 1 && cs[1 + i].Data?
    ensures r.Failure? ==> r.error in {NoPubKeyInScript, NonStandardScriptSig, TypeError}
  {
    InTypeShapes(cs);
    InTypeError(cs);
    match GetInType(cs)
    case Failure(e) => Failure(e)
    case Success(InPubKeyHash) => Success(cs[1].bytes)
    case Success(InPubKey) => Failure(NoPubKeyInScript)
    case Success(_) => Failure(NonStandardScriptSig)
  }

  // ---------------------------------------------------------------------------
  // Public keys

  /** The shape of a public key: 65 bytes after the tag 4 (uncompressed), or
      33 bytes after a tag below 4 (compressed). */
  predicate LooksLikePubKey(c: Chunk) {
    c.Data? && |c.bytes| > 0
    && ((c.bytes[0] == 4 && |c.bytes| == 65) || (c.bytes[0] < 4 && |c.bytes| == 33))
  }

  /** `extractPubkeys`: the chunks of public-key shape, in order. */
  function ExtractPubkeys(cs: seq<Chunk>): (r: seq<Chunk>)
    ensures |r| <= |cs|
    ensures forall k :: 0 <= k < |r| ==> LooksLikePubKey(r[k]) && r[k] in cs
    ensures forall k :: 0 <= k < |cs| && LooksLikePubKey(cs[k]) ==> cs[k] in r
  {
    if cs == [] then []
    else if LooksLikePubKey(cs[0]) then [cs[0]] + ExtractPubkeys(cs[1..])
    else ExtractPubkeys(cs[1..])
  }

  /** The filter keeps every chunk of public-key shape as often as it occurs,
      and nothing else. */
  lemma {:induction false} ExtractPubkeysCounts(cs: seq<Chunk>)
    ensures forall c :: multiset(ExtractPubkeys(cs))[c] == if LooksLikePubKey(c) then multiset(cs)[c] else 0
  {
    if cs != [] {
      assert cs == [cs[0]] + cs[1..];
      ExtractPubkeysCounts(cs[1..]);
    }
  }

  lemma {:induction false} ExtractPubkeysAppend(a: seq<Chunk>, b: seq<Chunk>)
    ensures ExtractPubkeys(a + b) == ExtractPubkeys(a) + ExtractPubkeys(b)
  {
    if a != [] {
      assert (a + b)[0] == a[0];
      assert (a + b)[1..] == a[1..] + b;
      ExtractPubkeysAppend(a[1..], b);
      if LooksLikePubKey(a[0]) {
        calc {
          ExtractPubkeys(a + b);
          [a[0]] + ExtractPubkeys(a[1..] + b);
          [a[0]] + (ExtractPubkeys(a[1..]) + ExtractPubkeys(b));
          ([a[0]] + ExtractPubkeys(a[1..])) + ExtractPubkeys(b);
        }
      }
    } else {
      assert a + b == b;
    }
  }

  lemma {:induction false} ExtractPubkeysOfKeys(keys: seq<seq<byte>>)
    requires forall k :: 0 <= k < |keys| ==> LooksLikePubKey(Data(keys[k]))
    ensures ExtractPubkeys(DataChunks(keys)) == DataChunks(keys)
  {
    if keys != [] {
      assert DataChunks(keys) == [Data(keys[0])] + DataChunks(keys[1..]);
      ExtractPubkeysOfKeys(keys[1..]);
    }
  }

  /** From a multisig output whose keys all have public-key shape,
      `extractPubkeys` returns exactly the keys, in order. */
  lemma ExtractPubkeysOfMultisig(mOp: int, keys: seq<seq<byte>>)
    requires forall k :: 0 <= k < |keys| ==> LooksLikePubKey(Data(keys[k]))
    ensures ExtractPubkeys(MultisigScript(mOp, keys)) == DataChunks(keys)
  {
    var tail := [Op(OP_RESERVED + |keys|), Op(OP_CHECKMULTISIG)];
    ExtractPubkeysAppend([Op(mOp)] + DataChunks(keys), tail);
    ExtractPubkeysAppend([Op(mOp)], DataChunks(keys));
    ExtractPubkeysOfKeys(keys);
    assert ExtractPubkeys(tail) == [] by {
      assert tail[1..] == [Op(OP_CHECKMULTISIG)];
    }
  }
}
