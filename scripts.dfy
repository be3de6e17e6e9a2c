/** The `Script` object: a byte buffer and the chunks read from it, kept side
    by side and updated in place by the parser and the builder methods.

    Every method here is proved against the specification functions of the
    other modules: `Parse` against `Codec.ParseChunks`, the builders against
    `Codec.Serialize`, the factories against `Factories` and `Addresses`, and
    `ToASM` against `Asm.Asm`. */
module Scripts {
  import opened Wrappers
  import opened Chunks
  import opened Codec
  import opened Templates
  import opened Addresses
  import opened Factories
  import opened Ordering
  import opened Asm

  class Script {
    var buffer: seq<byte>
    var chunks: seq<Chunk>
    var isCoinbase: bool

    /** The buffer is exactly what the builder writes for the chunks. This
        holds for every script the builder methods and factories produce. */
    predicate Consistent()
      reads this
    {
      AllWritable(chunks) && buffer == Serialize(chunks)
    }

    /** `new Script(data, isCoinbase)` on a byte array: a coinbase script and
        a script over the size limit keep their bytes as chunks, any other is
        parsed. */
    constructor(data: seq<byte>, coinbase: bool)
      ensures buffer == data && isCoinbase == coinbase
      ensures chunks == InitialChunks(data, coinbase)
    {
      buffer := data;
      isCoinbase := coinbase;
      chunks := RawChunks(data);
      new;
      if !coinbase && IsValid(data) {
        Parse();
      }
    }

    /** `parse`: the loop reads an opcode (two bytes when the first is 0xF0
        or more), then the payload a push opcode announces, until the cursor
        passes the end; a negative PUSHDATA4 length ends it. */
    method Parse()
      modifies this
      ensures chunks == ParseChunks(buffer)
      ensures buffer == old(buffer) && isCoinbase == old(isCoinbase)
    {
      var buf := buffer;
      chunks := [];
      var i: nat := 0;
      while i < |buf|
        invariant buffer == buf && isCoinbase == old(isCoinbase)
        invariant chunks + ParseFrom(buf, i) == ParseChunks(buf)
        decreases |buf| - i
      {
        var op: int := buf[i];
        var j: nat := i + 1;
        if op >= 0xF0 {
          op := op * 256 + ByteAt(buf, j);
          j := j + 1;
        }
        assert op == OpcodeAt(buf, i) && j == AfterOpcode(buf, i);
        var chunk, next, last := ReadAfterOpcode(buf, op, j);
        if last {
          assert StepAt(buf, i) == ReadLast(chunk);
          ParseLoopStep(buf, i, chunks);
          chunks := chunks + [chunk];
          break;
        }
        assert StepAt(buf, i) == Read(chunk, next);
        ParseLoopStep(buf, i, chunks);
        chunks := chunks + [chunk];
        i := next;
      }
    }

    /** The body of `parse`'s loop after the opcode `op`, with the cursor at
        `j`, the method form of `Codec.StepAfter`: the chunk it pushes, the cursor after it, and whether the cursor
        has become negative, which ends the loop. */
    static method ReadAfterOpcode(buf: seq<byte>, op: int, j: nat) returns (chunk: Chunk, next: nat, last: bool)
      ensures StepAfter(buf, op, j) == if last then ReadLast(chunk) else Read(chunk, next)
    {
      next, last := j, false;
      if 0 < op < OP_PUSHDATA1 {
        chunk := Data(Slice(buf, next, next + op));
        next := next + op;
      } else if op == OP_PUSHDATA1 {
        var len := ByteAt(buf, next);
        next := next + 1;
        chunk := Data(Slice(buf, next, next + len));
        next := next + len;
      } else if op == OP_PUSHDATA2 {
        var len := ByteAt(buf, next) * 256 + ByteAt(buf, next + 1);
        next := next + 2;
        chunk := Data(Slice(buf, next, next + len));
        next := next + len;
      } else if op == OP_PUSHDATA4 {
        var len := Int32Length(buf, next);
        next := next + 4;
        if len < 0 {
          chunk := Data(NegativeSlice(buf, next, len));
          last := true;
        } else {
          chunk := Data(Slice(buf, next, next + len));
          next := next + len;
        }
      } else {
        chunk := Op(op);
      }
    }

    /** `writeOp`: one byte appended to the buffer, one opcode to the chunks. */
    method WriteOp(op: int)
      requires 0 <= op < 256
      modifies this
      ensures buffer == old(buffer) + [op as byte]
      ensures chunks == old(chunks) + [Op(op)]
      ensures isCoinbase == old(isCoinbase)
      ensures old(Consistent()) ==> Consistent()
    {
      if Consistent() {
        SerializeAppend(chunks, Op(op));
      }
      buffer := buffer + [op as byte];
      chunks := chunks + [Op(op)];
    }

    /** `writeBytes`: an opcode is appended as `writeOp` does; a payload
        after the push prefix for its length (`Codec.PushPrefix`). */
    method WriteBytes(c: Chunk)
      requires Writable(c)
      modifies this
      ensures buffer == old(buffer) + EncodeChunk(c)
      ensures chunks == old(chunks) + [c]
      ensures isCoinbase == old(isCoinbase)
      ensures old(Consistent()) ==> Consistent()
    {
      ghost var oldBuffer, oldChunks := buffer, chunks;
      var pushed: seq<byte>;
      if c.Op? {
        pushed := [c.code as byte];
      } else {
        pushed := PushPrefix(|c.bytes|) + c.bytes;
      }
      assert pushed == EncodeChunk(c);
      buffer := buffer + pushed;
      chunks := chunks + [c];
      if AllWritable(oldChunks) && oldBuffer == Serialize(oldChunks) {
        SerializeAppend(oldChunks, c);
      }
    }

    /** `Script.fromChunks`: an empty script, then `writeBytes` for each
        chunk in turn. */
    static method FromChunks(cs: seq<Chunk>) returns (s: Script)
      requires AllWritable(cs)
      ensures fresh(s)
      ensures s.chunks == cs && s.buffer == Serialize(cs) && !s.isCoinbase
      ensures s.Consistent()
    {
      s := new Script([], false);
      var i := 0;
      while i < |cs|
        invariant 0 <= i <= |cs|
        invariant fresh(s)
        invariant s.chunks == cs[..i] && !s.isCoinbase
        invariant s.Consistent()
      {
        s.WriteBytes(cs[i]);
        assert cs[..i + 1] == cs[..i] + [cs[i]];
        i := i + 1;
      }
      assert cs[..i] == cs;
    }

    /** `clone`: a new script over the same bytes, parsed afresh (even when
        this one is a coinbase script, whose flag is not carried over). */
    method Clone() returns (s: Script)
      ensures fresh(s)
      ensures s.buffer == buffer && s.chunks == InitialChunks(buffer, false) && !s.isCoinbase
    {
      s := new Script(buffer, false);
    }

    /** `Script.createOutputScript(address, network)`: `getType` stands for
        the address's own `getType`, asked with the network or the default
        one. A pubkeyhash or scripthash address gets its standard output, any
        other gets `false` (here `None`). */
    static method CreateOutputScript(address: Address, network: string, defaultNetwork: string,
                                     getType: (Address, string) -> AddressType)
      returns (r: Option<Script>)
      ensures var t := getType(address, NetworkOr(network, defaultNetwork));
        && (r.None? <==> t == OtherAddress)
        && (r.Some? ==> fresh(r.value) && r.value.Consistent()
                        && r.value.chunks == OutputScript(address.hash, t).value)
    {
      var script := new Script([], false);
      var t := getType(address, NetworkOr(network, defaultNetwork));
      if t == PubKeyHashAddress {
        script.WriteOp(OP_DUP);
        script.WriteOp(OP_HASH160);
        script.WriteBytes(Data(address.hash));
        script.WriteOp(OP_EQUALVERIFY);
        script.WriteOp(OP_CHECKSIG);
      } else if t == ScriptHashAddress {
        script.WriteOp(OP_HASH160);
        script.WriteBytes(Data(address.hash));
        script.WriteOp(OP_EQUAL);
      } else {
        return None;
      }
      return Some(script);
    }

    /** `Script.createMultiSigOutputScript(m, pubkeys, explicitSorting)`. */
    static method CreateMultiSigOutputScript(m: int, pubkeys: seq<seq<byte>>, explicitSorting: bool)
      returns (s: Script)
      requires 0 <= OP_1 + m - 1 < 256 && OP_1 + |pubkeys| - 1 < 256
      ensures fresh(s) && s.Consistent()
      ensures s.chunks == MultisigOutput(m, pubkeys, explicitSorting)
    {
      var keys := KeyOrder(pubkeys, explicitSorting);
      assert |keys| == |pubkeys| by {
        SortKeysSortsAndPermutes(pubkeys);
      }
      s := WriteMultisig(OP_1 + m - 1, keys);
    }

    /** The writes of `createMultiSigOutputScript` once the keys are in
        order: the opcode of `m`, each key, the opcode of `n`,
        OP_CHECKMULTISIG. */
    static method WriteMultisig(mOp: int, keys: seq<seq<byte>>) returns (s: Script)
      requires 0 <= mOp < 256 && OP_1 + |keys| - 1 < 256
      ensures fresh(s) && s.Consistent()
      ensures s.chunks == MultisigScript(mOp, keys)
    {
      s := new Script([], false);
      s.WriteOp(mOp);
      ghost var head := s.chunks;
      var i := 0;
      while i < |keys|
        invariant 0 <= i <= |keys|
        invariant fresh(s) && s.Consistent()
        invariant s.chunks == head + DataChunks(keys[..i])
      {
        s.WriteBytes(Data(keys[i]));
        assert DataChunks(keys[..i + 1]) == DataChunks(keys[..i]) + [Data(keys[i])];
        i := i + 1;
      }
      assert keys[..i] == keys;
      ghost var body := s.chunks;
      s.WriteOp(OP_1 + |keys| - 1);
      s.WriteOp(OP_CHECKMULTISIG);
      ghost var closing := [Op(OP_RESERVED + |keys|), Op(OP_CHECKMULTISIG)];
      assert s.chunks == body + [closing[0]] + [closing[1]];
      assert body + [closing[0]] + [closing[1]] == body + closing;
      assert head == [Op(mOp)];
    }

    /** `Script.createInputScript(signature, pubKey)`. */
    static method CreateInputScript(signature: seq<byte>, pubKey: seq<byte>) returns (s: Script)
      ensures fresh(s) && s.Consistent()
      ensures s.chunks == InputScript(signature, pubKey)
    {
      s := new Script([], false);
      s.WriteBytes(Data(signature));
      s.WriteBytes(Data(pubKey));
    }

    /** `Script.createMultiSigInputScript(signatures, script)` on the bytes of
        the redeem script: `k` is the first byte of the first chunk, which only
        a payload has; `false` becomes `NotEnoughSignatures` and the throw on a
        script without chunks `TypeError`. */
    static method CreateMultiSigInputScript(signatures: seq<seq<byte>>, redeem: seq<byte>)
      returns (r: Result<Script, ScriptError>)
      ensures var spec := MultiSigInput(signatures, redeem);
        && (r.Success? <==> spec.Success?)
        && (r.Failure? ==> r.error == spec.error)
        && (r.Success? ==> fresh(r.value) && r.value.Consistent() && r.value.chunks == spec.value)
    {
      hide StepAt;
      var script := new Script(redeem, false);
      InitialChunksEmpty(redeem, false);
      if script.chunks == [] {
        return Failure(TypeError);
      }
      var first := script.chunks[0];
      if first.Data? && |first.bytes| > 0 && |signatures| < first.bytes[0] {
        return Failure(NotEnoughSignatures);
      }
      var inScript := WriteMultisigInput(signatures, script.buffer);
      return Success(inScript);
    }

    /** The writes of `createMultiSigInputScript` once the signature count
        has passed: OP_0, each signature, the redeem script's bytes. */
    static method WriteMultisigInput(signatures: seq<seq<byte>>, redeem: seq<byte>) returns (s: Script)
      ensures fresh(s) && s.Consistent()
      ensures s.chunks == [Op(OP_0)] + DataChunks(signatures) + [Data(redeem)]
    {
      s := new Script([], false);
      s.WriteOp(OP_0);
      ghost var head := s.chunks;
      var i := 0;
      while i < |signatures|
        invariant 0 <= i <= |signatures|
        invariant fresh(s) && s.Consistent()
        invariant s.chunks == head + DataChunks(signatures[..i])
      {
        s.WriteBytes(Data(signatures[i]));
        assert DataChunks(signatures[..i + 1]) == DataChunks(signatures[..i]) + [Data(signatures[i])];
        i := i + 1;
      }
      assert signatures[..i] == signatures;
      s.WriteBytes(Data(redeem));
      assert head == [Op(OP_0)];
    }

    /** `toASM(truncate, maxEl)`: a `null` truncate becomes `true`, a missing
        `maxEl` 20, and the loop runs over a fresh clone's chunks. */
    method ToASM(truncate: TruncateArg, maxEl: Option<int>, opName: int -> string) returns (s: string)
      ensures s == Asm.Asm(buffer, truncate, maxEl, opName)
    {
      var tmp := Clone();
      var t := if truncate == TruncateNull then TruncateTrue else truncate;
      var limit := MaxElements(maxEl);
      var cs := tmp.chunks;
      var st := Style(GetOutType(cs) == Multisig, t, opName);
      s := RenderAll(cs, st, limit);
    }

    /** The loop of `toASM`, the method form of `Asm.AsmFrom`: each chunk in
        turn, stopping with " ..." after the chunk whose index exceeds a
        non-zero `limit`. */
    static method RenderAll(cs: seq<Chunk>, st: Style, limit: int) returns (s: string)
      requires st.truncate != TruncateNull
      ensures s == AsmFrom(cs, 0, st, limit)
    {
      s := "";
      var i := 0;
      ghost var whole := AsmFrom(cs, i, st, limit);
      while i < |cs|
        invariant 0 <= i <= |cs|
        invariant s + AsmFrom(cs, i, st, limit) == whole
      {
        var piece := RenderAt(cs[i], i, st);
        AsmFromAt(cs, i, st, limit);
        if limit != 0 && i > limit {
          ConcatAssoc(s, piece, " ...");
          s := s + piece + " ...";
          return;
        }
        ConcatAssoc(s, piece, AsmFrom(cs, i + 1, st, limit));
        s := s + piece;
        i := i + 1;
      }
    }

    /** One turn of `toASM`'s loop before the `maxEl` test, the method form
        of `Asm.RenderChunk` after its separator: a space unless
        this is the first chunk, then a payload's hex digits (all of them
        when `truncate` is `true`, at most 100 bytes' worth otherwise) and
        "..." when `truncate` is truthy, or an opcode's name. */
    static method RenderAt(chunk: Chunk, i: nat, st: Style) returns (piece: string)
      requires st.truncate != TruncateNull
      ensures piece == (if i > 0 then " " else "") + RenderChunk(chunk, st)
    {
      piece := if i > 0 then " " else "";
      if chunk.Data? {
        var maxLen := if st.truncate == TruncateTrue then |chunk.bytes| else 100;
        var shown := if maxLen < |chunk.bytes| then maxLen else |chunk.bytes|;
        piece := piece + Hex(chunk.bytes[..shown]);
        if st.truncate != TruncateFalsy {
          piece := piece + "...";
        }
      } else if st.multisig && chunk.code == 80 {
        piece := piece + "OP_0";
      } else if st.multisig && chunk.code == 81 {
        piece := piece + "OP_1";
      } else {
        piece := piece + st.opName(chunk.code);
      }
    }
  }
}
