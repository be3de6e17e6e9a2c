# btc-script in Dafny

A model of the `Script` class of the btc-script library (`lib/script.js`),
with proofs about it. A Bitcoin script is kept in two forms: its raw bytes
(`buffer`) and a sequence of chunks, each a bare opcode or a pushed payload
(`chunks`). The model covers these parts of the library:

- the parser, which turns bytes into chunks, including two-byte opcodes,
  reads past the end and the signed 32-bit PUSHDATA4 length;
- the builder (`writeOp`, `writeBytes`, `fromChunks`), which appends a
  chunk's encoding and keeps the two forms in step;
- the constructor with its size limit and its coinbase flag;
- the output and input template classifiers (`getOutType`, `getInType`,
  `simpleInPubKey`, `extractPubkeys`);
- the script factories (`createOutputScript`, `createMultiSigOutputScript`,
  `createInputScript`, `createMultiSigInputScript`), including the text
  order in which JavaScript's default `sort` puts public keys;
- `toAddress`/`toAddresses`, `getBlockHeight` (BIP 34) and `toASM`.

Modules, one per file:

| module | file | contents |
|---|---|---|
| `Wrappers` | wrappers.dfy | `Option` and `Result` |
| `Chunks` | chunks.dfy | bytes, opcode values, the `Chunk` datatype, error kinds |
| `ByteOrder` | byteorder.dfy | big- and little-endian values of byte strings |
| `Codec` | codec.dfy | the parser and the builder's encoding as functions; the round trip and where it fails |
| `Templates` | templates.dfy | the classifiers |
| `Addresses` | addresses.dfy | `toAddress`, `toAddresses`, the output script for an address |
| `Ordering` | ordering.dfy | the key text, JavaScript string order, insertion sort |
| `Factories` | factories.dfy | the chunk sequences the factories emit |
| `Coinbase` | coinbase.dfy | `getBlockHeight` |
| `Asm` | asm.dfy | hex rendering and `toASM` as a function |
| `Scripts` | scripts.dfy | the `Script` class: constructor, `parse`, the builders, the factories, `clone`, `toASM` |

The class `Scripts.Script` holds the fields the library updates in place.
Its methods are proved against the functions of the other modules:

- `Parse` against `Codec.ParseChunks`;
- the builders against `Codec.Serialize`, keeping the invariant
  `Consistent()` (the buffer is the encoding of the chunks);
- the factories against `Factories` and `Addresses`;
- `ToASM` against `Asm.Asm`.

Three external inputs are parameters:

- the opcode name table (`int -> string`);
- the hash160 digest (`seq<byte> -> seq<byte>`);
- the address type lookup.

The process-wide default network is a parameter too.

## Model

| member | source | states |
|---|---|---|
| Scripts.Script.constructor | lib/script.js:21-59 | The buffer is the given bytes. A coinbase script or one over 10000 bytes keeps each byte as an opcode chunk; any other script holds the parse of its bytes. |
| Scripts.Script.Parse | lib/script.js:123-164 | The cursor loop leaves `chunks` equal to `ParseChunks(buffer)`. The buffer and the coinbase flag are unchanged. |
| Scripts.Script.ReadAfterOpcode | lib/script.js:144-162 | One turn of the loop after the opcode reads what `StepAfter` specifies. That is the payload a push opcode announces, or the opcode itself; a negative PUSHDATA4 length ends the loop. |
| Scripts.Script.WriteOp | lib/script.js:403-406 | Appends exactly the opcode byte to the buffer and `Op(op)` to the chunks, leaving earlier contents unchanged. It keeps the buffer the encoding of the chunks. |
| Scripts.Script.WriteBytes | lib/script.js:411-437 | Appends the chunk's encoding (`PushPrefix(len) + payload`, or the opcode byte) to the buffer and exactly the chunk to the chunks. It keeps the buffer the encoding of the chunks. |
| Scripts.Script.FromChunks | lib/script.js:101-110 | The new script holds exactly the given chunks, its buffer is their serialisation, and it is not a coinbase script. |
| Scripts.Script.Clone | lib/script.js:530-532 | A fresh script over the same bytes, parsed again, without the coinbase flag. |
| Scripts.Script.CreateOutputScript | lib/script.js:442-471 | Fails exactly when the address type is neither pubkeyhash nor scripthash. Otherwise the script is the standard P2PKH or P2SH output for the address hash. |
| Scripts.Script.CreateMultiSigOutputScript | lib/script.js:486-502 | The new script's chunks are `MultisigOutput(m, pubkeys, explicitSorting)`, and its buffer is their encoding. |
| Scripts.Script.WriteMultisig | lib/script.js:491-499 | Writing the opcode of m, each key, the opcode of n and OP_CHECKMULTISIG gives exactly `MultisigScript(mOp, keys)`. |
| Scripts.Script.CreateInputScript | lib/script.js:507-512 | The new script is `[Data(signature), Data(pubKey)]`, with a consistent buffer. |
| Scripts.Script.CreateMultiSigInputScript | lib/script.js:517-528 | Succeeds exactly when `Factories.MultiSigInput` does (the count check as written), with the same error otherwise. On success it returns a consistent script with the specified chunks. |
| Scripts.Script.WriteMultisigInput | lib/script.js:521-527 | The writes give exactly OP_0, one data chunk per signature in order, and the redeem script's bytes as one payload. |
| Scripts.Script.ToASM | lib/script.js:544-597 | The text is `Asm.Asm` of the script's buffer, with the defaults for `truncate` and `maxEl` applied. |
| Scripts.Script.RenderAll | lib/script.js:555-596 | The loop accumulating `s` produces `AsmFrom(cs, 0, …)`, including the early stop with " ...". |
| Scripts.Script.RenderAt | lib/script.js:559-589 | One turn of the loop appends a space (except before the first chunk), then the chunk as `RenderChunk` gives it. |
| Codec.IsValid | lib/script.js:61-69 | Definition of `isValid` on a byte array: at most 10000 bytes. |
| Codec.InitialChunks | lib/script.js:36-58 | Definition of the constructor's chunks: the raw bytes for a coinbase or invalid script, the parse otherwise. `Codec.InitialChunksEmpty` and the constructor's contract rest on it. |
| Codec.SerializeRawChunks | lib/script.js:47-55 | The raw chunks of an unparsed (coinbase or oversized) script agree with its buffer: written back, they give exactly its bytes. |
| Codec.InitialChunksEmpty | lib/script.js:21-59 | A constructed script has no chunks exactly when it has no bytes. |
| Codec.Slice | lib/script.js:133 | `slice(from, to)` gives at most `to - from` bytes, exactly `buf[from..to]` when the buffer is long enough. |
| Codec.Int32Length | lib/script.js:155-158 | The PUSHDATA4 length is negative exactly when its first byte is 0x80 or more (signed 32-bit shifts). |
| Codec.NegativeSlice | lib/script.js:133 | `slice(from, from + n)` for a negative `n`: empty when the end is not below zero. Otherwise the end counts back from the end of the buffer, so the result followed by the buffer's last `-(from + n)` bytes is everything from `from` on, and it is empty exactly when `n` reaches back over the whole buffer. `Codec.StepAfter` takes the chunk at a negative PUSHDATA4 length with it. |
| Codec.AfterOpcode | lib/script.js:138-142 | Reading an opcode always moves the cursor forward. |
| Codec.ReadPush | lib/script.js:132-135 | `readChunk` with a non-negative length never moves the cursor back. |
| Codec.StepAfter | lib/script.js:144-162 | A step that carries on never moves the cursor back. |
| Codec.StepAt | lib/script.js:137-163 | Each turn of the loop that carries on moves the cursor strictly forward, so the parse terminates. |
| Codec.StepAtAsWritten | lib/script.js:137-159 | Definition of one turn of the loop as written, where a negative PUSHDATA4 length moves the cursor back. `Codec.StepAsWrittenDiffers` and `Codec.ParseLoopsAsWritten` state where it differs from `StepAt`. |
| Codec.ParseFrom | lib/script.js:137-163 | Definition of the chunks the loop produces from a cursor on. `Codec.ParseCursors` and `Codec.ParsedChunkAt` characterise them. |
| Codec.ParseChunks | lib/script.js:123-164 | Definition of `parse` as a function of the buffer; `Scripts.Script.Parse` is proved against it. The round trip is `Codec.ParseSerialize` and `Codec.SerializeParse`. |
| Codec.PushPrefix | lib/script.js:419-434 | Definition of the push prefix `writeBytes` chooses. `Codec.PushPrefixDeclares` states what it declares. |
| Codec.EncodeChunk | lib/script.js:403-437 | Definition of the bytes one `writeOp`/`writeBytes` appends. |
| Codec.Serialize | lib/script.js:101-110 | Definition of the buffer `fromChunks` builds. `Codec.SerializeAppend` ties it to the builder, and `Codec.ParseSerialize` gives its round trip. |
| Codec.StepAsWrittenDiffers | lib/script.js:137-159 | The loop as written differs from the model's step exactly at a PUSHDATA4 with a negative length that leaves the cursor at 0 or more. There the model stops, while the loop pushes an empty chunk and goes on from a cursor before the end of the length bytes. |
| Codec.ParseLoopsAsWritten | lib/script.js:137-159 | On 4e ff ff ff fb the loop as written returns to cursor 0 with an empty chunk and repeats forever. The model yields one empty chunk. |
| Codec.SerializeAppend | lib/script.js:403-437 | Serialising one more chunk appends exactly its encoding. |
| Codec.PushPrefixDeclares | lib/script.js:419-434 | The prefix is the length below 76, then `76,len` up to 255. Above that it is 77 or 78 with 2 or 4 length bytes whose little-endian value is the length; the parser's big-endian reading of those two bytes is the swapped value. |
| Codec.LengthBytesOfPushData4 | lib/script.js:428-433 | The four PUSHDATA4 length bytes are the length, least significant first. |
| Codec.ParseShift | lib/script.js:123-164 | From a cursor inside a suffix, the parser reads the suffix as it reads it on its own, when that parse runs to the end. |
| Codec.ParsesToEndShift | lib/script.js:137-163 | A parse that runs to the end of a suffix still does so after a prefix. |
| Codec.ParseEncoded | lib/script.js:123-164 | The encoding of a round-tripping chunk parses back to that chunk, followed by the parse of what comes after. |
| Codec.ParseSerialize | lib/script.js:123-164 | Round trip: chunks that are opcodes 0 or 79..239, or payloads of 1 to 255 bytes, parse back from their serialisation. |
| Codec.SerializeParse | lib/script.js:101-110 | The other direction: such a buffer is rebuilt unchanged from its parse. |
| Codec.EmptyPushReparsesAsOp0 | lib/script.js:419-420 | An empty payload is written as byte 0 and read back as `Op(OP_0)`. |
| Codec.PushData2ReadsSwappedLength | lib/script.js:151-153 | A PUSHDATA2 payload is read back with its two length bytes swapped, and the parse resumes after that many bytes. |
| Codec.Push256DoesNotRoundTrip | lib/script.js:424-427 | A 256-byte payload does not round-trip: it reads back as its first byte alone. |
| Codec.PushData4ReadsReversedLength | lib/script.js:154-159 | A PUSHDATA4 payload is read back with its four length bytes reversed, when the lowest length byte is below 0x80. |
| Codec.PushData4Step | lib/script.js:154-159 | The first parser step over such an encoding reads the reversed length and takes that many bytes. |
| Codec.PushData4NegativeLength | lib/script.js:154-159 | When the lowest length byte is 0x80 or more, the parse yields a single data chunk. |
| Codec.ClippedPushIsFinal | lib/script.js:132-135 | A direct push that declares more bytes than remain yields the remaining bytes as the last chunk. |
| Codec.MissingLengthReadsZero | lib/script.js:148-159 | A PUSHDATA opcode with no length bytes reads the length as 0 and yields one empty chunk. |
| Codec.TwoByteOpcode | lib/script.js:139-142 | A byte of 0xF0 or more combines with the next byte into the opcode `hi * 256 + lo`. |
| Codec.TruncatedTwoByteOpcode | lib/script.js:139-142 | A final byte of 0xF0 or more reads its missing second byte as 0. |
| Codec.PushAt | lib/script.js:144-159 | Definition of what the opcode at a cursor declares: the payload's start after the length bytes and its declared length (`len`), or no push. |
| Codec.StepReadsDeclared | lib/script.js:132-162 | One step reads what the opcode at the cursor declares (`Codec.PushAt`). That is a bare opcode, or the declared number of bytes from the payload's start clipped at the buffer's end, continuing at the declared end; a negative length ends the parse. |
| Codec.ParseCursors | lib/script.js:137-163 | The parse is the chunks read at its cursors, in order: the first at 0, each later one where the step before it ended. |
| Codec.ParsedChunkAt | lib/script.js:132-162 | Every parsed chunk is what the opcode at its cursor declares: an opcode, or `buf[start..start + declared]` clipped at the end. Every chunk but the last is read in full and followed by the next at its declared end, so only the last can be shorter than declared. A negative PUSHDATA4 length can only be the last chunk. |
| ByteOrder.Reverse | lib/script.js:539 | `reverse()` puts byte `k` at position `|bs| - 1 - k`. |
| ByteOrder.BigEndianOfReverse | lib/script.js:539 | The unsigned big-endian value of the reversed bytes is their little-endian value. |
| ByteOrder.LittleEndianBound | lib/script.js:539 | `n` bytes hold a value below 256^n. |
| ByteOrder.BigEndianPair | lib/script.js:152 | The parser's PUSHDATA2 length is `b0 * 256 + b1`. |
| ByteOrder.BigEndianQuad | lib/script.js:155-158 | The parser's unsigned PUSHDATA4 length is the four bytes, most significant first. |
| ByteOrder.LittleEndianPair | lib/script.js:426-427 | Two bytes read least significant first. |
| ByteOrder.LittleEndianQuad | lib/script.js:430-433 | Four bytes read least significant first. |
| Templates.IsSmallIntOp | lib/script.js:270-273 | Definition of `isSmallIntOp` on an opcode chunk: OP_0 or OP_1..OP_16. |
| Templates.GetOutType | lib/script.js:216-259 | Definition of `getOutType`, the first matching template in the library's order. The `OutType*` lemmas below characterise each answer. |
| Templates.ArePubkeys | lib/script.js:261-268 | The loop returns true exactly when every chunk is a payload. |
| Templates.OutTypePubKeyHash | lib/script.js:217-225 | Classified pubkeyhash exactly for `OP_DUP OP_HASH160 [20 bytes] OP_EQUALVERIFY OP_CHECKSIG`. |
| Templates.OutTypePubKey | lib/script.js:226-230 | Classified pubkey exactly for `[payload] OP_CHECKSIG`. |
| Templates.OutTypeScriptHash | lib/script.js:231-237 | Classified scripthash exactly for `OP_HASH160 [20 bytes] OP_EQUAL` (BIP 16). |
| Templates.MultisigIsScript | lib/script.js:238-253 | A script classified multisig is `m [keys] n OP_CHECKMULTISIG`. Its m is a small int no larger than n, and there are 1 to 16 keys. |
| Templates.MultisigScriptIsMultisig | lib/script.js:238-253 | Every such script with valid parameters is classified multisig. |
| Templates.MultisigScriptClassified | lib/script.js:238-253 | A script of the multisig shape is classified multisig exactly when its parameters are valid. |
| Templates.OutTypeMultisig | lib/script.js:238-253 | Classified multisig exactly for the BIP 11 template with valid parameters. |
| Templates.OutTypeNullData | lib/script.js:254-255 | Classified nulldata exactly when the first chunk is OP_RETURN (the earlier templates all have a different first chunk). |
| Templates.LooksLikeSignature | lib/script.js:366 | Definition of the callback's test `chunk[0] == 48` on a payload. |
| Templates.ReduceCallback | lib/script.js:365-367 | Definition of the `reduce` callback, including the TypeError from reading `this.chunks`. |
| Templates.Reduce | lib/script.js:365-367 | Definition of `reduce` as a left fold that a throw ends. `Templates.ReduceFromTrue` states what it computes. |
| Templates.GetInType | lib/script.js:354-372 | Definition of `getInType` as written. `Templates.InTypeShapes` and `Templates.InTypeError` characterise it. |
| Templates.GetInTypeIntended | lib/script.js:354-372 | Definition of `getInType` as its comment describes it (see Findings). `Templates.InTypeAgreesWhereDefined` relates it to the code. |
| Templates.FirstNonSignature | lib/script.js:365-367 | Gives the first chunk that does not look like a signature: every chunk before it does. |
| Templates.ReduceFromFalse | lib/script.js:365-367 | The fold started from false stays false. |
| Templates.ReduceFromTrue | lib/script.js:365-367 | The fold is true when every chunk looks like a signature. Otherwise the first chunk that does not decides it: false for an opcode, a TypeError for a payload. |
| Templates.InTypeShapes | lib/script.js:354-368 | `getInType` gives pubkey exactly for one payload and pubkeyhash exactly for two. It gives multisig exactly for OP_0 followed only by payloads that start with 0x30. |
| Templates.InTypeError | lib/script.js:364-367 | `getInType` throws (a TypeError) exactly when, after OP_0, the first chunk that is not a signature is a payload. |
| Templates.InTypeAgreesWhereDefined | lib/script.js:354-371 | Wherever the as-written classifier returns a type, it is the one the documented classifier gives. |
| Templates.SimpleInPubKey | lib/script.js:387-398 | Returns the second chunk exactly for two payloads. It fails with "no pubkey" exactly for a single payload. It passes on `getInType`'s TypeError exactly where that throws (see Findings), and gives "non-standard" otherwise. |
| Templates.LooksLikePubKey | lib/script.js:479 | Definition of the filter's test: 65 bytes after the tag 4, or 33 bytes after a tag below 4. |
| Templates.ExtractPubkeys | lib/script.js:477-481 | No longer than the input. Every chunk in it has public-key shape and occurs in the input, and every chunk of that shape is in it. |
| Templates.ExtractPubkeysCounts | lib/script.js:477-481 | Each chunk of public-key shape is kept as often as it occurs, and nothing else is. |
| Templates.ExtractPubkeysAppend | lib/script.js:478-480 | The filter distributes over concatenation. |
| Templates.ExtractPubkeysOfKeys | lib/script.js:477-481 | From payloads of public-key shape the filter keeps all of them, in order. |
| Templates.ExtractPubkeysOfMultisig | lib/script.js:477-481 | From a multisig output with keys of public-key shape, it returns exactly the keys, in order. |
| Addresses.ToAddresses | lib/script.js:307-327 | Definition of `toAddresses`. `Addresses.ToAddressesOfMultisig` and `Addresses.ToAddressesDropsNetwork` characterise its two paths. |
| Addresses.ToAddress | lib/script.js:287-302 | An address exactly for pubkeyhash, pubkey and scripthash outputs, on the requested or default network. Its type is scripthash exactly for scripthash outputs. |
| Addresses.ToAddressOfOutputScript | lib/script.js:287-302 | Round trip: the output script built for a 20-byte hash and type reads back as that hash and type. |
| Addresses.ToAddressOfPubKey | lib/script.js:291-296 | A pay-to-pubkey output pays to the hash160 of its key. |
| Addresses.ToAddressesOfMultisig | lib/script.js:307-318 | A multisig output yields one pubkeyhash address per key, in chunk order, whatever m is. |
| Addresses.ToAddressesDropsNetwork | lib/script.js:319-326 | Outside multisig the result is the singleton of `toAddress` or false. The network argument is ignored, so the address is on the default network. |
| Addresses.OutputScript | lib/script.js:449-468 | No output script exactly for an address that is neither pubkeyhash nor scripthash. Otherwise the script carries the address hash, and for a 20-byte hash `getOutType` classifies it as pubkeyhash or scripthash, following the address type. `Addresses.ToAddressOfOutputScript` completes the round trip. |
| Ordering.Key | lib/script.js:489 | Definition of `String(bytes)`: the decimal values joined by commas. `Ordering.KeyInjective` shows it loses nothing. |
| Ordering.StrLess | lib/script.js:489 | Definition of JavaScript's `<` on strings. The `StrLess*` lemmas show it is a strict total order. |
| Ordering.Insert | lib/script.js:489 | Definition of inserting one key before the first larger one. |
| Ordering.SortKeys | lib/script.js:489 | Definition of `pubkeys.slice().sort()` as an insertion sort on a copy. `Ordering.SortKeysSortsAndPermutes` and `Ordering.SortedUnique` state its result. |
| Ordering.Dec | lib/script.js:489 | `String(n)` is at least one decimal digit, and at least two exactly when n ≥ 10. |
| Ordering.DecInjective | lib/script.js:489 | Distinct numbers have distinct decimal strings. |
| Ordering.KeyShape | lib/script.js:489 | A key's string is empty only for the empty key; otherwise the first number is followed by a comma exactly when there is more. |
| Ordering.KeyInjective | lib/script.js:489 | Distinct keys have distinct comma-joined strings. |
| Ordering.StrLessIrreflexive | lib/script.js:489 | JavaScript string order is irreflexive. |
| Ordering.StrLessTotal | lib/script.js:489 | JavaScript string order relates any two different strings. |
| Ordering.StrLessAsymmetric | lib/script.js:489 | JavaScript string order is asymmetric. |
| Ordering.StrLessTransitive | lib/script.js:489 | JavaScript string order is transitive. |
| Ordering.KeyLessTotal | lib/script.js:489 | The key order is a strict total order. |
| Ordering.InsertPermutes | lib/script.js:489 | Insertion adds exactly the one key. |
| Ordering.InsertSorted | lib/script.js:489 | Insertion keeps a sequence sorted. |
| Ordering.SortKeysSortsAndPermutes | lib/script.js:489 | `slice().sort()` returns a sorted permutation of the keys. |
| Ordering.SortedUnique | lib/script.js:489 | Two sorted permutations of the same keys are equal, so every sort algorithm gives this result. |
| Ordering.SortKeysPermutationInvariant | lib/script.js:489 | The sorted keys do not depend on the order given. |
| Ordering.TextOrderIsNotByteOrder | lib/script.js:489 | Keys 02 c8 .. and 02 1e .. are sorted as "2,200,.." before "2,30,..", the reverse of their byte order. |
| Factories.KeyOrder | lib/script.js:489 | Definition of the key order: as given under explicit sorting, sorted otherwise. |
| Factories.MultisigOutput | lib/script.js:486-502 | Definition of the chunks `createMultiSigOutputScript` writes. The lemmas below and `Scripts.Script.CreateMultiSigOutputScript` state its properties. |
| Factories.InputScript | lib/script.js:507-512 | Definition of the chunks `createInputScript` writes. |
| Factories.MultisigOutputClassified | lib/script.js:486-502 | The factory's output is classified multisig exactly when 1 ≤ m ≤ number of keys ≤ 16, or m = -80 (which gives OP_0) with 1 to 16 keys. |
| Factories.MultisigOutputPermutationInvariant | lib/script.js:489 | Without explicit sorting, any permutation of the keys gives the same output. |
| Factories.MultisigOutputKeys | lib/script.js:489-495 | The keys are written each exactly once: as given under explicit sorting, sorted otherwise. The output has n + 3 chunks. |
| Factories.InputScriptClassified | lib/script.js:507-512 | `createInputScript` builds a pubkeyhash input whose `simpleInPubKey` is the key. |
| Factories.MultiSigInput | lib/script.js:517-528 | On success the input is OP_0, the signatures and the redeem script. A TypeError occurs exactly for an empty redeem script. |
| Factories.MultiSigInputIntended | lib/script.js:517-528 | The factory with the intended count check. On success the input is OP_0, the signatures and the redeem script. A TypeError occurs exactly for an empty redeem script. |
| Factories.DirectPushRedeemChecksCount | lib/script.js:518-520 | For a redeem script within the size limit that starts with a direct push, the input fails for lack of signatures exactly when there are fewer than the first payload byte. An oversized redeem script is never checked. |
| Factories.StandardRedeemSkipsSignatureCount | lib/script.js:518-520 | For a standard m-of-n redeem script the signature count is never checked: any number of signatures, even none, succeeds. |
| Factories.FirstChunkOfRedeem | lib/script.js:518-519 | The redeem script is read back starting with the opcode of m. |
| Factories.StandardRedeemChecksSignatureCount | lib/script.js:519-520 | With the intended check, a standard m-of-n redeem script accepts exactly the inputs with at least m signatures. |
| Factories.MultisigInputRejectedAsWritten | lib/script.js:364-367 | `getInType` throws on the multisig input the factory builds. The documented classifier recognises it as multisig. |
| Coinbase.GetBlockHeight | lib/script.js:534-542 | On a coinbase script the height is the little-endian value of `buffer[1..1+buffer[0]]`; on any other script it is false. |
| Coinbase.BlockHeightOfPush | lib/script.js:534-540 | BIP 34: a direct push of the height's little-endian bytes reads back as that height. |
| Coinbase.BlockHeightExample | lib/script.js:534-540 | The coinbase script 03d891000450a8eb0b4ed20100 is at height 37336. |
| Asm.MaxElements | lib/script.js:550-552 | Definition of the `maxEl` default: 20 when the argument is missing. |
| Asm.RenderData | lib/script.js:563-573 | Definition of a payload's text. `Asm.RenderDataShows` states what it shows. |
| Asm.RenderOp | lib/script.js:575-588 | Definition of an opcode's text. `Asm.MultisigOpNames` states the OP_0/OP_1 rule. |
| Asm.RenderChunk | lib/script.js:563-589 | Definition of one chunk's text, a payload or an opcode. |
| Asm.AsmFrom | lib/script.js:555-596 | Definition of the text the loop appends from a chunk on. `Asm.AsmCut` states it as a space-joined list with the cut. |
| Asm.Asm | lib/script.js:544-597 | Definition of `toASM` on a buffer; `Scripts.Script.ToASM` is proved against it. |
| Asm.Hex | lib/script.js:569 | Two lowercase hex digits per byte. |
| Asm.UnhexHex | lib/script.js:569 | The hex text determines the bytes. |
| Asm.HexAppend | lib/script.js:569 | Hex distributes over concatenation. |
| Asm.ShownLength | lib/script.js:564-569 | Never more bytes than the payload has. |
| Asm.RenderDataShows | lib/script.js:563-573 | A payload renders as all of its bytes under `true`/`null`, otherwise its first at most 100 bytes. "..." follows exactly when `truncate` is truthy. |
| Asm.AsmCut | lib/script.js:555-596 | The rendered chunks are joined by single spaces. When a non-zero `maxEl` is exceeded, the text stops after index `maxEl + 1` with " ...". |
| Asm.ScriptHashAsm | lib/script.js:544-597 | `toASM` with the default arguments, applied to the bytes of a P2SH output script, gives the name of OP_HASH160, the hash in hex and the name of OP_EQUAL: the bytes parse back to the three chunks, which classify as scripthash and so are not rendered as multisig. |
| Asm.MultisigOpNames | lib/script.js:575-588 | In a multisig script 80 and 81 render as OP_0 and OP_1 whatever the name table says; elsewhere the table decides. |

## Left out

- The opcode table, `btc-address` (construction, `getType`, encoding), the hash160 digest, hex conversion, `bigi` and Node's `Buffer` are other libraries. Names, digests and address types are function parameters, and an address is kept as its constructor arguments.
- `Script.defaultNetwork` (lib/script.js:7-19) is process-wide mutable state. It is a `defaultNetwork` parameter, and a missing network is the empty string.
- `Script.fromPubKey` and `Script.fromScriptSig` (lib/script.js:71-99) tokenise text through the opcode table and hex conversion, which are not part of this model.
- The constructor is modelled on a byte array. The hex-string input, the copy of another `Script`, and the "Invalid script" error for other inputs are not modelled. `isValid` on a non-array is not modelled either.
- `getBlockHeight` uses `parseInt`, which loses precision above 2^53. The height is an unbounded `nat`.
- The classifiers compare chunks with JavaScript's loose `==` and `<=`, under which a one-byte payload equals the opcode of the same value and an empty array equals 0. The model matches an opcode only against an `Op` chunk.
- Aliasing is not modelled: `buffer` and `chunks` are values. In the library the constructor keeps the caller's array, `clone` shares the buffer, and an unparsed script's `chunks` is the same array as its `buffer`, so a write to it pushes twice.
- `toASM` calls `splice` on the clone's payloads. That mutation only affects the clone and is not modelled; the rendering reads the same bytes.
- A `maxEl` of `NaN` or another falsy non-number is represented by 0 (no limit).
- Scripts.Script.WriteOp: requires a one-byte opcode, because the buffer holds bytes. The library would push any number, including a two-byte opcode, into the buffer.
- Scripts.Script.WriteBytes: requires a one-byte opcode for an opcode chunk, for the same reason.
- Scripts.Script.FromChunks: requires every opcode chunk to be a one-byte opcode, the restriction it inherits from `WriteBytes`. The library also accepts a list holding a two-byte opcode, such as the parse of f0 01, and pushes that number into the buffer.
- Scripts.Script.CreateMultiSigOutputScript: requires the opcodes of m and n to fit in a byte, for the same reason.
- Scripts.Script.RenderAll: requires a truncate value already resolved from `null`, which is how `ToASM` calls it.
- Codec.PushData4NegativeLength: states only that a single data chunk results, not its contents (`Codec.NegativeSlice` defines them).
- Codec.ParseShift: holds only when the parse of the suffix runs to its end. A stop at a negative PUSHDATA4 length counts back from the end of the whole buffer, so a prefix changes the chunk.
- Codec.ParseEncoded, Codec.EmptyPushReparsesAsOp0 and Codec.TwoByteOpcode: require the rest of the buffer to parse to its end, for the same reason.
- The loop of `parse` as written does not terminate on some inputs with a negative PUSHDATA4 length (see Findings). The as-written behaviour is modelled as a single step (`Codec.StepAtAsWritten`), and the parse itself stops there. The difference also shows on inputs where the loop as written does terminate: on 4e ff ff ff ff the length is -1, so the library moves back to offset 4, reads ff there as the truncated two-byte opcode 0xff00 and ends with an empty payload and that opcode, while `Codec.ParseChunks` gives a single empty payload.
- `Ordering.SortKeys` is an insertion sort. JavaScript leaves the algorithm open, but any correct sort gives the same result (`Ordering.SortedUnique`). The sort compares the comma-joined decimal text of the keys, as JavaScript's default `sort` does, not their bytes.
- When `truncate` is missing, `toASM` treats it as falsy, not as `true`: only `null` is replaced by `true`. So the default rendering shows at most 100 bytes per payload and no "...".

## Findings

| source | as written | input that shows it | evidently intended | confidence | as-written member | corrected member |
|---|---|---|---|---|---|---|
| lib/script.js:364-367 | The `reduce` callback reads `this.chunks`, but `this` is not the script, so reaching a payload that does not start with 0x30 throws a TypeError. The index it compares is also into the slice. | OP_0, one signature 30 .., then a redeem script 52 .. (any multisig input the factory builds) | OP_0 followed by payloads, all but the last starting with 0x30, is a multisig input | not executed | Templates.GetInType, Factories.MultisigInputRejectedAsWritten | Templates.GetInTypeIntended, Templates.InTypeAgreesWhereDefined |
| lib/script.js:519-520 | `k = script.chunks[0][0]` reads an index of the first chunk. For a standard redeem script that chunk is an opcode, `k` is undefined, and the signature count is never checked. | no signatures and the redeem script 52 [key] [key] 52 ae (2-of-2) | fail when there are fewer signatures than the m the redeem script's first opcode encodes | not executed | Factories.MultiSigInput, Factories.StandardRedeemSkipsSignatureCount | Factories.MultiSigInputIntended, Factories.StandardRedeemChecksSignatureCount |
| lib/script.js:137, 154-159 | A PUSHDATA4 length with a first byte of 0x80 or more is negative. When adding it leaves the cursor at 0 or more, the loop moves back and goes on. | 4e ff ff ff fb: the cursor goes from 5 back to 0, forever | the parse ends at a negative length | not executed | Codec.StepAtAsWritten, Codec.ParseLoopsAsWritten, Codec.StepAsWrittenDiffers | Codec.StepAt, Codec.ParseChunks, Scripts.Script.Parse |

The members that model library entry points follow the code as written:
`Templates.SimpleInPubKey` passes on the TypeError of `Templates.GetInType`,
and `Scripts.Script.CreateMultiSigInputScript` succeeds exactly when
`Factories.MultiSigInput` does. The corrected definitions stand beside them,
with their intended properties proved, and the lemmas named in the table
relate each pair. The parser is the exception: it uses `Codec.StepAt`,
because the loop as written need not terminate.
