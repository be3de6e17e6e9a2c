/** The two encodings between a script's bytes and its chunks: the parser
    (`Script.prototype.parse`) and the push encoding written by the builder
    (`writeOp` / `writeBytes`), with the round trip between them and the places
    where the two disagree. */
module Codec {
  import opened Chunks
  import opened ByteOrder

  /** Scripts longer than this are left unparsed. */
  const MaxScriptSize: nat := 10000

  /** `Script.isValid`: the only rule is the size limit. */
  predicate IsValid(buffer: seq<byte>) {
    |buffer| <= MaxScriptSize
  }

  /** The unparsed form: every byte stands as a chunk of its own, which the
      classifiers see as that opcode. */
  function RawChunks(buffer: seq<byte>): (cs: seq<Chunk>)
    ensures |cs| == |buffer|
    ensures forall k :: 0 <= k < |buffer| ==> cs[k] == Op(buffer[k])
  {
    seq(|buffer|, k requires 0 <= k < |buffer| => Op(buffer[k]))
  }

  /** The raw chunks of an unparsed script agree with its buffer: written
      back, they give exactly its bytes. */
  lemma {:induction false} SerializeRawChunks(buffer: seq<byte>)
    ensures AllWritable(RawChunks(buffer))
    ensures Serialize(RawChunks(buffer)) == buffer
  {
    if buffer != [] {
      assert RawChunks(buffer)[1..] == RawChunks(buffer[1..]);
      SerializeRawChunks(buffer[1..]);
      assert buffer == [buffer[0]] + buffer[1..];
    }
  }

  /** The chunks a script is given when it is constructed: coinbase scripts and
      scripts over the size limit keep their raw bytes, the rest are parsed. */
  function InitialChunks(buffer: seq<byte>, isCoinbase: bool): seq<Chunk> {
    if isCoinbase || !IsValid(buffer) then RawChunks(buffer) else ParseChunks(buffer)
  }

  /** A script has no chunks only when it has no bytes. */
  lemma InitialChunksEmpty(buffer: seq<byte>, isCoinbase: bool)
    ensures InitialChunks(buffer, isCoinbase) == [] <==> buffer == []
  {
    if buffer != [] && !isCoinbase && IsValid(buffer) {
      var s := StepAt(buffer, 0);
      if s.Read? {
        assert ParseFrom(buffer, 0) == [s.chunk] + ParseFrom(buffer, s.next);
      } else {
        assert ParseFrom(buffer, 0) == [s.chunk];
      }
    }
  }

  // ---------------------------------------------------------------------------
  // Parser

  /** `buffer[i]`, where a read past the end gives `undefined`, which every
      arithmetic and bitwise use in the parser turns into 0. */
  function ByteAt(buf: seq<byte>, i: nat): byte {
    if i < |buf| then buf[i] else 0
  }

  /** `buffer.slice(from, to)`: the bytes between the two cursors, cut short at
      the end of the buffer. */
  function Slice(buf: seq<byte>, from: nat, to: nat): (r: seq<byte>)
    requires from <= to
    ensures |r| <= to - from
    ensures to <= |buf| ==> r == buf[from..to]
  {
    if to <= |buf| then buf[from..to] else if from <= |buf| then buf[from..] else []
  }

  /** The PUSHDATA4 length at cursor `j` as the source computes it: four
      bytes, most significant first, combined with 32-bit signed shifts, so a
      first byte of 0x80 or more gives a negative length. */
  function Int32Length(buf: seq<byte>, j: nat): (n: int)
    ensures n < 0 <==> ByteAt(buf, j) >= 0x80
  {
    var u := ByteAt(buf, j) * 0x100_0000 + ByteAt(buf, j + 1) * 0x1_0000 + ByteAt(buf, j + 2) * 0x100 + ByteAt(buf, j + 3);
    if ByteAt(buf, j) >= 0x80 then u - 0x1_0000_0000 else u
  }

  /** What the parser reads at one cursor position: a chunk and the cursor
      after it, or a chunk after which it stops. */
  datatype Step = Read(chunk: Chunk, next: nat) | ReadLast(chunk: Chunk)

  /** The opcode at cursor `i`: two bytes when the first is 0xF0 or more. */
  function OpcodeAt(buf: seq<byte>, i: nat): int
    requires i < |buf|
  {
    if buf[i] >= 0xF0 then buf[i] * 256 + ByteAt(buf, i + 1) else buf[i]
  }

  /** The cursor just after the opcode at `i`. */
  function AfterOpcode(buf: seq<byte>, i: nat): (j: nat)
    requires i < |buf|
    ensures j > i
  {
    if buf[i] >= 0xF0 then i + 2 else i + 1
  }

  /** `readChunk(n)` at cursor `from`. */
  function ReadPush(buf: seq<byte>, from: nat, n: nat): (s: Step)
    ensures s.Read? && s.next >= from
  {
    Read(Data(Slice(buf, from, from + n)), from + n)
  }

  /** `buffer.slice(from, from + n)` for a negative `n`: an end before the
      start gives nothing, and an end below zero counts back from the end of
      the buffer. */
  function NegativeSlice(buf: seq<byte>, from: nat, n: int): (r: seq<byte>)
    requires n < 0
    ensures from + n >= 0 ==> r == []
    ensures from + n < 0 ==> (r == [] <==> |buf| + n <= 0)
    ensures from + n < 0 && |buf| + n > 0 ==> r + buf[|buf| + from + n..] == buf[from..]
  {
    if from + n >= 0 then []
    else
      var end := |buf| + from + n;
      if from < end then buf[from..end] else []
  }

  /** What the parser reads after opcode `op`, with the cursor at `j`: the
      payload a push opcode announces, or the opcode itself. A negative
      PUSHDATA4 length ends the parse after the chunk `readChunk` takes with
      it. */
  function StepAfter(buf: seq<byte>, op: int, j: nat): (s: Step)
    ensures s.Read? ==> s.next >= j
  {
    if 0 < op < OP_PUSHDATA1 then ReadPush(buf, j, op)
    else if op == OP_PUSHDATA1 then ReadPush(buf, j + 1, ByteAt(buf, j))
    else if op == OP_PUSHDATA2 then ReadPush(buf, j + 2, ByteAt(buf, j) * 256 + ByteAt(buf, j + 1))
    else if op == OP_PUSHDATA4 then
      if Int32Length(buf, j) < 0 then ReadLast(Data(NegativeSlice(buf, j + 4, Int32Length(buf, j))))
      else ReadPush(buf, j + 4, Int32Length(buf, j))
    else Read(Op(op), j)
  }

  /** One turn of the parser's loop at cursor `i`. */
  function StepAt(buf: seq<byte>, i: nat): (s: Step)
    requires i < |buf|
    ensures s.Read? ==> s.next > i
  {
    StepAfter(buf, OpcodeAt(buf, i), AfterOpcode(buf, i))
  }

  /** One turn of the parser's loop as written: a negative PUSHDATA4 length
      is added to the cursor, and the loop only stops when that makes the
      cursor negative. Otherwise the cursor moves back and the loop goes on. */
  function StepAtAsWritten(buf: seq<byte>, i: nat): (s: Step)
    requires i < |buf|
  {
    var op, j := OpcodeAt(buf, i), AfterOpcode(buf, i);
    if op == OP_PUSHDATA4 && Int32Length(buf, j) < 0 && j + 4 + Int32Length(buf, j) >= 0
    then Read(Data([]), j + 4 + Int32Length(buf, j))
    else StepAt(buf, i)
  }

  /** The loop as written and the parser of this model take the same step,
      except where a negative PUSHDATA4 length leaves the cursor at 0 or
      more: there the loop goes on from a cursor at most three bytes past the
      length bytes' start, where this model stops. */
  lemma StepAsWrittenDiffers(buf: seq<byte>, i: nat)
    requires i < |buf|
    ensures var w := StepAtAsWritten(buf, i);
      w != StepAt(buf, i) <==>
        && OpcodeAt(buf, i) == OP_PUSHDATA4
        && Int32Length(buf, i + 1) < 0
        && i + 5 + Int32Length(buf, i + 1) >= 0
    ensures var w := StepAtAsWritten(buf, i);
      w != StepAt(buf, i) ==> StepAt(buf, i).ReadLast? && w.Read? && w.chunk == Data([]) && w.next <= i + 4
  {
    if OpcodeAt(buf, i) == OP_PUSHDATA4 {
      assert buf[i] == OP_PUSHDATA4;
      assert AfterOpcode(buf, i) == i + 1;
    }
  }

  /** As written, the five bytes 4e ff ff ff fb never finish parsing: the
      length reads as -5, which takes the cursor from 5 back to 0, where the
      same step repeats without end. */
  lemma ParseLoopsAsWritten()
    ensures var buf: seq<byte> := [OP_PUSHDATA4, 0xff, 0xff, 0xff, 0xfb];
      && StepAtAsWritten(buf, 0) == Read(Data([]), 0)
      && StepAt(buf, 0) == ReadLast(Data([]))
      && ParseChunks(buf) == [Data([])]
  {
    var buf: seq<byte> := [OP_PUSHDATA4, 0xff, 0xff, 0xff, 0xfb];
    assert OpcodeAt(buf, 0) == OP_PUSHDATA4 && AfterOpcode(buf, 0) == 1;
    assert ByteAt(buf, 1) == 0xff && ByteAt(buf, 2) == 0xff && ByteAt(buf, 3) == 0xff && ByteAt(buf, 4) == 0xfb;
    assert Int32Length(buf, 1) == -5;
  }

  /** The chunks the parser produces from cursor `i` on. */
  function ParseFrom(buf: seq<byte>, i: nat): seq<Chunk>
    decreases |buf| - i
  {
    if i >= |buf| then []
    else
      match StepAt(buf, i)
      case Read(c, j) => [c] + ParseFrom(buf, j)
      case ReadLast(c) => [c]
  }

  /** `Script.prototype.parse`, as a function of the buffer. */
  function ParseChunks(buf: seq<byte>): seq<Chunk> {
    ParseFrom(buf, 0)
  }

  // ---------------------------------------------------------------------------
  // Builder encoding

  /** The prefix `writeBytes` puts before a payload of `n` bytes: the shortest
      of the four push forms, with PUSHDATA2 and PUSHDATA4 lengths written least
      significant byte first (`>>> 8 & 0xff` and so on). */
  function PushPrefix(n: nat): seq<byte> {
    if n < OP_PUSHDATA1 then [n]
    else if n <= 0xff then [OP_PUSHDATA1, n]
    else if n <= 0xffff then [OP_PUSHDATA2, n % 0x100, n / 0x100 % 0x100]
    else [OP_PUSHDATA4, n % 0x100, n / 0x100 % 0x100, n / 0x1_0000 % 0x100, n / 0x100_0000 % 0x100]
  }

  /** The bytes the builder appends for one chunk. */
  function EncodeChunk(c: Chunk): seq<byte>
    requires Writable(c)
  {
    match c
    case Op(v) => [v]
    case Data(d) => PushPrefix(|d|) + d
  }

  /** The buffer the builder produces from a chunk sequence. */
  function Serialize(cs: seq<Chunk>): seq<byte>
    requires forall k :: 0 <= k < |cs| ==> Writable(cs[k])
  {
    if cs == [] then [] else EncodeChunk(cs[0]) + Serialize(cs[1..])
  }

  /** Serializing one more chunk appends its encoding. */
  lemma {:induction false} SerializeAppend(cs: seq<Chunk>, c: Chunk)
    requires forall k :: 0 <= k < |cs| ==> Writable(cs[k])
    requires Writable(c)
    ensures AllWritable(cs + [c])
    ensures Serialize(cs + [c]) == Serialize(cs) + EncodeChunk(c)
  {
    AllWritableAppend(cs, c);
    if cs != [] {
      assert (cs + [c])[1..] == cs[1..] + [c];
      SerializeAppend(cs[1..], c);
    }
  }

  /** The prefix declares the payload length in the form the builder chose:
      the length itself below 76, one length byte up to 255, and otherwise two
      or four bytes whose little-endian value is the length, which the parser,
      reading them most significant first, sees byte-swapped. */
  lemma PushPrefixDeclares(n: nat)
    requires n < 0x1_0000_0000
    ensures n < OP_PUSHDATA1 ==> PushPrefix(n) == [n]
    ensures OP_PUSHDATA1 <= n <= 0xff ==> PushPrefix(n) == [OP_PUSHDATA1, n]
    ensures 0xff < n <= 0xffff ==>
      && |PushPrefix(n)| == 3 && PushPrefix(n)[0] == OP_PUSHDATA2
      && LittleEndian(PushPrefix(n)[1..]) == n
      && BigEndian(PushPrefix(n)[1..]) == n % 0x100 * 0x100 + n / 0x100
    ensures 0xffff < n ==>
      && |PushPrefix(n)| == 5 && PushPrefix(n)[0] == OP_PUSHDATA4
      && LittleEndian(PushPrefix(n)[1..]) == n
  {
    var p := PushPrefix(n);
    if 0xff < n <= 0xffff {
      assert p[1..] == [n % 0x100, n / 0x100];
      LittleEndianPair(n % 0x100, n / 0x100);
      BigEndianPair(n % 0x100, n / 0x100);
    } else if 0xffff < n {
      LengthBytesOfPushData4(n);
    }
  }

  /** The four length bytes after OP_PUSHDATA4, least significant first. */
  lemma LengthBytesOfPushData4(n: nat)
    requires 0xffff < n < 0x1_0000_0000
    ensures |PushPrefix(n)| == 5 && PushPrefix(n)[0] == OP_PUSHDATA4
    ensures LittleEndian(PushPrefix(n)[1..]) == n
  {
    var p := PushPrefix(n);
    var b0, b1, b2, b3 := n % 0x100, n / 0x100 % 0x100, n / 0x1_0000 % 0x100, n / 0x100_0000 % 0x100;
    assert p[1..] == [b0, b1, b2, b3];
    LittleEndianQuad(b0, b1, b2, b3);
    var q1, q2, q3 := n / 0x100, n / 0x1_0000, n / 0x100_0000;
    assert q2 == q1 / 0x100;
    assert q3 == q2 / 0x100;
    assert q3 == b3;
    assert n == b0 + 0x100 * q1;
    assert q1 == b1 + 0x100 * q2;
    assert q2 == b2 + 0x100 * q3;
  }

  // ---------------------------------------------------------------------------
  // Round trip

  /** A chunk the parser reads back as itself after the builder wrote it: a
      one-byte opcode that is neither a push nor the first byte of a two-byte
      opcode, or a payload of 1 to 255 bytes. */
  predicate RoundTrips(c: Chunk) {
    match c
    case Op(v) => v == OP_0 || 79 <= v < 0xF0
    case Data(d) => 1 <= |d| <= 0xff
  }

  lemma ByteAtShift(p: seq<byte>, b: seq<byte>, k: nat)
    ensures ByteAt(p + b, |p| + k) == ByteAt(b, k)
  {
  }

  lemma SliceShift(p: seq<byte>, b: seq<byte>, from: nat, to: nat)
    requires from <= to
    ensures Slice(p + b, |p| + from, |p| + to) == Slice(b, from, to)
  {
    if to <= |b| {
      assert (p + b)[|p| + from..|p| + to] == b[from..to];
    } else if from <= |b| {
      assert (p + b)[|p| + from..] == b[from..];
    }
  }

  function ShiftStep(s: Step, d: nat): Step {
    match s
    case Read(c, j) => Read(c, d + j)
    case ReadLast(c) => s
  }

  lemma ReadPushShift(p: seq<byte>, b: seq<byte>, from: nat, n: nat)
    ensures ReadPush(p + b, |p| + from, n) == ShiftStep(ReadPush(b, from, n), |p|)
  {
    SliceShift(p, b, from, from + n);
  }

  lemma Int32LengthShift(p: seq<byte>, b: seq<byte>, j: nat)
    ensures Int32Length(p + b, |p| + j) == Int32Length(b, j)
  {
    ByteAtShift(p, b, j);
    ByteAtShift(p, b, j + 1);
    ByteAtShift(p, b, j + 2);
    ByteAtShift(p, b, j + 3);
  }

  lemma StepAfterShift(p: seq<byte>, b: seq<byte>, op: int, j: nat)
    requires StepAfter(b, op, j).Read?
    ensures StepAfter(p + b, op, |p| + j) == ShiftStep(StepAfter(b, op, j), |p|)
  {
    hide ByteAt;
    hide Int32Length;
    hide ReadPush;
    ByteAtShift(p, b, j);
    ByteAtShift(p, b, j + 1);
    if 0 < op < OP_PUSHDATA1 {
      ReadPushShift(p, b, j, op);
    } else if op == OP_PUSHDATA1 {
      ReadPushShift(p, b, j + 1, ByteAt(b, j));
    } else if op == OP_PUSHDATA2 {
      ReadPushShift(p, b, j + 2, ByteAt(b, j) * 256 + ByteAt(b, j + 1));
    } else if op == OP_PUSHDATA4 {
      Int32LengthShift(p, b, j);
      ReadPushShift(p, b, j + 4, Int32Length(b, j));
    }
  }

  /** One parser step that carries on reads the same chunk inside a longer
      buffer. (A step that stops does not: its chunk is cut at a distance
      from the end of the whole buffer.) */
  lemma StepShift(p: seq<byte>, b: seq<byte>, i: nat)
    requires i < |b| && StepAt(b, i).Read?
    ensures StepAt(p + b, |p| + i) == ShiftStep(StepAt(b, i), |p|)
  {
    assert (p + b)[|p| + i] == b[i];
    ByteAtShift(p, b, i + 1);
    assert OpcodeAt(p + b, |p| + i) == OpcodeAt(b, i);
    assert AfterOpcode(p + b, |p| + i) == |p| + AfterOpcode(b, i);
    StepAfterShift(p, b, OpcodeAt(b, i), AfterOpcode(b, i));
  }

  /** One step of the parse. */
  lemma ParseFromStep(buf: seq<byte>, i: nat)
    requires i < |buf| && StepAt(buf, i).Read?
    ensures ParseFrom(buf, i) == [StepAt(buf, i).chunk] + ParseFrom(buf, StepAt(buf, i).next)
  {
  }

  /** What one turn of the parser's loop keeps: the chunks so far, followed by
      the parse from the cursor, are the whole parse. */
  lemma ParseLoopStep(buf: seq<byte>, i: nat, acc: seq<Chunk>)
    requires i < |buf|
    ensures StepAt(buf, i).Read? ==>
      (acc + [StepAt(buf, i).chunk]) + ParseFrom(buf, StepAt(buf, i).next) == acc + ParseFrom(buf, i)
    ensures StepAt(buf, i).ReadLast? ==> acc + [StepAt(buf, i).chunk] == acc + ParseFrom(buf, i)
  {
    if StepAt(buf, i).Read? {
      ParseFromStep(buf, i);
    }
  }

  /** The parse from cursor `i` runs out of bytes rather than stopping at a
      negative PUSHDATA4 length. */
  predicate ParsesToEnd(buf: seq<byte>, i: nat)
    decreases |buf| - i
  {
    i >= |buf| || (StepAt(buf, i).Read? && ParsesToEnd(buf, StepAt(buf, i).next))
  }

  lemma ParsesToEndStep(buf: seq<byte>, i: nat)
    requires i < |buf| && StepAt(buf, i).Read? && ParsesToEnd(buf, StepAt(buf, i).next)
    ensures ParsesToEnd(buf, i)
  {
  }

  /** One step of `ParseShift`: a parser step that carries on reads the same
      chunk in the longer buffer, so the parses agree from `i` once they agree
      from the step's next cursor. */
  lemma ParseShiftStep(p: seq<byte>, b: seq<byte>, i: nat)
    requires i < |b| && StepAt(b, i).Read?
    requires ParseFrom(p + b, |p| + StepAt(b, i).next) == ParseFrom(b, StepAt(b, i).next)
    ensures ParseFrom(p + b, |p| + i) == ParseFrom(b, i)
  {
    hide StepAt;
    var s := StepAt(b, i);
    StepShift(p, b, i);
    var q, k := p + b, |p| + i;
    assert k < |q| && StepAt(q, k) == Read(s.chunk, |p| + s.next);
    ParseFromStep(q, k);
    ParseFromStep(b, i);
  }

  /** The parser reads a suffix of a buffer exactly as it reads that suffix on
      its own, once its cursor reaches the suffix, provided that it runs to
      the end of the suffix. */
  lemma {:induction false} ParseShift(p: seq<byte>, b: seq<byte>, i: nat)
    requires ParsesToEnd(b, i)
    ensures ParseFrom(p + b, |p| + i) == ParseFrom(b, i)
    decreases |b| - i
  {
    hide StepAt;
    if i < |b| {
      var s := StepAt(b, i);
      assert s.Read? && ParsesToEnd(b, s.next);
      ParseShift(p, b, s.next);
      ParseShiftStep(p, b, i);
    }
  }

  /** A parse that runs to the end of a suffix still does so once a prefix
      is put before it. */
  lemma {:induction false} ParsesToEndShift(p: seq<byte>, b: seq<byte>, i: nat)
    requires ParsesToEnd(b, i)
    ensures ParsesToEnd(p + b, |p| + i)
    decreases |b| - i
  {
    hide StepAt;
    if i < |b| {
      var s := StepAt(b, i);
      assert s.Read? && ParsesToEnd(b, s.next);
      StepShift(p, b, i);
      var q, k := p + b, |p| + i;
      assert k < |q| && StepAt(q, k) == Read(s.chunk, |p| + s.next);
      ParsesToEndShift(p, b, s.next);
      ParsesToEndStep(q, k);
    }
  }

  /** The parser's first step over the encoding of a round-tripping chunk
      reads that chunk and moves just past its encoding. */
  lemma StepEncoded(c: Chunk, rest: seq<byte>)
    requires RoundTrips(c)
    ensures EncodeChunk(c) + rest != []
    ensures StepAt(EncodeChunk(c) + rest, 0) == Read(c, |EncodeChunk(c)|)
  {
    var e := EncodeChunk(c);
    var buf := e + rest;
    match c {
      case Op(v) =>
        assert buf[0] == v;
      case Data(d) =>
        if |d| < OP_PUSHDATA1 {
          assert buf[0] == |d|;
          assert buf[1..1 + |d|] == d;
        } else {
          assert buf[0] == OP_PUSHDATA1 && buf[1] == |d|;
          assert buf[2..2 + |d|] == d;
        }
    }
  }

  /** The parser reads the encoding of a round-tripping chunk back as that
      chunk and then carries on with what follows. */
  lemma ParseEncoded(c: Chunk, rest: seq<byte>)
    requires RoundTrips(c) && ParsesToEnd(rest, 0)
    ensures ParseChunks(EncodeChunk(c) + rest) == [c] + ParseChunks(rest)
    ensures ParsesToEnd(EncodeChunk(c) + rest, 0)
  {
    hide StepAt;
    var e := EncodeChunk(c);
    var buf := e + rest;
    ParseShift(e, rest, 0);
    ParsesToEndShift(e, rest, 0);
    StepEncoded(c, rest);
    ParseFromStep(buf, 0);
    ParsesToEndStep(buf, 0);
  }

  /** Round trip: a chunk sequence built from round-tripping chunks parses back
      to itself. */
  lemma {:induction false} ParseSerialize(cs: seq<Chunk>)
    requires forall k :: 0 <= k < |cs| ==> RoundTrips(cs[k])
    ensures forall k :: 0 <= k < |cs| ==> Writable(cs[k])
    ensures ParseChunks(Serialize(cs)) == cs
    ensures ParsesToEnd(Serialize(cs), 0)
  {
    assert forall k :: 0 <= k < |cs| ==> Writable(cs[k]) by {
      forall k | 0 <= k < |cs| ensures Writable(cs[k]) {
        assert RoundTrips(cs[k]);
      }
    }
    if cs != [] {
      ParseSerialize(cs[1..]);
      ParseEncoded(cs[0], Serialize(cs[1..]));
    }
  }

  /** The other half of the round trip: a buffer the builder produced from
      round-tripping chunks is rebuilt unchanged from its parse. */
  lemma SerializeParse(cs: seq<Chunk>, buf: seq<byte>)
    requires forall k :: 0 <= k < |cs| ==> RoundTrips(cs[k])
    requires forall k :: 0 <= k < |cs| ==> Writable(cs[k])
    requires buf == Serialize(cs)
    ensures forall k :: 0 <= k < |ParseChunks(buf)| ==> Writable(ParseChunks(buf)[k])
    ensures Serialize(ParseChunks(buf)) == buf
  {
    ParseSerialize(cs);
  }

  // ---------------------------------------------------------------------------
  // Where the two encodings disagree

  /** An empty payload is written as the single byte 0, which the parser reads
      as the opcode OP_0. */
  lemma EmptyPushReparsesAsOp0(rest: seq<byte>)
    requires ParsesToEnd(rest, 0)
    ensures ParseChunks(EncodeChunk(Data([])) + rest) == [Op(OP_0)] + ParseChunks(rest)
  {
    assert EncodeChunk(Data([])) == [0];
    ParseShift([0], rest, 0);
  }

  /** A PUSHDATA2 payload (256 to 65535 bytes) is read back with its two length
      bytes swapped: the parser takes the next `n'` bytes, where `n'` is the
      length read most significant first, and resumes after them, reading on
      as it reads `d + rest` from `n'` when that runs to the end. */
  lemma PushData2ReadsSwappedLength(d: seq<byte>, rest: seq<byte>)
    requires 0xff < |d| <= 0xffff
    ensures var n' := |d| % 0x100 * 0x100 + |d| / 0x100;
      var cs := ParseChunks(EncodeChunk(Data(d)) + rest);
      && cs != [] && cs[0] == Data(Slice(d + rest, 0, n'))
      && (ParsesToEnd(d + rest, n') ==> cs == [Data(Slice(d + rest, 0, n'))] + ParseFrom(d + rest, n'))
  {
    var n' := |d| % 0x100 * 0x100 + |d| / 0x100;
    var p: seq<byte> := [OP_PUSHDATA2, |d| % 0x100, |d| / 0x100];
    assert PushPrefix(|d|) == p;
    var buf := p + (d + rest);
    assert EncodeChunk(Data(d)) + rest == buf;
    assert buf[0] == OP_PUSHDATA2 && ByteAt(buf, 1) == |d| % 0x100 && ByteAt(buf, 2) == |d| / 0x100;
    assert StepAt(buf, 0) == Read(Data(Slice(buf, 3, 3 + n')), 3 + n');
    SliceShift(p, d + rest, 0, n');
    assert ParseFrom(buf, 0) == [Data(Slice(buf, 3, 3 + n'))] + ParseFrom(buf, 3 + n');
    if ParsesToEnd(d + rest, n') {
      ParseShift(p, d + rest, n');
    }
  }

  /** So a 256-byte payload does not survive the round trip: the parser reads a
      one-byte payload instead. */
  lemma Push256DoesNotRoundTrip(d: seq<byte>)
    requires |d| == 256
    ensures ParseChunks(Serialize([Data(d)])) != [Data(d)]
    ensures ParseChunks(Serialize([Data(d)]))[0] == Data(d[..1])
  {
    assert Serialize([Data(d)]) == EncodeChunk(Data(d)) + [];
    PushData2ReadsSwappedLength(d, []);
    assert d + [] == d;
  }

  /** A PUSHDATA4 payload (65536 bytes or more) is read back with its four
      length bytes in reverse order, as long as the lowest byte of the length,
      which the parser takes as the most significant one, is below 0x80. */
  lemma PushData4ReadsReversedLength(d: seq<byte>, rest: seq<byte>)
    requires 0xffff < |d| < 0x1_0000_0000 && |d| % 0x100 < 0x80
    ensures var p := PushPrefix(|d|);
      var n' := BigEndian(p[1..]);
      var cs := ParseChunks(EncodeChunk(Data(d)) + rest);
      && n' == LittleEndian(Reverse(p[1..]))
      && cs != [] && cs[0] == Data(Slice(d + rest, 0, n'))
      && (ParsesToEnd(d + rest, n') ==> cs == [Data(Slice(d + rest, 0, n'))] + ParseFrom(d + rest, n'))
  {
    hide StepAt;
    PushData4Step(d, rest);
    var p := PushPrefix(|d|);
    var n' := BigEndian(p[1..]);
    var buf := EncodeChunk(Data(d)) + rest;
    SliceShift(p, d + rest, 0, n');
    ParseFromStep(buf, 0);
    if ParsesToEnd(d + rest, n') {
      ParseShift(p, d + rest, n');
    }
  }

  /** The parser's first step over a PUSHDATA4 encoding whose lowest length
      byte is below 0x80: it reads the length bytes most significant first. */
  lemma PushData4Step(d: seq<byte>, rest: seq<byte>)
    requires 0xffff < |d| < 0x1_0000_0000 && |d| % 0x100 < 0x80
    ensures var p := PushPrefix(|d|);
      var n' := BigEndian(p[1..]);
      var buf := EncodeChunk(Data(d)) + rest;
      && |p| == 5 && buf == p + (d + rest) && n' == LittleEndian(Reverse(p[1..]))
      && StepAt(buf, 0) == Read(Data(Slice(buf, 5, 5 + n')), 5 + n')
  {
    var p := PushPrefix(|d|);
    var b0, b1, b2, b3 := p[1], p[2], p[3], p[4];
    assert p[1..] == [b0, b1, b2, b3];
    var n' := BigEndian(p[1..]);
    BigEndianQuad(b0, b1, b2, b3);
    BigEndianOfReverse(Reverse(p[1..]));
    assert Reverse(Reverse(p[1..])) == p[1..];
    var buf := EncodeChunk(Data(d)) + rest;
    assert buf == p + (d + rest);
    assert ByteAt(buf, 1) == b0 && ByteAt(buf, 2) == b1 && ByteAt(buf, 3) == b2 && ByteAt(buf, 4) == b3;
    assert Int32Length(buf, 1) == n';
    assert OpcodeAt(buf, 0) == OP_PUSHDATA4 && AfterOpcode(buf, 0) == 1;
  }

  /** When the lowest byte of a PUSHDATA4 length is 0x80 or more, the parser
      reads a negative length: it yields one chunk and stops, losing the
      payload's framing and everything after it. */
  lemma PushData4NegativeLength(d: seq<byte>, rest: seq<byte>)
    requires 0xffff < |d| && |d| % 0x100 >= 0x80
    ensures var cs := ParseChunks(EncodeChunk(Data(d)) + rest);
      |cs| == 1 && cs[0].Data?
  {
    var buf := EncodeChunk(Data(d)) + rest;
    assert buf[0] == OP_PUSHDATA4 && ByteAt(buf, 1) == |d| % 0x100;
  }

  // ---------------------------------------------------------------------------
  // Reads past the end and two-byte opcodes

  /** A direct push that declares more bytes than remain yields the remaining
      bytes as a final, shorter chunk. */
  lemma ClippedPushIsFinal(n: byte, d: seq<byte>)
    requires 0 < n < OP_PUSHDATA1 && |d| < n
    ensures ParseChunks([n] + d) == [Data(d)]
  {
    var buf := [n] + d;
    assert buf[0] == n && buf[1..] == d;
    assert StepAt(buf, 0) == Read(Data(d), 1 + n);
    assert ParseFrom(buf, 1 + n) == [];
  }

  /** A PUSHDATA opcode whose length bytes are missing reads the length as 0
      and yields an empty final chunk. */
  lemma {:induction false} MissingLengthReadsZero(op: byte)
    requires OP_PUSHDATA1 <= op <= OP_PUSHDATA4
    ensures ParseChunks([op]) == [Data([])]
  {
    var buf: seq<byte> := [op];
    assert buf[0] == op && ByteAt(buf, 1) == 0 && ByteAt(buf, 2) == 0;
    if op == OP_PUSHDATA1 {
      assert StepAt(buf, 0) == Read(Data([]), 2);
    } else if op == OP_PUSHDATA2 {
      assert StepAt(buf, 0) == Read(Data([]), 3);
    } else {
      assert ByteAt(buf, 3) == 0 && ByteAt(buf, 4) == 0 && Int32Length(buf, 1) == 0;
      assert StepAt(buf, 0) == Read(Data([]), 5);
    }
    OneStepParse(buf);
  }

  /** A buffer the first step reads to its end parses to that one chunk. */
  lemma OneStepParse(buf: seq<byte>)
    requires |buf| > 0
    requires StepAt(buf, 0).Read? ==> StepAt(buf, 0).next >= |buf|
    ensures ParseChunks(buf) == [StepAt(buf, 0).chunk]
  {
    var s := StepAt(buf, 0);
    if s.Read? {
      assert ParseFrom(buf, 0) == [s.chunk] + ParseFrom(buf, s.next);
      assert ParseFrom(buf, s.next) == [];
    } else {
      assert ParseFrom(buf, 0) == [s.chunk];
    }
  }

  /** A byte of 0xF0 or more combines with the next byte into one opcode. */
  lemma TwoByteOpcode(hi: byte, lo: byte, rest: seq<byte>)
    requires hi >= 0xF0 && ParsesToEnd(rest, 0)
    ensures ParseChunks([hi, lo] + rest) == [Op(hi * 256 + lo)] + ParseChunks(rest)
  {
    var buf := [hi, lo] + rest;
    assert buf[0] == hi && ByteAt(buf, 1) == lo;
    assert StepAt(buf, 0) == Read(Op(hi * 256 + lo), 2);
    ParseShift([hi, lo], rest, 0);
  }

  /** A final byte of 0xF0 or more reads its missing second half as 0. */
  lemma TruncatedTwoByteOpcode(hi: byte)
    requires hi >= 0xF0
    ensures ParseChunks([hi]) == [Op(hi * 256)]
  {
    assert StepAt([hi], 0) == Read(Op(hi * 256), 2);
    assert ParseFrom([hi], 2) == [];
  }

  // ---------------------------------------------------------------------------
  // Where each chunk comes from

  /** What the opcode at cursor `i` declares: for a push, the cursor where
      its payload starts (after the opcode and any length bytes) and the
      payload's declared length, which is `len` or the direct-push opcode
      itself. */
  datatype Push = Push(start: nat, declared: int) | NotPush

  function PushAt(buf: seq<byte>, i: nat): Push
    requires i < |buf|
  {
    var op, j := OpcodeAt(buf, i), AfterOpcode(buf, i);
    if 0 < op < OP_PUSHDATA1 then Push(j, op)
    else if op == OP_PUSHDATA1 then Push(j + 1, ByteAt(buf, j))
    else if op == OP_PUSHDATA2 then Push(j + 2, ByteAt(buf, j) * 256 + ByteAt(buf, j + 1))
    else if op == OP_PUSHDATA4 then Push(j + 4, Int32Length(buf, j))
    else NotPush
  }

  function Min(a: nat, b: nat): nat {
    if a <= b then a else b
  }

  lemma SliceClamped(buf: seq<byte>, from: nat, to: nat)
    requires from <= to
    ensures Slice(buf, from, to) == buf[Min(from, |buf|)..Min(to, |buf|)]
  {
  }

  /** One parser step reads what the opcode declares: a bare opcode, or the
      declared number of bytes from the payload's start, clipped at the end
      of the buffer, after which it carries on from the declared end; a
      negative length ends the parse. */
  lemma StepReadsDeclared(buf: seq<byte>, i: nat)
    requires i < |buf|
    ensures PushAt(buf, i).NotPush? ==> StepAt(buf, i) == Read(Op(OpcodeAt(buf, i)), AfterOpcode(buf, i))
    ensures var p := PushAt(buf, i);
      p.Push? && p.declared >= 0 ==>
        StepAt(buf, i) == Read(Data(buf[Min(p.start, |buf|)..Min(p.start + p.declared, |buf|)]), p.start + p.declared)
    ensures PushAt(buf, i).Push? && PushAt(buf, i).declared < 0 ==> StepAt(buf, i).ReadLast?
  {
    var p := PushAt(buf, i);
    if p.Push? && p.declared >= 0 {
      SliceClamped(buf, p.start, p.start + p.declared);
    }
  }

  /** The cursor at which each chunk of `ParseFrom(buf, i)` is read. */
  function Cursors(buf: seq<byte>, i: nat): seq<nat>
    decreases |buf| - i
  {
    if i >= |buf| then []
    else
      match StepAt(buf, i)
      case Read(_, j) => [i] + Cursors(buf, j)
      case ReadLast(_) => [i]
  }

  /** The parse from `i` is the chunks read at its cursors, in order: the
      first at `i`, each later one where the step before it ended. */
  lemma {:induction false} ParseCursors(buf: seq<byte>, i: nat)
    ensures var cs, cur := ParseFrom(buf, i), Cursors(buf, i);
      && |cur| == |cs|
      && (|cur| > 0 ==> cur[0] == i)
      && (forall k :: 0 <= k < |cur| ==> i <= cur[k] < |buf| && cs[k] == StepAt(buf, cur[k]).chunk)
      && (forall k :: 0 <= k < |cur| - 1 ==> StepAt(buf, cur[k]).Read? && StepAt(buf, cur[k]).next == cur[k + 1])
    decreases |buf| - i
  {
    if i < |buf| {
      var s := StepAt(buf, i);
      if s.Read? {
        ParseCursors(buf, s.next);
        var cs, cur := ParseFrom(buf, i), Cursors(buf, i);
        var cs', cur' := ParseFrom(buf, s.next), Cursors(buf, s.next);
        assert cs == [s.chunk] + cs' && cur == [i] + cur';
        forall k | 1 <= k < |cur| ensures cur[k] == cur'[k - 1] && cs[k] == cs'[k - 1] {
        }
      }
    }
  }

  /** `readChunk` takes its payload at the cursor: every chunk of the parse
      is what the opcode at its cursor declares, an opcode or the payload
      `buf[start..start + declared]` clipped at the end of the buffer. Every
      chunk but the last is read in full and is followed by the next chunk at
      its declared end, so only the last chunk can come out shorter than
      declared; a negative PUSHDATA4 length can only be the last chunk. */
  lemma ParsedChunkAt(buf: seq<byte>, k: nat)
    requires k < |ParseChunks(buf)|
    ensures var cs, cur := ParseChunks(buf), Cursors(buf, 0);
      && |cur| == |cs| && cur[0] == 0 && cur[k] < |buf|
      && (PushAt(buf, cur[k]).NotPush? ==>
            && cs[k] == Op(OpcodeAt(buf, cur[k]))
            && (k < |cs| - 1 ==> cur[k + 1] == AfterOpcode(buf, cur[k])))
      && (var p := PushAt(buf, cur[k]);
          p.Push? && p.declared >= 0 ==>
            && cs[k] == Data(buf[Min(p.start, |buf|)..Min(p.start + p.declared, |buf|)])
            && (k < |cs| - 1 ==> p.start + p.declared == cur[k + 1] < |buf| && |cs[k].bytes| == p.declared))
      && (PushAt(buf, cur[k]).Push? && PushAt(buf, cur[k]).declared < 0 ==> k == |cs| - 1)
  {
    ParseCursors(buf, 0);
    StepReadsDeclared(buf, Cursors(buf, 0)[k]);
  }
}
