/** The text form `toASM` gives a script: the chunks, separated by single
    spaces, payloads in lowercase hexadecimal and opcodes by name.

    The opcode names come from the opcode table of another library and are a
    parameter here; the hexadecimal encoding of Node's `Buffer` is written
    out. */
module Asm {
  import opened Wrappers
  import opened Chunks
  import opened Codec
  import opened Templates

  // ---------------------------------------------------------------------------
  // Hexadecimal

  function HexDigit(n: int): (c: char)
    requires 0 <= n < 16
  {
    if n < 10 then '0' + n as char else 'a' + (n - 10) as char
  }

  predicate IsHexDigit(c: char) {
    '0' <= c <= '9' || 'a' <= c <= 'f'
  }

  function DigitValue(c: char): (n: int)
    requires IsHexDigit(c)
    ensures 0 <= n < 16
  {
    if c <= '9' then c as int - '0' as int else c as int - 'a' as int + 10
  }

  /** `Buffer(bytes).toString('hex')`: two lowercase digits per byte. */
  function Hex(bytes: seq<byte>): (s: string)
    ensures |s| == 2 * |bytes|
    ensures forall k :: 0 <= k < |s| ==> IsHexDigit(s[k])
  {
    if bytes == [] then ""
    else [HexDigit(bytes[0] / 16), HexDigit(bytes[0] % 16)] + Hex(bytes[1..])
  }

  /** Reading two digits per byte back. */
  function Unhex(s: string): seq<byte>
    requires |s| % 2 == 0
    requires forall k :: 0 <= k < |s| ==> IsHexDigit(s[k])
  {
    if s == [] then [] else [DigitValue(s[0]) * 16 + DigitValue(s[1])] + Unhex(s[2..])
  }

  /** The hexadecimal text determines the bytes. */
  lemma {:induction false} UnhexHex(bytes: seq<byte>)
    ensures Unhex(Hex(bytes)) == bytes
  {
    if bytes != [] {
      var s := Hex(bytes);
      assert s[2..] == Hex(bytes[1..]);
      UnhexHex(bytes[1..]);
      assert DigitValue(HexDigit(bytes[0] / 16)) * 16 + DigitValue(HexDigit(bytes[0] % 16)) == bytes[0];
    }
  }

  lemma {:induction false} HexAppend(a: seq<byte>, b: seq<byte>)
    ensures Hex(a + b) == Hex(a) + Hex(b)
  {
    if a != [] {
      assert (a + b)[0] == a[0];
      assert (a + b)[1..] == a[1..] + b;
      HexAppend(a[1..], b);
    } else {
      assert a + b == b;
    }
  }

  // ---------------------------------------------------------------------------
  // Rendering one chunk

  /** The `truncate` argument, by the four ways `toASM` tells its values
      apart: `true`, `null` (treated as `true`), any other truthy value, and
      any falsy value (including a missing argument). */
  datatype TruncateArg = TruncateTrue | TruncateNull | TruncateTruthy | TruncateFalsy

  /** What `toASM` renders with: whether the script is a multisig output,
      the truncate argument and the opcode name table. */
  datatype Style = Style(multisig: bool, truncate: TruncateArg, opName: int -> string)

  /** The bytes of a payload that are shown: all of them when `truncate` is
      `true` (or `null`), otherwise at most the first 100. */
  function ShownLength(n: nat, t: TruncateArg): (k: nat)
    ensures k <= n
  {
    if t == TruncateTrue || t == TruncateNull || n <= 100 then n else 100
  }

  /** A payload: the shown bytes in hex, then "..." whenever `truncate` is
      truthy, whether or not anything was left out. */
  function RenderData(bytes: seq<byte>, t: TruncateArg): string {
    Hex(bytes[..ShownLength(|bytes|, t)]) + (if t != TruncateFalsy then "..." else "")
  }

  /** An opcode: its name, except that in a multisig script the values 80
      and 81 are written "OP_0" and "OP_1". */
  function RenderOp(v: int, st: Style): string {
    if st.multisig && v == 80 then "OP_0"
    else if st.multisig && v == 81 then "OP_1"
    else st.opName(v)
  }

  function RenderChunk(c: Chunk, st: Style): string {
    match c
    case Data(bytes) => RenderData(bytes, st.truncate)
    case Op(v) => RenderOp(v, st)
  }

  /** What a rendered payload says: the hex digits decode to the first `k`
      bytes of the payload, where `k` is all of them under `true` or `null`
      and at most 100 otherwise, followed by "..." exactly when `truncate` is
      truthy. */
  lemma RenderDataShows(bytes: seq<byte>, t: TruncateArg)
    ensures var r := RenderData(bytes, t);
      var k := ShownLength(|bytes|, t);
      && (t == TruncateTrue || t == TruncateNull ==> k == |bytes|)
      && (t == TruncateTruthy || t == TruncateFalsy ==> k == if |bytes| <= 100 then |bytes| else 100)
      && |r| >= 2 * k
      && Unhex(r[..2 * k]) == bytes[..k]
      && r[2 * k..] == (if t == TruncateFalsy then "" else "...")
  {
    var k := ShownLength(|bytes|, t);
    var r := RenderData(bytes, t);
    assert r[..2 * k] == Hex(bytes[..k]);
    UnhexHex(bytes[..k]);
  }

  // ---------------------------------------------------------------------------
  // Rendering a script

  /** `maxEl`: 20 when the argument is missing; 0 stands for any falsy
      value, which sets no limit. */
  function MaxElements(maxEl: Option<int>): int {
    match maxEl
    case None => 20
    case Some(m) => m
  }

  /** The text `toASM`'s loop appends from chunk `i` on: a space before every
      chunk but the first, the chunk, and after a chunk whose index exceeds a
      non-zero `limit`, " ..." and the end. */
  function AsmFrom(cs: seq<Chunk>, i: nat, st: Style, limit: int): string
    decreases |cs| - i
  {
    if i >= |cs| then ""
    else
      (if i > 0 then " " else "") + RenderChunk(cs[i], st)
      + (if limit != 0 && i > limit then " ..." else AsmFrom(cs, i + 1, st, limit))
  }

  /** The rendering from chunk `i` on: that chunk, then " ..." when it is
      past the limit and the rest otherwise. */
  lemma AsmFromAt(cs: seq<Chunk>, i: nat, st: Style, limit: int)
    requires i < |cs|
    ensures AsmFrom(cs, i, st, limit)
         == ((if i > 0 then " " else "") + RenderChunk(cs[i], st))
            + (if limit != 0 && i > limit then " ..." else AsmFrom(cs, i + 1, st, limit))
  {
  }

  lemma ConcatAssoc(a: string, b: string, c: string)
    ensures a + b + c == a + (b + c)
  {
  }

  /** `toASM(truncate, maxEl)` on a script with buffer `buffer`: it renders a
      clone, which is parsed even when the original is a coinbase script,
      with a `null` truncate argument replaced by `true`. */
  function Asm(buffer: seq<byte>, truncate: TruncateArg, maxEl: Option<int>, opName: int -> string): string {
    var cs := InitialChunks(buffer, false);
    var t := if truncate == TruncateNull then TruncateTrue else truncate;
    AsmFrom(cs, 0, Style(GetOutType(cs) == Multisig, t, opName), MaxElements(maxEl))
  }

  /** Each string preceded by a space. */
  function Spaced(ss: seq<string>): string {
    if ss == [] then "" else " " + ss[0] + Spaced(ss[1..])
  }

  /** Strings joined by single spaces. */
  function Join(ss: seq<string>): string {
    if ss == [] then "" else ss[0] + Spaced(ss[1..])
  }

  function Rendered(cs: seq<Chunk>, st: Style): (ss: seq<string>)
    ensures |ss| == |cs|
    ensures forall k :: 0 <= k < |cs| ==> ss[k] == RenderChunk(cs[k], st)
  {
    seq(|cs|, k requires 0 <= k < |cs| => RenderChunk(cs[k], st))
  }

  lemma RenderedDrop(xs: seq<Chunk>, st: Style)
    requires xs != []
    ensures Rendered(xs, st)[1..] == Rendered(xs[1..], st)
  {
  }

  /** The index after which the output is cut: the first index above `limit`,
      when `limit` is not 0 and the script has a chunk there. */
  function CutIndex(limit: int): nat {
    if limit < 0 then 0 else limit + 1
  }

  predicate IsCut(n: nat, limit: int) {
    limit != 0 && CutIndex(limit) < n
  }

  /** How many chunks are rendered. */
  function Shown(n: nat, limit: int): (e: nat)
    ensures e <= n
  {
    if IsCut(n, limit) then CutIndex(limit) + 1 else n
  }

  lemma {:induction false} AsmFromTail(cs: seq<Chunk>, i: nat, st: Style, limit: int)
    requires 1 <= i < Shown(|cs|, limit)
    ensures AsmFrom(cs, i, st, limit)
         == Spaced(Rendered(cs[i..Shown(|cs|, limit)], st)) + (if IsCut(|cs|, limit) then " ..." else "")
    decreases |cs| - i
  {
    if i + 1 == |cs| {
      assert AsmFrom(cs, i + 1, st, limit) == "";
    }
    hide AsmFrom;
    hide RenderChunk;
    var e := Shown(|cs|, limit);
    var rs := Rendered(cs[i..e], st);
    var head := " " + RenderChunk(cs[i], st);
    var tail := if IsCut(|cs|, limit) then " ..." else "";
    AsmFromAt(cs, i, st, limit);
    assert (limit != 0 && i > limit) <==> (IsCut(|cs|, limit) && i == e - 1);
    assert rs[0] == RenderChunk(cs[i], st);
    assert Spaced(rs) == head + Spaced(rs[1..]);
    if i + 1 < e {
      AsmFromTail(cs, i + 1, st, limit);
      assert cs[i..e][1..] == cs[i + 1..e];
      RenderedDrop(cs[i..e], st);
      ConcatAssoc(head, Spaced(rs[1..]), tail);
    } else {
      assert rs[1..] == [];
      assert Spaced(rs) == head;
    }
  }

  /** The case where more than one chunk is shown: the first chunk, then the
      rest as `AsmFromTail` gives it. */
  lemma AsmCutLong(cs: seq<Chunk>, i: nat, st: Style, limit: int)
    requires i == 0 && 1 < Shown(|cs|, limit)
    ensures AsmFrom(cs, i, st, limit)
         == Join(Rendered(cs[..Shown(|cs|, limit)], st)) + (if IsCut(|cs|, limit) then " ..." else "")
  {
    hide AsmFrom;
    hide RenderChunk;
    var e := Shown(|cs|, limit);
    var first := RenderChunk(cs[i], st);
    var rest := Spaced(Rendered(cs[i + 1..e], st));
    var tail := if IsCut(|cs|, limit) then " ..." else "";
    AsmFromAt(cs, i, st, limit);
    assert !(limit != 0 && i > limit);
    assert "" + first == first;
    AsmFromTail(cs, i + 1, st, limit);
    var rs := Rendered(cs[..e], st);
    assert cs[..e][1..] == cs[1..e];
    RenderedDrop(cs[..e], st);
    assert Join(rs) == first + rest;
    ConcatAssoc(first, rest, tail);
  }

  /** Every chunk is rendered and joined by single spaces; when a non-zero
      `maxEl` is exceeded, the text stops after the chunk at index `maxEl + 1`
      (the first, when `maxEl` is negative) with " ...", even when that chunk
      is the last one. */
  lemma AsmCut(cs: seq<Chunk>, st: Style, limit: int)
    ensures AsmFrom(cs, 0, st, limit)
         == Join(Rendered(cs[..Shown(|cs|, limit)], st)) + (if IsCut(|cs|, limit) then " ..." else "")
    ensures Shown(|cs|, limit) == if IsCut(|cs|, limit) then CutIndex(limit) + 1 else |cs|
  {
    var e := Shown(|cs|, limit);
    if e > 1 {
      AsmCutLong(cs, 0, st, limit);
    } else if cs != [] {
      var rs := Rendered(cs[..e], st);
      var first := RenderChunk(cs[0], st);
      assert rs[0] == first;
      assert rs[1..] == [];
      assert Join(rs) == first;
      if IsCut(|cs|, limit) {
        assert AsmFrom(cs, 0, st, limit) == first + " ...";
      } else {
        assert AsmFrom(cs, 1, st, limit) == "";
      }
    }
  }

  /** A pay-to-script-hash output script, rendered by `toASM` with the
      default arguments, is the name of OP_HASH160, the hash in hex and the
      name of OP_EQUAL, separated by single spaces. */
  lemma ScriptHashAsm(hash: seq<byte>, opName: int -> string)
    requires |hash| == 20
    ensures Asm(Serialize(PayToScriptHash(hash)), TruncateFalsy, None, opName)
         == opName(OP_HASH160) + " " + Hex(hash) + " " + opName(OP_EQUAL)
  {
    var cs := PayToScriptHash(hash);
    assert cs == [Op(OP_HASH160), Data(hash), Op(OP_EQUAL)];
    ParseSerialize(cs);
    assert cs[1..][1..] == [Op(OP_EQUAL)] && cs[1..][1..][1..] == [];
    assert |Serialize(cs[1..][1..])| == 1;
    assert |Serialize(cs[1..])| == |PushPrefix(20)| + 20 + 1;
    assert IsValid(Serialize(cs));
    OutTypeScriptHash(cs);
    ScriptHashChunksAsm(hash, opName);
  }

  /** The chunks of a pay-to-script-hash output, rendered as a script that is
      not multisig, without truncation and with the default limit. */
  lemma ScriptHashChunksAsm(hash: seq<byte>, opName: int -> string)
    requires |hash| == 20
    ensures AsmFrom(PayToScriptHash(hash), 0, Style(false, TruncateFalsy, opName), MaxElements(None))
         == opName(OP_HASH160) + " " + Hex(hash) + " " + opName(OP_EQUAL)
  {
    var cs := PayToScriptHash(hash);
    var st := Style(false, TruncateFalsy, opName);
    var a, h, e := opName(OP_HASH160), Hex(hash), opName(OP_EQUAL);
    assert cs == [Op(OP_HASH160), Data(hash), Op(OP_EQUAL)];
    assert hash[..20] == hash;
    assert RenderChunk(cs[0], st) == a && RenderChunk(cs[1], st) == h && RenderChunk(cs[2], st) == e;
    assert AsmFrom(cs, 3, st, 20) == "";
    hide AsmFrom;
    hide RenderChunk;
    hide Hex;
    AsmFromAt(cs, 2, st, 20);
    assert AsmFrom(cs, 2, st, 20) == " " + e;
    AsmFromAt(cs, 1, st, 20);
    assert AsmFrom(cs, 1, st, 20) == " " + h + (" " + e);
    AsmFromAt(cs, 0, st, 20);
    assert "" + a == a;
    assert AsmFrom(cs, 0, st, 20) == a + (" " + h + (" " + e));
    ConcatAssoc(a, " " + h, " " + e);
    ConcatAssoc(a, " ", h);
    ConcatAssoc(a + " " + h, " ", e);
  }

  /** In a multisig output the values 80 and 81 are written OP_0 and OP_1,
      whatever the name table says; elsewhere the table decides. */
  lemma MultisigOpNames(opName: int -> string, t: TruncateArg)
    ensures RenderChunk(Op(80), Style(true, t, opName)) == "OP_0"
    ensures RenderChunk(Op(81), Style(true, t, opName)) == "OP_1"
    ensures RenderChunk(Op(80), Style(false, t, opName)) == opName(80)
  {
  }
}
