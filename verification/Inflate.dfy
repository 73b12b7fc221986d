/** Reference decoder for the DEFLATE format, from sections 3.2.3 to 3.2.7 of RFC 1951. It
    works on a stream of bits and a position in it, and yields the tokens of the stream:
    literal bytes (stored blocks included) and (length, distance) pairs. */
module Inflate {
  import opened Bits
  import opened CanonicalCode
  import opened CodeLengthRuns

  datatype Token = Literal(c: byte) | Match(len: nat, dist: nat)

  // Output after one token; a pair copies byte by byte and may overlap itself.
  function CopyBack(out: seq<byte>, len: nat, dist: nat): (r: seq<byte>)
    requires 1 <= dist <= |out|
    ensures |r| == |out| + len
    decreases len
  {
    if len == 0 then out else CopyBack(out + [out[|out| - dist]], len - 1, dist)
  }

  function Apply(out: seq<byte>, t: Token): Option<seq<byte>>
  {
    match t
    case Literal(c) => Some(out + [c])
    case Match(len, dist) => if 1 <= dist <= |out| then Some(CopyBack(out, len, dist)) else None
  }

  function Unpack(out: seq<byte>, toks: seq<Token>): Option<seq<byte>>
    decreases |toks|
  {
    if toks == [] then Some(out)
    else match Apply(out, toks[0])
      case None => None
      case Some(out') => Unpack(out', toks[1..])
  }

  // Section 3.2.5: extra bits and first value of every length and distance code.
  function LengthExtra(c: nat): nat { if c < 8 || c == 28 then 0 else (c - 4) / 4 }

  function LengthBase(c: nat): nat
  {
    if c == 0 then 3 else if c == 28 then 258 else LengthBase(c - 1) + Pow2(LengthExtra(c - 1))
  }

  function DistExtra(c: nat): nat { if c < 4 then 0 else (c - 2) / 2 }

  function DistBase(c: nat): nat
  {
    if c == 0 then 1 else DistBase(c - 1) + Pow2(DistExtra(c - 1))
  }

  function ReadBits(bs: seq<bool>, pos: nat, n: nat): Option<nat>
  {
    if pos + n <= |bs| then Some(ValLE(bs[pos..pos + n])) else None
  }

  datatype Step = EndOfBlock(pos: nat) | Next(tok: Token, pos: nat)

  // The distance part of a pair of length len.
  function DecodeDistance(dl: seq<nat>, bs: seq<bool>, pos: nat, len: nat): Option<Step>
  {
    match DecodeSymbol(dl, bs, pos)
    case None => None
    case Some(c) =>
      if c >= 30 then None
      else
        var p := pos + dl[c];
        match ReadBits(bs, p, DistExtra(c))
        case None => None
        case Some(x) => Some(Next(Match(len, DistBase(c) + x), p + DistExtra(c)))
  }

  // One literal, end-of-block mark or pair.
  function DecodeToken(ll: seq<nat>, dl: seq<nat>, bs: seq<bool>, pos: nat): (r: Option<Step>)
    ensures r.Some? ==> pos < r.value.pos <= |bs|
  {
    match DecodeSymbol(ll, bs, pos)
    case None => None
    case Some(s) =>
      var p := pos + ll[s];
      if s < 256 then Some(Next(Literal(s), p))
      else if s == 256 then Some(EndOfBlock(p))
      else if s > 285 then None
      else match ReadBits(bs, p, LengthExtra(s - 257))
        case None => None
        case Some(x) => DecodeDistance(dl, bs, p + LengthExtra(s - 257), LengthBase(s - 257) + x)
  }

  // The tokens of a compressed block up to its end-of-block mark, and where it ends.
  function DecodeTokens(ll: seq<nat>, dl: seq<nat>, bs: seq<bool>, pos: nat): (r: Option<(seq<Token>, nat)>)
    ensures r.Some? ==> pos < r.value.1 <= |bs|
    decreases |bs| - pos
  {
    match DecodeToken(ll, dl, bs, pos)
    case None => None
    case Some(EndOfBlock(p)) => Some(([], p))
    case Some(Next(t, p)) =>
      match DecodeTokens(ll, dl, bs, p)
      case None => None
      case Some((ts, q)) => Some(([t] + ts, q))
  }

  // Section 3.2.6: the fixed codes.
  function FixedLitLens(): (s: seq<nat>)
    ensures |s| == 288
  {
    seq(288, i => if i <= 143 then 8 else if i <= 255 then 9 else if i <= 279 then 7 else 8)
  }

  function FixedDistLens(): (s: seq<nat>)
    ensures |s| == 32
  {
    seq(32, i => 5)
  }

  // Section 3.2.7: the i-th symbol in the order in which the lengths of the code length code
  // are sent: 16, 17, 18, 0, 8, 7, 9, 6, 10, 5, 11, 4, 12, 3, 13, 2, 14, 1, 15.
  function BlOrder(i: nat): (s: nat)
    requires i < BL_CODES
    ensures s < BL_CODES
  {
    if i < 3 then 16 + i else if i == 3 then 0 else if i % 2 == 0 then 8 + (i - 4) / 2 else 7 - (i - 5) / 2
  }

  // Reads n three-bit lengths for the symbols BlOrder(from) and on, on top of those in cl.
  function ReadBlLens(bs: seq<bool>, pos: nat, cl: seq<nat>, from: nat, n: nat): (r: Option<seq<nat>>)
    requires from + n <= BL_CODES && |cl| == BL_CODES
    ensures r.Some? ==> |r.value| == BL_CODES
    decreases n
  {
    if n == 0 then Some(cl)
    else match ReadBits(bs, pos, 3)
      case None => None
      case Some(v) => ReadBlLens(bs, pos + 3, cl[BlOrder(from) := v], from + 1, n - 1)
  }

  // One code length item.
  function DecodeItem(cl: seq<nat>, bs: seq<bool>, pos: nat): (r: Option<(Item, nat)>)
    ensures r.Some? ==> pos < r.value.1 <= |bs|
  {
    match DecodeSymbol(cl, bs, pos)
    case None => None
    case Some(s) =>
      var p := pos + cl[s];
      match ReadBits(bs, p, BlExtra(s))
      case None => None
      case Some(x) => Some((Item(s, x), p + BlExtra(s)))
  }

  // Code lengths until there are `total` of them.
  function DecodeLens(cl: seq<nat>, bs: seq<bool>, pos: nat, total: nat, acc: seq<nat>): Option<(seq<nat>, nat)>
    decreases |bs| - pos
  {
    if |acc| >= total then if |acc| == total then Some((acc, pos)) else None
    else match DecodeItem(cl, bs, pos)
      case None => None
      case Some((it, p)) =>
        match ExpandItem(acc, it)
        case None => None
        case Some(acc') => DecodeLens(cl, bs, p, total, acc')
  }

  datatype Header = Header(ll: seq<nat>, dl: seq<nat>, pos: nat)

  // The two code length sequences behind the counts of a dynamic header.
  function DecodeTrees(bs: seq<bool>, pos: nat, nlit: nat, ndist: nat, ncl: nat): Option<Header>
    requires ncl <= BL_CODES
  {
    match ReadBlLens(bs, pos, Repeat(0, BL_CODES), 0, ncl)
    case None => None
    case Some(cl) =>
      match DecodeLens(cl, bs, pos + 3 * ncl, nlit + ndist, [])
      case None => None
      case Some((lens, p)) =>
        if |lens| < nlit then None else Some(Header(lens[..nlit], lens[nlit..], p))
  }

  // The header of a block with dynamic codes.
  function DecodeHeader(bs: seq<bool>, pos: nat): Option<Header>
  {
    match (ReadBits(bs, pos, 5), ReadBits(bs, pos + 5, 5), ReadBits(bs, pos + 10, 4))
    case (Some(hlit), Some(hdist), Some(hclen)) =>
      if hclen + 4 > BL_CODES then None
      else DecodeTrees(bs, pos + 14, hlit + 257, hdist + 1, hclen + 4)
    case _ => None
  }

  // The bytes of a stored block, as literals.
  function ReadBytes(bs: seq<bool>, pos: nat, n: nat): (r: Option<seq<Token>>)
    decreases n
  {
    if n == 0 then Some([])
    else match ReadBits(bs, pos, 8)
      case None => None
      case Some(v) =>
        if v >= 256 then None
        else match ReadBytes(bs, pos + 8, n - 1)
          case None => None
          case Some(ts) => Some([Literal(v)] + ts)
  }

  function ByteAligned(pos: nat): nat { (pos + 7) / 8 * 8 }

  // Section 3.2.4.
  function DecodeStored(bs: seq<bool>, pos: nat): Option<(seq<Token>, nat)>
  {
    var p := ByteAligned(pos);
    match (ReadBits(bs, p, 16), ReadBits(bs, p + 16, 16))
    case (Some(len), Some(nlen)) =>
      if len + nlen != 65535 then None
      else (match ReadBytes(bs, p + 32, len)
            case None => None
            case Some(ts) => Some((ts, p + 32 + 8 * len)))
    case _ => None
  }

  datatype Block = Block(last: bool, toks: seq<Token>, pos: nat)

  // Section 3.2.3: BFINAL, BTYPE and the block itself.
  function DecodeBlock(bs: seq<bool>, pos: nat): Option<Block>
  {
    match (ReadBits(bs, pos, 1), ReadBits(bs, pos + 1, 2))
    case (Some(last), Some(kind)) =>
      var body :=
        if kind == 0 then DecodeStored(bs, pos + 3)
        else if kind == 1 then DecodeTokens(FixedLitLens(), FixedDistLens(), bs, pos + 3)
        else if kind == 2 then
          (match DecodeHeader(bs, pos + 3)
           case None => None
           case Some(h) => DecodeTokens(h.ll, h.dl, bs, h.pos))
        else None;
      (match body
       case None => None
       case Some((ts, p)) => Some(Block(last == 1, ts, p)))
    case _ => None
  }

  // Blocks up to the final one.
  function DecodeBlocks(bs: seq<bool>, pos: nat): Option<(seq<Token>, nat)>
    decreases |bs| - pos
  {
    match DecodeBlock(bs, pos)
    case None => None
    case Some(b) =>
      if b.last then Some((b.toks, b.pos))
      else if b.pos <= pos || b.pos > |bs| then None
      else match DecodeBlocks(bs, b.pos)
        case None => None
        case Some((ts, p)) => Some((b.toks + ts, p))
  }

  // The bytes that a DEFLATE stream stands for.
  function InflateBytes(stream: seq<byte>): Option<seq<byte>>
  {
    match DecodeBlocks(ByteBits(stream), 0)
    case None => None
    case Some((ts, _)) => Unpack([], ts)
  }

  // The tables of section 3.2.5 spelled out.
  lemma {:induction false} Rfc1951Lengths()
    ensures LengthExtra(0) == 0 && LengthExtra(1) == 0 && LengthExtra(2) == 0 && LengthExtra(3) == 0
            && LengthExtra(4) == 0
    ensures LengthExtra(5) == 0 && LengthExtra(6) == 0 && LengthExtra(7) == 0 && LengthExtra(8) == 1
            && LengthExtra(9) == 1
    ensures LengthExtra(10) == 1 && LengthExtra(11) == 1 && LengthExtra(12) == 2 && LengthExtra(13) == 2
            && LengthExtra(14) == 2
    ensures LengthExtra(15) == 2 && LengthExtra(16) == 3 && LengthExtra(17) == 3 && LengthExtra(18) == 3
            && LengthExtra(19) == 3
    ensures LengthExtra(20) == 4 && LengthExtra(21) == 4 && LengthExtra(22) == 4 && LengthExtra(23) == 4
            && LengthExtra(24) == 5
    ensures LengthExtra(25) == 5 && LengthExtra(26) == 5 && LengthExtra(27) == 5 && LengthExtra(28) == 0
    ensures LengthBase(0) == 3 && LengthBase(1) == 4 && LengthBase(2) == 5 && LengthBase(3) == 6 && LengthBase(4) == 7
    ensures LengthBase(5) == 8 && LengthBase(6) == 9 && LengthBase(7) == 10 && LengthBase(8) == 11
            && LengthBase(9) == 13
    ensures LengthBase(10) == 15 && LengthBase(11) == 17 && LengthBase(12) == 19 && LengthBase(13) == 23
            && LengthBase(14) == 27
    ensures LengthBase(15) == 31 && LengthBase(16) == 35 && LengthBase(17) == 43 && LengthBase(18) == 51
            && LengthBase(19) == 59
    ensures LengthBase(20) == 67 && LengthBase(21) == 83 && LengthBase(22) == 99 && LengthBase(23) == 115
            && LengthBase(24) == 131
    ensures LengthBase(25) == 163 && LengthBase(26) == 195 && LengthBase(27) == 227 && LengthBase(28) == 258
  {
    Pow2Small();
  }

  lemma {:induction false} Rfc1951Distances()
    ensures DistExtra(0) == 0 && DistExtra(1) == 0 && DistExtra(2) == 0 && DistExtra(3) == 0 && DistExtra(4) == 1
    ensures DistExtra(5) == 1 && DistExtra(6) == 2 && DistExtra(7) == 2 && DistExtra(8) == 3 && DistExtra(9) == 3
    ensures DistExtra(10) == 4 && DistExtra(11) == 4 && DistExtra(12) == 5 && DistExtra(13) == 5 && DistExtra(14) == 6
    ensures DistExtra(15) == 6 && DistExtra(16) == 7 && DistExtra(17) == 7 && DistExtra(18) == 8 && DistExtra(19) == 8
    ensures DistExtra(20) == 9 && DistExtra(21) == 9 && DistExtra(22) == 10 && DistExtra(23) == 10
            && DistExtra(24) == 11
    ensures DistExtra(25) == 11 && DistExtra(26) == 12 && DistExtra(27) == 12 && DistExtra(28) == 13
            && DistExtra(29) == 13
    ensures DistBase(0) == 1 && DistBase(1) == 2 && DistBase(2) == 3 && DistBase(3) == 4 && DistBase(4) == 5
    ensures DistBase(5) == 7 && DistBase(6) == 9 && DistBase(7) == 13 && DistBase(8) == 17 && DistBase(9) == 25
    ensures DistBase(10) == 33 && DistBase(11) == 49 && DistBase(12) == 65 && DistBase(13) == 97 && DistBase(14) == 129
    ensures DistBase(15) == 193 && DistBase(16) == 257 && DistBase(17) == 385 && DistBase(18) == 513
            && DistBase(19) == 769
    ensures DistBase(20) == 1025 && DistBase(21) == 1537 && DistBase(22) == 2049 && DistBase(23) == 3073
            && DistBase(24) == 4097
    ensures DistBase(25) == 6145 && DistBase(26) == 8193 && DistBase(27) == 12289 && DistBase(28) == 16385
            && DistBase(29) == 24577
  {
    Pow2Small();
    assert Pow2(6) == 64 && Pow2(10) == 1024 && Pow2(11) == 2048 && Pow2(12) == 4096;
  }
}
