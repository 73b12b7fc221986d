/** ct_tally and flush_block on the whole state of a block. */
module BlockCoding {
  import opened Bits
  import opened BitOutput
  import opened CanonicalCode
  import opened CodeLengthRuns
  import opened GenBitlen
  import opened TreeBuilding
  import OptimalCode
  import LengthOrder
  import opened SymbolTally
  import opened Inflate
  import opened BlockEncoding
  import opened BlockStream
  import opened TreeHeader
  import opened BlockTrees
  import opened TokenBuffers
  import opened CompressBlock
  import opened BlockPrices
  import opened BlockEnds
  import opened BlockOptimum
  import opened CodeTables

  ghost function StaticBits(t: Tables, toks: seq<Token>): (d: seq<bool>)
    requires TablesOk(t) && ToksOk(toks)
    ensures |d| <= 31 * |toks| + 7
  {
    StaticTokens(t, toks, FixedLitLens(), FixedDistLens());
    DataBits(t, FixedLitLens(), FixedDistLens(), toks)
  }

  // The bits of a dynamic header and of the data behind it, for those who have them folded.
  ghost function TreesBits(h: Dynamic): seq<bool>
  {
    if h.Valid() then h.Bits() else []
  }

  ghost function DynamicBits(t: Tables, h: Dynamic, toks: seq<Token>): seq<bool>
    requires TablesOk(t)
  {
    if TokensCoded(t, h.ll, h.dl, toks) && END_BLOCK < |h.ll| && h.ll[END_BLOCK] > 0
       then DataBits(t, h.ll, h.dl, toks) else []
  }

  lemma {:induction false} StaticLengths(ll: seq<nat>, dl: seq<nat>)
    requires ll == FixedLitLens() && dl == FixedDistLens()
    ensures |ll| == 288 && Min(|dl|, 30) == D_CODES && LengthsBounded(ll) && LengthsBounded(dl) && ll[END_BLOCK] > 0
  {
  }

  // The trees of build_tree code the block, and their prices are the bits it takes.
  lemma {:induction false} DataTrees(t: Tables, toks: seq<Token>, lf: seq<nat>, ldl: seq<nat>, lmax: nat,
      df: seq<nat>, ddl: seq<nat>, dmax: nat, lx: seq<nat>, dx: seq<nat>)
    requires TablesOk(t) && ToksOk(toks) && lx == LExtras() && dx == DExtras()
    requires GoodLengths(lf, ldl, L_CODES, MAX_BITS, lmax) && GoodLengths(df, ddl, D_CODES, MAX_BITS, dmax)
    requires lf[..L_CODES] == LFreqs(t, toks) && df[..D_CODES] == DFreqs(t, toks)
    ensures LCoded(t, toks, ldl[..lmax + 1]) && DCoded(t, toks, ddl[..dmax + 1])
    ensures Cost(lf, ldl[..lmax + 1], lx) == SymBits(LSyms(t, toks), ldl[..lmax + 1], lx)
    ensures Cost(df, ddl[..dmax + 1], dx) == SymBits(DSyms(t, toks), ddl[..dmax + 1], dx)
  {
    LTree(t, toks, lf, ldl, lmax, lx);
    DTree(t, toks, df, ddl, dmax, dx);
  }

  lemma {:induction false} LTree(t: Tables, toks: seq<Token>, lf: seq<nat>, ldl: seq<nat>, lmax: nat, lx: seq<nat>)
    requires TablesOk(t) && ToksOk(toks) && |lx| == L_CODES
    requires GoodLengths(lf, ldl, L_CODES, MAX_BITS, lmax) && lf[..L_CODES] == LFreqs(t, toks)
    ensures LCoded(t, toks, ldl[..lmax + 1])
    ensures Cost(lf, ldl[..lmax + 1], lx) == SymBits(LSyms(t, toks), ldl[..lmax + 1], lx)
  {
    AllCoded(LSyms(t, toks), L_CODES, lf, ldl, MAX_BITS, lmax);
    TreePrice(LSyms(t, toks), L_CODES, lf, ldl[..lmax + 1], lx);
  }

  lemma {:induction false} DTree(t: Tables, toks: seq<Token>, df: seq<nat>, ddl: seq<nat>, dmax: nat, dx: seq<nat>)
    requires TablesOk(t) && ToksOk(toks) && |dx| == D_CODES
    requires GoodLengths(df, ddl, D_CODES, MAX_BITS, dmax) && df[..D_CODES] == DFreqs(t, toks)
    ensures DCoded(t, toks, ddl[..dmax + 1])
    ensures Cost(df, ddl[..dmax + 1], dx) == SymBits(DSyms(t, toks), ddl[..dmax + 1], dx)
  {
    AllCoded(DSyms(t, toks), D_CODES, df, ddl, MAX_BITS, dmax);
    TreePrice(DSyms(t, toks), D_CODES, df, ddl[..dmax + 1], dx);
  }

  // Both prices of the block's data.
  lemma {:induction false} DataPrices(t: Tables, toks: seq<Token>, lf: seq<nat>, ldl: seq<nat>, lmax: nat,
      df: seq<nat>, ddl: seq<nat>, dmax: nat, sl: seq<nat>, sd: seq<nat>)
    requires TablesOk(t) && ToksOk(toks) && sl == FixedLitLens() && |sd| == D_CODES
             && (forall i :: 0 <= i < D_CODES ==> sd[i] == 5)
    requires GoodLengths(lf, ldl, L_CODES, MAX_BITS, lmax) && GoodLengths(df, ddl, D_CODES, MAX_BITS, dmax)
    requires lf[..L_CODES] == LFreqs(t, toks) && df[..D_CODES] == DFreqs(t, toks)
    ensures TokensCoded(t, ldl[..lmax + 1], ddl[..dmax + 1], toks) && lmax >= END_BLOCK && ldl[END_BLOCK] > 0
    ensures Cost(lf, ldl[..lmax + 1], LExtras()) + Cost(df, ddl[..dmax + 1], DExtras())
            == |DataBits(t, ldl[..lmax + 1], ddl[..dmax + 1], toks)|
    ensures StaticCost(lf, ldl[..lmax + 1], sl, LExtras()) + StaticCost(df, ddl[..dmax + 1], sd, DExtras())
            == |StaticBits(t, toks)|
  {
    DataTrees(t, toks, lf, ldl, lmax, df, ddl, dmax, LExtras(), DExtras());
    CodedTokens(t, toks, ldl[..lmax + 1], ddl[..dmax + 1]);
    DataSize(t, ldl[..lmax + 1], ddl[..dmax + 1], toks);
    StaticPrices(t, toks, lf, ldl[..lmax + 1], df, ddl[..dmax + 1], sl, sd, LExtras(), DExtras());
  }

  lemma {:induction false} StaticPrices(t: Tables, toks: seq<Token>, lf: seq<nat>, ll: seq<nat>, df: seq<nat>,
      dl: seq<nat>, sl: seq<nat>, sd: seq<nat>, lx: seq<nat>, dx: seq<nat>)
    requires TablesOk(t) && ToksOk(toks) && sl == FixedLitLens() && |sd| == D_CODES
             && (forall i :: 0 <= i < D_CODES ==> sd[i] == 5)
    requires |ll| <= L_CODES <= |lf| && |dl| <= D_CODES <= |df| && LCoded(t, toks, ll) && DCoded(t, toks, dl)
    requires lf[..L_CODES] == LFreqs(t, toks) && df[..D_CODES] == DFreqs(t, toks) && lx == LExtras() && dx == DExtras()
    ensures StaticCost(lf, ll, sl, lx) + StaticCost(df, dl, sd, dx) == |StaticBits(t, toks)|
  {
    hide StaticCost, SymBits, AddFreqs;
    StaticTokens(t, toks, sl, FixedDistLens());
    DataSize(t, sl, FixedDistLens(), toks);
    StaticPrice(LSyms(t, toks), L_CODES, lf, ll, sl, lx);
    StaticPrice(DSyms(t, toks), D_CODES, df, dl, sd, dx);
    SymBitsSame(DSyms(t, toks), sd, FixedDistLens(), dx);
  }

  // The static trees that ct_init sets up.
  ghost predicate LitsMade(codes: seq<nat>, lens: seq<nat>)
  {
    forall k {:trigger Open(k)} :: Open(k) ==> lens == FixedLitLens() && TreeCodes(codes, lens, FixedLitLens(), 288)
  }

  ghost predicate DistsMade(codes: seq<nat>, lens: seq<nat>)
  {
    forall k {:trigger Open(k)} :: Open(k) ==>
      |lens| == D_CODES && (forall i :: 0 <= i < D_CODES ==> lens[i] == 5)
        && TreeCodes(codes, lens, FixedDistLens(), D_CODES)
  }

  method StaticLits(tb: TreeBuilder) returns (codes: seq<nat>, lens: seq<nat>)
    requires tb.blCount.Length == MAX_BITS + 1 && forall i :: 0 <= i <= MAX_BITS ==> tb.blCount[i] == 0
    modifies tb.blCount
    ensures LitsMade(codes, lens) && |lens| == 288
  {
    var fc, dl := new nat[288](_ => 0), new nat[288](_ => 0);
    FillStaticLits(fc, dl, tb.blCount);
    codes, lens := fc[..], dl[..];
    forall c | 0 <= c < 288 ensures lens[c] == FixedLitLens()[c] && CodeSet(codes[c], FixedLitLens(), c) {
    }
  }

  method StaticDists() returns (codes: seq<nat>, lens: seq<nat>)
    ensures DistsMade(codes, lens) && |lens| == D_CODES
  {
    var fc, dl := new nat[D_CODES](_ => 0), new nat[D_CODES](_ => 0);
    FillStaticDists(fc, dl);
    codes, lens := fc[..], dl[..];
    forall c | 0 <= c < D_CODES ensures lens[c] == FixedDistLens()[c] && CodeSet(codes[c], FixedDistLens(), c) {
      assert dl[c] == 5;
    }
  }

  // The extra bits of the three descriptors.
  lemma {:induction false} ExtrasOf(l: TreeDesc, d: TreeDesc, bl: TreeDesc)
    requires l.elems == L_CODES && l.extraBase == 257 && l.extraBits == seq(29, i requires i >= 0 => LengthExtra(i))
    requires d.elems == D_CODES && d.extraBase == 0 && d.extraBits == seq(30, i requires i >= 0 => DistExtra(i))
    requires bl.elems == BL_CODES && bl.extraBase == 0 && bl.extraBits == seq(BL_CODES, i requires i >= 0 => BlExtra(i))
    ensures l.Extras() == LExtras() && d.Extras() == DExtras() && bl.Extras() == BlExtras()
  {
  }

  ghost predicate DescsOk(tb: TreeBuilder, l: TreeDesc, d: TreeDesc, bl: TreeDesc, stDl: seq<nat>, sdDl: seq<nat>)
  {
    && Separate(tb, l, d, bl)
    && l.elems == L_CODES && l.maxLength == MAX_BITS && l.staticLens == stDl && l.Extras() == LExtras()
    && d.elems == D_CODES && d.maxLength == MAX_BITS && d.staticLens == sdDl && d.Extras() == DExtras()
    && bl.Extras() == BlExtras()
  }

  ghost predicate DescsMade(tb: TreeBuilder, l: TreeDesc, d: TreeDesc, bl: TreeDesc, stDl: seq<nat>, sdDl: seq<nat>)
  {
    forall k {:trigger Open(k)} :: Open(k) ==> DescsOk(tb, l, d, bl, stDl, sdDl)
  }

  // The tree descriptors that pack_gzip sets up.
  method MakeDescs(tb: TreeBuilder, stDl: seq<nat>, sdDl: seq<nat>) returns (l: TreeDesc, d: TreeDesc, bl: TreeDesc)
    requires tb.heap.Length == tb.depth.Length == 573 && tb.blCount.Length == MAX_BITS + 1
    requires tb.heap != tb.depth && tb.heap != tb.blCount && tb.depth != tb.blCount
    requires |stDl| >= L_CODES && |sdDl| >= D_CODES
    ensures DescsMade(tb, l, d, bl, stDl, sdDl) && fresh(l) && fresh(l.fc) && fresh(l.dl)
    ensures fresh(d) && fresh(d.fc) && fresh(d.dl) && fresh(bl) && fresh(bl.fc) && fresh(bl.dl)
  {
    Pow2Small();
    l := new TreeDesc(stDl, seq(29, i requires i >= 0 => LengthExtra(i)), 257, L_CODES, MAX_BITS);
    d := new TreeDesc(sdDl, seq(30, i requires i >= 0 => DistExtra(i)), 0, D_CODES, MAX_BITS);
    bl := new TreeDesc([], seq(BL_CODES, i requires i >= 0 => BlExtra(i)), 0, BL_CODES, 7);
    ExtrasOf(l, d, bl);
  }

  // What a block coder is made of, but for its output.
  datatype Parts = Parts(tb: TreeBuilder, t: Tables, stFc: seq<nat>, stDl: seq<nat>, sdFc: seq<nat>, sdDl: seq<nat>,
                         l: TreeDesc, d: TreeDesc, bl: TreeDesc, buf: TokenBuffer) {
    ghost function Objects(): set<object>
    {
      {buf, buf.lBuf, buf.dBuf, buf.flagBuf, tb, tb.heap, tb.depth, tb.blCount, l, l.fc, l.dl, d, d.fc, d.dl, bl,
        bl.fc, bl.dl}
    }

    ghost predicate Made()
    {
      LitsMade(stFc, stDl) && DistsMade(sdFc, sdDl) && DescsMade(tb, l, d, bl, stDl, sdDl) && TablesOk(t) && buf.Shape()
    }
  }

  method MakeParts() returns (p: Parts)
    ensures p.Made() && fresh(p.Objects())
  {
    var tb := new TreeBuilder();
    var t := FillTables();
    var stFc, stDl := StaticLits(tb);
    var sdFc, sdDl := StaticDists();
    var l, d, bl := MakeDescs(tb, stDl, sdDl);
    var buf := new TokenBuffer();
    p := Parts(tb, t, stFc, stDl, sdFc, sdDl, l, d, bl, buf);
  }

  class BlockCoder {
    const w: BitWriter
    const tb: TreeBuilder
    const l: TreeDesc
    const d: TreeDesc
    const bl: TreeDesc
    const t: Tables
    const stFc: seq<nat>   // static_ltree
    const stDl: seq<nat>
    const sdFc: seq<nat>   // static_dtree
    const sdDl: seq<nat>
    const buf: TokenBuffer
    var compressedLen: nat
    ghost const repr: set<object>
    ghost var bitsSent: nat
    ghost var head: seq<byte>      // what precedes the blocks in the output
    ghost var pieces: seq<Piece>   // the blocks sent so far

    // The tree descriptors of pack_gzip, then ct_init. bi_init and the gzip header come from w.
    constructor (w: BitWriter)
      requires w.Valid() && w.biValid == 0
      modifies {}
      ensures Valid() && this.w == w && pieces == [] && buf.toks == [] && head == w.stream
      ensures fresh(repr - {w, w.outbuf})
    {
      var parts := MakeParts();
      this.w, tb, t := w, parts.tb, parts.t;
      stFc, stDl, sdFc, sdDl := parts.stFc, parts.stDl, parts.sdFc, parts.sdDl;
      l, d, bl, buf := parts.l, parts.d, parts.bl, parts.buf;
      repr := parts.Objects() + {w, w.outbuf};
      compressedLen, bitsSent, head, pieces := 0, 0, w.stream, [];
      new;
      BuiltFrom();
      Restart();
      Begin();
      assert repr - {w, w.outbuf} <= parts.Objects();
    }

    lemma {:induction false} BuiltFrom()
      requires MadeOf().Made() && buf.lBuf != w.outbuf && buf.flagBuf != w.outbuf
      ensures Built()
    {
      assert Open(0);
    }

    ghost function MadeOf(): Parts
    {
      Parts(tb, t, stFc, stDl, sdFc, sdDl, l, d, bl, buf)
    }

    // The invariant at the start.
    lemma {:induction false} Begin()
      requires repr == MadeOf().Objects() + {w, w.outbuf} && Idle() && w.Valid() && w.biValid == 0
      requires compressedLen == bitsSent == 0 && head == w.stream && pieces == []
      ensures Valid()
    {
      assert Open(0);
      assert BitsLE(w.biBuf, 0) == [];
    }

    // compressed_len holds 32 bits of the number of bits sent.
    ghost predicate Wrapped()
      reads this
    {
      forall k {:trigger Open(k)} :: Open(k) ==> compressedLen == bitsSent % WORD
    }

    ghost predicate StaticTrees()
    {
      && stDl == FixedLitLens() && TreeCodes(stFc, stDl, FixedLitLens(), 288)
      && |sdDl| == D_CODES && (forall i :: 0 <= i < D_CODES ==> sdDl[i] == 5)
         && TreeCodes(sdFc, sdDl, FixedDistLens(), D_CODES)
    }

    ghost predicate Shape()
    {
      TablesOk(t) && StaticTrees() && DescsOk(tb, l, d, bl, stDl, sdDl) && buf.Shape() && buf.lBuf != w.outbuf
        && buf.flagBuf != w.outbuf
    }

    // The frequencies are those of the buffered tokens.
    ghost predicate Counted(toks: seq<Token>)
      requires Shape()
      reads tb, l.fc, d.fc, bl.fc
    {
      && ToksOk(toks)
      && l.fc[..L_CODES] == LFreqs(t, toks) && d.fc[..D_CODES] == DFreqs(t, toks)
         && bl.fc[..BL_CODES] == Repeat(0, BL_CODES)
      && tb.optLen == 0 && tb.staticLen == 0
    }

    // What has been sent is a stream of whole blocks, and compressed_len is its length.
    ghost predicate Streaming()
      reads this, w
    {
      IsStream(pieces) && w.sent == ByteBits(head) + PieceBits(pieces) && bitsSent == |PieceBits(pieces)| && Wrapped()
    }

    // The parts of the coder.
    ghost predicate Within()
    {
      && w in repr && w.outbuf in repr && buf in repr && buf.lBuf in repr && buf.dBuf in repr && buf.flagBuf in repr
      && tb in repr && tb.heap in repr && tb.depth in repr && tb.blCount in repr
      && l in repr && l.fc in repr && l.dl in repr && d in repr && d.fc in repr && d.dl in repr
      && bl in repr && bl.fc in repr && bl.dl in repr
    }

    ghost predicate Sound()
      reads this, repr
    {
      Within() && Shape() && w.Valid() && buf.Valid() && Counted(buf.toks) && Streaming()
    }

    // The same for the users of the coder.
    ghost predicate Valid()
      reads this, repr
    {
      forall k {:trigger Open(k)} :: Open(k) ==> Sound()
    }

    // init_block
    method InitBlock()
      requires Shape()
      modifies tb, l.fc, d.fc, bl.fc, buf
      ensures buf.Valid() && buf.toks == [] && Counted([])
    {
      ClearFreqs(l.fc, L_CODES);
      ClearFreqs(d.fc, D_CODES);
      ClearFreqs(bl.fc, BL_CODES);
      l.fc[END_BLOCK] := 1;
      tb.optLen, tb.staticLen := 0, 0;
      buf.Reset();
      FreqsStart(t);
      assert l.fc[..L_CODES] == Repeat(0, L_CODES)[END_BLOCK := 1];
    }

    method ClearFreqs(fc: array<nat>, n: nat)
      requires n <= fc.Length
      modifies fc
      ensures fc[..n] == Repeat(0, n)
    {
      for i := 0 to n
        invariant forall j :: 0 <= j < i ==> fc[j] == 0
      {
        fc[i] := 0;
      }
    }

    // The end of the gzip header, before the first block.
    method PutHeader(bytes: seq<byte>)
      requires Valid() && pieces == [] && w.biValid == 0
      modifies this`head, repr
      ensures Valid() && pieces == [] && head == old(w.stream) + bytes && buf.toks == old(buf.toks)
    {
      assert Open(0);
      w.PutAligned(bytes);
      head := w.stream;
      assert ByteBits(head) + [] == ByteBits(head);
    }

    // The frequencies' part of ct_tally.
    method CountToken(dist: nat, lc: byte, ghost tok: Token, ghost toks: seq<Token>)
      requires Shape() && Counted(toks) && TokenOk(tok)
      requires if dist == 0 then tok == Literal(lc) else tok == Match(lc + 3, dist)
      modifies l.fc, d.fc
      ensures Counted(toks + [tok])
    {
      hide LFreqs, DFreqs;
      LFreqsSnoc(t, toks, tok, toks + [tok]);
      DFreqsSnoc(t, toks, tok, toks + [tok]);
      if dist == 0 {
        l.fc[lc] := l.fc[lc] + 1;
      } else {
        var c, e := t.lengthCode[lc] + 257, t.DCode(dist - 1);
        l.fc[c] := l.fc[c] + 1;
        d.fc[e] := d.fc[e] + 1;
      }
    }

    // The guess at the size of the block.
    method Estimate() returns (bits: nat)
      requires Shape()
      ensures bits == 8 * buf.lastLit + EstimateBits(d.fc[..D_CODES])
    {
      bits := 8 * buf.lastLit;
      ghost var f: seq<nat> := d.fc[..D_CODES];
      for dcode := 0 to D_CODES
        invariant bits == 8 * buf.lastLit + EstimateBits(f[..dcode])
      {
        assert f[..dcode + 1][..dcode] == f[..dcode];
        bits := bits + d.fc[dcode] * (5 + DistExtra(dcode));
      }
      assert f[..D_CODES] == f;
    }

    // One more token in the block.
    method Record(dist: ush, lc: byte, ghost tok: Token)
      requires Sound() && |buf.toks| + 1 < LIT_BUFSIZE && TokenOk(tok)
      requires if dist == 0 then tok == Literal(lc) else tok == Match(lc + 3, dist)
      modifies l.fc, d.fc, buf, buf.lBuf, buf.dBuf, buf.flagBuf
      ensures Sound() && buf.toks == old(buf.toks) + [tok]
    {
      hide LFreqs, DFreqs, TokenBuffer.Valid, BlockCoder.Streaming, BlockCoder.Within, BlockCoder.StaticTrees;
      CountToken(dist, lc, tok, buf.toks);
      buf.Save(dist, lc, tok);
    }

    lemma {:induction false} IsSound()
      requires Valid()
      ensures Sound()
    {
      assert Open(0);
    }

    lemma {:induction false} Sealed()
      requires Sound()
      ensures Valid()
    {
    }

    // Whether ct_tally asks for the block to be flushed.
    method Full(inLength: int) returns (flush: bool)
      requires Sound()
      ensures !flush ==> |buf.toks| + 1 < LIT_BUFSIZE
      ensures flush == Wants(t, buf.toks, inLength)
    {
      hide TablesOk, DFreqs, DistanceBound, EstimateBits;
      EstimateIs(t, buf.toks);
      if buf.lastLit % 4096 == 0 {
        var bits := Estimate();
        if buf.lastDist < buf.lastLit / 2 && bits / 8 < inLength / 2 {
          return true;
        }
      }
      return buf.lastLit == LIT_BUFSIZE - 1 || buf.lastDist == DIST_BUFSIZE;
    }

    // ct_tally: dist is 0 for a literal lc; otherwise lc is the match length less 3.
    method Tally(dist: ush, lc: byte, inLength: int) returns (flush: bool)
      requires Valid() && |buf.toks| + 1 < LIT_BUFSIZE && dist <= 32768
      modifies repr
      ensures Valid() && buf.toks == old(buf.toks) + [if dist == 0 then Literal(lc) else Match(lc + 3, dist)]
      ensures (!flush ==> |buf.toks| + 1 < LIT_BUFSIZE) && pieces == old(pieces) && head == old(head)
      ensures flush == Wants(t, buf.toks, inLength)
    {
      hide BlockCoder.Sound, BlockCoder.Valid, Wants;
      IsSound();
      WithinRepr();
      Record(dist, lc, if dist == 0 then Literal(lc) else Match(lc + 3, dist));
      flush := Full(inLength);
      Sealed();
    }

    // Both trees code the block, and opt_len and static_len are what it takes.
    ghost predicate DataPlanned(toks: seq<Token>, ll: seq<nat>, dl: seq<nat>)
      requires TablesOk(t)
      reads tb
    {
      && ToksOk(toks) && 257 <= |ll| <= L_CODES && 2 <= |dl| <= D_CODES && Complete(ll) && Complete(dl)
      && TokensCoded(t, ll, dl, toks) && ll[END_BLOCK] > 0
      && tb.optLen == |DataBits(t, ll, dl, toks)| && tb.staticLen == |StaticBits(t, toks)|
    }

    // build_tree for both alphabets.
    method BuildDataTrees(ghost toks: seq<Token>)
      requires Shape() && Counted(toks) && |toks| < LIT_BUFSIZE
      modifies tb, tb.heap, tb.depth, tb.blCount, l`maxCode, l.fc, l.dl, d`maxCode, d.fc, d.dl
      ensures l.maxCode < L_CODES && d.maxCode < D_CODES
      ensures DataPlanned(toks, l.dl[..l.maxCode + 1], d.dl[..d.maxCode + 1])
      ensures CodesSet(l.fc[..], l.dl[..l.maxCode + 1]) && CodesSet(d.fc[..], d.dl[..d.maxCode + 1])
      ensures LeastWhereShort(t, toks, l.dl[..l.maxCode + 1], d.dl[..d.maxCode + 1])
    {
      hide Cost, StaticCost, CodesSet, LFreqs, DFreqs, DataBits, StaticBits, TokensCoded, Complete;
      hide OptimalCode.OptimalWhereAttainable, LengthOrder.InOrder, LeastWhereShort, FixedLitLens, ToksOk;
      ghost var lf: seq<nat>, df: seq<nat> := l.fc[..], d.fc[..];
      tb.BuildTree(l);
      ghost var lfc: seq<nat>, ldl: seq<nat>, lmax := l.fc[..], l.dl[..], l.maxCode;
      tb.BuildTree(d);
      assert l.fc[..] == lfc && l.dl[..] == ldl && l.maxCode == lmax;
      DataPrices(t, toks, lf, ldl, lmax, df, d.dl[..], d.maxCode, stDl, sdDl);
      TreesAreLeast(t, toks, lf, ldl, lmax, df, d.dl[..], d.maxCode);
    }

    // The trees hold the codes of header h, with the guards that send_tree needs.
    ghost predicate Holds(h: Dynamic)
      reads l, l.fc, l.dl, d, d.fc, d.dl, bl.fc, bl.dl
    {
      && l.maxCode + 1 == |h.ll| < l.dl.Length && d.maxCode + 1 == |h.dl| < d.dl.Length && BL_CODES <= bl.dl.Length
      && h.ll == l.dl[..|h.ll|] && h.dl == d.dl[..|h.dl|] && h.cl == bl.dl[..BL_CODES]
      && l.dl[|h.ll|] == GUARD && d.dl[|h.dl|] == GUARD
      && CodesSet(l.fc[..], h.ll) && CodesSet(d.fc[..], h.dl) && CodesSet(bl.fc[..], h.cl)
    }

    ghost predicate Planned(toks: seq<Token>, h: Dynamic)
      requires TablesOk(t)
      reads tb
    {
      && ToksOk(toks) && h.Valid() && TokensCoded(t, h.ll, h.dl, toks) && h.ll[END_BLOCK] > 0
      && tb.optLen == |h.Bits()| + |DataBits(t, h.ll, h.dl, toks)| && tb.staticLen == |StaticBits(t, toks)|
      && LeastWhereShort(t, toks, h.ll, h.dl)
    }

    // compressed_len after a stored block of len bytes.
    method AdvanceStored(len: nat, ghost n: nat)
      requires Wrapped() && n == 3 + StoredPad(bitsSent + 3) + 32 + 8 * len
      modifies this`compressedLen, this`bitsSent
      ensures Wrapped() && bitsSent == old(bitsSent) + n
    {
      assert Open(0);
      var c := (compressedLen + 3 + 7) % WORD;
      compressedLen := c - c % 8;
      compressedLen := (compressedLen + 8 * (len + 4)) % WORD;
      StoredSize(bitsSent, len);
      bitsSent := bitsSent + n;
    }

    // compressed_len after n more bits.
    method Advance(n: nat)
      requires Wrapped()
      modifies this`compressedLen, this`bitsSent
      ensures Wrapped() && bitsSent == old(bitsSent) + n
    {
      assert Open(0);
      AddWord(bitsSent, n);
      compressedLen := (compressedLen + n) % WORD;
      bitsSent := bitsSent + n;
    }

    // A stored block.
    method SendStored(data: seq<byte>, eof: bool, ghost pos: nat)
      requires w.Valid() && |w.sent| == 8 * |head| + pos && |data| < 65536
      modifies w, w.outbuf
      ensures w.Valid() && w.sent == old(w.sent) + KindBits(STORED_BLOCK, eof) + BitsLE(0, StoredPad(pos + 3))
        + (BitsLE(|data|, 16) + BitsLE(65535 - |data|, 16)) + ByteBits(data)
    {
      ghost var s0 := w.sent;
      SendKind(STORED_BLOCK, eof);
      ghost var s1 := w.sent;
      w.CopyBlock(data, true);
      StoredChain(s0, KindBits(STORED_BLOCK, eof), s1, |head|, pos, BitsLE(|data|, 16) + BitsLE(65535 - |data|, 16),
        ByteBits(data), w.sent);
    }

    method SendKind(kind: nat, eof: bool)
      requires w.Valid() && kind < 3
      modifies w, w.outbuf
      ensures w.Valid() && w.sent == old(w.sent) + KindBits(kind, eof)
    {
      Pow2Small();
      w.SendBits(2 * kind + if eof then 1 else 0, 3);
    }

    method SendStaticData()
      requires w.Valid() && Shape() && buf.Valid() && buf.lastFlags < buf.flagBuf.Length
               && buf.flagBuf[buf.lastFlags] == buf.flags
      requires ToksOk(buf.toks)
      modifies w, w.outbuf
      ensures w.Valid() && w.sent == old(w.sent) + StaticBits(t, buf.toks)
    {
      StaticTokens(t, buf.toks, stDl, FixedDistLens());
      StaticLengths(stDl, FixedDistLens());
      Compress(buf, w, t, stFc, stDl, sdFc, sdDl, stDl, FixedDistLens());
    }

    // The last flags are in place.
    ghost predicate Saved()
      reads this, buf, buf.lBuf, buf.dBuf, buf.flagBuf
    {
      buf.Valid() && buf.lastFlags < buf.flagBuf.Length && buf.flagBuf[buf.lastFlags] == buf.flags
    }

    // Where the next block starts.
    ghost predicate AtPos(pos: nat)
      reads this, w
    {
      |w.sent| == 8 * |head| + pos && bitsSent == pos && Wrapped()
    }

    // The parts of the invariant, folded for those who only pass them on.
    ghost predicate Built()
    {
      forall k {:trigger Open(k)} :: Open(k) ==> Shape()
    }

    ghost predicate Loaded()
      reads tb, l.fc, d.fc, bl.fc, buf, buf.lBuf, buf.dBuf, buf.flagBuf
    {
      forall k {:trigger Open(k)} :: Open(k) ==> Shape() && buf.Valid() && Counted(buf.toks)
    }

    ghost predicate Placed(pos: nat)
      reads this, w, w.outbuf
    {
      forall k {:trigger Open(k)} :: Open(k) ==> Shape() && w.Valid() && AtPos(pos)
    }

    ghost predicate FlagsSaved()
      reads this, buf, buf.lBuf, buf.dBuf, buf.flagBuf
    {
      forall k {:trigger Open(k)} :: Open(k) ==> Saved()
    }

    ghost predicate TreesReady(toks: seq<Token>, h: Dynamic, maxBlindex: nat)
      reads tb, l, l.fc, l.dl, d, d.fc, d.dl, bl.fc, bl.dl
    {
      forall k {:trigger Open(k)} :: Open(k) ==> TablesOk(t) && Holds(h) && Planned(toks, h) && h.n == maxBlindex + 1
    }

    // Everything is ready for the block to be sent, with h as its header if it is dynamic.
    ghost predicate Ready(h: Dynamic, maxBlindex: nat)
      reads this, tb, buf, buf.lBuf, buf.dBuf, buf.flagBuf, l, l.fc, l.dl, d, d.fc, d.dl, bl.fc, bl.dl
    {
      FlagsSaved() && TreesReady(buf.toks, h, maxBlindex)
    }

    // The output is none of the buffers.
    lemma {:induction false} OutputApart()
      requires Built()
      ensures buf.lBuf != w.outbuf && buf.flagBuf != w.outbuf
    {
      assert Open(0);
    }

    method SendHeader(maxBlindex: nat, ghost h: Dynamic)
      requires w.Valid() && Built() && TreesReady(buf.toks, h, maxBlindex)
      modifies w, w.outbuf
      ensures w.Valid() && w.sent == old(w.sent) + TreesBits(h)
    {
      assert Open(0);
      SendAllTrees(w, l, d, bl, l.maxCode + 1, d.maxCode + 1, maxBlindex + 1, h);
    }

    lemma {:induction false} TreesOf(maxBlindex: nat, h: Dynamic)
      requires TablesOk(t) && Ready(h, maxBlindex)
      ensures Saved() && TokensCoded(t, h.ll, h.dl, buf.toks) && LengthsBounded(h.ll) && LengthsBounded(h.dl)
      ensures END_BLOCK < |h.ll| && h.ll[END_BLOCK] > 0 && |h.dl| <= 30
      ensures TreeCodes(l.fc[..], l.dl[..], h.ll, |h.ll|) && TreeCodes(d.fc[..], d.dl[..], h.dl, |h.dl|)
    {
      assert Open(0);
      DynamicShape(t, h, buf.toks, 0, false);
      TreeCodesOf(l.fc[..], l.dl[..], |h.ll|);
      TreeCodesOf(d.fc[..], d.dl[..], |h.dl|);
    }

    method SendDynamicData(maxBlindex: nat, ghost h: Dynamic)
      requires w.Valid() && TablesOk(t) && Built() && Ready(h, maxBlindex)
      modifies w, w.outbuf
      ensures w.Valid() && w.sent == old(w.sent) + DynamicBits(t, h, buf.toks)
    {
      OutputApart();
      TreesOf(maxBlindex, h);
      Compress(buf, w, t, l.fc[..], l.dl[..], d.fc[..], d.dl[..], h.ll, h.dl);
    }

    // The block p is appended to what was sent before it, at pos, and compressed_len counts it.
    ghost predicate Grown(p: Piece, pos: nat, last: bool, before: seq<bool>)
      reads this, w, w.outbuf
    {
      forall k {:trigger Open(k)} :: Open(k) ==> w.Valid() && Appended(p, pos, last, before, w.sent) && Wrapped()
                                                 && bitsSent == pos + |p.bits|
    }

    lemma {:induction false} PlaceOf(pos: nat)
      requires Placed(pos)
      ensures w.Valid() && AtPos(pos) && TablesOk(t)
    {
      assert Open(0);
    }

    method StoredForm(data: seq<byte>, eof: bool, ghost pos: nat) returns (ghost p: Piece)
      requires Placed(pos) && |data| < 65536
      modifies this`compressedLen, this`bitsSent, w, w.outbuf
      ensures Grown(p, pos, eof, old(w.sent)) && SentAs(t, StoredBlock(data), p, pos, eof)
    {
      PlaceOf(pos);
      ghost var s0, n := w.sent, 3 + StoredPad(pos + 3) + 32 + 8 * |data|;
      AdvanceStored(|data|, n);
      SendStored(data, eof, pos);
      p := StoredAppended(t, data, pos, eof, s0, w.sent);
    }

    method SendStatic(eof: bool)
      requires w.Valid() && Shape() && Saved() && ToksOk(buf.toks)
      modifies w, w.outbuf
      ensures w.Valid() && w.sent == old(w.sent) + KindBits(STATIC_TREES, eof) + StaticBits(t, buf.toks)
    {
      SendKind(STATIC_TREES, eof);
      SendStaticData();
    }

    method StaticForm(eof: bool, ghost pos: nat) returns (ghost p: Piece)
      requires Placed(pos) && FlagsSaved() && TablesOk(t) && ToksOk(buf.toks)
               && tb.staticLen == |StaticBits(t, buf.toks)|
      modifies this`compressedLen, this`bitsSent, w, w.outbuf
      ensures Grown(p, pos, eof, old(w.sent)) && SentAs(t, StaticBlock(buf.toks), p, pos, eof)
    {
      assert Open(0);
      ghost var s0, toks := w.sent, buf.toks;
      SendStatic(eof);
      ghost var s1 := w.sent;
      p := StaticAppended(t, toks, pos, eof, s0, s1);
      Advance(3 + tb.staticLen);
      assert w.sent == s1;
    }

    // The trees and the data of a dynamic block.
    method SendTreesAndData(maxBlindex: nat, ghost h: Dynamic)
      requires w.Valid() && TablesOk(t) && Built() && Ready(h, maxBlindex)
      modifies w, w.outbuf
      ensures w.Valid() && w.sent == old(w.sent) + TreesBits(h) + DynamicBits(t, h, buf.toks)
    {
      hide TreesBits, DynamicBits, TablesOk, BitWriter.Valid;
      OutputApart();
      SendHeader(maxBlindex, h);
      SendDynamicData(maxBlindex, h);
    }

    method SendDynamic(maxBlindex: nat, eof: bool, ghost h: Dynamic)
      requires w.Valid() && TablesOk(t) && Built() && Ready(h, maxBlindex)
      modifies w, w.outbuf
      ensures w.Valid() && w.sent == old(w.sent) + KindBits(DYN_TREES, eof) + TreesBits(h) + DynamicBits(t, h, buf.toks)
    {
      hide TreesBits, DynamicBits, TablesOk, BitWriter.Valid, KindBits;
      OutputApart();
      SendKind(DYN_TREES, eof);
      SendTreesAndData(maxBlindex, h);
    }

    lemma {:induction false} PlanOf(h: Dynamic, maxBlindex: nat)
      requires TablesOk(t) && Ready(h, maxBlindex)
      ensures DynamicPlan(t, h, buf.toks)
      ensures tb.optLen == |TreesBits(h)| + |DynamicBits(t, h, buf.toks)|
      ensures ToksOk(buf.toks) && tb.staticLen == |StaticBits(t, buf.toks)| && |buf.toks| < LIT_BUFSIZE
      ensures LeastWhereShort(t, buf.toks, h.ll, h.dl)
    {
      assert Open(0);
    }

    method DynamicForm(maxBlindex: nat, eof: bool, ghost pos: nat, ghost h: Dynamic) returns (ghost p: Piece)
      requires Placed(pos) && Built() && TablesOk(t) && Ready(h, maxBlindex)
      modifies this`compressedLen, this`bitsSent, w, w.outbuf
      ensures Grown(p, pos, eof, old(w.sent)) && SentAs(t, DynamicBlock(h, buf.toks), p, pos, eof)
    {
      hide TreesBits, DynamicBits, StaticBits, TablesOk, LeastWhereShort, DynamicPlan, SentAs;
      ghost var s0, toks := w.sent, buf.toks;
      PlaceOf(pos);
      PlanOf(h, maxBlindex);
      SendDynamic(maxBlindex, eof, h);
      ghost var s1 := w.sent;
      p := DynamicPiece(t, h, toks, pos, eof, s0, s1);
      Advance(3 + tb.optLen);
      assert w.sent == s1;
    }

    // The choice of flush_block; buf is NULL (no data) when the block has left the window.
    method ChooseForm(data: Option<seq<byte>>, storedLen: nat, eof: bool, maxBlindex: nat, ghost pos: nat,
        ghost h: Dynamic) returns (ghost p: Piece)
      requires Placed(pos) && Built() && TablesOk(t) && Ready(h, maxBlindex) && ToksOk(buf.toks)
      requires data.Some? ==> |data.value| == storedLen
      modifies this`compressedLen, this`bitsSent, w, w.outbuf
      ensures Grown(p, pos, eof, old(w.sent)) && SmallestOf(t, h, p, data, storedLen, buf.toks, pos, eof)
    {
      hide LeastWhereShort, DynamicPlan, StaticBits, TreesBits, DynamicBits, SentAs;
      PlanOf(h, maxBlindex);
      var optLenb, staticLenb := (tb.optLen + 3 + 7) / 8, (tb.staticLen + 3 + 7) / 8;
      if staticLenb <= optLenb {
        optLenb := staticLenb;
      }
      if storedLen + 4 <= optLenb && data.Some? {
        p := StoredForm(data.value, eof, pos);
      } else if staticLenb == optLenb {
        p := StaticForm(eof, pos);
      } else {
        p := DynamicForm(maxBlindex, eof, pos, h);
      }
    }

    // The code lengths of both trees and the tree for their coding.
    method BuildHeader() returns (maxBlindex: nat, ghost h: Dynamic)
      requires Shape() && l.maxCode < L_CODES && d.maxCode < D_CODES && bl.fc[..BL_CODES] == Repeat(0, BL_CODES)
      requires END_BLOCK <= l.maxCode && l.dl[END_BLOCK] > 0 && d.maxCode >= 1
      requires Complete(l.dl[..l.maxCode + 1]) && Complete(d.dl[..d.maxCode + 1])
      requires CodesSet(l.fc[..], l.dl[..l.maxCode + 1]) && CodesSet(d.fc[..], d.dl[..d.maxCode + 1])
      modifies tb, tb.heap, tb.depth, tb.blCount, l.dl, d.dl, bl`maxCode, bl.fc, bl.dl
      ensures h.ll == old(l.dl[..l.maxCode + 1]) && h.dl == old(d.dl[..d.maxCode + 1]) && h.n == maxBlindex + 1
      ensures h.Valid() && Holds(h) && tb.optLen == old(tb.optLen) + |h.Bits()| && tb.staticLen == old(tb.staticLen)
      ensures HeaderLeast(h.Items(), h.cl) && h.cl[BlOrder(h.n - 1)] != 0
    {
      hide Cost, CodesSet, CountItems, AllRuns, FirstCode, HeaderLeast, OptimalCode.OptimalWhereAttainable;
      ghost var fc0: seq<nat> := bl.fc[..];
      ghost var ll: seq<nat>, dl: seq<nat> := l.dl[..l.maxCode + 1], d.dl[..d.maxCode + 1];
      BelowGuard(l.dl[..], l.maxCode);
      BelowGuard(d.dl[..], d.maxCode);
      maxBlindex := BuildBlTree(tb, l, d, bl, END_BLOCK);
      h := Dynamic(ll, dl, bl.dl[..BL_CODES], maxBlindex + 1);
      assert l.dl[..l.maxCode + 1] == ll && d.dl[..d.maxCode + 1] == dl;
      HeaderPlanned(h, fc0, bl.fc[..], bl.dl[..], bl.maxCode);
      HeaderIsLeast(ll, dl, fc0, bl.dl[..]);
    }

    // All trees of the block, as flush_block builds them.
    method BuildTrees(ghost toks: seq<Token>) returns (maxBlindex: nat, ghost h: Dynamic)
      requires Shape() && Counted(toks) && |toks| < LIT_BUFSIZE
      modifies tb, tb.heap, tb.depth, tb.blCount, l`maxCode, l.fc, l.dl, d`maxCode, d.fc, d.dl, bl`maxCode, bl.fc, bl.dl
      ensures TreesReady(toks, h, maxBlindex)
    {
      hide LeastWhereShort, DataBits, StaticBits, TokensCoded, FirstCode, CodesSet, Dynamic.Bits, LFreqs, DFreqs;
      BuildDataTrees(toks);
      maxBlindex, h := BuildHeader();
    }

    method SaveFlags()
      requires Loaded()
      modifies buf.flagBuf
      ensures FlagsSaved() && Loaded()
    {
      assert Open(0);
      buf.SaveLastFlags();
    }

    method PlanTrees(ghost toks: seq<Token>) returns (maxBlindex: nat, ghost h: Dynamic)
      requires Loaded() && toks == buf.toks
      modifies tb, tb.heap, tb.depth, tb.blCount, l`maxCode, l.fc, l.dl, d`maxCode, d.fc, d.dl, bl`maxCode, bl.fc, bl.dl
      ensures TreesReady(toks, h, maxBlindex)
    {
      assert Open(0);
      maxBlindex, h := BuildTrees(toks);
    }

    // The trees and the last flags are ready.
    method Prepare() returns (maxBlindex: nat, ghost h: Dynamic)
      requires Loaded()
      modifies buf.flagBuf
      modifies tb, tb.heap, tb.depth, tb.blCount, l`maxCode, l.fc, l.dl, d`maxCode, d.fc, d.dl, bl`maxCode, bl.fc, bl.dl
      ensures Ready(h, maxBlindex)
    {
      SaveFlags();
      maxBlindex, h := PlanTrees(buf.toks);
    }

    // The stream with one more block p behind the pieces.
    ghost predicate Ended(p: Piece, last: bool)
      reads this, w, w.outbuf
    {
      forall k {:trigger Open(k)} :: Open(k) ==>
        && w.Valid() && IsStream(pieces) && IsBlock(p, |PieceBits(pieces)|, last)
        && w.sent == ByteBits(head) + PieceBits(pieces) + p.bits && Wrapped()
           && bitsSent == |PieceBits(pieces)| + |p.bits|
    }

    // What the methods below need of a sound coder.
    lemma {:induction false} Opened()
      requires Valid()
      ensures Built() && Loaded() && Placed(|PieceBits(pieces)|) && TablesOk(t) && ToksOk(buf.toks)
      ensures IsStream(pieces) && w.sent == ByteBits(head) + PieceBits(pieces)
    {
      assert Open(0);
    }

    lemma {:induction false} ToEnded(p: Piece, last: bool, before: seq<bool>)
      requires Grown(p, |PieceBits(pieces)|, last, before) && IsStream(pieces)
               && before == ByteBits(head) + PieceBits(pieces)
      ensures Ended(p, last)
    {
      assert Open(0);
    }

    // No token is buffered.
    ghost predicate Idle()
      reads tb, l.fc, d.fc, bl.fc, buf, buf.lBuf, buf.dBuf, buf.flagBuf
    {
      forall k {:trigger Open(k)} :: Open(k) ==> Shape() && buf.Valid() && buf.toks == [] && Counted([])
    }

    // The block is sent.
    method SendBlock(data: Option<seq<byte>>, storedLen: nat, eof: bool) returns (ghost p: Piece, ghost h: Dynamic)
      requires Valid() && (data.Some? ==> |data.value| == storedLen) && TablesOk(t) && ToksOk(buf.toks)
      modifies this`compressedLen, this`bitsSent, w, w.outbuf, buf.flagBuf
      modifies tb, tb.heap, tb.depth, tb.blCount, l`maxCode, l.fc, l.dl, d`maxCode, d.fc, d.dl, bl`maxCode, bl.fc, bl.dl
      ensures Ended(p, eof) && pieces == old(pieces)
      ensures SmallestOf(t, h, p, data, storedLen, buf.toks, |PieceBits(pieces)|, eof)
    {
      hide SmallestOf;
      Opened();
      ghost var before, pos := w.sent, |PieceBits(pieces)|;
      var maxBlindex;
      maxBlindex, h := Prepare();
      p := ChooseForm(data, storedLen, eof, maxBlindex, pos, h);
      ToEnded(p, eof, before);
    }

    // flush_block up to init_block.
    method EndBlock(data: Option<seq<byte>>, storedLen: nat, eof: bool) returns (ghost p: Piece, ghost h: Dynamic)
      requires Valid() && (data.Some? ==> |data.value| == storedLen) && TablesOk(t) && ToksOk(buf.toks)
      modifies this`compressedLen, this`bitsSent, w, w.outbuf, buf, buf.flagBuf
      modifies tb, tb.heap, tb.depth, tb.blCount, l`maxCode, l.fc, l.dl, d`maxCode, d.fc, d.dl, bl`maxCode, bl.fc, bl.dl
      ensures Ended(p, eof) && Idle() && pieces == old(pieces)
      ensures SmallestOf(t, h, p, data, storedLen, old(buf.toks), |PieceBits(pieces)|, eof)
    {
      hide SmallestOf;
      Opened();
      p, h := SendBlock(data, storedLen, eof);
      Restart();
    }

    method Restart()
      requires Built()
      modifies tb, l.fc, d.fc, bl.fc, buf
      ensures Idle() && buf.toks == []
    {
      assert Open(0);
      InitBlock();
    }

    lemma {:induction false} WithinRepr()
      requires Valid()
      ensures Within()
    {
      assert Open(0);
    }

    // The stream is complete: p is its last block, and fewer than eight bits follow.
    ghost predicate Closed(p: Piece, pad: seq<bool>)
      reads this, w, w.outbuf
    {
      && w.Valid() && w.biValid == 0 && IsStream(pieces) && IsBlock(p, |PieceBits(pieces)|, true)
      && |pad| < 8 && ByteBits(w.stream) == ByteBits(head) + PieceBits(pieces) + p.bits + pad
      && compressedLen == (|PieceBits(pieces)| + |p.bits| + 7) % WORD
    }

    // Zero bits up to a byte boundary.
    method Windup(ghost p: Piece) returns (ghost pad: seq<bool>)
      requires Ended(p, true)
      modifies this`compressedLen, w, w.outbuf
      ensures Closed(p, pad)
    {
      assert Open(0);
      pad := BitsLE(0, StoredPad(|w.sent|));
      w.BiWindup();
      CountPadding(|PieceBits(pieces)| + |p.bits|);
    }

    method CountPadding(ghost n: nat)
      requires compressedLen == n % WORD
      modifies this`compressedLen
      ensures compressedLen == (n + 7) % WORD
    {
      AddWord(n, 7);
      compressedLen := (compressedLen + 7) % WORD;
    }

    ghost method Append(p: Piece)
      requires Ended(p, false) && Idle() && Within()
      modifies this`pieces
      ensures Valid() && pieces == old(pieces) + [p] && buf.toks == []
    {
      assert Open(0);
      StreamSnoc(pieces, p);
      Assoc(ByteBits(head), PieceBits(pieces), p.bits);
      pieces := pieces + [p];
    }

    // flush_block: a further block is on the stream, or the last one and then zero bits up to
    // a byte boundary.
    method FlushBlock(data: Option<seq<byte>>, storedLen: nat, eof: bool)
      returns (len: nat, ghost p: Piece, ghost pad: seq<bool>, ghost h: Dynamic)
      requires Valid() && (data.Some? ==> |data.value| == storedLen)
      modifies this`compressedLen, this`bitsSent, this`pieces, repr
      ensures SmallestOf(t, h, p, data, storedLen, old(buf.toks), |PieceBits(old(pieces))|, eof)
      ensures !eof ==> Valid() && pieces == old(pieces) + [p] && buf.toks == []
      ensures eof ==> Closed(p, pad) && pieces == old(pieces)
      ensures len == compressedLen / 8 && head == old(head)
    {
      hide SmallestOf, Carries;
      Opened();
      WithinRepr();
      p, h := EndBlock(data, storedLen, eof);
      if eof {
        pad := Windup(p);
      } else {
        pad := [];
        Append(p);
      }
      len := compressedLen / 8;
    }
  }

  // The block carries the tokens or the bytes themselves.
  ghost predicate Carries(p: Piece, data: Option<seq<byte>>, toks: seq<Token>)
  {
    p.toks == toks || (data.Some? && p.toks == Literals(data.value))
  }

  // The piece is what is sent for the block b at pos.
  ghost predicate SentAs(t: Tables, b: Sent, p: Piece, pos: nat, last: bool)
  {
    TablesOk(t) && b.Valid(t) && p == Piece(b.Bits(t, pos, last), b.Tokens())
  }

  // The form of a block whose data takes these numbers of bits under the static and under its own
  // codes, header included; the data itself is at hand or not.
  function Form(data: Option<seq<byte>>, storedLen: nat, toks: seq<Token>, h: Dynamic, staticLen: nat,
      dynamicLen: nat): Sent
  {
    var staticBytes, dynamicBytes := (staticLen + 3 + 7) / 8, (dynamicLen + 3 + 7) / 8;
    if data.Some? && storedLen + 4 <= Min(staticBytes, dynamicBytes) then StoredBlock(data.value)
    else if staticBytes <= dynamicBytes then StaticBlock(toks)
    else DynamicBlock(h, toks)
  }

  // The piece is sent in that form.
  ghost predicate SmallestOf(t: Tables, h: Dynamic, p: Piece, data: Option<seq<byte>>, storedLen: nat, toks: seq<Token>,
      pos: nat, last: bool)
  {
    && TablesOk(t) && ToksOk(toks) && DynamicPlan(t, h, toks) && LeastWhereShort(t, toks, h.ll, h.dl)
    && SentAs(t, Form(data, storedLen, toks, h, |StaticBits(t, toks)|, |TreesBits(h)| + |DynamicBits(t, h, toks)|), p,
              pos, last)
  }

  // No other form would be smaller in bytes; a stored block has two words of lengths, the other two
  // forms three bits before them.
  lemma {:induction false} SmallestSize(t: Tables, h: Dynamic, p: Piece, data: Option<seq<byte>>, storedLen: nat,
      toks: seq<Token>, pos: nat, last: bool)
    requires SmallestOf(t, h, p, data, storedLen, toks, pos, last)
    ensures var best := Min((|StaticBits(t, toks)| + 3 + 7) / 8,
            (|TreesBits(h)| + |DynamicBits(t, h, toks)| + 3 + 7) / 8);
            if data.Some? && storedLen + 4 <= best then p.toks == Literals(data.value)
            else p.toks == toks && (|p.bits| + 7) / 8 == best
  {
    hide StaticBits, LeastWhereShort, StoredBits, TreesBits, DynamicBits, BitsLE, Dynamic.Bits, DataBits;
    assert Open(0);
    StaticShape(t, toks, pos, last);
    DynamicShape(t, h, toks, pos, last);
    PlannedBits(t, h, toks);
  }

  lemma {:induction false} PlannedBits(t: Tables, h: Dynamic, toks: seq<Token>)
    requires TablesOk(t) && h.Valid() && TokensCoded(t, h.ll, h.dl, toks) && h.ll[END_BLOCK] > 0
    ensures LengthsBounded(h.ll) && LengthsBounded(h.dl) && |h.dl| <= 30 && END_BLOCK < |h.ll|
    ensures TreesBits(h) == h.Bits() && DynamicBits(t, h, toks) == DataBits(t, h.ll, h.dl, toks)
  {
    assert Open(0);
  }

  lemma {:induction false} CarriesSmallest(t: Tables, h: Dynamic, p: Piece, data: Option<seq<byte>>, storedLen: nat,
      toks: seq<Token>, pos: nat, last: bool)
    requires SmallestOf(t, h, p, data, storedLen, toks, pos, last)
    ensures Carries(p, data, toks)
  {
  }

  // The piece is a block appended to what was sent, and compressed_len is advanced over it.
  ghost predicate Appended(p: Piece, pos: nat, last: bool, before: seq<bool>, after: seq<bool>)
  {
    IsBlock(p, pos, last) && after == before + p.bits
  }

  lemma {:induction false} Join2(before: seq<bool>, a: seq<bool>, b: seq<bool>, bits: seq<bool>, after: seq<bool>)
    requires bits == a + b && after == before + a + b
    ensures after == before + bits
  {
  }

  lemma {:induction false} Join3(before: seq<bool>, a: seq<bool>, b: seq<bool>, c: seq<bool>, bits: seq<bool>,
      after: seq<bool>)
    requires bits == a + (b + c) && after == before + a + b + c
    ensures after == before + bits
  {
  }

  lemma {:induction false} Join4(before: seq<bool>, a: seq<bool>, b: seq<bool>, c: seq<bool>, d: seq<bool>,
      bits: seq<bool>, after: seq<bool>)
    requires bits == a + (b + c + d) && after == before + a + b + c + d
    ensures after == before + bits
  {
  }

  lemma {:induction false} StoredAppended(t: Tables, data: seq<byte>, pos: nat, eof: bool, before: seq<bool>,
      after: seq<bool>) returns (p: Piece)
    requires TablesOk(t) && |data| < 65536
    requires after
             == before + KindBits(STORED_BLOCK, eof) + BitsLE(0, StoredPad(pos + 3))
               + (BitsLE(|data|, 16) + BitsLE(65535 - |data|, 16)) + ByteBits(data)
    ensures Appended(p, pos, eof, before, after) && SentAs(t, StoredBlock(data), p, pos, eof)
            && |p.bits| == 3 + StoredPad(pos + 3) + 32 + 8 * |data|
  {
    var b := StoredBlock(data);
    var bits := b.Bits(t, pos, eof);
    p := Piece(bits, b.Tokens());
    SentIsBlock(t, b, pos, eof, p);
    var lens := BitsLE(|data|, 16) + BitsLE(65535 - |data|, 16);
    Join4(before, KindBits(STORED_BLOCK, eof), BitsLE(0, StoredPad(pos + 3)), lens, ByteBits(data), bits, after);
    assert |bits| == 3 + StoredPad(pos + 3) + 32 + 8 * |data|;
  }

  lemma {:induction false} StaticShape(t: Tables, toks: seq<Token>, pos: nat, eof: bool)
    requires TablesOk(t) && ToksOk(toks)
    ensures StaticBlock(toks).Valid(t)
            && StaticBlock(toks).Bits(t, pos, eof) == KindBits(STATIC_TREES, eof) + StaticBits(t, toks)
  {
    StaticTokens(t, toks, FixedLitLens(), FixedDistLens());
  }

  lemma {:induction false} StaticAppended(t: Tables, toks: seq<Token>, pos: nat, eof: bool, before: seq<bool>,
      after: seq<bool>) returns (p: Piece)
    requires TablesOk(t) && ToksOk(toks)
    requires after == before + KindBits(STATIC_TREES, eof) + StaticBits(t, toks)
    ensures Appended(p, pos, eof, before, after) && SentAs(t, StaticBlock(toks), p, pos, eof)
            && |p.bits| == 3 + |StaticBits(t, toks)|
  {
    var kind, data := KindBits(STATIC_TREES, eof), StaticBits(t, toks);
    p := StaticPiece(t, toks, pos, eof, kind, data);
    Join2(before, kind, data, p.bits, after);
  }

  lemma {:induction false} StaticPiece(t: Tables, toks: seq<Token>, pos: nat, eof: bool, kind: seq<bool>,
      data: seq<bool>) returns (p: Piece)
    requires TablesOk(t) && ToksOk(toks) && kind == KindBits(STATIC_TREES, eof) && data == StaticBits(t, toks)
    ensures IsBlock(p, pos, eof) && SentAs(t, StaticBlock(toks), p, pos, eof) && p.bits == kind + data
  {
    StaticShape(t, toks, pos, eof);
    var b := StaticBlock(toks);
    p := Piece(b.Bits(t, pos, eof), b.Tokens());
    SentIsBlock(t, b, pos, eof, p);
  }

  lemma {:induction false} DynamicShape(t: Tables, h: Dynamic, toks: seq<Token>, pos: nat, eof: bool)
    requires TablesOk(t) && h.Valid() && TokensCoded(t, h.ll, h.dl, toks) && h.ll[END_BLOCK] > 0
    ensures DynamicBlock(h, toks).Valid(t) && LengthsBounded(h.ll) && LengthsBounded(h.dl) && |h.dl| <= 30
            && END_BLOCK < |h.ll|
    ensures DynamicBlock(h, toks).Bits(t, pos, eof)
            == KindBits(DYN_TREES, eof) + (h.Bits() + DataBits(t, h.ll, h.dl, toks))
  {
  }

  lemma {:induction false} DynamicAppended(t: Tables, h: Dynamic, toks: seq<Token>, pos: nat, eof: bool,
      before: seq<bool>, after: seq<bool>) returns (p: Piece)
    requires TablesOk(t) && h.Valid() && TokensCoded(t, h.ll, h.dl, toks) && h.ll[END_BLOCK] > 0
    requires after == before + KindBits(DYN_TREES, eof) + h.Bits() + DataBits(t, h.ll, h.dl, toks)
    ensures Appended(p, pos, eof, before, after) && SentAs(t, DynamicBlock(h, toks), p, pos, eof)
            && |p.bits| == 3 + |h.Bits()| + |DataBits(t, h.ll, h.dl, toks)|
  {
    DynamicShape(t, h, toks, pos, eof);
    var b := DynamicBlock(h, toks);
    var bits := b.Bits(t, pos, eof);
    p := Piece(bits, b.Tokens());
    SentIsBlock(t, b, pos, eof, p);
    Join3(before, KindBits(DYN_TREES, eof), h.Bits(), DataBits(t, h.ll, h.dl, toks), bits, after);
    assert |bits| == 3 + |h.Bits()| + |DataBits(t, h.ll, h.dl, toks)|;
  }

  // A dynamic block can be sent with header h.
  ghost predicate DynamicPlan(t: Tables, h: Dynamic, toks: seq<Token>)
    requires TablesOk(t)
  {
    forall k {:trigger Open(k)} :: Open(k) ==> h.Valid() && TokensCoded(t, h.ll, h.dl, toks) && h.ll[END_BLOCK] > 0
  }

  lemma {:induction false} DynamicPiece(t: Tables, h: Dynamic, toks: seq<Token>, pos: nat, eof: bool,
      before: seq<bool>, after: seq<bool>) returns (p: Piece)
    requires TablesOk(t) && DynamicPlan(t, h, toks)
    requires after == before + KindBits(DYN_TREES, eof) + TreesBits(h) + DynamicBits(t, h, toks)
    ensures Appended(p, pos, eof, before, after) && SentAs(t, DynamicBlock(h, toks), p, pos, eof)
            && |p.bits| == 3 + |TreesBits(h)| + |DynamicBits(t, h, toks)|
  {
    assert Open(0);
    p := DynamicAppended(t, h, toks, pos, eof, before, after);
  }

  lemma {:induction false} BelowGuard(lens: seq<nat>, maxCode: nat)
    requires maxCode < |lens| && Complete(lens[..maxCode + 1])
    ensures forall i :: 0 <= i <= maxCode ==> lens[i] < 16
  {
    forall i | 0 <= i <= maxCode ensures lens[i] < 16 { assert lens[..maxCode + 1][i] < 16; }
  }

  lemma {:induction false} AddWord(pos: nat, n: nat)
    ensures (pos % WORD + n) % WORD == (pos + n) % WORD
  {
    Wrap(pos % WORD + n, pos / WORD);
  }

  lemma {:induction false} StoredChain(s0: seq<bool>, kind: seq<bool>, s1: seq<bool>, k: nat, pos: nat,
      lens: seq<bool>, bytes: seq<bool>, s2: seq<bool>)
    requires s1 == s0 + kind && |s1| == 8 * k + (pos + 3) && s2 == s1 + BitsLE(0, StoredPad(|s1|)) + lens + bytes
    ensures s2 == s0 + kind + BitsLE(0, StoredPad(pos + 3)) + lens + bytes
  {
    PadSame(k, pos + 3);
  }

  lemma {:induction false} PadSame(k: nat, n: nat)
    ensures StoredPad(8 * k + n) == StoredPad(n)
  {
  }

  // compressed_len rounded to a byte boundary and advanced over a stored block.
  lemma {:induction false} StoredSize(pos: nat, len: nat)
    ensures var c := (pos % WORD + 10) % WORD;
            (c - c % 8 + 8 * (len + 4)) % WORD == (pos + 3 + StoredPad(pos + 3) + 32 + 8 * len) % WORD
  {
    hide StoredPad;
    var q, r := pos / WORD, pos % WORD;
    var c := (r + 10) % WORD;
    var q' := (r + 10) / WORD;
    RoundUp(pos + 3);
    SameLowBits(q + q', c);
    assert pos + 10 == (q + q') * WORD + c;
    Wrap(c - c % 8 + 8 * (len + 4), q + q');
  }

  lemma {:induction false} RoundUp(n: nat)
    ensures n + StoredPad(n) == (n + 7) - (n + 7) % 8
  {
  }

  lemma {:induction false} SameLowBits(q: nat, c: nat)
    ensures (q * WORD + c) % 8 == c % 8
  {
  }

  lemma {:induction false} Wrap(x: nat, q: nat)
    ensures (x + q * WORD) % WORD == x % WORD
  {
    if q != 0 {
      Wrap(x, q - 1);
      assert (x + q * WORD) == (x + (q - 1) * WORD) + WORD;
    }
  }

  lemma {:induction false} HeaderPlanned(h: Dynamic, fc0: seq<nat>, fc: seq<nat>, lens: seq<nat>, maxCode: nat)
    requires 257 <= |h.ll| <= 286 && 1 <= |h.dl| <= 30 && 4 <= h.n <= BL_CODES
    requires Complete(h.ll) && Complete(h.dl) && ItemsTree(h.ll, h.dl, fc0, fc, lens, maxCode)
    requires h.cl == lens[..BL_CODES] && |fc| >= BL_CODES && fc0[..BL_CODES] == Repeat(0, BL_CODES)
    requires forall i :: h.n <= i < BL_CODES ==> lens[BlOrder(i)] == 0
    ensures h.Valid() && CodesSet(fc, h.cl)
    ensures |h.Bits()| == 14 + 3 * h.n + Cost(CountItems(fc0, TreeItems(h.ll, h.dl)), lens[..maxCode + 1], BlExtras())
  {
    HeaderValid(h, fc0, fc, lens, maxCode);
    forall i | 0 <= i < BL_CODES ensures fc0[i] == 0 {
      assert fc0[i] == fc0[..BL_CODES][i];
    }
    ItemsPrice(h, fc0, fc, lens, maxCode, BlExtras());
    HeaderSent(h, []);
  }
}
