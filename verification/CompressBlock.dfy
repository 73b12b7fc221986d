/** compress_block: the tokens of the block under a literal and a distance tree. */
module CompressBlock {
  import opened Bits
  import opened BitOutput
  import opened CanonicalCode
  import opened Inflate
  import opened BlockEncoding
  import opened BlockStream
  import opened TreeHeader
  import opened TokenBuffers

  // The tree in fc and dl carries the codes of the first n symbols of lens.
  ghost predicate TreeCodes(fc: seq<nat>, dl: seq<nat>, lens: seq<nat>, n: nat)
  {
    n <= |lens| && n <= |fc| && n <= |dl|
    && forall c :: 0 <= c < n ==> dl[c] == lens[c] && CodeSet(fc[c], lens, c)
  }

  lemma {:induction false} TreeCodesOf(fc: seq<nat>, dl: seq<nat>, n: nat)
    requires n <= |dl| && CodesSet(fc, dl[..n])
    ensures TreeCodes(fc, dl, dl[..n], n)
  {
    var lens := dl[..n];
    forall c | 0 <= c < n ensures dl[c] == lens[c] && CodeSet(fc[c], lens, c) {
      assert CodeSet(fc[c], lens, c);
    }
  }

  // The code of a match length with its extra bits.
  method SendLength(w: BitWriter, t: Tables, fc: seq<nat>, dl: seq<nat>, lc: nat, ghost ll: seq<nat>)
    requires w.Valid() && TablesOk(t) && lc < 256 && TreeCodes(fc, dl, ll, |ll|)
    requires t.lengthCode[lc] + 257 < |ll| && 1 <= ll[t.lengthCode[lc] + 257] <= MAX_BITS
    modifies w, w.outbuf
    ensures w.Valid() && w.sent == old(w.sent) + LengthBits(t, ll, lc)
  {
    LengthFacts(t, lc);
    var code := t.lengthCode[lc];
    SendCode(w, fc[code + 257], dl[code + 257], code + 257, ll);
    var extra := LengthExtra(code);
    Assoc(old(w.sent), CodeBits(ll, code + 257), BitsLE(LengthRest(t, lc), extra));
    if extra != 0 {
      w.SendBits(lc - t.baseLength[code], extra);
    } else {
      assert w.sent + [] == w.sent;
    }
  }

  lemma {:induction false} DistFacts(t: Tables, d: nat)
    requires TablesOk(t) && d < 32768
    ensures t.DCode(d) < 30 && DistRest(t, d) >= 0 && DistExtra(t.DCode(d)) <= 13
            && DistRest(t, d) < Pow2(DistExtra(t.DCode(d)))
  {
    assert DistOk(t, d);
  }

  lemma {:induction false} LengthFacts(t: Tables, lc: nat)
    requires TablesOk(t) && lc < 256
    ensures t.lengthCode[lc] < 29 && LengthRest(t, lc) >= 0 && LengthExtra(t.lengthCode[lc]) <= 6
    ensures LengthRest(t, lc) < Pow2(LengthExtra(t.lengthCode[lc]))
  {
    assert LengthOk(t, lc);
  }

  // The code of a distance with its extra bits; d is the distance less one.
  method SendDist(w: BitWriter, t: Tables, fc: seq<nat>, dl: seq<nat>, d: nat, ghost lens: seq<nat>)
    requires w.Valid() && TablesOk(t) && d < 32768 && TreeCodes(fc, dl, lens, Min(|lens|, 30))
    requires t.DCode(d) < |lens| && 1 <= lens[t.DCode(d)] <= MAX_BITS
    modifies w, w.outbuf
    ensures w.Valid() && w.sent == old(w.sent) + DistBits(t, lens, d)
  {
    DistFacts(t, d);
    var code := t.DCode(d);
    SendCode(w, fc[code], dl[code], code, lens);
    var extra := DistExtra(code);
    Assoc(old(w.sent), CodeBits(lens, code), BitsLE(DistRest(t, d), extra));
    if extra != 0 {
      w.SendBits(d - t.baseDist[code], extra);
    } else {
      assert w.sent + [] == w.sent;
    }
  }

  lemma {:induction false} PairParts(t: Tables, ll: seq<nat>, dl: seq<nat>, tok: Token, sent: seq<bool>)
    requires TablesOk(t) && tok.Match? && TokCoded(t, ll, dl, tok)
    ensures t.lengthCode[tok.len - 3] + 257 < |ll| && ll[t.lengthCode[tok.len - 3] + 257] > 0
    ensures t.DCode(tok.dist - 1) < |dl| && dl[t.DCode(tok.dist - 1)] > 0
    ensures sent + TokBits(t, ll, dl, tok) == sent + LengthBits(t, ll, tok.len - 3) + DistBits(t, dl, tok.dist - 1)
  {
    Assoc(sent, LengthBits(t, ll, tok.len - 3), DistBits(t, dl, tok.dist - 1));
  }

  // A length and distance pair.
  method SendPair(w: BitWriter, t: Tables, lfc: seq<nat>, ldl: seq<nat>, dfc: seq<nat>, ddl: seq<nat>,
                  lc: nat, d: nat, ghost ll: seq<nat>, ghost dl: seq<nat>)
    requires w.Valid() && TablesOk(t) && TreeCodes(lfc, ldl, ll, |ll|) && TreeCodes(dfc, ddl, dl, Min(|dl|, 30))
    requires lc < 256 && t.lengthCode[lc] + 257 < |ll| && 1 <= ll[t.lengthCode[lc] + 257] <= MAX_BITS
    requires d < 32768 && t.DCode(d) < |dl| && 1 <= dl[t.DCode(d)] <= MAX_BITS
    modifies w, w.outbuf
    ensures w.Valid() && w.sent == old(w.sent) + LengthBits(t, ll, lc) + DistBits(t, dl, d)
  {
    SendLength(w, t, lfc, ldl, lc, ll);
    SendDist(w, t, dfc, ddl, d, dl);
  }

  // The trees carry the codes of the lengths ll and dl.
  ghost predicate Coding(lfc: seq<nat>, ldl: seq<nat>, dfc: seq<nat>, ddl: seq<nat>, ll: seq<nat>, dl: seq<nat>)
  {
    forall k {:trigger Open(k)} :: Open(k) ==>
      TreeCodes(lfc, ldl, ll, |ll|) && TreeCodes(dfc, ddl, dl, Min(|dl|, 30)) && LengthsBounded(ll)
        && LengthsBounded(dl)
  }

  // One token.
  method SendToken(w: BitWriter, t: Tables, lfc: seq<nat>, ldl: seq<nat>, dfc: seq<nat>, ddl: seq<nat>,
                   pair: bool, lc: nat, dist: nat, ghost tok: Token, ghost ll: seq<nat>, ghost dl: seq<nat>)
    requires w.Valid() && TablesOk(t) && Coding(lfc, ldl, dfc, ddl, ll, dl) && TokCoded(t, ll, dl, tok)
    requires pair == tok.Match? && lc == Lc(tok) && (pair ==> dist == tok.dist - 1)
    modifies w, w.outbuf
    ensures w.Valid() && w.sent == old(w.sent) + TokBits(t, ll, dl, tok)
  {
    assert Open(0);
    if !pair {
      SendCode(w, lfc[lc], ldl[lc], lc, ll);
    } else {
      PairParts(t, ll, dl, tok, w.sent);
      SendPair(w, t, lfc, ldl, dfc, ddl, lc, dist, ll, dl);
    }
  }

  // The flag byte that covers tokens 8j and on.
  lemma {:induction false} FlagByte(fb: seq<byte>, toks: seq<Token>, n: nat, j: nat)
    requires 8 * n <= |toks| < 8 * n + 8 && n < |fb| && FlagsHold(fb, toks, n) && fb[n] == ValLE(Kinds(toks[8 * n..]))
    requires 8 * j < |toks|
    ensures j <= n && fb[j] == ValLE(Kinds(toks[8 * j..Min(8 * j + 8, |toks|)]))
  {
    if j < n {
      assert FlagsAt(fb, toks, j);
    } else {
      assert toks[8 * n..] == toks[8 * n..|toks|];
    }
  }

  // Reading the next flag.
  lemma {:induction false} FlagStep(toks: seq<Token>, lo: nat, hi: nat)
    requires lo < hi <= |toks|
    ensures (ValLE(Kinds(toks[lo..hi])) % 2 == 1) == toks[lo].Match?
    ensures ValLE(Kinds(toks[lo..hi])) / 2 == ValLE(Kinds(toks[lo + 1..hi]))
  {
    assert Kinds(toks[lo..hi])[1..] == Kinds(toks[lo + 1..hi]);
  }

  // The flags not yet used when token lx is next.
  ghost predicate FlagsLeft(toks: seq<Token>, lx: nat, fx: nat, flag: nat)
  {
    lx <= |toks| && 8 * fx - 8 <= lx <= 8 * fx && flag == ValLE(Kinds(toks[lx..Min(8 * fx, |toks|)]))
  }

  lemma {:induction false} FlagsUse(toks: seq<Token>, lx: nat, fx: nat, flag: nat)
    requires FlagsLeft(toks, lx, fx, flag) && lx < |toks| && lx < 8 * fx
    ensures (flag % 2 == 1) == toks[lx].Match? && FlagsLeft(toks, lx + 1, fx, flag / 2)
  {
    FlagStep(toks, lx, Min(8 * fx, |toks|));
  }

  // The next flag byte, when the last one is used up.
  method NextFlags(b: TokenBuffer, lx: nat, fx: nat, flag: nat) returns (fx': nat, flag': nat)
    requires b.Valid() && b.lastFlags < b.flagBuf.Length && b.flagBuf[b.lastFlags] == b.flags
    requires lx < |b.toks| && 8 * fx - 8 < lx && FlagsLeft(b.toks, lx, fx, flag)
    ensures FlagsLeft(b.toks, lx, fx', flag') && lx < 8 * fx'
  {
    fx', flag' := fx, flag;
    if lx % 8 == 0 {
      FlagByte(b.flagBuf[..], b.toks, b.lastFlags, fx);
      flag' := b.flagBuf[fx];
      fx' := fx + 1;
    }
  }

  lemma {:induction false} TokensNext(t: Tables, ll: seq<nat>, dl: seq<nat>, toks: seq<Token>, i: nat, sent: seq<bool>)
    requires TablesOk(t) && TokensCoded(t, ll, dl, toks) && i < |toks|
    ensures TokensCoded(t, ll, dl, toks[i..]) && TokensCoded(t, ll, dl, toks[i + 1..]) && TokCoded(t, ll, dl, toks[i])
    ensures sent + TokensBits(t, ll, dl, toks[i..])
            == sent + TokBits(t, ll, dl, toks[i]) + TokensBits(t, ll, dl, toks[i + 1..])
  {
    var rest := toks[i..];
    TokensSplit(t, ll, dl, rest, []);
    assert rest[1..] == toks[i + 1..];
    Assoc(sent, TokBits(t, ll, dl, toks[i]), TokensBits(t, ll, dl, toks[i + 1..]));
  }

  // The bits sent so far and those of the tokens from lx on make up the whole.
  ghost predicate SentTo(t: Tables, ll: seq<nat>, dl: seq<nat>, toks: seq<Token>, lx: nat, start: seq<bool>,
      sent: seq<bool>)
    requires TablesOk(t)
  {
    forall k {:trigger Open(k)} :: Open(k) ==>
      && lx <= |toks| && TokensCoded(t, ll, dl, toks) && TokensCoded(t, ll, dl, toks[lx..])
      && start + TokensBits(t, ll, dl, toks) == sent + TokensBits(t, ll, dl, toks[lx..])
  }

  lemma {:induction false} SentNone(t: Tables, ll: seq<nat>, dl: seq<nat>, toks: seq<Token>, start: seq<bool>)
    requires TablesOk(t) && TokensCoded(t, ll, dl, toks)
    ensures SentTo(t, ll, dl, toks, 0, start, start)
  {
    assert toks[0..] == toks;
  }

  lemma {:induction false} SentMore(t: Tables, ll: seq<nat>, dl: seq<nat>, toks: seq<Token>, lx: nat,
      start: seq<bool>, sent: seq<bool>)
    requires TablesOk(t) && SentTo(t, ll, dl, toks, lx, start, sent) && lx < |toks|
    ensures TokCoded(t, ll, dl, toks[lx]) && SentTo(t, ll, dl, toks, lx + 1, start, sent + TokBits(t, ll, dl, toks[lx]))
  {
    assert Open(0);
    TokensNext(t, ll, dl, toks, lx, sent);
  }

  lemma {:induction false} SentAll(t: Tables, ll: seq<nat>, dl: seq<nat>, toks: seq<Token>, start: seq<bool>,
      sent: seq<bool>)
    requires TablesOk(t) && SentTo(t, ll, dl, toks, |toks|, start, sent)
    ensures TokensCoded(t, ll, dl, toks) && sent == start + TokensBits(t, ll, dl, toks)
  {
    assert Open(0);
    assert sent + [] == sent;
  }

  // Where the loop stands in the three buffers.
  ghost predicate BufferCursor(toks: seq<Token>, lx: nat, dx: nat, fx: nat, flag: nat)
  {
    lx <= |toks| && dx == |Dists(toks[..lx])| && 8 * fx - 8 < lx && FlagsLeft(toks, lx, fx, flag)
  }

  // The next token of the buffers.
  method NextToken(b: TokenBuffer, lx: nat, dx: nat, fx: nat, flag: nat)
    returns (pair: bool, lc: nat, dist: nat, dx': nat, fx': nat, flag': nat)
    requires b.Valid() && b.lastFlags < b.flagBuf.Length && b.flagBuf[b.lastFlags] == b.flags
    requires lx < |b.toks| && BufferCursor(b.toks, lx, dx, fx, flag)
    ensures BufferCursor(b.toks, lx + 1, dx', fx', flag')
    ensures pair == b.toks[lx].Match? && lc == Lc(b.toks[lx]) && (pair ==> dist == b.toks[lx].dist - 1)
  {
    fx', flag' := NextFlags(b, lx, fx, flag);
    FlagsUse(b.toks, lx, fx', flag');
    pair := flag' % 2 == 1;
    lc, dist, dx' := b.lBuf[lx], 0, dx;
    if pair {
      DistsFirst(b.toks, lx);
      dist := b.dBuf[dx];
      dx' := dx + 1;
    } else {
      DistsSkip(b.toks, lx);
    }
    flag' := flag' / 2;
  }

  // The loop of compress_block.
  method SendTokens(b: TokenBuffer, w: BitWriter, t: Tables, lfc: seq<nat>, ldl: seq<nat>, dfc: seq<nat>, ddl: seq<nat>,
                    ghost ll: seq<nat>, ghost dl: seq<nat>)
    requires b.Valid() && b.lastFlags < b.flagBuf.Length && b.flagBuf[b.lastFlags] == b.flags
    requires w.Valid() && TablesOk(t) && Coding(lfc, ldl, dfc, ddl, ll, dl) && TokensCoded(t, ll, dl, b.toks)
    requires b.lBuf != w.outbuf && b.flagBuf != w.outbuf
    modifies w, w.outbuf
    ensures w.Valid() && w.sent == old(w.sent) + TokensBits(t, ll, dl, b.toks)
  {
    ghost var toks, start := b.toks, w.sent;
    var lx: nat, dx: nat, fx: nat, flag: nat := 0, 0, 0, 0;
    assert toks[..0] == [];
    SentNone(t, ll, dl, toks, start);
    while lx < b.lastLit
      invariant BufferCursor(toks, lx, dx, fx, flag)
      invariant w.Valid() && SentTo(t, ll, dl, toks, lx, start, w.sent)
    {
      var pair, lc, dist;
      pair, lc, dist, dx, fx, flag := NextToken(b, lx, dx, fx, flag);
      SentMore(t, ll, dl, toks, lx, start, w.sent);
      SendToken(w, t, lfc, ldl, dfc, ddl, pair, lc, dist, toks[lx], ll, dl);
      lx := lx + 1;
    }
    SentAll(t, ll, dl, toks, start, w.sent);
  }

  // compress_block
  method Compress(b: TokenBuffer, w: BitWriter, t: Tables, lfc: seq<nat>, ldl: seq<nat>, dfc: seq<nat>, ddl: seq<nat>,
                  ghost ll: seq<nat>, ghost dl: seq<nat>)
    requires b.Valid() && b.lastFlags < b.flagBuf.Length && b.flagBuf[b.lastFlags] == b.flags
    requires w.Valid() && TablesOk(t) && TreeCodes(lfc, ldl, ll, |ll|) && TreeCodes(dfc, ddl, dl, Min(|dl|, 30))
    requires LengthsBounded(ll) && LengthsBounded(dl) && TokensCoded(t, ll, dl, b.toks)
    requires END_BLOCK < |ll| && ll[END_BLOCK] > 0
    requires b.lBuf != w.outbuf && b.flagBuf != w.outbuf
    modifies w, w.outbuf
    ensures w.Valid() && w.sent == old(w.sent) + DataBits(t, ll, dl, b.toks)
  {
    if b.lastLit != 0 {
      SendTokens(b, w, t, lfc, ldl, dfc, ddl, ll, dl);
    } else {
      assert w.sent + [] == w.sent;
    }
    Assoc(old(w.sent), TokensBits(t, ll, dl, b.toks), CodeBits(ll, END_BLOCK));
    SendCode(w, lfc[END_BLOCK], ldl[END_BLOCK], END_BLOCK, ll);
  }
}
