/** What a block costs: the frequencies that ct_tally keeps, priced by either pair of trees,
    are the bits that compress_block sends. */
module BlockPrices {
  import opened Bits
  import opened CanonicalCode
  import opened CodeLengthRuns
  import opened GenBitlen
  import opened TreeBuilding
  import opened SymbolTally
  import opened Inflate
  import opened BlockEncoding
  import opened BlockStream

  ghost predicate ToksOk(toks: seq<Token>)
  {
    forall i :: 0 <= i < |toks| ==> TokenOk(toks[i])
  }

  // The symbols of a block in the literal and length alphabet, the end-of-block mark first.
  ghost function LSyms(t: Tables, toks: seq<Token>): (s: seq<nat>)
    requires TablesOk(t) && ToksOk(toks)
    ensures forall i :: 0 <= i < |s| ==> s[i] < L_CODES
  {
    if toks == [] then [END_BLOCK]
    else
      var k := |toks| - 1;
      assert toks[k].Match? ==> LengthOk(t, toks[k].len - 3);
      LSyms(t, toks[..k]) + [LSym(t, toks[k])]
  }

  ghost function DSyms(t: Tables, toks: seq<Token>): (s: seq<nat>)
    requires TablesOk(t) && ToksOk(toks)
    ensures forall i :: 0 <= i < |s| ==> s[i] < D_CODES
  {
    if toks == [] then []
    else
      var k := |toks| - 1;
      if toks[k].Match? then assert DistOk(t, toks[k].dist - 1); DSyms(t, toks[..k]) + [DSym(t, toks[k])]
      else DSyms(t, toks[..k])
  }

  lemma {:induction false} SymsSnoc(t: Tables, toks: seq<Token>, tok: Token)
    requires TablesOk(t) && ToksOk(toks) && TokenOk(tok)
    ensures ToksOk(toks + [tok]) && LSym(t, tok) < L_CODES && (tok.Match? ==> DSym(t, tok) < D_CODES)
    ensures LSyms(t, toks + [tok]) == LSyms(t, toks) + [LSym(t, tok)]
    ensures DSyms(t, toks + [tok]) == if tok.Match? then DSyms(t, toks) + [DSym(t, tok)] else DSyms(t, toks)
  {
    var s := toks + [tok];
    assert s[..|toks|] == toks && s[|toks|] == tok;
    if tok.Match? {
      assert LengthOk(t, tok.len - 3) && DistOk(t, tok.dist - 1);
    }
  }

  lemma {:induction false} LSymsHas(t: Tables, toks: seq<Token>, i: nat)
    requires TablesOk(t) && ToksOk(toks) && i < |toks|
    ensures LSym(t, toks[i]) in LSyms(t, toks)
  {
    var k := |toks| - 1;
    var s, a := LSyms(t, toks), LSyms(t, toks[..k]);
    if i < k {
      LSymsHas(t, toks[..k], i);
      var j :| 0 <= j < |a| && a[j] == LSym(t, toks[i]);
      assert s[j] == a[j];
    } else {
      assert s[|a|] == LSym(t, toks[i]);
    }
  }

  lemma {:induction false} LSymsEnd(t: Tables, toks: seq<Token>)
    requires TablesOk(t) && ToksOk(toks)
    ensures |LSyms(t, toks)| > 0 && LSyms(t, toks)[0] == END_BLOCK
  {
    if toks != [] { LSymsEnd(t, toks[..|toks| - 1]); }
  }

  lemma {:induction false} DSymsHas(t: Tables, toks: seq<Token>, i: nat)
    requires TablesOk(t) && ToksOk(toks) && i < |toks| && toks[i].Match?
    ensures DSym(t, toks[i]) in DSyms(t, toks)
  {
    var k := |toks| - 1;
    var s, a := DSyms(t, toks), DSyms(t, toks[..k]);
    if i < k {
      DSymsHas(t, toks[..k], i);
      var j :| 0 <= j < |a| && a[j] == DSym(t, toks[i]);
      assert s[j] == a[j];
    } else {
      assert s[|a|] == DSym(t, toks[i]);
    }
  }

  // Frequencies of the symbols in both alphabets.
  ghost function LFreqs(t: Tables, toks: seq<Token>): (f: seq<nat>)
    requires TablesOk(t) && ToksOk(toks)
    ensures |f| == L_CODES
  {
    AddFreqs(Repeat(0, L_CODES), LSyms(t, toks))
  }

  ghost function DFreqs(t: Tables, toks: seq<Token>): (f: seq<nat>)
    requires TablesOk(t) && ToksOk(toks)
    ensures |f| == D_CODES
  {
    AddFreqs(Repeat(0, D_CODES), DSyms(t, toks))
  }

  lemma {:induction false} OneCount(f: seq<nat>, s: nat)
    requires s < |f|
    ensures AddFreqs(f, [s]) == f[s := f[s] + 1]
  {
    AddFreqsSnoc(f, [], s);
    assert [] + [s] == [s];
  }

  lemma {:induction false} FreqsStart(t: Tables)
    requires TablesOk(t)
    ensures LFreqs(t, []) == Repeat(0, L_CODES)[END_BLOCK := 1] && DFreqs(t, []) == Repeat(0, D_CODES)
  {
    hide TablesOk, LSyms, DSyms, ToksOk;
    NoSyms(t);
    OneCount(Repeat(0, L_CODES), END_BLOCK);
    assert DFreqs(t, []) == AddFreqs(Repeat(0, D_CODES), []);
  }

  lemma {:induction false} CountMore(z: seq<nat>, syms: seq<nat>, s: nat, syms': seq<nat>)
    requires (forall i :: 0 <= i < |syms| ==> syms[i] < |z|) && s < |z| && syms' == syms + [s]
    ensures var f := AddFreqs(z, syms); AddFreqs(z, syms') == f[s := f[s] + 1]
  {
    AddFreqsSnoc(z, syms, s);
  }

  lemma {:induction false} LFreqsSnoc(t: Tables, toks: seq<Token>, tok: Token, toks': seq<Token>)
    requires TablesOk(t) && ToksOk(toks) && TokenOk(tok) && toks' == toks + [tok]
    ensures ToksOk(toks') && LSym(t, tok) < L_CODES
    ensures var s, f := LSym(t, tok), LFreqs(t, toks); LFreqs(t, toks') == f[s := f[s] + 1]
  {
    hide LSyms, DSyms, AddFreqs, Tables.DCode, Repeat;
    SymsSnoc(t, toks, tok);
    CountMore(Repeat(0, L_CODES), LSyms(t, toks), LSym(t, tok), LSyms(t, toks'));
  }

  lemma {:induction false} DFreqsSnoc(t: Tables, toks: seq<Token>, tok: Token, toks': seq<Token>)
    requires TablesOk(t) && ToksOk(toks) && TokenOk(tok) && toks' == toks + [tok]
    ensures ToksOk(toks') && (tok.Match? ==> DSym(t, tok) < D_CODES)
    ensures tok.Match? ==> var s, f := DSym(t, tok), DFreqs(t, toks); DFreqs(t, toks') == f[s := f[s] + 1]
    ensures tok.Literal? ==> DFreqs(t, toks') == DFreqs(t, toks)
  {
    hide DSyms, AddFreqs, Tables.DCode;
    SymsSnoc(t, toks, tok);
    if tok.Match? { CountMore(Repeat(0, D_CODES), DSyms(t, toks), DSym(t, tok), DSyms(t, toks')); }
  }

  // Extra bits after the symbols of either alphabet.
  function LExtras(): (xb: seq<nat>)
    ensures |xb| == L_CODES
  {
    seq(L_CODES, n requires n >= 0 => if n < 257 then 0 else LengthExtra(n - 257))
  }

  function DExtras(): (xb: seq<nat>)
    ensures |xb| == D_CODES
  {
    seq(D_CODES, n requires n >= 0 => DistExtra(n))
  }

  // Every symbol of the block has a code.
  ghost predicate LCoded(t: Tables, toks: seq<Token>, ll: seq<nat>)
    requires TablesOk(t) && ToksOk(toks)
  {
    Coded(LSyms(t, toks), ll)
  }

  ghost predicate DCoded(t: Tables, toks: seq<Token>, dl: seq<nat>)
    requires TablesOk(t) && ToksOk(toks)
  {
    Coded(DSyms(t, toks), dl)
  }

  lemma {:induction false} CodedTokens(t: Tables, toks: seq<Token>, ll: seq<nat>, dl: seq<nat>)
    requires TablesOk(t) && ToksOk(toks) && LCoded(t, toks, ll) && DCoded(t, toks, dl)
    ensures TokensCoded(t, ll, dl, toks) && END_BLOCK < |ll| && ll[END_BLOCK] > 0
  {
    LSymsEnd(t, toks);
    forall i | 0 <= i < |toks| ensures TokCoded(t, ll, dl, toks[i]) {
      LSymsHas(t, toks, i);
      if toks[i].Match? { DSymsHas(t, toks, i); }
    }
  }

  lemma {:induction false} TokSize(t: Tables, ll: seq<nat>, dl: seq<nat>, tok: Token)
    requires TablesOk(t) && TokCoded(t, ll, dl, tok)
    ensures LSym(t, tok) < L_CODES && (tok.Match? ==> DSym(t, tok) < D_CODES)
    ensures |TokBits(t, ll, dl, tok)| == ll[LSym(t, tok)] + LExtras()[LSym(t, tok)]
      + if tok.Match? then dl[DSym(t, tok)] + DExtras()[DSym(t, tok)] else 0
  {
    if tok.Match? {
      assert LengthOk(t, tok.len - 3) && DistOk(t, tok.dist - 1);
    }
  }

  lemma {:induction false} TokensSnoc(t: Tables, ll: seq<nat>, dl: seq<nat>, toks: seq<Token>, tok: Token)
    requires TablesOk(t) && TokensCoded(t, ll, dl, toks) && TokCoded(t, ll, dl, tok)
    ensures TokensCoded(t, ll, dl, toks + [tok])
    ensures TokensBits(t, ll, dl, toks + [tok]) == TokensBits(t, ll, dl, toks) + TokBits(t, ll, dl, tok)
  {
    hide TokBits;
    if toks == [] {
      assert toks + [tok] == [tok] && [tok][1..] == [];
    } else {
      assert forall i :: 0 <= i < |toks| - 1 ==> toks[1..][i] == toks[i + 1];
      TokensSnoc(t, ll, dl, toks[1..], tok);
      assert (toks + [tok])[1..] == toks[1..] + [tok];
      Assoc(TokBits(t, ll, dl, toks[0]), TokensBits(t, ll, dl, toks[1..]), TokBits(t, ll, dl, tok));
    }
  }

  ghost predicate Fits(syms: seq<nat>, lens: seq<nat>)
  {
    forall i :: 0 <= i < |syms| ==> syms[i] < |lens|
  }

  // The bits of the tokens, symbol by symbol.
  lemma {:induction false} TokensSize(t: Tables, ll: seq<nat>, dl: seq<nat>, toks: seq<Token>, lx: seq<nat>,
      dx: seq<nat>)
    requires TablesOk(t) && TokensCoded(t, ll, dl, toks) && END_BLOCK < |ll| && lx == LExtras() && dx == DExtras()
    ensures ToksOk(toks) && Fits(LSyms(t, toks), ll) && Fits(DSyms(t, toks), dl)
    ensures |TokensBits(t, ll, dl, toks)| + ll[END_BLOCK]
            == SymBits(LSyms(t, toks), ll, lx) + SymBits(DSyms(t, toks), dl, dx)
  {
    if toks == [] {
      SizeStart(t, ll, dl, lx, dx);
    } else {
      var k := |toks| - 1;
      assert toks == toks[..k] + [toks[k]];
      TokensSize(t, ll, dl, toks[..k], lx, dx);
      SizeStep(t, ll, dl, toks[..k], toks[k], toks, lx, dx);
    }
  }

  lemma {:induction false} NoSyms(t: Tables)
    requires TablesOk(t)
    ensures ToksOk([]) && LSyms(t, []) == [END_BLOCK] && DSyms(t, []) == []
  {
    hide TablesOk;
  }

  lemma {:induction false} NoTokens(t: Tables, ll: seq<nat>, dl: seq<nat>)
    requires TablesOk(t)
    ensures TokensCoded(t, ll, dl, []) && TokensBits(t, ll, dl, []) == []
  {
    hide TablesOk, TokBits;
  }

  lemma {:induction false} EndExtras(lx: seq<nat>)
    requires lx == LExtras()
    ensures END_BLOCK < |lx| && lx[END_BLOCK] == 0
  {
  }

  lemma {:induction false} OneSym(lens: seq<nat>, xb: seq<nat>, s: nat)
    requires s < |lens| && s < |xb|
    ensures SymBits([s], lens, xb) == lens[s] + xb[s] && SymBits([], lens, xb) == 0
  {
    SymBitsSnoc([], lens, xb, s);
    assert [] + [s] == [s];
  }

  lemma {:induction false} SizeStart(t: Tables, ll: seq<nat>, dl: seq<nat>, lx: seq<nat>, dx: seq<nat>)
    requires TablesOk(t) && END_BLOCK < |ll| && lx == LExtras() && dx == DExtras()
    ensures ToksOk([]) && Fits(LSyms(t, []), ll) && Fits(DSyms(t, []), dl) && TokensCoded(t, ll, dl, [])
    ensures |TokensBits(t, ll, dl, [])| + ll[END_BLOCK] == SymBits(LSyms(t, []), ll, lx) + SymBits(DSyms(t, []), dl, dx)
  {
    hide TablesOk, LExtras, DExtras, TokBits, TokensBits, LSyms, DSyms, TokensCoded, ToksOk;
    NoSyms(t);
    NoTokens(t, ll, dl);
    EndExtras(lx);
    OneSym(ll, lx, END_BLOCK);
  }

  lemma {:induction false} SizeStep(t: Tables, ll: seq<nat>, dl: seq<nat>, front: seq<Token>, tok: Token,
      toks: seq<Token>, lx: seq<nat>, dx: seq<nat>)
    requires TablesOk(t) && TokensCoded(t, ll, dl, front) && TokCoded(t, ll, dl, tok) && END_BLOCK < |ll|
             && lx == LExtras() && dx == DExtras()
    requires toks == front + [tok] && ToksOk(front) && Fits(LSyms(t, front), ll) && Fits(DSyms(t, front), dl)
    requires |TokensBits(t, ll, dl, front)| + ll[END_BLOCK]
             == SymBits(LSyms(t, front), ll, lx) + SymBits(DSyms(t, front), dl, dx)
    ensures TokensCoded(t, ll, dl, toks) && ToksOk(toks) && Fits(LSyms(t, toks), ll) && Fits(DSyms(t, toks), dl)
    ensures |TokensBits(t, ll, dl, toks)| + ll[END_BLOCK]
            == SymBits(LSyms(t, toks), ll, lx) + SymBits(DSyms(t, toks), dl, dx)
  {
    hide TokBits, TokensBits, LSyms, DSyms, LSym, DSym, TokensCoded, SymBits, Tables.DCode;
    TokensSnoc(t, ll, dl, front, tok);
    TokSize(t, ll, dl, tok);
    SymsSnoc(t, front, tok);
    SymBitsSnoc(LSyms(t, front), ll, lx, LSym(t, tok));
    if tok.Match? { SymBitsSnoc(DSyms(t, front), dl, dx, DSym(t, tok)); }
  }

  // The bits of a block, symbol by symbol.
  lemma {:induction false} DataSize(t: Tables, ll: seq<nat>, dl: seq<nat>, toks: seq<Token>)
    requires TablesOk(t) && TokensCoded(t, ll, dl, toks) && END_BLOCK < |ll|
    ensures ToksOk(toks) && Fits(LSyms(t, toks), ll) && Fits(DSyms(t, toks), dl)
    ensures |DataBits(t, ll, dl, toks)|
            == SymBits(LSyms(t, toks), ll, LExtras()) + SymBits(DSyms(t, toks), dl, DExtras())
  {
    TokensSize(t, ll, dl, toks, LExtras(), DExtras());
  }

  // The symbols have codes in the trees that build_tree made from their frequencies.
  lemma {:induction false} AllCoded(syms: seq<nat>, n: nat, freq: seq<nat>, dl: seq<nat>, max: nat, maxCode: nat)
    requires (forall i :: 0 <= i < |syms| ==> syms[i] < n) && GoodLengths(freq, dl, n, max, maxCode)
    requires forall x :: 0 <= x < n ==> freq[x] == AddFreqs(Repeat(0, n), syms)[x]
    ensures Coded(syms, dl[..maxCode + 1])
  {
    var lens := dl[..maxCode + 1];
    assert LengthsBounded(lens);
    forall i | 0 <= i < |syms| ensures syms[i] < |lens| && 1 <= lens[syms[i]] <= MAX_BITS {
      CountedNonZero(Repeat(0, n), syms, i);
    }
  }

  // The price that build_tree computes is the price of the symbols.
  lemma {:induction false} TreePrice(syms: seq<nat>, n: nat, freq: seq<nat>, lens: seq<nat>, xb: seq<nat>)
    requires (forall i :: 0 <= i < |syms| ==> syms[i] < n) && |lens| <= n <= |freq| && |lens| <= |xb|
             && Coded(syms, lens)
    requires forall x :: 0 <= x < n ==> freq[x] == AddFreqs(Repeat(0, n), syms)[x]
    ensures Cost(freq, lens, xb) == SymBits(syms, lens, xb)
  {
    CostSame(freq, AddFreqs(Repeat(0, n), syms), lens, xb);
    TallyCost(Repeat(0, n), syms, lens, xb);
    CostZero(Repeat(0, n), lens, xb);
  }

  lemma {:induction false} StaticPrice(syms: seq<nat>, n: nat, freq: seq<nat>, lens: seq<nat>, st: seq<nat>,
      xb: seq<nat>)
    requires (forall i :: 0 <= i < |syms| ==> syms[i] < n) && |lens| <= n <= |freq| && |lens| <= |xb|
             && |lens| <= |st| && Coded(syms, lens)
    requires forall x :: 0 <= x < n ==> freq[x] == AddFreqs(Repeat(0, n), syms)[x]
    ensures StaticCost(freq, lens, st, xb) == SymBits(syms, st, xb)
  {
    StaticSame(freq, AddFreqs(Repeat(0, n), syms), lens, st, xb);
    TallyStatic(Repeat(0, n), syms, lens, st, xb);
    StaticZero(Repeat(0, n), lens, st, xb);
  }

  lemma {:induction false} SymBitsSame(syms: seq<nat>, a: seq<nat>, b: seq<nat>, xb: seq<nat>)
    requires forall i :: 0 <= i < |syms| ==> syms[i] < |a| && syms[i] < |b| && syms[i] < |xb|
                                             && a[syms[i]] == b[syms[i]]
    ensures SymBits(syms, a, xb) == SymBits(syms, b, xb)
  {
    if syms != [] { SymBitsSame(syms[..|syms| - 1], a, b, xb); }
  }

  // Any block can be sent under the fixed codes, at 31 bits a token at most.
  lemma {:induction false} StaticToken(t: Tables, tok: Token, ll: seq<nat>, dl: seq<nat>)
    requires TablesOk(t) && TokenOk(tok) && ll == FixedLitLens() && dl == FixedDistLens()
    ensures TokCoded(t, ll, dl, tok) && |TokBits(t, ll, dl, tok)| <= 31
  {
    if tok.Match? {
      assert LengthOk(t, tok.len - 3) && DistOk(t, tok.dist - 1);
    }
  }

  lemma {:induction false} StaticTokens(t: Tables, toks: seq<Token>, ll: seq<nat>, dl: seq<nat>)
    requires TablesOk(t) && ToksOk(toks) && ll == FixedLitLens() && dl == FixedDistLens()
    ensures TokensCoded(t, ll, dl, toks) && |TokensBits(t, ll, dl, toks)| <= 31 * |toks|
  {
    if toks != [] {
      var k := |toks| - 1;
      assert toks == toks[..k] + [toks[k]];
      StaticTokens(t, toks[..k], ll, dl);
      StaticToken(t, toks[k], ll, dl);
      TokensSnoc(t, ll, dl, toks[..k], toks[k]);
    }
  }
}
