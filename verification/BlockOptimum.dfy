/** Under the trees that build_tree makes, the data of a block is as short as under any codes. */
module BlockOptimum {
  import opened Bits
  import opened CanonicalCode
  import opened CodeLengthRuns
  import opened BitLengths
  import opened GenBitlen
  import opened HuffmanOptimal
  import opened HuffmanDepth
  import opened OptimalCode
  import opened TreeBuilding
  import opened SymbolTally
  import opened Inflate
  import opened BlockEncoding
  import opened BlockStream
  import opened BlockPrices
  import opened TokenBuffers
  import opened TreeHeader

  ghost function Total(f: seq<nat>, n: nat): nat
    requires n <= |f|
  {
    if n == 0 then 0 else Total(f, n - 1) + f[n - 1]
  }

  lemma {:induction false} TotalIs(f: seq<nat>, n: nat)
    requires n <= |f|
    ensures SumBelow(Symbols(f, n), |f|, Freq(f)) == Total(f, n)
  {
    if n == 0 {
      assert Symbols(f, 0) == [];
    } else {
      hide Symbols, SumBelow;
      TotalIs(f, n - 1);
      SymbolsSum(f, n - 1, |f|, Freq(f));
    }
  }

  lemma {:induction false} TotalSame(f: seq<nat>, g: seq<nat>, n: nat)
    requires n <= |f| && n <= |g| && forall x :: 0 <= x < n ==> f[x] == g[x]
    ensures Total(f, n) == Total(g, n)
  {
    if n != 0 { TotalSame(f, g, n - 1); }
  }

  lemma {:induction false} TotalMore(f: seq<nat>, n: nat, s: nat)
    requires s < n <= |f|
    ensures Total(f[s := f[s] + 1], n) == Total(f, n) + 1
  {
    if s < n - 1 { TotalMore(f, n - 1, s); } else { TotalSame(f[s := f[s] + 1], f, n - 1); }
  }

  lemma {:induction false} TotalNone(n: nat, k: nat)
    requires k <= n
    ensures Total(Repeat(0, n), k) == 0
  {
    if k != 0 { TotalNone(n, k - 1); }
  }

  // Every symbol is counted once.
  lemma {:induction false} TotalCounted(n: nat, syms: seq<nat>)
    requires forall i :: 0 <= i < |syms| ==> syms[i] < n
    ensures Total(AddFreqs(Repeat(0, n), syms), n) == |syms|
  {
    if syms == [] {
      TotalNone(n, n);
    } else {
      var k := |syms| - 1;
      TotalCounted(n, syms[..k]);
      TotalMore(AddFreqs(Repeat(0, n), syms[..k]), n, syms[k]);
    }
  }

  lemma {:induction false} FewSymbols(f: seq<nat>, n: nat, syms: seq<nat>)
    requires (forall i :: 0 <= i < |syms| ==> syms[i] < n) && n <= |f| && |syms| < 65536
    requires f[..n] == AddFreqs(Repeat(0, n), syms)
    ensures FewEnough(f, n)
  {
    hide AddFreqs, Symbols;
    TotalIs(f, n);
    TotalSame(f, f[..n], n);
    TotalCounted(n, syms);
  }

  lemma {:induction false} SymCounts(t: Tables, toks: seq<Token>)
    requires TablesOk(t) && ToksOk(toks)
    ensures |LSyms(t, toks)| == |toks| + 1 && |DSyms(t, toks)| <= |toks|
  {
    hide TablesOk, LSym, DSym;
    if toks != [] { SymCounts(t, toks[..|toks| - 1]); }
  }

  // Codes ll and dl that a decoder can read and that have a codeword for everything in the block.
  ghost predicate Carry(t: Tables, toks: seq<Token>, ll: seq<nat>, dl: seq<nat>)
    requires TablesOk(t)
  {
    && |ll| <= L_CODES && |dl| <= D_CODES && Prefixable(ll) && Prefixable(dl)
    && TokensCoded(t, ll, dl, toks) && END_BLOCK < |ll| && ll[END_BLOCK] > 0
  }

  // A tree with optimal lengths prices its symbols as low as any code.
  lemma {:induction false} LeastBits(syms: seq<nat>, n: nat, f: seq<nat>, dl: seq<nat>, maxCode: nat, other: seq<nat>,
      xb: seq<nat>)
    requires (forall i :: 0 <= i < |syms| ==> syms[i] < n) && |syms| < 65536 && n <= |f| && |xb| == n
    requires f[..n] == AddFreqs(Repeat(0, n), syms) && GoodLengths(f, dl, n, MAX_BITS, maxCode)
    requires Optimal(f, n, dl)
    requires |other| <= n && Prefixable(other) && Coded(syms, other)
    ensures Coded(syms, dl[..maxCode + 1]) && SymBits(syms, dl[..maxCode + 1], xb) <= SymBits(syms, other, xb)
  {
    hide Optimal, Cost, SymBits, AddFreqs, FirstCode;
    AllCoded(syms, n, f, dl, MAX_BITS, maxCode);
    TreePrice(syms, n, f, dl[..maxCode + 1], xb);
    TreePrice(syms, n, f, other, xb);
    OtherServes(syms, n, f, other);
    LeastCost(f, n, dl[..maxCode + 1], dl, other, xb);
  }

  lemma {:induction false} OtherServes(syms: seq<nat>, n: nat, f: seq<nat>, other: seq<nat>)
    requires (forall i :: 0 <= i < |syms| ==> syms[i] < n) && n <= |f| && f[..n] == AddFreqs(Repeat(0, n), syms)
    requires |other| <= n && LengthsBounded(other) && Coded(syms, other)
    ensures Serves(f, n, other)
  {
    forall x | 0 <= x < n && f[x] != 0 ensures x < |other| && other[x] >= 1 {
      assert f[..n][x] != 0;
      CountedOnly(syms, n, x);
    }
  }

  // What has a frequency was counted.
  lemma {:induction false} CountedOnly(syms: seq<nat>, n: nat, x: nat)
    requires (forall i :: 0 <= i < |syms| ==> syms[i] < n) && x < n && AddFreqs(Repeat(0, n), syms)[x] != 0
    ensures x in syms
  {
    if syms != [] && syms[|syms| - 1] != x { CountedOnly(syms[..|syms| - 1], n, x); }
  }

  lemma {:induction false} SymbolsCoded(t: Tables, toks: seq<Token>, ll: seq<nat>, dl: seq<nat>)
    requires TablesOk(t) && TokensCoded(t, ll, dl, toks) && END_BLOCK < |ll| && ll[END_BLOCK] > 0
    requires LengthsBounded(ll) && LengthsBounded(dl)
    ensures ToksOk(toks) && Coded(LSyms(t, toks), ll) && Coded(DSyms(t, toks), dl)
  {
    hide TablesOk, LSym, DSym;
    if toks != [] {
      var k := |toks| - 1;
      assert TokCoded(t, ll, dl, toks[k]);
      SymbolsCoded(t, toks[..k], ll, dl);
    }
  }

  // No other codes make the data of the block shorter, if the lengths are optimal.
  lemma {:induction false} LeastData(t: Tables, toks: seq<Token>, lf: seq<nat>, ldl: seq<nat>, lmax: nat, df: seq<nat>,
      ddl: seq<nat>, dmax: nat, ll: seq<nat>, dl: seq<nat>)
    requires TablesOk(t) && ToksOk(toks) && |toks| < 65535 && Carry(t, toks, ll, dl)
    requires GoodLengths(lf, ldl, L_CODES, MAX_BITS, lmax) && GoodLengths(df, ddl, D_CODES, MAX_BITS, dmax)
    requires lf[..L_CODES] == LFreqs(t, toks) && df[..D_CODES] == DFreqs(t, toks)
    requires Optimal(lf, L_CODES, ldl) && Optimal(df, D_CODES, ddl)
    requires TokensCoded(t, ldl[..lmax + 1], ddl[..dmax + 1], toks) && END_BLOCK <= lmax
    ensures |DataBits(t, ldl[..lmax + 1], ddl[..dmax + 1], toks)| <= |DataBits(t, ll, dl, toks)|
  {
    hide TablesOk, SymBits, AddFreqs, FirstCode, DataBits, LExtras, DExtras, TokensCoded, Optimal, FewEnough;
    SymCounts(t, toks);
    SymbolsCoded(t, toks, ll, dl);
    LeastBits(LSyms(t, toks), L_CODES, lf, ldl, lmax, ll, LExtras());
    LeastBits(DSyms(t, toks), D_CODES, df, ddl, dmax, dl, DExtras());
    DataSize(t, ldl[..lmax + 1], ddl[..dmax + 1], toks);
    DataSize(t, ll, dl, toks);
  }

  // The symbols of the block have optimal codes of at most 15 bits.
  ghost predicate ShortCodes(t: Tables, toks: seq<Token>)
    requires TablesOk(t) && ToksOk(toks)
  {
    Attainable(LFreqs(t, toks), L_CODES, MAX_BITS) && Attainable(DFreqs(t, toks), D_CODES, MAX_BITS)
  }

  // No codes at all make the data of the block shorter than ll and dl do.
  ghost predicate LeastOfAll(t: Tables, toks: seq<Token>, ll: seq<nat>, dl: seq<nat>)
    requires TablesOk(t) && TokensCoded(t, ll, dl, toks) && END_BLOCK < |ll|
  {
    forall ll', dl' :: Carry(t, toks, ll', dl') ==> |DataBits(t, ll, dl, toks)| <= |DataBits(t, ll', dl', toks)|
  }

  // A block of fewer than 2583 tokens always has such codes.
  const FEW_TOKENS := 2583

  // The block's data under ll and dl is as short as any codes make it, if there are short codes.
  ghost predicate LeastWhereShort(t: Tables, toks: seq<Token>, ll: seq<nat>, dl: seq<nat>)
    requires TablesOk(t) && ToksOk(toks)
  {
    && TokensCoded(t, ll, dl, toks) && END_BLOCK < |ll|
    && (ShortCodes(t, toks) || |toks| < FEW_TOKENS ==> LeastOfAll(t, toks, ll, dl))
  }

  // A tree of the block has optimal lengths, if there are short ones.
  lemma {:induction false} TreeOptimal(syms: seq<nat>, n: nat, f: seq<nat>, fs: seq<nat>, dl: seq<nat>)
    requires (forall i :: 0 <= i < |syms| ==> syms[i] < n) && |syms| < 65536 && n <= |f|
    requires fs == AddFreqs(Repeat(0, n), syms) && f[..n] == fs && OptimalWhereAttainable(f, n, MAX_BITS, dl)
    requires |syms| <= FEW_TOKENS || Attainable(fs, n, MAX_BITS)
    ensures Optimal(f, n, dl)
  {
    hide Optimal, FewEnough, AddFreqs, Symbols, Attainable, SumBelow, Fib;
    FewSymbols(f, n, syms);
    if |syms| <= FEW_TOKENS {
      FibLarge();
      TotalIs(f, n);
      TotalSame(f, f[..n], n);
      TotalCounted(n, syms);
    } else {
      assert fs[..n] == fs;
      AttainableSlice(fs, f, n, MAX_BITS);
    }
  }

  lemma {:induction false} TreesAreLeast(t: Tables, toks: seq<Token>, lf: seq<nat>, ldl: seq<nat>, lmax: nat,
      df: seq<nat>, ddl: seq<nat>, dmax: nat)
    requires TablesOk(t) && ToksOk(toks) && |toks| < LIT_BUFSIZE
    requires GoodLengths(lf, ldl, L_CODES, MAX_BITS, lmax) && GoodLengths(df, ddl, D_CODES, MAX_BITS, dmax)
    requires lf[..L_CODES] == LFreqs(t, toks) && df[..D_CODES] == DFreqs(t, toks)
    requires OptimalWhereAttainable(lf, L_CODES, MAX_BITS, ldl)
    requires OptimalWhereAttainable(df, D_CODES, MAX_BITS, ddl)
    requires TokensCoded(t, ldl[..lmax + 1], ddl[..dmax + 1], toks) && END_BLOCK <= lmax
    ensures LeastWhereShort(t, toks, ldl[..lmax + 1], ddl[..dmax + 1])
  {
    hide TablesOk, DataBits, TokensCoded, Complete, Optimal, FewEnough, AddFreqs, Carry, OptimalWhereAttainable;
    if ShortCodes(t, toks) || |toks| < FEW_TOKENS {
      SymCounts(t, toks);
      TreeOptimal(LSyms(t, toks), L_CODES, lf, LFreqs(t, toks), ldl);
      TreeOptimal(DSyms(t, toks), D_CODES, df, DFreqs(t, toks), ddl);
      forall ll, dl | Carry(t, toks, ll, dl)
        ensures TokensCoded(t, ll, dl, toks) && END_BLOCK < |ll|
        ensures |DataBits(t, ldl[..lmax + 1], ddl[..dmax + 1], toks)| <= |DataBits(t, ll, dl, toks)|
      {
        CarriesAll(t, toks, ll, dl);
        LeastData(t, toks, lf, ldl, lmax, df, ddl, dmax, ll, dl);
      }
    }
  }

  lemma {:induction false} CarriesAll(t: Tables, toks: seq<Token>, ll: seq<nat>, dl: seq<nat>)
    requires TablesOk(t) && Carry(t, toks, ll, dl)
    ensures TokensCoded(t, ll, dl, toks) && END_BLOCK < |ll|
  {
  }

  // Every item stands for at least one length.
  lemma {:induction false} ItemsExpand(acc: seq<nat>, items: seq<Item>)
    requires Expand(acc, items).Some?
    ensures |items| + |acc| <= |Expand(acc, items).value|
    decreases |items|
  {
    if items != [] { ItemsExpand(ExpandItem(acc, items[0]).value, items[1..]); }
  }

  lemma {:induction false} AddFreqsSlice(fc: seq<nat>, n: nat, syms: seq<nat>)
    requires n <= |fc| && forall i :: 0 <= i < |syms| ==> syms[i] < n
    ensures AddFreqs(fc, syms)[..n] == AddFreqs(fc[..n], syms)
  {
    if syms != [] { AddFreqsSlice(fc, n, syms[..|syms| - 1]); }
  }

  // The items of a header, their frequencies, and that the code cl for them is optimal exactly if
  // seven bits are enough for an optimal one, which for fewer than 55 items they are.
  ghost predicate HeaderLeast(items: seq<Item>, cl: seq<nat>)
  {
    && SymsBelow(items, BL_CODES) && |cl| == BL_CODES
    && var f := AddFreqs(Repeat(0, BL_CODES), ItemSyms(items));
       && (Optimal(f, BL_CODES, cl) <==> Attainable(f, BL_CODES, 7))
       && (|items| < 55 ==> Optimal(f, BL_CODES, cl))
  }

  lemma {:induction false} HeaderIsLeast(ll: seq<nat>, dl: seq<nat>, fc: seq<nat>, lens: seq<nat>)
    requires 1 <= |ll| <= L_CODES && 1 <= |dl| <= D_CODES && (forall i :: 0 <= i < |ll| ==> ll[i] < 16)
    requires (forall i :: 0 <= i < |dl| ==> dl[i] < 16) && |fc| >= BL_CODES && fc[..BL_CODES] == Repeat(0, BL_CODES)
    requires SymsBelow(AllRuns(ll) + AllRuns(dl), |fc|)
    requires OptimalWhereAttainable(CountItems(fc, AllRuns(ll) + AllRuns(dl)), BL_CODES, 7, lens)
    ensures HeaderLeast(AllRuns(ll) + AllRuns(dl), lens[..BL_CODES])
  {
    hide AllRuns, Optimal, FewEnough, AddFreqs, Symbols, Attainable, Expand, Fib, SumBelow;
    var items := AllRuns(ll) + AllRuns(dl);
    var syms := ItemSyms(items);
    TwoTreesExpand(ll, dl);
    ItemsBelow(ll, dl);
    ItemsExpand([], items);
    var f, g, n := AddFreqs(Repeat(0, BL_CODES), syms), CountItems(fc, items), BL_CODES;
    AddFreqsSlice(fc, n, syms);
    assert f[..n] == f && g[..n] == f;
    FewSymbols(g, n, syms);
    SameOptimum(g, f, n, 7, lens, lens[..n]);
    TotalIs(g, n);
    TotalSame(g, f, n);
    TotalCounted(n, syms);
    TenthFib();
  }

  lemma {:induction false} ItemsBelow(ll: seq<nat>, dl: seq<nat>)
    requires forall i :: 0 <= i < |ll| ==> ll[i] < 16
    requires forall i :: 0 <= i < |dl| ==> dl[i] < 16
    ensures SymsBelow(AllRuns(ll) + AllRuns(dl), BL_CODES)
  {
    hide AllRuns;
    var items := AllRuns(ll) + AllRuns(dl);
    TwoTreesExpand(ll, dl);
    forall i | 0 <= i < |items| ensures items[i].sym < BL_CODES { assert ItemOk(items[i]); }
  }

  lemma {:induction false} TenthFib()
    ensures Fib(10) == 55
  {
    assert Fib(5) == 5 && Fib(6) == 8;
  }

  lemma {:induction false} SameOptimum(g: seq<nat>, f: seq<nat>, n: nat, max: nat, lens: seq<nat>, cl: seq<nat>)
    requires |f| == n <= |g| == |lens| && g[..n] == f && cl == lens[..n]
    ensures Optimal(g, n, lens) <==> Optimal(f, n, cl)
    ensures Attainable(g, n, max) <==> Attainable(f, n, max)
  {
    hide Optimal, Attainable, Symbols;
    assert f[..n] == f;
    if Optimal(g, n, lens) {
      OptimalSlice(g, f, n, lens);
      assert Resized(lens, n, n) == cl;
    }
    if Optimal(f, n, cl) {
      OptimalSlice(f, g, n, cl);
      var r := Resized(cl, n, |g|);
      assert cl[..n] == cl;
      OptimalSame(g, n, r, lens);
    }
    if Attainable(g, n, max) { AttainableSlice(g, f, n, max); }
    if Attainable(f, n, max) { AttainableSlice(f, g, n, max); }
  }
}
