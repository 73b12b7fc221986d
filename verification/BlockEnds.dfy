/** Where ct_tally ends a block. */
module BlockEnds {
  import opened Bits
  import opened CanonicalCode
  import opened CodeLengthRuns
  import opened SymbolTally
  import opened Inflate
  import opened BlockEncoding
  import opened TokenBuffers
  import opened BlockPrices

  // How many bytes the tokens stand for.
  function Covered(toks: seq<Token>): nat
  {
    if toks == [] then 0 else (if toks[0].Match? then toks[0].len else 1) + Covered(toks[1..])
  }

  lemma {:induction false} UnpackLength(out: seq<byte>, toks: seq<Token>, all: seq<byte>)
    requires Unpack(out, toks) == Some(all)
    ensures |all| == |out| + Covered(toks)
    decreases |toks|
  {
    if toks != [] { UnpackLength(Apply(out, toks[0]).value, toks[1..], all); }
  }

  // Five bits and the extra bits for every distance.
  ghost function DistanceBound(t: Tables, toks: seq<Token>): nat
    requires TablesOk(t) && ToksOk(toks)
  {
    if toks == [] then 0
    else
      var k := |toks| - 1;
      DistanceBound(t, toks[..k]) + if toks[k].Match? then 5 + DistExtra(DSym(t, toks[k])) else 0
  }

  // A block of these tokens, the last of which begins inLength - 1 bytes behind its start, is to be
  // flushed: every 4096 tokens if it does well, with few matches and a bound below half its bytes;
  // and when a buffer is full.
  ghost predicate Wants(t: Tables, toks: seq<Token>, inLength: int)
  {
    && TablesOk(t) && ToksOk(toks)
    && var n, m := |toks|, |Dists(toks)|;
       || (n % 4096 == 0 && m < n / 2 && (8 * n + DistanceBound(t, toks)) / 8 < inLength / 2)
       || n == 8191 || m == 8192
  }

  ghost predicate Filled(t: Tables, toks: seq<Token>)
  {
    toks != [] && Wants(t, toks, 1 + Covered(toks[..|toks| - 1]))
  }

  // It was not to be flushed before its last token.
  ghost predicate Unfilled(t: Tables, toks: seq<Token>)
  {
    forall i :: 0 < i < |toks| ==> !Filled(t, toks[..i])
  }

  lemma {:induction false} UnfilledSnoc(t: Tables, toks: seq<Token>, tok: Token)
    requires Unfilled(t, toks) && !Filled(t, toks)
    ensures Unfilled(t, toks + [tok])
  {
    hide Filled;
    forall i | 0 < i < |toks| + 1 ensures !Filled(t, (toks + [tok])[..i]) {
      assert (toks + [tok])[..i] == toks[..i];
      if i == |toks| { assert toks[..i] == toks; }
    }
  }

  // The bound that ct_tally computes, in bits.
  function EstimateBits(freqs: seq<nat>): nat
  {
    if freqs == [] then 0
    else var k := |freqs| - 1; EstimateBits(freqs[..k]) + freqs[k] * (5 + DistExtra(k))
  }

  lemma {:induction false} EstimateMore(f: seq<nat>, s: nat)
    requires s < |f|
    ensures EstimateBits(f[s := f[s] + 1]) == EstimateBits(f) + 5 + DistExtra(s)
  {
    hide DistExtra;
    var k := |f| - 1;
    if s < k {
      assert f[s := f[s] + 1][..k] == f[..k][s := f[s] + 1];
      EstimateMore(f[..k], s);
    } else {
      assert f[s := f[s] + 1][..k] == f[..k];
      OneMore(f[k], 5 + DistExtra(k));
    }
  }

  lemma {:induction false} OneMore(a: nat, b: nat)
    ensures (a + 1) * b == a * b + b
  {
  }

  lemma {:induction false} EstimateNone(n: nat)
    ensures EstimateBits(Repeat(0, n)) == 0
  {
    if n > 0 {
      assert Repeat(0, n)[..n - 1] == Repeat(0, n - 1);
      EstimateNone(n - 1);
    }
  }

  lemma {:induction false} AreSized(t: Tables)
    requires TablesOk(t)
    ensures t.Sized()
  {
  }

  lemma {:induction false} BoundMore(t: Tables, toks: seq<Token>, tok: Token, toks': seq<Token>)
    requires TablesOk(t) && ToksOk(toks) && TokenOk(tok) && toks' == toks + [tok]
    ensures ToksOk(toks')
    ensures DistanceBound(t, toks') == DistanceBound(t, toks) + if tok.Match? then 5 + DistExtra(DSym(t, tok)) else 0
  {
    hide DistExtra;
    AreSized(t);
    hide TablesOk;
    assert toks'[..|toks|] == toks;
  }

  lemma {:induction false} EstimateSnoc(t: Tables, toks: seq<Token>, tok: Token, toks': seq<Token>)
    requires TablesOk(t) && ToksOk(toks) && TokenOk(tok) && toks' == toks + [tok]
    requires EstimateBits(DFreqs(t, toks)) == DistanceBound(t, toks)
    ensures ToksOk(toks') && EstimateBits(DFreqs(t, toks')) == DistanceBound(t, toks')
  {
    AreSized(t);
    hide TablesOk, EstimateBits, DFreqs, DSym, DistExtra, DistanceBound, ToksOk;
    DFreqsSnoc(t, toks, tok, toks');
    BoundMore(t, toks, tok, toks');
    if tok.Match? { EstimateMore(DFreqs(t, toks), DSym(t, tok)); }
  }

  // It is the bound on the distances.
  lemma {:induction false} EstimateIs(t: Tables, toks: seq<Token>)
    requires TablesOk(t) && ToksOk(toks)
    ensures EstimateBits(DFreqs(t, toks)) == DistanceBound(t, toks)
    decreases |toks|
  {
    hide TablesOk, EstimateBits, DFreqs;
    if toks == [] {
      FreqsStart(t);
      EstimateNone(D_CODES);
    } else {
      var k := |toks| - 1;
      assert toks == toks[..k] + [toks[k]];
      EstimateIs(t, toks[..k]);
      EstimateSnoc(t, toks[..k], toks[k], toks);
    }
  }
}
