/** Counting symbols and pricing them: the frequency of a symbol times the price of its code,
    summed over the tree, is the price of the symbols one by one. */
module SymbolTally {
  import opened Bits
  import opened CanonicalCode
  import opened GenBitlen

  // Frequencies after counting every symbol of syms once more.
  function AddFreqs(fc: seq<nat>, syms: seq<nat>): (r: seq<nat>)
    requires forall i :: 0 <= i < |syms| ==> syms[i] < |fc|
    ensures |r| == |fc|
  {
    if syms == [] then fc
    else var k := |syms| - 1; var f := AddFreqs(fc, syms[..k]); f[syms[k] := f[syms[k]] + 1]
  }

  // Every symbol of syms has a code.
  ghost predicate Coded(syms: seq<nat>, lens: seq<nat>)
  {
    forall i :: 0 <= i < |syms| ==> syms[i] < |lens| && 1 <= lens[syms[i]] <= MAX_BITS
  }

  // Bits taken by the codes of syms with their extra bits.
  function SymBits(syms: seq<nat>, lens: seq<nat>, xb: seq<nat>): nat
    requires forall i :: 0 <= i < |syms| ==> syms[i] < |lens| && syms[i] < |xb|
  {
    if syms == [] then 0
    else var k := |syms| - 1; SymBits(syms[..k], lens, xb) + lens[syms[k]] + xb[syms[k]]
  }

  lemma {:induction false} AddFreqsSnoc(fc: seq<nat>, syms: seq<nat>, s: nat)
    requires (forall i :: 0 <= i < |syms| ==> syms[i] < |fc|) && s < |fc|
    ensures AddFreqs(fc, syms + [s]) == AddFreqs(fc, syms)[s := AddFreqs(fc, syms)[s] + 1]
  {
    assert (syms + [s])[..|syms|] == syms;
  }

  lemma {:induction false} AddFreqsConcat(fc: seq<nat>, a: seq<nat>, b: seq<nat>)
    requires (forall i :: 0 <= i < |a| ==> a[i] < |fc|) && (forall i :: 0 <= i < |b| ==> b[i] < |fc|)
    ensures AddFreqs(fc, a + b) == AddFreqs(AddFreqs(fc, a), b)
  {
    if b == [] {
      assert a + b == a;
    } else {
      var k := |b| - 1;
      AddFreqsConcat(fc, a, b[..k]);
      assert a + b == (a + b[..k]) + [b[k]];
      AddFreqsSnoc(fc, a + b[..k], b[k]);
    }
  }

  lemma {:induction false} SymBitsSnoc(syms: seq<nat>, lens: seq<nat>, xb: seq<nat>, s: nat)
    requires forall i :: 0 <= i < |syms| ==> syms[i] < |lens| && syms[i] < |xb|
    requires s < |lens| && s < |xb|
    ensures SymBits(syms + [s], lens, xb) == SymBits(syms, lens, xb) + lens[s] + xb[s]
  {
    assert (syms + [s])[..|syms|] == syms;
  }

  // A symbol that was counted has a non-zero frequency.
  lemma {:induction false} CountedNonZero(fc: seq<nat>, syms: seq<nat>, i: nat)
    requires forall t :: 0 <= t < |syms| ==> syms[t] < |fc|
    requires i < |syms|
    ensures AddFreqs(fc, syms)[syms[i]] > 0
  {
    if i < |syms| - 1 { CountedNonZero(fc, syms[..|syms| - 1], i); }
  }

  lemma {:induction false} CostCount(fc: seq<nat>, lens: seq<nat>, xb: seq<nat>, s: nat, fc': seq<nat>)
    requires |lens| <= |fc| && |lens| <= |xb| && s < |lens| && 1 <= lens[s] <= MAX_BITS
    requires fc' == fc[s := fc[s] + 1]
    ensures Cost(fc', lens, xb) == Cost(fc, lens, xb) + lens[s] + xb[s]
  {
    var k := |lens| - 1;
    if s < k {
      CostCount(fc, lens[..k], xb, s, fc');
    } else {
      CostSame(fc, fc', lens[..k], xb);
      OneMore(fc[s], lens[s] + xb[s]);
    }
  }

  lemma {:induction false} OneMore(f: nat, c: nat)
    ensures (f + 1) * c == f * c + c
  {
  }

  // Tallying symbols and pricing the tally, or pricing the symbols: the same bits.
  lemma {:induction false} TallyCost(fc: seq<nat>, syms: seq<nat>, lens: seq<nat>, xb: seq<nat>)
    requires |lens| <= |fc| && |lens| <= |xb| && Coded(syms, lens)
    ensures Cost(AddFreqs(fc, syms), lens, xb) == Cost(fc, lens, xb) + SymBits(syms, lens, xb)
  {
    if syms != [] {
      var k := |syms| - 1;
      TallyCost(fc, syms[..k], lens, xb);
      CostCount(AddFreqs(fc, syms[..k]), lens, xb, syms[k], AddFreqs(fc, syms));
    }
  }

  lemma {:induction false} StaticCount(fc: seq<nat>, lens: seq<nat>, st: seq<nat>, xb: seq<nat>, s: nat, fc': seq<nat>)
    requires |lens| <= |fc| && |lens| <= |xb| && |lens| <= |st| && s < |lens| && 1 <= lens[s] <= MAX_BITS
    requires fc' == fc[s := fc[s] + 1]
    ensures StaticCost(fc', lens, st, xb) == StaticCost(fc, lens, st, xb) + st[s] + xb[s]
  {
    var k := |lens| - 1;
    if s < k {
      StaticCount(fc, lens[..k], st, xb, s, fc');
    } else {
      StaticSame(fc, fc', lens[..k], st, xb);
      OneMore(fc[s], st[s] + xb[s]);
    }
  }

  lemma {:induction false} TallyStatic(fc: seq<nat>, syms: seq<nat>, lens: seq<nat>, st: seq<nat>, xb: seq<nat>)
    requires |lens| <= |fc| && |lens| <= |xb| && |lens| <= |st| && Coded(syms, lens)
    ensures StaticCost(AddFreqs(fc, syms), lens, st, xb) == StaticCost(fc, lens, st, xb) + SymBits(syms, st, xb)
  {
    if syms != [] {
      var k := |syms| - 1;
      TallyStatic(fc, syms[..k], lens, st, xb);
      StaticCount(AddFreqs(fc, syms[..k]), lens, st, xb, syms[k], AddFreqs(fc, syms));
    }
  }

  // No frequency, no cost.
  lemma {:induction false} CostZero(fc: seq<nat>, lens: seq<nat>, xb: seq<nat>)
    requires |lens| <= |fc| && |lens| <= |xb| && forall i :: 0 <= i < |lens| ==> fc[i] == 0
    ensures Cost(fc, lens, xb) == 0
  {
    if lens != [] { CostZero(fc, lens[..|lens| - 1], xb); }
  }

  lemma {:induction false} StaticZero(fc: seq<nat>, lens: seq<nat>, st: seq<nat>, xb: seq<nat>)
    requires |lens| <= |fc| && |lens| <= |xb| && |lens| <= |st| && forall i :: 0 <= i < |lens| ==> fc[i] == 0
    ensures StaticCost(fc, lens, st, xb) == 0
  {
    if lens != [] { StaticZero(fc, lens[..|lens| - 1], st, xb); }
  }
}
