/** A tree that build_tree cannot make optimal: the code lengths of the code length alphabet are
    limited to seven bits, and these frequencies ask for eight. */
module CodeTooLong {
  import opened Bits
  import opened CodeLengthRuns
  import opened BitLengths
  import opened HuffmanOptimal
  import opened HuffmanDepth
  import opened OptimalCode

  function Doubling(): (f: seq<nat>)
    ensures |f| == 2 * BL_CODES + 1
  {
    [1, 1, 2, 4, 8, 16, 32, 64, 128] + Repeat(0, 30)
  }

  function EightBits(): (l: seq<nat>)
    ensures |l| == 2 * BL_CODES + 1
  {
    [8, 8, 7, 6, 5, 4, 3, 2, 1] + Repeat(0, 30)
  }

  function Nine(): seq<nat> { [0, 1, 2, 3, 4, 5, 6, 7, 8] }

  lemma {:induction false} NineSum(bound: nat, g: nat -> nat)
    requires bound >= 9
    ensures SumBelow(Nine(), bound, g) == g(0) + g(1) + g(2) + g(3) + g(4) + g(5) + g(6) + g(7) + g(8)
  {
    SumSnoc([], 0, bound, g);
    SumSnoc([0], 1, bound, g);
    SumSnoc([0, 1], 2, bound, g);
    SumSnoc([0, 1, 2], 3, bound, g);
    SumSnoc([0, 1, 2, 3], 4, bound, g);
    SumSnoc([0, 1, 2, 3, 4], 5, bound, g);
    SumSnoc([0, 1, 2, 3, 4, 5], 6, bound, g);
    SumSnoc([0, 1, 2, 3, 4, 5, 6], 7, bound, g);
    SumSnoc([0, 1, 2, 3, 4, 5, 6, 7], 8, bound, g);
    assert [] + [0] == [0];
    assert [0] + [1] == [0, 1];
    assert [0, 1] + [2] == [0, 1, 2];
    assert [0, 1, 2] + [3] == [0, 1, 2, 3];
    assert [0, 1, 2, 3] + [4] == [0, 1, 2, 3, 4];
    assert [0, 1, 2, 3, 4] + [5] == [0, 1, 2, 3, 4, 5];
    assert [0, 1, 2, 3, 4, 5] + [6] == [0, 1, 2, 3, 4, 5, 6];
    assert [0, 1, 2, 3, 4, 5, 6] + [7] == [0, 1, 2, 3, 4, 5, 6, 7];
    assert [0, 1, 2, 3, 4, 5, 6, 7] + [8] == Nine();
  }

  lemma {:induction false} NineSymbols(k: nat)
    requires k <= 9
    ensures Symbols(Doubling(), k) == Nine()[..k]
  {
    if k != 0 {
      NineSymbols(k - 1);
      assert Doubling()[k - 1] != 0;
      assert Nine()[..k] == Nine()[..k - 1] + [k - 1];
    }
  }

  lemma {:induction false} OnlyNine()
    ensures Symbols(Doubling(), BL_CODES) == Nine()
  {
    NineSymbols(9);
    SymbolsEnd(Doubling(), 9, BL_CODES);
    assert Nine()[..9] == Nine();
  }

  // The limit of a code may be any that its lengths keep.
  lemma {:induction false} Limited(s: seq<nat>, l: seq<nat>, m: nat, k: nat)
    requires CodeOver(s, l, m) && s != [] && forall i :: 0 <= i < |s| ==> l[s[i]] <= k
    ensures CodeOver(s, l, k)
    decreases if m >= k then m - k else k - m
  {
    if m > k {
      LowerLimit(s, l, m);
      Limited(s, l, m - 1, k);
    } else if m < k {
      SharesHalve(s, |l|, l, m + 1);
      Limited(s, l, m + 1, k);
    }
  }

  function Powers(): (p: seq<nat>)
    ensures forall l :: 0 <= l <= 7 ==> l < |p| && p[l] == Pow2(7 - l)
  {
    Pow2Small();
    assert Pow2(6) == 64;
    [128, 64, 32, 16, 8, 4, 2, 1]
  }

  // A line below f * l + 3 * 2^(7 - l), for the frequencies that occur.
  lemma {:induction false} Tangent(f: nat, l: nat, c: nat)
    requires 1 <= l <= 7
    requires (f, c) == (1, 10) || (f, c) == (2, 17) || (f, c) == (4, 30) || (f, c) == (8, 52) || (f, c) == (16, 88)
             || (f, c) == (32, 144) || (f, c) == (64, 224) || (f, c) == (128, 320)
    ensures f * l + 3 * Pow2(7 - l) >= c
  {
    var p := Powers();
    assert Pow2(7 - l) == p[l];
  }

  // Eight bits for the two rarest symbols need 510 bits, seven at least 511.
  lemma {:induction false} SevenBitsCost(l: seq<nat>)
    requires |l| == |Doubling()| && (forall i :: 0 <= i < 9 ==> 1 <= l[i] <= 7) && CodeOver(Nine(), l, 7)
    ensures Price(Nine(), Doubling(), l) >= 511
  {
    var f := Doubling();
    NineSum(|l|, Pay(f, l));
    NineSum(|l|, Share(l, 7));
    Pow2Small();
    Tangent(1, l[0], 10);
    Tangent(1, l[1], 10);
    Tangent(2, l[2], 17);
    Tangent(4, l[3], 30);
    Tangent(8, l[4], 52);
    Tangent(16, l[5], 88);
    Tangent(32, l[6], 144);
    Tangent(64, l[7], 224);
    Tangent(128, l[8], 320);
  }

  lemma {:induction false} EightBitsShares()
    ensures CodeOver(Nine(), EightBits(), 8)
  {
    hide SumBelow;
    NineSum(|EightBits()|, Share(EightBits(), 8));
    Pow2Small();
    assert Pow2(6) == 64;
  }

  lemma {:induction false} EightBitsPrice()
    ensures Price(Nine(), Doubling(), EightBits()) == 510
  {
    hide SumBelow;
    NineSum(|EightBits()|, Pay(Doubling(), EightBits()));
  }

  lemma {:induction false} EightBitsCode()
    ensures IsCode(Doubling(), BL_CODES, EightBits(), 8) && TotalBits(Doubling(), BL_CODES, EightBits()) == 510
  {
    hide SumBelow, Symbols, CodeOver, Price;
    OnlyNine();
    EightBitsShares();
    EightBitsPrice();
    assert forall i :: 0 <= i < 9 ==> EightBits()[Nine()[i]] >= 1;
  }

  lemma {:induction false} Few()
    ensures FewEnough(Doubling(), BL_CODES)
  {
    hide SumBelow, Symbols;
    OnlyNine();
    NineSum(|Doubling()|, Freq(Doubling()));
  }

  // So no optimal code for them keeps the limit, and what build_tree makes is not one.
  lemma {:induction false} SevenBitsTooFew()
    ensures FewEnough(Doubling(), BL_CODES) && !Attainable(Doubling(), BL_CODES, 7)
  {
    hide SumBelow, Symbols, CodeOver, Price, FewEnough;
    var f := Doubling();
    Few();
    EightBitsCode();
    if l: seq<nat> :| Optimal(f, BL_CODES, l) && Keeps(f, BL_CODES, l, 7) {
      OnlyNine();
      var m: nat :| IsCode(f, BL_CODES, l, m);
      forall i | 0 <= i < 9 ensures 1 <= l[i] <= 7 { assert Nine()[i] == i; }
      Limited(Nine(), l, m, 7);
      SevenBitsCost(l);
    }
  }

  // Whatever lengths satisfy the contract of build_tree for these frequencies are not optimal.
  lemma {:induction false} NotOptimal(lens: seq<nat>)
    requires OptimalWhereAttainable(Doubling(), BL_CODES, 7, lens)
    ensures !Optimal(Doubling(), BL_CODES, lens)
  {
    SevenBitsTooFew();
  }
}
