/** What build_tree promises of its lengths: they are optimal. The tree it grows has the least
    cost of all prefix codes, and its depths are the lengths as long as they keep the limit. */
module OptimalCode {
  import opened Bits
  import opened CanonicalCode
  import opened HuffmanHeap
  import opened HuffmanTree
  import opened BitLengths
  import opened LengthCounts
  import opened GenBitlen
  import opened ForcedCodes
  import opened HuffmanOptimal
  import opened HuffmanDepth

  // The symbols below n that occur, in increasing order.
  ghost function Symbols(freq: seq<nat>, n: nat): (s: seq<nat>)
    requires n <= |freq|
    ensures forall i :: 0 <= i < |s| ==> s[i] < n && freq[s[i]] != 0
  {
    if n == 0 then [] else Symbols(freq, n - 1) + if freq[n - 1] != 0 then [n - 1] else []
  }

  // Lengths of at most m, at least one for every symbol that occurs, with a Kraft sum of at
  // most one.
  ghost predicate IsCode(freq: seq<nat>, n: nat, l: seq<nat>, m: nat)
    requires n <= |freq|
  {
    var s := Symbols(freq, n);
    CodeOver(s, l, m) && forall i :: 0 <= i < |s| ==> l[s[i]] >= 1
  }

  // The bits of all symbols under the lengths l.
  ghost function TotalBits(freq: seq<nat>, n: nat, l: seq<nat>): nat
    requires n <= |freq|
  {
    Price(Symbols(freq, n), freq, l)
  }

  // No code, however long its codewords, needs fewer bits.
  ghost predicate NoneCheaper(freq: seq<nat>, n: nat, lens: seq<nat>)
    requires n <= |freq|
  {
    forall l: seq<nat>, m: nat :: |l| == |freq| && IsCode(freq, n, l, m)
      ==> TotalBits(freq, n, lens) <= TotalBits(freq, n, l)
  }

  ghost predicate Optimal(freq: seq<nat>, n: nat, lens: seq<nat>)
    requires n <= |freq|
  {
    |lens| == |freq| && (exists m: nat :: IsCode(freq, n, lens, m)) && NoneCheaper(freq, n, lens)
  }

  // The frequencies add up to less than 2^16.
  ghost predicate FewEnough(freq: seq<nat>, n: nat)
    requires n <= |freq|
  {
    SumBelow(Symbols(freq, n), |freq|, Freq(freq)) < 65536
  }

  lemma {:induction false} SymbolsIncrease(freq: seq<nat>, n: nat)
    requires n <= |freq|
    ensures forall i, j :: 0 <= i < j < |Symbols(freq, n)| ==> Symbols(freq, n)[i] < Symbols(freq, n)[j]
  {
    if n != 0 { SymbolsIncrease(freq, n - 1); }
  }

  lemma {:induction false} SymbolsHave(freq: seq<nat>, n: nat, x: nat)
    requires x < n <= |freq| && freq[x] != 0
    ensures x in Symbols(freq, n)
  {
    if x < n - 1 { SymbolsHave(freq, n - 1, x); }
  }

  lemma {:induction false} SymbolsAre(freq: seq<nat>, n: nat, used: set<nat>)
    requires n <= |freq| && forall x: nat :: x in used <==> x < n && freq[x] != 0
    ensures multiset(Symbols(freq, n)) == multiset(used) && |Symbols(freq, n)| == |used|
  {
    hide Symbols;
    var s := Symbols(freq, n);
    SymbolsIncrease(freq, n);
    DistinctElements(s);
    forall x | x in used ensures x in s { SymbolsHave(freq, n, x); }
    assert Elements(s) == used;
  }

  // The depth of node x, without a limit.
  ghost function Deep(dad: seq<nat>, root: nat, x: nat): nat
  {
    CutDepth(dad, root, root + 1, x)
  }

  lemma {:induction false} DeepBound(dad: seq<nat>, root: nat, x: nat)
    requires x <= root
    ensures Deep(dad, root, x) <= root - x
    decreases root - x
  {
    if x < root && x < |dad| && x < dad[x] <= root { DeepBound(dad, root, dad[x]); }
  }

  lemma {:induction false} DeepSon(dad: seq<nat>, root: nat, x: nat)
    requires x < root && x < |dad| && x < dad[x] <= root
    ensures Deep(dad, root, x) == Deep(dad, root, dad[x]) + 1
  {
    DeepBound(dad, root, dad[x]);
  }

  lemma {:induction false} CutIsMin(dad: seq<nat>, root: nat, max: nat, x: nat)
    ensures CutDepth(dad, root, max, x) == Min(Deep(dad, root, x), max)
    decreases root - x
  {
    if x < root && x < |dad| && x < dad[x] <= root {
      CutIsMin(dad, root, max, dad[x]);
      DeepSon(dad, root, x);
    }
  }

  // The depths of all nodes.
  ghost function Depths(dad: seq<nat>, root: nat, n: nat): (d: seq<nat>)
    ensures |d| == n && forall x :: 0 <= x < n ==> d[x] == Deep(dad, root, x)
  {
    seq(n, x requires x >= 0 => Deep(dad, root, x))
  }

  lemma {:induction false} DadOf(j: Job, x: nat)
    requires j.Valid() && x in Nodes(j.used, j.elems, j.elems + j.k) && x != j.Root()
    ensures x < |j.dad| && x < j.dad[x] <= j.Root() && j.dad[x] >= j.elems
    ensures Deep(j.dad, j.Root(), x) == Deep(j.dad, j.Root(), j.dad[x]) + 1
  {
    var t := ListIndex(j.ord, Nodes(j.used, j.elems, j.elems + j.k), x);
    FatherOf(j.dad, j.ord, j.elems, j.k, j.used, t);
    DeepSon(j.dad, j.Root(), x);
  }

  // Below every node there is a leaf at least as deep.
  lemma {:induction false} LeafBelow(j: Job, x: nat) returns (y: nat)
    requires j.Valid() && x in Nodes(j.used, j.elems, j.elems + j.k)
    ensures y in j.used && Deep(j.dad, j.Root(), y) >= Deep(j.dad, j.Root(), x)
    decreases x
  {
    if x < j.elems {
      y := x;
    } else {
      var n := FirstSon(j, x);
      y := LeafBelow(j, n);
    }
  }

  lemma {:induction false} FirstSon(j: Job, x: nat) returns (n: nat)
    requires j.Valid() && j.elems <= x < j.elems + j.k
    ensures n in Nodes(j.used, j.elems, j.elems + j.k) && n < x
    ensures Deep(j.dad, j.Root(), n) == Deep(j.dad, j.Root(), x) + 1
  {
    hide Deep, SonsAt, Nodes;
    var i := x - j.elems;
    var t := 2 * (j.k - i);
    n := j.ord[t];
    NodeOfList(j.ord, j.used, j.elems, j.k, t);
    FatherOf(j.dad, j.ord, j.elems, j.k, j.used, t);
    assert 2 * j.k - t == 2 * i;
    DadOf(j, n);
  }

  lemma {:induction false} CutsNone(dad: seq<nat>, root: nat, max: nat, s: seq<nat>)
    requires forall i :: 0 <= i < |s| ==> !Cut(dad, root, max, s[i])
    ensures Cuts(dad, root, max, s) == 0
  {
    if s != [] { CutsNone(dad, root, max, s[..|s| - 1]); }
  }

  // No leaf deeper than the maximum.
  ghost predicate Shallow(j: Job)
    requires j.Root() >= 0
  {
    forall x :: x in j.used ==> Deep(j.dad, j.Root(), x) <= j.max
  }

  lemma {:induction false} NotCut(j: Job, t: nat)
    requires j.Valid() && Shallow(j) && t < |j.ord|
    ensures !Cut(j.dad, j.Root(), j.max, j.ord[t])
  {
    var x, root := j.ord[t], j.Root();
    NodeOfList(j.ord, j.used, j.elems, j.k, t);
    if Cut(j.dad, root, j.max, x) {
      DadOf(j, x);
      CutIsMin(j.dad, root, j.max, j.dad[x]);
      var y := LeafBelow(j, x);
    }
  }

  // If the tree keeps the limit, the first pass sets its depths, and there is no overflow.
  lemma {:induction false} FirstPassSettles(j: Job, p: Pass)
    requires j.Valid() && Shallow(j) && p == PassTo(j, |j.ord|)
    ensures p.overflow == 0 && j.maxCode < |p.dl|
    ensures p.dl[..j.maxCode + 1] == Depths(j.dad, j.Root(), |j.dad|)[..j.maxCode + 1]
  {
    var root, d := j.Root(), Depths(j.dad, j.Root(), |j.dad|);
    forall t | 0 <= t < |j.ord| ensures !Cut(j.dad, root, j.max, j.ord[t]) { NotCut(j, t); }
    CutsNone(j.dad, root, j.max, j.ord);
    AllSteps(j);
    PassOverflow(j, |j.ord|);
    assert j.ord[..|j.ord|] == j.ord;
    forall x | 0 <= x <= j.maxCode ensures p.dl[x] == d[x] { SettledAt(j, p, x); }
  }

  lemma {:induction false} SettledAt(j: Job, p: Pass, x: nat)
    requires j.Valid() && Shallow(j) && p == PassTo(j, |j.ord|) && x <= j.maxCode
    ensures p.dl[x] == Deep(j.dad, j.Root(), x)
  {
    if x in j.used {
      PassFields(j, |j.ord|);
      var t := ListIndex(j.ord, Nodes(j.used, j.elems, j.elems + j.k), x);
      assert p.dl[j.ord[t]] == CutDepth(j.dad, j.Root(), j.max, j.ord[t]);
      CutIsMin(j.dad, j.Root(), j.max, x);
    } else {
      PassUnused(j, |j.ord|);
    }
  }

  // The root and then the finished nodes.
  ghost predicate ListOf(b: Build, ord: seq<nat>)
  {
    1 < |b.heap| && b.max <= |b.heap| && ord == [b.heap[1]] + b.heap[b.max..]
  }

  // The job is the tree that the combining loop makes of b.
  ghost predicate TreeFrom(j: Job, b: Build)
  {
    && Combining(b, j.elems, j.used) && b.node == j.elems && j.Valid()
    && ListOf(Final(b), j.ord) && j.dad == Final(b).dl && j.elems + j.k == Final(b).node
       && |Final(b).fc| == |b.fc| == |j.dad|
    && NoSons(b.depth, j.used)
    && |j.prices.fc| >= j.elems && forall x :: 0 <= x < j.elems ==> b.fc[x] == j.prices.fc[x]
  }

  lemma {:induction false} DepthsFit(j: Job, b: Build)
    requires TreeFrom(j, b)
    ensures DepthsIn(Final(b), j.elems, j.used, Depths(j.dad, j.Root(), |j.dad|))
  {
    hide Combining, Final, Nodes;
    var f, d := Final(b), Depths(j.dad, j.Root(), |j.dad|);
    forall x | x in Nodes(j.used, j.elems, f.node) && x < f.node - 1 ensures SonOf(f, d, x) { DadOf(j, x); }
    DeepBound(j.dad, j.Root(), j.Root());
  }

  lemma {:induction false} StartRoots(b: Build, elems: nat, used: set<nat>)
    requires Combining(b, elems, used) && b.node == elems
    ensures b.len < |b.heap| && multiset(Roots(b)) == multiset(used)
  {
    assert b.heap[HEAP_SIZE..] == [];
    assert Nodes(used, elems, elems) == used;
  }

  lemma {:induction false} CodePermuted(s: seq<nat>, t: seq<nat>, l: seq<nat>, m: nat)
    requires multiset(s) == multiset(t) && CodeOver(s, l, m)
    ensures CodeOver(t, l, m)
  {
    forall i | 0 <= i < |t| ensures t[i] < |l| && l[t[i]] <= m {
      assert t[i] in multiset(s);
      var k :| 0 <= k < |s| && s[k] == t[i];
    }
    SumPermuted(s, t, |l|, Share(l, m));
  }

  lemma {:induction false} PricePermuted(s: seq<nat>, t: seq<nat>, fc: seq<nat>, fc': seq<nat>, l: seq<nat>)
    requires multiset(s) == multiset(t) && |fc| == |fc'|
    requires forall i :: 0 <= i < |t| ==> t[i] < |fc| && fc[t[i]] == fc'[t[i]]
    ensures Price(s, fc, l) == Price(t, fc', l) && SumBelow(s, |fc|, Freq(fc)) == SumBelow(t, |fc|, Freq(fc'))
  {
    SumPermuted(s, t, |l|, Pay(fc, l));
    SumSame(t, |l|, Pay(fc, l), Pay(fc', l));
    SumPermuted(s, t, |fc|, Freq(fc));
    SumSame(t, |fc|, Freq(fc), Freq(fc'));
  }

  // With all codes in use for good, the depths are the cheapest lengths.
  lemma {:induction false} DepthsCheapest(j: Job, b: Build, freq: seq<nat>)
    requires TreeFrom(j, b) && |freq| == |b.fc| && FewEnough(freq, j.elems)
    requires (forall x :: 0 <= x < j.elems ==> b.fc[x] == freq[x]) && forall x: nat :: x in j.used
                                                                                       <==> x < j.elems && freq[x] != 0
    ensures NoneCheaper(freq, j.elems, Depths(j.dad, j.Root(), |j.dad|))
  {
    hide Combining, Final, Price, Freq, DepthsIn, CodeOver;
    StartRoots(b, j.elems, j.used);
    var s, r, d := Symbols(freq, j.elems), Roots(b), Depths(j.dad, j.Root(), |j.dad|);
    SymbolsAre(freq, j.elems, j.used);
    DepthsFit(j, b);
    PricePermuted(r, s, b.fc, freq, d);
    forall l: seq<nat>, m: nat | |l| == |freq| && IsCode(freq, j.elems, l, m)
      ensures TotalBits(freq, j.elems, d) <= TotalBits(freq, j.elems, l)
    {
      CodePermuted(s, r, l, m);
      TreeIsCheapest(b, j.elems, j.used, d, l, m);
      PricePermuted(r, s, b.fc, freq, l);
    }
  }

  lemma {:induction false} SumNone(s: seq<nat>, bound: nat, g: nat -> nat)
    requires forall i :: 0 <= i < |s| ==> s[i] >= bound
    ensures SumBelow(s, bound, g) == 0
  {
    if s != [] { SumNone(s[..|s| - 1], bound, g); }
  }

  // A sum over the leaves, taken from a list of all nodes.
  lemma {:induction false} SumOfLeaves(ord: seq<nat>, s: seq<nat>, bound: nat, g: nat -> nat)
    requires forall x: nat :: x < bound ==> multiset(ord)[x] == multiset(s)[x]
    ensures SumBelow(ord, bound, g) == SumBelow(s, bound, g)
    decreases |ord|
  {
    if ord == [] {
      forall i | 0 <= i < |s| ensures s[i] >= bound {
        assert s[i] in multiset(s) && (s[i] < bound ==> multiset(ord)[s[i]] == multiset(s)[s[i]]);
      }
      SumNone(s, bound, g);
    } else {
      var k := |ord| - 1;
      var o: seq<nat>, x := ord[..k], ord[k];
      assert ord == o + [x];
      if x < bound {
        assert x in multiset(s);
        var i :| 0 <= i < |s| && s[i] == x;
        var r: seq<nat> := s[..i] + s[i + 1..];
        SumWithout(s, i, bound, g);
        forall y: nat | y < bound ensures multiset(o)[y] == multiset(r)[y] {
          assert multiset(ord)[y] == multiset(s)[y];
        }
        SumOfLeaves(o, r, bound, g);
      } else {
        SumOfLeaves(o, s, bound, g);
      }
    }
  }

  lemma {:induction false} SumBound(s: seq<nat>, a: nat, b: nat, g: nat -> nat)
    requires forall i :: 0 <= i < |s| ==> s[i] < a && s[i] < b
    ensures SumBelow(s, a, g) == SumBelow(s, b, g)
  {
    if s != [] { SumBound(s[..|s| - 1], a, b, g); }
  }

  lemma {:induction false} NeverCut(j: Job, x: nat)
    requires j.Valid()
    ensures !Cut(j.dad, j.Root(), j.Root() + 1, x)
  {
    if x < j.Root() && x < |j.dad| && x < j.dad[x] <= j.Root() { DeepBound(j.dad, j.Root(), j.dad[x]); }
  }

  // The leaves of the tree have a Kraft sum of one.
  lemma {:induction false} DepthsComplete(j: Job, s: seq<nat>)
    requires j.Valid() && multiset(s) == multiset(j.used)
    ensures SumBelow(s, |j.dad|, Share(Depths(j.dad, j.Root(), |j.dad|), j.Root() + 1)) == Pow2(j.Root() + 1)
  {
    hide SonsAt, Nodes, Pow2, KraftShare, Share, Depths;
    LeavesWeighOne(j);
    LeavesOnly(j, s);
    var g := KraftShare(j.dad, j.Root(), j.Root() + 1);
    SumOfLeaves(j.ord, s, j.elems, g);
    SumBound(s, j.elems, |j.dad|, g);
    SharesAre(j, s);
  }

  lemma {:induction false} LeavesWeighOne(j: Job)
    requires j.Valid()
    ensures SumBelow(j.ord, j.elems, KraftShare(j.dad, j.Root(), j.Root() + 1)) == Pow2(j.Root() + 1)
  {
    hide Cut, Pow2, KraftShare, AtMax, One;
    var root, m := j.Root(), j.Root() + 1;
    forall t | 0 <= t < |j.ord| ensures !Cut(j.dad, root, m, j.ord[t]) { NeverCut(j, j.ord[t]); }
    CutsNone(j.dad, root, m, j.ord);
    LeavesBalanced(j.dad, j.ord, j.elems, j.k, j.used, m, root);
  }

  lemma {:induction false} SharesAre(j: Job, s: seq<nat>)
    requires j.Root() >= 0 && forall i :: 0 <= i < |s| ==> s[i] < |j.dad|
    ensures var d, m := Depths(j.dad, j.Root(), |j.dad|), j.Root() + 1;
            SumBelow(s, |j.dad|, Share(d, m)) == SumBelow(s, |j.dad|, KraftShare(j.dad, j.Root(), m))
  {
    var d, m := Depths(j.dad, j.Root(), |j.dad|), j.Root() + 1;
    SumSame(s, |j.dad|, Share(d, m), KraftShare(j.dad, j.Root(), m));
  }

  lemma {:induction false} LeavesOnly(j: Job, s: seq<nat>)
    requires j.Valid() && multiset(s) == multiset(j.used)
    ensures forall x: nat :: x < j.elems ==> multiset(j.ord)[x] == multiset(s)[x]
    ensures forall i :: 0 <= i < |s| ==> s[i] in j.used && s[i] < j.elems <= |j.dad|
  {
    var u: set<nat> := Nodes(j.used, j.elems, j.elems + j.k);
    forall x: nat | x < j.elems ensures multiset(j.ord)[x] == multiset(s)[x] {
      assert x in u <==> x in j.used;
    }
    forall i | 0 <= i < |s| ensures s[i] in j.used {
      assert s[i] in multiset(s);
    }
  }

  lemma {:induction false} LeafDepth(j: Job, x: nat)
    requires j.Valid() && x in j.used
    ensures 1 <= Deep(j.dad, j.Root(), x) <= j.Root() + 1
  {
    hide SonsAt, Deep;
    DadOf(j, x);
    DeepBound(j.dad, j.Root(), x);
  }

  lemma {:induction false} DepthsAreCode(j: Job, freq: seq<nat>)
    requires j.Valid() && |freq| == |j.dad|
    requires forall x: nat :: x in j.used <==> x < j.elems && freq[x] != 0
    ensures IsCode(freq, j.elems, Depths(j.dad, j.Root(), |j.dad|), j.Root() + 1)
  {
    hide SonsAt, Nodes, Pow2, Share, Deep, Symbols;
    var s, d := Symbols(freq, j.elems), Depths(j.dad, j.Root(), |j.dad|);
    SymbolsAre(freq, j.elems, j.used);
    DepthsComplete(j, s);
    LeavesOnly(j, s);
    forall i | 0 <= i < |s| ensures 1 <= d[s[i]] <= j.Root() + 1 { LeafDepth(j, s[i]); }
  }

  // One bit is the best there is for a symbol that is alone.
  lemma {:induction false} OneBitIsLeast(freq: seq<nat>, n: nat, d: seq<nat>)
    requires n <= |freq| == |d| && |Symbols(freq, n)| <= 1
    requires forall i :: 0 <= i < |Symbols(freq, n)| ==> d[Symbols(freq, n)[i]] == 1
    ensures Optimal(freq, n, d)
  {
    hide Symbols, SumBelow;
    var s := Symbols(freq, n);
    OneSum(s, |d|, Share(d, 1));
    OneSum(s, |d|, Pay(freq, d));
    assert Pow2(0) == 1 && Pow2(1) == 2;
    assert IsCode(freq, n, d, 1);
    forall l: seq<nat>, m: nat | |l| == |freq| && IsCode(freq, n, l, m)
      ensures TotalBits(freq, n, d) <= TotalBits(freq, n, l)
    {
      OneSum(s, |l|, Pay(freq, l));
      if s != [] { assert freq[s[0]] * 1 <= freq[s[0]] * l[s[0]]; }
    }
  }

  // At most one symbol occurs, and it gets one bit.
  lemma {:induction false} LoneSymbol(j: Job, freq: seq<nat>)
    requires j.Valid() && |freq| == |j.dad| && |j.used| == 2 && |Symbols(freq, j.elems)| <= 1
    requires forall x: nat :: x < j.elems && freq[x] != 0 ==> x in j.used
    ensures Optimal(freq, j.elems, Depths(j.dad, j.Root(), |j.dad|))
  {
    hide Optimal, Deep;
    var s, d := Symbols(freq, j.elems), Depths(j.dad, j.Root(), |j.dad|);
    forall i | 0 <= i < |s| ensures d[s[i]] == 1 {
      DadOf(j, s[i]);
      DeepBound(j.dad, j.Root(), j.Root());
    }
    OneBitIsLeast(freq, j.elems, d);
  }

  // The depths are the lengths of an optimal code.
  lemma {:induction false} DepthsOptimal(j: Job, b: Build, freq: seq<nat>, forced: seq<nat>)
    requires TreeFrom(j, b) && |freq| == |b.fc| && Forced(freq, j, forced) && FewEnough(freq, j.elems)
    ensures Optimal(freq, j.elems, Depths(j.dad, j.Root(), |j.dad|))
  {
    hide IsCode, NoneCheaper, Depths, FewEnough, Combining, Final, Job.Valid;
    if forced == [] {
      DepthsCheapest(j, b, freq);
      DepthsAreCode(j, freq);
    } else {
      FewSymbols(freq, j, forced);
      LoneSymbol(j, freq);
    }
  }

  lemma {:induction false} FewSymbols(freq: seq<nat>, j: Job, forced: seq<nat>)
    requires Forced(freq, j, forced) && forced != []
    ensures |Symbols(freq, j.elems)| <= 1
  {
    var u := set x: nat | x < j.elems && freq[x] != 0;
    SymbolsAre(freq, j.elems, u);
    assert u <= j.used - {forced[0]};
    Subset(u, j.used - {forced[0]});
  }

  lemma {:induction false} Subset(a: set<nat>, b: set<nat>)
    requires a <= b
    ensures |a| <= |b|
  {
    assert b == a + (b - a);
  }

  // lens has a codeword for every symbol that occurs.
  ghost predicate Serves(freq: seq<nat>, n: nat, lens: seq<nat>)
    requires n <= |freq|
  {
    |lens| <= n && LengthsBounded(lens) && forall x :: 0 <= x < n && freq[x] != 0 ==> x < |lens| && lens[x] >= 1
  }

  // The price of a tree: the codewords and the extra bits.
  lemma {:induction false} CostIsTotal(freq: seq<nat>, lens: seq<nat>, l: seq<nat>, xb: seq<nat>)
    requires |lens| <= |freq| == |l| && |lens| <= |xb| && lens == l[..|lens|] && Serves(freq, |lens|, lens)
    ensures Cost(freq, lens, xb)
            == TotalBits(freq, |lens|, l) + SumBelow(Symbols(freq, |lens|), |freq|, Pay(freq, xb))
    decreases |lens|
  {
    if lens != [] {
      var k := |lens| - 1;
      CostIsTotal(freq, lens[..k], l, xb);
      SymbolsSum(freq, k, |l|, Pay(freq, l));
      SymbolsSum(freq, k, |freq|, Pay(freq, xb));
      Distribute(freq[k], lens[k], xb[k]);
    }
  }

  lemma {:induction false} Distribute(f: nat, l: nat, x: nat)
    ensures f * (l + x) == f * l + f * x
  {
  }

  lemma {:induction false} SymbolsEnd(freq: seq<nat>, k: nat, n: nat)
    requires k <= n <= |freq| && forall x :: k <= x < n ==> freq[x] == 0
    ensures Symbols(freq, n) == Symbols(freq, k)
  {
    if k < n { SymbolsEnd(freq, k, n - 1); }
  }

  ghost function Counts(lens: seq<nat>): (bl: seq<nat>)
    ensures CountsMatch(bl, lens)
  {
    seq(MAX_BITS + 1, l requires l >= 0 => if l == 0 then 0 else Count(lens, l))
  }

  lemma {:induction false} CountsSnoc(lens: seq<nat>, b: nat)
    requires b <= MAX_BITS
    ensures Counts(lens + [b]) == if b == 0 then Counts(lens) else Counts(lens)[b := Counts(lens)[b] + 1]
  {
    var c, c' := Counts(lens), Counts(lens + [b]);
    assert (lens + [b])[..|lens|] == lens;
  }

  // The symbols that occur have no larger Kraft sum than all codewords.
  lemma {:induction false} SharesWithin(freq: seq<nat>, lens: seq<nat>, l: seq<nat>)
    requires |lens| <= |freq| == |l| && lens == l[..|lens|] && Serves(freq, |lens|, lens)
    ensures SumBelow(Symbols(freq, |lens|), |l|, Share(l, MAX_BITS)) <= KraftSum(Counts(lens), MAX_BITS, MAX_BITS)
    decreases |lens|
  {
    if lens != [] {
      var k := |lens| - 1;
      SharesWithin(freq, lens[..k], l);
      assert lens == lens[..k] + [lens[k]];
      hide KraftSum, Counts, Symbols, Serves, Count;
      KraftSnoc(lens[..k], lens[k]);
      SymbolsSum(freq, k, |l|, Share(l, MAX_BITS));
    }
  }

  lemma {:induction false} KraftSnoc(lens: seq<nat>, b: nat)
    requires b <= MAX_BITS
    ensures KraftSum(Counts(lens + [b]), MAX_BITS, MAX_BITS)
            == KraftSum(Counts(lens), MAX_BITS, MAX_BITS) + if b == 0 then 0 else Pow2(MAX_BITS - b)
  {
    hide KraftSum, Count;
    CountsSnoc(lens, b);
    if b > 0 {
      CountMore(Counts(lens), MAX_BITS, MAX_BITS, b, 1);
      ShlOne(MAX_BITS - b);
    }
  }

  lemma {:induction false} SymbolsSum(freq: seq<nat>, k: nat, bound: nat, g: nat -> nat)
    requires k < |freq| && k < bound
    ensures SumBelow(Symbols(freq, k + 1), bound, g)
            == SumBelow(Symbols(freq, k), bound, g) + if freq[k] != 0 then g(k) else 0
  {
    if freq[k] != 0 {
      SumSnoc(Symbols(freq, k), k, bound, g);
    } else {
      assert Symbols(freq, k + 1) == Symbols(freq, k);
    }
  }

  // A decodable code is a code in this sense.
  lemma {:induction false} PrefixableIsCode(freq: seq<nat>, n: nat, lens: seq<nat>, l: seq<nat>)
    requires n <= |freq| == |l| && Serves(freq, n, lens) && Prefixable(lens) && lens == l[..|lens|]
    ensures IsCode(freq, n, l, MAX_BITS)
  {
    SymbolsEnd(freq, |lens|, n);
    SharesWithin(freq, lens, l);
    FirstCodeIsKraft(Counts(lens), lens, MAX_BITS, MAX_BITS);
    Pow2Small();
  }

  // Among all decodable codes for the symbols that occur, the optimal one costs least, extra
  // bits included.
  lemma {:induction false} LeastCost(freq: seq<nat>, n: nat, lens: seq<nat>, huff: seq<nat>, other: seq<nat>,
      xb: seq<nat>)
    requires n <= |freq| && n <= |xb| && Optimal(freq, n, huff) && Serves(freq, n, lens) && lens == huff[..|lens|]
    requires Serves(freq, n, other) && Prefixable(other)
    ensures Cost(freq, lens, xb) <= Cost(freq, other, xb)
  {
    hide Cost, IsCode, TotalBits, Prefixable, Symbols;
    var l := other + seq(|freq| - |other|, _ => 0);
    assert l[..|other|] == other;
    PrefixableIsCode(freq, n, other, l);
    CostIsTotal(freq, lens, huff, xb);
    CostIsTotal(freq, other, l, xb);
    SymbolsEnd(freq, |lens|, n);
    SymbolsEnd(freq, |other|, n);
    SameTotals(freq, n, |lens|, huff);
    SameTotals(freq, n, |other|, l);
  }

  lemma {:induction false} SameTotals(freq: seq<nat>, n: nat, k: nat, l: seq<nat>)
    requires k <= n <= |freq| && Symbols(freq, n) == Symbols(freq, k)
    ensures TotalBits(freq, n, l) == TotalBits(freq, k, l)
  {
  }

  // How often all symbols together occur.
  ghost function TotalOf(freq: seq<nat>, n: nat): nat
    requires n <= |freq|
  {
    SumBelow(Symbols(freq, n), |freq|, Freq(freq))
  }

  // No codeword longer than max.
  ghost predicate Keeps(freq: seq<nat>, n: nat, lens: seq<nat>, max: nat)
    requires n <= |freq|
  {
    forall i :: 0 <= i < |Symbols(freq, n)| ==> Symbols(freq, n)[i] < |lens| && lens[Symbols(freq, n)[i]] <= max
  }

  // Some optimal code keeps the limit.
  ghost predicate Attainable(freq: seq<nat>, n: nat, max: nat)
    requires n <= |freq|
  {
    exists l: seq<nat> :: Optimal(freq, n, l) && Keeps(freq, n, l, max)
  }

  // The lengths are optimal exactly if any lengths within the limit are; below a Fibonacci
  // number of occurrences they always are.
  ghost predicate OptimalWhereAttainable(freq: seq<nat>, n: nat, max: nat, lens: seq<nat>)
  {
    && n <= |freq| == |lens|
    && (FewEnough(freq, n) ==>
          (Optimal(freq, n, lens) <==> Attainable(freq, n, max))
          && (TotalOf(freq, n) < Fib(max + 3) ==> Optimal(freq, n, lens)))
  }

  // All this depends on the first n frequencies alone.
  lemma {:induction false} SymbolsSlice(f: seq<nat>, g: seq<nat>, n: nat)
    requires n <= |f| && n <= |g| && f[..n] == g[..n]
    ensures Symbols(f, n) == Symbols(g, n)
  {
    if n != 0 {
      assert f[..n - 1] == f[..n][..n - 1] == g[..n][..n - 1] == g[..n - 1];
      assert f[n - 1] == f[..n][n - 1] == g[..n][n - 1] == g[n - 1];
      SymbolsSlice(f, g, n - 1);
    }
  }

  function Resized(l: seq<nat>, n: nat, k: nat): (r: seq<nat>)
    requires n <= |l| && n <= k
    ensures |r| == k && r[..n] == l[..n]
  {
    l[..n] + seq(k - n, _ => 0)
  }

  // Lengths that agree on the first n symbols make the same code, whatever stands behind.
  lemma {:induction false} CodeSlice(f: seq<nat>, g: seq<nat>, n: nat, l: seq<nat>, l': seq<nat>)
    requires n <= |f| == |l| && n <= |g| == |l'| && f[..n] == g[..n] && l[..n] == l'[..n]
    ensures TotalBits(f, n, l) == TotalBits(g, n, l') && forall m: nat :: IsCode(f, n, l, m) <==> IsCode(g, n, l', m)
  {
    hide Symbols;
    var s := Symbols(f, n);
    SymbolsSlice(f, g, n);
    forall i | 0 <= i < |s| ensures f[s[i]] == g[s[i]] && l[s[i]] == l'[s[i]] {
      assert f[..n][s[i]] == g[..n][s[i]] && l[..n][s[i]] == l'[..n][s[i]];
    }
    SumBound(s, |l|, |l'|, Pay(f, l));
    SumSame(s, |l'|, Pay(f, l), Pay(g, l'));
    forall m: nat ensures IsCode(f, n, l, m) <==> IsCode(g, n, l', m) {
      SumBound(s, |l|, |l'|, Share(l, m));
      SumSame(s, |l'|, Share(l, m), Share(l', m));
    }
  }

  lemma {:induction false} OptimalSlice(f: seq<nat>, g: seq<nat>, n: nat, l: seq<nat>)
    requires n <= |f| && n <= |g| && f[..n] == g[..n] && Optimal(f, n, l)
    ensures Optimal(g, n, Resized(l, n, |g|))
  {
    hide IsCode, TotalBits;
    var l' := Resized(l, n, |g|);
    CodeSlice(f, g, n, l, l');
    var m: nat :| IsCode(f, n, l, m);
    assert IsCode(g, n, l', m);
    forall k': seq<nat>, m: nat | |k'| == |g| && IsCode(g, n, k', m)
      ensures TotalBits(g, n, l') <= TotalBits(g, n, k')
    {
      var k := Resized(k', n, |f|);
      CodeSlice(f, g, n, k, k');
      assert IsCode(f, n, k, m);
    }
  }

  lemma {:induction false} AttainableSlice(f: seq<nat>, g: seq<nat>, n: nat, max: nat)
    requires n <= |f| && n <= |g| && f[..n] == g[..n] && Attainable(f, n, max)
    ensures Attainable(g, n, max)
  {
    hide Optimal, Symbols;
    var l: seq<nat> :| Optimal(f, n, l) && Keeps(f, n, l, max);
    OptimalSize(f, n, l);
    var l' := Resized(l, n, |g|);
    OptimalSlice(f, g, n, l);
    SymbolsSlice(f, g, n);
    var s := Symbols(f, n);
    forall i | 0 <= i < |s| ensures s[i] < |l'| && l'[s[i]] <= max {
      assert l'[..n][s[i]] == l[..n][s[i]];
    }
    assert Keeps(g, n, l', max);
  }

  lemma {:induction false} OptimalSize(freq: seq<nat>, n: nat, l: seq<nat>)
    requires n <= |freq| && Optimal(freq, n, l)
    ensures |l| == |freq|
  {
  }

  // Optimal is a matter of the symbols that occur.
  lemma {:induction false} OptimalSame(freq: seq<nat>, n: nat, a: seq<nat>, b: seq<nat>)
    requires n <= |freq| && Optimal(freq, n, a) && |b| == |freq|
    requires forall i :: 0 <= i < |Symbols(freq, n)| ==> a[Symbols(freq, n)[i]] == b[Symbols(freq, n)[i]]
    ensures Optimal(freq, n, b)
  {
    hide Symbols, SumBelow;
    var s := Symbols(freq, n);
    SumSame(s, |b|, Pay(freq, a), Pay(freq, b));
    var m: nat :| IsCode(freq, n, a, m);
    SumSame(s, |b|, Share(a, m), Share(b, m));
    assert IsCode(freq, n, b, m);
  }

  lemma {:induction false} ForcedAt(fc: seq<nat>, forced: seq<nat>, x: nat)
    requires (forall i :: 0 <= i < |forced| ==> forced[i] < |fc|) && x in forced
    ensures x < |fc| && Force(fc, forced)[x] == 1
  {
    var k := |forced| - 1;
    if x != forced[k] {
      assert forced == forced[..k] + [forced[k]];
      ForcedAt(fc, forced[..k], x);
    }
  }

  // What takes part has a frequency.
  lemma {:induction false} UsedPositive(j: Job, freq: seq<nat>, forced: seq<nat>, x: nat)
    requires Forced(freq, j, forced) && x in j.used
    ensures x < j.elems && j.prices.fc[x] >= 1
  {
    if x in forced {
      ForcedAt(freq, forced, x);
    } else {
      ForceOthers(freq, forced, x);
    }
  }

  // The heap before the first round.
  lemma {:induction false} StartGrown(j: Job, b: Build, freq: seq<nat>, forced: seq<nat>)
    requires TreeFrom(j, b) && Forced(freq, j, forced)
    ensures b.len < |b.heap| && Positive(b) && Grown(b, 1) && Tiered(b, j.elems, j.used)
    ensures forall i :: 0 <= i < b.len ==> Roots(b)[i] in j.used
  {
    hide Combining, Final, Job.Valid, Forced, Force;
    RootsDistinct(b, j.elems, j.used);
    StartRoots(b, j.elems, j.used);
    var s: seq<nat> := Roots(b);
    forall i | 0 <= i < b.len ensures s[i] in j.used && s[i] < |b.fc| && b.fc[s[i]] >= 1 && GrownAt(b, 1, s[i]) {
      assert s[i] in multiset(s);
      UsedPositive(j, freq, forced, s[i]);
      assert Fib(1) == 1 && Fib(2) == 1;
    }
    forall x | x in Nodes(j.used, j.elems, b.node) ensures x in s {
      assert x in multiset(j.used);
    }
  }

  // No node lies deeper than the height of the root allows.
  lemma {:induction false} UnderRoot(j: Job, b: Build, x: nat)
    requires TreeFrom(j, b) && Final(b).len == 1 < |Final(b).heap| && Final(b).heap[1] == j.Root()
    requires Tiered(Final(b), j.elems, j.used) && x in Nodes(j.used, j.elems, j.elems + j.k)
    requires j.Root() < |Final(b).depth|
    ensures x != j.Root() ==> x < |Final(b).depth|
    ensures x != j.Root() ==> Deep(j.dad, j.Root(), x) + Final(b).depth[x] <= Final(b).depth[j.Root()]
    decreases j.Root() - x
  {
    hide Combining, Final, Deep, Job.Valid, Nodes, Grown;
    var f := Final(b);
    if x != j.Root() {
      DadOf(j, x);
      assert Roots(f)[0] == j.Root();
      assert TieredAt(f, x);
      RootDeep(j);
      if j.dad[x] != j.Root() {
        DadIsNode(j, x);
        UnderRoot(j, b, j.dad[x]);
      }
    }
  }

  lemma {:induction false} RootDeep(j: Job)
    requires j.Valid()
    ensures j.Root() >= 0 && Deep(j.dad, j.Root(), j.Root()) == 0
  {
    hide TreeList;
    DeepBound(j.dad, j.Root(), j.Root());
  }

  lemma {:induction false} DadIsNode(j: Job, x: nat)
    requires j.Valid() && x in Nodes(j.used, j.elems, j.elems + j.k) && x != j.Root()
    ensures x < |j.dad| && x < j.dad[x] <= j.Root() && j.dad[x] in Nodes(j.used, j.elems, j.elems + j.k)
  {
    hide Deep, SonsAt;
    DadOf(j, x);
  }

  // A root no higher than the limit has no leaf below it.
  lemma {:induction false} LowRootShallow(j: Job, b: Build, freq: seq<nat>, forced: seq<nat>)
    requires TreeFrom(j, b) && Forced(freq, j, forced) && Light(b)
    requires var f := Final(b); 1 < |f.heap| && f.heap[1] < |f.depth| && f.depth[f.heap[1]] <= j.max
    ensures j.Root() >= 0 && Shallow(j)
  {
    hide Combining, Forced, Light, Deep, Grown, Tiered, Nodes, SonsAt;
    StartGrown(j, b, freq, forced);
    FinalTiered(b, j.elems, j.used, 1);
    FinalKeeps(b, j.elems, j.used);
    LastIsRoot(Final(b), j.elems, j.used);
    forall x | x in j.used ensures Deep(j.dad, j.Root(), x) <= j.max {
      UsedIsNode(j, x);
      UnderRoot(j, b, x);
    }
  }

  lemma {:induction false} UsedIsNode(j: Job, x: nat)
    requires j.Valid() && x in j.used
    ensures x in Nodes(j.used, j.elems, j.elems + j.k) && x != j.Root() && j.Root() >= 0
  {
  }

  // The heap before the first round holds the symbols that occur, if no code was forced.
  lemma {:induction false} StartSymbols(j: Job, b: Build, freq: seq<nat>, forced: seq<nat>)
    requires TreeFrom(j, b) && |freq| == |b.fc| && Forced(freq, j, forced) && forced == []
    ensures b.len < |b.heap| && multiset(Roots(b)) == multiset(Symbols(freq, j.elems))
    ensures forall i :: 0 <= i < |Symbols(freq, j.elems)| ==>
              Symbols(freq, j.elems)[i] < |b.fc|
              && b.fc[Symbols(freq, j.elems)[i]] == freq[Symbols(freq, j.elems)[i]]
    ensures SumBelow(Roots(b), |b.fc|, Freq(b.fc)) == TotalOf(freq, j.elems)
  {
    hide Combining, Final, Price, Freq, Job.Valid, Symbols;
    StartRoots(b, j.elems, j.used);
    SymbolsAre(freq, j.elems, j.used);
    PricePermuted(Roots(b), Symbols(freq, j.elems), b.fc, freq, freq);
  }

  lemma {:induction false} LightFrom(j: Job, b: Build, freq: seq<nat>, forced: seq<nat>)
    requires TreeFrom(j, b) && |freq| == |b.fc| && Forced(freq, j, forced) && forced == [] && FewEnough(freq, j.elems)
    ensures b.len < |b.heap| && Light(b)
  {
    hide Combining, Final, Job.Valid, Symbols, SumBelow, Forced;
    StartSymbols(j, b, freq, forced);
  }

  // If some optimal code keeps the limit, so does the tree.
  lemma {:induction false} AttainableShallow(j: Job, b: Build, freq: seq<nat>, l: seq<nat>)
    requires TreeFrom(j, b) && |freq| == |b.fc| && Forced(freq, j, []) && FewEnough(freq, j.elems)
    requires Optimal(freq, j.elems, l) && Keeps(freq, j.elems, l, j.max)
    ensures j.Root() >= 0 && Shallow(j)
  {
    hide Combining, Final, Job.Valid, Symbols, ForcedSet, Force, Price, DepthsIn, NoneCheaper, Grown, Tiered, Reaches;
    hide Shallow, FewEnough, Positive;
    var s := Symbols(freq, j.elems);
    LightFrom(j, b, freq, []);
    StartSymbols(j, b, freq, []);
    StartGrown(j, b, freq, []);
    var m: nat :| IsCode(freq, j.elems, l, m);
    CodePermuted(s, Roots(b), l, m);
    SamePrice(j, b, freq, l);
    StartReaches(j, b, freq, l);
    NoDeeper(b, j.elems, j.used, l, m, j.max);
    LowRootShallow(j, b, freq, []);
  }

  // An optimal code costs what the joins cost.
  lemma {:induction false} SamePrice(j: Job, b: Build, freq: seq<nat>, l: seq<nat>)
    requires TreeFrom(j, b) && |freq| == |b.fc| && Forced(freq, j, []) && FewEnough(freq, j.elems)
    requires Optimal(freq, j.elems, l)
    ensures b.len < |b.heap| && Price(Roots(b), b.fc, l) == Joins(b)
  {
    hide Combining, Final, Job.Valid, Symbols, Price, DepthsIn, FewEnough, IsCode, Deep;
    RootDeep(j);
    var s, d := Symbols(freq, j.elems), Depths(j.dad, j.Root(), |j.dad|);
    LightFrom(j, b, freq, []);
    StartSymbols(j, b, freq, []);
    DepthsOptimal(j, b, freq, []);
    DepthsFit(j, b);
    DepthPrice(b, j.elems, j.used, d);
    PricePermuted(Roots(b), s, b.fc, freq, d);
    PricePermuted(Roots(b), s, b.fc, freq, l);
    EquallyCheap(freq, j.elems, d, l);
  }

  lemma {:induction false} EquallyCheap(freq: seq<nat>, n: nat, a: seq<nat>, b: seq<nat>)
    requires n <= |freq| && Optimal(freq, n, a) && Optimal(freq, n, b)
    ensures TotalBits(freq, n, a) == TotalBits(freq, n, b)
  {
    hide IsCode, TotalBits;
    var m: nat :| IsCode(freq, n, a, m);
    var m': nat :| IsCode(freq, n, b, m');
  }

  lemma {:induction false} StartReaches(j: Job, b: Build, freq: seq<nat>, l: seq<nat>)
    requires TreeFrom(j, b) && |freq| == |b.fc| && Forced(freq, j, []) && Keeps(freq, j.elems, l, j.max)
    ensures b.len < |b.heap| && Reaches(b, l, j.max)
  {
    hide Combining, Final, Job.Valid, Symbols, ForcedSet, Force;
    StartSymbols(j, b, freq, []);
    StartGrown(j, b, freq, []);
    var r: seq<nat>, s: seq<nat> := Roots(b), Symbols(freq, j.elems);
    forall i | 0 <= i < b.len ensures r[i] < |l| && l[r[i]] <= j.max {
      assert r[i] in multiset(s);
      var k :| 0 <= k < |s| && s[k] == r[i];
    }
  }

  // With few occurrences the tree keeps the limit in any case.
  lemma {:induction false} FewShallow(j: Job, b: Build, freq: seq<nat>)
    requires TreeFrom(j, b) && |freq| == |b.fc| && Forced(freq, j, []) && FewEnough(freq, j.elems)
    requires TotalOf(freq, j.elems) < Fib(j.max + 3)
    ensures j.Root() >= 0 && Shallow(j)
  {
    hide Combining, Final, Job.Valid, Symbols, Forced, Fib, Shallow, FewEnough, Tiered, Positive, Grown;
    LightFrom(j, b, freq, []);
    StartSymbols(j, b, freq, []);
    StartGrown(j, b, freq, []);
    FinalGrown(b, j.elems, j.used, 1);
    var f := Final(b);
    var h := f.depth[f.heap[1]];
    if h > j.max { FibMono(j.max + 3, h + 2); }
    LowRootShallow(j, b, freq, []);
  }

  // Two leaves have one bit each.
  lemma {:induction false} ForcedShallow(j: Job)
    requires j.Valid() && |j.used| == 2
    ensures j.Root() >= 0 && Shallow(j)
  {
    hide Deep;
    forall x | x in j.used ensures Deep(j.dad, j.Root(), x) <= j.max {
      DadOf(j, x);
      RootDeep(j);
    }
  }

  // If the tree keeps the limit, the lengths are its depths and optimal.
  lemma {:induction false} ShallowOptimal(j: Job, b: Build, freq: seq<nat>, forced: seq<nat>, dl: seq<nat>)
    requires TreeFrom(j, b) && |freq| == |b.fc| == |dl| && Forced(freq, j, forced) && FewEnough(freq, j.elems)
    requires InRange(j) && (PassTo(j, |j.ord|).overflow == 0 ==> dl == PassTo(j, |j.ord|).dl)
    requires j.Root() >= 0 && Shallow(j)
    ensures Optimal(freq, j.elems, dl)
  {
    hide Optimal, FewEnough, PassTo, Combining, Final, Deep, Shallow, Symbols, Force;
    var d, s := Depths(j.dad, j.Root(), |j.dad|), Symbols(freq, j.elems);
    DepthsOptimal(j, b, freq, forced);
    FirstPassSettles(j, PassTo(j, |j.ord|));
    forall i | 0 <= i < |s| ensures d[s[i]] == dl[s[i]] {
      assert s[i] in j.used && s[i] <= j.maxCode;
      assert dl[..j.maxCode + 1][s[i]] == d[..j.maxCode + 1][s[i]];
    }
    OptimalSame(freq, j.elems, d, dl);
  }

  lemma {:induction false} TreeIsOptimal(j: Job, b: Build, freq: seq<nat>, forced: seq<nat>, dl: seq<nat>)
    requires TreeFrom(j, b) && |freq| == |b.fc| == |dl| && Forced(freq, j, forced)
    requires InRange(j) && (PassTo(j, |j.ord|).overflow == 0 ==> dl == PassTo(j, |j.ord|).dl)
    requires Keeps(freq, j.elems, dl, j.max)
    ensures OptimalWhereAttainable(freq, j.elems, j.max, dl)
  {
    hide Optimal, FewEnough, PassTo, Combining, Final, Deep, Shallow, TotalOf, Fib, Keeps;
    if FewEnough(freq, j.elems) {
      if forced != [] {
        ForcedShallow(j);
        ShallowOptimal(j, b, freq, forced, dl);
      } else {
        if l: seq<nat> :| Optimal(freq, j.elems, l) && Keeps(freq, j.elems, l, j.max) {
          AttainableShallow(j, b, freq, l);
          ShallowOptimal(j, b, freq, forced, dl);
        }
        if TotalOf(freq, j.elems) < Fib(j.max + 3) {
          FewShallow(j, b, freq);
          ShallowOptimal(j, b, freq, forced, dl);
        }
      }
    }
  }
}
