/** How deep the tree of the combining loop is. Ties between frequencies go to the lower subtree,
    so no cheapest code has its longest word shorter than the tree is deep; and the frequencies
    grow like the Fibonacci numbers from level to level. */
module HuffmanDepth {
  import opened Bits
  import opened HuffmanHeap
  import opened HuffmanTree
  import opened BitLengths
  import opened HuffmanOptimal

  // With the subtrees under the nodes in the heap, no path is longer than the bound.
  ghost predicate Reaches(b: Build, l: seq<nat>, bound: nat)
    requires b.len < |b.heap|
  {
    forall i :: 0 <= i < b.len ==> Roots(b)[i] < |l| && Roots(b)[i] < |b.depth|
                                   && l[Roots(b)[i]] + b.depth[Roots(b)[i]] <= bound
  }

  ghost predicate Positive(b: Build)
    requires b.len < |b.heap|
  {
    forall i :: 0 <= i < b.len ==> Roots(b)[i] < |b.fc| && b.fc[Roots(b)[i]] >= 1
  }

  // The exact gain of an exchange.
  lemma {:induction false} ExchangeGain(s: seq<nat>, fc: seq<nat>, l: seq<nat>, i: nat, j: nat, l': seq<nat>)
    requires Distinct(s) && |fc| == |l| && i < |s| && j < |s| && s[i] < |l| && s[j] < |l|
    requires l' == l[s[i] := l[s[j]]][s[j] := l[s[i]]]
    ensures Price(s, fc, l') + fc[s[i]] * l[s[i]] + fc[s[j]] * l[s[j]]
            == Price(s, fc, l) + fc[s[i]] * l[s[j]] + fc[s[j]] * l[s[i]]
  {
    if i == j {
      assert l' == l;
    } else {
      var mid := l[s[i] := l[s[j]]];
      Others(s, i);
      Others(s, j);
      SumChange(s, i, |l|, Pay(fc, l), Pay(fc, mid));
      SumChange(s, j, |l|, Pay(fc, mid), Pay(fc, l'));
    }
  }

  // An exchange without a gain is one between equals.
  lemma {:induction false} NoGain(fx: nat, fy: nat, lx: nat, ly: nat)
    requires fx <= fy && lx <= ly && fx * lx + fy * ly <= fx * ly + fy * lx
    ensures fx == fy || lx == ly
  {
    assert (fy - fx) * (ly - lx) == fy * ly - fy * lx - fx * ly + fx * lx;
    if fx < fy { NoProduct(fy - fx, ly - lx); }
  }

  lemma {:induction false} NoProduct(a: nat, b: nat)
    requires a >= 1 && a * b <= 0
    ensures b == 0
  {
    assert a * b >= b;
  }

  // Bringing node i down to the longest length in exchange for node j keeps every path short.
  lemma {:induction false} ExchangeReaches(b: Build, l: seq<nat>, i: nat, j: nat, l': seq<nat>, bound: nat)
    requires b.len < |b.heap| && Distinct(Roots(b)) && Reaches(b, l, bound) && i < b.len && j < b.len
    requires |l| == |b.fc| && l' == l[Roots(b)[i] := l[Roots(b)[j]]][Roots(b)[j] := l[Roots(b)[i]]]
    requires l[Roots(b)[i]] <= l[Roots(b)[j]]
    requires l[Roots(b)[i]] == l[Roots(b)[j]] || b.depth[Roots(b)[i]] <= b.depth[Roots(b)[j]]
    ensures Reaches(b, l', bound)
  {
    var s := Roots(b);
    if l[s[i]] == l[s[j]] {
      assert l' == l;
    } else {
      forall k | 0 <= k < b.len ensures l'[s[k]] + b.depth[s[k]] <= bound {
        if k != i && k != j { OthersToo(s, i, k); OthersToo(s, j, k); }
      }
    }
  }

  lemma {:induction false} OthersToo(s: seq<nat>, i: nat, k: nat)
    requires Distinct(s) && i < |s| && k < |s| && i != k
    ensures s[i] != s[k]
  {
    Others(s, i);
  }

  // Between equal frequencies the lower subtree counts as the smaller one.
  lemma {:induction false} TieOrder(b: Build, elems: nat, used: set<nat>, t: nat, i: nat)
    requires Combining(b, elems, used) && b.len >= 2 && StepOk(b) && 1 <= t < b.len && Roots(b)[t] == Removed(b)[1]
    requires i < b.len
    ensures |b.depth| == HEAP_SIZE && (forall k :: 0 <= k < b.len ==> Roots(b)[k] < |b.fc| <= |b.depth|)
    ensures KeyAtMost(b.fc[Roots(b)[0]], b.depth[Roots(b)[0]], b.fc[Roots(b)[i]], b.depth[Roots(b)[i]])
    ensures i >= 1 ==> KeyAtMost(b.fc[Roots(b)[t]], b.depth[Roots(b)[t]], b.fc[Roots(b)[i]], b.depth[Roots(b)[i]])
  {
    hide Removed, HeapFrom, Forest;
    StepKeeps(b, elems, used);
    assert Smaller(b.fc, b.depth, b.heap[1], b.heap[i + 1]);
    if i >= 1 { assert Smaller(b.fc, b.depth, Removed(b)[1], b.heap[i + 1]); }
  }

  // A node i that is not larger than node j goes down for it in a cheapest code.
  lemma {:induction false} GoesDown(b: Build, elems: nat, used: set<nat>, l: seq<nat>, m: nat, i: nat, j: nat,
      bound: nat, l': seq<nat>)
    requires Combining(b, elems, used) && Light(b) && |l| == |b.fc| && CodeOver(Roots(b), l, m)
    requires Price(Roots(b), b.fc, l) == Joins(b) && Reaches(b, l, bound) && i < b.len && j < b.len
    requires Roots(b)[i] < |b.fc| <= |b.depth| && Roots(b)[j] < |b.fc|
    requires KeyAtMost(b.fc[Roots(b)[i]], b.depth[Roots(b)[i]], b.fc[Roots(b)[j]], b.depth[Roots(b)[j]])
    requires l[Roots(b)[j]] == m && l' == l[Roots(b)[i] := l[Roots(b)[j]]][Roots(b)[j] := l[Roots(b)[i]]]
    ensures CodeOver(Roots(b), l', m) && Price(Roots(b), b.fc, l') == Joins(b) && Reaches(b, l', bound)
    ensures l'[Roots(b)[i]] == m
  {
    hide Combining, Light, Price, CodeOver, Reaches;
    RootsDistinct(b, elems, used);
    var s := Roots(b);
    LengthsKept(s, l, m);
    Exchange(s, b.fc, l, m, i, j, l');
    NoCheaper(b, elems, used, l', m);
    ExchangeGain(s, b.fc, l, i, j, l');
    NoGain(b.fc[s[i]], b.fc[s[j]], l[s[i]], l[s[j]]);
    ExchangeReaches(b, l, i, j, l', bound);
  }

  lemma {:induction false} StepDepth(b: Build)
    requires StepOk(b)
    ensures b.node < |b.depth| && b.heap[1] < |b.depth| && Removed(b)[1] < |b.depth|
    ensures |Step(b).depth| == |b.depth| && Step(b).len == b.len - 1 && Step(b).node == b.node + 1
    ensures Step(b).depth == b.depth[b.node := FatherDepth(b.depth[b.heap[1]], b.depth[Removed(b)[1]])]
  {
    hide Sink, Low;
  }

  lemma {:induction false} LowAtMost(v: nat, n: nat)
    ensures Low(v, n) <= v
  {
    if n != 0 { LowAtMost(v / 2, n - 1); }
  }

  // Paths stay as short when two brothers at the longest length become one node.
  lemma {:induction false} MergeReaches(b: Build, elems: nat, used: set<nat>, l: seq<nat>, m: nat, t: nat, bound: nat,
      l': seq<nat>)
    requires Combining(b, elems, used) && b.len >= 2 && |l| == |b.fc| && Reaches(b, l, bound) && m >= 1
    requires StepOk(b) && Step(b).len < |Step(b).heap| && 1 <= t < b.len && Roots(b)[t] == Removed(b)[1]
    requires Roots(b)[t] < |l| && Roots(b)[0] < |l| && l[Roots(b)[0]] == m == l[Roots(b)[t]]
    requires b.node < |l| && l' == l[b.node := m - 1]
    ensures Reaches(Step(b), l', bound)
  {
    hide Combining, Step, Removed, StepOk;
    RootsDistinct(b, elems, used);
    StepDepth(b);
    var s, s' := Roots(b), Roots(Step(b));
    var x, y := b.depth[s[0]], b.depth[s[t]];
    LowAtMost((if x >= y then x else y) + 1, 8);
    forall i | 0 <= i < |s'|
      ensures s'[i] < |l'| && s'[i] < |Step(b).depth| && l'[s'[i]] + Step(b).depth[s'[i]] <= bound
    {
      RootAfter(b, elems, used, s'[i]);
      if s'[i] != b.node {
        var k :| 0 <= k < |s| && s[k] == s'[i];
        assert l[s[k]] + b.depth[s[k]] <= bound;
      } else {
        assert l[s[0]] + b.depth[s[0]] <= bound && l[s[t]] + b.depth[s[t]] <= bound;
      }
    }
  }

  lemma {:induction false} PositiveStep(b: Build, elems: nat, used: set<nat>)
    requires Combining(b, elems, used) && b.len >= 2 && Light(b) && Positive(b)
    ensures StepOk(b) && Step(b).len < |Step(b).heap| && Positive(Step(b))
  {
    hide Combining, Step, Removed, StepOk, Light;
    LightStep(b, elems, used);
    RootsDistinct(b, elems, used);
    var t := SonsAmong(b, elems, used);
    var s, s' := Roots(b), Roots(Step(b));
    forall i | 0 <= i < |s'| ensures s'[i] < |Step(b).fc| && Step(b).fc[s'[i]] >= 1 {
      RootAfter(b, elems, used, s'[i]);
      if s'[i] != b.node {
        var k :| 0 <= k < |s| && s[k] == s'[i];
        assert b.fc[s[k]] >= 1;
      } else {
        assert b.fc[s[0]] >= 1;
      }
    }
  }

  // In a cheapest code no node stands alone at the longest length.
  lemma {:induction false} NotAlone(b: Build, elems: nat, used: set<nat>, l: seq<nat>, m: nat)
    requires Combining(b, elems, used) && Light(b) && Positive(b) && |l| == |b.fc| && CodeOver(Roots(b), l, m)
    requires m >= 1 && l[Roots(b)[0]] == m && Price(Roots(b), b.fc, l) == Joins(b)
    ensures exists j :: 1 <= j < b.len && l[Roots(b)[j]] == m
  {
    hide Combining, Light, CodeOver;
    RootsDistinct(b, elems, used);
    var s := Roots(b);
    LengthsKept(s, l, m);
    if forall j :: 1 <= j < b.len ==> l[s[j]] != m {
      var l' := l[s[0] := m - 1];
      Shorten(s, b.fc, l, m, 0, l');
      NoCheaper(b, elems, used, l', m - 1);
      Others(s, 0);
      SumChange(s, 0, |l|, Pay(b.fc, l), Pay(b.fc, l'));
      Less(b.fc[s[0]], m);
    }
  }

  lemma {:induction false} Less(f: nat, m: nat)
    requires f >= 1 && m >= 1
    ensures f * (m - 1) < f * m
  {
  }

  // Where no cheapest code reaches beyond the bound, neither does the tree.
  lemma {:induction false} NoDeeper(b: Build, elems: nat, used: set<nat>, l: seq<nat>, m: nat, bound: nat)
    requires Combining(b, elems, used) && Light(b) && Positive(b) && |l| == |b.fc| && CodeOver(Roots(b), l, m)
    requires Price(Roots(b), b.fc, l) == Joins(b) && Reaches(b, l, bound)
    ensures var f := Final(b); 1 < |f.heap| && f.heap[1] < |f.depth| && f.depth[f.heap[1]] <= bound
    decreases b.len, m
  {
    hide Combining, CodeOver, Light, Positive, Price, Removed, Step, Reaches;
    RootsDistinct(b, elems, used);
    LengthsKept(Roots(b), l, m);
    if b.len == 1 {
      LastReaches(b, l, bound);
    } else if i :| 0 <= i < b.len && l[Roots(b)[i]] == m {
      var t := SonsAmong(b, elems, used);
      TwoAtLeast(Roots(b), l, m);
      TieOrder(b, elems, used, t, i);
      var l1 := l[Roots(b)[0] := l[Roots(b)[i]]][Roots(b)[i] := l[Roots(b)[0]]];
      GoesDown(b, elems, used, l, m, 0, i, bound, l1);
      LowerPair(b, elems, used, l1, m, t, bound);
    } else {
      LowerLimit(Roots(b), l, m);
      NoDeeper(b, elems, used, l, m - 1, bound);
    }
  }

  lemma {:induction false} LowerPair(b: Build, elems: nat, used: set<nat>, l: seq<nat>, m: nat, t: nat, bound: nat)
    requires Combining(b, elems, used) && Light(b) && Positive(b) && |l| == |b.fc| && CodeOver(Roots(b), l, m)
    requires Price(Roots(b), b.fc, l) == Joins(b) && Reaches(b, l, bound) && b.len >= 2 && m >= 1
    requires l[Roots(b)[0]] == m && StepOk(b) && 1 <= t < b.len && Roots(b)[t] == Removed(b)[1]
    ensures var f := Final(b); 1 < |f.heap| && f.heap[1] < |f.depth| && f.depth[f.heap[1]] <= bound
    decreases b.len, 0
  {
    hide Combining, CodeOver, Light, Positive, Price, Removed, Step, Reaches, StepOk;
    RootsDistinct(b, elems, used);
    LengthsKept(Roots(b), l, m);
    NotAlone(b, elems, used, l, m);
    var j :| 1 <= j < b.len && l[Roots(b)[j]] == m;
    TieOrder(b, elems, used, t, j);
    var l2 := l[Roots(b)[t] := l[Roots(b)[j]]][Roots(b)[j] := l[Roots(b)[t]]];
    GoesDown(b, elems, used, l, m, t, j, bound, l2);
    OthersToo(Roots(b), 0, t);
    if j != t { OthersToo(Roots(b), 0, j); }
    LightStep(b, elems, used);
    PositiveStep(b, elems, used);
    StepKeeps(b, elems, used);
    Merge(b, elems, used, l2, m, l2[b.node := m - 1]);
    MergeReaches(b, elems, used, l2, m, t, bound, l2[b.node := m - 1]);
    NoDeeper(Step(b), elems, used, l2[b.node := m - 1], m, bound);
  }

  lemma {:induction false} LastReaches(b: Build, l: seq<nat>, bound: nat)
    requires b.len == 1 < |b.heap| && Reaches(b, l, bound)
    ensures var f := Final(b); 1 < |f.heap| && f.heap[1] < |f.depth| && f.depth[f.heap[1]] <= bound
  {
    assert Roots(b)[0] == b.heap[1];
  }

  function Fib(n: nat): nat { if n < 2 then n else Fib(n - 1) + Fib(n - 2) }

  lemma {:induction false} FibMono(a: nat, b: nat)
    requires a <= b
    ensures Fib(a) <= Fib(b)
  {
    if a < b { FibMono(a, b - 1); }
  }

  lemma {:induction false} FibLarge()
    ensures Fib(25) == 75025 && Fib(18) == 2584
  {
    assert Fib(5) == 5 && Fib(6) == 8;
    assert Fib(9) == 34 && Fib(10) == 55;
    assert Fib(13) == 233 && Fib(14) == 377;
    assert Fib(17) == 1597 && Fib(18) == 2584;
    assert Fib(21) == 10946 && Fib(22) == 17711;
    assert Fib(24) == 46368;
  }

  // Every frequency in the heap is at least g, and so many levels take that much.
  ghost predicate Grown(b: Build, g: nat)
    requires b.len < |b.heap|
  {
    && g >= 1
    && forall i :: 0 <= i < b.len ==> GrownAt(b, g, Roots(b)[i])
  }

  ghost predicate GrownAt(b: Build, g: nat, r: nat)
  {
    && r < |b.fc| && r < |b.depth| && b.fc[r] >= g
    && b.fc[r] >= Fib(b.depth[r] + 2) && Fib(b.depth[r] + 1) <= g
  }

  lemma {:induction false} ExactDepth(x: nat, y: nat, fx: nat, fy: nat)
    requires fx >= Fib(x + 2) && fy >= Fib(y + 2) && fx + fy < 65536
    ensures FatherDepth(x, y) == (if x >= y then x else y) + 1
  {
    hide Fib;
    FibLarge();
    if x + 2 >= 25 { FibMono(25, x + 2); }
    if y + 2 >= 25 { FibMono(25, y + 2); }
    Pow2Small();
    LowFits((if x >= y then x else y) + 1, 8);
  }

  // The father of two nodes n and o, the larger last.
  lemma {:induction false} FatherGrown(g: nat, x: nat, y: nat, fx: nat, fy: nat)
    requires fx >= Fib(x + 2) && fy >= Fib(y + 2) && g <= fx <= fy && Fib(x + 1) <= g && Fib(y + 1) <= g
    ensures var d := (if x >= y then x else y) + 1; fx + fy >= Fib(d + 2) && Fib(d + 1) <= fy
  {
  }

  lemma {:induction false} GrownStep(b: Build, elems: nat, used: set<nat>, g: nat)
    requires Combining(b, elems, used) && b.len >= 2 && Light(b) && Grown(b, g)
    ensures StepOk(b) && Step(b).len < |Step(b).heap| && Removed(b)[1] < |b.fc|
    ensures Grown(Step(b), b.fc[Removed(b)[1]])
    ensures b.heap[1] < |b.depth| && Removed(b)[1] < |b.depth| == |Step(b).depth| && b.node < |b.depth|
    ensures b.depth[b.heap[1]] < Step(b).depth[b.node] && b.depth[Removed(b)[1]] < Step(b).depth[b.node]
  {
    hide Combining, Step, Removed, StepOk, Light, FatherDepth, Fib;
    LightStep(b, elems, used);
    StepDepth(b);
    RootsDistinct(b, elems, used);
    var t := SonsAmong(b, elems, used);
    var s, s', n, o := Roots(b), Roots(Step(b)), b.heap[1], Removed(b)[1];
    assert GrownAt(b, g, s[0]) && GrownAt(b, g, s[t]);
    SumOfTwo(s, 0, t, |b.fc|, Freq(b.fc));
    LightIs(b);
    ExactDepth(b.depth[n], b.depth[o], b.fc[n], b.fc[o]);
    FatherGrown(g, b.depth[n], b.depth[o], b.fc[n], b.fc[o]);
    forall i | 0 <= i < |s'| ensures GrownAt(Step(b), b.fc[o], s'[i]) {
      RootAfter(b, elems, used, s'[i]);
      if s'[i] != b.node {
        var k :| 0 <= k < |s| && s[k] == s'[i];
        assert GrownAt(b, g, s[k]);
      }
    }
  }

  lemma {:induction false} LightIs(b: Build)
    requires b.len < |b.heap| && Light(b)
    ensures SumBelow(Roots(b), |b.fc|, Freq(b.fc)) < 65536
  {
  }

  // A finished tree of depth d takes frequencies of at least the Fibonacci number d + 2.
  lemma {:induction false} FinalGrown(b: Build, elems: nat, used: set<nat>, g: nat)
    requires Combining(b, elems, used) && Light(b) && Grown(b, g)
    ensures var f := Final(b);
            1 < |f.heap| && f.heap[1] < |f.depth|
              && Fib(f.depth[f.heap[1]] + 2) <= SumBelow(Roots(b), |b.fc|, Freq(b.fc))
    decreases b.len
  {
    hide Combining, Step, Removed, Light, Grown, Fib;
    RootsDistinct(b, elems, used);
    if b.len >= 2 {
      GrownStep(b, elems, used, g);
      LightStep(b, elems, used);
      StepKeeps(b, elems, used);
      FinalGrown(Step(b), elems, used, b.fc[Removed(b)[1]]);
      SameTotal(b, elems, used);
    } else {
      LastGrown(b, g);
    }
  }

  // The frequencies in the heap add up to the same after a round.
  lemma {:induction false} SameTotal(b: Build, elems: nat, used: set<nat>)
    requires Combining(b, elems, used) && b.len >= 2 && Light(b)
    ensures StepOk(b) && Step(b).len < |Step(b).heap| && |Step(b).fc| == |b.fc|
    ensures SumBelow(Roots(Step(b)), |b.fc|, Freq(Step(b).fc)) == SumBelow(Roots(b), |b.fc|, Freq(b.fc))
  {
    hide Combining, Step, Removed, Light, StepOk;
    LightStep(b, elems, used);
    RootsDistinct(b, elems, used);
    var t := SonsAmong(b, elems, used);
    StepSum(b, elems, used, Freq(Step(b).fc));
    SumSame(Roots(b), |b.fc|, Freq(Step(b).fc), Freq(b.fc));
  }

  lemma {:induction false} FinalLast(b: Build)
    requires b.len < 2
    ensures Final(b) == b
  {
  }

  lemma {:induction false} LastGrown(b: Build, g: nat)
    requires b.len == 1 < |b.heap| && Grown(b, g)
    ensures var f := Final(b);
            1 < |f.heap| && f.heap[1] < |f.depth|
              && Fib(f.depth[f.heap[1]] + 2) <= SumBelow(Roots(b), |b.fc|, Freq(b.fc))
  {
    FinalLast(b);
    hide Fib, Final, StepOk, SumBelow;
    assert GrownAt(b, g, Roots(b)[0]);
    OneSum(Roots(b), |b.fc|, Freq(b.fc));
  }

  // Every node that has left the heap lies lower than its father.
  ghost predicate Tiered(b: Build, elems: nat, used: set<nat>)
    requires b.len < |b.heap|
  {
    forall x :: x in Nodes(used, elems, b.node) && x !in Roots(b) ==> TieredAt(b, x)
  }

  ghost predicate TieredAt(b: Build, x: nat)
  {
    x < |b.dl| && x < |b.depth| && b.dl[x] < b.node && b.dl[x] < |b.depth| && b.depth[x] < b.depth[b.dl[x]]
  }

  lemma {:induction false} TieredStep(b: Build, elems: nat, used: set<nat>, g: nat)
    requires Combining(b, elems, used) && b.len >= 2 && Light(b) && Grown(b, g) && Tiered(b, elems, used)
    ensures StepOk(b) && Step(b).len < |Step(b).heap| && Tiered(Step(b), elems, used)
  {
    hide Combining, Removed, StepOk, Light, FatherDepth, FatherFreq, Grown, Sink, Joined, LeastTwo;
    GrownStep(b, elems, used, g);
    RootsDistinct(b, elems, used);
    StepKeeps(b, elems, used);
    StepDl(b);
    hide Step;
    StepDepth(b);
    RootsStep(b, elems, used);
    var t := SonsAmong(b, elems, used);
    var n, o, s, s' := b.heap[1], Removed(b)[1], Roots(b), Roots(Step(b));
    forall x | x in Nodes(used, elems, b.node + 1) && x !in s' ensures TieredAt(Step(b), x) {
      if x == n {
        assert n == s[0];
      } else if x == o {
        assert o == s[t];
      } else {
        StillIn(b, x);
        assert TieredAt(b, x);
      }
    }
  }

  lemma {:induction false} StepDl(b: Build)
    requires StepOk(b)
    ensures b.heap[1] < |b.dl| && Removed(b)[1] < |b.dl|
    ensures Step(b).dl == b.dl[b.heap[1] := b.node][Removed(b)[1] := b.node]
  {
    hide Sink, Low;
  }

  // Whoever is not in the heap after a round was not there before, the sons apart.
  lemma {:induction false} StillIn(b: Build, x: nat)
    requires StepOk(b) && 1 <= b.len < |b.heap| && Step(b).len < |Step(b).heap|
    requires multiset(Roots(Step(b)) + [b.heap[1], Removed(b)[1]]) == multiset(Roots(b) + [b.node])
    requires x !in Roots(Step(b)) && x != b.heap[1] && x != Removed(b)[1]
    ensures x !in Roots(b) && x != b.node
  {
    hide Step, Removed, StepOk, Roots;
    var s: seq<nat>, s': seq<nat> := Roots(b), Roots(Step(b));
    assert multiset(s' + [b.heap[1], Removed(b)[1]])[x] == 0;
    assert multiset(s + [b.node])[x] == 0;
    assert multiset(s + [b.node]) == multiset(s) + multiset{b.node};
  }

  lemma {:induction false} FinalTiered(b: Build, elems: nat, used: set<nat>, g: nat)
    requires Combining(b, elems, used) && Light(b) && Grown(b, g) && Tiered(b, elems, used)
    ensures Final(b).len < |Final(b).heap| && Tiered(Final(b), elems, used)
    decreases b.len
  {
    hide Combining, Step, Removed, Light, Grown, Tiered;
    RootsDistinct(b, elems, used);
    if b.len >= 2 {
      GrownStep(b, elems, used, g);
      LightStep(b, elems, used);
      StepKeeps(b, elems, used);
      TieredStep(b, elems, used, g);
      FinalTiered(Step(b), elems, used, b.fc[Removed(b)[1]]);
    }
  }
}
