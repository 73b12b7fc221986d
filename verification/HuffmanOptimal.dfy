/** The combining loop builds a cheapest tree: no prefix code, whatever its lengths, spends
    fewer bits on the same frequencies. The proof follows the rounds. A code for the nodes in
    the heap can be rearranged, never at a loss, until the two least frequent nodes are the
    deepest brothers; what is left is a code for the heap after the round. */
module HuffmanOptimal {
  import opened Bits
  import opened HuffmanHeap
  import opened HuffmanTree
  import opened BitLengths

  lemma {:induction false} SumSame(s: seq<nat>, bound: nat, g: nat -> nat, h: nat -> nat)
    requires forall i :: 0 <= i < |s| ==> g(s[i]) == h(s[i])
    ensures SumBelow(s, bound, g) == SumBelow(s, bound, h)
  {
    if s != [] { SumSame(s[..|s| - 1], bound, g, h); }
  }

  lemma {:induction false} SumAppend(a: seq<nat>, b: seq<nat>, bound: nat, g: nat -> nat)
    ensures SumBelow(a + b, bound, g) == SumBelow(a, bound, g) + SumBelow(b, bound, g)
  {
    if b == [] {
      assert a + b == a;
    } else {
      var k := |b| - 1;
      assert a + b == (a + b[..k]) + [b[k]];
      SumSnoc(a + b[..k], b[k], bound, g);
      SumAppend(a, b[..k], bound, g);
    }
  }

  // The element at index t, apart from the others.
  lemma {:induction false} SumWithout(s: seq<nat>, t: nat, bound: nat, g: nat -> nat)
    requires t < |s|
    ensures SumBelow(s, bound, g)
            == SumBelow(s[..t] + s[t + 1..], bound, g) + if s[t] < bound then g(s[t]) else 0
    ensures multiset(s) == multiset(s[..t] + s[t + 1..]) + multiset{s[t]}
  {
    var a, b := s[..t], s[t + 1..];
    assert s == (a + [s[t]]) + b;
    SumAppend(a + [s[t]], b, bound, g);
    SumSnoc(a, s[t], bound, g);
    SumAppend(a, b, bound, g);
  }

  lemma {:induction false} TakeOut(a: multiset<nat>, b: multiset<nat>, x: nat)
    requires a + multiset{x} == b + multiset{x}
    ensures a == b
  {
    forall e: nat ensures a[e] == b[e] {
      assert (a + multiset{x})[e] == (b + multiset{x})[e];
    }
  }

  // A sum does not depend on the order.
  lemma {:induction false} SumPermuted(s: seq<nat>, t: seq<nat>, bound: nat, g: nat -> nat)
    requires multiset(s) == multiset(t)
    ensures SumBelow(s, bound, g) == SumBelow(t, bound, g)
    decreases |s|
  {
    if s == [] {
      assert |multiset(t)| == 0;
    } else {
      var k := |s| - 1;
      assert s == s[..k] + [s[k]];
      assert s[k] in multiset(t);
      var i :| 0 <= i < |t| && t[i] == s[k];
      var r := t[..i] + t[i + 1..];
      SumWithout(t, i, bound, g);
      TakeOut(multiset(s[..k]), multiset(r), s[k]);
      SumPermuted(s[..k], r, bound, g);
    }
  }

  ghost predicate Distinct(s: seq<nat>)
  {
    forall i, j :: 0 <= i < j < |s| ==> s[i] != s[j]
  }

  // Another price for one element.
  lemma {:induction false} SumChange(s: seq<nat>, t: nat, bound: nat, g: nat -> nat, h: nat -> nat)
    requires Distinct(s) && t < |s| && s[t] < bound
    requires forall i :: 0 <= i < |s| && i != t ==> g(s[i]) == h(s[i])
    ensures SumBelow(s, bound, g) + h(s[t]) == SumBelow(s, bound, h) + g(s[t])
  {
    var r := s[..t] + s[t + 1..];
    SumWithout(s, t, bound, g);
    SumWithout(s, t, bound, h);
    forall i | 0 <= i < |r| ensures g(r[i]) == h(r[i]) {
      assert r[i] == s[if i < t then i else i + 1];
    }
    SumSame(r, bound, g, h);
  }

  lemma {:induction false} SumOfTwo(s: seq<nat>, i: nat, j: nat, bound: nat, g: nat -> nat)
    requires i < j < |s| && s[i] < bound && s[j] < bound
    ensures g(s[i]) + g(s[j]) <= SumBelow(s, bound, g)
  {
    SumWithout(s, j, bound, g);
    var r := s[..j] + s[j + 1..];
    assert r[i] == s[i];
    SumWithout(r, i, bound, g);
  }

  lemma {:induction false} OneSum(s: seq<nat>, bound: nat, g: nat -> nat)
    requires |s| <= 1 && forall i :: 0 <= i < |s| ==> s[i] < bound
    ensures SumBelow(s, bound, g) == if s == [] then 0 else g(s[0])
  {
    if s != [] {
      assert s == [] + [s[0]];
      SumSnoc([], s[0], bound, g);
    }
  }

  // What a symbol costs at length l, its share of the Kraft sum in units of 2^-m, and its
  // frequency.
  ghost function Pay(fc: seq<nat>, l: seq<nat>): nat -> nat
  {
    (x: nat) => if x < |fc| && x < |l| then fc[x] * l[x] else 0
  }

  ghost function Share(l: seq<nat>, m: nat): nat -> nat
  {
    (x: nat) => if x < |l| && l[x] <= m then Pow2(m - l[x]) else 0
  }

  ghost function Freq(fc: seq<nat>): nat -> nat
  {
    (x: nat) => if x < |fc| then fc[x] else 0
  }

  // Lengths l of at most m for the elements of s with a Kraft sum of at most one.
  ghost predicate CodeOver(s: seq<nat>, l: seq<nat>, m: nat)
  {
    && (forall i :: 0 <= i < |s| ==> s[i] < |l| && l[s[i]] <= m)
    && SumBelow(s, |l|, Share(l, m)) <= Pow2(m)
  }

  ghost function Price(s: seq<nat>, fc: seq<nat>, l: seq<nat>): nat
  {
    SumBelow(s, |l|, Pay(fc, l))
  }

  lemma {:induction false} Rearranged(fx: nat, fy: nat, lx: nat, ly: nat)
    requires fx <= fy && lx <= ly
    ensures fx * ly + fy * lx <= fx * lx + fy * ly
  {
    assert 0 <= (fy - fx) * (ly - lx);
    assert (fy - fx) * (ly - lx) == fy * ly - fy * lx - fx * ly + fx * lx;
  }

  // The rarer of two elements may as well have the longer code.
  lemma {:induction false} Exchange(s: seq<nat>, fc: seq<nat>, l: seq<nat>, m: nat, i: nat, j: nat, l': seq<nat>)
    requires Distinct(s) && CodeOver(s, l, m) && |fc| == |l| && i < |s| && j < |s|
    requires fc[s[i]] <= fc[s[j]] && l[s[i]] <= l[s[j]] && l' == l[s[i] := l[s[j]]][s[j] := l[s[i]]]
    ensures CodeOver(s, l', m) && Price(s, fc, l') <= Price(s, fc, l)
  {
    if i == j {
      assert l' == l;
    } else {
      Others(s, i);
      ExchangePrice(s, fc, l, i, j, l[s[i] := l[s[j]]], l');
      ExchangeShares(s, l, m, i, j, l[s[i] := l[s[j]]], l');
    }
  }

  lemma {:induction false} ExchangePrice(s: seq<nat>, fc: seq<nat>, l: seq<nat>, i: nat, j: nat, mid: seq<nat>,
      l': seq<nat>)
    requires Distinct(s) && |fc| == |l| && i < |s| && j < |s| && s[i] != s[j] && s[i] < |l| && s[j] < |l|
    requires fc[s[i]] <= fc[s[j]] && l[s[i]] <= l[s[j]] && mid == l[s[i] := l[s[j]]] && l' == mid[s[j] := l[s[i]]]
    ensures Price(s, fc, l') <= Price(s, fc, l)
  {
    Others(s, i);
    Others(s, j);
    SumChange(s, i, |l|, Pay(fc, l), Pay(fc, mid));
    SumChange(s, j, |l|, Pay(fc, mid), Pay(fc, l'));
    Rearranged(fc[s[i]], fc[s[j]], l[s[i]], l[s[j]]);
  }

  lemma {:induction false} ExchangeShares(s: seq<nat>, l: seq<nat>, m: nat, i: nat, j: nat, mid: seq<nat>,
      l': seq<nat>)
    requires Distinct(s) && CodeOver(s, l, m) && i < |s| && j < |s| && s[i] != s[j]
    requires mid == l[s[i] := l[s[j]]] && l' == mid[s[j] := l[s[i]]]
    ensures CodeOver(s, l', m)
  {
    Others(s, i);
    Others(s, j);
    SumChange(s, i, |l|, Share(l, m), Share(mid, m));
    SumChange(s, j, |l|, Share(mid, m), Share(l', m));
  }

  lemma {:induction false} SharesHalve(s: seq<nat>, bound: nat, l: seq<nat>, m: nat)
    requires m >= 1 && forall i :: 0 <= i < |s| ==> s[i] < |l| && l[s[i]] <= m - 1
    ensures SumBelow(s, bound, Share(l, m)) == 2 * SumBelow(s, bound, Share(l, m - 1))
  {
    if s != [] {
      SharesHalve(s[..|s| - 1], bound, l, m);
      assert Pow2(m - l[s[|s| - 1]]) == 2 * Pow2(m - 1 - l[s[|s| - 1]]);
    }
  }

  lemma {:induction false} SharesCount(s: seq<nat>, l: seq<nat>, m: nat)
    requires forall i :: 0 <= i < |s| ==> s[i] < |l| && l[s[i]] <= m
    ensures SumBelow(s, |l|, Share(l, m)) >= |s|
  {
    if s != [] { SharesCount(s[..|s| - 1], l, m); }
  }

  // With no element at the longest length, the limit can be lowered.
  lemma {:induction false} LowerLimit(s: seq<nat>, l: seq<nat>, m: nat)
    requires CodeOver(s, l, m) && s != [] && forall i :: 0 <= i < |s| ==> l[s[i]] != m
    ensures m >= 1 && CodeOver(s, l, m - 1)
  {
    assert l[s[0]] < m;
    SharesHalve(s, |l|, l, m);
  }

  // A single element at the longest length can be shortened.
  lemma {:induction false} Shorten(s: seq<nat>, fc: seq<nat>, l: seq<nat>, m: nat, t: nat, l': seq<nat>)
    requires Distinct(s) && CodeOver(s, l, m) && |fc| == |l| && m >= 1 && t < |s| && l[s[t]] == m
    requires forall i :: 0 <= i < |s| && i != t ==> l[s[i]] != m
    requires l' == l[s[t] := m - 1]
    ensures CodeOver(s, l', m - 1) && Price(s, fc, l') <= Price(s, fc, l)
  {
    ShorterLengths(s, l, m, t, l');
    ShorterShares(s, l, m, t, l');
    SharesHalve(s, |l'|, l', m);
    ShorterPrice(s, fc, l, m, t, l');
  }

  lemma {:induction false} ShorterLengths(s: seq<nat>, l: seq<nat>, m: nat, t: nat, l': seq<nat>)
    requires Distinct(s) && CodeOver(s, l, m) && m >= 1 && t < |s| && l' == l[s[t] := m - 1]
    requires forall i :: 0 <= i < |s| && i != t ==> l[s[i]] != m
    ensures forall i :: 0 <= i < |s| ==> s[i] < |l'| && l'[s[i]] <= m - 1
  {
    forall i | 0 <= i < |s| ensures s[i] < |l'| && l'[s[i]] <= m - 1 {
      if i < t { assert s[i] != s[t]; } else if i > t { assert s[t] != s[i]; }
    }
  }

  lemma {:induction false} ShorterShares(s: seq<nat>, l: seq<nat>, m: nat, t: nat, l': seq<nat>)
    requires Distinct(s) && t < |s| && s[t] < |l| && l[s[t]] == m >= 1 && l' == l[s[t] := m - 1]
    ensures SumBelow(s, |l'|, Share(l', m)) == SumBelow(s, |l|, Share(l, m)) + 1
  {
    Others(s, t);
    SumChange(s, t, |l|, Share(l, m), Share(l', m));
    assert Share(l, m)(s[t]) == Pow2(0) == 1 && Share(l', m)(s[t]) == Pow2(1) == 2;
  }

  lemma {:induction false} ShorterPrice(s: seq<nat>, fc: seq<nat>, l: seq<nat>, m: nat, t: nat, l': seq<nat>)
    requires Distinct(s) && |fc| == |l| && t < |s| && s[t] < |l| && l[s[t]] == m >= 1 && l' == l[s[t] := m - 1]
    ensures Price(s, fc, l') <= Price(s, fc, l)
  {
    Others(s, t);
    SumChange(s, t, |l|, Pay(fc, l), Pay(fc, l'));
    assert fc[s[t]] * (m - 1) <= fc[s[t]] * m;
  }

  lemma {:induction false} Others(s: seq<nat>, t: nat)
    requires Distinct(s) && t < |s|
    ensures forall i :: 0 <= i < |s| && i != t ==> s[i] != s[t]
  {
    forall i | 0 <= i < |s| && i != t ensures s[i] != s[t] {
      if i < t { assert s[i] != s[t]; } else { assert s[t] != s[i]; }
    }
  }

  // The nodes in the heap.
  ghost function Roots(b: Build): (s: seq<nat>)
    requires b.len < |b.heap|
    ensures |s| == b.len && forall i :: 0 <= i < b.len ==> s[i] == b.heap[i + 1]
  {
    b.heap[1..b.len + 1]
  }

  lemma {:induction false} RootsDistinct(b: Build, elems: nat, used: set<nat>)
    requires Combining(b, elems, used)
    ensures Distinct(Roots(b)) && (forall i :: 0 <= i < b.len ==> Roots(b)[i] < b.node)
    ensures 1 <= b.len < |b.heap| && |b.fc| == |b.dl| && b.node <= |b.fc| && (b.len >= 2 ==> b.node < |b.fc|)
  {
    var s: seq<nat>, u: set<nat> := Roots(b), Nodes(used, elems, b.node);
    HeapNode(b.dl, b.heap, b.len, b.max, elems, b.node, used, 1);
    forall i | 0 <= i < b.len ensures s[i] < b.node {
      HeapNode(b.dl, b.heap, b.len, b.max, elems, b.node, used, i + 1);
    }
    forall i, j | 0 <= i < j < |s| ensures s[i] != s[j] {
      TwoPlaces(s, i, j);
      assert multiset(u)[s[i]] <= 1;
      assert multiset(s) <= multiset(u);
      assert multiset{s[i], s[j]}[s[i]] <= 1;
    }
  }

  // A round takes the two sons out of the heap and puts their father in.
  lemma {:induction false} RootsStep(b: Build, elems: nat, used: set<nat>)
    requires Combining(b, elems, used) && b.len >= 2
    ensures StepOk(b) && Step(b).len < |Step(b).heap|
    ensures multiset(Roots(Step(b)) + [b.heap[1], Removed(b)[1]]) == multiset(Roots(b) + [b.node])
  {
    hide HeapFrom, LeastTwo, Sink, Removed, NodesIn, Combining, Nodes;
    CombiningStepOk(b, elems, used);
    StepNodes(b, elems, used);
    JoinedKeeps(b);
    RootsMoved(b.heap, b.len, b.max, Removed(b), Joined(b), Step(b).heap, b.node);
  }

  lemma {:induction false} RootsMoved(h0: seq<nat>, len: nat, max: nat, h1: seq<nat>, h2: seq<nat>, h3: seq<nat>,
      node: nat)
    requires |h0| == |h1| == |h2| == |h3| == HEAP_SIZE && 2 <= len && len + 2 <= max <= HEAP_SIZE
    requires multiset(h1) == multiset(h0[1 := h0[len]])
    requires forall i :: 0 <= i < HEAP_SIZE && (i < 1 || i > len - 1) ==> h1[i] == h0[1 := h0[len]][i]
    requires h2 == h1[max - 1 := h0[1]][max - 2 := h1[1]][1 := node]
    requires multiset(h3) == multiset(h2) && forall i :: 0 <= i < HEAP_SIZE && (i < 1 || i > len - 1) ==> h3[i] == h2[i]
    ensures multiset(h3[1..len] + [h0[1], h1[1]]) == multiset(h0[1..len + 1] + [node])
  {
    SliceMultiset(h1, h0[1 := h0[len]], 1, len);
    RemoveTop(h0, len);
    SliceMultiset(h3, h2, 1, len);
    ReplaceTop(h1, len - 1, node);
    assert h2[1..len] == h1[1 := node][1..len];
    Moved(h3[1..len], h1[1..len], h0[1..len + 1], h0[1], h1[1], node);
  }

  lemma {:induction false} Moved(s3: seq<nat>, s1: seq<nat>, s0: seq<nat>, n: nat, m: nat, node: nat)
    requires multiset(s1) + multiset{n} == multiset(s0) && multiset(s3) + multiset{m} == multiset(s1) + multiset{node}
    ensures multiset(s3 + [n, m]) == multiset(s0 + [node])
  {
  }

  // What is in the heap after a round is the father or was there before, and is no son.
  lemma {:induction false} RootAfter(b: Build, elems: nat, used: set<nat>, x: nat)
    requires Combining(b, elems, used) && b.len >= 2 && StepOk(b) && Step(b).len < |Step(b).heap|
    requires x in Roots(Step(b))
    ensures x == b.node || (x in Roots(b) && x != b.heap[1] && x != Removed(b)[1])
  {
    hide Step, Removed, Roots, Combining;
    RootsStep(b, elems, used);
    RootsDistinct(b, elems, used);
    var s: seq<nat>, s': seq<nat>, n: nat, m: nat := Roots(b), Roots(Step(b)), b.heap[1], Removed(b)[1];
    if x != b.node {
      assert multiset(s' + [n, m])[x] == multiset(s + [b.node])[x] == multiset(s)[x];
      assert multiset(s' + [n, m]) == multiset(s') + multiset{n, m};
      OnceOnly(s, x);
      assert multiset(s')[x] >= 1;
    }
  }

  lemma {:induction false} OnceOnly(s: seq<nat>, x: nat)
    requires Distinct(s)
    ensures multiset(s)[x] <= 1
  {
    if s != [] {
      var k := |s| - 1;
      assert s == s[..k] + [s[k]];
      OnceOnly(s[..k], x);
      if s[k] == x { assert x !in s[..k]; }
    }
  }

  // Where the second son stands, and that no node is less frequent than the two.
  lemma {:induction false} SonsAmong(b: Build, elems: nat, used: set<nat>) returns (t: nat)
    requires Combining(b, elems, used) && b.len >= 2
    ensures StepOk(b) && 1 <= t < b.len && Roots(b)[0] == b.heap[1] && Roots(b)[t] == Removed(b)[1]
    ensures forall i :: 0 <= i < b.len ==> Roots(b)[i] < |b.fc| && b.fc[b.heap[1]] <= b.fc[Roots(b)[i]]
    ensures forall i :: 1 <= i < b.len ==> b.fc[Removed(b)[1]] <= b.fc[Roots(b)[i]]
  {
    hide Removed, HeapFrom, Forest;
    StepKeeps(b, elems, used);
    var n, m := b.heap[1], Removed(b)[1];
    var i :| 2 <= i <= b.len && b.heap[i] == m;
    t := i - 1;
    forall i | 0 <= i < b.len ensures Roots(b)[i] < |b.fc| && b.fc[n] <= b.fc[Roots(b)[i]] {
      assert Smaller(b.fc, b.depth, n, b.heap[i + 1]);
    }
    forall i | 1 <= i < b.len ensures b.fc[m] <= b.fc[Roots(b)[i]] {
      assert Smaller(b.fc, b.depth, m, b.heap[i + 1]);
    }
  }

  // Any sum over the heap through a round.
  lemma {:induction false} StepSum(b: Build, elems: nat, used: set<nat>, g: nat -> nat)
    requires Combining(b, elems, used) && b.len >= 2
    ensures StepOk(b) && Step(b).len < |Step(b).heap|
    ensures SumBelow(Roots(Step(b)), |b.fc|, g) + g(b.heap[1]) + g(Removed(b)[1])
            == SumBelow(Roots(b), |b.fc|, g) + g(b.node)
  {
    RootsStep(b, elems, used);
    RootsDistinct(b, elems, used);
    var t := SonsAmong(b, elems, used);
    hide Step, Removed, Roots, Combining;
    var s, s', n, m := Roots(b), Roots(Step(b)), b.heap[1], Removed(b)[1];
    SumPermuted(s' + [n, m], s + [b.node], |b.fc|, g);
    SumSnoc(s, b.node, |b.fc|, g);
    assert s' + [n, m] == (s' + [n]) + [m];
    SumSnoc(s' + [n], m, |b.fc|, g);
    SumSnoc(s', n, |b.fc|, g);
  }

  // All frequencies together stay below 2^16, so that no father's frequency wraps around.
  ghost predicate Light(b: Build)
    requires b.len < |b.heap|
  {
    SumBelow(Roots(b), |b.fc|, Freq(b.fc)) < 65536
  }

  lemma {:induction false} LightStep(b: Build, elems: nat, used: set<nat>)
    requires Combining(b, elems, used) && b.len >= 2 && Light(b)
    ensures StepOk(b) && Step(b).len == b.len - 1 && Step(b).len < |Step(b).heap| && Light(Step(b))
    ensures Step(b).fc == b.fc[b.node := b.fc[b.heap[1]] + b.fc[Removed(b)[1]]]
  {
    hide Sink, HeapFrom, Forest;
    var t := SonsAmong(b, elems, used);
    RootsDistinct(b, elems, used);
    var n, m := b.heap[1], Removed(b)[1];
    SumOfTwo(Roots(b), 0, t, |b.fc|, Freq(b.fc));
    Pow2Small();
    LowFits(b.fc[n] + b.fc[m], 16);
    var fc' := Step(b).fc;
    StepSum(b, elems, used, Freq(fc'));
    SumSame(Roots(b), |b.fc|, Freq(fc'), Freq(b.fc));
  }

  // Two brothers at the longest length give their father one bit less.
  lemma {:induction false} Merge(b: Build, elems: nat, used: set<nat>, l: seq<nat>, m: nat, l': seq<nat>)
    requires Combining(b, elems, used) && b.len >= 2 && Light(b) && |l| == |b.fc| && CodeOver(Roots(b), l, m) && m >= 1
    requires StepOk(b) && Step(b).len < |Step(b).heap| && b.heap[1] < |l| && Removed(b)[1] < |l|
    requires l[b.heap[1]] == m == l[Removed(b)[1]] && l' == l[b.node := m - 1]
    ensures CodeOver(Roots(Step(b)), l', m)
    ensures Price(Roots(b), b.fc, l)
            == Price(Roots(Step(b)), Step(b).fc, l') + b.fc[b.heap[1]] + b.fc[Removed(b)[1]]
  {
    MergeLengths(b, elems, used, l, m, l');
    MergeShares(b, elems, used, l, m, l');
    MergePrice(b, elems, used, l, m, l');
  }

  lemma {:induction false} MergeLengths(b: Build, elems: nat, used: set<nat>, l: seq<nat>, m: nat, l': seq<nat>)
    requires Combining(b, elems, used) && b.len >= 2 && |l| == |b.fc| && CodeOver(Roots(b), l, m) && m >= 1
    requires StepOk(b) && Step(b).len < |Step(b).heap| && l' == l[b.node := m - 1]
    ensures forall i :: 0 <= i < Step(b).len ==> Roots(Step(b))[i] < |l'| && l'[Roots(Step(b))[i]] <= m
  {
    hide Combining, Step, Removed, Share;
    var s' := Roots(Step(b));
    forall i | 0 <= i < |s'| ensures s'[i] < |l'| && l'[s'[i]] <= m { RootAfter(b, elems, used, s'[i]); }
  }

  lemma {:induction false} MergeShares(b: Build, elems: nat, used: set<nat>, l: seq<nat>, m: nat, l': seq<nat>)
    requires Combining(b, elems, used) && b.len >= 2 && |l| == |b.fc| && m >= 1
    requires StepOk(b) && Step(b).len < |Step(b).heap| && b.heap[1] < |l| && Removed(b)[1] < |l|
    requires l[b.heap[1]] == m == l[Removed(b)[1]] && l' == l[b.node := m - 1]
    ensures SumBelow(Roots(Step(b)), |l'|, Share(l', m)) == SumBelow(Roots(b), |l|, Share(l, m))
  {
    hide Combining, Step, Removed, StepOk, Share;
    RootsDistinct(b, elems, used);
    var t := SonsAmong(b, elems, used);
    StepSum(b, elems, used, Share(l', m));
    ShareAside(Roots(b), 0, t, l, m, b.node, l');
  }

  lemma {:induction false} ShareAside(s: seq<nat>, i: nat, j: nat, l: seq<nat>, m: nat, node: nat, l': seq<nat>)
    requires node < |l| && m >= 1 && l' == l[node := m - 1] && i < |s| && j < |s|
    requires (forall i :: 0 <= i < |s| ==> s[i] < node) && l[s[i]] == m == l[s[j]]
    ensures SumBelow(s, |l|, Share(l', m)) == SumBelow(s, |l|, Share(l, m))
    ensures Share(l', m)(s[i]) + Share(l', m)(s[j]) == Share(l', m)(node)
  {
    SumSame(s, |l|, Share(l', m), Share(l, m));
    assert Pow2(0) == 1 && Pow2(1) == 2;
  }

  lemma {:induction false} MergePrice(b: Build, elems: nat, used: set<nat>, l: seq<nat>, m: nat, l': seq<nat>)
    requires Combining(b, elems, used) && b.len >= 2 && Light(b) && |l| == |b.fc| && m >= 1
    requires StepOk(b) && Step(b).len < |Step(b).heap| && b.heap[1] < |l| && Removed(b)[1] < |l|
    requires l[b.heap[1]] == m == l[Removed(b)[1]] && l' == l[b.node := m - 1]
    ensures Price(Roots(b), b.fc, l)
            == Price(Roots(Step(b)), Step(b).fc, l') + b.fc[b.heap[1]] + b.fc[Removed(b)[1]]
  {
    hide Combining, Step, Removed, StepOk, Light, Pay;
    RootsDistinct(b, elems, used);
    LightStep(b, elems, used);
    var t := SonsAmong(b, elems, used);
    StepSum(b, elems, used, Pay(Step(b).fc, l'));
    PayAside(Roots(b), 0, t, b.fc, l, m - 1, b.node, Step(b).fc, l');
  }

  lemma {:induction false} PayAside(s: seq<nat>, i: nat, j: nat, fc: seq<nat>, l: seq<nat>, m: nat, node: nat,
      fc': seq<nat>, l': seq<nat>)
    requires node < |l| == |fc| && l' == l[node := m] && i < |s| && j < |s|
    requires (forall i :: 0 <= i < |s| ==> s[i] < node) && l[s[i]] == m + 1 == l[s[j]]
    requires fc' == fc[node := fc[s[i]] + fc[s[j]]]
    ensures SumBelow(s, |l|, Pay(fc', l')) == SumBelow(s, |l|, Pay(fc, l))
    ensures Pay(fc', l')(s[i]) + Pay(fc', l')(s[j]) == Pay(fc', l')(node) + fc[s[i]] + fc[s[j]]
  {
    SumSame(s, |l|, Pay(fc', l'), Pay(fc, l));
    OneBitLess(fc[s[i]], fc[s[j]], m + 1);
  }

  lemma {:induction false} OneBitLess(f: nat, g: nat, m: nat)
    requires m >= 1
    ensures f * m + g * m == (f + g) * (m - 1) + f + g
  {
  }

  // The frequencies of the fathers still to come, all together.
  ghost function Joins(b: Build): nat
    decreases b.len
  {
    if StepOk(b) then b.fc[b.heap[1]] + b.fc[Removed(b)[1]] + Joins(Step(b)) else 0
  }

  // The least frequent node goes to the longest length.
  lemma {:induction false} FirstDown(b: Build, elems: nat, used: set<nat>, l: seq<nat>, m: nat, i: nat)
    returns (l': seq<nat>)
    requires Combining(b, elems, used) && b.len >= 2 && |l| == |b.fc| && CodeOver(Roots(b), l, m)
    requires i < b.len && l[Roots(b)[i]] == m
    ensures |l'| == |l| && CodeOver(Roots(b), l', m) && l'[Roots(b)[0]] == m && m >= 1
    ensures Price(Roots(b), b.fc, l') <= Price(Roots(b), b.fc, l)
  {
    RootsDistinct(b, elems, used);
    var t := SonsAmong(b, elems, used);
    hide Combining, CodeOver;
    var s := Roots(b);
    LengthsKept(s, l, m);
    l' := l[s[0] := l[s[i]]][s[i] := l[s[0]]];
    Exchange(s, b.fc, l, m, 0, i, l');
    TwoAtLeast(s, l, m);
  }

  lemma {:induction false} LengthsKept(s: seq<nat>, l: seq<nat>, m: nat)
    requires CodeOver(s, l, m)
    ensures forall i :: 0 <= i < |s| ==> s[i] < |l| && l[s[i]] <= m
  {
  }

  lemma {:induction false} TwoAtLeast(s: seq<nat>, l: seq<nat>, m: nat)
    requires CodeOver(s, l, m) && |s| >= 2
    ensures m >= 1
  {
    SharesCount(s, l, m);
  }

  // And the second least, if another node is there too.
  lemma {:induction false} SecondDown(b: Build, elems: nat, used: set<nat>, l: seq<nat>, m: nat, i: nat)
    returns (l': seq<nat>)
    requires Combining(b, elems, used) && b.len >= 2 && |l| == |b.fc| && CodeOver(Roots(b), l, m)
    requires 1 <= i < b.len && l[Roots(b)[i]] == m == l[Roots(b)[0]]
    ensures StepOk(b) && |l'| == |l| && CodeOver(Roots(b), l', m)
    ensures b.heap[1] < |l| && Removed(b)[1] < |l| && l'[b.heap[1]] == m == l'[Removed(b)[1]]
    ensures Price(Roots(b), b.fc, l') <= Price(Roots(b), b.fc, l)
  {
    RootsDistinct(b, elems, used);
    var t := SonsAmong(b, elems, used);
    hide Combining, CodeOver, Removed;
    var s := Roots(b);
    LengthsKept(s, l, m);
    l' := l[s[t] := l[s[i]]][s[i] := l[s[t]]];
    Exchange(s, b.fc, l, m, t, i, l');
  }

  // No code for the nodes in the heap costs less than the joins to come.
  lemma {:induction false} NoCheaper(b: Build, elems: nat, used: set<nat>, l: seq<nat>, m: nat)
    requires Combining(b, elems, used) && Light(b) && |l| == |b.fc| && CodeOver(Roots(b), l, m)
    ensures Joins(b) <= Price(Roots(b), b.fc, l)
    decreases b.len, m
  {
    hide Combining, CodeOver, Light, Price, Removed, Step;
    if b.len >= 2 {
      RootsDistinct(b, elems, used);
      LengthsKept(Roots(b), l, m);
      if i :| 0 <= i < b.len && l[Roots(b)[i]] == m {
        var l1 := FirstDown(b, elems, used, l, m, i);
        LengthsKept(Roots(b), l1, m);
        if j :| 1 <= j < b.len && l1[Roots(b)[j]] == m {
          var l2 := SecondDown(b, elems, used, l1, m, j);
          LightStep(b, elems, used);
          StepKeeps(b, elems, used);
          Merge(b, elems, used, l2, m, l2[b.node := m - 1]);
          NoCheaper(Step(b), elems, used, l2[b.node := m - 1], m);
        } else {
          Shorten(Roots(b), b.fc, l1, m, 0, l1[Roots(b)[0] := m - 1]);
          NoCheaper(b, elems, used, l1[Roots(b)[0] := m - 1], m - 1);
        }
      } else {
        LowerLimit(Roots(b), l, m);
        NoCheaper(b, elems, used, l, m - 1);
      }
    }
  }

  // What the loop ends with.
  ghost function Final(b: Build): Build
    decreases b.len
  {
    if StepOk(b) then Final(Step(b)) else b
  }

  lemma {:induction false} FinalKeeps(b: Build, elems: nat, used: set<nat>)
    requires Combining(b, elems, used)
    ensures Combining(Final(b), elems, used) && Final(b).len == 1 && Final(b).node >= b.node
    decreases b.len
  {
    if b.len >= 2 {
      StepKeeps(b, elems, used);
      FinalKeeps(Step(b), elems, used);
    }
  }

  // A node that has left the heap keeps its father.
  lemma {:induction false} DadKept(b: Build, elems: nat, used: set<nat>, x: nat)
    requires Combining(b, elems, used) && x < b.node && x < |b.dl| && x !in Roots(b)
    ensures x < |Final(b).dl| && Final(b).dl[x] == b.dl[x]
    decreases b.len
  {
    if b.len >= 2 {
      StepKeeps(b, elems, used);
      var t := SonsAmong(b, elems, used);
      RootsStep(b, elems, used);
      if x in Roots(Step(b)) { RootAfter(b, elems, used, x); }
      DadKept(Step(b), elems, used, x);
    }
  }

  // d gives every node of the finished tree one more than its father, and the root none.
  ghost predicate DepthsIn(b: Build, elems: nat, used: set<nat>, d: seq<nat>)
  {
    && |d| == |b.fc| && 1 <= b.node <= |d| && d[b.node - 1] == 0
    && forall x :: x in Nodes(used, elems, b.node) && x < b.node - 1 ==> SonOf(b, d, x)
  }

  ghost predicate SonOf(b: Build, d: seq<nat>, x: nat)
  {
    x < |b.dl| && x < |d| && b.dl[x] < |d| && d[x] == d[b.dl[x]] + 1
  }

  // The two sons of a round stay sons of the new node.
  lemma {:induction false} SonsStay(b: Build, elems: nat, used: set<nat>, d: seq<nat>)
    requires Combining(b, elems, used) && b.len >= 2 && DepthsIn(Final(b), elems, used, d)
    ensures StepOk(b) && b.node < |d| && b.heap[1] < |d| && Removed(b)[1] < |d|
    ensures d[b.heap[1]] == d[Removed(b)[1]] == d[b.node] + 1
  {
    hide Combining, Removed, Sink, Joined, NodesIn;
    StepKeeps(b, elems, used);
    RootsStep(b, elems, used);
    RootsDistinct(b, elems, used);
    RootsDistinct(Step(b), elems, used);
    var t := SonsAmong(b, elems, used);
    FinalKeeps(Step(b), elems, used);
    var n, m := b.heap[1], Removed(b)[1];
    if n in Roots(Step(b)) { RootAfter(b, elems, used, n); }
    if m in Roots(Step(b)) { RootAfter(b, elems, used, m); }
    DadKept(Step(b), elems, used, n);
    DadKept(Step(b), elems, used, m);
    assert SonOf(Final(b), d, n) && SonOf(Final(b), d, m);
  }

  // The depths cost exactly the joins.
  lemma {:induction false} DepthPrice(b: Build, elems: nat, used: set<nat>, d: seq<nat>)
    requires Combining(b, elems, used) && Light(b) && |used| >= 2 && DepthsIn(Final(b), elems, used, d)
    ensures |d| == |b.fc| && Price(Roots(b), b.fc, d) == Joins(b)
    decreases b.len
  {
    hide Combining, Light, Pay, Price, Step, Removed, StepOk;
    RootsDistinct(b, elems, used);
    if b.len >= 2 {
      LightStep(b, elems, used);
      StepKeeps(b, elems, used);
      DepthPrice(Step(b), elems, used, d);
      DepthStep(b, elems, used, d);
    } else {
      LastPrice(b, elems, used, d);
    }
  }

  lemma {:induction false} LastIsRoot(b: Build, elems: nat, used: set<nat>)
    requires Combining(b, elems, used) && b.len == 1 && |used| >= 2
    ensures 1 < |b.heap| && b.node >= 1 && b.heap[1] == b.node - 1
  {
    RootLast(b, elems, used);
  }

  lemma {:induction false} LastPrice(b: Build, elems: nat, used: set<nat>, d: seq<nat>)
    requires Combining(b, elems, used) && b.len == 1 && |used| >= 2 && DepthsIn(Final(b), elems, used, d)
    ensures |d| == |b.fc| && Price(Roots(b), b.fc, d) == 0 == Joins(b)
  {
    hide Combining, NodesIn, Step, Removed, Nodes;
    RootsDistinct(b, elems, used);
    LastIsRoot(b, elems, used);
    assert Roots(b) == [] + [b.node - 1];
    SumSnoc([], b.node - 1, |d|, Pay(b.fc, d));
  }

  lemma {:induction false} DepthStep(b: Build, elems: nat, used: set<nat>, d: seq<nat>)
    requires Combining(b, elems, used) && b.len >= 2 && Light(b) && |d| == |b.fc| && DepthsIn(Final(b), elems, used, d)
    ensures StepOk(b) && Step(b).len < |Step(b).heap|
    ensures Price(Roots(b), b.fc, d)
            == Price(Roots(Step(b)), Step(b).fc, d) + b.fc[b.heap[1]] + b.fc[Removed(b)[1]]
  {
    hide Combining, Step, Removed, StepOk, Light, Pay, DepthsIn, Final;
    SonsStay(b, elems, used, d);
    LightStep(b, elems, used);
    RootsDistinct(b, elems, used);
    var t := SonsAmong(b, elems, used);
    StepSum(b, elems, used, Pay(Step(b).fc, d));
    assert d[b.node := d[b.node]] == d;
    PayAside(Roots(b), 0, t, b.fc, d, d[b.node], b.node, Step(b).fc, d);
  }

  // The tree that the loop ends with has the cheapest lengths of all.
  lemma {:induction false} TreeIsCheapest(b: Build, elems: nat, used: set<nat>, d: seq<nat>, l: seq<nat>, m: nat)
    requires Combining(b, elems, used) && Light(b) && |used| >= 2 && DepthsIn(Final(b), elems, used, d)
    requires |l| == |b.fc| && CodeOver(Roots(b), l, m)
    ensures |d| == |b.fc| && Price(Roots(b), b.fc, d) <= Price(Roots(b), b.fc, l)
  {
    DepthPrice(b, elems, used, d);
    NoCheaper(b, elems, used, l, m);
  }
}
