/** The finished list of tree nodes, and what the first pass of gen_bitlen finds in it: the
    depth of every node, cut off at the longest allowed length, and the number of nodes that
    had to be cut. */
module BitLengths {
  import opened Bits
  import opened HuffmanTree

  // The list in heap[heap_max..]: a root, then the pairs of sons, fathers before sons. The
  // pair of internal node elems + j ends at index 2k - 2j.
  ghost predicate SonsAt(dad: seq<nat>, ord: seq<nat>, elems: nat, k: nat, j: nat)
    requires |ord| == 2 * k + 1 && j < k
  {
    var n, m := ord[2 * k - 2 * j], ord[2 * k - 1 - 2 * j];
    && n < elems + j && m < elems + j && n < |dad| && m < |dad|
    && dad[n] == elems + j && dad[m] == elems + j
  }

  ghost predicate TreeList(dad: seq<nat>, ord: seq<nat>, elems: nat, k: nat, used: set<nat>)
  {
    && 1 <= k && k + 1 == |used| && elems + k <= |dad|
    && |ord| == 2 * k + 1 && ord[0] == elems + k - 1
    && (forall x :: x in used ==> x < elems)
    && multiset(ord) == multiset(Nodes(used, elems, elems + k))
    && forall j :: 0 <= j < k ==> SonsAt(dad, ord, elems, k, j)
  }

  // When one node is left in the heap it is the root, and the list is complete.
  lemma {:induction false} FinalList(b: Build, elems: nat, used: set<nat>)
    requires Combining(b, elems, used) && b.len == 1 && |used| >= 2
    ensures b.max >= 2 && b.node > elems
    ensures TreeList(b.dl, [b.heap[1]] + b.heap[b.max..], elems, b.node - elems, used)
  {
    var k := b.node - elems;
    var ord := [b.heap[1]] + b.heap[b.max..];
    UsedBound(used, elems);
    assert b.heap[1..2] == [b.heap[1]];
    assert multiset(ord) == multiset([b.heap[1]]) + multiset(b.heap[b.max..]);
    forall j | 0 <= j < k ensures SonsAt(b.dl, ord, elems, k, j) {
      assert PairAt(b.dl, b.heap, elems, j);
      assert ord[2 * k - 2 * j] == b.heap[HEAP_SIZE - 1 - 2 * j];
      assert ord[2 * k - 1 - 2 * j] == b.heap[HEAP_SIZE - 2 - 2 * j];
    }
    RootLast(b, elems, used);
  }

  lemma {:induction false} RootLast(b: Build, elems: nat, used: set<nat>)
    requires Combining(b, elems, used) && b.len == 1 && b.node > elems
    ensures b.heap[1] == b.node - 1
  {
    var r := b.node - 1;
    assert r in multiset(Nodes(used, elems, b.node));
    forall t | b.max <= t < HEAP_SIZE ensures b.heap[t] != r {
      var j := (HEAP_SIZE - 1 - t) / 2;
      assert PairAt(b.dl, b.heap, elems, j);
    }
    assert b.heap[1..2] == [b.heap[1]];
    assert r !in b.heap[b.max..];
  }

  lemma {:induction false} TwoPlaces(s: seq<nat>, i: nat, j: nat)
    requires i < j < |s|
    ensures multiset(s) >= multiset{s[i], s[j]}
  {
    assert s == s[..i] + [s[i]] + s[i + 1..j] + [s[j]] + s[j + 1..];
  }

  lemma {:induction false} ListDistinct(ord: seq<nat>, u: set<nat>, i: nat, j: nat)
    requires multiset(ord) == multiset(u) && i < j < |ord|
    ensures ord[i] != ord[j]
  {
    TwoPlaces(ord, i, j);
    assert multiset(u)[ord[i]] <= 1;
    assert multiset{ord[i], ord[j]}[ord[i]] <= 1;
  }

  lemma {:induction false} ListIndex(ord: seq<nat>, u: set<nat>, x: nat) returns (t: nat)
    requires multiset(ord) == multiset(u) && x in u
    ensures t < |ord| && ord[t] == x
  {
    assert x in multiset(ord);
    t :| 0 <= t < |ord| && ord[t] == x;
  }

  // The father of the node at index t.
  lemma {:induction false} FatherOf(dad: seq<nat>, ord: seq<nat>, elems: nat, k: nat, used: set<nat>, t: nat)
    requires TreeList(dad, ord, elems, k, used) && 1 <= t < |ord|
    ensures ord[t] < |dad| && dad[ord[t]] == elems + (2 * k - t) / 2 && ord[t] < dad[ord[t]] < elems + k
  {
    assert SonsAt(dad, ord, elems, k, (2 * k - t) / 2);
  }

  // Every father stands before its sons.
  lemma {:induction false} FatherFirst(dad: seq<nat>, ord: seq<nat>, elems: nat, k: nat, used: set<nat>, t: nat)
    returns (t': nat)
    requires TreeList(dad, ord, elems, k, used) && 1 <= t < |ord|
    ensures ord[t] < |dad| && t' < t && ord[t'] == dad[ord[t]]
  {
    FatherOf(dad, ord, elems, k, used, t);
    t' := ListIndex(ord, Nodes(used, elems, elems + k), dad[ord[t]]);
    if t' > 0 { FatherOf(dad, ord, elems, k, used, t'); }
  }

  // The depth of node x below the root, cut off at max.
  ghost function CutDepth(dad: seq<nat>, root: nat, max: nat, x: nat): (d: nat)
    ensures d <= max
    decreases root - x
  {
    if x >= root || x >= |dad| || !(x < dad[x] <= root) then 0
    else Min(CutDepth(dad, root, max, dad[x]) + 1, max)
  }

  // x lies below a node that already has the longest allowed length.
  ghost predicate Cut(dad: seq<nat>, root: nat, max: nat, x: nat)
  {
    x < root && x < |dad| && x < dad[x] <= root && CutDepth(dad, root, max, dad[x]) == max
  }

  ghost function Cuts(dad: seq<nat>, root: nat, max: nat, s: seq<nat>): (n: nat)
    ensures n <= |s|
  {
    if s == [] then 0
    else Cuts(dad, root, max, s[..|s| - 1]) + if Cut(dad, root, max, s[|s| - 1]) then 1 else 0
  }

  // The sum of f over those elements of s that are below bound.
  ghost function SumBelow(s: seq<nat>, bound: nat, f: nat -> nat): nat
  {
    if s == [] then 0
    else SumBelow(s[..|s| - 1], bound, f) + if s[|s| - 1] < bound then f(s[|s| - 1]) else 0
  }

  lemma {:induction false} SumSnoc(s: seq<nat>, x: nat, bound: nat, f: nat -> nat)
    ensures SumBelow(s + [x], bound, f) == SumBelow(s, bound, f) + if x < bound then f(x) else 0
  {
    assert (s + [x])[..|s|] == s;
  }

  lemma {:induction false} CutsSnoc(dad: seq<nat>, root: nat, max: nat, s: seq<nat>, x: nat)
    ensures Cuts(dad, root, max, s + [x]) == Cuts(dad, root, max, s) + if Cut(dad, root, max, x) then 1 else 0
  {
    assert (s + [x])[..|s|] == s;
  }

  lemma {:induction false} SumSameBound(s: seq<nat>, p: nat, f: nat -> nat)
    requires forall i :: 0 <= i < |s| ==> s[i] != p
    ensures SumBelow(s, p + 1, f) == SumBelow(s, p, f)
  {
    if s != [] { SumSameBound(s[..|s| - 1], p, f); }
  }

  // Lowering the bound past p takes out p's share, if p occurs once.
  lemma {:induction false} SumLowerBound(s: seq<nat>, p: nat, f: nat -> nat, t: nat)
    requires t < |s| && s[t] == p
    requires forall i :: 0 <= i < |s| && i != t ==> s[i] != p
    ensures SumBelow(s, p + 1, f) == SumBelow(s, p, f) + f(p)
  {
    var s' := s[..|s| - 1];
    if t == |s| - 1 {
      SumSameBound(s', p, f);
    } else {
      SumLowerBound(s', p, f, t);
    }
  }

  // Weights of a node: its share of the Kraft sum in units of 2^-max, one if it has the
  // longest length, one.
  ghost function KraftShare(dad: seq<nat>, root: nat, max: nat): nat -> nat
  {
    x => Pow2(max - CutDepth(dad, root, max, x))
  }

  ghost function AtMax(dad: seq<nat>, root: nat, max: nat): nat -> nat
  {
    x => if CutDepth(dad, root, max, x) == max then 1 else 0
  }

  ghost function One(): nat -> nat
  {
    x => 1
  }

  // After p internal nodes have been replaced by their sons, the nodes in hand weigh one
  // plus half the number of cut nodes.
  ghost predicate Balanced(dad: seq<nat>, root: nat, max: nat, s: seq<nat>, bound: nat, p: nat)
  {
    var c := Cuts(dad, root, max, s);
    && 2 * SumBelow(s, bound, KraftShare(dad, root, max)) == 2 * Pow2(max) + c
    && SumBelow(s, bound, One()) == p + 1
    && (c == 0 || 2 * SumBelow(s, bound, AtMax(dad, root, max)) >= c + 2)
  }

  // Replacing father f by two sons a and b changes a sum by the difference of their shares.
  lemma {:induction false} SumReplace(s: seq<nat>, f: nat, t: nat, a: nat, b: nat, g: nat -> nat)
    requires t < |s| && s[t] == f && forall i :: 0 <= i < |s| && i != t ==> s[i] != f
    requires a < f && b < f
    ensures SumBelow(s + [a] + [b], f, g) + g(f) == SumBelow(s, f + 1, g) + g(a) + g(b)
  {
    SumLowerBound(s, f, g, t);
    SumSnoc(s, a, f, g);
    SumSnoc(s + [a], b, f, g);
  }

  lemma {:induction false} BalancedStep(dad: seq<nat>, root: nat, max: nat, s: seq<nat>, f: nat, p: nat, t: nat,
      a: nat, b: nat, s': seq<nat>)
    requires s' == s + [a] + [b] && p >= 1
    requires Balanced(dad, root, max, s, f + 1, p - 1)
    requires t < |s| && s[t] == f && forall i :: 0 <= i < |s| && i != t ==> s[i] != f
    requires a < f && b < f && f <= root && a < |dad| && b < |dad| && dad[a] == f && dad[b] == f
    ensures Balanced(dad, root, max, s', f, p)
  {
    SumReplace(s, f, t, a, b, KraftShare(dad, root, max));
    SumReplace(s, f, t, a, b, AtMax(dad, root, max));
    SumReplace(s, f, t, a, b, One());
    CutsSnoc(dad, root, max, s, a);
    CutsSnoc(dad, root, max, s + [a], b);
    SonDepth(dad, root, max, a);
    SonDepth(dad, root, max, b);
  }

  lemma {:induction false} SonDepth(dad: seq<nat>, root: nat, max: nat, x: nat)
    requires x < root && x < |dad| && x < dad[x] <= root
    ensures var d := CutDepth(dad, root, max, dad[x]);
            && CutDepth(dad, root, max, x) == (if d < max then d + 1 else max)
            && (Cut(dad, root, max, x) <==> d == max)
            && (d < max ==> Pow2(max - d) == 2 * Pow2(max - (d + 1)))
  {
  }

  lemma {:induction false} BalancedUpTo(dad: seq<nat>, ord: seq<nat>, elems: nat, k: nat, used: set<nat>, max: nat,
      p: nat, root: nat, s: seq<nat>, bound: nat)
    requires TreeList(dad, ord, elems, k, used) && p <= k && max >= 1
    requires root == elems + k - 1 && s == ord[..2 * p + 1] && bound == elems + k - p
    ensures Balanced(dad, root, max, s, bound, p)
    decreases p
  {
    hide Balanced;
    if p == 0 {
      BalancedRoot(dad, root, max);
      assert [root] == s;
    } else {
      var s0, a, b := ord[..2 * p - 1], ord[2 * p - 1], ord[2 * p];
      assert s == s0 + [a] + [b];
      BalancedUpTo(dad, ord, elems, k, used, max, p - 1, root, s0, bound + 1);
      var t := FatherIn(dad, ord, elems, k, used, p);
      BalancedStep(dad, root, max, s0, bound, p, t, a, b, s);
    }
  }

  lemma {:induction false} BalancedRoot(dad: seq<nat>, root: nat, max: nat)
    requires max >= 1
    ensures Balanced(dad, root, max, [root], root + 1, 0)
  {
    SumSnoc([], root, root + 1, KraftShare(dad, root, max));
    SumSnoc([], root, root + 1, One());
    CutsSnoc(dad, root, max, [], root);
    assert [] + [root] == [root];
  }

  // The p-th pair of sons and the only place of its father.
  lemma {:induction false} FatherIn(dad: seq<nat>, ord: seq<nat>, elems: nat, k: nat, used: set<nat>, p: nat)
    returns (t: nat)
    requires TreeList(dad, ord, elems, k, used) && 1 <= p <= k
    ensures var s, f := ord[..2 * p - 1], elems + k - p;
            && t < |s| && s[t] == f && (forall i :: 0 <= i < |s| && i != t ==> s[i] != f)
            && (var a, b := ord[2 * p - 1], ord[2 * p];
                a < f && b < f && a < |dad| && b < |dad| && dad[a] == f && dad[b] == f)
  {
    FatherOf(dad, ord, elems, k, used, 2 * p - 1);
    FatherOf(dad, ord, elems, k, used, 2 * p);
    t := FatherFirst(dad, ord, elems, k, used, 2 * p - 1);
    forall i | 0 <= i < 2 * p - 1 && i != t ensures ord[i] != ord[t] {
      if i < t { ListDistinct(ord, Nodes(used, elems, elems + k), i, t); }
      else { ListDistinct(ord, Nodes(used, elems, elems + k), t, i); }
    }
  }

  // Over the whole list: the leaves' Kraft sum exceeds one by half the number of cut nodes,
  // which is therefore even, and enough leaves have the longest length.
  lemma {:induction false} LeavesBalanced(dad: seq<nat>, ord: seq<nat>, elems: nat, k: nat, used: set<nat>, max: nat,
      root: nat)
    requires TreeList(dad, ord, elems, k, used) && max >= 1 && root == elems + k - 1
    ensures Balanced(dad, root, max, ord, elems, k)
  {
    assert ord[..2 * k + 1] == ord;
    BalancedUpTo(dad, ord, elems, k, used, max, k, root, ord, elems);
  }
}
