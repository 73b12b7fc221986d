/** The combining loop of build_tree. One array holds the shrinking heap of subtree roots
    in heap[1..heap_len] and the growing list of finished nodes in heap[heap_max..]. */
module HuffmanTree {
  import opened Bits
  import opened CanonicalCode
  import opened HuffmanHeap

  const HEAP_SIZE := 2 * L_CODES + 1

  // The tree's nodes so far: the used symbols and the internal nodes elems..node-1.
  ghost function Nodes(used: set<nat>, elems: nat, node: nat): (u: set<nat>)
    ensures forall x :: x in u <==> x in used || elems <= x < node
  {
    used + Range(elems, node)
  }

  ghost function Range(lo: nat, hi: nat): (r: set<nat>)
    ensures forall i :: i in r <==> lo <= i < hi
  {
    if hi <= lo then {} else Range(lo, hi - 1) + {hi - 1}
  }

  // The two sons of internal node elems + j are listed side by side and know their father.
  ghost predicate PairAt(dl: seq<nat>, heap: seq<nat>, elems: nat, j: nat)
    requires |heap| == HEAP_SIZE && 2 * j + 2 <= HEAP_SIZE
  {
    var n, m := heap[HEAP_SIZE - 1 - 2 * j], heap[HEAP_SIZE - 2 - 2 * j];
    && n < elems + j && m < elems + j && n < |dl| && m < |dl|
    && dl[n] == elems + j && dl[m] == elems + j
  }

  // Heap and list together hold every node exactly once and do not meet.
  ghost predicate Forest(dl: seq<nat>, heap: seq<nat>, len: nat, max: nat, elems: nat, node: nat, used: set<nat>)
  {
    && |heap| == HEAP_SIZE && elems <= L_CODES && elems <= node
    && |dl| >= 2 * elems + 1
    && (forall x :: x in used ==> x < elems)
    && 1 <= len && len + (node - elems) == |used|
    && max == HEAP_SIZE - 2 * (node - elems) && len < max
    && multiset(heap[1..len + 1]) + multiset(heap[max..]) == multiset(Nodes(used, elems, node))
    && forall j :: 0 <= j < node - elems ==> PairAt(dl, heap, elems, j)
  }

  lemma {:induction false} UsedBound(used: set<nat>, elems: nat)
    requires forall x :: x in used ==> x < elems
    ensures |used| <= elems
  {
    if elems == 0 {
      assert used == {};
    } else {
      UsedBound(used - {elems - 1}, elems - 1);
    }
  }

  lemma {:induction false} CutMultiset(g: seq<nat>, a: nat, b: nat)
    requires a <= b <= |g|
    ensures multiset(g) == multiset(g[..a]) + multiset(g[a..b]) + multiset(g[b..])
  {
    assert g == g[..a] + g[a..b] + g[b..];
  }

  lemma {:induction false} SliceMultiset(g: seq<nat>, h: seq<nat>, a: nat, b: nat)
    requires |g| == |h| && a <= b <= |g| && multiset(g) == multiset(h)
    requires forall i :: 0 <= i < |g| && (i < a || i >= b) ==> g[i] == h[i]
    ensures multiset(g[a..b]) == multiset(h[a..b])
  {
    CutMultiset(g, a, b);
    CutMultiset(h, a, b);
    assert g[..a] == h[..a] && g[b..] == h[b..];
    Cancel(multiset(g[..a]), multiset(g[a..b]), multiset(h[a..b]), multiset(g[b..]));
  }

  lemma {:induction false} Cancel(x: multiset<nat>, a: multiset<nat>, b: multiset<nat>, y: multiset<nat>)
    requires x + a + y == x + b + y
    ensures a == b
  {
    forall e ensures a[e] == b[e] {
      assert (x + a + y)[e] == (x + b + y)[e];
    }
  }

  lemma {:induction false} RemoveTop(h: seq<nat>, len: nat)
    requires 2 <= len < |h|
    ensures multiset(h[1 := h[len]][1..len]) + multiset{h[1]} == multiset(h[1..len + 1])
  {
    assert h[1..len + 1] == [h[1]] + h[2..len] + [h[len]];
    assert h[1 := h[len]][1..len] == [h[len]] + h[2..len];
  }

  lemma {:induction false} ReplaceTop(h: seq<nat>, len: nat, x: nat)
    requires 1 <= len < |h|
    ensures multiset(h[1 := x][1..len + 1]) + multiset{h[1]} == multiset(h[1..len + 1]) + multiset{x}
  {
    assert h[1..len + 1] == [h[1]] + h[2..len + 1];
    assert h[1 := x][1..len + 1] == [x] + h[2..len + 1];
  }

  lemma {:induction false} ElementOfSlice(h: seq<nat>, a: nat, b: nat, i: nat)
    requires a <= i < b <= |h|
    ensures h[i] in multiset(h[a..b])
  {
    assert h[i] == h[a..b][i - a];
  }

  // What is in the heap is a node, and is not in the list.
  lemma {:induction false} HeapNode(dl: seq<nat>, heap: seq<nat>, len: nat, max: nat, elems: nat, node: nat,
      used: set<nat>, i: nat)
    requires Forest(dl, heap, len, max, elems, node, used) && 1 <= i <= len
    ensures heap[i] in Nodes(used, elems, node) && heap[i] < node
    ensures forall t :: max <= t < HEAP_SIZE ==> heap[t] != heap[i]
    ensures node < 2 * elems
  {
    UsedBound(used, elems);
    ElementOfSlice(heap, 1, len + 1, i);
    var u := multiset(Nodes(used, elems, node));
    assert heap[i] in u;
    forall t | max <= t < HEAP_SIZE ensures heap[t] != heap[i] {
      ElementOfSlice(heap, max, HEAP_SIZE, t);
      assert heap[max..HEAP_SIZE] == heap[max..];
      assert u[heap[i]] <= 1;
    }
  }

  // The heap array through one round: h1 is h0 without its top n, refilled and sifted; the
  // top m of h1 and n go to the list; the new father takes m's place.
  ghost predicate Rounds(h0: seq<nat>, len: nat, max: nat, h1: seq<nat>, h2: seq<nat>, node: nat)
    requires |h0| == HEAP_SIZE && 2 <= len && len < max <= HEAP_SIZE
  {
    && |h1| == |h2| == HEAP_SIZE
    && multiset(h1) == multiset(h0[1 := h0[len]])
    && (forall i :: 0 <= i < HEAP_SIZE && (i < 1 || i > len - 1) ==> h1[i] == h0[1 := h0[len]][i])
    && h2 == h1[max - 1 := h0[1]][max - 2 := h1[1]][1 := node]
  }

  lemma {:induction false} RoundElements(h0: seq<nat>, len: nat, max: nat, h1: seq<nat>, h2: seq<nat>, node: nat)
    requires |h0| == HEAP_SIZE && 2 <= len && len + 2 <= max <= HEAP_SIZE
    requires Rounds(h0, len, max, h1, h2, node)
    ensures h1[1] in multiset(h0[1..len + 1]) - multiset{h0[1]}
    ensures multiset(h2[1..len]) + multiset(h2[max - 2..])
            == multiset(h0[1..len + 1]) + multiset(h0[max..]) + multiset{node}
  {
    var n, m := h0[1], h1[1];
    RemoveTop(h0, len);
    SliceMultiset(h1, h0[1 := h0[len]], 1, len);
    ElementOfSlice(h1, 1, len, 1);
    ReplaceTop(h1, len - 1, node);
    assert h2[1..len] == h1[1 := node][1..len];
    assert h2[max - 2..] == [m, n] + h0[max..] by {
      assert h1[max..] == h0[max..];
    }
  }

  // One round keeps the forest and adds the father of n and m.
  lemma {:induction false} CombineForest(dl: seq<nat>, h0: seq<nat>, len: nat, max: nat, elems: nat, node: nat,
      used: set<nat>, h1: seq<nat>, h2: seq<nat>, h3: seq<nat>, dl': seq<nat>)
    requires Forest(dl, h0, len, max, elems, node, used) && 2 <= len
    requires len + 2 <= max && Rounds(h0, len, max, h1, h2, node)
    requires |h3| == HEAP_SIZE && multiset(h3) == multiset(h2)
    requires forall i :: 0 <= i < HEAP_SIZE && (i < 1 || i > len - 1) ==> h3[i] == h2[i]
    requires h0[1] < |dl| && h1[1] < |dl|
    requires dl' == dl[h0[1] := node][h1[1] := node]
    ensures Forest(dl', h3, len - 1, max - 2, elems, node + 1, used)
  {
    var m := h1[1];
    RoundElements(h0, len, max, h1, h2, node);
    SliceMultiset(h3, h2, 1, len);
    assert h3[max - 2..] == h2[max - 2..];
    NewNodes(used, elems, node);
    HeapNode(dl, h0, len, max, elems, node, used, 1);
    MemberOfSlice(h0, len, m);
    var i :| 1 <= i <= len && h0[i] == m;
    CombinePairs(dl, h0, len, max, elems, node, used, i, h3, dl');
  }

  lemma {:induction false} CombinePairs(dl: seq<nat>, h0: seq<nat>, len: nat, max: nat, elems: nat, node: nat,
      used: set<nat>, i: nat, h: seq<nat>, dl': seq<nat>)
    requires Forest(dl, h0, len, max, elems, node, used) && 2 <= len && len + 2 <= max
    requires 1 <= i <= len && h0[1] < |dl| && h0[i] < |dl|
    requires |h| == HEAP_SIZE && h[max..] == h0[max..] && h[max - 1] == h0[1] && h[max - 2] == h0[i]
    requires dl' == dl[h0[1] := node][h0[i] := node]
    ensures forall j :: 0 <= j <= node - elems ==> PairAt(dl', h, elems, j)
  {
    HeapNode(dl, h0, len, max, elems, node, used, 1);
    HeapNode(dl, h0, len, max, elems, node, used, i);
    forall j | 0 <= j <= node - elems ensures PairAt(dl', h, elems, j) {
      if j < node - elems {
        assert PairAt(dl, h0, elems, j);
        assert h[max..][HEAP_SIZE - 1 - 2 * j - max] == h0[max..][HEAP_SIZE - 1 - 2 * j - max];
        assert h[max..][HEAP_SIZE - 2 - 2 * j - max] == h0[max..][HEAP_SIZE - 2 - 2 * j - max];
      }
    }
  }

  lemma {:induction false} MemberOfSlice(h: seq<nat>, len: nat, x: nat)
    requires 1 <= len < |h| && x in multiset(h[1..len + 1])
    ensures exists i :: 1 <= i <= len && h[i] == x
  {
    var t :| 0 <= t < |h[1..len + 1]| && h[1..len + 1][t] == x;
    assert h[t + 1] == x;
  }

  lemma {:induction false} NewNodes(used: set<nat>, elems: nat, node: nat)
    requires elems <= node && forall x :: x in used ==> x < elems
    ensures multiset(Nodes(used, elems, node + 1)) == multiset(Nodes(used, elems, node)) + multiset{node}
  {
    assert Nodes(used, elems, node + 1) == Nodes(used, elems, node) + {node};
    assert node !in Nodes(used, elems, node);
  }

  // Taking the top out leaves heap order everywhere but at the top.
  lemma {:induction false} RemoveOrder(fc: seq<nat>, depth: seq<nat>, h: seq<nat>, len: nat)
    requires |depth| >= |fc| && NodesIn(h, len, |fc|) && HeapFrom(fc, depth, h, len, 1) && 2 <= len
    ensures NodesIn(h[1 := h[len]], len - 1, |fc|)
    ensures HeapFrom(fc, depth, h[1 := h[len]], len - 1, 2)
  {
    var h', l := h[1 := h[len]], len - 1;
    forall p | 2 <= p <= l ensures OrderedAt(fc, depth, h', l, p, 0) {
      assert OrderedAt(fc, depth, h, len, p, 0);
    }
  }

  // Putting a new node on top likewise.
  lemma {:induction false} InsertOrder(fc: seq<nat>, depth: seq<nat>, h: seq<nat>, len: nat, node: nat, f: nat,
      d: nat, h': seq<nat>)
    requires |depth| >= |fc| && NodesIn(h, len, |fc|) && HeapFrom(fc, depth, h, len, 1)
    requires node < |fc| && 1 <= len && len < |h'| && h'[1] == node
    requires forall i :: 2 <= i <= len ==> h'[i] == h[i] && h[i] != node
    ensures NodesIn(h', len, |fc|)
    ensures HeapFrom(fc[node := f], depth[node := d], h', len, 2)
  {
    var fc', depth' := fc[node := f], depth[node := d];
    forall p | 2 <= p <= len ensures OrderedAt(fc', depth', h', len, p, 0) {
      assert OrderedAt(fc, depth, h, len, p, 0);
    }
  }

  // n is a least element of the heap and m a least one of the others.
  ghost predicate LeastTwo(fc: seq<nat>, depth: seq<nat>, h: seq<nat>, len: nat, n: nat, m: nat)
    requires |depth| >= |fc| && NodesIn(h, len, |fc|) && n < |fc| && m < |fc|
  {
    && 2 <= len && h[1] == n
    && (forall i :: 1 <= i <= len ==> Smaller(fc, depth, n, h[i]))
    && (exists i :: 2 <= i <= len && h[i] == m)
    && forall i :: 2 <= i <= len ==> Smaller(fc, depth, m, h[i])
  }

  // x is one of h[a..b + 1].
  ghost predicate Among(h: seq<nat>, a: nat, b: nat, x: nat)
    requires b < |h|
  {
    exists t :: a <= t <= b && h[t] == x
  }

  // After the top is out and the last entry has sunk from its place, the heap holds the others.
  lemma {:induction false} Reheaped(fc: seq<nat>, depth: seq<nat>, h0: seq<nat>, len: nat, h1: seq<nat>)
    requires |depth| >= |fc| && 2 <= len < |h0| && Restored(fc, depth, h0[1 := h0[len]], h1, len - 1, 1)
    ensures |h1| == |h0| && NodesIn(h1, len - 1, |fc|) && HeapFrom(fc, depth, h1, len - 1, 1)
    ensures multiset(h1[1..len]) == multiset(h0[2..len + 1])
  {
    hide HeapFrom, NodesIn;
    SliceMultiset(h1, h0[1 := h0[len]], 1, len);
    RemovedSlice(h0, len);
  }

  lemma {:induction false} OldAmongNew(h0: seq<nat>, len: nat, h1: seq<nat>, i: nat)
    requires 2 <= i <= len < |h0| == |h1| && multiset(h1[1..len]) == multiset(h0[2..len + 1])
    ensures Among(h1, 1, len - 1, h0[i])
  {
    ElementOfSlice(h0, 2, len + 1, i);
    MemberOfSlice(h1, len - 1, h0[i]);
  }

  lemma {:induction false} NewAmongOld(h0: seq<nat>, len: nat, h1: seq<nat>, i: nat)
    requires 1 <= i < len < |h0| == |h1| && multiset(h1[1..len]) == multiset(h0[2..len + 1])
    ensures Among(h0, 2, len, h1[i])
  {
    ElementOfSlice(h1, 1, len, i);
    var t :| 0 <= t < |h0[2..len + 1]| && h0[2..len + 1][t] == h1[i];
    assert h0[t + 2] == h1[i];
  }

  lemma {:induction false} TwoLeast(fc: seq<nat>, depth: seq<nat>, h0: seq<nat>, len: nat, h1: seq<nat>)
    requires |depth| >= |fc| && 2 <= len < |h0| == |h1| && NodesIn(h0, len, |fc|) && HeapFrom(fc, depth, h0, len, 1)
    requires NodesIn(h1, len - 1, |fc|) && HeapFrom(fc, depth, h1, len - 1, 1)
    requires multiset(h1[1..len]) == multiset(h0[2..len + 1])
    ensures LeastTwo(fc, depth, h0, len, h0[1], h1[1])
  {
    hide HeapFrom, Smaller;
    forall i | 1 <= i <= len ensures Smaller(fc, depth, h0[1], h0[i]) {
      TopIsSmallest(fc, depth, h0, len, i);
    }
    forall i | 2 <= i <= len ensures Smaller(fc, depth, h1[1], h0[i]) {
      OldAmongNew(h0, len, h1, i);
      var t :| 1 <= t <= len - 1 && h1[t] == h0[i];
      TopIsSmallest(fc, depth, h1, len - 1, t);
    }
    NewAmongOld(h0, len, h1, 1);
  }

  // After the top n is out: m, the new top, is another node, and both are least.
  lemma {:induction false} RoundNodes(fc: seq<nat>, depth: seq<nat>, dl: seq<nat>, h0: seq<nat>, len: nat, max: nat,
      elems: nat, node: nat, used: set<nat>, h1: seq<nat>)
    requires Forest(dl, h0, len, max, elems, node, used) && 2 <= len && |dl| == |fc| == 2 * elems + 1
    requires |depth| >= |fc| && NodesIn(h0, len, |fc|) && HeapFrom(fc, depth, h0, len, 1)
    requires Restored(fc, depth, h0[1 := h0[len]], h1, len - 1, 1)
    ensures len + 2 <= max && node < 2 * elems
    ensures h0[1] in Nodes(used, elems, node) && h1[1] in Nodes(used, elems, node)
    ensures LeastTwo(fc, depth, h0, len, h0[1], h1[1])
    ensures forall i :: 1 <= i <= len - 1 ==> h1[i] != node
  {
    hide Restored, LeastTwo, HeapFrom, Smaller, NodesIn, PairAt, Nodes;
    UsedBound(used, elems);
    HeapNode(dl, h0, len, max, elems, node, used, 1);
    Reheaped(fc, depth, h0, len, h1);
    TwoLeast(fc, depth, h0, len, h1);
    forall i | 1 <= i <= len - 1 ensures h1[i] in Nodes(used, elems, node) && h1[i] != node {
      NewAmongOld(h0, len, h1, i);
      var t :| 2 <= t <= len && h0[t] == h1[i];
      HeapNode(dl, h0, len, max, elems, node, used, t);
    }
  }

  lemma {:induction false} RemovedSlice(h: seq<nat>, len: nat)
    requires 2 <= len < |h|
    ensures multiset(h[1 := h[len]][1..len]) == multiset(h[2..len + 1])
  {
    assert h[2..len + 1] == h[2..len] + [h[len]];
    assert h[1 := h[len]][1..len] == [h[len]] + h[2..len];
  }

  // The arrays and counters of the combining loop, taken together.
  datatype Build = Build(fc: seq<nat>, dl: seq<nat>, depth: seq<nat>, heap: seq<nat>, len: nat, max: nat, node: nat)

  // What the code of one round needs in order to stay inside its arrays.
  ghost predicate StepOk(b: Build)
  {
    && |b.heap| == HEAP_SIZE && |b.depth| >= |b.fc| == |b.dl|
    && 2 <= b.len && b.len + 2 <= b.max <= HEAP_SIZE
    && NodesIn(b.heap, b.len, |b.fc|) && b.node < |b.fc|
  }

  // The heap without its top n: the last element takes n's place and sinks.
  ghost function Removed(b: Build): (h: seq<nat>)
    requires StepOk(b)
    ensures |h| == HEAP_SIZE && NodesIn(h, b.len - 1, |b.fc|)
  {
    Sink(b.fc, b.depth, b.heap[1 := b.heap[b.len]], b.len - 1, 1, b.heap[b.len])
  }

  // The two sons are listed and their father takes the second one's place.
  ghost function Joined(b: Build): (h: seq<nat>)
    requires StepOk(b)
    ensures |h| == HEAP_SIZE && NodesIn(h, b.len - 1, |b.fc|) && h[1] == b.node
  {
    Removed(b)[b.max - 1 := b.heap[1]][b.max - 2 := Removed(b)[1]][1 := b.node]
  }

  function FatherFreq(f: nat, f': nat): nat { Low(f + f', 16) }

  function FatherDepth(d: nat, d': nat): nat { Low((if d >= d' then d else d') + 1, 8) }

  // One round: the two least frequent nodes n and m become sons of a new node.
  ghost function Step(b: Build): (b': Build)
    requires StepOk(b)
  {
    var n, m := b.heap[1], Removed(b)[1];
    var fc', depth' := b.fc[b.node := FatherFreq(b.fc[n], b.fc[m])],
                       b.depth[b.node := FatherDepth(b.depth[n], b.depth[m])];
    Build(fc', b.dl[n := b.node][m := b.node], depth',
          Sink(fc', depth', Joined(b), b.len - 1, 1, b.node), b.len - 1, b.max - 2, b.node + 1)
  }

  ghost predicate Combining(b: Build, elems: nat, used: set<nat>)
  {
    && Forest(b.dl, b.heap, b.len, b.max, elems, b.node, used)
    && |b.fc| == |b.dl| == 2 * elems + 1 && |b.depth| == HEAP_SIZE
    && NodesIn(b.heap, b.len, |b.fc|) && HeapFrom(b.fc, b.depth, b.heap, b.len, 1)
  }

  // Heap and list do not meet in a round, and every index is in range.
  lemma {:induction false} CombiningStepOk(b: Build, elems: nat, used: set<nat>)
    requires Combining(b, elems, used) && b.len >= 2
    ensures StepOk(b)
  {
    UsedBound(used, elems);
  }

  lemma {:induction false} RemovedKeeps(b: Build, elems: nat, used: set<nat>)
    requires Combining(b, elems, used) && b.len >= 2 && StepOk(b)
    ensures Restored(b.fc, b.depth, b.heap[1 := b.heap[b.len]], Removed(b), b.len - 1, 1)
  {
    RemoveOrder(b.fc, b.depth, b.heap, b.len);
    SinkRestores(b.fc, b.depth, b.heap[1 := b.heap[b.len]], b.len - 1, 1);
  }

  lemma {:induction false} JoinedKeeps(b: Build)
    requires StepOk(b) && HeapFrom(b.fc, b.depth, Removed(b), b.len - 1, 1)
    requires forall i :: 1 <= i <= b.len - 1 ==> Removed(b)[i] != b.node
    ensures Restored(Step(b).fc, Step(b).depth, Joined(b), Step(b).heap, b.len - 1, 1)
  {
    var n, m := b.heap[1], Removed(b)[1];
    InsertOrder(b.fc, b.depth, Removed(b), b.len - 1, b.node,
                FatherFreq(b.fc[n], b.fc[m]), FatherDepth(b.depth[n], b.depth[m]), Joined(b));
    SinkRestores(Step(b).fc, Step(b).depth, Joined(b), b.len - 1, 1);
  }

  lemma {:induction false} StepNodes(b: Build, elems: nat, used: set<nat>)
    requires Combining(b, elems, used) && b.len >= 2 && StepOk(b)
    ensures Restored(b.fc, b.depth, b.heap[1 := b.heap[b.len]], Removed(b), b.len - 1, 1)
    ensures b.heap[1] in Nodes(used, elems, b.node) && Removed(b)[1] in Nodes(used, elems, b.node)
    ensures LeastTwo(b.fc, b.depth, b.heap, b.len, b.heap[1], Removed(b)[1])
    ensures forall i :: 1 <= i <= b.len - 1 ==> Removed(b)[i] != b.node
  {
    hide LeastTwo, HeapFrom, Restored, Forest, Removed, Nodes;
    RemovedKeeps(b, elems, used);
    RoundNodes(b.fc, b.depth, b.dl, b.heap, b.len, b.max, elems, b.node, used, Removed(b));
  }

  lemma {:induction false} StepForest(b: Build, elems: nat, used: set<nat>)
    requires Combining(b, elems, used) && b.len >= 2 && StepOk(b)
    requires Restored(b.fc, b.depth, b.heap[1 := b.heap[b.len]], Removed(b), b.len - 1, 1)
    requires Restored(Step(b).fc, Step(b).depth, Joined(b), Step(b).heap, b.len - 1, 1)
    ensures Combining(Step(b), elems, used)
  {
    hide HeapFrom, Forest, Sink;
    CombineForest(b.dl, b.heap, b.len, b.max, elems, b.node, used, Removed(b), Joined(b), Step(b).heap, Step(b).dl);
  }

  // A round keeps heap order, keeps heap and list apart and complete, and takes the two
  // least nodes.
  lemma {:induction false} StepKeeps(b: Build, elems: nat, used: set<nat>)
    requires Combining(b, elems, used) && b.len >= 2
    ensures StepOk(b) && Combining(Step(b), elems, used)
    ensures b.heap[1] in Nodes(used, elems, b.node) && Removed(b)[1] in Nodes(used, elems, b.node)
    ensures LeastTwo(b.fc, b.depth, b.heap, b.len, b.heap[1], Removed(b)[1])
  {
    hide LeastTwo, HeapFrom, Combining, Nodes, Step, Joined, Removed, Sink;
    CombiningStepOk(b, elems, used);
    StepNodes(b, elems, used);
    JoinedKeeps(b);
    StepForest(b, elems, used);
  }
}
