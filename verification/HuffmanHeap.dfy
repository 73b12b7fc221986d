/** The priority queue of build_tree: a binary heap of tree nodes in heap[1..heap_len],
    ordered by frequency with the subtree depth as tie breaker. */
module HuffmanHeap {

  predicate KeyAtMost(freq: nat, depth: nat, freq': nat, depth': nat)
  {
    freq < freq' || (freq == freq' && depth <= depth')
  }

  // SMALLER(tree, n, m)
  predicate Smaller(fc: seq<nat>, depth: seq<nat>, n: nat, m: nat)
    requires n < |fc| && m < |fc| && n < |depth| && m < |depth|
  {
    KeyAtMost(fc[n], depth[n], fc[m], depth[m])
  }

  predicate SmallerNode(fc: array<nat>, depth: array<nat>, n: nat, m: nat)
    requires n < fc.Length && m < fc.Length && n < depth.Length && m < depth.Length
    reads fc, depth
  {
    KeyAtMost(fc[n], depth[n], fc[m], depth[m])
  }

  ghost predicate NodesIn(heap: seq<nat>, len: nat, bound: nat)
  {
    len < |heap| && forall i :: 1 <= i <= len ==> heap[i] < bound
  }

  // heap[p] is not larger than its sons, those at index `hole` excepted.
  ghost predicate OrderedAt(fc: seq<nat>, depth: seq<nat>, heap: seq<nat>, len: nat, p: nat, hole: nat)
    requires |depth| >= |fc| && NodesIn(heap, len, |fc|) && 1 <= p
  {
    && (2 * p <= len && 2 * p != hole ==> Smaller(fc, depth, heap[p], heap[2 * p]))
    && (2 * p + 1 <= len && 2 * p + 1 != hole ==> Smaller(fc, depth, heap[p], heap[2 * p + 1]))
  }

  // Every father from index `from` on is not larger than its sons.
  ghost predicate HeapFrom(fc: seq<nat>, depth: seq<nat>, heap: seq<nat>, len: nat, from: nat)
    requires |depth| >= |fc| && NodesIn(heap, len, |fc|) && 1 <= from
  {
    forall p :: from <= p <= len ==> OrderedAt(fc, depth, heap, len, p, 0)
  }

  // The heap while a value v is on its way down from `from` and has reached `hole`.
  ghost predicate Sifting(fc: seq<nat>, depth: seq<nat>, heap: seq<nat>, len: nat, from: nat, hole: nat, v: nat)
    requires |depth| >= |fc| && NodesIn(heap, len, |fc|) && 1 <= from && v < |fc|
  {
    && from <= hole <= len
    && (forall p :: from <= p <= len && p != hole ==> OrderedAt(fc, depth, heap, len, p, hole))
    && (hole > from ==> hole / 2 >= from && Smaller(fc, depth, heap[hole / 2], v))
    && (hole > from && 2 * hole <= len ==> Smaller(fc, depth, heap[hole / 2], heap[2 * hole]))
    && (hole > from && 2 * hole + 1 <= len ==> Smaller(fc, depth, heap[hole / 2], heap[2 * hole + 1]))
  }

  lemma {:induction false} SiftStart(fc: seq<nat>, depth: seq<nat>, heap: seq<nat>, len: nat, k: nat)
    requires |depth| >= |fc| && NodesIn(heap, len, |fc|) && 1 <= k <= len
    requires HeapFrom(fc, depth, heap, len, k + 1)
    ensures Sifting(fc, depth, heap, len, k, k, heap[k])
  {
    forall p | k <= p <= len && p != k ensures OrderedAt(fc, depth, heap, len, p, k) {
      assert OrderedAt(fc, depth, heap, len, p, 0);
    }
  }

  // Moving the smaller son j up into the hole.
  lemma {:induction false} SiftDown(fc: seq<nat>, depth: seq<nat>, heap: seq<nat>, len: nat, from: nat, hole: nat,
      v: nat, j: nat)
    requires |depth| >= |fc| && NodesIn(heap, len, |fc|) && 1 <= from && v < |fc|
    requires Sifting(fc, depth, heap, len, from, hole, v)
    requires (j == 2 * hole || j == 2 * hole + 1) && j <= len
    requires Smaller(fc, depth, heap[j], heap[2 * hole])
    requires 2 * hole + 1 <= len ==> Smaller(fc, depth, heap[j], heap[2 * hole + 1])
    requires Smaller(fc, depth, heap[j], v)
    ensures Sifting(fc, depth, heap[hole := heap[j]], len, from, j, v)
  {
    var h := heap[hole := heap[j]];
    assert OrderedAt(fc, depth, heap, len, j, hole);
    forall p | from <= p <= len && p != j ensures OrderedAt(fc, depth, h, len, p, j) {
      if p != hole { assert OrderedAt(fc, depth, heap, len, p, hole); }
    }
  }

  // Dropping the value into the hole.
  lemma {:induction false} SiftEnd(fc: seq<nat>, depth: seq<nat>, heap: seq<nat>, len: nat, from: nat, hole: nat,
      v: nat)
    requires |depth| >= |fc| && NodesIn(heap, len, |fc|) && 1 <= from && v < |fc|
    requires Sifting(fc, depth, heap, len, from, hole, v)
    requires 2 * hole <= len ==> Smaller(fc, depth, v, heap[2 * hole])
    requires 2 * hole + 1 <= len ==> Smaller(fc, depth, v, heap[2 * hole + 1])
    ensures HeapFrom(fc, depth, heap[hole := v], len, from)
  {
    var h := heap[hole := v];
    forall p | from <= p <= len ensures OrderedAt(fc, depth, h, len, p, 0) {
      if p != hole { assert OrderedAt(fc, depth, heap, len, p, hole); }
    }
  }

  // Moving a son into the hole and then filling the son's place, or filling the hole
  // straight away: the same elements.
  lemma {:induction false} HoleMoves(h: seq<nat>, hole: nat, j: nat, v: nat)
    requires hole < |h| && j < |h| && hole != j
    ensures multiset(h[hole := h[j]][j := v]) == multiset(h[hole := v])
  {
    var x := h[j];
    assert h[hole := x][j := v] == h[hole := v][j := x][hole := x][j := v];
    assert multiset(h[hole := x]) == multiset(h)[h[hole] := multiset(h)[h[hole]] - 1] + multiset{x};
    assert multiset(h[hole := v]) == multiset(h)[h[hole] := multiset(h)[h[hole]] - 1] + multiset{v};
  }

  // The top of a heap is its smallest element.
  lemma {:induction false} TopIsSmallest(fc: seq<nat>, depth: seq<nat>, heap: seq<nat>, len: nat, i: nat)
    requires |depth| >= |fc| && NodesIn(heap, len, |fc|) && HeapFrom(fc, depth, heap, len, 1)
    requires 1 <= i <= len
    ensures Smaller(fc, depth, heap[1], heap[i])
  {
    if i > 1 {
      TopIsSmallest(fc, depth, heap, len, i / 2);
      assert OrderedAt(fc, depth, heap, len, i / 2, 0);
    }
  }

  // What pqdownheap(k) promises: order restored from k on, the same elements, and nothing
  // outside k..len touched.
  ghost predicate Restored(fc: seq<nat>, depth: seq<nat>, h0: seq<nat>, h: seq<nat>, len: nat, k: nat)
    requires |depth| >= |fc| && 1 <= k
  {
    && |h| == |h0| && NodesIn(h, len, |fc|)
    && HeapFrom(fc, depth, h, len, k)
    && multiset(h) == multiset(h0)
    && forall i :: 0 <= i < |h| && (i < k || i > len) ==> h[i] == h0[i]
  }

  ghost predicate SiftState(fc: seq<nat>, depth: seq<nat>, h0: seq<nat>, h: seq<nat>, len: nat, from: nat, hole: nat,
      v: nat)
    requires |depth| >= |fc| && 1 <= from && v < |fc|
  {
    && |h| == |h0| && NodesIn(h, len, |fc|)
    && Sifting(fc, depth, h, len, from, hole, v)
    && multiset(h[hole := v]) == multiset(h0)
    && forall i :: 0 <= i < |h| && (i < from || i > len) ==> h[i] == h0[i]
  }

  lemma {:induction false} SiftStateStep(fc: seq<nat>, depth: seq<nat>, h0: seq<nat>, h: seq<nat>, len: nat,
      from: nat, hole: nat, v: nat, j: nat)
    requires |depth| >= |fc| && 1 <= from && v < |fc|
    requires SiftState(fc, depth, h0, h, len, from, hole, v)
    requires (j == 2 * hole || j == 2 * hole + 1) && j <= len
    requires Smaller(fc, depth, h[j], h[2 * hole])
    requires 2 * hole + 1 <= len ==> Smaller(fc, depth, h[j], h[2 * hole + 1])
    requires Smaller(fc, depth, h[j], v)
    ensures SiftState(fc, depth, h0, h[hole := h[j]], len, from, j, v)
  {
    SiftDown(fc, depth, h, len, from, hole, v, j);
    HoleMoves(h, hole, j, v);
  }

  lemma {:induction false} SiftStateEnd(fc: seq<nat>, depth: seq<nat>, h0: seq<nat>, h: seq<nat>, len: nat, from: nat,
      hole: nat, v: nat)
    requires |depth| >= |fc| && 1 <= from && v < |fc|
    requires SiftState(fc, depth, h0, h, len, from, hole, v)
    requires 2 * hole <= len ==> Smaller(fc, depth, v, h[2 * hole])
    requires 2 * hole + 1 <= len ==> Smaller(fc, depth, v, h[2 * hole + 1])
    ensures Restored(fc, depth, h0, h[hole := v], len, from)
  {
    SiftEnd(fc, depth, h, len, from, hole, v);
  }

  // The smaller of the two sons of k, the left one if there is only one.
  function SmallerSon(fc: seq<nat>, depth: seq<nat>, h: seq<nat>, len: nat, k: nat): (j: nat)
    requires |depth| >= |fc| && NodesIn(h, len, |fc|) && 2 * k <= len && 1 <= k
    ensures k < j <= len
  {
    if 2 * k < len && Smaller(fc, depth, h[2 * k + 1], h[2 * k]) then 2 * k + 1 else 2 * k
  }

  // The heap once v, on its way down, has reached k.
  function Sink(fc: seq<nat>, depth: seq<nat>, h: seq<nat>, len: nat, k: nat, v: nat): (h': seq<nat>)
    requires |depth| >= |fc| && NodesIn(h, len, |fc|) && 1 <= k <= len && v < |fc|
    ensures |h'| == |h| && NodesIn(h', len, |fc|)
    decreases len - k
  {
    if 2 * k > len then h[k := v]
    else
      var j := SmallerSon(fc, depth, h, len, k);
      if Smaller(fc, depth, v, h[j]) then h[k := v]
      else Sink(fc, depth, h[k := h[j]], len, j, v)
  }

  lemma {:induction false} SinkState(fc: seq<nat>, depth: seq<nat>, h0: seq<nat>, h: seq<nat>, len: nat, from: nat,
      hole: nat, v: nat)
    requires |depth| >= |fc| && 1 <= from && v < |fc|
    requires SiftState(fc, depth, h0, h, len, from, hole, v)
    ensures Restored(fc, depth, h0, Sink(fc, depth, h, len, hole, v), len, from)
    decreases len - hole
  {
    if 2 * hole > len {
      SiftStateEnd(fc, depth, h0, h, len, from, hole, v);
    } else {
      var j := SmallerSon(fc, depth, h, len, hole);
      if Smaller(fc, depth, v, h[j]) {
        SiftStateEnd(fc, depth, h0, h, len, from, hole, v);
      } else {
        SiftStateStep(fc, depth, h0, h, len, from, hole, v, j);
        SinkState(fc, depth, h0, h[hole := h[j]], len, from, j, v);
      }
    }
  }

  // The upper half of a heap has no sons.
  lemma {:induction false} HalfHeap(fc: seq<nat>, depth: seq<nat>, h: seq<nat>, len: nat)
    requires |depth| >= |fc| && NodesIn(h, len, |fc|)
    ensures HeapFrom(fc, depth, h, len, len / 2 + 1)
  {
  }

  // Sinking the element at k restores heap order from k on.
  lemma {:induction false} SinkRestores(fc: seq<nat>, depth: seq<nat>, h: seq<nat>, len: nat, k: nat)
    requires |depth| >= |fc| && 1 <= k <= len && NodesIn(h, len, |fc|)
    requires HeapFrom(fc, depth, h, len, k + 1)
    ensures Restored(fc, depth, h, Sink(fc, depth, h, len, k, h[k]), len, k)
  {
    SiftStart(fc, depth, h, len, k);
    assert h[k := h[k]] == h;
    SinkState(fc, depth, h, h, len, k, k, h[k]);
  }

  // pqdownheap
  method PqDownHeap(fc: array<nat>, depth: array<nat>, heap: array<nat>, heapLen: nat, k0: nat)
    requires heap != fc && heap != depth && depth.Length >= fc.Length
    requires 1 <= k0 <= heapLen && NodesIn(heap[..], heapLen, fc.Length)
    modifies heap
    ensures heap[..] == Sink(fc[..], depth[..], old(heap[..]), heapLen, k0, old(heap[k0]))
  {
    ghost var f, d := fc[..], depth[..];
    var v := heap[k0];
    var k := k0;
    var j := 2 * k;
    while j <= heapLen
      invariant j == 2 * k && k0 <= k <= heapLen
      invariant NodesIn(heap[..], heapLen, |f|)
      invariant Sink(f, d, heap[..], heapLen, k, v) == Sink(f, d, old(heap[..]), heapLen, k0, v)
      decreases heapLen - k
    {
      if j < heapLen && SmallerNode(fc, depth, heap[j + 1], heap[j]) {
        j := j + 1;
      }
      if SmallerNode(fc, depth, v, heap[j]) {
        break;
      }
      ghost var h := heap[..];
      heap[k] := heap[j];
      assert heap[..] == h[k := h[j]];
      k := j;
      j := 2 * j;
    }
    heap[k] := v;
  }
}
