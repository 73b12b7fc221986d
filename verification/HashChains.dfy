/** The hash chains head and prev over the window, as values: what every insertion, slide and
    read keeps. */
module HashChains {
  import opened Bits
  import opened MatchHash

  const WSIZE := 32768
  const WINDOW_SIZE := 65536
  const MIN_MATCH := 3
  const MAX_MATCH := 258
  const MIN_LOOKAHEAD := 262
  const MAX_DIST := 32506

  // s & WMASK for a window index.
  function Slot(p: nat): (i: nat)
    requires p < WINDOW_SIZE
    ensures i < WSIZE && i == p % WSIZE
  {
    if p < WSIZE then p else p - WSIZE
  }

  // The string at r has the hash h.
  ghost predicate HashIs(w: seq<byte>, r: nat, h: nat)
  {
    r + 2 < |w| && HashAt(w, r) == h
  }

  // No string strictly between q and p has the hash h.
  ghost predicate NoneBetween(w: seq<byte>, q: nat, p: nat, h: nat)
  {
    forall r :: q < r < p ==> !HashIs(w, r, h)
  }

  // q is the latest string before p with the same hash, or there is none; 0 stands for none.
  ghost predicate LinkOk(w: seq<byte>, q: nat, p: nat)
  {
    && p + 2 < |w| && (q == 0 || (q < p && HashIs(w, q, HashAt(w, p))))
    && NoneBetween(w, q, p, HashAt(w, p))
  }

  // The last WSIZE strings before ins are linked.
  ghost predicate ChainsOk(w: seq<byte>, prev: seq<nat>, ins: nat)
  {
    && |prev| == WSIZE && ins <= WINDOW_SIZE && ins + 1 < |w|
    && forall p :: 0 <= p < ins && ins - WSIZE <= p ==> LinkOk(w, prev[Slot(p)], p)
  }

  // q is the latest string before ins with the hash h, or none.
  ghost predicate HeadOk(w: seq<byte>, q: nat, h: nat, ins: nat)
  {
    (q == 0 || (q < ins && HashIs(w, q, h))) && NoneBetween(w, q, ins, h)
  }

  ghost predicate HeadsOk(w: seq<byte>, head: seq<nat>, ins: nat)
  {
    |head| == HASH_SIZE && forall h :: 0 <= h < HASH_SIZE ==> HeadOk(w, head[h], h, ins)
  }

  // The table with the string at s in it, and the entry before.
  ghost function WithString(w: seq<byte>, head: seq<nat>, s: nat): seq<nat>
  {
    if s + 2 < |w| && |head| == HASH_SIZE then head[HashAt(w, s) := s] else head
  }

  ghost function EntryAt(w: seq<byte>, head: seq<nat>, s: nat): nat
  {
    if s + 2 < |w| && |head| == HASH_SIZE then head[HashAt(w, s)] else 0
  }

  lemma {:induction false} SlotsDiffer(p: nat, q: nat)
    requires p < q < WINDOW_SIZE && q - WSIZE < p
    ensures Slot(p) != Slot(q)
  {
  }

  // INSERT_STRING keeps the chains.
  lemma {:induction false} Inserted(w: seq<byte>, prev: seq<nat>, head: seq<nat>, ins: nat, h: nat, prev': seq<nat>,
      head': seq<nat>)
    requires ChainsOk(w, prev, ins) && HeadsOk(w, head, ins) && ins < WINDOW_SIZE && ins + 2 < |w|
    requires h == HashAt(w, ins) && prev' == prev[Slot(ins) := head[h]] && head' == head[h := ins]
    ensures ChainsOk(w, prev', ins + 1) && HeadsOk(w, head', ins + 1) && LinkOk(w, head[h], ins)
  {
    hide HashAt, NoneBetween, Slot;
    AfterInsert(w, head, ins, h, head');
    assert HeadOk(w, head[h], h, ins);
    forall p | 0 <= p < ins + 1 && ins + 1 - WSIZE <= p ensures LinkOk(w, prev'[Slot(p)], p) {
      if p < ins {
        SlotsDiffer(p, ins);
        assert LinkOk(w, prev[Slot(p)], p);
      }
    }
  }

  lemma {:induction false} AfterInsert(w: seq<byte>, head: seq<nat>, ins: nat, h: nat, head': seq<nat>)
    requires HeadsOk(w, head, ins) && ins + 2 < |w| && h == HashAt(w, ins) && head' == head[h := ins]
    ensures HeadsOk(w, head', ins + 1)
  {
    hide HashAt;
    forall x | 0 <= x < HASH_SIZE ensures HeadOk(w, head'[x], x, ins + 1) {
      assert HeadOk(w, head[x], x, ins);
    }
  }

  // Bytes from ins + 2 on do not matter.
  lemma {:induction false} HashSame(w: seq<byte>, w': seq<byte>, q: nat, q': nat)
    requires q + 2 < |w| && q' + 2 < |w'| && w[q] == w'[q'] && w[q + 1] == w'[q' + 1] && w[q + 2] == w'[q' + 2]
    ensures HashAt(w, q) == HashAt(w', q')
  {
  }

  lemma {:induction false} LinkSame(w: seq<byte>, w': seq<byte>, q: nat, p: nat, n: nat)
    requires LinkOk(w, q, p) && |w| == |w'| && p + 2 < n <= |w| && w[..n] == w'[..n]
    ensures LinkOk(w', q, p)
  {
    var h := HashAt(w, p);
    PrefixByte(w, w', n, p);
    HashSame(w, w', p, p);
    if q != 0 {
      PrefixByte(w, w', n, q);
      HashSame(w, w', q, q);
    }
    BetweenSame(w, w', q, p, h, n);
  }

  lemma {:induction false} BetweenSame(w: seq<byte>, w': seq<byte>, q: nat, p: nat, h: nat, n: nat)
    requires NoneBetween(w, q, p, h) && |w| == |w'| && n <= |w| && w[..n] == w'[..n] && (p == 0 || p + 2 <= n)
    ensures NoneBetween(w', q, p, h)
  {
    forall r | q < r < p ensures !HashIs(w', r, h) {
      PrefixByte(w, w', n, r);
      HashSame(w, w', r, r);
      assert !HashIs(w, r, h);
    }
  }

  lemma {:induction false} PrefixByte(w: seq<byte>, w': seq<byte>, n: nat, q: nat)
    requires n <= |w| && n <= |w'| && w[..n] == w'[..n] && q + 2 < n
    ensures w[q] == w'[q] && w[q + 1] == w'[q + 1] && w[q + 2] == w'[q + 2]
  {
    assert w[..n][q] == w'[..n][q] && w[..n][q + 1] == w'[..n][q + 1] && w[..n][q + 2] == w'[..n][q + 2];
  }

  // Reading further bytes keeps the chains.
  lemma {:induction false} ChainsSame(w: seq<byte>, w': seq<byte>, prev: seq<nat>, head: seq<nat>, ins: nat, n: nat)
    requires ChainsOk(w, prev, ins) && HeadsOk(w, head, ins) && |w| == |w'| && n <= |w| && w[..n] == w'[..n]
             && (ins == 0 || ins + 2 <= n)
    ensures ChainsOk(w', prev, ins) && HeadsOk(w', head, ins)
  {
    forall p | 0 <= p < ins && ins - WSIZE <= p ensures LinkOk(w', prev[Slot(p)], p) {
      LinkSame(w, w', prev[Slot(p)], p, n);
    }
    forall h | 0 <= h < HASH_SIZE ensures HeadOk(w', head[h], h, ins) {
      HeadSame(w, w', head[h], h, ins, n);
    }
  }

  lemma {:induction false} HeadSame(w: seq<byte>, w': seq<byte>, q: nat, h: nat, ins: nat, n: nat)
    requires HeadOk(w, q, h, ins) && |w| == |w'| && n <= |w| && w[..n] == w'[..n] && (ins == 0 || ins + 2 <= n)
    ensures HeadOk(w', q, h, ins)
  {
    if q != 0 {
      PrefixByte(w, w', n, q);
      HashSame(w, w', q, q);
    }
    BetweenSame(w, w', q, ins, h, n);
  }

  // An index after the slide; 0 stands for none.
  function Slid(m: nat): nat { if m >= WSIZE then m - WSIZE else 0 }

  ghost predicate AllSlid(a: seq<nat>, a': seq<nat>)
  {
    |a'| == |a| && forall i :: 0 <= i < |a| ==> a'[i] == Slid(a[i])
  }

  lemma {:induction false} LinkSlid(w: seq<byte>, w': seq<byte>, q: nat, p: nat)
    requires p >= WSIZE && LinkOk(w, q, p) && |w| == |w'| >= WINDOW_SIZE && p + 2 < WINDOW_SIZE
             && w'[..WSIZE] == w[WSIZE..WINDOW_SIZE]
    ensures LinkOk(w', Slid(q), p - WSIZE)
  {
    SlidByte(w, w', p - WSIZE);
    HashSame(w, w', p, p - WSIZE);
    if q >= WSIZE {
      SlidByte(w, w', q - WSIZE);
      HashSame(w, w', q, q - WSIZE);
    }
    BetweenSlid(w, w', q, p, HashAt(w, p));
  }

  lemma {:induction false} BetweenSlid(w: seq<byte>, w': seq<byte>, q: nat, p: nat, h: nat)
    requires NoneBetween(w, q, p, h) && WSIZE <= p && p + 2 <= WINDOW_SIZE && |w| == |w'| >= WINDOW_SIZE
             && w'[..WSIZE] == w[WSIZE..WINDOW_SIZE]
    ensures NoneBetween(w', Slid(q), p - WSIZE, h)
  {
    hide HashAt;
    forall r | Slid(q) < r < p - WSIZE ensures !HashIs(w', r, h) {
      SlidByte(w, w', r);
      HashSame(w, w', r + WSIZE, r);
      assert !HashIs(w, r + WSIZE, h);
    }
  }

  lemma {:induction false} SlidByte(w: seq<byte>, w': seq<byte>, q: nat)
    requires |w| == |w'| >= WINDOW_SIZE && q + 2 < WSIZE && w'[..WSIZE] == w[WSIZE..WINDOW_SIZE]
    ensures w[q + WSIZE] == w'[q] && w[q + WSIZE + 1] == w'[q + 1] && w[q + WSIZE + 2] == w'[q + 2]
  {
    var a, b := w'[..WSIZE], w[WSIZE..WINDOW_SIZE];
    assert a[q] == b[q] && a[q + 1] == b[q + 1] && a[q + 2] == b[q + 2];
  }

  // The slide keeps the chains, WSIZE lower.
  lemma {:induction false} ChainsSlid(w: seq<byte>, w': seq<byte>, prev: seq<nat>, head: seq<nat>, prev': seq<nat>,
      head': seq<nat>, ins: nat)
    requires ChainsOk(w, prev, ins) && HeadsOk(w, head, ins) && AllSlid(prev, prev') && AllSlid(head, head')
    requires |w| == |w'| >= WINDOW_SIZE && WSIZE <= ins && ins + 2 <= WINDOW_SIZE
             && w'[..WSIZE] == w[WSIZE..WINDOW_SIZE]
    ensures ChainsOk(w', prev', ins - WSIZE) && HeadsOk(w', head', ins - WSIZE)
  {
    forall p | 0 <= p < ins - WSIZE && ins - WSIZE - WSIZE <= p ensures LinkOk(w', prev'[Slot(p)], p) {
      var p1 := p + WSIZE;
      assert LinkOk(w, prev[Slot(p1)], p1);
      LinkSlid(w, w', prev[Slot(p1)], p1);
      assert Slot(p1) == Slot(p);
    }
    forall h | 0 <= h < HASH_SIZE ensures HeadOk(w', head'[h], h, ins - WSIZE) {
      HeadSlid(w, w', head[h], h, ins);
    }
  }

  lemma {:induction false} HeadSlid(w: seq<byte>, w': seq<byte>, q: nat, h: nat, ins: nat)
    requires HeadOk(w, q, h, ins) && WSIZE <= ins && ins + 2 <= WINDOW_SIZE && |w| == |w'| >= WINDOW_SIZE
             && w'[..WSIZE] == w[WSIZE..WINDOW_SIZE]
    ensures HeadOk(w', Slid(q), h, ins - WSIZE)
  {
    if q >= WSIZE {
      SlidByte(w, w', q - WSIZE);
      HashSame(w, w', q, q - WSIZE);
    }
    BetweenSlid(w, w', q, ins, h);
  }

  lemma {:induction false} PrimedSlid(h: nat, w: seq<byte>, w': seq<byte>, i: nat)
    requires Primed(h, w, i) && |w| == |w'| >= WINDOW_SIZE && WSIZE <= i && i + 2 <= WINDOW_SIZE
             && w'[..WSIZE] == w[WSIZE..WINDOW_SIZE]
    ensures Primed(h, w', i - WSIZE)
  {
    var a, b := w'[..WSIZE], w[WSIZE..WINDOW_SIZE];
    assert a[i - WSIZE] == b[i - WSIZE] && a[i - WSIZE + 1] == b[i - WSIZE + 1];
  }

  lemma {:induction false} PrimedSame(h: nat, w: seq<byte>, w': seq<byte>, i: nat, n: nat)
    requires Primed(h, w, i) && |w| == |w'| && i + 2 <= n <= |w| && w[..n] == w'[..n]
    ensures Primed(h, w', i)
  {
    assert w[..n][i] == w'[..n][i] && w[..n][i + 1] == w'[..n][i + 1];
  }

  // The strings at a and b have the same byte k.
  ghost predicate Agree(w: seq<byte>, a: nat, b: nat, k: nat)
  {
    a + k < |w| && b + k < |w| && w[a + k] == w[b + k]
  }

  // The strings at a and b agree over n bytes.
  ghost predicate SameRun(w: seq<byte>, a: int, b: int, n: nat)
  {
    0 <= a && 0 <= b && forall k :: 0 <= k < n ==> Agree(w, a, b, k)
  }

  // The run when byte 2 was never compared.
  lemma {:induction false} RunFrom(w: seq<byte>, a: nat, b: nat, n: nat)
    requires n >= 3 && a + 2 < |w| && b + 2 < |w| && HashAt(w, a) == HashAt(w, b) && w[a] == w[b]
             && w[a + 1] == w[b + 1]
    requires forall k :: 3 <= k < n ==> Agree(w, a, b, k)
    ensures SameRun(w, a, b, n)
  {
    ThirdByte(w, a, b);
    forall k | 0 <= k < n ensures Agree(w, a, b, k) {
      if k < 3 { assert k == 0 || k == 1 || k == 2; }
    }
  }
}
