/** A symbol that occurs more often never has the longer code, whether lengths were cut off or not. */
module LengthOrder {
  import opened Bits
  import opened CanonicalCode
  import opened HuffmanHeap
  import opened HuffmanTree
  import opened BitLengths
  import opened LengthCounts
  import opened GenBitlen
  import opened ForcedCodes
  import opened HuffmanOptimal
  import opened OptimalCode

  ghost predicate RarerNotShorter(freq: seq<nat>, n: nat, lens: seq<nat>)
  {
    && n <= |freq| && n <= |lens|
    && forall x, y :: 0 <= x < n && 0 <= y < n && 0 < freq[y] < freq[x] ==> lens[x] <= lens[y]
  }

  // So it is for frequencies that add up to less than 2^16.
  ghost predicate InOrder(freq: seq<nat>, n: nat, lens: seq<nat>)
  {
    n <= |freq| && (FewEnough(freq, n) ==> RarerNotShorter(freq, n, lens))
  }

  // The list of finished nodes, the last one first, never gets more frequent; nothing in the heap is
  // less frequent than what is in the list.
  ghost predicate Sorted(b: Build)
  {
    && |b.heap| == HEAP_SIZE && b.max <= HEAP_SIZE && b.len < HEAP_SIZE
    && (forall t :: b.max <= t < HEAP_SIZE ==> b.heap[t] < b.node <= |b.fc|)
    && (forall s, t :: b.max <= s <= t < HEAP_SIZE ==> b.fc[b.heap[t]] <= b.fc[b.heap[s]])
    && (forall i, t :: 0 <= i < b.len && b.max <= t < HEAP_SIZE ==> AtLeast(b, Roots(b)[i], b.heap[t]))
  }

  ghost predicate AtLeast(b: Build, x: nat, y: nat)
  {
    x < |b.fc| && y < |b.fc| && b.fc[y] <= b.fc[x]
  }

  lemma {:induction false} SortedStarts(b: Build, elems: nat, used: set<nat>)
    requires Combining(b, elems, used) && b.node == elems
    ensures Sorted(b)
  {
  }

  // The list after a round.
  lemma {:induction false} ListStep(b: Build, elems: nat, used: set<nat>)
    requires Combining(b, elems, used) && b.len >= 2
    ensures StepOk(b) && Step(b).max == b.max - 2 && |Step(b).heap| == HEAP_SIZE
    ensures Step(b).heap[b.max - 1] == b.heap[1] && Step(b).heap[b.max - 2] == Removed(b)[1]
    ensures forall t :: b.max <= t < HEAP_SIZE ==> Step(b).heap[t] == b.heap[t]
  {
    hide HeapFrom, LeastTwo, Sink, Removed, NodesIn, Combining, Nodes;
    CombiningStepOk(b, elems, used);
    StepNodes(b, elems, used);
    JoinedKeeps(b);
  }

  lemma {:induction false} SortedStep(b: Build, elems: nat, used: set<nat>)
    requires Combining(b, elems, used) && b.len >= 2 && Light(b) && Sorted(b)
    ensures StepOk(b) && Sorted(Step(b))
  {
    hide Step, Removed, Roots, Combining, Light, StepOk, Sorted, Sink, Joined;
    LightStep(b, elems, used);
    ListStep(b, elems, used);
    RootsDistinct(b, elems, used);
    var t := SonsAmong(b, elems, used);
    NodeStep(b);
    ListInside(b);
    var n, m := b.heap[1], Removed(b)[1];
    forall x | x in Roots(Step(b)) ensures x < |b.fc| && x <= b.node && (x != b.node ==> b.fc[m] <= b.fc[x]) {
      RootAfter(b, elems, used, x);
      if x != b.node { var i :| 0 <= i < |Roots(b)| && Roots(b)[i] == x; }
    }
    SortedFrom(b, Step(b), n, m, t);
  }

  lemma {:induction false} SortedFrom(b: Build, b': Build, n: nat, m: nat, t: nat)
    requires Sorted(b) && 2 <= b.max && b'.max == b.max - 2 && b'.len < |b'.heap| == HEAP_SIZE && b'.node == b.node + 1
    requires 1 <= t < b.len && Roots(b)[0] == n && Roots(b)[t] == m && n < b.node && m < b.node < |b.fc|
    requires b'.fc == b.fc[b.node := b.fc[n] + b.fc[m]] && b.fc[n] <= b.fc[m]
    requires b'.heap[b.max - 1] == n && b'.heap[b.max - 2] == m
    requires forall t :: b.max <= t < HEAP_SIZE ==> b'.heap[t] == b.heap[t]
    requires forall x :: x in Roots(b') ==> x < |b.fc| && x <= b.node && (x != b.node ==> b.fc[m] <= b.fc[x])
    ensures Sorted(b')
  {
    hide Roots;
    forall u | b'.max <= u < HEAP_SIZE
      ensures b'.heap[u] < b.node && b'.fc[b'.heap[u]] == b.fc[b'.heap[u]] && b.fc[b'.heap[u]] <= b.fc[m]
    {
      if u >= b.max { assert AtLeast(b, m, b.heap[u]); }
    }
    forall s, u | b'.max <= s <= u < HEAP_SIZE ensures b'.fc[b'.heap[u]] <= b'.fc[b'.heap[s]] {
      if s == b.max - 1 && u >= b.max { assert AtLeast(b, n, b.heap[u]); }
    }
    forall i, u | 0 <= i < b'.len && b'.max <= u < HEAP_SIZE ensures AtLeast(b', Roots(b')[i], b'.heap[u]) {
      assert Roots(b')[i] in Roots(b');
    }
  }

  lemma {:induction false} FinalSorted(b: Build, elems: nat, used: set<nat>)
    requires Combining(b, elems, used) && Light(b) && Sorted(b)
    ensures Sorted(Final(b)) && |Final(b).fc| == |b.fc| && b.node <= |b.fc|
    ensures forall x :: 0 <= x < b.node ==> Final(b).fc[x] == b.fc[x]
    decreases b.len
  {
    hide Sorted, Combining, Light, Step, StepOk;
    RootsDistinct(b, elems, used);
    if b.len >= 2 {
      StepKeeps(b, elems, used);
      LightStep(b, elems, used);
      SortedStep(b, elems, used);
      FinalSorted(Step(b), elems, used);
      NodeStep(b);
    } else {
      NoStep(b, elems, used);
    }
  }

  lemma {:induction false} ListInside(b: Build)
    requires StepOk(b)
    ensures 2 <= b.max
  {
  }

  lemma {:induction false} NodeStep(b: Build)
    requires StepOk(b)
    ensures Step(b).node == b.node + 1 && Final(b) == Final(Step(b)) && Step(b).len < b.len
  {
  }

  lemma {:induction false} NoStep(b: Build, elems: nat, used: set<nat>)
    requires b.len < 2
    ensures Final(b) == b
  {
  }

  // From index h on the leaves of the list have lengths of at least bits, which never get shorter.
  ghost predicate Ascending(ord: seq<nat>, elems: nat, h: nat, dl: seq<nat>, bits: nat)
  {
    && (forall t :: h <= t < |ord| && ord[t] < elems ==> ord[t] < |dl| && bits <= dl[ord[t]])
    && forall s, t :: h <= s < t < |ord| && ord[s] < elems && ord[t] < elems ==> dl[ord[s]] <= dl[ord[t]]
  }

  // The leaves are the symbols up to maxCode, every node is listed once.
  ghost predicate ListedOnce(ord: seq<nat>, elems: nat, maxCode: nat)
  {
    && (forall t :: 0 <= t < |ord| ==> (ord[t] < elems <==> ord[t] <= maxCode))
    && forall i, j :: 0 <= i < j < |ord| ==> ord[i] != ord[j]
  }

  lemma {:induction false} BackAscends(ord: seq<nat>, fc: seq<nat>, maxCode: nat, elems: nat, bits: nat, s: Place)
    requires CanGoBack(ord, fc, s) && ListedOnce(ord, elems, maxCode) && Ascending(ord, elems, s.h, s.dl, bits)
    ensures Ascending(ord, elems, s.h - 1, Back(ord, fc, maxCode, bits, s).dl, bits)
  {
    var m := ord[s.h - 1];
    forall t | s.h <= t < |ord| ensures ord[t] != m { }
  }

  lemma {:induction false} ServeAscends(ord: seq<nat>, fc: seq<nat>, maxCode: nat, elems: nat, bits: nat, n: nat,
      s: Place)
    requires s.h <= |ord| && ListedOnce(ord, elems, maxCode) && Ascending(ord, elems, s.h, s.dl, bits)
    ensures var e := Serve(ord, fc, maxCode, bits, n, s); e.h <= |ord| && Ascending(ord, elems, e.h, e.dl, bits)
    decreases s.h
  {
    hide Ascending, ListedOnce, Back;
    if n != 0 && CanGoBack(ord, fc, s) {
      BackAscends(ord, fc, maxCode, elems, bits, s);
      BackPlace(ord, fc, maxCode, bits, s);
      ServeAscends(ord, fc, maxCode, elems, bits, if ord[s.h - 1] > maxCode then n else n - 1,
                   Back(ord, fc, maxCode, bits, s));
    }
  }

  lemma {:induction false} LeastBits(ord: seq<nat>, elems: nat, h: nat, dl: seq<nat>, bits: nat)
    requires Ascending(ord, elems, h, dl, bits)
    ensures forall t :: h <= t < |ord| && ord[t] < elems ==> ord[t] < |dl| && bits <= dl[ord[t]]
  {
  }

  lemma {:induction false} BackPlace(ord: seq<nat>, fc: seq<nat>, maxCode: nat, bits: nat, s: Place)
    requires CanGoBack(ord, fc, s)
    ensures Back(ord, fc, maxCode, bits, s).h == s.h - 1
  {
  }

  lemma {:induction false} ServeAllAscends(ord: seq<nat>, fc: seq<nat>, maxCode: nat, elems: nat, bl: seq<nat>,
      bits: nat, s: Place)
    requires bits < |bl| && s.h <= |ord| && ListedOnce(ord, elems, maxCode)
    requires Ascending(ord, elems, s.h, s.dl, bits)
    ensures var e := ServeAll(ord, fc, maxCode, bl, bits, s); e.h <= |ord| && Ascending(ord, elems, e.h, e.dl, 0)
  {
    hide Ascending, ListedOnce, Serve;
    if bits == 0 {
      LeastBits(ord, elems, s.h, s.dl, 0);
    } else {
      ServeAscends(ord, fc, maxCode, elems, bits, bl[bits], s);
      var s1 := Serve(ord, fc, maxCode, bits, bl[bits], s);
      Weaker(ord, elems, s1.h, s1.dl, bits);
      ServeAllAscends(ord, fc, maxCode, elems, bl, bits - 1, s1);
    }
  }

  lemma {:induction false} Weaker(ord: seq<nat>, elems: nat, h: nat, dl: seq<nat>, bits: nat)
    requires bits > 0 && Ascending(ord, elems, h, dl, bits)
    ensures Ascending(ord, elems, h, dl, bits - 1)
  {
  }

  // The list goes from frequent to rare.
  ghost predicate Falling(ord: seq<nat>, fc: seq<nat>)
  {
    && (forall t :: 0 <= t < |ord| ==> ord[t] < |fc|)
    && forall s, t :: 0 <= s <= t < |ord| ==> fc[ord[t]] <= fc[ord[s]]
  }

  lemma {:induction false} OrderedLengths(ord: seq<nat>, fc: seq<nat>, elems: nat, dl: seq<nat>, s: nat, t: nat)
    requires Falling(ord, fc) && Ascending(ord, elems, 0, dl, 0) && s < |ord| && t < |ord|
    requires ord[s] < elems && ord[t] < elems && fc[ord[t]] < fc[ord[s]]
    ensures ord[s] < |dl| && ord[t] < |dl| && dl[ord[s]] <= dl[ord[t]]
  {
  }

  // The more frequent one of two elements has the shorter code in every cheapest code.
  lemma {:induction false} StrictlyBetter(fx: nat, fy: nat, lx: nat, ly: nat)
    requires fx < fy && lx < ly
    ensures fx * ly + fy * lx < fx * lx + fy * ly
  {
    assert 0 < (fy - fx) * (ly - lx);
    assert (fy - fx) * (ly - lx) == fy * ly - fy * lx - fx * ly + fx * lx;
  }

  lemma {:induction false} CheaperExchange(s: seq<nat>, fc: seq<nat>, l: seq<nat>, i: nat, j: nat, mid: seq<nat>,
      l': seq<nat>)
    requires Distinct(s) && |fc| == |l| && i < |s| && j < |s| && s[i] != s[j] && s[i] < |l| && s[j] < |l|
    requires fc[s[i]] < fc[s[j]] && l[s[i]] < l[s[j]] && mid == l[s[i] := l[s[j]]] && l' == mid[s[j] := l[s[i]]]
    ensures Price(s, fc, l') < Price(s, fc, l)
  {
    Others(s, i);
    Others(s, j);
    SumChange(s, i, |l|, Pay(fc, l), Pay(fc, mid));
    SumChange(s, j, |l|, Pay(fc, mid), Pay(fc, l'));
    StrictlyBetter(fc[s[i]], fc[s[j]], l[s[i]], l[s[j]]);
  }

  lemma {:induction false} OptimalOrder(freq: seq<nat>, n: nat, l: seq<nat>, x: nat, y: nat)
    requires n <= |freq| && Optimal(freq, n, l) && x < n && y < n && 0 < freq[y] < freq[x]
    ensures l[x] <= l[y]
  {
    hide CodeOver, Price, Symbols, NoneCheaper;
    var s := Symbols(freq, n);
    SymbolsIncrease(freq, n);
    SymbolsHave(freq, n, x);
    SymbolsHave(freq, n, y);
    var i: nat :| i < |s| && s[i] == y;
    var j: nat :| j < |s| && s[j] == x;
    if l[x] > l[y] {
      var m: nat :| IsCode(freq, n, l, m);
      var mid := l[y := l[x]];
      var l' := mid[x := l[y]];
      ExchangeShares(s, l, m, i, j, mid, l');
      CheaperExchange(s, freq, l, i, j, mid, l');
      assert IsCode(freq, n, l', m);
      CheapestOf(freq, n, l, l', m);
      assert false;
    }
  }

  lemma {:induction false} CheapestOf(freq: seq<nat>, n: nat, l: seq<nat>, l': seq<nat>, m: nat)
    requires n <= |freq| && Optimal(freq, n, l) && |l'| == |freq| && IsCode(freq, n, l', m)
    ensures Price(Symbols(freq, n), freq, l) <= Price(Symbols(freq, n), freq, l')
  {
    hide IsCode, Price, Symbols;
    assert TotalBits(freq, n, l) <= TotalBits(freq, n, l');
  }

  // Without a cut the lengths are the depths.
  lemma {:induction false} NoneCut(j: Job, x: nat)
    requires j.Valid() && PassTo(j, |j.ord|).overflow == 0 && x in j.used
    ensures x < |j.dad| && PassTo(j, |j.ord|).dl[x] == Deep(j.dad, j.Root(), x)
  {
    hide Deep, PassTo, CutDepth, Cut, Cuts;
    AllSteps(j);
    PassOverflow(j, |j.ord|);
    assert j.ord[..|j.ord|] == j.ord;
    var t := ListIndex(j.ord, Nodes(j.used, j.elems, j.elems + j.k), x);
    PassFields(j, |j.ord|);
    CutsAll(j.dad, j.Root(), j.max, j.ord, t);
    UncutIsDeep(j, x);
  }

  lemma {:induction false} CutsAll(dad: seq<nat>, root: nat, max: nat, s: seq<nat>, t: nat)
    requires Cuts(dad, root, max, s) == 0 && t < |s|
    ensures !Cut(dad, root, max, s[t])
  {
    hide Cut;
    if t < |s| - 1 { CutsAll(dad, root, max, s[..|s| - 1], t); }
  }

  lemma {:induction false} UncutIsDeep(j: Job, x: nat)
    requires j.Valid() && x in j.used && !Cut(j.dad, j.Root(), j.max, x)
    ensures CutDepth(j.dad, j.Root(), j.max, x) == Deep(j.dad, j.Root(), x)
  {
    hide Deep, CutDepth;
    UsedIsNode(j, x);
    DadOf(j, x);
    CutIsMin(j.dad, j.Root(), j.max, x);
    CutIsMin(j.dad, j.Root(), j.max, j.dad[x]);
  }

  lemma {:induction false} DepthsOrdered(j: Job, b: Build, freq: seq<nat>, dl: seq<nat>, x: nat, y: nat)
    requires TreeFrom(j, b) && |freq| == |b.fc| && Forced(freq, j, []) && FewEnough(freq, j.elems)
    requires |j.ord| >= 1 && j.ord[0] < |j.dad| && PassTo(j, |j.ord|).overflow == 0 && dl == PassTo(j, |j.ord|).dl
    requires x < j.elems && y < j.elems && 0 < freq[y] < freq[x]
    ensures x < |dl| && y < |dl| && dl[x] <= dl[y]
  {
    hide Optimal, FewEnough, PassTo, Combining, Final, Deep, Symbols, Force, Job.Valid;
    RootDeep(j);
    var d := Depths(j.dad, j.Root(), |j.dad|);
    DepthsOptimal(j, b, freq, []);
    OptimalOrder(freq, j.elems, d, x, y);
    NoneCut(j, x);
    NoneCut(j, y);
  }

  // At most one symbol occurs beside a forced one.
  lemma {:induction false} LoneOrder(j: Job, freq: seq<nat>, forced: seq<nat>, x: nat, y: nat)
    requires Forced(freq, j, forced) && forced != [] && x < j.elems && y < j.elems
    ensures !(0 < freq[y] < freq[x])
  {
    hide Symbols, ForcedSet;
    if 0 < freq[y] && 0 < freq[x] {
      FewSymbols(freq, j, forced);
      SymbolsHave(freq, j.elems, x);
      SymbolsHave(freq, j.elems, y);
      var s := Symbols(freq, j.elems);
      assert s[0] == x && s[0] == y;
    }
  }

  lemma {:induction false} ListFalls(j: Job, b: Build, freq: seq<nat>)
    requires TreeFrom(j, b) && |freq| == |b.fc| && Forced(freq, j, []) && FewEnough(freq, j.elems)
    ensures Falling(j.ord, Final(b).fc) && forall x :: 0 <= x < j.elems ==> Final(b).fc[x] == b.fc[x]
  {
    hide Combining, FewEnough, Forced, Final, Job.Valid;
    LightFrom(j, b, freq, []);
    SortedStarts(b, j.elems, j.used);
    FinalSorted(b, j.elems, j.used);
    FinalKeeps(b, j.elems, j.used);
    var f := Final(b);
    RootsDistinct(f, j.elems, j.used);
    forall s, t | 0 <= s <= t < |j.ord|
      ensures j.ord[t] < |f.fc| && j.ord[s] < |f.fc| && f.fc[j.ord[t]] <= f.fc[j.ord[s]] {
      if s == 0 && t > 0 { assert AtLeast(f, Roots(f)[0], f.heap[f.max + t - 1]); }
    }
  }

  // After the second pass the lengths never get shorter along the list.
  lemma {:induction false} SecondPassAscends(j: Job, bl: seq<nat>, p: Pass, opt: int, dl: seq<nat>)
    requires j.Valid() && |j.prices.fc| >= |j.dad| && |bl| > j.max && Overfull(bl, j.max, 0, j.k + 1)
    requires p == PassTo(j, |j.ord|)
    requires dl == ServeAll(j.ord, j.prices.fc, j.maxCode, bl, j.max, Place(|j.ord|, p.dl, opt + p.dyn)).dl
    ensures Ascending(j.ord, j.elems, 0, dl, 0)
    ensures LeafList(j.ord, j.elems, j.maxCode, j.used, |j.dad|)
  {
    hide Job.Valid, PassTo, ServeAll, CanServeAll, Ascending, ListedOnce, Overfull, SumBelow, LengthsOf, Prices.Dyn;
    var place := Place(|j.ord|, p.dl, opt + p.dyn);
    JobLeafList(j);
    JobCovers(j);
    PassEnd(j, p);
    PassLengths(j, p.dl);
    SecondPassWorks(j, bl, p.dl, opt + p.dyn, opt);
    NothingServed(j, p.dl);
    ServeAllAscends(j.ord, j.prices.fc, j.maxCode, j.elems, bl, j.max, place);
    var e := ServeAll(j.ord, j.prices.fc, j.maxCode, bl, j.max, place);
    AllServed(j.ord, j.elems, e.h, dl);
  }

  lemma {:induction false} JobCovers(j: Job)
    requires j.Valid()
    ensures 1 <= j.max <= MAX_BITS && j.prices.Covers(j.maxCode + 1) && |j.ord| >= 1 && j.ord[0] < |j.dad|
  {
  }

  lemma {:induction false} CutsOrdered(j: Job, b: Build, freq: seq<nat>, bl: seq<nat>, dl: seq<nat>, opt: int, x: nat,
      y: nat)
    requires TreeFrom(j, b) && |freq| == |b.fc| && Forced(freq, j, []) && FewEnough(freq, j.elems)
    requires |j.prices.fc| >= |j.dad| && InRange(j) && |bl| > j.max && Overfull(bl, j.max, 0, j.k + 1)
    requires var p := PassTo(j, |j.ord|);
             dl == ServeAll(j.ord, j.prices.fc, j.maxCode, bl, j.max, Place(|j.ord|, p.dl, opt + p.dyn)).dl
    requires x < j.elems && y < j.elems && 0 < freq[y] < freq[x]
    ensures x < |dl| && y < |dl| && dl[x] <= dl[y]
  {
    hide Combining, FewEnough, Final, Job.Valid, PassTo, ServeAll, ForcedSet, Force, LeafList, Ascending, Falling;
    SecondPassAscends(j, bl, PassTo(j, |j.ord|), opt, dl);
    ListFalls(j, b, freq);
    UsedListed(j, freq, x);
    UsedListed(j, freq, y);
    var s :| 0 <= s < |j.ord| && j.ord[s] == x;
    var t :| 0 <= t < |j.ord| && j.ord[t] == y;
    FallsInside(j.ord, Final(b).fc, s);
    FallsInside(j.ord, Final(b).fc, t);
    OrderedLengths(j.ord, Final(b).fc, j.elems, dl, s, t);
  }

  lemma {:induction false} FallsInside(ord: seq<nat>, fc: seq<nat>, t: nat)
    requires Falling(ord, fc) && t < |ord|
    ensures ord[t] < |fc|
  {
  }

  lemma {:induction false} UsedListed(j: Job, freq: seq<nat>, x: nat)
    requires Forced(freq, j, []) && LeafList(j.ord, j.elems, j.maxCode, j.used, |j.dad|) && x < j.elems && freq[x] > 0
    ensures x in j.ord && x < |j.prices.fc| && j.prices.fc[x] == freq[x]
  {
  }

  lemma {:induction false} NothingServed(j: Job, dl: seq<nat>)
    requires LeafList(j.ord, j.elems, j.maxCode, j.used, |dl|)
    ensures ListedOnce(j.ord, j.elems, j.maxCode) && Ascending(j.ord, j.elems, |j.ord|, dl, j.max)
  {
  }

  lemma {:induction false} AllServed(ord: seq<nat>, elems: nat, h: nat, dl: seq<nat>)
    requires h <= |ord| && Ascending(ord, elems, h, dl, 0) && forall t :: 0 <= t < h ==> ord[t] >= elems
    ensures Ascending(ord, elems, 0, dl, 0)
  {
  }

  // What gen_bitlen settles is in order.
  lemma {:induction false} LengthsOrdered(j: Job, b: Build, freq: seq<nat>, forced: seq<nat>, bl: seq<nat>,
      dl: seq<nat>, opt: int)
    requires TreeFrom(j, b) && |freq| == |b.fc| && Forced(freq, j, forced)
    requires |j.prices.fc| >= |j.dad| && Settled(j, bl, dl, opt) && Overfull(bl, j.max, 0, j.k + 1) && j.elems <= |dl|
    ensures InOrder(freq, j.elems, dl)
  {
    hide TreeFrom, FewEnough, PassTo, ServeAll, Overfull;
    forall x, y | FewEnough(freq, j.elems) && 0 <= x < j.elems && 0 <= y < j.elems && 0 < freq[y] < freq[x]
      ensures dl[x] <= dl[y]
    {
      if forced != [] {
        LoneOrder(j, freq, forced, x, y);
      } else if PassTo(j, |j.ord|).overflow == 0 {
        DepthsOrdered(j, b, freq, dl, x, y);
      } else {
        CutsOrdered(j, b, freq, bl, dl, opt, x, y);
      }
    }
  }
}
