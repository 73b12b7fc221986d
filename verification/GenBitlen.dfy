/** The two passes of gen_bitlen over the list of nodes, as steps on the Dad/Len fields and
    on bl_count, and the bit totals they keep. */
module GenBitlen {
  import opened Bits
  import opened CanonicalCode
  import opened HuffmanTree
  import opened BitLengths
  import opened LengthCounts

  // Bits spent on a symbol of frequency f, code length l and x extra bits. Only real code
  // lengths count: the field still holds a father where the pass has not been.
  function Part(f: nat, l: nat, x: nat): nat
  {
    if 1 <= l <= MAX_BITS then f * (l + x) else 0
  }

  // Bits of the block spent on the symbols of one tree.
  function Cost(fc: seq<nat>, lens: seq<nat>, xb: seq<nat>): nat
    requires |lens| <= |fc| && |lens| <= |xb|
  {
    if lens == [] then 0
    else var k := |lens| - 1; Cost(fc, lens[..k], xb) + Part(fc[k], lens[k], xb[k])
  }

  // The same under the static tree, for the symbols that have a length.
  function StaticPart(f: nat, l: nat, st: nat, x: nat): nat
  {
    if 1 <= l <= MAX_BITS then f * (st + x) else 0
  }

  function StaticCost(fc: seq<nat>, lens: seq<nat>, st: seq<nat>, xb: seq<nat>): nat
    requires |lens| <= |fc| && |lens| <= |xb| && |lens| <= |st|
  {
    if lens == [] then 0
    else var k := |lens| - 1; StaticCost(fc, lens[..k], st, xb) + StaticPart(fc[k], lens[k], st[k], xb[k])
  }

  lemma {:induction false} CostUpdate(fc: seq<nat>, lens: seq<nat>, xb: seq<nat>, n: nat, v: nat, lens': seq<nat>)
    requires |lens| <= |fc| && |lens| <= |xb| && n < |lens| && lens' == lens[n := v]
    ensures Cost(fc, lens', xb) + Part(fc[n], lens[n], xb[n]) == Cost(fc, lens, xb) + Part(fc[n], v, xb[n])
  {
    var k := |lens| - 1;
    if n < k {
      assert lens'[..k] == lens[..k][n := v];
      CostUpdate(fc, lens[..k], xb, n, v, lens'[..k]);
    } else {
      assert lens'[..k] == lens[..k];
    }
  }

  lemma {:induction false} StaticCostUpdate(fc: seq<nat>, lens: seq<nat>, st: seq<nat>, xb: seq<nat>, n: nat, v: nat,
      lens': seq<nat>)
    requires |lens| <= |fc| && |lens| <= |xb| && |lens| <= |st| && n < |lens| && lens' == lens[n := v]
    ensures StaticCost(fc, lens', st, xb) + StaticPart(fc[n], lens[n], st[n], xb[n])
            == StaticCost(fc, lens, st, xb) + StaticPart(fc[n], v, st[n], xb[n])
  {
    var k := |lens| - 1;
    if n < k {
      assert lens'[..k] == lens[..k][n := v];
      StaticCostUpdate(fc, lens[..k], st, xb, n, v, lens'[..k]);
    } else {
      assert lens'[..k] == lens[..k];
    }
  }

  lemma {:induction false} CostSame(fc: seq<nat>, fc': seq<nat>, lens: seq<nat>, xb: seq<nat>)
    requires |lens| <= |fc| && |lens| <= |fc'| && |lens| <= |xb|
    requires forall i :: 0 <= i < |lens| ==> fc[i] == fc'[i]
    ensures Cost(fc, lens, xb) == Cost(fc', lens, xb)
  {
    if lens != [] { CostSame(fc, fc', lens[..|lens| - 1], xb); }
  }

  lemma {:induction false} StaticSame(fc: seq<nat>, fc': seq<nat>, lens: seq<nat>, st: seq<nat>, xb: seq<nat>)
    requires |lens| <= |fc| && |lens| <= |fc'| && |lens| <= |xb| && |lens| <= |st|
    requires forall i :: 0 <= i < |lens| ==> fc[i] == fc'[i]
    ensures StaticCost(fc, lens, st, xb) == StaticCost(fc', lens, st, xb)
  {
    if lens != [] { StaticSame(fc, fc', lens[..|lens| - 1], st, xb); }
  }

  // The frequencies and prices that gen_bitlen adds up: dynamic and, if there is a static
  // tree, static.
  datatype Prices = Tally(fc: seq<nat>, st: seq<nat>, xb: seq<nat>) {
    ghost predicate Covers(n: nat) { n <= |fc| && n <= |xb| && (st == [] || n <= |st|) }

    ghost function Dyn(lens: seq<nat>): nat
      requires Covers(|lens|)
    {
      Cost(fc, lens, xb)
    }

    ghost function Stat(lens: seq<nat>): nat
      requires Covers(|lens|)
    {
      if st == [] then 0 else StaticCost(fc, lens, st, xb)
    }
  }

  // No symbol has a code length yet.
  lemma {:induction false} TallyNone(t: Prices, lens: seq<nat>)
    requires t.Covers(|lens|) && forall x :: 0 <= x < |lens| ==> lens[x] == 0 || lens[x] > MAX_BITS
    ensures t.Dyn(lens) == 0 && t.Stat(lens) == 0
  {
    if lens != [] { TallyNone(t, lens[..|lens| - 1]); }
  }

  // A leaf gets its first length; an internal node changes nothing.
  lemma {:induction false} TallyStep(t: Prices, dl: seq<nat>, n: nat, bits: nat, maxCode: nat, dl': seq<nat>)
    requires maxCode < |dl| && t.Covers(maxCode + 1) && n < |dl| && dl' == dl[n := bits] && 1 <= bits <= MAX_BITS
    requires n <= maxCode ==> dl[n] > MAX_BITS
    ensures var lens, lens' := dl[..maxCode + 1], dl'[..maxCode + 1];
            && t.Dyn(lens') == t.Dyn(lens) + (if n <= maxCode then t.fc[n] * (bits + t.xb[n]) else 0)
            && t.Stat(lens') == t.Stat(lens) + (if n <= maxCode && t.st != [] then t.fc[n] * (t.st[n] + t.xb[n]) else 0)
  {
    var lens, lens' := dl[..maxCode + 1], dl'[..maxCode + 1];
    if n <= maxCode {
      assert lens' == lens[n := bits];
      CostUpdate(t.fc, lens, t.xb, n, bits, lens');
      if t.st != [] { StaticCostUpdate(t.fc, lens, t.st, t.xb, n, bits, lens'); }
    } else {
      assert lens' == lens;
    }
  }

  // A finished tree with the limits gen_bitlen works under.
  datatype Job = Job(dad: seq<nat>, ord: seq<nat>, elems: nat, k: nat, used: set<nat>, max: nat, maxCode: nat,
      prices: Prices) {
    ghost predicate Valid()
    {
      && TreeList(dad, ord, elems, k, used) && MAX_BITS < elems <= |dad| && maxCode < elems
      && 1 <= max <= MAX_BITS && prices.Covers(maxCode + 1)
      && maxCode in used && (forall x :: x in used ==> x <= maxCode)
      && (forall x :: 0 <= x < elems && x !in used ==> dad[x] == 0)
    }

    ghost function Root(): int { elems + k - 1 }
  }

  // The arrays and totals of the first pass, taken together.
  datatype Pass = Pass(dl: seq<nat>, bl: seq<nat>, overflow: nat, dyn: int, stat: int)

  // One node n of the first pass: it gets one more than its father's length, cut off at the
  // maximum; a leaf is counted and paid for.
  ghost function PassNode(j: Job, p: Pass, n: nat): Pass
  {
    if n < |p.dl| && p.dl[n] < |p.dl| && |p.bl| == MAX_BITS + 1 && 1 <= j.max <= MAX_BITS
       && j.prices.Covers(j.maxCode + 1) then
      var bits := Min(p.dl[p.dl[n]] + 1, j.max);
      var leaf := n <= j.maxCode;
      Pass(p.dl[n := bits],
           if leaf then p.bl[bits := p.bl[bits] + 1] else p.bl,
           p.overflow + (if p.dl[p.dl[n]] + 1 > j.max then 1 else 0),
           p.dyn + (if leaf then j.prices.fc[n] * (bits + j.prices.xb[n]) else 0),
           p.stat + (if leaf && j.prices.st != [] then j.prices.fc[n] * (j.prices.st[n] + j.prices.xb[n]) else 0))
    else p
  }

  // The first pass up to index i of the list.
  ghost function PassTo(j: Job, i: nat): (p: Pass)
    requires 1 <= i <= |j.ord| && j.ord[0] < |j.dad|
    ensures |p.dl| == |j.dad| && |p.bl| == MAX_BITS + 1
  {
    if i == 1 then Pass(j.dad[j.ord[0] := 0], seq(MAX_BITS + 1, _ => 0), 0, 0, 0)
    else PassNode(j, PassTo(j, i - 1), j.ord[i - 1])
  }

  // The first pass has handled the first i nodes of the list: their fathers have been
  // replaced by lengths.
  ghost predicate FieldsAt(dad: seq<nat>, ord: seq<nat>, root: nat, max: nat, i: nat, dl: seq<nat>)
  {
    && i <= |ord| && |dl| == |dad|
    && (forall t :: 0 <= t < |ord| ==> ord[t] < |dad|)
    && (forall t :: 0 <= t < i ==> dl[ord[t]] == CutDepth(dad, root, max, ord[t]))
    && (forall t :: i <= t < |ord| ==> dl[ord[t]] == dad[ord[t]])
  }

  lemma {:induction false} PassFields(j: Job, i: nat)
    requires j.Valid() && 1 <= i <= |j.ord|
    ensures FieldsAt(j.dad, j.ord, j.Root(), j.max, i, PassTo(j, i).dl)
  {
    hide FieldsAt, CutDepth, Cut, PassTo;
    if i == 1 {
      FieldsStart(j.dad, j.ord, j.elems, j.k, j.used, j.max, j.Root());
      PassDlFirst(j);
    } else {
      var dl, n := PassTo(j, i - 1).dl, j.ord[i - 1];
      PassFields(j, i - 1);
      FieldsStep(j.dad, j.ord, j.elems, j.k, j.used, j.max, j.Root(), i - 1, dl);
      PassDlNext(j, i, CutDepth(j.dad, j.Root(), j.max, n));
    }
  }

  lemma {:induction false} PassDlFirst(j: Job)
    requires |j.ord| >= 1 && j.ord[0] < |j.dad|
    ensures PassTo(j, 1).dl == j.dad[j.ord[0] := 0]
  {
  }

  lemma {:induction false} PassDlNext(j: Job, i: nat, b: nat)
    requires 2 <= i <= |j.ord| && j.ord[0] < |j.dad| && 1 <= j.max <= MAX_BITS && j.prices.Covers(j.maxCode + 1)
    requires var dl, n := PassTo(j, i - 1).dl, j.ord[i - 1]; n < |dl| && dl[n] < |dl| && b == Min(dl[dl[n]] + 1, j.max)
    ensures PassTo(j, i).dl == PassTo(j, i - 1).dl[j.ord[i - 1] := b]
  {
  }

  // The node at index i finds its father already holding a length: the Dad and Len fields
  // may share their place.
  lemma {:induction false} NodeFacts(j: Job, i: nat, n: nat, dl: seq<nat>)
    requires j.Valid() && 1 <= i < |j.ord| && n == j.ord[i] && dl == PassTo(j, i).dl
    ensures n < |dl| && MAX_BITS < j.elems <= dl[n] < |dl|
    ensures CutDepth(j.dad, j.Root(), j.max, n) == Min(dl[dl[n]] + 1, j.max) >= 1
    ensures Cut(j.dad, j.Root(), j.max, n) <==> dl[dl[n]] + 1 > j.max
    ensures (n <= j.maxCode <==> n < j.elems) && (n <= j.maxCode ==> n in j.used)
  {
    PassFields(j, i);
    FieldsStep(j.dad, j.ord, j.elems, j.k, j.used, j.max, j.Root(), i, dl);
  }

  lemma {:induction false} FieldsStep(dad: seq<nat>, ord: seq<nat>, elems: nat, k: nat, used: set<nat>, max: nat,
      root: nat, i: nat, dl: seq<nat>)
    requires TreeList(dad, ord, elems, k, used) && root == elems + k - 1 && max >= 1
    requires 1 <= i < |ord| && FieldsAt(dad, ord, root, max, i, dl)
    ensures var n := ord[i]; var b := CutDepth(dad, root, max, n);
            && n in Nodes(used, elems, elems + k)
            && elems <= dl[n] < |dl| && b == Min(dl[dl[n]] + 1, max) && b >= 1
            && (Cut(dad, root, max, n) <==> dl[dl[n]] == max) && dl[dl[n]] <= max
            && FieldsAt(dad, ord, root, max, i + 1, dl[n := b])
  {
    var n := ord[i];
    FatherOf(dad, ord, elems, k, used, i);
    var t := FatherFirst(dad, ord, elems, k, used, i);
    NodeOfList(ord, used, elems, k, i);
    assert dl[ord[t]] == CutDepth(dad, root, max, ord[t]);
    SonDepth(dad, root, max, n);
    forall t | 0 <= t < |ord| && t != i ensures ord[t] != n {
      if t < i { ListDistinct(ord, Nodes(used, elems, elems + k), t, i); }
      else { ListDistinct(ord, Nodes(used, elems, elems + k), i, t); }
    }
  }

  lemma {:induction false} NodeOfList(ord: seq<nat>, used: set<nat>, elems: nat, k: nat, i: nat)
    requires multiset(ord) == multiset(Nodes(used, elems, elems + k)) && i < |ord|
    ensures ord[i] in Nodes(used, elems, elems + k)
  {
    assert ord[i] in multiset(ord);
  }

  lemma {:induction false} FieldsStart(dad: seq<nat>, ord: seq<nat>, elems: nat, k: nat, used: set<nat>, max: nat,
      root: nat)
    requires TreeList(dad, ord, elems, k, used) && root == elems + k - 1
    ensures FieldsAt(dad, ord, root, max, 1, dad[root := 0])
  {
    forall t | 0 <= t < |ord| ensures ord[t] < |dad| {
      NodeOfList(ord, used, elems, k, t);
    }
    forall t | 1 <= t < |ord| ensures ord[t] != root {
      ListDistinct(ord, Nodes(used, elems, elems + k), 0, t);
    }
  }

  // Before the first pass a used symbol's field holds its father.
  lemma {:induction false} SymbolFields(dad: seq<nat>, ord: seq<nat>, elems: nat, k: nat, used: set<nat>)
    requires TreeList(dad, ord, elems, k, used)
    ensures forall x :: x in used ==> dad[x] >= elems
  {
    forall x | x in used ensures dad[x] >= elems {
      var t := ListIndex(ord, Nodes(used, elems, elems + k), x);
      FatherOf(dad, ord, elems, k, used, t);
    }
  }

  // What the code of the first pass needs in order to stay inside its arrays.
  ghost predicate NodeInRange(j: Job, i: nat)
    requires 1 <= i < |j.ord| && j.ord[0] < |j.dad|
  {
    var n, dl := j.ord[i], PassTo(j, i).dl;
    n < |dl| && dl[n] < |dl|
  }

  ghost predicate InRange(j: Job)
  {
    && |j.ord| >= 1 && j.ord[0] < |j.dad|
    && 1 <= j.max <= MAX_BITS && j.prices.Covers(j.maxCode + 1)
    && forall i :: 1 <= i < |j.ord| ==> NodeInRange(j, i)
  }

  lemma {:induction false} PassFirst(j: Job)
    requires InRange(j)
    ensures |j.ord| >= 1 && j.ord[0] < |j.dad|
            && PassTo(j, 1) == Pass(j.dad[j.ord[0] := 0], seq(MAX_BITS + 1, _ => 0), 0, 0, 0)
  {
  }

  lemma {:induction false} PassNext(j: Job, i: nat)
    requires InRange(j) && 1 <= i < |j.ord|
    ensures j.ord[0] < |j.dad| && PassTo(j, i + 1) == PassNode(j, PassTo(j, i), j.ord[i])
    ensures var n, dl := j.ord[i], PassTo(j, i).dl; n < |dl| && dl[n] < |dl|
  {
    assert NodeInRange(j, i);
  }

  lemma {:induction false} AllInRange(j: Job)
    requires j.Valid()
    ensures InRange(j)
  {
    forall i | 1 <= i < |j.ord| ensures NodeInRange(j, i) {
      NodeFacts(j, i, j.ord[i], PassTo(j, i).dl);
    }
  }

  // The step of the first pass at index i, spelled out.
  ghost predicate StepAt(j: Job, i: nat)
    requires 1 <= i < |j.ord| && j.ord[0] < |j.dad| && j.Root() >= 0 && j.prices.Covers(j.maxCode + 1)
  {
    var n, p, p' := j.ord[i], PassTo(j, i), PassTo(j, i + 1);
    var b := CutDepth(j.dad, j.Root(), j.max, n);
    && 1 <= b <= MAX_BITS && n < |p.dl| && p.dl[n] > MAX_BITS && (n <= j.maxCode <==> n < j.elems)
    && p'.dl == p.dl[n := b]
    && p'.bl == (if n < j.elems then p.bl[b := p.bl[b] + 1] else p.bl)
    && p'.overflow == p.overflow + (if Cut(j.dad, j.Root(), j.max, n) then 1 else 0)
    && p'.dyn == p.dyn + (if n <= j.maxCode then j.prices.fc[n] * (b + j.prices.xb[n]) else 0)
    && p'.stat == p.stat
       + (if n <= j.maxCode && j.prices.st != [] then j.prices.fc[n] * (j.prices.st[n] + j.prices.xb[n]) else 0)
  }

  ghost predicate Steps(j: Job)
  {
    && |j.ord| >= 1 && j.ord[0] < |j.dad| && j.ord[0] == j.Root() >= j.elems
    && 1 <= j.max <= MAX_BITS && j.maxCode < j.elems <= |j.dad| && j.prices.Covers(j.maxCode + 1)
    && (forall x :: 0 <= x < j.elems ==> j.dad[x] == 0 || j.dad[x] > MAX_BITS)
    && forall i :: 1 <= i < |j.ord| ==> StepAt(j, i)
  }

  lemma {:induction false} NodeStep(j: Job, i: nat)
    requires j.Valid() && 1 <= i < |j.ord|
    ensures j.Root() >= 0 && j.ord[0] < |j.dad| && StepAt(j, i)
  {
    hide CutDepth, Cut;
    NodeFacts(j, i, j.ord[i], PassTo(j, i).dl);
  }

  lemma {:induction false} AllSteps(j: Job)
    requires j.Valid()
    ensures Steps(j)
  {
    hide StepAt;
    SymbolFields(j.dad, j.ord, j.elems, j.k, j.used);
    forall i | 1 <= i < |j.ord| ensures StepAt(j, i) { NodeStep(j, i); }
  }

  // bl counts the lengths given so far. A father's number is no code length, so every leaf
  // adds one to one count.
  lemma {:induction false} PassCounts(j: Job, i: nat, p: Pass)
    requires Steps(j) && 1 <= i <= |j.ord| && p == PassTo(j, i)
    ensures CountsMatch(p.bl, p.dl[..j.maxCode + 1])
    decreases i
  {
    hide CutDepth, CountsMatch;
    if i == 1 {
      NoCounts(p.dl[..j.maxCode + 1], p.bl);
    } else {
      var p0, n := PassTo(j, i - 1), j.ord[i - 1];
      PassCounts(j, i - 1, p0);
      assert StepAt(j, i - 1);
      CountsStep(p0.bl, p0.dl, n, CutDepth(j.dad, j.Root(), j.max, n), j.maxCode, p.bl, p.dl);
    }
  }

  lemma {:induction false} NoCounts(lens: seq<nat>, bl: seq<nat>)
    requires bl == seq(MAX_BITS + 1, _ => 0)
    requires forall x :: 0 <= x < |lens| ==> lens[x] == 0 || lens[x] > MAX_BITS
    ensures CountsMatch(bl, lens)
  {
    forall l | 1 <= l <= MAX_BITS ensures bl[l] == Count(lens, l) {
      CountNone(lens, l);
    }
  }

  lemma {:induction false} CountNone(lens: seq<nat>, l: nat)
    requires forall i :: 0 <= i < |lens| ==> lens[i] != l
    ensures Count(lens, l) == 0
  {
    if lens != [] { CountNone(lens[..|lens| - 1], l); }
  }

  lemma {:induction false} CountsStep(bl: seq<nat>, dl: seq<nat>, n: nat, b: nat, maxCode: nat, bl': seq<nat>,
      dl': seq<nat>)
    requires maxCode < |dl| && n < |dl| && dl[n] > MAX_BITS && 1 <= b <= MAX_BITS
    requires CountsMatch(bl, dl[..maxCode + 1]) && dl' == dl[n := b]
    requires bl' == if n <= maxCode then bl[b := bl[b] + 1] else bl
    ensures CountsMatch(bl', dl'[..maxCode + 1])
  {
    var lens, lens' := dl[..maxCode + 1], dl'[..maxCode + 1];
    if n <= maxCode {
      assert lens' == lens[n := b];
      forall l | 1 <= l <= MAX_BITS ensures bl'[l] == Count(lens', l) {
        CountUpdate(lens, n, b, l);
      }
    } else {
      assert lens' == lens;
    }
  }

  // The sums over the leaves so far, as the counts give them.
  ghost predicate FirstPassSums(dad: seq<nat>, ord: seq<nat>, elems: nat, root: nat, max: nat, i: nat, bl: seq<nat>)
    requires i <= |ord| && |bl| == MAX_BITS + 1 && max <= MAX_BITS
  {
    && KraftSum(bl, max, max) == SumBelow(ord[..i], elems, KraftShare(dad, root, max))
    && Leaves(bl, max) == SumBelow(ord[..i], elems, One())
    && bl[max] == SumBelow(ord[..i], elems, AtMax(dad, root, max))
    && forall l :: max < l <= MAX_BITS ==> bl[l] == 0
  }

  lemma {:induction false} SumsStep(dad: seq<nat>, ord: seq<nat>, elems: nat, root: nat, max: nat, i: nat, bl: seq<nat>,
      n: nat, b: nat, bl': seq<nat>)
    requires i < |ord| && |bl| == MAX_BITS + 1 && 1 <= max <= MAX_BITS
    requires FirstPassSums(dad, ord, elems, root, max, i, bl)
    requires n == ord[i] && b == CutDepth(dad, root, max, n) >= 1
    requires bl' == if n < elems then bl[b := bl[b] + 1] else bl
    ensures FirstPassSums(dad, ord, elems, root, max, i + 1, bl')
  {
    var s := ord[..i];
    assert ord[..i + 1] == s + [n];
    SumSnoc(s, n, elems, KraftShare(dad, root, max));
    SumSnoc(s, n, elems, One());
    SumSnoc(s, n, elems, AtMax(dad, root, max));
    if n < elems {
      CountMore(bl, max, max, b, 1);
      ShlOne(max - b);
    }
  }

  lemma {:induction false} PassSums(j: Job, i: nat, p: Pass, root: nat)
    requires Steps(j) && 1 <= i <= |j.ord| && p == PassTo(j, i) && root == j.Root()
    ensures FirstPassSums(j.dad, j.ord, j.elems, root, j.max, i, p.bl)
    decreases i
  {
    hide CutDepth, FirstPassSums;
    if i == 1 {
      NoSums(j.dad, j.ord, j.elems, root, j.max, p.bl);
    } else {
      var p0, n := PassTo(j, i - 1), j.ord[i - 1];
      var b := CutDepth(j.dad, root, j.max, n);
      PassSums(j, i - 1, p0, root);
      assert StepAt(j, i - 1);
      SumsStep(j.dad, j.ord, j.elems, root, j.max, i - 1, p0.bl, n, b, p.bl);
    }
  }

  lemma {:induction false} NoSums(dad: seq<nat>, ord: seq<nat>, elems: nat, root: nat, max: nat, bl: seq<nat>)
    requires |ord| >= 1 && ord[0] == root >= elems && 1 <= max <= MAX_BITS && bl == seq(MAX_BITS + 1, _ => 0)
    ensures FirstPassSums(dad, ord, elems, root, max, 1, bl)
  {
    NoneBelow(bl, max, max);
    assert ord[..1] == [] + [root];
    SumSnoc([], root, elems, KraftShare(dad, root, max));
    SumSnoc([], root, elems, One());
    SumSnoc([], root, elems, AtMax(dad, root, max));
  }

  // The overflow counter counts the cut nodes.
  lemma {:induction false} PassOverflow(j: Job, i: nat)
    requires Steps(j) && 1 <= i <= |j.ord|
    ensures PassTo(j, i).overflow == Cuts(j.dad, j.Root(), j.max, j.ord[..i])
  {
    hide Cuts, CutDepth;
    if i == 1 {
      assert j.ord[..1] == [] + [j.Root()];
      CutsSnoc(j.dad, j.Root(), j.max, [], j.Root());
    } else {
      var p0, n := PassTo(j, i - 1), j.ord[i - 1];
      PassOverflow(j, i - 1);
      assert StepAt(j, i - 1);
      CutsSnoc(j.dad, j.Root(), j.max, j.ord[..i - 1], n);
      assert j.ord[..i] == j.ord[..i - 1] + [n];
    }
  }

  lemma {:induction false} PassStart(j: Job, p: Pass)
    requires Steps(j) && p == PassTo(j, 1)
    ensures j.prices.Covers(j.maxCode + 1) && j.maxCode < |p.dl|
            && p.dyn == j.prices.Dyn(p.dl[..j.maxCode + 1]) && p.stat == j.prices.Stat(p.dl[..j.maxCode + 1])
  {
    hide Prices.Dyn, Prices.Stat, StepAt;
    TallyNone(j.prices, p.dl[..j.maxCode + 1]);
  }

  // The totals are the prices of the lengths.
  lemma {:induction false} PassPrices(j: Job, i: nat, p: Pass)
    requires Steps(j) && 1 <= i <= |j.ord| && p == PassTo(j, i)
    ensures p.dyn == j.prices.Dyn(p.dl[..j.maxCode + 1]) && p.stat == j.prices.Stat(p.dl[..j.maxCode + 1])
    decreases i
  {
    hide CutDepth, Prices.Dyn, Prices.Stat, Prices.Covers, PassTo;
    if i == 1 {
      PassStart(j, p);
    } else {
      var p0, n := PassTo(j, i - 1), j.ord[i - 1];
      var b := CutDepth(j.dad, j.Root(), j.max, n);
      PassPrices(j, i - 1, p0);
      assert StepAt(j, i - 1);
      TallyStep(j.prices, p0.dl, n, b, j.maxCode, p.dl);
    }
  }

  // After the first pass the counts are overfull by half the cut nodes.
  lemma {:induction false} FirstPassEnd(dad: seq<nat>, ord: seq<nat>, elems: nat, k: nat, used: set<nat>, max: nat,
      root: nat, bl: seq<nat>)
    requires TreeList(dad, ord, elems, k, used) && root == elems + k - 1
    requires 1 <= max <= MAX_BITS && |bl| == MAX_BITS + 1 && bl[0] == 0
    requires FirstPassSums(dad, ord, elems, root, max, |ord|, bl)
    ensures Overfull(bl, max, Cuts(dad, root, max, ord), k + 1)
  {
    LeavesBalanced(dad, ord, elems, k, used, max, root);
    assert ord[..|ord|] == ord;
    BalancedOverfull(dad, ord, elems, k, max, root, bl);
  }

  lemma {:induction false} BalancedOverfull(dad: seq<nat>, ord: seq<nat>, elems: nat, k: nat, max: nat, root: nat,
      bl: seq<nat>)
    requires Balanced(dad, root, max, ord, elems, k)
    requires 1 <= max <= MAX_BITS && |bl| == MAX_BITS + 1 && bl[0] == 0
    requires ord[..|ord|] == ord && FirstPassSums(dad, ord, elems, root, max, |ord|, bl)
    ensures Overfull(bl, max, Cuts(dad, root, max, ord), k + 1)
  {
  }

  // What the first pass leaves behind.
  lemma {:induction false} PassEnd(j: Job, p: Pass)
    requires j.Valid() && p == PassTo(j, |j.ord|)
    ensures CountsMatch(p.bl, p.dl[..j.maxCode + 1]) && Overfull(p.bl, j.max, p.overflow, j.k + 1)
    ensures p.dyn == j.prices.Dyn(p.dl[..j.maxCode + 1]) && p.stat == j.prices.Stat(p.dl[..j.maxCode + 1])
  {
    AllSteps(j);
    PassCounts(j, |j.ord|, p);
    PassSums(j, |j.ord|, p, j.Root());
    PassOverflow(j, |j.ord|);
    PassPrices(j, |j.ord|, p);
    assert j.ord[..|j.ord|] == j.ord;
    FirstPassEnd(j.dad, j.ord, j.elems, j.k, j.used, j.max, j.Root(), p.bl);
  }

  lemma {:induction false} PassUnused(j: Job, i: nat)
    requires j.Valid() && 1 <= i <= |j.ord|
    ensures forall x :: 0 <= x < j.elems && x !in j.used ==> PassTo(j, i).dl[x] == j.dad[x]
  {
    if i > 1 {
      PassUnused(j, i - 1);
      NodeOfList(j.ord, j.used, j.elems, j.k, i - 1);
    }
  }

  // Every used symbol has a length from 1 to the maximum, the others have none.
  lemma {:induction false} PassLengths(j: Job, dl: seq<nat>)
    requires j.Valid() && dl == PassTo(j, |j.ord|).dl
    ensures LengthsOf(dl, j.elems, j.used, j.max)
  {
    hide PassTo, CutDepth;
    PassFields(j, |j.ord|);
    forall x | x in j.used ensures 1 <= dl[x] <= j.max {
      var t := ListIndex(j.ord, Nodes(j.used, j.elems, j.elems + j.k), x);
      FatherOf(j.dad, j.ord, j.elems, j.k, j.used, t);
      SonDepth(j.dad, j.Root(), j.max, x);
    }
    PassUnused(j, |j.ord|);
  }

  // How many leaves the second pass still has to serve: n of length `bits`, then the shorter.
  ghost function ToServe(bl: seq<nat>, bits: nat, n: nat): nat
    requires bits < |bl|
  {
    if bits == 0 then 0 else n + Leaves(bl, bits - 1)
  }

  // The second pass has gone back to index h of the list. g is the lengths with the leaves
  // not yet served blanked out.
  ghost predicate SecondPassAt(ord: seq<nat>, elems: nat, maxCode: nat, bl: seq<nat>, h: nat, bits: nat, n: nat,
      dl: seq<nat>, g: seq<nat>)
  {
    && h <= |ord| && |g| == maxCode + 1 <= |dl| && |bl| == MAX_BITS + 1 && bits <= MAX_BITS
    && (if bits == 0 then n == 0 else n <= bl[bits])
    && (forall l :: 1 <= l <= MAX_BITS ==>
          Count(g, l) == if l > bits then bl[l] else if l == bits then bl[l] - n else 0)
    && (forall x :: 0 <= x <= maxCode ==> g[x] == if x in ord[h..] then dl[x] else 0)
    && SumBelow(ord[..h], elems, One()) == ToServe(bl, bits, n)
  }

  lemma {:induction false} SecondPassStart(ord: seq<nat>, elems: nat, maxCode: nat, bl: seq<nat>, max: nat,
      dl: seq<nat>, g: seq<nat>)
    requires 1 <= max <= MAX_BITS && Overfull(bl, max, 0, SumBelow(ord, elems, One()))
    requires maxCode < |dl| && g == seq(maxCode + 1, _ => 0)
    ensures SecondPassAt(ord, elems, maxCode, bl, |ord|, max, bl[max], dl, g)
  {
    assert ord[..|ord|] == ord && ord[|ord|..] == [];
    forall l | 1 <= l <= MAX_BITS ensures Count(g, l) == 0 {
      CountNone(g, l);
    }
  }

  // All leaves of one length are served.
  lemma {:induction false} SecondPassShorter(ord: seq<nat>, elems: nat, maxCode: nat, bl: seq<nat>, h: nat, bits: nat,
      dl: seq<nat>, g: seq<nat>)
    requires SecondPassAt(ord, elems, maxCode, bl, h, bits, 0, dl, g) && bits >= 1 && bl[0] == 0
    ensures SecondPassAt(ord, elems, maxCode, bl, h, bits - 1, bl[bits - 1], dl, g)
  {
  }

  // There is a node left while a leaf is to be served.
  lemma {:induction false} SecondPassMore(ord: seq<nat>, elems: nat, maxCode: nat, bl: seq<nat>, h: nat, bits: nat,
      n: nat, dl: seq<nat>, g: seq<nat>)
    requires SecondPassAt(ord, elems, maxCode, bl, h, bits, n, dl, g) && n > 0
    ensures h > 0
  {
  }

  lemma {:induction false} SecondPassSkip(ord: seq<nat>, elems: nat, maxCode: nat, bl: seq<nat>, h: nat, bits: nat,
      n: nat, dl: seq<nat>, g: seq<nat>, m: nat)
    requires SecondPassAt(ord, elems, maxCode, bl, h, bits, n, dl, g) && h > 0
    requires m == ord[h - 1] && m >= elems > maxCode
    ensures SecondPassAt(ord, elems, maxCode, bl, h - 1, bits, n, dl, g)
  {
    assert ord[..h] == ord[..h - 1] + [m];
    SumSnoc(ord[..h - 1], m, elems, One());
    assert ord[h - 1..] == [m] + ord[h..];
  }

  lemma {:induction false} SecondPassLeaf(ord: seq<nat>, elems: nat, maxCode: nat, bl: seq<nat>, h: nat, bits: nat,
      n: nat, dl: seq<nat>, g: seq<nat>, m: nat, dl': seq<nat>, g': seq<nat>)
    requires SecondPassAt(ord, elems, maxCode, bl, h, bits, n, dl, g) && h > 0 && n > 0
    requires m == ord[h - 1] && m <= maxCode < elems && m !in ord[h..]
    requires dl' == dl[m := bits] && g' == g[m := bits]
    ensures SecondPassAt(ord, elems, maxCode, bl, h - 1, bits, n - 1, dl', g')
  {
    assert ord[..h] == ord[..h - 1] + [m];
    SumSnoc(ord[..h - 1], m, elems, One());
    assert ord[h - 1..] == [m] + ord[h..];
    forall l | 1 <= l <= MAX_BITS
      ensures Count(g', l) == Count(g, l) + if l == bits then 1 else 0
    {
      CountUpdate(g, m, bits, l);
    }
  }

  lemma {:induction false} NoLeafLeft(s: seq<nat>, elems: nat, t: nat)
    requires SumBelow(s, elems, One()) == 0 && t < |s|
    ensures s[t] >= elems
  {
    if t < |s| - 1 { NoLeafLeft(s[..|s| - 1], elems, t); }
  }

  // At the end the counts are those of the lengths.
  lemma {:induction false} SecondPassEnd(ord: seq<nat>, elems: nat, maxCode: nat, bl: seq<nat>, h: nat, dl: seq<nat>,
      g: seq<nat>, used: set<nat>)
    requires SecondPassAt(ord, elems, maxCode, bl, h, 0, 0, dl, g) && bl[0] == 0 && maxCode < elems
    requires forall x :: 0 <= x <= maxCode && x !in used ==> dl[x] == 0
    requires forall x :: x in used ==> x in ord
    ensures CountsMatch(bl, dl[..maxCode + 1])
  {
    forall x | 0 <= x <= maxCode ensures g[x] == dl[x] {
      if x in used {
        var t :| 0 <= t < |ord| && ord[t] == x;
        if t < h { NoLeafLeft(ord[..h], elems, t); }
        assert t >= h && x == ord[h..][t - h];
      }
    }
    assert g == dl[..maxCode + 1];
  }

  // The list as the second pass sees it: distinct nodes, the leaves being the used symbols.
  ghost predicate LeafList(ord: seq<nat>, elems: nat, maxCode: nat, used: set<nat>, size: nat)
  {
    && maxCode < elems <= size
    && (forall t :: 0 <= t < |ord| ==> ord[t] < size && (ord[t] < elems ==> ord[t] in used))
    && (forall i, j :: 0 <= i < j < |ord| ==> ord[i] != ord[j])
    && (forall x :: x in used ==> x <= maxCode && x in ord)
  }

  lemma {:induction false} JobLeafList(j: Job)
    requires j.Valid()
    ensures LeafList(j.ord, j.elems, j.maxCode, j.used, |j.dad|)
    ensures SumBelow(j.ord, j.elems, One()) == j.k + 1
  {
    hide TreeList, SumBelow;
    ListedNodes(j);
    ListedOnce(j);
    ListedSymbols(j);
    LeavesBalanced(j.dad, j.ord, j.elems, j.k, j.used, j.max, j.Root());
  }

  lemma {:induction false} ListedNodes(j: Job)
    requires j.Valid()
    ensures forall t :: 0 <= t < |j.ord| ==> j.ord[t] < |j.dad| && (j.ord[t] < j.elems ==> j.ord[t] in j.used)
  {
    forall t | 0 <= t < |j.ord| ensures j.ord[t] < |j.dad| && (j.ord[t] < j.elems ==> j.ord[t] in j.used) {
      NodeOfList(j.ord, j.used, j.elems, j.k, t);
    }
  }

  lemma {:induction false} ListedOnce(j: Job)
    requires j.Valid()
    ensures forall a, b :: 0 <= a < b < |j.ord| ==> j.ord[a] != j.ord[b]
  {
    forall a, b | 0 <= a < b < |j.ord| ensures j.ord[a] != j.ord[b] {
      ListDistinct(j.ord, Nodes(j.used, j.elems, j.elems + j.k), a, b);
    }
  }

  lemma {:induction false} ListedSymbols(j: Job)
    requires j.Valid()
    ensures forall x :: x in j.used ==> x in j.ord
  {
    forall x | x in j.used ensures x in j.ord {
      var t := ListIndex(j.ord, Nodes(j.used, j.elems, j.elems + j.k), x);
    }
  }

  // Used symbols have a code length, the others have none.
  ghost predicate LengthsOf(dl: seq<nat>, elems: nat, used: set<nat>, max: nat)
  {
    && elems <= |dl|
    && (forall x :: x in used ==> x < elems && 1 <= dl[x] <= max)
    && (forall x :: 0 <= x < elems && x !in used ==> dl[x] == 0)
  }

  // Changing the length of a leaf changes the total by the difference times the frequency.
  lemma {:induction false} Repriced(t: Prices, dl: seq<nat>, m: nat, bits: nat, maxCode: nat, dl': seq<nat>)
    requires maxCode < |dl| && t.Covers(maxCode + 1) && m <= maxCode && dl' == dl[m := bits]
    requires 1 <= bits <= MAX_BITS && 1 <= dl[m] <= MAX_BITS
    ensures t.Dyn(dl'[..maxCode + 1]) == t.Dyn(dl[..maxCode + 1]) + (bits - dl[m]) * t.fc[m]
  {
    var lens, lens' := dl[..maxCode + 1], dl'[..maxCode + 1];
    assert lens' == lens[m := bits];
    CostUpdate(t.fc, lens, t.xb, m, bits, lens');
    PartDifference(t.fc[m], dl[m], bits, t.xb[m]);
  }

  lemma {:induction false} PartDifference(f: nat, l: nat, l': nat, x: nat)
    ensures f * (l' + x) == f * (l + x) + (l' - l) * f
  {
  }

  // Where the second pass stands: its place in the list, the lengths and the total.
  datatype Place = Place(h: nat, dl: seq<nat>, opt: int)

  // One node back in the list.
  ghost function Back(ord: seq<nat>, fc: seq<nat>, maxCode: nat, bits: nat, s: Place): Place
    requires 0 < s.h <= |ord| && ord[s.h - 1] < |s.dl| && ord[s.h - 1] < |fc|
  {
    var m := ord[s.h - 1];
    if m > maxCode then s.(h := s.h - 1)
    else Place(s.h - 1, s.dl[m := bits], s.opt + (bits - s.dl[m]) * fc[m])
  }

  ghost predicate CanGoBack(ord: seq<nat>, fc: seq<nat>, s: Place)
  {
    0 < s.h <= |ord| && ord[s.h - 1] < |s.dl| && ord[s.h - 1] < |fc|
  }

  // Back through the list until n leaves of length `bits` are served.
  ghost function Serve(ord: seq<nat>, fc: seq<nat>, maxCode: nat, bits: nat, n: nat, s: Place): Place
    decreases s.h
  {
    if n == 0 || !CanGoBack(ord, fc, s) then s
    else Serve(ord, fc, maxCode, bits, if ord[s.h - 1] > maxCode then n else n - 1, Back(ord, fc, maxCode, bits, s))
  }

  // The list does not run out while leaves are to be served.
  ghost predicate CanServe(ord: seq<nat>, fc: seq<nat>, maxCode: nat, bits: nat, n: nat, s: Place)
    decreases s.h
  {
    n == 0 ||
    (CanGoBack(ord, fc, s) &&
     CanServe(ord, fc, maxCode, bits, if ord[s.h - 1] > maxCode then n else n - 1, Back(ord, fc, maxCode, bits, s)))
  }

  lemma {:induction false} ServeStep(ord: seq<nat>, fc: seq<nat>, maxCode: nat, bits: nat, n: nat, s: Place)
    requires CanServe(ord, fc, maxCode, bits, n, s) && n > 0
    ensures CanGoBack(ord, fc, s)
    ensures var n', s' := if ord[s.h - 1] > maxCode then n else n - 1, Back(ord, fc, maxCode, bits, s);
            CanServe(ord, fc, maxCode, bits, n', s')
              && Serve(ord, fc, maxCode, bits, n, s) == Serve(ord, fc, maxCode, bits, n', s')
  {
    hide Back;
  }

  lemma {:induction false} ServeNone(ord: seq<nat>, fc: seq<nat>, maxCode: nat, bits: nat, s: Place)
    ensures Serve(ord, fc, maxCode, bits, 0, s) == s
  {
  }

  // All lengths from `bits` down to one.
  ghost function ServeAll(ord: seq<nat>, fc: seq<nat>, maxCode: nat, bl: seq<nat>, bits: nat, s: Place): Place
    requires bits < |bl|
  {
    if bits == 0 then s
    else ServeAll(ord, fc, maxCode, bl, bits - 1, Serve(ord, fc, maxCode, bits, bl[bits], s))
  }

  ghost predicate CanServeAll(ord: seq<nat>, fc: seq<nat>, maxCode: nat, bl: seq<nat>, bits: nat, s: Place)
    requires bits < |bl|
  {
    bits == 0 ||
    (CanServe(ord, fc, maxCode, bits, bl[bits], s) &&
     CanServeAll(ord, fc, maxCode, bl, bits - 1, Serve(ord, fc, maxCode, bits, bl[bits], s)))
  }

  // The second pass in terms of one job; `slack` is what the total holds beyond the prices.
  ghost predicate Serving(j: Job, bl: seq<nat>, bits: nat, n: nat, s: Place, g: seq<nat>, slack: int)
  {
    && j.prices.Covers(j.maxCode + 1) && 1 <= j.max <= MAX_BITS
    && LeafList(j.ord, j.elems, j.maxCode, j.used, |s.dl|) && |j.prices.fc| >= |s.dl|
    && LengthsOf(s.dl, j.elems, j.used, j.max)
    && SecondPassAt(j.ord, j.elems, j.maxCode, bl, s.h, bits, n, s.dl, g)
    && s.opt == slack + j.prices.Dyn(s.dl[..j.maxCode + 1])
  }

  lemma {:induction false} ServingSkip(j: Job, bl: seq<nat>, bits: nat, n: nat, s: Place, g: seq<nat>, slack: int,
      s': Place)
    requires Serving(j, bl, bits, n, s, g, slack) && 0 < s.h && j.ord[s.h - 1] > j.maxCode
    requires s' == s.(h := s.h - 1)
    ensures Serving(j, bl, bits, n, s', g, slack)
  {
    SecondPassSkip(j.ord, j.elems, j.maxCode, bl, s.h, bits, n, s.dl, g, j.ord[s.h - 1]);
  }

  lemma {:induction false} ServingLeaf(j: Job, bl: seq<nat>, bits: nat, n: nat, s: Place, g: seq<nat>, slack: int,
      m: nat, s': Place, g': seq<nat>)
    requires Serving(j, bl, bits, n, s, g, slack) && 0 < s.h && m == j.ord[s.h - 1] <= j.maxCode && n > 0
             && 1 <= bits <= j.max
    requires s' == Place(s.h - 1, s.dl[m := bits], s.opt + (bits - s.dl[m]) * j.prices.fc[m]) && g' == g[m := bits]
    ensures Serving(j, bl, bits, n - 1, s', g', slack)
  {
    hide Prices.Dyn;
    NotServed(j.ord, s.h);
    Repriced(j.prices, s.dl, m, bits, j.maxCode, s'.dl);
    SecondPassLeaf(j.ord, j.elems, j.maxCode, bl, s.h, bits, n, s.dl, g, m, s'.dl, g');
  }

  lemma {:induction false} ServingBack(j: Job, bl: seq<nat>, bits: nat, n: nat, s: Place, g: seq<nat>, slack: int)
    returns (g': seq<nat>)
    requires Serving(j, bl, bits, n, s, g, slack) && n > 0 && 1 <= bits <= j.max
    ensures CanGoBack(j.ord, j.prices.fc, s)
    ensures var m := j.ord[s.h - 1];
            Serving(j, bl, bits, if m > j.maxCode then n else n - 1, Back(j.ord, j.prices.fc, j.maxCode, bits, s), g',
              slack)
  {
    SecondPassMore(j.ord, j.elems, j.maxCode, bl, s.h, bits, n, s.dl, g);
    var m, s' := j.ord[s.h - 1], Back(j.ord, j.prices.fc, j.maxCode, bits, s);
    if m > j.maxCode {
      g' := g;
      ServingSkip(j, bl, bits, n, s, g, slack, s');
    } else {
      g' := g[m := bits];
      ServingLeaf(j, bl, bits, n, s, g, slack, m, s', g');
    }
  }

  lemma {:induction false} NotServed(ord: seq<nat>, i: nat)
    requires 1 <= i <= |ord| && forall a, b :: 0 <= a < b < |ord| ==> ord[a] != ord[b]
    ensures ord[i - 1] !in ord[i..]
  {
  }

  lemma {:induction false} ServingLength(j: Job, bl: seq<nat>, bits: nat, n: nat, s: Place, g: seq<nat>, slack: int)
    returns (g': seq<nat>)
    requires Serving(j, bl, bits, n, s, g, slack) && 1 <= bits <= j.max
    ensures CanServe(j.ord, j.prices.fc, j.maxCode, bits, n, s)
    ensures Serving(j, bl, bits, 0, Serve(j.ord, j.prices.fc, j.maxCode, bits, n, s), g', slack)
    decreases s.h
  {
    if n == 0 {
      g' := g;
    } else {
      var g1 := ServingBack(j, bl, bits, n, s, g, slack);
      g' := ServingLength(j, bl, bits, if j.ord[s.h - 1] > j.maxCode then n else n - 1,
                          Back(j.ord, j.prices.fc, j.maxCode, bits, s), g1, slack);
    }
  }

  lemma {:induction false} ServingAll(j: Job, bl: seq<nat>, bits: nat, s: Place, g: seq<nat>, slack: int)
    returns (g': seq<nat>)
    requires |bl| == MAX_BITS + 1 && bl[0] == 0 && bits <= j.max <= MAX_BITS
    requires Serving(j, bl, bits, bl[bits], s, g, slack)
    ensures CanServeAll(j.ord, j.prices.fc, j.maxCode, bl, bits, s)
    ensures Serving(j, bl, 0, 0, ServeAll(j.ord, j.prices.fc, j.maxCode, bl, bits, s), g', slack)
    decreases bits
  {
    if bits == 0 {
      g' := g;
    } else {
      var g1 := ServingLength(j, bl, bits, bl[bits], s, g, slack);
      var s1 := Serve(j.ord, j.prices.fc, j.maxCode, bits, bl[bits], s);
      SecondPassShorter(j.ord, j.elems, j.maxCode, bl, s1.h, bits, s1.dl, g1);
      g' := ServingAll(j, bl, bits - 1, s1, g1, slack);
    }
  }

  // The whole second pass.
  lemma {:induction false} SecondPassWorks(j: Job, bl: seq<nat>, dl: seq<nat>, opt: int, slack: int)
    requires LeafList(j.ord, j.elems, j.maxCode, j.used, |dl|) && |j.prices.fc| >= |dl|
    requires 1 <= j.max <= MAX_BITS && Overfull(bl, j.max, 0, SumBelow(j.ord, j.elems, One()))
    requires LengthsOf(dl, j.elems, j.used, j.max) && j.prices.Covers(j.maxCode + 1)
    requires opt == slack + j.prices.Dyn(dl[..j.maxCode + 1])
    ensures var s := Place(|j.ord|, dl, opt);
            && CanServeAll(j.ord, j.prices.fc, j.maxCode, bl, j.max, s)
            && (var e := ServeAll(j.ord, j.prices.fc, j.maxCode, bl, j.max, s);
                && |e.dl| == |dl| && CountsMatch(bl, e.dl[..j.maxCode + 1]) && LengthsOf(e.dl, j.elems, j.used, j.max)
                && e.opt == slack + j.prices.Dyn(e.dl[..j.maxCode + 1])
                && e.h <= |j.ord| && forall t :: 0 <= t < e.h ==> j.ord[t] >= j.elems)
  {
    var s := Place(|j.ord|, dl, opt);
    var g: seq<nat> := seq(j.maxCode + 1, _ => 0);
    SecondPassStart(j.ord, j.elems, j.maxCode, bl, j.max, dl, g);
    var g' := ServingAll(j, bl, j.max, s, g, slack);
    var e := ServeAll(j.ord, j.prices.fc, j.maxCode, bl, j.max, s);
    ServeAllSize(j.ord, j.prices.fc, j.maxCode, bl, j.max, s);
    SecondPassEnd(j.ord, j.elems, j.maxCode, bl, e.h, e.dl, g', j.used);
    forall t | 0 <= t < e.h ensures j.ord[t] >= j.elems { NoLeafLeft(j.ord[..e.h], j.elems, t); }
  }

  lemma {:induction false} ServeSize(ord: seq<nat>, fc: seq<nat>, maxCode: nat, bits: nat, n: nat, s: Place)
    ensures |Serve(ord, fc, maxCode, bits, n, s).dl| == |s.dl|
    decreases s.h
  {
    if n != 0 && CanGoBack(ord, fc, s) {
      ServeSize(ord, fc, maxCode, bits, if ord[s.h - 1] > maxCode then n else n - 1, Back(ord, fc, maxCode, bits, s));
    }
  }

  lemma {:induction false} ServeAllSize(ord: seq<nat>, fc: seq<nat>, maxCode: nat, bl: seq<nat>, bits: nat, s: Place)
    requires bits < |bl|
    ensures |ServeAll(ord, fc, maxCode, bl, bits, s).dl| == |s.dl|
  {
    if bits != 0 {
      ServeSize(ord, fc, maxCode, bits, bl[bits], s);
      ServeAllSize(ord, fc, maxCode, bl, bits - 1, Serve(ord, fc, maxCode, bits, bl[bits], s));
    }
  }

  // What gen_bitlen has to deliver: lengths within the limit whose statistics are bl, with
  // Kraft sum one, and the bits they cost.
  ghost predicate Delivered(j: Job, bl: seq<nat>, dl: seq<nat>, dyn: int, stat: int)
  {
    && j.maxCode < j.elems && j.maxCode < |dl| && j.prices.Covers(j.maxCode + 1)
    && j.maxCode in j.used && (forall x :: x in j.used ==> x <= j.maxCode)
    && CountsMatch(bl, dl[..j.maxCode + 1]) && Overfull(bl, j.max, 0, j.k + 1)
    && LengthsOf(dl, j.elems, j.used, j.max)
    && dyn == j.prices.Dyn(dl[..j.maxCode + 1]) && stat == j.prices.Stat(dl[..j.maxCode + 1])
  }

  // For repaired counts bl the second pass delivers.
  ghost predicate SecondDelivers(j: Job, bl: seq<nat>, opt: int)
    requires InRange(j) && |bl| > j.max
  {
    var p := PassTo(j, |j.ord|);
    var s := Place(|j.ord|, p.dl, opt);
    var e := ServeAll(j.ord, j.prices.fc, j.maxCode, bl, j.max, s);
    && CanServeAll(j.ord, j.prices.fc, j.maxCode, bl, j.max, s)
    && Delivered(j, bl, e.dl, e.opt - (opt - p.dyn), p.stat)
  }

  // All that gen_bitlen relies on.
  ghost predicate Ready(j: Job)
  {
    && InRange(j) && j.k + 1 <= Pow2(j.max)
    && (var p := PassTo(j, |j.ord|);
        && (p.overflow == 0 ==> Delivered(j, p.bl, p.dl, p.dyn, p.stat))
        && Overfull(p.bl, j.max, p.overflow, j.k + 1))
    && forall bl: seq<nat>, opt: int :: |bl| > j.max && Overfull(bl, j.max, 0, j.k + 1) ==> SecondDelivers(j, bl, opt)
  }

  lemma {:induction false} JobReady(j: Job)
    requires j.Valid() && j.elems <= Pow2(j.max) && |j.prices.fc| >= |j.dad|
    ensures Ready(j)
  {
    AllInRange(j);
    UsedBound(j.used, j.elems);
    var p := PassTo(j, |j.ord|);
    PassEnd(j, p);
    PassLengths(j, p.dl);
    forall bl: seq<nat>, opt: int | |bl| > j.max && Overfull(bl, j.max, 0, j.k + 1) ensures SecondDelivers(j, bl, opt) {
      SecondPassDelivers(j, bl, opt, p);
    }
  }

  lemma {:induction false} SecondPassDelivers(j: Job, bl: seq<nat>, opt: int, p: Pass)
    requires j.Valid() && InRange(j) && |j.prices.fc| >= |j.dad| && p == PassTo(j, |j.ord|)
    requires LengthsOf(p.dl, j.elems, j.used, j.max)
    requires p.dyn == j.prices.Dyn(p.dl[..j.maxCode + 1]) && p.stat == j.prices.Stat(p.dl[..j.maxCode + 1])
    requires |bl| > j.max && Overfull(bl, j.max, 0, j.k + 1)
    ensures SecondDelivers(j, bl, opt)
  {
    JobLeafList(j);
    SecondPassWorks(j, bl, p.dl, opt, opt - p.dyn);
    var e := ServeAll(j.ord, j.prices.fc, j.maxCode, bl, j.max, Place(|j.ord|, p.dl, opt));
    SameStatic(j.prices, p.dl[..j.maxCode + 1], e.dl[..j.maxCode + 1]);
  }

  // The static total does not depend on the lengths, only on which symbols have one.
  lemma {:induction false} SameStatic(t: Prices, lens: seq<nat>, lens': seq<nat>)
    requires t.Covers(|lens|) && |lens| == |lens'|
    requires forall x :: 0 <= x < |lens| ==> (1 <= lens[x] <= MAX_BITS <==> 1 <= lens'[x] <= MAX_BITS)
    ensures t.Stat(lens) == t.Stat(lens')
  {
    if lens != [] { SameStatic(t, lens[..|lens| - 1], lens'[..|lens| - 1]); }
  }

  // What gen_bitlen makes of the list: the lengths of the first pass if none was cut off; otherwise
  // the repaired counts, handed out from the end of the list.
  ghost predicate Settled(j: Job, bl: seq<nat>, dl: seq<nat>, opt: int)
  {
    && InRange(j) && |bl| > j.max
    && var p := PassTo(j, |j.ord|);
       if p.overflow == 0 then bl == p.bl && dl == p.dl
       else bl == Repaired(p.bl, j.max, p.overflow)
            && dl == ServeAll(j.ord, j.prices.fc, j.maxCode, bl, j.max, Place(|j.ord|, p.dl, opt + p.dyn)).dl
  }
}
