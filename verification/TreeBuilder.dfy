/** build_tree on its arrays: the initial heap, the combining loop and gen_bitlen. */
module TreeBuilding {
  import opened Bits
  import opened CanonicalCode
  import opened HuffmanHeap
  import opened HuffmanTree
  import opened BitLengths
  import opened LengthCounts
  import opened GenBitlen
  import opened ForcedCodes
  import opened HuffmanOptimal
  import opened OptimalCode
  import opened LengthOrder

  // A tree_desc with its ct_data array: fc is the Freq/Code field, dl the Dad/Len field.
  class TreeDesc {
    const fc: array<nat>
    const dl: array<nat>
    const staticLens: seq<nat>   // the Len fields of static_tree, or [] for NULL
    const extraBits: seq<nat>
    const extraBase: nat
    const elems: nat
    const maxLength: nat
    var maxCode: nat

    constructor (staticLens: seq<nat>, extraBits: seq<nat>, extraBase: nat, elems: nat, maxLength: nat)
      ensures this.staticLens == staticLens && this.extraBits == extraBits
      ensures this.extraBase == extraBase && this.elems == elems && this.maxLength == maxLength
      ensures fresh(fc) && fresh(dl) && fc != dl && fc.Length == dl.Length == 2 * elems + 1
      ensures forall i :: 0 <= i < 2 * elems + 1 ==> fc[i] == 0
    {
      this.staticLens, this.extraBits, this.extraBase := staticLens, extraBits, extraBase;
      this.elems, this.maxLength, this.maxCode := elems, maxLength, 0;
      fc := new nat[2 * elems + 1](_ => 0);
      dl := new nat[2 * elems + 1](_ => 0);
    }

    // What pack_gzip sets up for each of the three trees.
    ghost predicate Wf()
    {
      && fc.Length == dl.Length == 2 * elems + 1 && fc != dl
      && MAX_BITS < elems <= L_CODES && 1 <= maxLength <= MAX_BITS && elems <= Pow2(maxLength)
      && elems <= extraBase + |extraBits|
      && (staticLens == [] || |staticLens| >= elems)
      && forall n :: 0 <= n <= 2 ==> Extra(extraBits, extraBase, n) == 0
    }

    ghost function Extras(): (xb: seq<nat>)
      ensures |xb| == elems && forall n :: 0 <= n < elems ==> xb[n] == Extra(extraBits, extraBase, n)
    {
      seq(elems, n requires n >= 0 => Extra(extraBits, extraBase, n))
    }
  }

  // Number of extra bits that follow the code of symbol n.
  function Extra(extraBits: seq<nat>, extraBase: nat, n: nat): nat
  {
    if extraBase <= n < extraBase + |extraBits| then extraBits[n - extraBase] else 0
  }

  // The part of the globals that builds trees.
  class TreeBuilder {
    const heap: array<nat>
    const depth: array<nat>
    const blCount: array<nat>
    var heapLen: nat
    var heapMax: nat
    var optLen: int
    var staticLen: int

    constructor ()
      ensures fresh(heap) && fresh(depth) && fresh(blCount)
      ensures heap.Length == depth.Length == HEAP_SIZE && blCount.Length == MAX_BITS + 1
      ensures heap != depth && heap != blCount && depth != blCount
      ensures forall i :: 0 <= i <= MAX_BITS ==> blCount[i] == 0
    {
      heap := new nat[HEAP_SIZE](_ => 0);
      depth := new nat[HEAP_SIZE](_ => 0);
      blCount := new nat[MAX_BITS + 1](_ => 0);
      heapLen, heapMax, optLen, staticLen := 0, HEAP_SIZE, 0, 0;
    }

    ghost predicate Apart(t: TreeDesc)
    {
      && heap.Length == depth.Length == HEAP_SIZE && blCount.Length == MAX_BITS + 1
      && t.Wf()
      && heap != depth && heap != blCount && depth != blCount
      && heap != t.fc && heap != t.dl && depth != t.fc && depth != t.dl
      && blCount != t.fc && blCount != t.dl
    }

    ghost function Now(t: TreeDesc, node: nat): Build
      reads this, heap, depth, t.fc, t.dl
    {
      Build(t.fc[..], t.dl[..], depth[..], heap[..], heapLen, heapMax, node)
    }

    method Enter(n: nat)
      requires heap.Length == depth.Length == HEAP_SIZE && heap != depth && heapLen + 1 < HEAP_SIZE && n < HEAP_SIZE
      modifies `heapLen, heap, depth
      ensures heapLen == old(heapLen) + 1 && heap[..] == old(heap[..])[heapLen := n]
      ensures depth[..] == old(depth[..])[n := 0]
    {
      heapLen := heapLen + 1;
      heap[heapLen] := n;
      depth[n] := 0;
    }

    // The first loop of build_tree.
    method EnterUsed(t: TreeDesc) returns (maxCode: int, ghost h: seq<nat>)
      requires Apart(t)
      modifies `heapLen, `heapMax, heap, depth, t.dl
      ensures heapMax == HEAP_SIZE && h == heap[..]
      ensures Scanned(t.fc[..], h, heapLen, t.elems, maxCode)
      ensures forall x :: 0 <= x < t.elems ==> if t.fc[x] == 0 then t.dl[x] == 0 else depth[x] == 0
    {
      hide Scanned;
      heapLen := 0;
      heapMax := HEAP_SIZE;
      maxCode := -1;
      h := heap[..];
      ghost var f := t.fc[..];
      ScanStart(f, h);
      for n := 0 to t.elems
        invariant heapMax == HEAP_SIZE && f == t.fc[..] && h == heap[..]
        invariant Scanned(f, h, heapLen, n, maxCode)
        invariant forall x :: 0 <= x < n ==> if f[x] == 0 then t.dl[x] == 0 else depth[x] == 0
      {
        ScanStep(f, h, heapLen, n, maxCode);
        if t.fc[n] != 0 {
          Enter(n);
          maxCode := n;
          h := h[heapLen := n];
        } else {
          t.dl[n] := 0;
        }
      }
    }

    // Force one more code.
    method ForceCode(t: TreeDesc, max: int) returns (x: nat, max': int)
      requires Apart(t) && heapLen < 2 && -1 <= max
      modifies `heapLen, `optLen, `staticLen, heap, depth, t.fc
      ensures x == (if max < 2 then max + 1 else 0) && max' == (if max < 2 then max + 1 else max)
      ensures heapLen == old(heapLen) + 1 && heap[..] == old(heap[..])[heapLen := x]
      ensures depth[..] == old(depth[..])[x := 0]
      ensures t.fc[..] == old(t.fc[..])[x := 1]
      ensures optLen == old(optLen) - 1
      ensures staticLen == old(staticLen) - if t.staticLens == [] then 0 else t.staticLens[x]
    {
      max' := max;
      x := 0;
      if max' < 2 {
        max' := max' + 1;
        x := max';
      }
      Enter(x);
      t.fc[x] := 1;
      optLen := optLen - 1;
      if t.staticLens != [] {
        staticLen := staticLen - t.staticLens[x];
      }
    }

    // The second loop of build_tree: at least two codes.
    method ForceCodes(t: TreeDesc, maxCode0: int, ghost u: set<nat>)
      returns (maxCode: nat, ghost used: set<nat>, ghost forced: seq<nat>)
      requires Apart(t) && maxCode0 < t.elems
      requires UsedBelow(u, t.fc[..], t.elems) && Entered(heap[..], heapLen, u, maxCode0) && NoSons(depth[..], u)
      modifies `heapLen, `optLen, `staticLen, heap, depth, t.fc
      ensures maxCode < t.elems && heapLen >= 2 && Entered(heap[..], heapLen, used, maxCode) && NoSons(depth[..], used)
      ensures ForcedSet(old(t.fc[..]), t.elems, used, forced)
      ensures t.fc[..] == Force(old(t.fc[..]), forced)
      ensures forced != [] ==> |used| == 2
      ensures optLen == old(optLen) - |forced|
      ensures staticLen == old(staticLen) - StaticOf(t.staticLens, forced)
    {
      hide NoSons;
      ghost var fc0 := t.fc[..];
      var max := maxCode0;
      used, forced := u, [];
      while heapLen < 2
        invariant max < t.elems && Entered(heap[..], heapLen, used, max) && NoSons(depth[..], used)
        invariant ForcedSet(fc0, t.elems, used, forced) && t.fc[..] == Force(fc0, forced)
        invariant forced != [] ==> heapLen <= 2
        invariant optLen == old(optLen) - |forced|
        invariant staticLen == old(staticLen) - StaticOf(t.staticLens, forced)
        decreases 2 - heapLen
      {
        ghost var h, len, max0, d := heap[..], heapLen, max, depth[..];
        ForcedIsFresh(h, len, used, max);
        var x;
        x, max := ForceCode(t, max);
        EnterSymbol(h, len, used, max0, x, heap[..], heapLen, used + {x}, max);
        ForceOneMore(fc0, t.elems, t.staticLens, used, forced, x);
        NoSonsMore(d, used, x);
        used, forced := used + {x}, forced + [x];
      }
      maxCode := max;
    }

    // Sub-heaps of increasing size.
    method MakeHeap(t: TreeDesc)
      requires Apart(t) && heapLen >= 1 && NodesIn(heap[..], heapLen, t.fc.Length)
      modifies heap
      ensures NodesIn(heap[..], heapLen, t.fc.Length)
      ensures HeapFrom(t.fc[..], depth[..], heap[..], heapLen, 1)
      ensures multiset(heap[1..heapLen + 1]) == multiset(old(heap[1..heapLen + 1]))
    {
      hide OrderedAt, Smaller;
      ghost var f, d, h0 := t.fc[..], depth[..], heap[..];
      var n := heapLen / 2;
      HalfHeap(f, d, heap[..], heapLen);
      while n >= 1
        invariant 0 <= n <= heapLen / 2
        invariant NodesIn(heap[..], heapLen, |f|) && HeapFrom(f, d, heap[..], heapLen, n + 1)
        invariant multiset(heap[..]) == multiset(h0)
        invariant forall i :: 0 <= i < heap.Length && (i < 1 || i >= heapLen + 1) ==> heap[i] == h0[i]
      {
        SinkRestores(f, d, heap[..], heapLen, n);
        PqDownHeap(t.fc, depth, heap, heapLen, n);
        n := n - 1;
      }
      SliceMultiset(heap[..], h0, 1, heapLen + 1);
    }

    // One round of the combining loop.
    method Combine(t: TreeDesc, node: nat)
      requires Apart(t) && StepOk(Now(t, node))
      modifies `heapLen, `heapMax, heap, depth, t.fc, t.dl
      ensures Now(t, node + 1) == Step(old(Now(t, node)))
    {
      hide Sink, Low;
      ghost var b := Now(t, node);
      // PQREMOVE
      var n := heap[1];
      heap[1] := heap[heapLen];
      heapLen := heapLen - 1;
      PqDownHeap(t.fc, depth, heap, heapLen, 1);
      assert heap[..] == Removed(b);
      var m := heap[1];
      heapMax := heapMax - 1;
      heap[heapMax] := n;
      heapMax := heapMax - 1;
      heap[heapMax] := m;
      t.fc[node] := FatherFreq(t.fc[n], t.fc[m]);
      depth[node] := FatherDepth(depth[n], depth[m]);
      t.dl[n] := node;
      t.dl[m] := node;
      heap[1] := node;
      assert heap[..] == Joined(b);
      assert t.fc[..] == Step(b).fc && depth[..] == Step(b).depth;
      PqDownHeap(t.fc, depth, heap, heapLen, 1);
      assert t.dl[..] == Step(b).dl;
    }

    // The combining loop.
    method CombineLoop(t: TreeDesc, ghost used: set<nat>) returns (node: nat, ghost b: Build)
      requires Apart(t) && Combining(Now(t, t.elems), t.elems, used) && heapLen >= 2
      modifies `heapLen, `heapMax, heap, depth, t.fc, t.dl
      ensures b == Now(t, node) && Progress(old(Now(t, t.elems)), b, t.elems, used) && b.len == 1
      ensures b == Final(old(Now(t, t.elems)))
    {
      ghost var b0 := Now(t, t.elems);
      b := b0;
      node := t.elems;
      while heapLen >= 2
        invariant b == Now(t, node) && Progress(b0, b, t.elems, used) && Final(b) == Final(b0)
        decreases heapLen
      {
        ProgressStep(b0, b, t.elems, used);
        Combine(t, node);
        b := Step(b);
        node := node + 1;
      }
    }

    // The result lists the whole tree, fathers first: all that gen_bitlen relies on.
    method CombineAll(t: TreeDesc, maxCode: nat, ghost used: set<nat>) returns (ghost j: Job)
      requires Apart(t) && Combining(Now(t, t.elems), t.elems, used) && heapLen >= 2 && maxCode < t.elems
      requires maxCode in used && forall x :: x in used ==> x <= maxCode
      requires NoSons(depth[..], used) && forall x :: 0 <= x < t.elems && x !in used ==> t.dl[x] == 0
      modifies `heapLen, `heapMax, heap, depth, t.fc, t.dl
      ensures heapMax < HEAP_SIZE && j == JobOf(t, maxCode, j.k, used) && j.Valid() && j.k + 1 == |used|
      ensures TreeFrom(j, old(Now(t, t.elems))) && forall x :: 0 <= x < t.elems ==> t.fc[x] == old(t.fc[x])
    {
      hide TreeFrom, HeapFrom, PairAt, Final, NodesIn, Job.Valid;
      ghost var b0 := Now(t, t.elems);
      ghost var b;
      var node;
      node, b := CombineLoop(t, used);
      j := Job(b.dl, [b.heap[1]] + b.heap[b.max..], t.elems, b.node - t.elems, used, t.maxLength, maxCode,
               Tally(b.fc, t.staticLens, t.Extras()));
      FinalJob(b0, b, j);
      heapMax := heapMax - 1;
      heap[heapMax] := heap[1];
      assert heap[heapMax..] == [b.heap[1]] + b.heap[b.max..];
    }

    // gen_bitlen gives node n its length; a leaf is counted and paid for.
    method PlaceNode(t: TreeDesc, n: nat, bits: nat, maxCode: nat)
      requires Apart(t) && n < t.dl.Length && maxCode < t.elems && 1 <= bits <= MAX_BITS
      modifies `optLen, `staticLen, blCount, t.dl
      ensures t.dl[..] == old(t.dl[..])[n := bits]
      ensures blCount[..] == if n <= maxCode then old(blCount[..])[bits := old(blCount[bits]) + 1] else old(blCount[..])
      ensures optLen == old(optLen) + if n <= maxCode then t.fc[n] * (bits + Extra(t.extraBits, t.extraBase, n)) else 0
      ensures staticLen == old(staticLen) + if n <= maxCode && t.staticLens != []
        then t.fc[n] * (t.staticLens[n] + Extra(t.extraBits, t.extraBase, n)) else 0
    {
      t.dl[n] := bits;
      if n > maxCode {
        return;
      }
      blCount[bits] := blCount[bits] + 1;
      var xbits := 0;
      if n >= t.extraBase {
        xbits := t.extraBits[n - t.extraBase];
      }
      var f := t.fc[n];
      optLen := optLen + f * (bits + xbits);
      if t.staticLens != [] {
        staticLen := staticLen + f * (t.staticLens[n] + xbits);
      }
    }

    // What gen_bitlen is given.
    ghost function JobOf(t: TreeDesc, maxCode: nat, k: nat, used: set<nat>): Job
      requires heapMax <= heap.Length
      reads this, heap, t.fc, t.dl
    {
      Job(t.dl[..], heap[heapMax..], t.elems, k, used, t.maxLength, maxCode, Tally(t.fc[..], t.staticLens, t.Extras()))
    }

    method ClearCounts()
      requires blCount.Length == MAX_BITS + 1
      modifies blCount
      ensures blCount[..] == seq(MAX_BITS + 1, _ => 0)
    {
      for bits := 0 to MAX_BITS + 1
        invariant forall l :: 0 <= l < bits ==> blCount[l] == 0
      {
        blCount[bits] := 0;
      }
    }

    ghost function PassNow(t: TreeDesc, overflow: nat, opt: int, stat: int): Pass
      reads this, blCount, t.dl
    {
      Pass(t.dl[..], blCount[..], overflow, optLen - opt, staticLen - stat)
    }

    // One node of the first pass.
    method LengthOf(t: TreeDesc, n: nat, maxCode: nat, overflow0: nat, ghost j: Job, ghost opt: int, ghost stat: int)
      returns (overflow: nat)
      requires Apart(t) && maxCode < t.elems && n < t.dl.Length && t.dl[n] < t.dl.Length
      requires j.max == t.maxLength && j.maxCode == maxCode && j.prices == Tally(t.fc[..], t.staticLens, t.Extras())
      modifies `optLen, `staticLen, blCount, t.dl
      ensures PassNow(t, overflow, opt, stat) == PassNode(j, old(PassNow(t, overflow0, opt, stat)), n)
    {
      overflow := overflow0;
      var bits := t.dl[t.dl[n]] + 1;
      if bits > t.maxLength {
        bits := t.maxLength;
        overflow := overflow + 1;
      }
      PlaceNode(t, n, bits, maxCode);
    }

    // The first pass of gen_bitlen.
    method FirstPass(t: TreeDesc, maxCode: nat, ghost j: Job) returns (overflow: nat)
      requires Apart(t) && heapMax < HEAP_SIZE && maxCode < t.elems
      requires j == JobOf(t, maxCode, j.k, j.used) && InRange(j)
      modifies `optLen, `staticLen, blCount, t.dl
      ensures PassTo(j, |j.ord|) == PassNow(t, overflow, old(optLen), old(staticLen))
    {
      hide PassTo, PassNode, InRange;
      overflow := 0;
      ClearCounts();
      PassFirst(j);
      t.dl[heap[heapMax]] := 0;
      for h := heapMax + 1 to HEAP_SIZE
        invariant PassTo(j, h - heapMax) == PassNow(t, overflow, old(optLen), old(staticLen))
      {
        PassNext(j, h - heapMax);
        overflow := LengthOf(t, heap[h], maxCode, overflow, j, old(optLen), old(staticLen));
      }
    }

    ghost function PlaceNow(t: TreeDesc, h: nat): Place
      requires h >= heapMax
      reads this, t.dl
    {
      Place(h - heapMax, t.dl[..], optLen)
    }

    // The leaves of one length: back through the list until n of them are served.
    method ServeLength(t: TreeDesc, maxCode: nat, bits: nat, h0: nat) returns (h: nat)
      requires Apart(t) && bits <= MAX_BITS && heapMax <= h0 <= HEAP_SIZE
      requires CanServe(heap[heapMax..], t.fc[..], maxCode, bits, blCount[bits], PlaceNow(t, h0))
      modifies `optLen, t.dl
      ensures heapMax <= h <= HEAP_SIZE
      ensures PlaceNow(t, h) == old(Serve(heap[heapMax..], t.fc[..], maxCode, bits, blCount[bits], PlaceNow(t, h0)))
    {
      hide Serve, CanServe;
      ghost var ord, fc := heap[heapMax..], t.fc[..];
      ghost var end := Serve(ord, fc, maxCode, bits, blCount[bits], PlaceNow(t, h0));
      h := h0;
      var n := blCount[bits];
      while n != 0
        invariant heapMax <= h <= HEAP_SIZE
        invariant CanServe(ord, fc, maxCode, bits, n, PlaceNow(t, h))
        invariant Serve(ord, fc, maxCode, bits, n, PlaceNow(t, h)) == end
        decreases h
      {
        ghost var s := PlaceNow(t, h);
        ServeStep(ord, fc, maxCode, bits, n, s);
        h := h - 1;
        var m := heap[h];
        assert m == ord[h - heapMax];
        if m > maxCode {
          assert PlaceNow(t, h) == Back(ord, fc, maxCode, bits, s);
          continue;
        }
        if t.dl[m] != bits {
          optLen := optLen + (bits - t.dl[m]) * t.fc[m];
          t.dl[m] := bits;
        } else {
          assert s.dl[m := bits] == s.dl && bits - s.dl[m] == 0;
        }
        assert PlaceNow(t, h) == Back(ord, fc, maxCode, bits, s);
        n := n - 1;
      }
      ServeNone(ord, fc, maxCode, bits, PlaceNow(t, h));
    }

    // The second pass of gen_bitlen: all lengths, longest first, from the end of the list.
    method SecondPass(t: TreeDesc, maxCode: nat)
      requires Apart(t) && heapMax <= HEAP_SIZE
      requires CanServeAll(heap[heapMax..], t.fc[..], maxCode, blCount[..], t.maxLength, PlaceNow(t, HEAP_SIZE))
      modifies `optLen, t.dl
      ensures var e := old(ServeAll(heap[heapMax..], t.fc[..], maxCode, blCount[..], t.maxLength,
              PlaceNow(t, HEAP_SIZE)));
              t.dl[..] == e.dl && optLen == e.opt
    {
      ghost var ord, fc, bl := heap[heapMax..], t.fc[..], blCount[..];
      ghost var end := ServeAll(ord, fc, maxCode, bl, t.maxLength, PlaceNow(t, HEAP_SIZE));
      var h: nat, bits: nat := HEAP_SIZE, t.maxLength;
      while bits != 0
        invariant heapMax <= h <= HEAP_SIZE && bits <= t.maxLength
        invariant CanServeAll(ord, fc, maxCode, bl, bits, PlaceNow(t, h))
        invariant ServeAll(ord, fc, maxCode, bl, bits, PlaceNow(t, h)) == end
        decreases bits
      {
        h := ServeLength(t, maxCode, bits, h);
        bits := bits - 1;
      }
    }

    // gen_bitlen
    method GenBitLen(t: TreeDesc, maxCode: nat, ghost j: Job)
      requires Apart(t) && heapMax < HEAP_SIZE && maxCode < t.elems
      requires j == JobOf(t, maxCode, j.k, j.used) && j.Valid()
      modifies `optLen, `staticLen, blCount, t.dl
      ensures Delivered(j, blCount[..], t.dl[..], optLen - old(optLen), staticLen - old(staticLen))
      ensures Settled(j, blCount[..], t.dl[..], old(optLen))
    {
      hide Delivered, PassTo, Job.Valid, Repaired, ServeAll;
      JobReady(j);
      var overflow := FirstPass(t, maxCode, j);
      if overflow == 0 {
        return;
      }
      Repair(blCount, t.maxLength, overflow, j.k + 1);
      assert SecondDelivers(j, blCount[..], optLen);
      SecondPass(t, maxCode);
    }

    // The first two loops of build_tree: which codes take part.
    method ChooseCodes(t: TreeDesc) returns (maxCode: nat, ghost used: set<nat>, ghost forced: seq<nat>)
      requires Apart(t)
      modifies `heapLen, `heapMax, `optLen, `staticLen, heap, depth, t.fc, t.dl
      ensures heapMax == HEAP_SIZE && maxCode < t.elems && heapLen >= 2 && Entered(heap[..], heapLen, used, maxCode)
      ensures NoSons(depth[..], used)
      ensures ForcedSet(old(t.fc[..]), t.elems, used, forced) && t.fc[..] == Force(old(t.fc[..]), forced)
      ensures forced != [] ==> |used| == 2
      ensures forall x :: 0 <= x < t.elems && x !in used ==> t.dl[x] == 0
      ensures optLen == old(optLen) - |forced| && staticLen == old(staticLen) - StaticOf(t.staticLens, forced)
    {
      hide Scanned, Entered, Force, ForcedSet, StaticOf, NoSons, UsedBelow;
      ghost var freq := t.fc[..];
      var max0;
      ghost var h;
      max0, h := EnterUsed(t);
      ScanEnd(t.fc[..], h, heapLen, t.elems, max0);
      EnteredLow(freq, depth[..], t.elems, Elements(h[1..heapLen + 1]));
      maxCode, used, forced := ForceCodes(t, max0, Elements(h[1..heapLen + 1]));
      NotUsed(freq, t.elems, used, forced);
    }

    // The third loop: heap order.
    method OrderHeap(t: TreeDesc, maxCode: nat, ghost used: set<nat>)
      requires Apart(t) && heapMax == HEAP_SIZE && maxCode < t.elems && heapLen >= 2
      requires Entered(heap[..], heapLen, used, maxCode)
      modifies heap
      ensures Combining(Now(t, t.elems), t.elems, used)
    {
      EnteredNodes(heap[..], heapLen, used, maxCode, t.elems);
      MakeHeap(t);
      StartForest(t.dl[..], heap[..], heapLen, t.elems, used);
    }

    // build_tree up to the call of gen_bitlen.
    method GrowTree(t: TreeDesc) returns (ghost j: Job, ghost forced: seq<nat>, ghost b: Build)
      requires Apart(t)
      modifies `heapLen, `heapMax, `optLen, `staticLen, heap, depth, t.fc, t.dl, t`maxCode
      ensures heapMax < HEAP_SIZE && t.maxCode < t.elems && j == JobOf(t, t.maxCode, j.k, j.used) && j.Valid()
      ensures Forced(old(t.fc[..]), j, forced) && TreeFrom(j, b) && |b.fc| == t.fc.Length
      ensures optLen == old(optLen) - |forced| && staticLen == old(staticLen) - StaticOf(t.staticLens, forced)
    {
      hide TreeFrom, Combining, NoSons, ForcedSet, Force;
      var maxCode;
      ghost var used;
      maxCode, used, forced := ChooseCodes(t);
      OrderHeap(t, maxCode, used);
      ghost var fc := t.fc[..];
      b := Now(t, t.elems);
      t.maxCode := maxCode;
      j := CombineAll(t, maxCode, used);
    }

    // build_tree
    method BuildTree(t: TreeDesc)
      requires Apart(t)
      modifies `heapLen, `heapMax, `optLen, `staticLen, heap, depth, blCount, t.fc, t.dl, t`maxCode
      ensures BuiltTree(old(t.fc[..]), t.fc[..], t.dl[..], t.elems, t.maxLength, t.maxCode)
      ensures OptimalWhereAttainable(old(t.fc[..]), t.elems, t.maxLength, t.dl[..])
      ensures InOrder(old(t.fc[..]), t.elems, t.dl[..])
      ensures optLen == old(optLen) + Cost(old(t.fc[..]), t.dl[..t.maxCode + 1], t.Extras())
      ensures staticLen == old(staticLen)
        + if t.staticLens == [] then 0 else StaticCost(old(t.fc[..]), t.dl[..t.maxCode + 1], t.staticLens, t.Extras())
    {
      hide Cost, StaticCost, Delivered, Ready, CountsMatch, Forced, StaticOf, CodesSet, FirstCode;
      hide TreeFrom, OptimalWhereAttainable, PassTo, Keeps, Settled, InOrder;
      ghost var freq := t.fc[..];
      ghost var j, forced, b := GrowTree(t);
      ghost var opt, stat := optLen, staticLen;
      GenBitLen(t, t.maxCode, j);
      TreeResult(j, freq, forced, blCount[..], t.dl[..], optLen - opt, staticLen - stat);
      GoodKeeps(freq, t.dl[..], t.elems, t.maxLength, t.maxCode);
      SettledFirst(j, blCount[..], t.dl[..], opt);
      TreeIsOptimal(j, b, freq, forced, t.dl[..]);
      DeliveredCounts(j, blCount[..], t.dl[..], optLen - opt, staticLen - stat);
      LengthsOrdered(j, b, freq, forced, blCount[..], t.dl[..], opt);
      GenCodes(t.fc, t.dl, blCount, t.maxCode);
    }
  }

  // The forest is kept, and so are the frequencies of the symbols and the fields of the
  // symbols that are not used.
  ghost predicate Progress(b0: Build, b: Build, elems: nat, used: set<nat>)
  {
    && Combining(b, elems, used)
    && |b0.dl| == |b.dl| && |b0.fc| == |b.fc|
    && (forall x :: 0 <= x < elems && x !in used ==> b.dl[x] == b0.dl[x])
    && (forall x :: 0 <= x < elems ==> b.fc[x] == b0.fc[x])
  }

  lemma {:induction false} ProgressStep(b0: Build, b: Build, elems: nat, used: set<nat>)
    requires Progress(b0, b, elems, used) && b.len >= 2
    ensures StepOk(b) && Progress(b0, Step(b), elems, used)
  {
    StepKeeps(b, elems, used);
  }

  lemma {:induction false} EnteredNodes(heap: seq<nat>, len: nat, used: set<nat>, maxCode: int, elems: nat)
    requires Entered(heap, len, used, maxCode) && maxCode < elems
    ensures NodesIn(heap, len, 2 * elems + 1)
  {
    forall i | 1 <= i <= len ensures heap[i] < elems {
      ElementOfSlice(heap, 1, len + 1, i);
    }
  }

  // Before the first round all nodes are in the heap and the list is empty.
  lemma {:induction false} StartForest(dl: seq<nat>, heap: seq<nat>, len: nat, elems: nat, used: set<nat>)
    requires |heap| == HEAP_SIZE && 1 <= len < HEAP_SIZE && elems <= L_CODES && |dl| >= 2 * elems + 1
    requires multiset(heap[1..len + 1]) == multiset(used) && |used| == len
    requires forall x :: x in used ==> x < elems
    ensures Forest(dl, heap, len, HEAP_SIZE, elems, elems, used)
  {
    assert heap[HEAP_SIZE..] == [];
    assert Nodes(used, elems, elems) == used;
  }

  lemma {:induction false} SettledFirst(j: Job, bl: seq<nat>, dl: seq<nat>, opt: int)
    requires Settled(j, bl, dl, opt)
    ensures InRange(j) && (PassTo(j, |j.ord|).overflow == 0 ==> dl == PassTo(j, |j.ord|).dl)
  {
  }

  lemma {:induction false} DeliveredCounts(j: Job, bl: seq<nat>, dl: seq<nat>, dyn: int, stat: int)
    requires Delivered(j, bl, dl, dyn, stat)
    ensures Overfull(bl, j.max, 0, j.k + 1)
  {
  }

  // What build_tree promises of the lengths: a complete prefix code within the length limit
  // in which every symbol of non-zero frequency has a code.
  ghost predicate GoodLengths(freq: seq<nat>, dl: seq<nat>, elems: nat, max: nat, maxCode: nat)
  {
    && 1 <= maxCode < elems <= |dl| && elems <= |freq|
    && Complete(dl[..maxCode + 1])
    && (forall x :: 0 <= x < elems && freq[x] != 0 ==> x <= maxCode && dl[x] >= 1)
    && (forall x :: 0 <= x <= maxCode ==> dl[x] <= max)
    && dl[maxCode] >= 1 && (forall x :: maxCode < x < elems ==> dl[x] == 0)
  }

  lemma {:induction false} GoodKeeps(freq: seq<nat>, dl: seq<nat>, elems: nat, max: nat, maxCode: nat)
    requires GoodLengths(freq, dl, elems, max, maxCode)
    ensures Keeps(freq, elems, dl, max)
  {
  }

  ghost predicate BuiltTree(freq: seq<nat>, codes: seq<nat>, dl: seq<nat>, elems: nat, max: nat, maxCode: nat)
  {
    GoodLengths(freq, dl, elems, max, maxCode) && CodesSet(codes, dl[..maxCode + 1])
  }

  lemma {:induction false} DeliveredTree(j: Job, bl: seq<nat>, dl: seq<nat>, dyn: int, stat: int)
    requires Delivered(j, bl, dl, dyn, stat)
    ensures Complete(dl[..j.maxCode + 1])
    ensures forall x :: x in j.used && j.k == 1 ==> dl[x] == 1
  {
    var lens := dl[..j.maxCode + 1];
    assert LengthsBounded(lens);
    KraftComplete(bl, lens, j.max, j.k + 1);
    forall x | x in j.used && j.k == 1 ensures dl[x] == 1 {
      assert lens[x] == dl[x];
      CountHas(lens, x);
      if lens[x] >= 2 { TwoLeaves(bl, j.max, lens[x]); }
    }
  }

  lemma {:induction false} TreeResult(j: Job, freq: seq<nat>, forced: seq<nat>, bl: seq<nat>, dl: seq<nat>, dyn: int,
      stat: int)
    requires Delivered(j, bl, dl, dyn, stat) && Forced(freq, j, forced)
    requires |j.prices.xb| == j.elems && forall x :: 0 <= x <= 2 ==> j.prices.xb[x] == 0
    ensures GoodLengths(freq, dl, j.elems, j.max, j.maxCode) && CountsMatch(bl, dl[..j.maxCode + 1])
    ensures dyn == |forced| + Cost(freq, dl[..j.maxCode + 1], j.prices.xb)
    ensures stat == StaticOf(j.prices.st, forced)
      + if j.prices.st == [] then 0 else StaticCost(freq, dl[..j.maxCode + 1], j.prices.st, j.prices.xb)
  {
    DeliveredTree(j, bl, dl, dyn, stat);
    var lens, fc', xb, st := dl[..j.maxCode + 1], Force(freq, forced), j.prices.xb, j.prices.st;
    SomeLarger(j.used, j.maxCode);
    CostSame(j.prices.fc, fc', lens, xb);
    ForcedCost(freq, forced, lens, xb);
    StaticOfNone(forced);
    if st != [] {
      StaticSame(j.prices.fc, fc', lens, st, xb);
      ForcedStatic(freq, forced, lens, st, xb);
    }
  }

  lemma {:induction false} SomeLarger(used: set<nat>, maxCode: nat)
    requires |used| >= 2 && forall x :: x in used ==> x <= maxCode
    ensures maxCode >= 1
  {
    UsedBound(used, maxCode + 1);
  }

  // The job that the combining loop leaves to gen_bitlen.
  lemma {:induction false} FinalJob(b0: Build, b: Build, j: Job)
    requires Progress(b0, b, j.elems, j.used) && b.len == 1 && |j.used| >= 2
    requires Combining(b0, j.elems, j.used) && b0.node == j.elems && b == Final(b0)
    requires NoSons(b0.depth, j.used)
    requires j.dad == b.dl && ListOf(b, j.ord) && j.k == b.node - j.elems && j.prices.fc == b.fc
    requires j.prices.Covers(j.maxCode + 1) && MAX_BITS < j.elems <= Pow2(j.max) && j.maxCode < j.elems
             && 1 <= j.max <= MAX_BITS
    requires j.maxCode in j.used && forall x :: x in j.used ==> x <= j.maxCode
    requires forall x :: 0 <= x < j.elems && x !in j.used ==> b0.dl[x] == 0
    ensures TreeFrom(j, b0) && j.Valid() && j.k >= 1 && j.k + 1 == |j.used| && b.max >= 2
  {
    hide Forest, Final;
    FinalList(b, j.elems, j.used);
  }
}
