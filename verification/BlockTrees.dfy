/** build_bl_tree and send_all_trees: the header of a block with its own codes. */
module BlockTrees {
  import opened Bits
  import opened BitOutput
  import opened CanonicalCode
  import opened CodeLengthRuns
  import opened GenBitlen
  import opened TreeBuilding
  import OptimalCode
  import opened SymbolTally
  import opened Inflate
  import opened BlockEncoding
  import opened TreeHeader

  // lens' continues lens with lengths 0.
  ghost predicate Padded(lens: seq<nat>, lens': seq<nat>)
  {
    && |lens| <= |lens'|
    && (forall i :: 0 <= i < |lens| ==> lens'[i] == lens[i])
    && (forall i :: |lens| <= i < |lens'| ==> lens'[i] == 0)
  }

  lemma {:induction false} PaddedCount(lens: seq<nat>, lens': seq<nat>, l: nat)
    requires Padded(lens, lens') && l >= 1
    ensures Count(lens', l) == Count(lens, l)
    decreases |lens'|
  {
    if |lens'| > |lens| {
      PaddedCount(lens, lens'[..|lens'| - 1], l);
    } else {
      assert lens == lens';
    }
  }

  lemma {:induction false} PaddedFirst(lens: seq<nat>, lens': seq<nat>, l: nat)
    requires Padded(lens, lens')
    ensures FirstCode(lens', l) == FirstCode(lens, l)
  {
    if l > 1 {
      PaddedFirst(lens, lens', l - 1);
      PaddedCount(lens, lens', l - 1);
    }
  }

  lemma {:induction false} PaddedCode(lens: seq<nat>, lens': seq<nat>, s: nat)
    requires Padded(lens, lens') && s < |lens|
    ensures CodeBits(lens', s) == CodeBits(lens, s)
  {
    PaddedFirst(lens, lens', lens[s]);
    assert lens'[..s] == lens[..s];
  }

  // Symbols without a code change nothing.
  lemma {:induction false} PaddedCodes(codes: seq<nat>, lens: seq<nat>, lens': seq<nat>)
    requires Padded(lens, lens') && Complete(lens) && CodesSet(codes, lens) && |lens'| <= |codes|
    ensures Complete(lens') && CodesSet(codes, lens')
  {
    PaddedFirst(lens, lens', 16);
    forall n | 0 <= n < |lens'| ensures CodeSet(codes[n], lens', n) {
      if n < |lens| {
        assert CodeSet(codes[n], lens, n);
        PaddedCode(lens, lens', n);
      }
    }
  }

  // The first non-zero length of a tree is sent as itself.
  lemma {:induction false} SomeLength(lens: seq<nat>, n: nat, prev: int, count: nat, k: nat) returns (i: nat)
    requires Pending(lens, n, prev, count, [if prev >= 0 then prev else 0]) && n <= k < |lens| && lens[k] != 0
             && prev <= 0
    ensures i < |Runs(lens, n, prev, count)| && 1 <= Runs(lens, n, prev, count)[i].sym < 16
    decreases |lens| - n
  {
    var cur := lens[n];
    if count + 1 < MaxCount(prev, cur) && cur == NextLen(lens, n) {
      i := SomeLength(lens, n + 1, prev, count + 1, if n < k then k else n + 1);
    } else if cur != 0 {
      i := 0;
    } else {
      var j := SomeLength(lens, n + 1, cur, 0, k);
      i := |Emit(cur, prev, count + 1)| + j;
    }
  }

  ghost predicate Separate(tb: TreeBuilder, l: TreeDesc, d: TreeDesc, bl: TreeDesc)
  {
    && tb.Apart(l) && tb.Apart(d) && tb.Apart(bl) && l != d && l != bl && d != bl
    && l.fc != d.fc && l.fc != d.dl && l.dl != d.fc && l.dl != d.dl
    && l.fc != bl.fc && l.fc != bl.dl && l.dl != bl.fc && l.dl != bl.dl
    && d.fc != bl.fc && d.fc != bl.dl && d.dl != bl.fc && d.dl != bl.dl
    && bl.elems == BL_CODES && bl.maxLength == 7 && bl.staticLens == []
  }

  // The index in bl_order of the last code length code length to send.
  method LastBlIndex(dl: array<nat>, ghost s: nat) returns (maxBlindex: nat)
    requires dl.Length >= BL_CODES && 1 <= s < 16 && dl[s] != 0
    ensures 3 <= maxBlindex < BL_CODES && dl[BlOrder(maxBlindex)] != 0
    ensures forall i :: maxBlindex < i < BL_CODES ==> dl[BlOrder(i)] == 0
  {
    ghost var k := BlOrderCovers(s);
    maxBlindex := BL_CODES - 1;
    while maxBlindex >= 3
      invariant k <= maxBlindex < BL_CODES
      invariant forall i :: maxBlindex < i < BL_CODES ==> dl[BlOrder(i)] == 0
    {
      if dl[BlOrder(maxBlindex)] != 0 {
        break;
      }
      maxBlindex := maxBlindex - 1;
    }
  }

  // The code lengths of both trees as items of the code length alphabet.
  function TreeItems(ll: seq<nat>, dl: seq<nat>): seq<Item> { AllRuns(ll) + AllRuns(dl) }

  // The tree over the code length alphabet codes every item.
  ghost predicate ItemsTree(ll: seq<nat>, dl: seq<nat>, fc0: seq<nat>, fc: seq<nat>, lens: seq<nat>, maxCode: nat)
  {
    && |fc0| >= BL_CODES && SymsBelow(TreeItems(ll, dl), |fc0|)
    && BuiltTree(CountItems(fc0, TreeItems(ll, dl)), fc, lens, BL_CODES, 7, maxCode)
  }

  lemma {:induction false} SomeFreq(ll: seq<nat>, dl: seq<nat>, fc0: seq<nat>, k: nat) returns (s: nat)
    requires k < |ll| && ll[k] != 0 && (forall i :: 0 <= i < |ll| ==> ll[i] < 16)
    requires |fc0| >= BL_CODES && SymsBelow(TreeItems(ll, dl), |fc0|)
    ensures 1 <= s < 16 && CountItems(fc0, TreeItems(ll, dl))[s] > 0
  {
    var i := SomeLength(ll, 0, -1, 0, k);
    s := AllRuns(ll)[i].sym;
    assert TreeItems(ll, dl)[i] == AllRuns(ll)[i];
    CountedNonZero(fc0, ItemSyms(TreeItems(ll, dl)), i);
  }

  // build_bl_tree
  method BuildBlTree(tb: TreeBuilder, l: TreeDesc, d: TreeDesc, bl: TreeDesc, ghost k: nat) returns (maxBlindex: nat)
    requires Separate(tb, l, d, bl) && l.maxCode < l.elems && d.maxCode < d.elems
    requires (forall i :: 0 <= i <= l.maxCode ==> l.dl[i] < 16) && (forall i :: 0 <= i <= d.maxCode ==> d.dl[i] < 16)
    requires k <= l.maxCode && l.dl[k] != 0
    modifies tb, tb.heap, tb.depth, tb.blCount, l.dl, d.dl, bl.fc, bl.dl, bl`maxCode
    ensures l.dl[..] == old(l.dl[..])[l.maxCode + 1 := GUARD] && d.dl[..] == old(d.dl[..])[d.maxCode + 1 := GUARD]
    ensures ItemsTree(l.dl[..l.maxCode + 1], d.dl[..d.maxCode + 1], old(bl.fc[..]), bl.fc[..], bl.dl[..], bl.maxCode)
    ensures OptimalCode.OptimalWhereAttainable(
              CountItems(old(bl.fc[..]), TreeItems(l.dl[..l.maxCode + 1], d.dl[..d.maxCode + 1])), BL_CODES, 7,
                bl.dl[..])
    ensures 3 <= maxBlindex < BL_CODES && bl.dl[BlOrder(maxBlindex)] != 0
    ensures forall i :: maxBlindex < i < BL_CODES ==> bl.dl[BlOrder(i)] == 0
    ensures tb.optLen == old(tb.optLen) + 3 * (maxBlindex + 1) + 14
      + Cost(CountItems(old(bl.fc[..]), TreeItems(l.dl[..l.maxCode + 1], d.dl[..d.maxCode + 1])),
        bl.dl[..bl.maxCode + 1], bl.Extras())
    ensures tb.staticLen == old(tb.staticLen)
  {
    hide AllRuns, Cost, CountItems, OptimalCode.OptimalWhereAttainable, CodesSet, FirstCode;
    ghost var fc0: seq<nat> := bl.fc[..];
    ScanTree(l.dl, l.maxCode, bl.fc);
    ScanTree(d.dl, d.maxCode, bl.fc);
    ghost var ll: seq<nat>, dl: seq<nat> := l.dl[..l.maxCode + 1], d.dl[..d.maxCode + 1];
    CountItemsConcat(fc0, AllRuns(ll), AllRuns(dl));
    ghost var s := SomeFreq(ll, dl, fc0, k);
    tb.BuildTree(bl);
    maxBlindex := LastBlIndex(bl.dl, s);
    tb.optLen := tb.optLen + 3 * (maxBlindex + 1) + 5 + 5 + 4;
  }

  // The header that send_all_trees sends is a valid one.
  lemma {:induction false} HeaderValid(h: Dynamic, fc0: seq<nat>, fc: seq<nat>, lens: seq<nat>, maxCode: nat)
    requires 257 <= |h.ll| <= 286 && 1 <= |h.dl| <= 30 && 4 <= h.n <= BL_CODES
    requires Complete(h.ll) && Complete(h.dl) && ItemsTree(h.ll, h.dl, fc0, fc, lens, maxCode)
    requires h.cl == lens[..BL_CODES] && |fc| >= BL_CODES
    requires forall i :: h.n <= i < BL_CODES ==> lens[BlOrder(i)] == 0
    ensures h.Valid() && CodesSet(fc, h.cl) && Complete(h.cl)
  {
    PaddedCodes(fc, lens[..maxCode + 1], h.cl);
    ItemsHaveCodes(h, fc0, fc, lens, maxCode);
  }

  lemma {:induction false} ItemsHaveCodes(h: Dynamic, fc0: seq<nat>, fc: seq<nat>, lens: seq<nat>, maxCode: nat)
    requires Complete(h.ll) && Complete(h.dl) && ItemsTree(h.ll, h.dl, fc0, fc, lens, maxCode)
             && h.cl == lens[..BL_CODES]
    ensures ItemsCoded(h.cl, h.Items())
  {
    var items := TreeItems(h.ll, h.dl);
    TwoTreesExpand(h.ll, h.dl);
    forall i | 0 <= i < |items| ensures ItemOk(items[i]) && items[i].sym < |h.cl| && h.cl[items[i].sym] > 0 {
      assert items[i] in items;
      CountedNonZero(fc0, ItemSyms(items), i);
    }
  }

  ghost function BlExtras(): (xb: seq<nat>)
    ensures |xb| == BL_CODES
  {
    seq(BL_CODES, n requires n >= 0 => BlExtra(n))
  }

  lemma {:induction false} ItemsSize(cl: seq<nat>, items: seq<Item>)
    requires ItemsCoded(cl, items) && |cl| <= BL_CODES
    ensures |ItemsBits(cl, items)| == SymBits(ItemSyms(items), cl, BlExtras())
    decreases |items|
  {
    if items != [] {
      var k := |items| - 1;
      var front, it := items[..k], items[k];
      assert items == front + [it];
      ItemsCodedParts(cl, front, [it]);
      ItemsBitsOne(cl, it);
      ItemsBitsConcat(cl, front, [it]);
      ItemsSize(cl, front);
      assert ItemSyms(items) == ItemSyms(front) + [it.sym];
      SymBitsSnoc(ItemSyms(front), cl, BlExtras(), it.sym);
    }
  }

  lemma {:induction false} PaddedCost(fc: seq<nat>, lens: seq<nat>, lens': seq<nat>, xb: seq<nat>)
    requires Padded(lens, lens') && |lens'| <= |fc| && |lens'| <= |xb|
    ensures Cost(fc, lens', xb) == Cost(fc, lens, xb)
    decreases |lens'|
  {
    if |lens'| > |lens| {
      PaddedCost(fc, lens, lens'[..|lens'| - 1], xb);
    } else {
      assert lens == lens';
    }
  }

  // The price that opt_len holds for the items is the number of bits they take.
  lemma {:induction false} ItemsPrice(h: Dynamic, fc0: seq<nat>, fc: seq<nat>, lens: seq<nat>, maxCode: nat,
      xb: seq<nat>)
    requires h.Valid() && ItemsTree(h.ll, h.dl, fc0, fc, lens, maxCode) && h.cl == lens[..BL_CODES]
    requires xb == BlExtras() && forall i :: 0 <= i < BL_CODES ==> fc0[i] == 0
    ensures Cost(CountItems(fc0, TreeItems(h.ll, h.dl)), lens[..maxCode + 1], xb) == |ItemsBits(h.cl, h.Items())|
  {
    var syms := ItemSyms(h.Items());
    ItemsSize(h.cl, h.Items());
    PaddedCost(AddFreqs(fc0, syms), lens[..maxCode + 1], h.cl, xb);
    TallyCost(fc0, syms, h.cl, xb);
    CostZero(fc0, h.cl, xb);
  }

  // The code length code lengths.
  method SendBlLens(w: BitWriter, dl: array<nat>, n: nat, ghost cl: seq<nat>)
    requires w.Valid() && BlLensOk(cl) && dl.Length >= BL_CODES && cl == dl[..BL_CODES] && n <= BL_CODES
    modifies w, w.outbuf
    ensures w.Valid() && w.sent == old(w.sent) + BlLensBits(cl, 0, n)
  {
    hide BitsLE, BlOrder, BlLensBits, BitWriter.Valid;
    ghost var start := w.sent;
    ghost var all := BlLensBits(cl, 0, n);
    for rank := 0 to n
      invariant w.Valid() && start + all == w.sent + BlLensBits(cl, rank, n - rank)
    {
      BlLensStep(cl, rank, n - rank, w.sent);
      Pow2Small();
      w.SendBits(dl[BlOrder(rank)], 3);
    }
    assert BlLensBits(cl, n, 0) == [];
    assert w.sent + [] == w.sent;
  }

  lemma {:induction false} BlLensStep(cl: seq<nat>, rank: nat, n: nat, sent: seq<bool>)
    requires BlLensOk(cl) && rank + n <= BL_CODES && n > 0
    ensures sent + BlLensBits(cl, rank, n) == sent + BitsLE(cl[BlOrder(rank)], 3) + BlLensBits(cl, rank + 1, n - 1)
  {
    hide BitsLE, BlOrder;
    Assoc(sent, BitsLE(cl[BlOrder(rank)], 3), BlLensBits(cl, rank + 1, n - 1));
  }

  method SendCounts(w: BitWriter, lcodes: nat, dcodes: nat, blcodes: nat)
    requires w.Valid() && 257 <= lcodes <= 286 && 1 <= dcodes <= 30 && 4 <= blcodes <= BL_CODES
    modifies w, w.outbuf
    ensures w.Valid()
    ensures w.sent == old(w.sent) + (BitsLE(lcodes - 257, 5) + BitsLE(dcodes - 1, 5) + BitsLE(blcodes - 4, 4))
  {
    hide BitsLE, BitWriter.Valid;
    Pow2Small();
    ghost var a, b, c := BitsLE(lcodes - 257, 5), BitsLE(dcodes - 1, 5), BitsLE(blcodes - 4, 4);
    Assoc(w.sent, a, b);
    Assoc(w.sent, a + b, c);
    w.SendBits(lcodes - 257, 5);
    w.SendBits(dcodes - 1, 5);
    w.SendBits(blcodes - 4, 4);
  }

  ghost function CountBits(lcodes: nat, dcodes: nat, blcodes: nat): seq<bool>
    requires 257 <= lcodes && 1 <= dcodes && 4 <= blcodes
  {
    BitsLE(lcodes - 257, 5) + BitsLE(dcodes - 1, 5) + BitsLE(blcodes - 4, 4)
  }

  lemma {:induction false} HeaderSent(h: Dynamic, start: seq<bool>)
    requires h.Valid()
    ensures ItemsCoded(h.cl, AllRuns(h.ll)) && ItemsCoded(h.cl, AllRuns(h.dl))
    ensures 257 <= |h.ll| <= 286 && 1 <= |h.dl| <= 30 && 4 <= h.n <= BL_CODES && BlLensOk(h.cl) && LengthsBounded(h.cl)
    ensures (forall i :: 0 <= i < |h.ll| ==> h.ll[i] < 16) && (forall i :: 0 <= i < |h.dl| ==> h.dl[i] < 16)
    ensures start + h.Bits()
            == start + CountBits(|h.ll|, |h.dl|, h.n) + BlLensBits(h.cl, 0, h.n) + ItemsBits(h.cl, AllRuns(h.ll))
              + ItemsBits(h.cl, AllRuns(h.dl))
    ensures |h.Bits()| == 14 + 3 * h.n + |ItemsBits(h.cl, h.Items())|
  {
    hide ItemsBits, BlLensBits, AllRuns, FirstCode;
    ItemsCodedParts(h.cl, AllRuns(h.ll), AllRuns(h.dl));
    ItemsBitsConcat(h.cl, AllRuns(h.ll), AllRuns(h.dl));
    var a, b, c, e := h.Counts(), BlLensBits(h.cl, 0, h.n), ItemsBits(h.cl, AllRuns(h.ll)),
        ItemsBits(h.cl, AllRuns(h.dl));
    FourParts(start, a, b, c, e);
  }

  lemma {:induction false} FourParts<T>(start: seq<T>, a: seq<T>, b: seq<T>, c: seq<T>, e: seq<T>)
    ensures start + (a + b + (c + e)) == start + a + b + c + e
  {
  }

  method SendLengths(w: BitWriter, l: TreeDesc, d: TreeDesc, bl: TreeDesc, lcodes: nat, dcodes: nat, blcodes: nat,
      ghost cl: seq<nat>)
    requires w.Valid() && BlLensOk(cl) && LengthsBounded(cl) && CodesSet(bl.fc[..], cl)
    requires 257 <= lcodes <= 286 && 1 <= dcodes <= 30 && 4 <= blcodes <= BL_CODES
    requires lcodes < l.dl.Length && dcodes < d.dl.Length && l.dl[lcodes] == GUARD && d.dl[dcodes] == GUARD
    requires (forall i :: 0 <= i < lcodes ==> l.dl[i] < 16) && (forall i :: 0 <= i < dcodes ==> d.dl[i] < 16)
    requires ItemsCoded(cl, AllRuns(l.dl[..lcodes])) && ItemsCoded(cl, AllRuns(d.dl[..dcodes]))
    requires bl.dl.Length >= BL_CODES && cl == bl.dl[..BL_CODES]
    modifies w, w.outbuf
    ensures w.Valid()
    ensures w.sent == old(w.sent) + CountBits(lcodes, dcodes, blcodes) + BlLensBits(cl, 0, blcodes)
      + ItemsBits(cl, AllRuns(l.dl[..lcodes])) + ItemsBits(cl, AllRuns(d.dl[..dcodes]))
  {
    hide BitsLE, BlLensBits, ItemsBits, AllRuns, ItemsCoded, CodesSet, BitWriter.Valid;
    SendCounts(w, lcodes, dcodes, blcodes);
    SendBlLens(w, bl.dl, blcodes, cl);
    SendTree(w, l.dl, lcodes - 1, bl.fc, bl.dl, cl);
    SendTree(w, d.dl, dcodes - 1, bl.fc, bl.dl, cl);
  }

  // send_all_trees
  method SendAllTrees(w: BitWriter, l: TreeDesc, d: TreeDesc, bl: TreeDesc, lcodes: nat, dcodes: nat, blcodes: nat,
      ghost h: Dynamic)
    requires w.Valid() && l.fc != l.dl && h.Valid() && CodesSet(bl.fc[..], h.cl)
    requires lcodes == |h.ll| && dcodes == |h.dl| && blcodes == h.n && lcodes < l.dl.Length && dcodes < d.dl.Length
    requires h.ll == l.dl[..lcodes] && h.dl == d.dl[..dcodes] && l.dl[lcodes] == GUARD && d.dl[dcodes] == GUARD
    requires bl.dl.Length >= BL_CODES && h.cl == bl.dl[..BL_CODES]
    modifies w, w.outbuf
    ensures w.Valid() && w.sent == old(w.sent) + h.Bits()
  {
    hide BlLensBits, ItemsBits, AllRuns, CodesSet, ItemsCoded, FirstCode, BitWriter.Valid;
    HeaderSent(h, w.sent);
    SendLengths(w, l, d, bl, lcodes, dcodes, blcodes, h.cl);
  }
}
