/** scan_tree and send_tree: the same walk over the code lengths of a tree, once to count the
    symbols of the code length alphabet and once to send them. */
module TreeHeader {
  import opened Bits
  import opened BitOutput
  import opened CanonicalCode
  import opened CodeLengthRuns
  import opened SymbolTally
  import opened BlockEncoding

  // The symbols of items.
  function ItemSyms(items: seq<Item>): (s: seq<nat>)
    ensures |s| == |items| && forall i :: 0 <= i < |s| ==> s[i] == items[i].sym
  {
    seq(|items|, i requires 0 <= i < |items| => items[i].sym)
  }

  ghost predicate SymsBelow(items: seq<Item>, n: nat)
  {
    forall i :: 0 <= i < |items| ==> items[i].sym < n
  }

  // Frequencies after counting the items.
  ghost function CountItems(fc: seq<nat>, items: seq<Item>): (r: seq<nat>)
    requires SymsBelow(items, |fc|)
    ensures |r| == |fc|
  {
    AddFreqs(fc, ItemSyms(items))
  }

  lemma {:induction false} CountItemsConcat(fc: seq<nat>, a: seq<Item>, b: seq<Item>)
    requires SymsBelow(a, |fc|) && SymsBelow(b, |fc|)
    ensures SymsBelow(a + b, |fc|) && CountItems(fc, a + b) == CountItems(CountItems(fc, a), b)
  {
    assert ItemSyms(a + b) == ItemSyms(a) + ItemSyms(b);
    AddFreqsConcat(fc, ItemSyms(a), ItemSyms(b));
  }

  lemma {:induction false} CountOne(fc: seq<nat>, it: Item)
    requires it.sym < |fc|
    ensures CountItems(fc, [it]) == fc[it.sym := fc[it.sym] + 1]
  {
    assert ItemSyms([it]) == [] + [it.sym];
    AddFreqsSnoc(fc, [], it.sym);
  }

  lemma {:induction false} CountTwo(fc: seq<nat>, a: Item, b: Item)
    requires a.sym < |fc| && b.sym < |fc| && a.sym != b.sym
    ensures CountItems(fc, [a, b]) == fc[a.sym := fc[a.sym] + 1][b.sym := fc[b.sym] + 1]
  {
    assert [a, b] == [a] + [b];
    CountItemsConcat(fc, [a], [b]);
    CountOne(fc, a);
    CountOne(fc[a.sym := fc[a.sym] + 1], b);
  }

  lemma {:induction false} CountSame(fc: seq<nat>, cur: nat, count: nat)
    requires cur < |fc|
    ensures CountItems(fc, seq(count, _ => Item(cur, 0))) == fc[cur := fc[cur] + count]
    decreases count
  {
    var items := seq(count, _ => Item(cur, 0));
    if count == 0 {
      assert ItemSyms(items) == [];
    } else {
      var front := seq(count - 1, _ => Item(cur, 0));
      CountSame(fc, cur, count - 1);
      assert items == front + [Item(cur, 0)];
      CountItemsConcat(fc, front, [Item(cur, 0)]);
      CountOne(fc[cur := fc[cur] + count - 1], Item(cur, 0));
    }
  }

  // The walk stands at n: `done` is settled, the rest is the runs from here.
  ghost predicate Walking(lens: seq<nat>, n: nat, prev: int, count: nat, done: seq<Item>)
  {
    && Pending(lens, n, prev, count, [if prev >= 0 then prev else 0])
    && SymsBelow(done, BL_CODES)
    && AllRuns(lens) == done + Runs(lens, n, prev, count)
  }

  lemma {:induction false} WalkStart(lens: seq<nat>)
    requires forall i :: 0 <= i < |lens| ==> lens[i] < 16
    ensures Walking(lens, 0, -1, 0, [])
  {
    assert [] + AllRuns(lens) == AllRuns(lens);
  }

  lemma {:induction false} WalkEnd(lens: seq<nat>, prev: int, count: nat, done: seq<Item>)
    requires Walking(lens, |lens|, prev, count, done)
    ensures done == AllRuns(lens)
  {
    assert done + [] == done;
  }

  lemma {:induction false} WalkOn(lens: seq<nat>, n: nat, prev: int, count: nat, done: seq<Item>)
    requires Walking(lens, n, prev, count, done) && n < |lens|
    requires count + 1 < MaxCount(prev, lens[n]) && lens[n] == NextLen(lens, n)
    ensures Walking(lens, n + 1, prev, count + 1, done)
  {
  }

  lemma {:induction false} WalkEmit(lens: seq<nat>, n: nat, prev: int, count: nat, done: seq<Item>, e: seq<Item>)
    requires Walking(lens, n, prev, count, done) && n < |lens|
    requires !(count + 1 < MaxCount(prev, lens[n]) && lens[n] == NextLen(lens, n))
    requires e == Emit(lens[n], prev, count + 1)
    ensures SymsBelow(e, BL_CODES) && Walking(lens, n + 1, lens[n], 0, done + e)
  {
    Assoc(done, e, Runs(lens, n + 1, lens[n], 0));
    forall i | 0 <= i < |e| ensures e[i].sym < BL_CODES {
      EmitOk(lens[n], prev, count + 1, i);
    }
  }

  // One run is counted.
  method CountRun(bl: array<nat>, cur: nat, prev: int, count: nat, minCount: nat)
    requires minCount == MinCount(prev, cur) && bl.Length >= BL_CODES && cur < 16 && 1 <= count
    requires SymsBelow(Emit(cur, prev, count), BL_CODES)
    modifies bl
    ensures bl[..] == CountItems(old(bl[..]), Emit(cur, prev, count))
  {
    ghost var fc: seq<nat> := bl[..];
    ghost var e := Emit(cur, prev, count);
    if count < minCount {
      CountSame(fc, cur, count);
      bl[cur] := bl[cur] + count;
    } else if cur != 0 {
      if cur != prev {
        CountTwo(fc, e[0], e[1]);
        bl[cur] := bl[cur] + 1;
      } else {
        CountOne(fc, e[0]);
      }
      bl[REP_3_6] := bl[REP_3_6] + 1;
    } else if count <= 10 {
      CountOne(fc, e[0]);
      bl[REPZ_3_10] := bl[REPZ_3_10] + 1;
    } else {
      CountOne(fc, e[0]);
      bl[REPZ_11_138] := bl[REPZ_11_138] + 1;
    }
  }

  // scan_tree
  method ScanTree(dl: array<nat>, maxCode: nat, bl: array<nat>)
    requires maxCode + 1 < dl.Length && bl.Length >= BL_CODES && dl != bl
    requires forall i :: 0 <= i <= maxCode ==> dl[i] < 16
    modifies dl, bl
    ensures dl[..] == old(dl[..])[maxCode + 1 := GUARD]
    ensures SymsBelow(AllRuns(dl[..maxCode + 1]), bl.Length)
    ensures bl[..] == CountItems(old(bl[..]), AllRuns(dl[..maxCode + 1]))
  {
    ghost var bl0: seq<nat>, lens: seq<nat>, done: seq<Item> := bl[..], dl[..maxCode + 1], [];
    var prevlen: int, nextlen: nat, count: nat, maxCount: nat, minCount: nat := -1, dl[0], 0, 7, 4;
    if nextlen == 0 {
      maxCount, minCount := 138, 3;
    }
    dl[maxCode + 1] := GUARD;
    WalkStart(lens);
    assert CountItems(bl0, done) == bl0;
    for n := 0 to maxCode + 1
      invariant lens == dl[..maxCode + 1] && dl[..] == old(dl[..])[maxCode + 1 := GUARD]
      invariant nextlen == dl[n] && maxCount == MaxCount(prevlen, nextlen) && minCount == MinCount(prevlen, nextlen)
      invariant Walking(lens, n, prevlen, count, done)
      invariant bl[..] == CountItems(bl0, done)
    {
      var curlen := nextlen;
      nextlen := dl[n + 1];
      assert lens[n] == curlen && nextlen == NextLen(lens, n);
      count := count + 1;
      if count < maxCount && curlen == nextlen {
        WalkOn(lens, n, prevlen, count - 1, done);
        continue;
      }
      ghost var e := Emit(curlen, prevlen, count);
      WalkEmit(lens, n, prevlen, count - 1, done, e);
      CountItemsConcat(bl0, done, e);
      CountRun(bl, curlen, prevlen, count, minCount);
      done := done + e;
      count := 0;
      prevlen := curlen;
      maxCount, minCount := 7, 4;
      if nextlen == 0 {
        maxCount, minCount := 138, 3;
      } else if curlen == nextlen {
        maxCount, minCount := 6, 3;
      }
    }
    WalkEnd(lens, prevlen, count, done);
  }

  lemma {:induction false} ItemsCodedParts(cl: seq<nat>, a: seq<Item>, b: seq<Item>)
    ensures ItemsCoded(cl, a + b) <==> ItemsCoded(cl, a) && ItemsCoded(cl, b)
  {
    forall i | 0 <= i < |a| + |b| ensures (a + b)[i] == if i < |a| then a[i] else b[i - |a|] {
    }
    if ItemsCoded(cl, a + b) {
      forall i | 0 <= i < |b| ensures b[i] == (a + b)[i + |a|] {
      }
    }
  }

  lemma {:induction false} ItemsBitsConcat(cl: seq<nat>, a: seq<Item>, b: seq<Item>)
    requires ItemsCoded(cl, a) && ItemsCoded(cl, b)
    ensures ItemsCoded(cl, a + b) && ItemsBits(cl, a + b) == ItemsBits(cl, a) + ItemsBits(cl, b)
    decreases |a|
  {
    hide ItemBits;
    ItemsCodedParts(cl, a, b);
    if a == [] {
      assert a + b == b;
    } else {
      ItemsCodedParts(cl, [a[0]], a[1..]);
      assert a == [a[0]] + a[1..];
      ItemsBitsConcat(cl, a[1..], b);
      assert (a + b)[1..] == a[1..] + b && (a + b)[0] == a[0];
      Assoc(ItemBits(cl, a[0]), ItemsBits(cl, a[1..]), ItemsBits(cl, b));
    }
  }

  lemma {:induction false} ItemsBitsOne(cl: seq<nat>, it: Item)
    requires ItemOk(it) && it.sym < |cl| && cl[it.sym] > 0
    ensures ItemsCoded(cl, [it]) && ItemsBits(cl, [it]) == ItemBits(cl, it)
  {
    assert [it][1..] == [];
  }

  // SEND_CODE: the code of symbol c, whose tree has the lengths lens.
  method SendCode(w: BitWriter, code: nat, len: nat, ghost c: nat, ghost lens: seq<nat>)
    requires w.Valid() && c < |lens| && len == lens[c] && CodeSet(code, lens, c) && 1 <= len <= MAX_BITS
    modifies w, w.outbuf
    ensures w.Valid() && w.sent == old(w.sent) + CodeBits(lens, c)
  {
    w.SendBits(code, len);
  }

  // A symbol of the code length alphabet and its extra bits.
  method SendItem(w: BitWriter, fc: array<nat>, dl: array<nat>, it: Item, ghost cl: seq<nat>)
    requires w.Valid() && |cl| <= dl.Length && cl == dl[..|cl|] && CodesSet(fc[..], cl)
    requires ItemOk(it) && it.sym < |cl| && 1 <= cl[it.sym] <= MAX_BITS
    modifies w, w.outbuf
    ensures w.Valid() && w.sent == old(w.sent) + ItemBits(cl, it)
  {
    assert CodeSet(fc[it.sym], cl, it.sym);
    SendCode(w, fc[it.sym], dl[it.sym], it.sym, cl);
    Assoc(old(w.sent), CodeBits(cl, it.sym), BitsLE(it.extra, BlExtra(it.sym)));
    if BlExtra(it.sym) > 0 {
      w.SendBits(it.extra, BlExtra(it.sym));
    } else {
      assert w.sent + [] == w.sent;
    }
  }

  // The same symbol several times.
  method SendSame(w: BitWriter, fc: array<nat>, dl: array<nat>, cur: nat, count: nat, ghost cl: seq<nat>)
    requires w.Valid() && |cl| <= dl.Length && cl == dl[..|cl|] && CodesSet(fc[..], cl)
    requires LengthsBounded(cl) && 1 <= count && ItemsCoded(cl, seq(count, _ => Item(cur, 0))) && cur < 16
    modifies w, w.outbuf
    ensures w.Valid() && w.sent == old(w.sent) + ItemsBits(cl, seq(count, _ => Item(cur, 0)))
  {
    ghost var start := w.sent;
    ghost var it := Item(cur, 0);
    assert seq(count, _ => Item(cur, 0))[0] == it;
    ItemsBitsOne(cl, it);
    var left: nat := count;
    assert start + ItemsBits(cl, []) == start;
    while left != 0
      invariant left <= count && w.Valid() && ItemsCoded(cl, seq(count - left, _ => Item(cur, 0)))
      invariant w.sent == start + ItemsBits(cl, seq(count - left, _ => Item(cur, 0)))
    {
      ghost var front := seq(count - left, _ => Item(cur, 0));
      ItemsBitsConcat(cl, front, [it]);
      Assoc(start, ItemsBits(cl, front), ItemBits(cl, it));
      assert front + [it] == seq(count - left + 1, _ => Item(cur, 0));
      SendItem(w, fc, dl, Item(cur, 0), cl);
      left := left - 1;
    }
  }

  // One run is sent.
  method SendRun(w: BitWriter, fc: array<nat>, dl: array<nat>, cur: nat, prev: int, count: nat, minCount: nat,
      ghost cl: seq<nat>)
    requires w.Valid() && |cl| <= dl.Length && cl == dl[..|cl|] && CodesSet(fc[..], cl) && LengthsBounded(cl)
    requires minCount == MinCount(prev, cur) && 1 <= count && cur < 16 && ItemsCoded(cl, Emit(cur, prev, count))
    modifies w, w.outbuf
    ensures w.Valid() && w.sent == old(w.sent) + ItemsBits(cl, Emit(cur, prev, count))
  {
    ghost var e := Emit(cur, prev, count);
    if count < minCount {
      SendSame(w, fc, dl, cur, count, cl);
    } else if cur != 0 {
      if cur != prev {
        assert e == [e[0]] + [e[1]];
        ItemsBitsOne(cl, e[0]);
        ItemsBitsOne(cl, e[1]);
        ItemsBitsConcat(cl, [e[0]], [e[1]]);
        Assoc(w.sent, ItemBits(cl, e[0]), ItemBits(cl, e[1]));
        SendItem(w, fc, dl, Item(cur, 0), cl);
        SendItem(w, fc, dl, Item(REP_3_6, count - 1 - 3), cl);
      } else {
        ItemsBitsOne(cl, e[0]);
        SendItem(w, fc, dl, Item(REP_3_6, count - 3), cl);
      }
    } else if count <= 10 {
      ItemsBitsOne(cl, e[0]);
      SendItem(w, fc, dl, Item(REPZ_3_10, count - 3), cl);
    } else {
      ItemsBitsOne(cl, e[0]);
      SendItem(w, fc, dl, Item(REPZ_11_138, count - 11), cl);
    }
  }

  // send_tree: what is sent is what scan_tree counted.
  method SendTree(w: BitWriter, tree: array<nat>, maxCode: nat, fc: array<nat>, dl: array<nat>, ghost cl: seq<nat>)
    requires w.Valid() && |cl| <= dl.Length && cl == dl[..|cl|] && CodesSet(fc[..], cl) && LengthsBounded(cl)
    requires maxCode + 1 < tree.Length && tree[maxCode + 1] == GUARD
    requires (forall i :: 0 <= i <= maxCode ==> tree[i] < 16) && ItemsCoded(cl, AllRuns(tree[..maxCode + 1]))
    modifies w, w.outbuf
    ensures w.Valid() && w.sent == old(w.sent) + ItemsBits(cl, AllRuns(tree[..maxCode + 1]))
  {
    hide ItemBits, AllRuns, Emit, Runs, CodesSet, Walking, BitWriter.Valid;
    ghost var lens: seq<nat>, done: seq<Item>, start := tree[..maxCode + 1], [], w.sent;
    var prevlen: int, nextlen: nat, count: nat, maxCount: nat, minCount: nat := -1, tree[0], 0, 7, 4;
    if nextlen == 0 {
      maxCount, minCount := 138, 3;
    }
    WalkStart(lens);
    assert start + ItemsBits(cl, done) == start;
    for n := 0 to maxCode + 1
      invariant nextlen == tree[n] && maxCount == MaxCount(prevlen, nextlen) && minCount == MinCount(prevlen, nextlen)
      invariant Walking(lens, n, prevlen, count, done)
      invariant w.Valid() && ItemsCoded(cl, done) && w.sent == start + ItemsBits(cl, done)
    {
      var curlen := nextlen;
      nextlen := tree[n + 1];
      assert lens[n] == curlen && nextlen == NextLen(lens, n);
      count := count + 1;
      if count < maxCount && curlen == nextlen {
        WalkOn(lens, n, prevlen, count - 1, done);
        continue;
      }
      ghost var e := Emit(curlen, prevlen, count);
      WalkEmit(lens, n, prevlen, count - 1, done, e);
      SendsNext(cl, done, e, Runs(lens, n + 1, curlen, 0), AllRuns(lens), start);
      SendRun(w, fc, dl, curlen, prevlen, count, minCount, cl);
      done := done + e;
      count := 0;
      prevlen := curlen;
      if nextlen == 0 {
        maxCount, minCount := 138, 3;
      } else if curlen == nextlen {
        maxCount, minCount := 6, 3;
      } else {
        maxCount, minCount := 7, 4;
      }
    }
    WalkEnd(lens, prevlen, count, done);
  }

  lemma {:induction false} SendsNext(cl: seq<nat>, done: seq<Item>, e: seq<Item>, rest: seq<Item>, all: seq<Item>,
      start: seq<bool>)
    requires ItemsCoded(cl, all) && all == (done + e) + rest
    ensures ItemsCoded(cl, done) && ItemsCoded(cl, e) && ItemsCoded(cl, done + e)
    ensures start + ItemsBits(cl, done + e) == start + ItemsBits(cl, done) + ItemsBits(cl, e)
  {
    ItemsCodedParts(cl, done + e, rest);
    ItemsCodedParts(cl, done, e);
    ItemsBitsConcat(cl, done, e);
    Assoc(start, ItemsBits(cl, done), ItemsBits(cl, e));
  }
}
