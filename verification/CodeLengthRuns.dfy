/** The run-length coding of code lengths (section 3.2.7 of RFC 1951): what scan_tree counts
    and send_tree sends, and the reference expansion. */
module CodeLengthRuns {
  import opened Bits

  const REP_3_6 := 16
  const REPZ_3_10 := 17
  const REPZ_11_138 := 18
  const BL_CODES := 19

  // Extra bits of the code length alphabet.
  function BlExtra(sym: nat): nat
  {
    if sym == REP_3_6 then 2 else if sym == REPZ_3_10 then 3 else if sym == REPZ_11_138 then 7 else 0
  }

  // A symbol of the code length alphabet with the value of its extra bits.
  datatype Item = Item(sym: nat, extra: nat)

  ghost predicate ItemOk(it: Item)
  {
    it.sym < BL_CODES && it.extra < Pow2(BlExtra(it.sym))
  }

  function Repeat(x: nat, n: nat): (s: seq<nat>)
    ensures |s| == n
  {
    seq(n, _ => x)
  }

  // Reference: what one item adds to the lengths so far.
  function ExpandItem(acc: seq<nat>, it: Item): Option<seq<nat>>
  {
    if it.sym < 16 then Some(acc + [it.sym])
    else if it.sym == REP_3_6 then
      if acc == [] then None else Some(acc + Repeat(acc[|acc| - 1], 3 + it.extra))
    else if it.sym == REPZ_3_10 then Some(acc + Repeat(0, 3 + it.extra))
    else if it.sym == REPZ_11_138 then Some(acc + Repeat(0, 11 + it.extra))
    else None
  }

  function Expand(acc: seq<nat>, items: seq<Item>): Option<seq<nat>>
    decreases |items|
  {
    if items == [] then Some(acc)
    else match ExpandItem(acc, items[0])
      case None => None
      case Some(acc') => Expand(acc', items[1..])
  }

  lemma {:induction false} ExpandConcat(acc: seq<nat>, a: seq<Item>, b: seq<Item>, mid: seq<nat>)
    requires Expand(acc, a) == Some(mid)
    ensures Expand(acc, a + b) == Expand(mid, b)
    decreases |a|
  {
    if a == [] {
      assert a + b == b;
    } else {
      assert (a + b)[1..] == a[1..] + b;
      ExpandConcat(ExpandItem(acc, a[0]).value, a[1..], b, mid);
    }
  }

  // The longest run that one group of items covers, and the shortest that is worth a repeat
  // code, after the length `prev` (-1 at the start of a tree).
  function MaxCount(prev: int, cur: nat): nat
  {
    if cur == 0 then 138 else if prev == cur then 6 else 7
  }

  function MinCount(prev: int, cur: nat): nat
  {
    if cur == 0 then 3 else if prev == cur then 3 else 4
  }

  // The items for a run of `count` lengths cur.
  function Emit(cur: nat, prev: int, count: nat): seq<Item>
    requires 1 <= count
  {
    if count < MinCount(prev, cur) then seq(count, _ => Item(cur, 0))
    else if cur != 0 then
      if cur != prev then [Item(cur, 0), Item(REP_3_6, count - 1 - 3)] else [Item(REP_3_6, count - 3)]
    else if count <= 10 then [Item(REPZ_3_10, count - 3)]
    else [Item(REPZ_11_138, count - 11)]
  }

  const GUARD := 0xffff

  function NextLen(lens: seq<nat>, n: nat): nat
  {
    if n + 1 < |lens| then lens[n + 1] else GUARD
  }

  // The items from index n on, when `count` lengths before it are still pending.
  function Runs(lens: seq<nat>, n: nat, prev: int, count: nat): seq<Item>
    decreases |lens| - n
  {
    if n >= |lens| then []
    else
      var cur := lens[n];
      if count + 1 < MaxCount(prev, cur) && cur == NextLen(lens, n) then Runs(lens, n + 1, prev, count + 1)
      else Emit(cur, prev, count + 1) + Runs(lens, n + 1, cur, 0)
  }

  function AllRuns(lens: seq<nat>): seq<Item> { Runs(lens, 0, -1, 0) }

  // `count` lengths equal to the one at n are pending, and prev is the last one expanded.
  ghost predicate Pending(lens: seq<nat>, n: nat, prev: int, count: nat, acc: seq<nat>)
  {
    && count <= n <= |lens| && -1 <= prev
    && (forall i :: 0 <= i < |lens| ==> lens[i] < 16)
    && (n < |lens| ==> count < MaxCount(prev, lens[n]) && forall i :: n - count <= i < n ==> lens[i] == lens[n])
    && (n == |lens| ==> count == 0)
    && (prev >= 0 ==> acc != [] && acc[|acc| - 1] == prev)
  }

  lemma {:induction false} ExpandSame(acc: seq<nat>, cur: nat, count: nat)
    requires cur < 16
    ensures Expand(acc, seq(count, _ => Item(cur, 0))) == Some(acc + Repeat(cur, count))
    decreases count
  {
    var items := seq(count, _ => Item(cur, 0));
    if count == 0 {
      assert acc + Repeat(cur, 0) == acc;
    } else {
      assert items[1..] == seq(count - 1, _ => Item(cur, 0));
      ExpandSame(acc + [cur], cur, count - 1);
      assert acc + [cur] + Repeat(cur, count - 1) == acc + Repeat(cur, count);
    }
  }

  lemma {:induction false} ExpandOne(acc: seq<nat>, it: Item)
    ensures Expand(acc, [it]) == ExpandItem(acc, it)
  {
    assert [it][1..] == [];
  }

  lemma {:induction false} ExpandTwo(acc: seq<nat>, cur: nat, extra: nat)
    requires cur < 16
    ensures Expand(acc, [Item(cur, 0), Item(REP_3_6, extra)]) == Some(acc + Repeat(cur, 4 + extra))
  {
    var items := [Item(cur, 0), Item(REP_3_6, extra)];
    assert items[1..] == [Item(REP_3_6, extra)];
    ExpandOne(acc + [cur], Item(REP_3_6, extra));
    assert acc + [cur] + Repeat(cur, 3 + extra) == acc + Repeat(cur, 4 + extra);
  }

  // The items for a run expand to the run.
  lemma {:induction false} EmitExpands(cur: nat, prev: int, count: nat, acc: seq<nat>)
    requires cur < 16 && 1 <= count <= MaxCount(prev, cur)
    requires prev >= 0 ==> acc != [] && acc[|acc| - 1] == prev
    ensures Expand(acc, Emit(cur, prev, count)) == Some(acc + Repeat(cur, count))
  {
    if count < MinCount(prev, cur) {
      ExpandSame(acc, cur, count);
    } else if cur != 0 && cur != prev {
      ExpandTwo(acc, cur, count - 1 - 3);
    } else {
      ExpandOne(acc, Emit(cur, prev, count)[0]);
    }
  }

  lemma {:induction false} EmitOk(cur: nat, prev: int, count: nat, i: nat)
    requires cur < 16 && 1 <= count <= MaxCount(prev, cur) && i < |Emit(cur, prev, count)|
    ensures ItemOk(Emit(cur, prev, count)[i])
  {
    Pow2Small();
  }

  // Every repeat count fits its field and the expansion restores the lengths.
  lemma {:induction false} RunsExpand(lens: seq<nat>, n: nat, prev: int, count: nat, acc: seq<nat>)
    requires Pending(lens, n, prev, count, acc)
    ensures Expand(acc, Runs(lens, n, prev, count)) == Some(acc + lens[n - count..])
    decreases |lens| - n
  {
    if n == |lens| {
      assert acc + lens[n..] == acc;
    } else {
      var cur := lens[n];
      if count + 1 < MaxCount(prev, cur) && cur == NextLen(lens, n) {
        RunsExpand(lens, n + 1, prev, count + 1, acc);
        assert n + 1 - (count + 1) == n - count;
      } else {
        EmitExpands(cur, prev, count + 1, acc);
        var mid := acc + Repeat(cur, count + 1);
        ExpandConcat(acc, Emit(cur, prev, count + 1), Runs(lens, n + 1, cur, 0), mid);
        RunsExpand(lens, n + 1, cur, 0, mid);
        assert Repeat(cur, count + 1) + lens[n + 1..] == lens[n - count..];
        Assoc(acc, Repeat(cur, count + 1), lens[n + 1..]);
      }
    }
  }

  lemma {:induction false} RunsOk(lens: seq<nat>, n: nat, prev: int, count: nat, acc: seq<nat>, i: nat)
    requires Pending(lens, n, prev, count, acc) && i < |Runs(lens, n, prev, count)|
    ensures ItemOk(Runs(lens, n, prev, count)[i])
    decreases |lens| - n
  {
    if n < |lens| {
      var cur := lens[n];
      if count + 1 < MaxCount(prev, cur) && cur == NextLen(lens, n) {
        RunsOk(lens, n + 1, prev, count + 1, acc, i);
      } else {
        var e := Emit(cur, prev, count + 1);
        if i < |e| {
          EmitOk(cur, prev, count + 1, i);
        } else {
          RunsOk(lens, n + 1, cur, 0, [cur], i - |e|);
        }
      }
    }
  }

  // Both trees one after the other, as the header sends them.
  lemma {:induction false} TwoTreesExpand(a: seq<nat>, b: seq<nat>)
    requires forall i :: 0 <= i < |a| ==> a[i] < 16
    requires forall i :: 0 <= i < |b| ==> b[i] < 16
    ensures Expand([], AllRuns(a) + AllRuns(b)) == Some(a + b)
    ensures forall it :: it in AllRuns(a) + AllRuns(b) ==> ItemOk(it)
  {
    RunsExpand(a, 0, -1, 0, []);
    assert [] + a[0..] == a;
    ExpandConcat([], AllRuns(a), AllRuns(b), a);
    RunsExpand(b, 0, -1, 0, a);
    assert a + b[0..] == a + b;
    forall it | it in AllRuns(a) + AllRuns(b) ensures ItemOk(it) {
      if it in AllRuns(a) {
        var i :| 0 <= i < |AllRuns(a)| && AllRuns(a)[i] == it;
        RunsOk(a, 0, -1, 0, [], i);
      } else {
        var i :| 0 <= i < |AllRuns(b)| && AllRuns(b)[i] == it;
        RunsOk(b, 0, -1, 0, [], i);
      }
    }
  }
}
