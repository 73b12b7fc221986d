/** bl_count, the number of leaves per code length, and the overflow repair of gen_bitlen. */
module LengthCounts {
  import opened Bits
  import opened CanonicalCode

  // The Kraft sum of the lengths 1..l, in units of 2^-max.
  function KraftSum(bl: seq<nat>, max: nat, l: nat): nat
    requires l <= max < |bl|
  {
    if l == 0 then 0 else KraftSum(bl, max, l - 1) + Shl(bl[l], max - l)
  }

  // The number of leaves of length 1..l.
  function Leaves(bl: seq<nat>, l: nat): nat
    requires l < |bl|
  {
    if l == 0 then 0 else Leaves(bl, l - 1) + bl[l]
  }

  lemma {:induction false} SameBelow(bl: seq<nat>, bl': seq<nat>, max: nat, l: nat)
    requires l <= max < |bl| == |bl'| && forall i :: 1 <= i <= l ==> bl[i] == bl'[i]
    ensures KraftSum(bl, max, l) == KraftSum(bl', max, l) && Leaves(bl, l) == Leaves(bl', l)
  {
    if l != 0 { SameBelow(bl, bl', max, l - 1); }
  }

  // Changing one count by d.
  lemma {:induction false} CountMore(bl: seq<nat>, max: nat, l: nat, b: nat, d: nat)
    requires 1 <= b <= l <= max < |bl|
    ensures KraftSum(bl[b := bl[b] + d], max, l) == KraftSum(bl, max, l) + Shl(d, max - b)
    ensures Leaves(bl[b := bl[b] + d], l) == Leaves(bl, l) + d
  {
    var bl' := bl[b := bl[b] + d];
    if b == l {
      SameBelow(bl, bl', max, l - 1);
      ShlAdd(bl[b], d, max - b);
    } else {
      CountMore(bl, max, l - 1, b, d);
    }
  }

  lemma {:induction false} CountLess(bl: seq<nat>, max: nat, l: nat, b: nat, d: nat)
    requires 1 <= b <= l <= max < |bl| && bl[b] >= d
    ensures KraftSum(bl, max, l) == KraftSum(bl[b := bl[b] - d], max, l) + Shl(d, max - b)
    ensures Leaves(bl, l) == Leaves(bl[b := bl[b] - d], l) + d
  {
    var bl': seq<nat> := bl[b := bl[b] - d];
    CountMore(bl', max, l, b, d);
    assert bl'[b := bl'[b] + d] == bl;
  }

  // With no leaf above the bottom there are at most as many leaves as the Kraft sum.
  lemma {:induction false} NoneBelow(bl: seq<nat>, max: nat, l: nat)
    requires l <= max < |bl| && forall i :: 1 <= i <= l ==> bl[i] == 0
    ensures KraftSum(bl, max, l) == 0 && Leaves(bl, l) == 0
  {
    if l != 0 {
      NoneBelow(bl, max, l - 1);
      ShlZero(max - l);
    }
  }

  // Where the repair stands: the Kraft sum exceeds one by half of `overflow`, and that many
  // leaves and one more have the longest length.
  ghost predicate Overfull(bl: seq<nat>, max: nat, overflow: nat, leaves: nat)
  {
    && 1 <= max <= MAX_BITS && |bl| == MAX_BITS + 1 && bl[0] == 0
    && overflow % 2 == 0
    && KraftSum(bl, max, max) == Pow2(max) + overflow / 2
    && Leaves(bl, max) == leaves
    && (overflow > 0 ==> bl[max] >= overflow / 2 + 1)
    && forall i :: max < i <= MAX_BITS ==> bl[i] == 0
  }

  // A shorter length with a leaf always exists.
  lemma {:induction false} ShorterLeaf(bl: seq<nat>, max: nat, overflow: nat, leaves: nat)
    requires Overfull(bl, max, overflow, leaves) && overflow > 0 && leaves <= Pow2(max)
    ensures exists i :: 1 <= i < max && bl[i] > 0
  {
    OnlyBottom(bl, max);
  }

  lemma {:induction false} OnlyBottom(bl: seq<nat>, max: nat)
    requires 1 <= max < |bl|
    ensures (forall i :: 1 <= i < max ==> bl[i] == 0) ==> KraftSum(bl, max, max) == Leaves(bl, max)
  {
    if forall i :: 1 <= i < max ==> bl[i] == 0 {
      NoneBelow(bl, max, max - 1);
      assert Shl(bl[max], 0) == bl[max];
    }
  }

  // One leaf moves down from length b and takes an overflow leaf as its brother.
  function Moved(bl: seq<nat>, max: nat, b: nat): (bl': seq<nat>)
    requires 1 <= b < max < |bl| && bl[b] > 0 && bl[max] > 0
  {
    var x: seq<nat> := bl[b := bl[b] - 1];
    var y: seq<nat> := x[b + 1 := x[b + 1] + 2];
    y[max := y[max] - 1]
  }

  lemma {:induction false} MovedIs(bl: seq<nat>, max: nat, b: nat)
    requires 1 <= b < max < |bl| && bl[b] > 0 && bl[max] > 0
    ensures |Moved(bl, max, b)| == |bl|
    ensures forall i :: 0 <= i < |bl| ==>
              Moved(bl, max, b)[i] == bl[i] - (if i == b then 1 else 0) + (if i == b + 1 then 2 else 0)
                                      - if i == max then 1 else 0
  {
  }

  lemma {:induction false} MoveSums(bl: seq<nat>, max: nat, b: nat)
    requires 1 <= b < max < |bl| && bl[b] > 0 && bl[max] > 0
    ensures KraftSum(bl, max, max) == KraftSum(Moved(bl, max, b), max, max) + 1
    ensures Leaves(bl, max) == Leaves(Moved(bl, max, b), max)
  {
    var x: seq<nat> := bl[b := bl[b] - 1];
    var y: seq<nat> := x[b + 1 := x[b + 1] + 2];
    CountLess(bl, max, max, b, 1);
    CountMore(x, max, max, b + 1, 2);
    CountLess(y, max, max, max, 1);
    ShlInner(1, max - (b + 1));
    assert max - (b + 1) + 1 == max - b;
    assert Shl(1, 0) == 1;
  }

  lemma {:induction false} MoveRepairs(bl: seq<nat>, max: nat, overflow: nat, leaves: nat, b: nat)
    requires Overfull(bl, max, overflow, leaves) && overflow > 0 && 1 <= b < max && bl[b] > 0
    ensures overflow >= 2 && Overfull(Moved(bl, max, b), max, overflow - 2, leaves)
  {
    MoveSums(bl, max, b);
  }

  // The longest length up to b that has a leaf, or 0.
  ghost function Deepest(bl: seq<nat>, b: nat): (d: nat)
    requires b < |bl|
    ensures d <= b && (d > 0 ==> bl[d] > 0) && forall i :: d < i <= b ==> bl[i] == 0
  {
    if b == 0 || bl[b] > 0 then b else Deepest(bl, b - 1)
  }

  // As long as there is overflow, a leaf of the longest length that could increase moves down.
  ghost function Repaired(bl: seq<nat>, max: nat, overflow: nat): (r: seq<nat>)
    requires 1 <= max < |bl|
    ensures |r| == |bl|
    decreases overflow
  {
    if overflow < 2 || Deepest(bl, max - 1) == 0 || bl[max] == 0 then bl
    else Repaired(Moved(bl, max, Deepest(bl, max - 1)), max, overflow - 2)
  }

  lemma {:induction false} RepairedStep(bl: seq<nat>, max: nat, overflow: nat, b: nat)
    requires 1 <= b < max < |bl| && overflow >= 2 && bl[b] > 0 && bl[max] > 0 && forall i :: b < i < max ==> bl[i] == 0
    ensures Repaired(bl, max, overflow) == Repaired(Moved(bl, max, b), max, overflow - 2)
  {
    assert Deepest(bl, max - 1) == b;
  }

  // The do loop of the repair.
  method Repair(bl: array<nat>, max: nat, overflow0: nat, ghost leaves: nat)
    requires Overfull(bl[..], max, overflow0, leaves) && overflow0 > 0 && leaves <= Pow2(max)
    modifies bl
    ensures Overfull(bl[..], max, 0, leaves) && bl[..] == Repaired(old(bl[..]), max, overflow0)
  {
    hide Moved, KraftSum, Leaves, Pow2, Deepest;
    var overflow := overflow0;
    while overflow > 0
      invariant Overfull(bl[..], max, overflow, leaves)
      invariant Repaired(bl[..], max, overflow) == Repaired(old(bl[..]), max, overflow0)
      decreases overflow
    {
      ShorterLeaf(bl[..], max, overflow, leaves);
      ghost var i :| 1 <= i < max && bl[i] > 0;
      var bits := max - 1;
      while bl[bits] == 0
        invariant i <= bits < max && forall k :: bits < k < max ==> bl[k] == 0
        decreases bits
      {
        bits := bits - 1;
      }
      MoveRepairs(bl[..], max, overflow, leaves, bits);
      RepairedStep(bl[..], max, overflow, bits);
      ghost var bl' := Moved(bl[..], max, bits);
      MovedIs(bl[..], max, bits);
      bl[bits] := bl[bits] - 1;
      bl[bits + 1] := bl[bits + 1] + 2;
      bl[max] := bl[max] - 1;
      assert bl[..] == bl';
      overflow := overflow - 2;
    }
  }

  // Counts with Kraft sum one are the statistics of a complete code.
  lemma {:induction false} FirstCodeIsKraft(bl: seq<nat>, lens: seq<nat>, max: nat, l: nat)
    requires CountsMatch(bl, lens) && l <= max <= MAX_BITS
    ensures Shl(FirstCode(lens, l + 1), max - l) == 2 * KraftSum(bl, max, l)
  {
    if l == 0 {
      ShlZero(max);
    } else {
      FirstCodeIsKraft(bl, lens, max, l - 1);
      var f, c := FirstCode(lens, l), Count(lens, l);
      ShlInner(f + c, max - l);
      ShlAdd(f, c, max - l + 1);
      assert Shl(c, max - l + 1) == 2 * Shl(c, max - l);
      assert max - (l - 1) == max - l + 1;
    }
  }

  lemma {:induction false} FirstCodeBeyond(lens: seq<nat>, max: nat, l: nat)
    requires max <= l <= MAX_BITS && FirstCode(lens, max + 1) == Pow2(max + 1)
    requires forall i :: max < i <= MAX_BITS ==> Count(lens, i) == 0
    ensures FirstCode(lens, l + 1) == Pow2(l + 1)
  {
    if l > max { FirstCodeBeyond(lens, max, l - 1); }
  }

  lemma {:induction false} KraftComplete(bl: seq<nat>, lens: seq<nat>, max: nat, leaves: nat)
    requires Overfull(bl, max, 0, leaves) && CountsMatch(bl, lens) && LengthsBounded(lens)
    ensures Complete(lens)
  {
    FirstCodeIsKraft(bl, lens, max, max);
    FirstCodeBeyond(lens, max, MAX_BITS);
    Pow2Small();
  }

  // Setting one length changes two counts.
  lemma {:induction false} CountUpdate(lens: seq<nat>, n: nat, v: nat, l: nat)
    requires n < |lens|
    ensures Count(lens[n := v], l) + (if lens[n] == l then 1 else 0) == Count(lens, l) + (if v == l then 1 else 0)
  {
    var k := |lens| - 1;
    if n < k {
      CountUpdate(lens[..k], n, v, l);
      assert lens[n := v][..k] == lens[..k][n := v];
    } else {
      assert lens[n := v][..k] == lens[..k];
    }
  }

  // At most half of the Kraft sum comes from a leaf of length one, a quarter from any other.
  lemma {:induction false} KraftBound(bl: seq<nat>, max: nat, l: nat)
    requires 1 <= l <= max < |bl| && 2 <= max
    ensures Leaves(bl, l) >= bl[1]
    ensures KraftSum(bl, max, l) <= Shl(bl[1], max - 1) + Shl(Leaves(bl, l) - bl[1], max - 2)
  {
    if l == 1 {
      ShlZero(max - 2);
    } else {
      KraftBound(bl, max, l - 1);
      ShlAdd(Leaves(bl, l - 1) - bl[1], bl[l], max - 2);
      ShlLess(bl[l], max - l, max - 2);
    }
  }

  lemma {:induction false} ShlLess(a: nat, m: nat, n: nat)
    requires m <= n
    ensures Shl(a, m) <= Shl(a, n)
  {
    if m < n { ShlLess(a, m, n - 1); }
  }

  // Two leaves with Kraft sum one both have length one.
  lemma {:induction false} TwoLeaves(bl: seq<nat>, max: nat, l: nat)
    requires Overfull(bl, max, 0, 2) && 2 <= l <= max
    ensures bl[l] == 0
  {
    KraftBound(bl, max, max);
    ShlZero(max - 1);
    ShlZero(max - 2);
    ShlOne(max - 1);
    ShlOne(max - 2);
    ShlInner(1, max - 2);
    assert Pow2(max) == 2 * Pow2(max - 1) && Pow2(max - 1) == 2 * Pow2(max - 2);
    assert bl[1] >= 2;
    LeavesAtLeast(bl, max, l);
  }

  lemma {:induction false} LeavesAtLeast(bl: seq<nat>, max: nat, l: nat)
    requires 2 <= l <= max < |bl|
    ensures Leaves(bl, max) >= bl[1] + bl[l]
    decreases max
  {
    if max > l { LeavesAtLeast(bl, max - 1, l); } else { LeavesHasOne(bl, max - 1); }
  }

  lemma {:induction false} LeavesHasOne(bl: seq<nat>, l: nat)
    requires 1 <= l < |bl|
    ensures Leaves(bl, l) >= bl[1]
  {
    if l > 1 { LeavesHasOne(bl, l - 1); }
  }

  lemma {:induction false} CountHas(lens: seq<nat>, n: nat)
    requires n < |lens|
    ensures Count(lens, lens[n]) >= 1
  {
    if n < |lens| - 1 { CountHas(lens[..|lens| - 1], n); }
  }
}
