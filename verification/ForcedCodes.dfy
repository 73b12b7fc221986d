/** The start of build_tree: the used symbols enter the heap, and codes are forced until
    there are two. The forced ones are never sent, and the bit totals are corrected for that
    in advance. */
module ForcedCodes {
  import opened Bits
  import opened CanonicalCode
  import opened HuffmanHeap
  import opened HuffmanTree
  import opened GenBitlen

  // u is the set of symbols below n of non-zero frequency.
  ghost predicate UsedBelow(u: set<nat>, fc: seq<nat>, n: nat)
    requires n <= |fc|
  {
    forall x :: x in u <==> 0 <= x < n && fc[x] != 0
  }

  // The heap array holds the symbols of `used`, in any order, and maxCode is the largest.
  ghost predicate Entered(heap: seq<nat>, len: nat, used: set<nat>, maxCode: int)
  {
    && |heap| == HEAP_SIZE && len < HEAP_SIZE
    && multiset(heap[1..len + 1]) == multiset(used) && |used| == len
    && (len == 0 ==> maxCode == -1)
    && (len > 0 ==> maxCode in used)
    && forall x :: x in used ==> x <= maxCode
  }

  // The first n symbols have been looked at: the used ones stand in the heap array in
  // increasing order.
  ghost predicate Scanned(fc: seq<nat>, heap: seq<nat>, len: nat, n: nat, maxCode: int)
  {
    && |heap| == HEAP_SIZE && n <= |fc| && len <= n <= L_CODES
    && (forall i :: 1 <= i <= len ==> heap[i] < n && fc[heap[i]] != 0)
    && (forall i, j :: 1 <= i < j <= len ==> heap[i] < heap[j])
    && (forall x :: 0 <= x < n && fc[x] != 0 ==> exists i :: 1 <= i <= len && heap[i] == x)
    && maxCode == if len == 0 then -1 else heap[len]
  }

  lemma {:induction false} ScanStart(fc: seq<nat>, heap: seq<nat>)
    requires |heap| == HEAP_SIZE
    ensures Scanned(fc, heap, 0, 0, -1)
  {
  }

  lemma {:induction false} ScanStep(fc: seq<nat>, heap: seq<nat>, len: nat, n: nat, maxCode: int)
    requires Scanned(fc, heap, len, n, maxCode) && n < |fc| && n < L_CODES
    ensures |heap| == HEAP_SIZE && len + 1 < HEAP_SIZE
    ensures fc[n] == 0 ==> Scanned(fc, heap, len, n + 1, maxCode)
    ensures fc[n] != 0 ==> Scanned(fc, heap[len + 1 := n], len + 1, n + 1, n)
  {
    if fc[n] != 0 {
      var h := heap[len + 1 := n];
      forall x | 0 <= x < n + 1 && fc[x] != 0 ensures exists i :: 1 <= i <= len + 1 && h[i] == x {
        if x < n {
          var i :| 1 <= i <= len && heap[i] == x;
          assert h[i] == x;
        } else {
          assert h[len + 1] == x;
        }
      }
    }
  }

  ghost function Elements(s: seq<nat>): (u: set<nat>)
    ensures forall x :: x in u <==> x in s
  {
    set x | x in s
  }

  lemma {:induction false} DistinctElements(s: seq<nat>)
    requires forall i, j :: 0 <= i < j < |s| ==> s[i] < s[j]
    ensures multiset(s) == multiset(Elements(s)) && |Elements(s)| == |s|
  {
    if s != [] {
      var k := |s| - 1;
      DistinctElements(s[..k]);
      assert s == s[..k] + [s[k]];
      assert Elements(s) == Elements(s[..k]) + {s[k]};
    } else {
      assert Elements(s) == {};
    }
  }

  lemma {:induction false} ScanEnd(fc: seq<nat>, heap: seq<nat>, len: nat, n: nat, maxCode: int)
    requires Scanned(fc, heap, len, n, maxCode)
    ensures var u := Elements(heap[1..len + 1]); UsedBelow(u, fc, n) && Entered(heap, len, u, maxCode)
  {
    var s := heap[1..len + 1];
    SliceOf(heap, len);
    DistinctElements(s);
    ScanUsed(fc, heap, len, n, maxCode, s);
    ScanMax(fc, heap, len, n, maxCode, s);
  }

  lemma {:induction false} SliceOf(heap: seq<nat>, len: nat)
    requires len < |heap|
    ensures var s := heap[1..len + 1]; |s| == len && forall i :: 0 <= i < len ==> s[i] == heap[i + 1]
  {
  }

  lemma {:induction false} ScanUsed(fc: seq<nat>, heap: seq<nat>, len: nat, n: nat, maxCode: int, s: seq<nat>)
    requires Scanned(fc, heap, len, n, maxCode) && s == heap[1..len + 1]
    ensures forall x :: x in s <==> 0 <= x < n && fc[x] != 0
  {
    forall x | x in s ensures 0 <= x < n && fc[x] != 0 {
      var i :| 0 <= i < |s| && s[i] == x;
      assert heap[i + 1] == x;
    }
    forall x | 0 <= x < n && fc[x] != 0 ensures x in s {
      var i :| 1 <= i <= len && heap[i] == x;
      assert s[i - 1] == x;
    }
  }

  lemma {:induction false} ScanMax(fc: seq<nat>, heap: seq<nat>, len: nat, n: nat, maxCode: int, s: seq<nat>)
    requires Scanned(fc, heap, len, n, maxCode) && s == heap[1..len + 1]
    ensures (len > 0 ==> maxCode in s) && forall x :: x in s ==> x <= maxCode
  {
    if len > 0 { assert s[len - 1] == maxCode; }
    forall x | x in s ensures x <= maxCode {
      var i :| 0 <= i < |s| && s[i] == x;
      assert heap[i + 1] == x;
    }
  }

  // The nodes of `used` have nothing below them.
  ghost predicate NoSons(depth: seq<nat>, used: set<nat>)
  {
    forall x :: x in used ==> x < |depth| && depth[x] == 0
  }

  lemma {:induction false} NoSonsMore(depth: seq<nat>, used: set<nat>, x: nat)
    requires NoSons(depth, used) && x < |depth|
    ensures NoSons(depth[x := 0], used + {x})
  {
  }

  lemma {:induction false} EnterSymbol(heap: seq<nat>, len: nat, used: set<nat>, maxCode: int, n: nat,
      heap': seq<nat>, len': nat, used': set<nat>, maxCode': int)
    requires Entered(heap, len, used, maxCode) && len + 1 < HEAP_SIZE
    requires n !in used && maxCode' == (if n > maxCode then n else maxCode)
    requires len' == len + 1 && heap' == heap[len' := n] && used' == used + {n}
    ensures Entered(heap', len', used', maxCode')
  {
    assert heap'[1..len + 2] == heap[1..len + 1] + [n];
  }

  // Which code is forced next: a fresh one, and one of the first three.
  lemma {:induction false} ForcedIsFresh(heap: seq<nat>, len: nat, used: set<nat>, maxCode: int)
    requires Entered(heap, len, used, maxCode) && len < 2
    ensures var x := if maxCode < 2 then maxCode + 1 else 0;
            0 <= x <= 2 && x !in used
              && (if maxCode < 2 then maxCode + 1 else maxCode) == (if x > maxCode then x else maxCode)
  {
    if maxCode >= 2 && 0 in used {
      TwoElements(used, 0, maxCode);
    }
  }

  lemma {:induction false} TwoElements(s: set<nat>, a: nat, b: nat)
    requires a in s && b in s && a != b
    ensures |s| >= 2
  {
    assert b in s - {a};
    assert |s - {a}| >= 1;
  }

  lemma {:induction false} EnteredLow(fc: seq<nat>, depth: seq<nat>, n: nat, u: set<nat>)
    requires n <= |fc| && n <= |depth| && UsedBelow(u, fc, n)
    requires forall x :: 0 <= x < n && fc[x] != 0 ==> depth[x] == 0
    ensures NoSons(depth, u)
  {
  }

  // Setting the frequencies of the forced codes to one.
  ghost function Force(fc: seq<nat>, forced: seq<nat>): (r: seq<nat>)
    requires forall i :: 0 <= i < |forced| ==> forced[i] < |fc|
    ensures |r| == |fc|
  {
    if forced == [] then fc
    else var k := |forced| - 1; Force(fc, forced[..k])[forced[k] := 1]
  }

  // What the forced codes weigh under the static tree, if there is one.
  ghost function StaticOf(st: seq<nat>, forced: seq<nat>): nat
  {
    if forced == [] then 0
    else var k := |forced| - 1; StaticOf(st, forced[..k]) + if forced[k] < |st| then st[forced[k]] else 0
  }

  lemma {:induction false} StaticOfNone(forced: seq<nat>)
    ensures StaticOf([], forced) == 0
  {
    if forced != [] { StaticOfNone(forced[..|forced| - 1]); }
  }

  // The forced codes are distinct free codes among the first three, added to the used ones.
  ghost predicate ForcedSet(fc: seq<nat>, elems: nat, used: set<nat>, forced: seq<nat>)
    requires 2 < elems <= |fc|
  {
    && (forall i :: 0 <= i < |forced| ==> forced[i] <= 2 && fc[forced[i]] == 0 && forced[i] !in forced[..i])
    && forall x :: x in used <==> (0 <= x < elems && fc[x] != 0) || x in forced
  }

  // The job's frequencies are those given, with the forced codes set to one.
  ghost predicate Forced(freq: seq<nat>, j: Job, forced: seq<nat>)
  {
    && j.k >= 1 && j.k + 1 == |j.used|
    && 2 < j.elems <= |freq| <= |j.prices.fc|
    && ForcedSet(freq, j.elems, j.used, forced) && (forced != [] ==> |j.used| == 2)
    && forall x :: 0 <= x < j.elems ==> j.prices.fc[x] == Force(freq, forced)[x]
  }

  lemma {:induction false} NotUsed(fc: seq<nat>, elems: nat, used: set<nat>, forced: seq<nat>)
    requires 2 < elems <= |fc| && ForcedSet(fc, elems, used, forced)
    ensures forall x :: 0 <= x < elems && x !in used ==> fc[x] == 0
  {
  }

  lemma {:induction false} ForceOneMore(fc: seq<nat>, elems: nat, st: seq<nat>, used: set<nat>, forced: seq<nat>,
      x: nat)
    requires 2 < elems <= |fc| && ForcedSet(fc, elems, used, forced) && x <= 2 && x !in used
    ensures ForcedSet(fc, elems, used + {x}, forced + [x])
    ensures Force(fc, forced + [x]) == Force(fc, forced)[x := 1]
    ensures StaticOf(st, forced + [x]) == StaticOf(st, forced) + if x < |st| then st[x] else 0
  {
    hide ForcedSet;
    ForcedMore(fc, elems, used, forced, x);
    assert (forced + [x])[..|forced|] == forced;
  }

  lemma {:induction false} ForcedMore(fc: seq<nat>, elems: nat, used: set<nat>, forced: seq<nat>, x: nat)
    requires 2 < elems <= |fc| && ForcedSet(fc, elems, used, forced) && x <= 2 && x !in used
    ensures ForcedSet(fc, elems, used + {x}, forced + [x])
  {
    var f := forced + [x];
    assert f[..|forced|] == forced;
    forall i | 0 <= i < |f| ensures f[i] <= 2 && fc[f[i]] == 0 && f[i] !in f[..i] {
      if i < |forced| { assert f[..i] == forced[..i] && f[i] == forced[i]; }
    }
  }

  // A lone symbol has one code forced beside it, so that opt_len, then 0, is -1 for a while.
  lemma {:induction false} OneForced(fc: seq<nat>, elems: nat, used: set<nat>, forced: seq<nat>, s: nat)
    requires 2 < elems <= |fc| && ForcedSet(fc, elems, used, forced) && |used| == 2
    requires s < elems && fc[s] != 0 && forall x :: 0 <= x < elems && x != s ==> fc[x] == 0
    ensures |forced| == 1
  {
    assert |used - {s}| == 1;
    assert forced == [] ==> used - {s} == {};
    if |forced| > 1 {
      assert forced[0] in forced[..1] && forced[1] !in forced[..1];
      TwoElements(used - {s}, forced[0], forced[1]);
    }
  }

  // Each forced code was free when it was forced, ends up with a one-bit code and has no
  // extra bits.
  ghost predicate ForcedOk(fc: seq<nat>, forced: seq<nat>, lens: seq<nat>, xb: seq<nat>)
  {
    && |lens| <= |fc| && |lens| <= |xb|
    && (forall i :: 0 <= i < |forced| ==> forced[i] < |lens| && lens[forced[i]] == 1 && xb[forced[i]] == 0)
    && forall i :: 0 <= i < |forced| ==> forced[i] < |fc| && fc[forced[i]] == 0 && forced[i] !in forced[..i]
  }

  lemma {:induction false} ForceOthers(fc: seq<nat>, forced: seq<nat>, x: nat)
    requires forall i :: 0 <= i < |forced| ==> forced[i] < |fc|
    requires x < |fc| && x !in forced
    ensures Force(fc, forced)[x] == fc[x]
  {
    if forced != [] { ForceOthers(fc, forced[..|forced| - 1], x); }
  }

  lemma {:induction false} CostOneMore(fc: seq<nat>, lens: seq<nat>, xb: seq<nat>, n: nat, fc': seq<nat>)
    requires |lens| <= |fc| && |lens| <= |xb| && n < |lens| && fc[n] == 0 && lens[n] == 1 && xb[n] == 0
    requires fc' == fc[n := 1]
    ensures Cost(fc', lens, xb) == Cost(fc, lens, xb) + 1
  {
    var k := |lens| - 1;
    if n < k { CostOneMore(fc, lens[..k], xb, n, fc'); } else { CostSame(fc, fc', lens[..k], xb); }
  }

  lemma {:induction false} StaticOneMore(fc: seq<nat>, lens: seq<nat>, st: seq<nat>, xb: seq<nat>, n: nat,
      fc': seq<nat>)
    requires |lens| <= |fc| && |lens| <= |xb| && |lens| <= |st| && n < |lens| && fc[n] == 0 && lens[n] == 1
             && xb[n] == 0
    requires fc' == fc[n := 1]
    ensures StaticCost(fc', lens, st, xb) == StaticCost(fc, lens, st, xb) + st[n]
  {
    var k := |lens| - 1;
    if n < k { StaticOneMore(fc, lens[..k], st, xb, n, fc'); } else { StaticSame(fc, fc', lens[..k], st, xb); }
  }

  // The totals with the forced codes exceed the true ones by what was taken off in advance.
  lemma {:induction false} ForcedCost(fc: seq<nat>, forced: seq<nat>, lens: seq<nat>, xb: seq<nat>)
    requires ForcedOk(fc, forced, lens, xb)
    ensures Cost(Force(fc, forced), lens, xb) == Cost(fc, lens, xb) + |forced|
  {
    if forced != [] {
      var k := |forced| - 1;
      var f := forced[..k];
      assert forall i :: 0 <= i < k ==> f[..i] == forced[..i];
      ForcedCost(fc, f, lens, xb);
      ForceOthers(fc, f, forced[k]);
      CostOneMore(Force(fc, f), lens, xb, forced[k], Force(fc, forced));
    }
  }

  lemma {:induction false} ForcedStatic(fc: seq<nat>, forced: seq<nat>, lens: seq<nat>, st: seq<nat>, xb: seq<nat>)
    requires ForcedOk(fc, forced, lens, xb) && |lens| <= |st|
    ensures StaticCost(Force(fc, forced), lens, st, xb) == StaticCost(fc, lens, st, xb) + StaticOf(st, forced)
  {
    if forced != [] {
      var k := |forced| - 1;
      var f := forced[..k];
      assert forall i :: 0 <= i < k ==> f[..i] == forced[..i];
      ForcedStatic(fc, f, lens, st, xb);
      ForceOthers(fc, f, forced[k]);
      StaticOneMore(Force(fc, f), lens, st, xb, forced[k], Force(fc, forced));
    }
  }
}
