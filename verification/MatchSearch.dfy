/** What longest_match is to find: the longest run among the latest strings with the same hash. */
module MatchSearch {
  import opened Bits
  import opened MatchHash
  import opened HashChains

  // The strings at r and s have the same hash.
  ghost predicate Alike(w: seq<byte>, r: nat, s: nat)
  {
    s + 2 < |w| && HashIs(w, r, HashAt(w, s))
  }

  // How many strings strictly between c and s have the hash of the one at s.
  ghost function Rank(w: seq<byte>, c: nat, s: nat): nat
    decreases s - c
  {
    if c + 1 >= s then 0 else Rank(w, c + 1, s) + if Alike(w, c + 1, s) then 1 else 0
  }

  // The string at c is one of the n latest before s with the same hash, and within reach. The very
  // latest may be at the largest distance, older ones may not.
  ghost predicate Tried(w: seq<byte>, s: nat, c: nat, n: nat, lo: nat)
  {
    && lo < c < s && s - c <= 32506 && Alike(w, c, s) && Rank(w, c, s) < n
    && (Rank(w, c, s) == 0 || s - c < 32506)
  }

  // None of those behind from agrees with the string at s over len bytes.
  ghost predicate NoRun(w: seq<byte>, s: nat, n: nat, lo: nat, from: int, len: nat)
  {
    forall c: nat :: from < c && Tried(w, s, c, n, lo) ==> !SameRun(w, c, s, len)
  }

  // How many strings are tried when a match of length low is at hand.
  function Tries(low: nat): nat { if low >= 32 then 1024 else 4096 }

  // A best match longer than low is the latest among those with its length; otherwise start is what
  // it was before.
  ghost predicate BestSo(w: seq<byte>, s: nat, lo: nat, low: nat, best: nat, start: int, start0: int)
  {
    && (best == low ==> start == start0)
    && (best > low ==> start >= 0 && Tried(w, s, start, Tries(low), lo) && SameRun(w, start, s, best)
                       && NoRun(w, s, Tries(low), lo, start, best))
  }

  // best is the larger of low and the longest run of any string tried, at most 258.
  ghost predicate LongestOf(w: seq<byte>, s: nat, lo: nat, low: nat, best: nat, start: int, start0: int)
  {
    && low <= best <= 258
    && (best < 258 ==> NoRun(w, s, Tries(low), lo, lo, best + 1))
    && BestSo(w, s, lo, low, best, start, start0)
  }

  lemma {:induction false} RankLess(w: seq<byte>, c: nat, d: nat, s: nat)
    requires c <= d
    ensures Rank(w, c, s) >= Rank(w, d, s)
    decreases d - c
  {
    if c < d { RankLess(w, c + 1, d, s); }
  }

  // The latest before s.
  lemma {:induction false} RankFirst(w: seq<byte>, q: nat, s: nat)
    requires LinkOk(w, q, s)
    ensures Rank(w, q, s) == 0
    decreases s - q
  {
    if q + 1 < s { NoneRank(w, q, s, s); }
  }

  lemma {:induction false} NoneRank(w: seq<byte>, q: nat, d: nat, s: nat)
    requires q < d <= s && s + 2 < |w| && NoneBetween(w, q, d, HashAt(w, s))
    ensures Rank(w, q, s) == Rank(w, d - 1, s)
    decreases d - q
  {
    hide HashAt;
    if q + 1 < d {
      assert !HashIs(w, q + 1, HashAt(w, s));
      NoneRank(w, q + 1, d, s);
    }
  }

  // The next older one.
  lemma {:induction false} RankNext(w: seq<byte>, q: nat, d: nat, s: nat)
    requires d < s && Alike(w, d, s) && LinkOk(w, q, d) && d > 0
    ensures Rank(w, q, s) == Rank(w, d, s) + 1
  {
    NoneRank(w, q, d, s);
  }

  lemma {:induction false} RunLonger(w: seq<byte>, a: int, b: int, m: nat, n: nat)
    requires SameRun(w, a, b, n) && m <= n
    ensures SameRun(w, a, b, m)
  {
  }

  lemma {:induction false} NoRunLonger(w: seq<byte>, s: nat, n: nat, lo: nat, from: int, m: nat, len: nat)
    requires NoRun(w, s, n, lo, from, m) && m <= len
    ensures NoRun(w, s, n, lo, from, len)
  {
    hide SameRun, Tried;
    forall c: nat | from < c && Tried(w, s, c, n, lo) ensures !SameRun(w, c, s, len) {
      if SameRun(w, c, s, len) { RunLonger(w, c, s, m, len); }
    }
  }

  // One more has been tried, and there is none between it and the next older one.
  lemma {:induction false} NoRunNext(w: seq<byte>, s: nat, n: nat, lo: nat, d: nat, q: nat, len: nat)
    requires NoRun(w, s, n, lo, d, len) && !SameRun(w, d, s, len) && LinkOk(w, q, d) && Alike(w, d, s) && d > 0
    ensures NoRun(w, s, n, lo, q, len)
  {
    hide SameRun;
    forall c: nat | q < c && Tried(w, s, c, n, lo) ensures !SameRun(w, c, s, len) {
      assert HashIs(w, c, HashAt(w, d));
    }
  }

  // There is nothing more to try.
  lemma {:induction false} NoRunEnd(w: seq<byte>, s: nat, n: nat, q: nat, len: nat)
    requires NoRun(w, s, n, 0, q, len) && Rank(w, q, s) > 0
    requires Rank(w, q, s) >= n || q == 0 || s - q >= 32506
    ensures NoRun(w, s, n, 0, 0, len)
  {
    hide SameRun, Alike;
    forall c: nat | 0 < c && Tried(w, s, c, n, 0) ensures !SameRun(w, c, s, len) {
      if c <= q { RankLess(w, c, q, s); }
    }
  }

  // The state of the search: the string at cur is next, with left of them to try.
  ghost predicate Searching(w: seq<byte>, s: nat, cur: nat, low: nat, best: nat, left: nat, start: int, start0: int)
  {
    && 0 < cur < s && s + 2 < |w| && low <= best < 258 && left > 0 && Rank(w, cur, s) + left == Tries(low)
    && Tried(w, s, cur, Tries(low), 0) && NoRun(w, s, Tries(low), 0, cur, best + 1)
    && BestSo(w, s, 0, low, best, start, start0)
  }

  lemma {:induction false} SearchStarts(w: seq<byte>, s: nat, cur: nat, low: nat, start: int)
    requires 0 < cur < s && s - cur <= 32506 && low < 258 && LinkOk(w, cur, s)
    ensures Searching(w, s, cur, low, low, Tries(low), start, start)
  {
    hide SameRun;
    RankFirst(w, cur, s);
  }

  // The string at cur is better than all before.
  lemma {:induction false} Improved(w: seq<byte>, s: nat, cur: nat, low: nat, best: nat, left: nat, start: int,
      start0: int, len: nat)
    requires Searching(w, s, cur, low, best, left, start, start0) && best < len <= 258 && SameRun(w, cur, s, len)
    ensures BestSo(w, s, 0, low, len, cur, start0)
    ensures len < 258 ==> Searching(w, s, cur, low, len, left, cur, start0)
    ensures len == 258 ==> LongestOf(w, s, 0, low, len, cur, start0)
  {
    hide SameRun, Tried, NoRun, Rank;
    NoRunLonger(w, s, Tries(low), 0, cur, best + 1, len);
    NoRunLonger(w, s, Tries(low), 0, cur, best + 1, len + 1);
  }

  // The next older string, if the search goes on; otherwise its result.
  lemma {:induction false} Passed(w: seq<byte>, s: nat, cur: nat, next: nat, low: nat, best: nat, left: nat,
      start: int, start0: int)
    requires Searching(w, s, cur, low, best, left, start, start0) && LinkOk(w, next, cur)
    requires !SameRun(w, cur, s, best + 1)
    ensures next > 0 && s - next < 32506 && left > 1
            ==> Searching(w, s, next, low, best, left - 1, start, start0)
    ensures next == 0 || s - next >= 32506 || left == 1 ==> LongestOf(w, s, 0, low, best, start, start0)
  {
    hide SameRun, NoRun, Rank, HashAt;
    NoRunNext(w, s, Tries(low), 0, cur, next, best + 1);
    RankNext(w, next, cur, s);
    if next == 0 || s - next >= 32506 || left == 1 { NoRunEnd(w, s, Tries(low), next, best + 1); }
  }
}
