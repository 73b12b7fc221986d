/** Lazy matching on the data itself: what the searches of deflate find, and what becomes of that. */
module LazyMatching {
  import opened Bits
  import opened MatchHash
  import opened HashChains
  import opened MatchSearch
  import opened Inflate
  import opened Lz77

  // One round of the main loop at position at: the byte at base is the first in the window, low is
  // prev_length, and the match found has length len and begins at from.
  datatype Turn = Turn(at: nat, base: nat, low: nat, len: nat, from: int)

  // None of the strings that are tried and lie behind from is a match of that length.
  ghost predicate NoMatch(data: seq<byte>, t: Turn, from: int, len: nat)
  {
    forall c: nat :: from < c && Tried(data, t.at, c, Tries(t.low), t.base) ==> !MatchAt(data, t.at, c, len)
  }

  ghost predicate TriedMatch(data: seq<byte>, t: Turn, c: nat, len: nat)
  {
    Tried(data, t.at, c, Tries(t.low), t.base) && MatchAt(data, t.at, c, len)
  }

  // A match that is longer than low: no string tried has a longer one, and none behind from has
  // that length, except perhaps if the match goes up to the end of the data. It is not short and far.
  ghost predicate Hit(data: seq<byte>, t: Turn)
  {
    && t.from >= 0 && TriedMatch(data, t, t.from, t.len)
    && (t.len < 258 ==> NoMatch(data, t, t.base, t.len + 1))
    && (t.len == 258 || t.at + t.len < |data| ==> NoMatch(data, t, t.from, t.len))
    && (t.len == 3 ==> t.at - t.from <= 4096)
  }

  // The least length that is an improvement.
  function Needed(low: nat): nat { if low < 3 then 3 else low + 1 }

  // All matches are short and far, or one is that goes up to the end of the data.
  ghost predicate OnlyFar(data: seq<byte>, t: Turn)
  {
    && t.low < 3 && NoMatch(data, t, t.base, 4)
    && (exists c: nat :: TriedMatch(data, t, c, 3) && t.at - c > 4096)
    && (t.at + 3 < |data| ==> forall c: nat :: TriedMatch(data, t, c, 3) ==> t.at - c > 4096)
  }

  ghost predicate Miss(data: seq<byte>, t: Turn)
  {
    t.low >= 258 || NoMatch(data, t, t.base, Needed(t.low)) || OnlyFar(data, t)
  }

  ghost predicate Searched(data: seq<byte>, t: Turn)
  {
    t.at < |data| && t.len <= 258 && if t.len >= Needed(t.low) then Hit(data, t) else Miss(data, t)
  }

  // Strings that agree in three bytes have the same hash.
  lemma {:induction false} MatchAlike(data: seq<byte>, at: nat, c: nat, len: nat)
    requires MatchAt(data, at, c, len) && len >= 3
    ensures Alike(data, c, at)
  {
    hide HashAt;
    assert Agree(data, c, at, 0) && Agree(data, c, at, 1) && Agree(data, c, at, 2);
    HashSame(data, data, c, at);
  }

  // A longer match than the one found, in reach and still in the window, is one that has as many
  // later strings with its hash as are tried.
  lemma {:induction false} NoLonger(data: seq<byte>, t: Turn, c: nat)
    requires Searched(data, t) && t.len >= Needed(t.low) && MatchAt(data, t.at, c, t.len + 1) && t.len < 258
    requires t.base < c && t.at - c < 32506
    ensures Rank(data, c, t.at) >= Tries(t.low)
  {
    hide Alike, Rank, MatchAt, Tries;
    MatchAlike(data, t.at, c, t.len + 1);
    MatchInside(data, t.at, c, t.len + 1);
  }

  // Where nothing is found, three bytes that occurred not more than 4096 bytes before are such a case,
  // or the last ones.
  lemma {:induction false} NothingMissed(data: seq<byte>, t: Turn, c: nat)
    requires Searched(data, t) && t.low < 3 && t.len < 3 && MatchAt(data, t.at, c, 3)
    requires t.base < c && t.at - c <= 4096 && t.at + 3 < |data|
    ensures Rank(data, c, t.at) >= Tries(t.low)
  {
    hide Alike, Rank, MatchAt, Tries;
    MatchAlike(data, t.at, c, 3);
    MatchInside(data, t.at, c, 3);
    assert Tried(data, t.at, c, Tries(t.low), t.base) ==> TriedMatch(data, t, c, 3);
  }

  lemma {:induction false} MatchInside(data: seq<byte>, at: nat, c: nat, len: nat)
    requires MatchAt(data, at, c, len)
    ensures c < at
  {
  }

  // What deflate makes of the search in the window: the match is clipped to the lookahead, and
  // given up if it is short and far.
  ghost predicate Outcome(w: seq<byte>, s: nat, look: nat, hashHead: nat, low: nat, len: nat, start: int, start0: int)
  {
    if hashHead != 0 && low < 258 && s - hashHead <= 32506 then
      exists best: nat :: LongestOf(w, s, 0, low, best, start, start0) && len == Kept(best, look, s - start)
    else
      len == 2 && start == start0
  }

  function Kept(best: nat, look: nat, dist: int): nat
  {
    var clipped := if best > look then look else best;
    if clipped == 3 && dist > 4096 then 2 else clipped
  }

  // The window holds the data from base on, up to its index end.
  ghost predicate Shows(w: seq<byte>, data: seq<byte>, base: nat, end: nat)
  {
    end <= |w| && base + end == |data| && w[..end] == data[base..]
  }

  lemma {:induction false} ByteShown(w: seq<byte>, data: seq<byte>, base: nat, end: nat, r: nat)
    requires Shows(w, data, base, end) && r < end
    ensures w[r] == data[base + r]
  {
    assert w[..end][r] == data[base..][r];
  }

  lemma {:induction false} HashShown(w: seq<byte>, data: seq<byte>, base: nat, end: nat, r: nat)
    requires Shows(w, data, base, end) && r + 2 < end
    ensures HashAt(w, r) == HashAt(data, base + r)
  {
    ByteShown(w, data, base, end, r);
    ByteShown(w, data, base, end, r + 1);
    ByteShown(w, data, base, end, r + 2);
    HashSame(w, data, r, base + r);
  }

  lemma {:induction false} RankShown(w: seq<byte>, data: seq<byte>, base: nat, end: nat, c: nat, s: nat)
    requires Shows(w, data, base, end) && s + 2 < end
    ensures Rank(w, c, s) == Rank(data, base + c, base + s)
    decreases s - c
  {
    hide HashAt, Shows;
    if c + 1 < s {
      RankShown(w, data, base, end, c + 1, s);
      SizeShown(w, data, base, end);
      HashShown(w, data, base, end, c + 1);
      HashShown(w, data, base, end, s);
      assert base + (c + 1) == base + c + 1;
    }
  }

  lemma {:induction false} SizeShown(w: seq<byte>, data: seq<byte>, base: nat, end: nat)
    requires Shows(w, data, base, end)
    ensures end <= |w| && base + end == |data|
  {
  }

  // The strings tried are the same in the window and in the data.
  lemma {:induction false} TriedShown(w: seq<byte>, data: seq<byte>, base: nat, end: nat, s: nat, c: nat, n: nat)
    requires Shows(w, data, base, end) && s + 2 < end
    ensures Tried(w, s, c, n, 0) <==> Tried(data, base + s, base + c, n, base)
  {
    hide HashAt, Shows, Rank;
    SizeShown(w, data, base, end);
    if c < s {
      RankShown(w, data, base, end, c, s);
      HashShown(w, data, base, end, c);
      HashShown(w, data, base, end, s);
    }
  }

  lemma {:induction false} AgreeShown(w: seq<byte>, data: seq<byte>, base: nat, end: nat, s: nat, c: nat, k: nat)
    requires Shows(w, data, base, end) && c < s && s + k < end
    ensures Agree(w, c, s, k) <==> Agree(data, base + c, base + s, k)
  {
    ByteShown(w, data, base, end, c + k);
    ByteShown(w, data, base, end, s + k);
  }

  // So are the runs, as far as there is data.
  lemma {:induction false} RunShown(w: seq<byte>, data: seq<byte>, base: nat, end: nat, s: nat, c: nat, len: nat)
    requires Shows(w, data, base, end) && c < s && s + len <= end
    ensures SameRun(w, c, s, len) <==> MatchAt(data, base + s, base + c, len)
  {
    hide Shows, Agree;
    SizeShown(w, data, base, end);
    var from, at := base + c, base + s;
    forall k | 0 <= k < len ensures Agree(w, c, s, k) <==> Agree(data, from, at, k) {
      AgreeShown(w, data, base, end, s, c, k);
    }
    if SameRun(w, c, s, len) {
      forall k | 0 <= k < len ensures Agree(data, from, at, k) { assert Agree(w, c, s, k); }
    }
    if MatchAt(data, at, from, len) {
      forall k | 0 <= k < len ensures Agree(w, c, s, k) { assert Agree(data, from, at, k); }
    }
  }

  lemma {:induction false} NoRunShown(w: seq<byte>, data: seq<byte>, base: nat, end: nat, t: Turn, s: nat, from: int,
      len: nat)
    requires Shows(w, data, base, end) && s + 2 < end && t.at == base + s && t.base == base && from >= 0
    requires NoRun(w, s, Tries(t.low), 0, from, len)
    ensures NoMatch(data, t, base + from, len)
  {
    hide HashAt, SameRun, Tried, MatchAt;
    forall c: nat | base + from < c && Tried(data, t.at, c, Tries(t.low), t.base)
      ensures !MatchAt(data, t.at, c, len)
    {
      TriedShown(w, data, base, end, s, c - base, Tries(t.low));
      RunOrEnd(w, data, base, end, s, c - base, len);
    }
  }

  lemma {:induction false} RunOrEnd(w: seq<byte>, data: seq<byte>, base: nat, end: nat, s: nat, c: nat, len: nat)
    requires Shows(w, data, base, end) && !SameRun(w, c, s, len)
    ensures !MatchAt(data, base + s, base + c, len)
  {
    if MatchAt(data, base + s, base + c, len) { RunShown(w, data, base, end, s, c, len); }
  }

  lemma {:induction false} NoMatchLonger(data: seq<byte>, t: Turn, from: int, m: nat, len: nat)
    requires NoMatch(data, t, from, m) && m <= len
    ensures NoMatch(data, t, from, len)
  {
    hide Tried;
    forall c: nat | from < c && Tried(data, t.at, c, Tries(t.low), t.base) ensures !MatchAt(data, t.at, c, len) {
      assert MatchAt(data, t.at, c, len) ==> MatchAt(data, t.at, c, m);
    }
  }

  // The data ends before a match of that length could.
  lemma {:induction false} NoMatchAtEnd(data: seq<byte>, t: Turn, from: int, len: nat)
    requires t.at + len > |data|
    ensures NoMatch(data, t, from, len)
  {
    hide Tried;
  }

  // No string has the hash of the one at strstart, or the latest is out of reach.
  lemma {:induction false} NoneTried(w: seq<byte>, s: nat, q: nat, n: nat, len: nat)
    requires LinkOk(w, q, s) && (q == 0 || s - q > 32506)
    ensures NoRun(w, s, n, 0, 0, len)
  {
    hide SameRun, HashAt;
    forall c: nat | 0 < c ensures !Tried(w, s, c, n, 0) {
      if q < c < s { assert !HashIs(w, c, HashAt(w, s)); }
    }
  }

  // The longest match, clipped to the lookahead, is a longest match in the data.
  lemma {:induction false} HitShown(w: seq<byte>, data: seq<byte>, base: nat, end: nat, s: nat, best: nat, start: int,
      start0: int, t: Turn)
    requires Shows(w, data, base, end) && s + 2 < end && LongestOf(w, s, 0, t.low, best, start, start0)
    requires t.at == base + s && t.base == base && t.from == base + start
    requires t.len == (if best > end - s then end - s else best) && t.len >= Needed(t.low)
    ensures TriedMatch(data, t, t.from, t.len) && (t.len < 258 ==> NoMatch(data, t, t.base, t.len + 1))
    ensures t.len == 258 || t.at + t.len < |data| ==> NoMatch(data, t, t.from, t.len)
  {
    hide Shows, SameRun, NoRun, Tried, MatchAt, NoMatch;
    SizeShown(w, data, base, end);
    TriedShown(w, data, base, end, s, start, Tries(t.low));
    RunLonger(w, start, s, t.len, best);
    StartBefore(w, s, start, Tries(t.low));
    RunShown(w, data, base, end, s, start, t.len);
    if t.len < best {
      NoMatchAtEnd(data, t, t.base, t.len + 1);
    } else {
      if best < 258 { NoRunShown(w, data, base, end, t, s, 0, best + 1); }
      NoRunShown(w, data, base, end, t, s, start, best);
    }
  }

  lemma {:induction false} StartBefore(w: seq<byte>, s: nat, c: nat, n: nat)
    requires Tried(w, s, c, n, 0)
    ensures c < s
  {
  }

  // No improvement.
  lemma {:induction false} MissShown(w: seq<byte>, data: seq<byte>, base: nat, end: nat, s: nat, best: nat, start: int,
      start0: int, t: Turn)
    requires Shows(w, data, base, end) && s + 2 < end && LongestOf(w, s, 0, t.low, best, start, start0)
    requires t.at == base + s && t.base == base && t.low < 258
    requires (if best > end - s then end - s else best) < Needed(t.low)
    ensures NoMatch(data, t, t.base, Needed(t.low))
  {
    hide Shows, SameRun, NoRun, Tried, MatchAt, NoMatch;
    SizeShown(w, data, base, end);
    if best < Needed(t.low) {
      NoRunShown(w, data, base, end, t, s, 0, best + 1);
      NoMatchLonger(data, t, t.base, best + 1, Needed(t.low));
    } else {
      NoMatchAtEnd(data, t, t.base, Needed(t.low));
    }
  }

  // A match of length 3 too far away.
  lemma {:induction false} FarShown(w: seq<byte>, data: seq<byte>, base: nat, end: nat, s: nat, best: nat, start: int,
      start0: int, t: Turn)
    requires Shows(w, data, base, end) && s + 2 < end && LongestOf(w, s, 0, t.low, best, start, start0)
    requires t.at == base + s && t.base == base && t.low < 3 && s - start > 4096
    requires (if best > end - s then end - s else best) == 3
    ensures OnlyFar(data, t)
  {
    hide Shows, SameRun, NoRun, Tried, MatchAt, NoMatch;
    var t' := t.(len := 3, from := base + start);
    HitShown(w, data, base, end, s, best, start, start0, t');
    SizeShown(w, data, base, end);
    AsTurn(data, t, t', t.base, 4);
    assert TriedMatch(data, t, base + start, 3);
    if t.at + 3 < |data| {
      AsTurn(data, t, t', base + start, 3);
      forall c: nat | TriedMatch(data, t, c, 3) ensures t.at - c > 4096 { NotBehind(data, t, base + start, c, 3); }
    }
  }

  lemma {:induction false} NotBehind(data: seq<byte>, t: Turn, from: int, c: nat, len: nat)
    requires NoMatch(data, t, from, len) && TriedMatch(data, t, c, len)
    ensures c <= from
  {
    hide Tried, MatchAt;
  }

  lemma {:induction false} AsTurn(data: seq<byte>, t: Turn, t': Turn, from: int, len: nat)
    requires NoMatch(data, t', from, len) && t.at == t'.at && t.base == t'.base && t.low == t'.low
    ensures NoMatch(data, t, from, len)
  {
    hide Tried, MatchAt;
  }

  // What the search in the window comes to in the data.
  lemma {:induction false} OutcomeShown(w: seq<byte>, data: seq<byte>, base: nat, end: nat, s: nat, hashHead: nat,
      start: int, start0: int, t: Turn)
    requires Shows(w, data, base, end) && s < end && LinkOk(w, hashHead, s)
    requires Outcome(w, s, end - s, hashHead, t.low, t.len, start, start0)
    requires t.at == base + s && t.base == base && t.from == base + start
    ensures Searched(data, t)
  {
    hide Shows, SameRun, NoRun, Tried, MatchAt, NoMatch, LongestOf, LinkOk, OnlyFar;
    SizeShown(w, data, base, end);
    if hashHead != 0 && t.low < 258 && s - hashHead <= 32506 {
      var best: nat :| LongestOf(w, s, 0, t.low, best, start, start0) && t.len == Kept(best, end - s, s - start);
      AtMost258(w, s, 0, t.low, best, start, start0);
      FoundShown(w, data, base, end, s, best, start, start0, t);
    } else if t.low < 258 {
      if s + 2 < end {
        NoneTried(w, s, hashHead, Tries(t.low), Needed(t.low));
        NoRunShown(w, data, base, end, t, s, 0, Needed(t.low));
      } else {
        NoMatchAtEnd(data, t, t.base, Needed(t.low));
      }
    }
  }

  lemma {:induction false} AtMost258(w: seq<byte>, s: nat, lo: nat, low: nat, best: nat, start: int, start0: int)
    requires LongestOf(w, s, lo, low, best, start, start0)
    ensures low <= best <= 258
  {
  }

  lemma {:induction false} FoundShown(w: seq<byte>, data: seq<byte>, base: nat, end: nat, s: nat, best: nat, start: int,
      start0: int, t: Turn)
    requires Shows(w, data, base, end) && s < end && LongestOf(w, s, 0, t.low, best, start, start0)
    requires t.low <= best <= 258 && t.low < 258 && t.len == Kept(best, end - s, s - start)
    requires t.at == base + s && t.base == base && t.from == base + start && t.at < |data| == base + end
    ensures Searched(data, t)
  {
    hide Shows, SameRun, NoRun, Tried, MatchAt, NoMatch, LongestOf, OnlyFar, TriedMatch;
    if s + 2 >= end {
      NoMatchAtEnd(data, t, t.base, Needed(t.low));
    } else if (if best > end - s then end - s else best) < Needed(t.low) {
      MissShown(w, data, base, end, s, best, start, start0, t);
    } else if t.len < Needed(t.low) {
      FarShown(w, data, base, end, s, best, start, start0, t);
    } else {
      HitShown(w, data, base, end, s, best, start, start0, t);
      StartInside(w, s, t.low, best, start, start0);
    }
  }

  lemma {:induction false} StartInside(w: seq<byte>, s: nat, low: nat, best: nat, start: int, start0: int)
    requires LongestOf(w, s, 0, low, best, start, start0) && best > low
    ensures start >= 0
  {
  }

  // The state of lazy matching: the next search is at position at; the byte before it may still
  // wait, with the match found there; toks is what has been coded.
  datatype Lazy = Lazy(at: nat, avail: bool, len: nat, from: int, toks: seq<Token>)

  function ByteAt(data: seq<byte>, i: int): byte { if 0 <= i < |data| then data[i] else 0 }

  // A match that waits is taken unless the next one is longer; otherwise the byte that waits is a
  // literal, and what has been found now waits.
  function Turned(data: seq<byte>, z: Lazy, t: Turn): Lazy
  {
    if z.len >= 3 && t.len <= z.len then
      Lazy(if z.at + z.len > 0 then z.at + z.len - 1 else 0, false, 2, t.from,
           z.toks + [Match(z.len, if z.at - 1 > z.from then z.at - 1 - z.from else 0)])
    else
      Lazy(z.at + 1, true, t.len, t.from, if z.avail then z.toks + [Literal(ByteAt(data, z.at - 1))] else z.toks)
  }

  function LazyRun(data: seq<byte>, turns: seq<Turn>): Lazy
  {
    if turns == [] then
      Lazy(0, false, 2, 0, [])
    else
      Turned(data, LazyRun(data, turns[..|turns| - 1]), turns[|turns| - 1])
  }

  // All that is coded: at the end of the input the byte that waits is a literal.
  function LazyTokens(data: seq<byte>, turns: seq<Turn>): seq<Token>
  {
    var z := LazyRun(data, turns);
    if z.avail then z.toks + [Literal(ByteAt(data, z.at - 1))] else z.toks
  }

  // Turn i is a correct search from the state that the turns before it lead to.
  ghost predicate TurnOk(data: seq<byte>, turns: seq<Turn>, i: nat)
  {
    i < |turns| && Searched(data, turns[i])
    && var z := LazyRun(data, turns[..i]); turns[i].at == z.at && turns[i].low == z.len
  }

  ghost predicate TurnsOk(data: seq<byte>, turns: seq<Turn>)
  {
    forall i: nat :: i < |turns| ==> TurnOk(data, turns, i)
  }

  // A match that is found is coded unless the next search finds a longer one.
  lemma {:induction false} MatchRule(data: seq<byte>, turns: seq<Turn>, i: nat)
    requires TurnsOk(data, turns) && i + 1 < |turns| && turns[i].len >= Needed(turns[i].low)
    requires turns[i + 1].len <= turns[i].len
    ensures 0 <= turns[i].from < turns[i].at && turns[i + 1].at == turns[i].at + 1
    ensures LazyRun(data, turns[..i + 2]).toks
            == LazyRun(data, turns[..i + 1]).toks + [Match(turns[i].len, turns[i].at - turns[i].from)]
    ensures LazyRun(data, turns[..i + 2]).at == turns[i].at + turns[i].len
  {
    hide Hit, Miss;
    assert TurnOk(data, turns, i) && TurnOk(data, turns, i + 1);
    LazySnoc(data, turns, i);
    LazySnoc(data, turns, i + 1);
    HitBefore(data, turns[i]);
  }

  // If the next one is longer, or nothing was found, the byte is a literal.
  lemma {:induction false} LiteralRule(data: seq<byte>, turns: seq<Turn>, i: nat)
    requires TurnsOk(data, turns) && i + 1 < |turns|
    requires if turns[i].len >= Needed(turns[i].low) then turns[i + 1].len > turns[i].len else turns[i].low < 3
    ensures turns[i].at < |data| && turns[i + 1].at == turns[i].at + 1
    ensures LazyRun(data, turns[..i + 2]).toks
            == LazyRun(data, turns[..i + 1]).toks + [Literal(data[turns[i].at])]
    ensures LazyRun(data, turns[..i + 2]).at == turns[i].at + 2
  {
    hide Hit, Miss;
    assert TurnOk(data, turns, i) && TurnOk(data, turns, i + 1);
    LazySnoc(data, turns, i);
    LazySnoc(data, turns, i + 1);
  }

  lemma {:induction false} HitBefore(data: seq<byte>, t: Turn)
    requires Searched(data, t) && t.len >= Needed(t.low)
    ensures 0 <= t.from < t.at
  {
    hide NoMatch;
  }

  lemma {:induction false} LazySnoc(data: seq<byte>, turns: seq<Turn>, i: nat)
    requires i < |turns|
    ensures LazyRun(data, turns[..i + 1]) == Turned(data, LazyRun(data, turns[..i]), turns[i])
  {
    assert turns[..i + 1][..i] == turns[..i];
  }

  // The log of a run: all searches so far were correct, and the state is what they lead to.
  ghost predicate LogOk(data: seq<byte>, turns: seq<Turn>, toks: seq<Token>, at: int, avail: bool, len: nat, from: int)
  {
    && TurnsOk(data, turns) && (forall i :: 0 <= i < |turns| ==> turns[i].at < at)
    && IsState(LazyRun(data, turns), toks, at, avail, len, from)
  }

  ghost predicate IsState(z: Lazy, toks: seq<Token>, at: int, avail: bool, len: nat, from: int)
  {
    z.at == at && z.avail == avail && z.len == len && z.toks == toks && (len >= 3 ==> z.from == from)
  }

  lemma {:induction false} LogStarts(data: seq<byte>, from: int)
    ensures LogOk(data, [], [], 0, false, 2, from)
  {
  }

  // One more search, and what became of it.
  lemma {:induction false} LogNext(data: seq<byte>, turns: seq<Turn>, toks: seq<Token>, at: int, avail: bool, len: nat,
      from: int, t: Turn, z: Lazy)
    requires LogOk(data, turns, toks, at, avail, len, from) && Searched(data, t) && t.at == at && t.low == len
    requires len >= 3 ==> from < at - 1
    requires z == Turned(data, Lazy(t.at, avail, len, from, toks), t) && z.at > at
    ensures LogOk(data, turns + [t], z.toks, z.at, z.avail, z.len, z.from)
  {
    hide Searched, LazyRun, Turned;
    var all := turns + [t];
    var n := |turns|;
    assert all[..n] == turns && all[..n + 1] == all;
    LazySnoc(data, all, n);
    SameTurn(data, LazyRun(data, turns), Lazy(t.at, avail, len, from, toks), t);
    forall i: nat | i < |all| ensures TurnOk(data, all, i) {
      if i < n {
        assert TurnOk(data, turns, i);
        assert all[..i] == turns[..i];
      }
    }
  }

  lemma {:induction false} SameTurn(data: seq<byte>, z: Lazy, z': Lazy, t: Turn)
    requires z.(from := z'.from) == z' && (z.len >= 3 ==> z.from == z'.from)
    ensures Turned(data, z, t) == Turned(data, z', t)
  {
  }

  // Turns that were not near the end stay correct when more data comes.
  lemma {:induction false} LogGrows(data: seq<byte>, data': seq<byte>, turns: seq<Turn>, toks: seq<Token>, at: int,
      avail: bool, len: nat, from: int)
    requires LogOk(data, turns, toks, at, avail, len, from) && data <= data'
    requires forall i :: 0 <= i < |turns| ==> turns[i].at + 258 < |data|
    ensures LogOk(data', turns, toks, at, avail, len, from)
  {
    hide Searched, LazyRun;
    forall i: nat | i < |turns| ensures TurnOk(data', turns, i) {
      assert TurnOk(data, turns, i);
      SearchedGrows(data, data', turns[i]);
      assert turns[..i] <= turns;
      LazyGrows(data, data', turns, i);
    }
    LazyGrows(data, data', turns, |turns|);
    assert turns[..|turns|] == turns;
  }

  lemma {:induction false} LazyGrows(data: seq<byte>, data': seq<byte>, turns: seq<Turn>, i: nat)
    requires TurnsOk(data, turns) && data <= data' && i <= |turns|
    ensures LazyRun(data, turns[..i]) == LazyRun(data', turns[..i])
    decreases i
  {
    hide LazyRun, Hit, Miss;
    if i > 0 {
      LazyGrows(data, data', turns, i - 1);
      LazySnoc(data, turns, i - 1);
      LazySnoc(data', turns, i - 1);
      assert TurnOk(data, turns, i - 1);
    } else {
      assert turns[..0] == [];
      assert LazyRun(data, []) == LazyRun(data', []) by { LazyEmpty(data); LazyEmpty(data'); }
    }
  }

  lemma {:induction false} LazyEmpty(data: seq<byte>)
    ensures LazyRun(data, []) == Lazy(0, false, 2, 0, [])
  {
  }

  lemma {:induction false} TriedGrows(data: seq<byte>, data': seq<byte>, s: nat, c: nat, n: nat, lo: nat)
    requires data <= data' && s + 2 < |data|
    ensures Tried(data, s, c, n, lo) <==> Tried(data', s, c, n, lo)
  {
    hide HashAt, Rank;
    if c < s {
      RankGrows(data, data', c, s);
      HashSame(data, data', c, c);
      HashSame(data, data', s, s);
    }
  }

  lemma {:induction false} RankGrows(data: seq<byte>, data': seq<byte>, c: nat, s: nat)
    requires data <= data' && s + 2 < |data|
    ensures Rank(data, c, s) == Rank(data', c, s)
    decreases s - c
  {
    hide HashAt;
    if c + 1 < s {
      RankGrows(data, data', c + 1, s);
      HashSame(data, data', c + 1, c + 1);
      HashSame(data, data', s, s);
    }
  }

  lemma {:induction false} MatchGrown(data: seq<byte>, data': seq<byte>, at: int, from: int, n: nat)
    requires data <= data' && at + n <= |data|
    ensures MatchAt(data, at, from, n) <==> MatchAt(data', at, from, n)
  {
    if MatchAt(data', at, from, n) {
      forall k | 0 <= k < n ensures Agree(data, from, at, k) { assert Agree(data', from, at, k); }
    }
    if MatchAt(data, at, from, n) { MatchGrows(data, data', at, from, n); }
  }

  lemma {:induction false} NoMatchGrows(data: seq<byte>, data': seq<byte>, t: Turn, from: int, len: nat)
    requires NoMatch(data, t, from, len) && data <= data' && t.at + 2 < |data| && t.at + len <= |data|
    ensures NoMatch(data', t, from, len)
  {
    hide Tried, MatchAt;
    forall c: nat | from < c && Tried(data', t.at, c, Tries(t.low), t.base) ensures !MatchAt(data', t.at, c, len) {
      TriedGrows(data, data', t.at, c, Tries(t.low), t.base);
      MatchGrown(data, data', t.at, c, len);
    }
  }

  lemma {:induction false} TriedMatchGrows(data: seq<byte>, data': seq<byte>, t: Turn, c: nat, len: nat)
    requires data <= data' && t.at + 2 < |data| && t.at + len <= |data|
    ensures TriedMatch(data, t, c, len) <==> TriedMatch(data', t, c, len)
  {
    hide Tried, MatchAt;
    TriedGrows(data, data', t.at, c, Tries(t.low), t.base);
    MatchGrown(data, data', t.at, c, len);
  }

  lemma {:induction false} SearchedGrows(data: seq<byte>, data': seq<byte>, t: Turn)
    requires Searched(data, t) && data <= data' && t.at + 258 < |data|
    ensures Searched(data', t)
  {
    hide NoMatch, TriedMatch;
    if t.len >= Needed(t.low) {
      TriedMatchGrows(data, data', t, t.from, t.len);
      if t.len < 258 { NoMatchGrows(data, data', t, t.base, t.len + 1); }
      NoMatchGrows(data, data', t, t.from, t.len);
    } else {
      MissGrows(data, data', t);
    }
  }

  lemma {:induction false} MissGrows(data: seq<byte>, data': seq<byte>, t: Turn)
    requires Miss(data, t) && data <= data' && t.at + 258 < |data|
    ensures Miss(data', t)
  {
    hide NoMatch, TriedMatch;
    if t.low < 258 {
      if NoMatch(data, t, t.base, Needed(t.low)) {
        NoMatchGrows(data, data', t, t.base, Needed(t.low));
      } else {
        NoMatchGrows(data, data', t, t.base, 4);
        forall c: nat ensures TriedMatch(data, t, c, 3) <==> TriedMatch(data', t, c, 3) {
          TriedMatchGrows(data, data', t, c, 3);
        }
      }
    }
  }

  lemma {:induction false} InLog(data: seq<byte>, turns: seq<Turn>, toks: seq<Token>, at: int, avail: bool, len: nat,
      from: int)
    requires LogOk(data, turns, toks, at, avail, len, from)
    ensures forall i :: 0 <= i < |turns| ==> turns[i].at < at
  {
  }

  // No match waits, or it begins at the same place.
  lemma {:induction false} LogFrom(data: seq<byte>, turns: seq<Turn>, toks: seq<Token>, at: int, avail: bool, len: nat,
      from: int, from': int)
    requires LogOk(data, turns, toks, at, avail, len, from) && (len >= 3 ==> from' == from)
    ensures LogOk(data, turns, toks, at, avail, len, from')
  {
    hide TurnsOk, LazyRun;
  }

  lemma {:induction false} LogEnds(data: seq<byte>, turns: seq<Turn>, toks: seq<Token>, at: int, avail: bool, len: nat,
      from: int)
    requires LogOk(data, turns, toks, at, avail, len, from)
    ensures TurnsOk(data, turns) && LazyRun(data, turns).at == at
    ensures LazyTokens(data, turns) == if avail then toks + [Literal(ByteAt(data, at - 1))] else toks
  {
    hide TurnOk, LazyRun;
  }
}
