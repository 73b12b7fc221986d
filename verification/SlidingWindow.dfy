/** fill_window, INSERT_STRING and longest_match: the sliding window over the input. */
module SlidingWindow {
  import opened Bits
  import opened MatchHash
  import opened HashChains
  import opened MatchSearch

  // Types of the window and of indices into it.
  type uch = n: nat | n < 256
  type Pos = n: nat | n < 65536

  // Cells behind the window that the code looks at but never relies on.
  const SLACK := 262
  const GOOD_MATCH := 32
  const NICE_MATCH := 258
  const MAX_CHAIN_LENGTH := 4096

  // Standard input. A read delivers any number of bytes up to its size; none means the end
  // of the file or an error.
  class Input {
    ghost const all: seq<byte>
    var rest: seq<byte>
    var failed: bool
    var taken: seq<byte>   // what has been read; isize and the CRC are functions of it

    constructor (bytes: seq<byte>)
      ensures all == rest == bytes && taken == [] && !failed
    {
      all, rest, taken, failed := bytes, bytes, [], false;
    }

    method Read(size: nat) returns (chunk: seq<byte>)
      modifies this
      ensures |chunk| <= size && old(rest) == chunk + rest && taken == old(taken) + chunk
      ensures old(taken + rest) == taken + rest && (old(failed) ==> failed)
      ensures chunk == [] && size > 0 && !failed ==> rest == []
    {
      var n :| 0 <= n <= |rest| && n <= size;
      chunk := rest[..n];
      failed := failed || (n == 0 && rest != []);
      rest := rest[n..];
      taken := taken + chunk;
    }
  }

  class Window {
    const window: array<uch>
    const prev: array<Pos>
    const head: array<Pos>
    const input: Input
    var strstart: nat
    var lookahead: nat
    var matchStart: int
    var insH: nat
    var eofile: bool
    var blockStart: int
    ghost var base: nat   // how many input bytes have left the window

    constructor (input: Input)
      ensures this.input == input && Shape() && fresh(window) && fresh(prev) && fresh(head)
    {
      this.input := input;
      window, prev, head := new uch[WINDOW_SIZE + SLACK], new Pos[WSIZE], new Pos[HASH_SIZE];
    }

    ghost predicate Shape()
    {
      window.Length == WINDOW_SIZE + SLACK && prev.Length == WSIZE && head.Length == HASH_SIZE && prev != head
    }

    // The window holds the input, the first bytes of which may have been dropped.
    ghost predicate Filled()
      reads this`strstart, this`lookahead, this`base, window, input
    {
      && Shape() && strstart + lookahead <= WINDOW_SIZE && (base > 0 ==> strstart >= MAX_DIST)
      && base + strstart + lookahead == |input.taken| && input.taken + input.rest == input.all
      && window[..strstart + lookahead] == input.taken[base..]
    }

    // The strings before ins are in the hash table.
    ghost predicate Chained(ins: nat)
      reads window, prev, head
    {
      ChainsOk(window[..], prev[..], ins) && HeadsOk(window[..], head[..], ins)
    }

    ghost predicate Ready(ins: nat)
      reads this`insH, window
    {
      Primed(insH, window[..], ins)
    }

    // memcpy(window, window + WSIZE, WSIZE)
    method CopyDown()
      requires Shape()
      modifies window
      ensures window[..WSIZE] == old(window[WSIZE..WINDOW_SIZE])
      ensures forall i :: WSIZE <= i < window.Length ==> window[i] == old(window[i])
    {
      for i := 0 to WSIZE
        invariant forall k :: 0 <= k < i ==> window[k] == old(window[k + WSIZE])
        invariant forall k :: i <= k < window.Length ==> window[k] == old(window[k])
      {
        window[i] := window[i + WSIZE];
      }
    }

    method SlideTable(a: array<Pos>)
      modifies a
      ensures AllSlid(old(a[..]), a[..])
    {
      for n := 0 to a.Length
        invariant forall k :: 0 <= k < n ==> a[k] == Slid(old(a[k]))
        invariant forall k :: n <= k < a.Length ==> a[k] == old(a[k])
      {
        var m := a[n];
        a[n] := if m >= WSIZE then m - WSIZE else 0;
      }
    }

    // The slide: the upper half of the window moves down.
    method Slide()
      requires Filled() && Chained(strstart) && WSIZE + MAX_DIST <= strstart && 2 <= lookahead
      modifies this`strstart, this`matchStart, this`blockStart, this`base, window, prev, head
      ensures Filled() && Chained(strstart) && (old(Ready(strstart)) ==> Ready(strstart))
      ensures base == old(base) + WSIZE && strstart == old(strstart) - WSIZE
      ensures matchStart == old(matchStart) - WSIZE && blockStart == old(blockStart) - WSIZE
    {
      hide ChainsOk, HeadsOk, Primed;
      ghost var w: seq<byte>, p: seq<nat>, h: seq<nat> := window[..], prev[..], head[..];
      CopyDown();
      matchStart := matchStart - WSIZE;
      strstart := strstart - WSIZE;
      blockStart := blockStart - WSIZE;
      SlideTable(head);
      SlideTable(prev);
      base := base + WSIZE;
      assert window[..][..WSIZE] == w[WSIZE..WINDOW_SIZE];
      ChainsSlid(w, window[..], p, h, prev[..], head[..], strstart + WSIZE);
      if Primed(insH, w, strstart + WSIZE) { PrimedSlid(insH, w, window[..], strstart + WSIZE); }
      SlideSlice(w, window[..], strstart + lookahead);
    }

    // Bytes from the input behind those in the window.
    method Take(chunk: seq<byte>)
      requires Shape() && strstart + lookahead + |chunk| <= WINDOW_SIZE
      modifies window
      ensures window[..strstart + lookahead] == old(window[..strstart + lookahead])
      ensures window[strstart + lookahead..strstart + lookahead + |chunk|] == chunk
    {
      var from := strstart + lookahead;
      for i := 0 to |chunk|
        invariant forall k :: 0 <= k < from ==> window[k] == old(window[k])
        invariant forall k :: 0 <= k < i ==> window[from + k] == chunk[k]
      {
        window[from + i] := chunk[i];
      }
    }

    // The read at the end of fill_window.
    method ReadMore(more: nat)
      requires Filled() && Chained(strstart) && more == WINDOW_SIZE - lookahead - strstart && more > 0
      requires strstart == 0 || 2 <= lookahead
      modifies this`lookahead, this`eofile, window, input
      ensures Filled() && Chained(strstart) && (2 <= old(lookahead) && old(Ready(strstart)) ==> Ready(strstart))
      ensures old(lookahead) <= lookahead && old(input.taken) <= input.taken
      ensures old(|input.rest|) + old(lookahead) == |input.rest| + lookahead
      ensures (eofile || old(lookahead) < lookahead) && (old(input.failed) ==> input.failed)
      ensures eofile && !input.failed && !old(eofile) ==> input.rest == []
    {
      hide ChainsOk, HeadsOk, Primed;
      ghost var w: seq<byte>, n, data := window[..], strstart + lookahead, input.taken;
      var chunk := input.Read(more);
      if chunk == [] {
        eofile := true;
      } else {
        Take(chunk);
        lookahead := lookahead + |chunk|;
        assert window[..][..n] == w[..n];
        ChainsSame(w, window[..], prev[..], head[..], strstart, n);
        if 2 <= n - strstart && Primed(insH, w, strstart) { PrimedSame(insH, w, window[..], strstart, n); }
        TakenGrows(data, chunk, input.taken, base, window[..n], window[n..n + |chunk|], window[..n + |chunk|]);
      }
    }

    // fill_window
    method FillWindow()
      requires Filled() && Chained(strstart) && lookahead < MIN_LOOKAHEAD && !eofile
      requires strstart == 0 || 2 <= lookahead
      modifies this`strstart, this`lookahead, this`matchStart, this`blockStart, this`base, this`eofile, window, prev,
               head, input
      ensures Filled() && Chained(strstart) && (2 <= old(lookahead) && old(Ready(strstart)) ==> Ready(strstart))
      ensures base + strstart == old(base + strstart) && base + matchStart == old(base + matchStart)
              && base + blockStart == old(base + blockStart)
      ensures old(lookahead) <= lookahead && old(input.taken) <= input.taken
      ensures old(|input.rest|) + old(lookahead) == |input.rest| + lookahead
      ensures (eofile || old(lookahead) < lookahead) && (old(input.failed) ==> input.failed)
      ensures eofile && !input.failed ==> input.rest == []
      ensures old(strstart) == 0 <==> strstart == 0
      ensures old(strstart) < WSIZE + MAX_DIST ==> base == old(base) && head[..] == old(head[..])
    {
      var more := WINDOW_SIZE - lookahead - strstart;
      if strstart >= WSIZE + MAX_DIST {
        Slide();
        more := more + WSIZE;
      }
      ReadMore(more);
    }

    // INSERT_STRING
    method InsertString(s: nat) returns (matchHead: Pos)
      requires Shape() && Chained(s) && Ready(s) && s < WINDOW_SIZE
      modifies this`insH, prev, head
      ensures Chained(s + 1) && Ready(s + 1) && LinkOk(window[..], matchHead, s)
      ensures var h := HashAt(window[..], s); matchHead == old(head[h]) && head[..] == old(head[..])[h := s]
    {
      PrimedNext(insH, window[..], s);
      insH := UpdateHash(insH, window[s + 2]);
      ghost var p: seq<nat>, h: seq<nat> := prev[..], head[..];
      matchHead := head[insH];
      prev[Slot(s)] := matchHead;
      head[insH] := s;
      Inserted(window[..], p, h, s, insH, prev[..], head[..]);
    }

    // The comparison of longest_match behind the third byte: eight bytes at a time.
    method Compare(at: nat, scan: nat) returns (len: nat)
      requires Shape() && at < scan < WINDOW_SIZE
      ensures 3 <= len <= MAX_MATCH && forall k :: 3 <= k < len ==> Agree(window[..], at, scan, k)
      ensures len < MAX_MATCH ==> !Agree(window[..], at, scan, len)
    {
      len := 2;
      var more := true;
      while more
        invariant 2 <= len <= MAX_MATCH
        invariant more ==> len < MAX_MATCH && (len - 2) % 8 == 0
                           && forall k :: 3 <= k <= len ==> Agree(window[..], at, scan, k)
        invariant !more ==> len >= 3 && forall k :: 3 <= k < len ==> Agree(window[..], at, scan, k)
        invariant !more && len < MAX_MATCH ==> !Agree(window[..], at, scan, len)
        decreases MAX_MATCH - len, more
      {
        var n, equal := 0, true;
        ghost var start := len;
        while n < 8 && equal
          invariant 0 <= n <= 8 && len == start + n && (n == 0 ==> equal)
          invariant equal ==> forall k :: 3 <= k <= len ==> Agree(window[..], at, scan, k)
          invariant !equal ==> (forall k :: 3 <= k < len ==> Agree(window[..], at, scan, k))
                               && !Agree(window[..], at, scan, len)
        {
          len := len + 1;
          equal := window[at + len] == window[scan + len];
          n := n + 1;
        }
        more := equal && len < MAX_MATCH;
      }
    }

    // cur may be tried against the string at strstart.
    ghost predicate Candidate(cur: nat)
      reads this`strstart, window
    {
      && cur < strstart < WINDOW_SIZE && strstart - cur <= MAX_DIST
      && window.Length == WINDOW_SIZE + SLACK && HashAt(window[..], cur) == HashAt(window[..], strstart)
    }

    // One candidate against the best match so far.
    method Try(cur: nat, bestLen: nat, scanEnd1: uch, scanEnd: uch) returns (len: nat)
      requires Shape() && Candidate(cur) && 1 <= bestLen < MAX_MATCH
      requires scanEnd1 == window[strstart + bestLen - 1] && scanEnd == window[strstart + bestLen]
      ensures len <= MAX_MATCH
      ensures len > bestLen ==> SameRun(window[..], cur, strstart, len)
                                && (len < MAX_MATCH ==> !SameRun(window[..], cur, strstart, len + 1))
      ensures len <= bestLen ==> !SameRun(window[..], cur, strstart, bestLen + 1)
    {
      hide HashAt;
      ghost var w: seq<byte> := window[..];
      if window[cur + bestLen] != scanEnd || window[cur + bestLen - 1] != scanEnd1
         || window[cur] != window[strstart] || window[cur + 1] != window[strstart + 1] {
        assert !Agree(w, cur, strstart, bestLen) || !Agree(w, cur, strstart, bestLen - 1)
               || !Agree(w, cur, strstart, 0) || !Agree(w, cur, strstart, 1);
        return 0;
      }
      len := Compare(cur, strstart);
      RunFrom(w, cur, strstart, len);
    }

    // The next older string of the chain.
    method Older(cur: nat) returns (next: Pos)
      requires Shape() && Chained(strstart + 1) && cur < strstart < WINDOW_SIZE && strstart - cur <= MAX_DIST
      ensures LinkOk(window[..], next, cur)
    {
      next := prev[Slot(cur)];
      assert LinkOk(window[..], prev[..][Slot(cur)], cur);
    }

    // longest_match: the longest run among the strings of the chain, and the latest that has it.
    method LongestMatch(curMatch: nat, prevLength: nat) returns (bestLen: nat)
      requires Shape() && Chained(strstart + 1) && 1 <= prevLength < MAX_MATCH
      requires 0 < curMatch < strstart < WINDOW_SIZE && strstart - curMatch <= MAX_DIST
      requires LinkOk(window[..], curMatch, strstart)
      modifies this`matchStart
      ensures LongestOf(window[..], strstart, 0, prevLength, bestLen, matchStart, old(matchStart))
    {
      hide HashAt, ChainsOk, HeadsOk, SameRun, Rank, NoRun, LinkOk, LongestOf, BestSo;
      var chainLength: nat := if prevLength >= GOOD_MATCH then MAX_CHAIN_LENGTH / 4 else MAX_CHAIN_LENGTH;
      var limit: nat := if strstart > MAX_DIST then strstart - MAX_DIST else 0;
      bestLen := prevLength;
      var scanEnd1, scanEnd := window[strstart + bestLen - 1], window[strstart + bestLen];
      var cur: nat := curMatch;
      ghost var w: seq<byte>, start0 := window[..], matchStart;
      SearchStarts(w, strstart, cur, prevLength, matchStart);
      while true
        invariant Searching(w, strstart, cur, prevLength, bestLen, chainLength, matchStart, start0)
        invariant scanEnd1 == window[strstart + bestLen - 1] && scanEnd == window[strstart + bestLen]
        decreases chainLength
      {
        var len := Try(cur, bestLen, scanEnd1, scanEnd);
        if len > bestLen {
          Improved(w, strstart, cur, prevLength, bestLen, chainLength, matchStart, start0, len);
          matchStart := cur;
          bestLen := len;
          if len >= NICE_MATCH {
            return;
          }
          scanEnd1, scanEnd := window[strstart + bestLen - 1], window[strstart + bestLen];
        }
        var next := Older(cur);
        Passed(w, strstart, cur, next, prevLength, bestLen, chainLength, matchStart, start0);
        cur := next;
        if cur <= limit {
          return;
        }
        chainLength := chainLength - 1;
        if chainLength == 0 {
          return;
        }
      }
    }

    // memset(head, 0, ...)
    method ClearHeads()
      requires Shape()
      modifies head
      ensures forall h :: 0 <= h < HASH_SIZE ==> head[h] == 0
    {
      for n := 0 to HASH_SIZE
        invariant forall h :: 0 <= h < n ==> head[h] == 0
      {
        head[n] := 0;
      }
    }

    // lm_init up to the hash: the first bytes of the input.
    method FirstRead()
      requires Shape() && input.taken == [] && input.rest == input.all
      modifies this, window, head, input
      ensures Filled() && Chained(0) && strstart == 0 && blockStart == 0 && base == 0
      ensures eofile || (lookahead > 0 && |input.rest| < old(|input.rest|))
      ensures |input.rest| + lookahead == old(|input.rest|) && (eofile ==> lookahead == 0)
      ensures eofile && !input.failed ==> input.rest == []
    {
      ClearHeads();
      strstart, blockStart, lookahead, base := 0, 0, 0, 0;
      var chunk := input.Read(WINDOW_SIZE);
      if chunk == [] {
        eofile := true;
        return;
      }
      Take(chunk);
      lookahead := |chunk|;
      eofile := false;
      assert window[..lookahead] == window[0..0 + |chunk|];
    }

    // lm_init
    method Init()
      requires Shape() && input.taken == [] && input.rest == input.all
      modifies this, window, prev, head, input
      ensures Filled() && strstart == 0 && blockStart == 0 && base == 0
              && (input.taken != [] ==> Chained(0) && Ready(0))
      ensures (eofile || lookahead >= MIN_LOOKAHEAD) && (eofile && !input.failed ==> input.rest == [])
      ensures |input.rest| + lookahead == old(|input.rest|)
    {
      FirstRead();
      if eofile {
        return;
      }
      while lookahead < MIN_LOOKAHEAD && !eofile
        invariant Filled() && Chained(0) && strstart == 0 && blockStart == 0 && base == 0
        invariant |input.rest| + lookahead == old(|input.rest|) && (eofile && !input.failed ==> input.rest == [])
        decreases !eofile, |input.rest|
      {
        FillWindow();
      }
      FirstHash();
    }

    // The hash of the first two bytes, whatever they are.
    method FirstHash()
      requires Shape()
      modifies this`insH
      ensures Ready(0)
    {
      insH := 0;
      PrimedStart(insH, window[..], 0);
      for j := 0 to MIN_MATCH - 1
        invariant insH == if j == 0 then 0 else if j == 1 then UpdateHash(0, window[0])
                  else UpdateHash(UpdateHash(0, window[0]), window[1])
      {
        insH := UpdateHash(insH, window[j]);
      }
    }
  }

  lemma {:induction false} SlideSlice(w: seq<byte>, w': seq<byte>, n: nat)
    requires |w| == |w'| >= WINDOW_SIZE && n <= WSIZE && w'[..WSIZE] == w[WSIZE..WINDOW_SIZE]
    ensures w'[..n] == w[WSIZE..WSIZE + n]
  {
    assert w'[..n] == w'[..WSIZE][..n];
  }

  lemma {:induction false} TakenGrows(data: seq<byte>, chunk: seq<byte>, data': seq<byte>, base: nat, a: seq<byte>,
      b: seq<byte>, w: seq<byte>)
    requires base <= |data| && data' == data + chunk && a == data[base..] && b == chunk && |w| == |a| + |b|
             && w[..|a|] == a && w[|a|..] == b
    ensures w == data'[base..]
  {
    assert w == a + b;
  }
}
