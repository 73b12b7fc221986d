/** deflate: lazy matching over the sliding window, into blocks. */
module Deflate {
  import opened Bits
  import opened BitOutput
  import opened MatchHash
  import opened HashChains
  import opened MatchSearch
  import opened Inflate
  import opened BlockEncoding
  import opened BlockStream
  import opened TokenBuffers
  import opened BlockEnds
  import opened BlockCoding
  import opened SlidingWindow
  import opened Lz77
  import opened LazyMatching

  const TOO_FAR := 4096
  const MAX_LAZY_MATCH := 258

  // A match that waits for the next step to be taken or dropped.
  ghost predicate Pending(data: seq<byte>, at: int, from: int, len: nat)
  {
    3 <= len <= MAX_MATCH && 1 <= at - from <= MAX_DIST && MatchAt(data, at, from, len)
  }

  lemma {:induction false} PendingInside(data: seq<byte>, at: int, from: int, len: nat)
    requires Pending(data, at, from, len)
    ensures 0 <= from < at && at + len <= |data|
  {
  }

  lemma {:induction false} PendingGrows(data: seq<byte>, data': seq<byte>, at: int, from: int, len: nat)
    requires Pending(data, at, from, len) && data <= data'
    ensures Pending(data', at, from, len)
  {
    MatchGrows(data, data', at, from, len);
  }

  // What flush_block sends at pos for the tokens: the smallest form, and the data is at hand unless
  // the block has more bytes than the window keeps.
  ghost predicate BlockFor(t: Tables, p: Piece, toks: seq<Token>, pos: nat, last: bool)
  {
    exists h: Dynamic, data: Option<seq<byte>> ::
      SmallestOf(t, h, p, data, Covered(toks), toks, pos, last) && (data.None? ==> Covered(toks) > 32506)
  }

  // The tokens, one stretch for each block, which goes on until ct_tally asks for it to be flushed.
  ghost predicate Divides(t: Tables, pieces: seq<Piece>, toks: seq<Token>)
  {
    if pieces == [] then
      toks == []
    else
      var front := pieces[..|pieces| - 1];
      exists k: nat :: k <= |toks| && Filled(t, toks[k..]) && Unfilled(t, toks[k..])
                       && BlockFor(t, pieces[|pieces| - 1], toks[k..], |PieceBits(front)|, false)
                       && Divides(t, front, toks[..k])
  }

  // The same with the last block, which holds the rest.
  ghost predicate Divided(t: Tables, pieces: seq<Piece>, p: Piece, toks: seq<Token>)
  {
    exists k: nat :: k <= |toks| && Unfilled(t, toks[k..]) && BlockFor(t, p, toks[k..], |PieceBits(pieces)|, true)
                     && Divides(t, pieces, toks[..k])
  }

  // The tokens buffered are the last ones, those before are in the blocks.
  ghost predicate Blocks(t: Tables, pieces: seq<Piece>, tallied: seq<Token>, buf: seq<Token>)
  {
    && |buf| <= |tallied| && tallied[|tallied| - |buf|..] == buf && Unfilled(t, buf)
    && Divides(t, pieces, tallied[..|tallied| - |buf|])
  }

  lemma {:induction false} BlocksTally(tables: Tables, pieces: seq<Piece>, tallied: seq<Token>, buf: seq<Token>,
      t: Token)
    requires Blocks(tables, pieces, tallied, buf) && !Filled(tables, buf)
    ensures Blocks(tables, pieces, tallied + [t], buf + [t])
  {
    hide Divides, Unfilled, Filled;
    UnfilledSnoc(tables, buf, t);
    var n := |tallied| - |buf|;
    assert (tallied + [t])[n..] == buf + [t];
    assert (tallied + [t])[..n] == tallied[..n];
  }

  lemma {:induction false} BlocksFlushed(t: Tables, pieces: seq<Piece>, tallied: seq<Token>, buf: seq<Token>, p: Piece,
      last: bool)
    requires Blocks(t, pieces, tallied, buf) && BlockFor(t, p, buf, |PieceBits(pieces)|, last)
    requires !last ==> Filled(t, buf)
    ensures if last then Divided(t, pieces, p, tallied) else Blocks(t, pieces + [p], tallied, [])
  {
    hide BlockFor, Filled;
    var n, all: seq<Piece> := |tallied| - |buf|, pieces + [p];
    assert all[..|all| - 1] == pieces && tallied[..|tallied|] == tallied && tallied[|tallied|..] == [];
    assert BlockFor(t, p, tallied[n..], |PieceBits(pieces)|, last);
    assert n <= |tallied| && Divides(t, pieces, tallied[..n]);
  }

  class Deflater {
    const win: Window
    const coder: BlockCoder
    const input: Input
    ghost var tallied: seq<Token>   // all that went to ct_tally
    ghost var turns: seq<Turn>      // all rounds of the main loop

    constructor (input: Input, w: BitWriter)
      requires w.Valid() && w.biValid == 0
      ensures Shape() && this.input == input && fresh(win) && fresh(win.window) && fresh(win.prev) && fresh(win.head)
              && fresh(coder)
      ensures coder.Valid() && coder.w == w && coder.pieces == [] && coder.buf.toks == [] && coder.head == w.stream
      ensures tallied == [] && turns == [] && forall o :: o in coder.repr ==> o == w || o == w.outbuf || fresh(o)
    {
      this.input, tallied, turns := input, [], [];
      win := new Window(input);
      coder := new BlockCoder(w);
    }

    ghost predicate Shape()
    {
      && win.input == input && win.Shape()
      && win !in coder.repr && win.window !in coder.repr && win.prev !in coder.repr && win.head !in coder.repr
         && input !in coder.repr && this !in coder.repr
    }

    ghost predicate WindowOk(ins: nat)
      reads win`strstart, win`lookahead, win`base, win`insH, win.window, win.prev, win.head, input, win.input
    {
      win.Filled() && (input.taken != [] ==> win.Chained(ins) && win.Ready(ins))
    }

    // The window holds the data, strstart is position at, and the strings before ins are in
    // the hash table.
    ghost predicate WindowIn(data: seq<byte>, at: int, ins: nat)
      reads win`strstart, win`lookahead, win`base, win`insH, win.window, win.prev, win.head, input, win.input
    {
      && Shape() && data == input.taken && at == win.base + win.strstart && |data| == at + win.lookahead
      && forall k {:trigger Open(k)} :: Open(k) ==> WindowOk(ins)
    }

    // The searches so far, and what became of them.
    ghost predicate Logged(data: seq<byte>, at: int, avail: bool, matchLength: nat)
      reads this`tallied, this`turns, win`base, win`matchStart
    {
      LogOk(data, turns, tallied, at, avail, matchLength, win.base + win.matchStart)
    }

    // q is the chain entry before strstart.
    ghost predicate Linked(q: nat)
      reads win`strstart, win.window
    {
      forall k {:trigger Open(k)} :: Open(k) ==> LinkOk(win.window[..], q, win.strstart)
    }

    lemma {:induction false} Opened(data: seq<byte>, at: int, ins: nat)
      requires WindowIn(data, at, ins)
      ensures WindowOk(ins)
    {
      assert Open(0);
    }

    lemma {:induction false} Closing(data: seq<byte>, at: int, ins: nat)
      requires Shape() && data == input.taken && at == win.base + win.strstart && |data| == at + win.lookahead
               && WindowOk(ins)
      ensures WindowIn(data, at, ins)
    {
    }

    lemma {:induction false} Placed(data: seq<byte>, at: int, ins: nat)
      requires WindowIn(data, at, ins)
      ensures at == win.base + win.strstart && |data| == at + win.lookahead && Shape()
    {
    }

    // The hash table with the string at strstart in it.
    ghost function Table(): seq<nat>
      reads win`strstart, win.window, win.head
    {
      WithString(win.window[..], win.head[..], win.strstart)
    }

    // INSERT_STRING at strstart.
    method Insert(ghost data: seq<byte>, ghost at: int) returns (hashHead: Pos)
      requires WindowIn(data, at, win.strstart) && win.lookahead > 0
      modifies win`insH, win.prev, win.head
      ensures WindowIn(data, at, win.strstart + 1) && Linked(hashHead)
      ensures win.head[..] == old(Table()) && hashHead == old(EntryAt(win.window[..], win.head[..], win.strstart))
    {
      hide ChainsOk, HeadsOk, Primed, LinkOk, HashAt;
      Opened(data, at, win.strstart);
      ghost var ins := win.strstart + 1;
      hashHead := win.InsertString(win.strstart);
      assert win.Filled();
      assert win.Chained(ins) && win.Ready(ins);
      Closing(data, at, ins);
    }

    // The string at strstart is in the hash table: is there a longer match than the last one?
    method Search(hashHead: Pos, prevLength: nat, ghost data: seq<byte>, ghost at: nat) returns (matchLength: nat)
      requires WindowIn(data, at, win.strstart + 1) && win.lookahead > 0 && Linked(hashHead)
               && 1 <= prevLength <= MAX_MATCH
      modifies win`matchStart
      ensures WindowIn(data, at, win.strstart + 1) && 1 <= matchLength <= MAX_MATCH
      ensures Searched(data, Turn(at, win.base, prevLength, matchLength, win.base + win.matchStart))
    {
      hide Searched, Deflater.Looked, Deflater.Found, Deflater.Linked, Kept, Window.Filled, LinkOk;
      ghost var start0 := win.matchStart;
      matchLength := MIN_MATCH - 1;
      if hashHead != 0 && prevLength < MAX_LAZY_MATCH && win.strstart - hashHead <= MAX_DIST {
        matchLength := FindRun(hashHead, prevLength, data, at);
        ghost var best := matchLength;
        if matchLength > win.lookahead {
          matchLength := win.lookahead;
        }
        if matchLength == MIN_MATCH && win.strstart - win.matchStart > TOO_FAR {
          matchLength := matchLength - 1;
        }
        IsKept(best, win.lookahead, win.strstart - win.matchStart, matchLength);
        FoundAt(hashHead, prevLength, best, matchLength, start0);
      } else {
        NotSearched(hashHead, prevLength, start0);
      }
      InData(hashHead, prevLength, matchLength, start0, data, at);
    }

    // longest_match, for a chain entry that is not too far away.
    method FindRun(hashHead: Pos, prevLength: nat, ghost data: seq<byte>, ghost at: nat) returns (best: nat)
      requires WindowIn(data, at, win.strstart + 1) && win.lookahead > 0 && Linked(hashHead)
               && 1 <= prevLength < MAX_MATCH
      requires hashHead != 0 && win.strstart - hashHead <= MAX_DIST
      modifies win`matchStart
      ensures Found(prevLength, best, old(win.matchStart)) && prevLength <= best <= MAX_MATCH
    {
      assert Open(0);
      best := win.LongestMatch(hashHead, prevLength);
    }

    // The longest run in the window.
    ghost predicate Found(prevLength: nat, best: nat, start0: int)
      reads win`strstart, win`matchStart, win.window
    {
      forall k {:trigger Open(k)} :: Open(k) ==>
        LongestOf(win.window[..], win.strstart, 0, prevLength, best, win.matchStart, start0)
    }

    // The outcome of the search in the window.
    ghost predicate Looked(hashHead: nat, prevLength: nat, length: nat, start0: int)
      reads win`strstart, win`lookahead, win`matchStart, win.window
    {
      forall k {:trigger Open(k)} :: Open(k) ==>
        Outcome(win.window[..], win.strstart, win.lookahead, hashHead, prevLength, length, win.matchStart, start0)
    }

    lemma {:induction false} FoundAt(hashHead: nat, prevLength: nat, best: nat, length: nat, start0: int)
      requires Found(prevLength, best, start0)
      requires hashHead != 0 && prevLength < MAX_LAZY_MATCH && win.strstart - hashHead <= MAX_DIST
      requires length == Kept(best, win.lookahead, win.strstart - win.matchStart)
      ensures Looked(hashHead, prevLength, length, start0)
    {
      hide LongestOf;
      assert Open(0);
    }

    lemma {:induction false} NotSearched(hashHead: nat, prevLength: nat, start0: int)
      requires !(hashHead != 0 && prevLength < MAX_LAZY_MATCH && win.strstart - hashHead <= MAX_DIST)
      requires win.matchStart == start0
      ensures Looked(hashHead, prevLength, MIN_MATCH - 1, start0)
    {
    }

    // The search in the window is a search in the data.
    lemma {:induction false} InData(hashHead: nat, prevLength: nat, length: nat, start0: int, data: seq<byte>, at: nat)
      requires WindowIn(data, at, win.strstart + 1) && win.lookahead > 0 && Linked(hashHead)
      requires Looked(hashHead, prevLength, length, start0)
      ensures Searched(data, Turn(at, win.base, prevLength, length, win.base + win.matchStart))
    {
      hide ChainsOk, HeadsOk, Primed, LinkOk, Outcome, Searched;
      Opened(data, at, win.strstart + 1);
      assert Open(0);
      var t := Turn(at, win.base, prevLength, length, win.base + win.matchStart);
      OutcomeShown(win.window[..], data, win.base, win.strstart + win.lookahead, win.strstart, hashHead,
                   win.matchStart, start0, t);
    }

    // Insert all strings up to the end of a match of the given length that began at strstart - 1.
    method SkipMatch(length: nat, ghost data: seq<byte>, ghost at: int)
      requires WindowIn(data, at, win.strstart + 1) && MIN_MATCH <= length <= MAX_MATCH && length - 1 <= win.lookahead
      modifies win`strstart, win`lookahead, win`insH, win.prev, win.head
      ensures WindowIn(data, at + length - 1, win.strstart)
      ensures win.strstart == old(win.strstart) + length - 1 && win.lookahead == old(win.lookahead) - (length - 1)
    {
      hide ChainsOk, HeadsOk, Primed;
      assert Open(0);
      win.lookahead := win.lookahead - (length - 1);
      var prevLength: nat := length - 2;
      ghost var start := win.strstart;
      while prevLength != 0
        invariant win.strstart == start + (length - 2 - prevLength) && prevLength <= length - 2
        invariant win.Chained(win.strstart + 1) && win.Ready(win.strstart + 1)
        invariant win.lookahead == old(win.lookahead) - (length - 1)
      {
        win.strstart := win.strstart + 1;
        var hashHead := win.InsertString(win.strstart);
        prevLength := prevLength - 1;
      }
      win.strstart := win.strstart + 1;
    }

    // One more byte of lookahead is behind strstart.
    method Forward(ghost data: seq<byte>, ghost at: int)
      requires WindowIn(data, at, win.strstart + 1) && win.lookahead > 0
      modifies win`strstart, win`lookahead
      ensures WindowIn(data, at + 1, win.strstart) && win.strstart == old(win.strstart) + 1
              && win.lookahead == old(win.lookahead) - 1
    {
      assert Open(0);
      win.strstart := win.strstart + 1;
      win.lookahead := win.lookahead - 1;
    }

    // Enough lookahead, except at the end of the input.
    method Refill(ghost data: seq<byte>, ghost at: int) returns (ghost data': seq<byte>)
      requires WindowIn(data, at, win.strstart) && (win.eofile || 2 <= win.lookahead)
      requires win.eofile && !input.failed ==> input.rest == []
      modifies win`strstart, win`lookahead, win`matchStart, win`blockStart, win`base, win`eofile, win.window,
               win.prev, win.head, input
      ensures data <= data' && WindowIn(data', at, win.strstart) && (win.eofile || win.lookahead >= MIN_LOOKAHEAD)
      ensures win.base + win.matchStart == old(win.base + win.matchStart)
              && win.base + win.blockStart == old(win.base + win.blockStart)
      ensures |input.rest| + win.lookahead == old(|input.rest| + win.lookahead)
              && (old(win.strstart) == 0 <==> win.strstart == 0)
      ensures (win.eofile && !input.failed ==> input.rest == []) && (old(input.failed) ==> input.failed)
      ensures old(win.eofile) ==> data' == data
      ensures old(win.eofile || win.strstart < WSIZE + MAX_DIST)
              ==> win.base == old(win.base) && win.head[..] == old(win.head[..])
    {
      assert Open(0);
      data' := data;
      while win.lookahead < MIN_LOOKAHEAD && !win.eofile
        invariant data <= data' && data' == input.taken && win.base + win.strstart == at && WindowOk(win.strstart)
        invariant (win.eofile || 2 <= win.lookahead) && (old(win.eofile) ==> win.eofile && data' == data)
        invariant win.base + win.matchStart == old(win.base + win.matchStart)
                  && win.base + win.blockStart == old(win.base + win.blockStart)
        invariant |input.rest| + win.lookahead == old(|input.rest| + win.lookahead)
                  && (old(win.strstart) == 0 <==> win.strstart == 0)
        invariant (win.eofile && !input.failed ==> input.rest == []) && (old(input.failed) ==> input.failed)
        invariant old(win.eofile || win.strstart < WSIZE + MAX_DIST)
                  ==> win.base == old(win.base) && win.head[..] == old(win.head[..])
        decreases !win.eofile, |input.rest|
      {
        win.FillWindow();
        data' := input.taken;
      }
    }

    // A block that stands for data[blk..at].
    method FlushData(block: Option<seq<byte>>, storedLen: nat, eof: bool, ghost data: seq<byte>, ghost blk: int,
        ghost at: int)
      returns (ghost p: Piece, ghost pad: seq<bool>)
      requires coder.Valid() && Coded(data, blk, at, coder.pieces, coder.buf.toks) && this !in coder.repr
      requires Blocks(coder.t, coder.pieces, tallied, coder.buf.toks) && (!eof ==> Filled(coder.t, coder.buf.toks))
      requires storedLen == at - blk
      requires if block.Some? then block.value == data[blk..at] else storedLen > 32506
      modifies coder, coder.repr
      ensures coder.head == old(coder.head) && tallied == old(tallied)
      ensures !eof ==> coder.Valid() && coder.buf.toks == [] && Coded(data, at, at, coder.pieces, [])
      ensures eof ==> coder.Closed(p, pad) && StandsFor(PieceTokens(coder.pieces) + p.toks, data[..at])
      ensures if eof then Divided(coder.t, coder.pieces, p, tallied) else Blocks(coder.t, coder.pieces, tallied, [])
    {
      ghost var pieces, toks := coder.pieces, coder.buf.toks;
      assert Coded(data, blk, at, pieces, toks);
      var len;
      ghost var h;
      len, p, pad, h := coder.FlushBlock(block, storedLen, eof);
      CarriesSmallest(coder.t, h, p, block, storedLen, toks, |PieceBits(pieces)|, eof);
      BlockFlushed(data, blk, at, pieces, toks, p, block);
      BlockLength(data, blk, at, pieces, toks);
      assert BlockFor(coder.t, p, toks, |PieceBits(pieces)|, eof);
      BlocksFlushed(coder.t, pieces, tallied, toks, p, eof);
    }

    // The bytes of the block, if they are all in the window.
    method Block(ghost data: seq<byte>, ghost blk: int, ghost at: int, ghost ins: nat)
      returns (block: Option<seq<byte>>)
      requires WindowIn(data, at, ins) && 0 <= blk == win.base + win.blockStart <= at
      ensures if block.Some? then block.value == data[blk..at] else at - blk > 32506
    {
      assert Open(0);
      block := None;
      if win.blockStart >= 0 {
        block := Some(win.window[win.blockStart..win.strstart]);
        SliceOfData(win.window[..], data, win.base, win.blockStart, win.strstart, win.strstart + win.lookahead);
      }
    }

    // FLUSH_BLOCK: the block ends at strstart.
    method Flush(eof: bool, ghost data: seq<byte>, ghost blk: int, ghost at: int, ghost ins: nat)
      returns (ghost p: Piece, ghost pad: seq<bool>)
      requires WindowIn(data, at, ins) && blk == win.base + win.blockStart
      requires coder.Valid() && Coded(data, blk, at, coder.pieces, coder.buf.toks)
      requires Blocks(coder.t, coder.pieces, tallied, coder.buf.toks) && (!eof ==> Filled(coder.t, coder.buf.toks))
      modifies coder, coder.repr
      ensures coder.head == old(coder.head) && tallied == old(tallied)
      ensures !eof ==> coder.Valid() && coder.buf.toks == [] && Coded(data, at, at, coder.pieces, [])
      ensures eof ==> coder.Closed(p, pad) && StandsFor(PieceTokens(coder.pieces) + p.toks, data[..at])
      ensures if eof then Divided(coder.t, coder.pieces, p, tallied) else Blocks(coder.t, coder.pieces, tallied, [])
    {
      Placed(data, at, ins);
      var block := Block(data, blk, at, ins);
      p, pad := FlushData(block, win.strstart - win.blockStart, eof, data, blk, at);
    }

    // The blocks sent and the tokens buffered stand for data[..at], as do all tokens so far, and
    // there may be room for one more.
    ghost predicate CoderAt(data: seq<byte>, blk: int, at: int, room: bool)
      reads coder, coder.repr, coder.buf, this`tallied
    {
      forall k {:trigger Ajar(k)} :: Ajar(k) ==>
        coder.Valid() && Coded(data, blk, at, coder.pieces, coder.buf.toks) && StandsFor(tallied, data[..at])
          && Blocks(coder.t, coder.pieces, tallied, coder.buf.toks)
             && (room ==> |coder.buf.toks| + 1 < LIT_BUFSIZE && !Filled(coder.t, coder.buf.toks))
    }

    lemma {:induction false} CoderIs(data: seq<byte>, blk: int, at: int, room: bool)
      requires CoderAt(data, blk, at, room)
      ensures coder.Valid() && Coded(data, blk, at, coder.pieces, coder.buf.toks) && StandsFor(tallied, data[..at])
              && Blocks(coder.t, coder.pieces, tallied, coder.buf.toks)
      ensures room ==> |coder.buf.toks| + 1 < LIT_BUFSIZE && !Filled(coder.t, coder.buf.toks)
    {
      assert Ajar(0);
    }

    lemma {:induction false} CoderFrom(data: seq<byte>, blk: int, at: int, room: bool)
      requires coder.Valid() && Coded(data, blk, at, coder.pieces, coder.buf.toks) && StandsFor(tallied, data[..at])
               && Blocks(coder.t, coder.pieces, tallied, coder.buf.toks)
      requires room ==> |coder.buf.toks| + 1 < LIT_BUFSIZE && !Filled(coder.t, coder.buf.toks)
      ensures CoderAt(data, blk, at, room)
    {
      hide Coded, StandsFor, Blocks, Filled, BlockCoder.Valid;
    }

    lemma {:induction false} FilledNow(toks: seq<Token>, tok: Token, n: int)
      requires coder.buf.toks == toks + [tok] && Covered(toks) == n
      ensures Filled(coder.t, coder.buf.toks) == Wants(coder.t, coder.buf.toks, n + 1)
    {
      hide Wants;
      assert coder.buf.toks[..|toks|] == toks;
    }

    // ct_tally leaves the window alone.
    method Tally(dist: nat, lc: byte, ghost data: seq<byte>, ghost at: int, ghost ins: nat) returns (flush: bool)
      requires WindowIn(data, at, ins) && coder.Valid() && |coder.buf.toks| + 1 < LIT_BUFSIZE && dist <= 32768
      modifies coder, coder.repr, this`tallied
      ensures WindowIn(data, at, ins)
      ensures coder.Valid()
              && coder.buf.toks == old(coder.buf.toks) + [if dist == 0 then Literal(lc) else Match(lc + 3, dist)]
      ensures tallied == old(tallied) + [if dist == 0 then Literal(lc) else Match(lc + 3, dist)]
      ensures (!flush ==> |coder.buf.toks| + 1 < LIT_BUFSIZE) && coder.pieces == old(coder.pieces)
              && coder.head == old(coder.head)
      ensures flush == Wants(coder.t, coder.buf.toks, win.strstart - win.blockStart)
    {
      flush := coder.Tally(dist, lc, win.strstart - win.blockStart);
      tallied := tallied + [if dist == 0 then Literal(lc) else Match(lc + 3, dist)];
    }

    method TallyLiteral(c: byte, ghost data: seq<byte>, ghost blk: int, ghost at: int, ghost cur: int, ghost ins: nat)
      returns (flush: bool)
      requires WindowIn(data, cur, ins) && CoderAt(data, blk, at, true) && 0 <= at < |data| && c == data[at]
      requires cur == at + 1 && blk == win.base + win.blockStart
      modifies coder, coder.repr, this`tallied
      ensures WindowIn(data, cur, ins) && CoderAt(data, blk, at + 1, !flush) && coder.head == old(coder.head)
      ensures tallied == old(tallied) + [Literal(data[at])] && flush == Filled(coder.t, coder.buf.toks)
    {
      hide Coded, StandsFor, Blocks, Filled, Wants, BlockCoder.Valid, Deflater.CoderAt;
      CoderIs(data, blk, at, true);
      ghost var toks, tok := coder.buf.toks, Literal(data[at]);
      CodedLiteral(data, blk, at, coder.pieces, toks);
      LogLiteral(data, at, tallied);
      BlocksTally(coder.t, coder.pieces, tallied, toks, tok);
      BlockLength(data, blk, at, coder.pieces, toks);
      Placed(data, cur, ins);
      flush := Tally(0, c, data, cur, ins);
      FilledNow(toks, tok, at - blk);
      CoderFrom(data, blk, at + 1, !flush);
    }

    method TallyMatch(dist: nat, length: nat, ghost data: seq<byte>, ghost blk: int, ghost at: int, ghost cur: int,
        ghost ins: nat) returns (flush: bool)
      requires WindowIn(data, cur, ins) && CoderAt(data, blk, at, true) && Pending(data, at, at - dist, length)
      requires cur == at + 1 && blk == win.base + win.blockStart
      modifies coder, coder.repr, this`tallied
      ensures WindowIn(data, cur, ins) && CoderAt(data, blk, at + length, !flush) && coder.head == old(coder.head)
      ensures tallied == old(tallied) + [Match(length, dist)] && flush == Filled(coder.t, coder.buf.toks)
    {
      hide Coded, StandsFor, Blocks, Filled, Wants, BlockCoder.Valid, Deflater.CoderAt, MatchAt;
      CoderIs(data, blk, at, true);
      ghost var toks, tok := coder.buf.toks, Match(length, dist);
      PendingInside(data, at, at - dist, length);
      CodedMatch(data, blk, at, coder.pieces, toks, length, dist);
      LogMatch(data, at, tallied, length, dist);
      BlocksTally(coder.t, coder.pieces, tallied, toks, tok);
      BlockLength(data, blk, at, coder.pieces, toks);
      Placed(data, cur, ins);
      flush := Tally(dist, length - MIN_MATCH, data, cur, ins);
      FilledNow(toks, tok, at - blk);
      CoderFrom(data, blk, at + length, !flush);
    }

    // The block is flushed when ct_tally asked for it.
    method FlushIf(flush: bool, ghost data: seq<byte>, ghost blk: int, ghost at: int, ghost ins: nat)
      requires WindowIn(data, at, ins) && blk == win.base + win.blockStart && CoderAt(data, blk, at, !flush)
      requires flush ==> Filled(coder.t, coder.buf.toks)
      modifies coder, coder.repr, win`blockStart
      ensures WindowIn(data, at, ins) && CoderAt(data, win.base + win.blockStart, at, true)
              && coder.head == old(coder.head) && tallied == old(tallied)
    {
      hide Divides, Coded, StandsFor, LinkOk, Deflater.CoderAt, Blocks, BlockCoder.Valid, Wants;
      if flush {
        CoderIs(data, blk, at, false);
        ghost var p, pad := Flush(false, data, blk, at, ins);
        CoderFrom(data, at, at, true);
        StartBlock(data, at, ins);
      }
    }

    method StartBlock(ghost data: seq<byte>, ghost at: int, ghost ins: nat)
      requires WindowIn(data, at, ins)
      modifies win`blockStart
      ensures WindowIn(data, at, ins) && win.blockStart == win.strstart && win.base + win.blockStart == at
    {
      assert Open(0);
      win.blockStart := win.strstart;
    }

    // The first branch of deflate: the previous match is taken.
    method EmitMatch(prevLength: nat, prevMatch: int, ghost data: seq<byte>, ghost blk: int, ghost at: int)
      requires WindowIn(data, at + 1, win.strstart + 1) && blk == win.base + win.blockStart
      requires CoderAt(data, blk, at, true) && Pending(data, at, win.base + prevMatch, prevLength)
      modifies coder, coder.repr, win`strstart, win`lookahead, win`insH, win`blockStart, win.prev, win.head,
               this`tallied
      ensures WindowIn(data, at + prevLength, win.strstart)
              && CoderAt(data, win.base + win.blockStart, at + prevLength, true)
      ensures win.lookahead == old(win.lookahead) - (prevLength - 1) && win.strstart > 0
              && coder.head == old(coder.head)
      ensures tallied == old(tallied) + [Match(prevLength, at - (win.base + prevMatch))]
    {
      hide Deflater.CoderAt, Filled, MatchAt;
      PendingInside(data, at, win.base + prevMatch, prevLength);
      var flush := TallyMatch(win.strstart - 1 - prevMatch, prevLength, data, blk, at, at + 1, win.strstart + 1);
      SkipMatch(prevLength, data, at + 1);
      FlushIf(flush, data, blk, at + prevLength, win.strstart);
    }

    // window[strstart - 1]
    method Previous(ghost data: seq<byte>, ghost at: int, ghost ins: nat) returns (c: byte)
      requires WindowIn(data, at, ins) && win.strstart > 0
      ensures 0 < at <= |data| && c == data[at - 1]
    {
      assert Open(0);
      PreviousByte(win.window[..], data, win.base, win.strstart, win.strstart + win.lookahead);
      c := win.window[win.strstart - 1];
    }

    // The second branch: the previous byte is a literal.
    method EmitLiteral(ghost data: seq<byte>, ghost blk: int, ghost at: int)
      requires WindowIn(data, at + 1, win.strstart + 1) && win.lookahead > 0 && win.strstart > 0 && 0 <= at < |data|
      requires blk == win.base + win.blockStart && CoderAt(data, blk, at, true)
      modifies coder, coder.repr, win`strstart, win`lookahead, win`blockStart, this`tallied
      ensures WindowIn(data, at + 2, win.strstart) && CoderAt(data, win.base + win.blockStart, at + 1, true)
      ensures win.head[..] == old(win.head[..])
      ensures win.lookahead == old(win.lookahead) - 1 && win.strstart == old(win.strstart) + 1
              && coder.head == old(coder.head) && tallied == old(tallied) + [Literal(data[at])]
    {
      hide Deflater.CoderAt, Filled;
      var c := Previous(data, at + 1, win.strstart + 1);
      var flush := TallyLiteral(c, data, blk, at, at + 1, win.strstart + 1);
      FlushIf(flush, data, blk, at + 1, win.strstart + 1);
      GoForward(data, at + 1, at + 1);
    }

    // The same next to the coder.
    method GoForward(ghost data: seq<byte>, ghost at: int, ghost done: int)
      requires WindowIn(data, at, win.strstart + 1) && win.lookahead > 0
               && CoderAt(data, win.base + win.blockStart, done, true)
      modifies win`strstart, win`lookahead
      ensures WindowIn(data, at + 1, win.strstart) && CoderAt(data, win.base + win.blockStart, done, true)
      ensures win.strstart == old(win.strstart) + 1 && win.lookahead == old(win.lookahead) - 1
              && coder.head == old(coder.head)
    {
      hide Deflater.CoderAt;
      ghost var blk := win.base + win.blockStart;
      Forward(data, at);
      assert CoderAt(data, blk, done, true);
    }

    // A match is pending only behind a byte that is not yet coded.
    ghost predicate Waiting(data: seq<byte>, at: int, avail: bool, matchLength: nat)
      reads win`strstart, win`base, win`matchStart
    {
      && 1 <= matchLength <= MAX_MATCH && (avail ==> win.strstart > 0)
      && (matchLength >= MIN_MATCH ==> avail && Pending(data, at - 1, win.base + win.matchStart, matchLength))
    }

    // The string at strstart is inserted and searched for; the coder is not involved.
    method Look(prevLength: nat, ghost data: seq<byte>, ghost at: nat, ghost blk: int, ghost done: int)
      returns (matchLength: nat)
      requires WindowIn(data, at, win.strstart) && win.lookahead > 0 && CoderAt(data, blk, done, true)
               && 1 <= prevLength <= MAX_MATCH
      modifies win`matchStart, win`insH, win.prev, win.head
      ensures WindowIn(data, at, win.strstart + 1) && CoderAt(data, blk, done, true) && 1 <= matchLength <= MAX_MATCH
      ensures Searched(data, Turn(at, win.base, prevLength, matchLength, win.base + win.matchStart))
      ensures coder.head == old(coder.head) && win.head[..] == old(Table())
    {
      hide Searched;
      var hashHead := Insert(data, at);
      assert CoderAt(data, blk, done, true);
      matchLength := Search(hashHead, prevLength, data, at);
    }

    // The body of the main loop of deflate, up to the refill.
    method Step(avail: bool, matchLength: nat, ghost data: seq<byte>, ghost at: nat)
      returns (avail': bool, matchLength': nat, ghost at': nat)
      requires WindowIn(data, at, win.strstart) && win.lookahead > 0 && Waiting(data, at, avail, matchLength)
      requires CoderAt(data, win.base + win.blockStart, if avail then at - 1 else at, true)
      requires Logged(data, at, avail, matchLength)
      modifies coder, coder.repr, win`strstart, win`lookahead, win`matchStart, win`insH, win`blockStart, win.prev,
               win.head, this`tallied, this`turns
      ensures WindowIn(data, at', win.strstart) && Waiting(data, at', avail', matchLength')
      ensures CoderAt(data, win.base + win.blockStart, if avail' then at' - 1 else at', true)
              && coder.head == old(coder.head)
      ensures old(win.lookahead) - MAX_MATCH < win.lookahead < old(win.lookahead)
      ensures matchLength < MIN_MATCH ==> at' == at + 1 && win.head[..] == old(Table())
      ensures Logged(data, at', avail', matchLength')
      ensures |turns| == |old(turns)| + 1 && turns[..|old(turns)|] == old(turns) && turns[|old(turns)|].at == at
    {
      hide Deflater.CoderAt, Deflater.Table, Deflater.WindowIn, Pending, Searched, LogOk, Turned;
      var prevLength, prevMatch := matchLength, win.matchStart;
      ghost var toks, from := tallied, win.base + prevMatch;
      matchLength' := Look(prevLength, data, at, win.base + win.blockStart, if avail then at - 1 else at);
      ghost var t := Turn(at, win.base, prevLength, matchLength', win.base + win.matchStart);
      WaitsNext(data, t);
      Placed(data, at, win.strstart + 1);
      if prevLength >= MIN_MATCH && matchLength' <= prevLength {
        EmitMatch(prevLength, prevMatch, data, win.base + win.blockStart, at - 1);
        avail', matchLength', at' := false, MIN_MATCH - 1, at - 1 + prevLength;
      } else if avail {
        EmitLiteral(data, win.base + win.blockStart, at - 1);
        avail', at' := true, at + 1;
      } else {
        GoForward(data, at, at);
        avail', at' := true, at + 1;
      }
      Log(data, at, avail, prevLength, from, toks, t, avail', matchLength', at');
    }

    // The round is added to the log.
    ghost method Log(data: seq<byte>, at: nat, avail: bool, matchLength: nat, from: int, toks: seq<Token>, t: Turn,
        avail': bool, matchLength': nat, at': nat)
      requires LogOk(data, turns, toks, at, avail, matchLength, from) && Searched(data, t)
      requires t.at == at && t.low == matchLength
               && (matchLength >= MIN_MATCH ==> Pending(data, at - 1, from, matchLength))
      requires t.from == win.base + win.matchStart && (avail ==> 0 < at <= |data|)
      requires if matchLength >= MIN_MATCH && t.len <= matchLength then
                 !avail' && matchLength' == MIN_MATCH - 1 && at' == at - 1 + matchLength
                 && tallied == toks + [Match(matchLength, at - 1 - from)]
               else
                 avail' && matchLength' == t.len && at' == at + 1
                 && tallied == if avail then toks + [Literal(data[at - 1])] else toks
      modifies this`turns
      ensures turns == old(turns) + [t] && Logged(data, at', avail', matchLength')
    {
      hide Searched, LogOk, MatchAt;
      var z := Turned(data, Lazy(at, avail, matchLength, from, toks), t);
      LogNext(data, turns, toks, at, avail, matchLength, from, t, z);
      turns := turns + [t];
      LogFrom(data, turns, z.toks, z.at, z.avail, z.len, z.from, win.base + win.matchStart);
    }

    // A match that has just been found is pending.
    lemma {:induction false} WaitsNext(data: seq<byte>, t: Turn)
      requires Searched(data, t)
      ensures t.len >= MIN_MATCH && t.len > t.low ==> Pending(data, t.at, t.from, t.len)
    {
      hide NoMatch, MatchAt, Rank, Miss;
    }

    lemma {:induction false} CoderGrows(data: seq<byte>, data': seq<byte>, blk: int, at: int, room: bool)
      requires CoderAt(data, blk, at, room) && data <= data'
      ensures CoderAt(data', blk, at, room)
    {
      assert Ajar(0);
      CodedGrows(data, data', blk, at, coder.pieces, coder.buf.toks);
      assert data'[..at] == data[..at];
    }

    // More lookahead, next to the coder.
    method RefillBy(ghost data: seq<byte>, ghost at: int, ghost blk: int, ghost done: int)
      returns (ghost data': seq<byte>)
      requires WindowIn(data, at, win.strstart) && (win.eofile || 2 <= win.lookahead)
      requires win.eofile && !input.failed ==> input.rest == []
      requires CoderAt(data, blk, done, true)
      modifies win`strstart, win`lookahead, win`matchStart, win`blockStart, win`base, win`eofile, win.window,
               win.prev, win.head, input
      ensures data <= data' && WindowIn(data', at, win.strstart) && (win.eofile || win.lookahead >= MIN_LOOKAHEAD)
      ensures CoderAt(data', blk, done, true)
      ensures win.base + win.matchStart == old(win.base + win.matchStart)
              && win.base + win.blockStart == old(win.base + win.blockStart)
      ensures |input.rest| + win.lookahead == old(|input.rest| + win.lookahead)
              && (old(win.strstart) == 0 <==> win.strstart == 0)
      ensures (win.eofile && !input.failed ==> input.rest == []) && (old(input.failed) ==> input.failed)
      ensures old(win.eofile) ==> data' == data
      ensures old(win.eofile || win.strstart < WSIZE + MAX_DIST)
              ==> win.base == old(win.base) && win.head[..] == old(win.head[..])
    {
      data' := Refill(data, at);
      CoderGrows(data, data', blk, done, true);
    }

    // All data is in the window or coded.
    ghost predicate Running(data: seq<byte>, at: int, avail: bool, matchLength: nat)
      reads win, win.window, win.prev, win.head, input, win.input, coder, coder.repr, coder.buf, this`tallied,
            this`turns
    {
      && at >= 0 && Logged(data, at, avail, matchLength)
      && WindowIn(data, at, win.strstart) && Waiting(data, at, avail, matchLength)
      && CoderAt(data, win.base + win.blockStart, if avail then at - 1 else at, true)
      && (win.eofile || win.lookahead >= MIN_LOOKAHEAD) && (win.eofile && !input.failed ==> input.rest == [])
    }

    // One round of the main loop.
    method Round(avail: bool, matchLength: nat, ghost data: seq<byte>, ghost at: int)
      returns (avail': bool, matchLength': nat, ghost data': seq<byte>, ghost at': int)
      requires Running(data, at, avail, matchLength) && win.lookahead > 0
      modifies coder, coder.repr, win, win.window, win.prev, win.head, input, this`tallied, this`turns
      ensures data <= data' && Running(data', at', avail', matchLength') && coder.head == old(coder.head)
      ensures |input.rest| + win.lookahead < old(|input.rest| + win.lookahead) && (old(input.failed) ==> input.failed)
      ensures old(win.eofile || win.strstart + 1 < WSIZE + MAX_DIST) && matchLength < MIN_MATCH
              ==> at' == at + 1 && win.base == old(win.base) && win.head[..] == old(Table())
    {
      hide Deflater.CoderAt, Deflater.Table, Pending, MatchAt, LogOk;
      InLog(data, turns, tallied, at, avail, matchLength, win.base + win.matchStart);
      avail', matchLength', at' := Step(avail, matchLength, data, at);
      ghost var blk, from := win.base + win.blockStart, win.base + win.matchStart;
      ghost var done := if avail' then at' - 1 else at';
      assert matchLength' >= MIN_MATCH ==> Pending(data, at' - 1, from, matchLength');
      assert win.eofile || forall i :: 0 <= i < |turns| ==> turns[i].at + MAX_MATCH < |data|;
      data' := RefillBy(data, at', blk, done);
      if data' != data { LogGrows(data, data', turns, tallied, at', avail', matchLength', from); }
      if matchLength' >= MIN_MATCH { PendingGrows(data, data', at' - 1, from, matchLength'); }
    }

    // deflate
    method Run(ghost start: seq<byte>) returns (ghost p: Piece, ghost pad: seq<bool>)
      requires WindowIn(start, 0, 0) && win.strstart == 0 && win.blockStart == 0 && win.base == 0
               && CoderAt(start, 0, 0, true)
      requires (win.eofile || win.lookahead >= MIN_LOOKAHEAD) && (win.eofile && !input.failed ==> input.rest == [])
      requires tallied == [] && turns == []
      modifies coder, coder.repr, win, win.window, win.prev, win.head, input, this`tallied, this`turns
      ensures coder.Closed(p, pad) && coder.head == old(coder.head)
      ensures StandsFor(tallied, input.taken) && StandsFor(PieceTokens(coder.pieces) + p.toks, input.taken)
      ensures TurnsOk(input.taken, turns) && LazyRun(input.taken, turns).at == |input.taken|
      ensures tallied == LazyTokens(input.taken, turns) && Divided(coder.t, coder.pieces, p, tallied)
      ensures input.taken + input.rest == input.all && (!input.failed ==> input.rest == [])
    {
      hide TurnsOk, LazyRun, LogOk, StandsFor, Divides, Deflater.CoderAt, BlockCoder.Closed;
      LogStarts(start, win.base + win.matchStart);
      var avail, matchLength: nat := false, MIN_MATCH - 1;
      ghost var data, at := start, 0;
      while win.lookahead != 0
        invariant Running(data, at, avail, matchLength) && coder.head == old(coder.head)
        decreases |input.rest| + win.lookahead
      {
        avail, matchLength, data, at := Round(avail, matchLength, data, at);
      }
      LogEnds(data, turns, tallied, at, avail, matchLength, win.base + win.matchStart);
      Ended(data, at);
      p, pad := Finish(avail, data, at);
    }

    // The end of deflate: the byte that waits, and the last block.
    method Finish(avail: bool, ghost data: seq<byte>, ghost at: int) returns (ghost p: Piece, ghost pad: seq<bool>)
      requires WindowIn(data, at, win.strstart) && (avail ==> win.strstart > 0)
      requires CoderAt(data, win.base + win.blockStart, if avail then at - 1 else at, true)
      modifies coder, coder.repr, this`tallied
      ensures WindowIn(data, at, win.strstart) && coder.head == old(coder.head)
      ensures coder.Closed(p, pad) && StandsFor(PieceTokens(coder.pieces) + p.toks, data[..at])
      ensures StandsFor(tallied, data[..at]) && Divided(coder.t, coder.pieces, p, tallied)
      ensures tallied == if avail then old(tallied) + [Literal(ByteAt(data, at - 1))] else old(tallied)
    {
      hide StandsFor, PieceTokens, BlockCoder.Closed, Divided, Blocks, Coded, Filled, Deflater.CoderAt;
      ghost var blk := win.base + win.blockStart;
      ghost var room := true;
      if avail {
        var c := Previous(data, at, win.strstart);
        var flush := TallyLiteral(c, data, blk, at - 1, at, win.strstart);
        room := !flush;
      }
      CoderIs(data, blk, at, room);
      p, pad := Flush(true, data, blk, at, win.strstart);
    }

    lemma {:induction false} Ended(data: seq<byte>, at: int)
      requires WindowIn(data, at, win.strstart) && win.lookahead == 0
      ensures at == |data| && data[..at] == data == input.taken && input.taken + input.rest == input.all
    {
      assert Open(0);
    }

    // lm_init
    method Init()
      requires Shape() && input.taken == [] && input.rest == input.all
      modifies win, win.window, win.prev, win.head, input
      ensures WindowIn(input.taken, 0, 0) && win.strstart == 0 && win.blockStart == 0 && win.base == 0
      ensures (win.eofile || win.lookahead >= MIN_LOOKAHEAD) && (win.eofile && !input.failed ==> input.rest == [])
    {
      win.Init();
    }
  }

  lemma {:induction false} IsKept(best: nat, look: nat, dist: int, length: nat)
    requires length == (if (if best > look then look else best) == MIN_MATCH && dist > TOO_FAR then MIN_MATCH - 1
                        else if best > look then look else best)
    ensures length == Kept(best, look, dist)
  {
  }

  lemma {:induction false} PreviousByte(w: seq<byte>, data: seq<byte>, base: nat, s: nat, end: nat)
    requires 1 <= s <= end <= |w| && base + end == |data| && w[..end] == data[base..]
    ensures w[s - 1] == data[base + s - 1]
  {
    assert w[..end][s - 1] == data[base..][s - 1];
  }

  // The buffered tokens stand for the bytes from the start of the block on.
  lemma {:induction false} BlockLength(data: seq<byte>, blk: int, at: int, pieces: seq<Piece>, toks: seq<Token>)
    requires Coded(data, blk, at, pieces, toks)
    ensures Covered(toks) == at - blk
  {
    UnpackLength(data[..blk], toks, data[..at]);
  }

  lemma {:induction false} BlockFlushed(data: seq<byte>, blk: int, at: int, pieces: seq<Piece>, toks: seq<Token>,
      p: Piece, block: Option<seq<byte>>)
    requires Coded(data, blk, at, pieces, toks) && Carries(p, block, toks)
             && (block.Some? ==> block.value == data[blk..at])
    ensures StandsFor(PieceTokens(pieces) + p.toks, data[..at]) && Coded(data, at, at, pieces + [p], [])
  {
    CodedPiece(data, blk, at, pieces, toks, p.toks);
    PieceTokensSnoc(pieces, p);
    CodedFlushed(data, blk, at, pieces, toks, p);
  }
}
