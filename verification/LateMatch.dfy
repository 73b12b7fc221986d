/** The assertion of longest_match that strstart <= WINDOW_SIZE - MIN_LOOKAHEAD: when it holds, and
    an input on which it does not. */
module LateMatch {
  import opened Bits
  import opened MatchHash
  import opened HashChains
  import opened SlidingWindow
  import opened Lz77
  import opened LazyMatching
  import opened Deflate
  import opened Gzip

  // As long as the end of the input has not been seen, the assertion holds. From then on it holds
  // exactly if the rest of the input and the room behind it in the window make up MIN_LOOKAHEAD.
  lemma {:induction false} LookaheadSuffices(z: Deflater, data: seq<byte>, at: int, avail: bool, matchLength: nat)
    requires z.Running(data, at, avail, matchLength)
    ensures !z.win.eofile ==> z.win.strstart <= WINDOW_SIZE - MIN_LOOKAHEAD
    ensures z.win.eofile && !z.input.failed ==>
              (z.win.strstart <= WINDOW_SIZE - MIN_LOOKAHEAD
               <==> z.win.lookahead + (z.win.base + WINDOW_SIZE - |z.input.all|) >= MIN_LOOKAHEAD)
  {
    z.Opened(data, at, z.win.strstart);
  }

  const SIZE := 65300
  const EARLY := 57090
  const LATE := 65280

  // Even bytes are above 127, odd ones below; two of them count up to 16384.
  function PatternAt(i: nat): byte
  {
    if i % 2 == 0 then 128 + i / 2 / 128 % 128 else i / 2 % 128
  }

  function Pattern(): (s: seq<byte>)
    ensures |s| == SIZE && forall i :: 0 <= i < SIZE ==> s[i] == PatternAt(i)
  {
    seq(SIZE, i requires i >= 0 => PatternAt(i))
  }

  lemma {:induction false} Digits(k: nat)
    ensures k % 16384 == 128 * (k / 128 % 128) + k % 128
  {
  }

  lemma {:induction false} FarApart(k: nat, l: nat)
    requires k < l && k / 128 % 128 == l / 128 % 128 && k % 128 == l % 128
    ensures l - k >= 16384
  {
    Digits(k);
    Digits(l);
  }

  // No three bytes occur twice within MAX_DIST.
  lemma {:induction false} NoRepeat(i: nat, j: nat)
    requires i < j && PatternAt(i) == PatternAt(j) && PatternAt(i + 1) == PatternAt(j + 1)
    requires PatternAt(i + 2) == PatternAt(j + 2)
    ensures j - i > MAX_DIST
  {
    SameParity(i, j);
    if i % 2 == 0 {
      EvenPair(i);
      EvenPair(j);
      FarApart(i / 2, j / 2);
    } else {
      EvenPair(i + 1);
      EvenPair(j + 1);
      FarApart((i + 1) / 2, (j + 1) / 2);
    }
  }

  lemma {:induction false} SameParity(i: nat, j: nat)
    requires PatternAt(i) == PatternAt(j)
    ensures i % 2 == j % 2
  {
  }

  lemma {:induction false} EvenPair(i: nat)
    requires i % 2 == 0
    ensures PatternAt(i) == 128 + i / 2 / 128 % 128 && PatternAt(i + 1) == i / 2 % 128
  {
  }

  lemma {:induction false} NoMatch(data: seq<byte>, at: int, from: int, len: nat)
    requires data <= Pattern()
    ensures !Pending(data, at, from, len)
  {
    hide PatternAt;
    if Pending(data, at, from, len) {
      assert Agree(data, from, at, 0) && Agree(data, from, at, 1) && Agree(data, from, at, 2);
      NoRepeat(from, at);
    }
  }

  lemma {:induction false} XorZero(a: nat)
    ensures Xor(a, 0) == a && Xor(0, a) == a
  {
    if a != 0 { XorZero(a / 2); }
  }

  // The strings at EARLY and LATE have the same hash.
  lemma {:induction false} LateXor()
    ensures Xor(7168, 255) == 7423
  {
    hide Xor;
    XorZero(28);
    XorUnfold(56, 1);
    XorUnfold(112, 3);
    XorUnfold(224, 7);
    XorUnfold(448, 15);
    XorUnfold(896, 31);
    XorUnfold(1792, 63);
    XorUnfold(3584, 127);
    XorUnfold(7168, 255);
  }

  lemma {:induction false} EarlyXor()
    ensures Xor(7200, 223) == 7423
  {
    hide Xor;
    XorZero(28);
    XorUnfold(56, 1);
    XorUnfold(112, 3);
    XorUnfold(225, 6);
    XorUnfold(450, 13);
    XorUnfold(900, 27);
    XorUnfold(1800, 55);
    XorUnfold(3600, 111);
    XorUnfold(7200, 223);
  }

  lemma {:induction false} MiddleXor()
    ensures Xor(7136, 1) == 7137
  {
    hide Xor;
    XorZero(3568);
    XorUnfold(7136, 1);
  }

  lemma {:induction false} LowBits()
    ensures Low(255, 13) == 255 && Low(223, 13) == 223 && Low(8160, 13) == 8160 && Low(7137, 13) == 7137
    ensures Low(7423, 13) == 7423 && Low(7168, 13) == 7168 && Low(7200, 13) == 7200
    ensures Low(261120, 13) == 7168 && Low(228384, 13) == 7200
  {
    Pow2Small();
    LowFits(255, 13);
    LowFits(223, 13);
    LowFits(8160, 13);
    LowFits(7137, 13);
    LowFits(7423, 13);
    LowFits(7168, 13);
    LowFits(7200, 13);
    LowShift(7168, 31, 13);
    LowShift(7200, 27, 13);
  }

  lemma {:induction false} LowShift(v: nat, q: nat, n: nat)
    ensures Low(v + q * Pow2(n), n) == Low(v, n)
  {
    if n != 0 {
      Halved(v, q, Pow2(n - 1));
      LowShift(v / 2, q, n - 1);
    }
  }

  lemma {:induction false} Halved(v: nat, q: nat, p: nat)
    ensures (v + q * (2 * p)) / 2 == v / 2 + q * p && (v + q * (2 * p)) % 2 == v % 2
  {
    assert q * (2 * p) == 2 * (q * p);
  }

  const HASH := 7423

  lemma {:induction false} LateHash()
    ensures UpdateHash(UpdateHash(UpdateHash(0, 255), 0), 255) == HASH
  {
    hide Xor, Low;
    LowBits();
    ShiftFive(0);
    ShiftFive(255);
    ShiftFive(8160);
    XorZero(255);
    XorZero(8160);
    LateXor();
    LowXor(261120, 7168, 255, 13);
  }

  lemma {:induction false} EarlyHash()
    ensures UpdateHash(UpdateHash(UpdateHash(0, 223), 1), 223) == HASH
  {
    hide Xor, Low;
    LowBits();
    ShiftFive(0);
    ShiftFive(223);
    ShiftFive(7137);
    XorZero(223);
    MiddleXor();
    EarlyXor();
    LowXor(228384, 7200, 223, 13);
  }

  lemma {:induction false} ShiftFive(h: nat)
    ensures Shl(h, H_SHIFT) == 32 * h
  {
    ShlIsTimes(h, H_SHIFT);
    Pow2Small();
  }

  lemma {:induction false} PatternValues()
    ensures PatternAt(EARLY) == 223 && PatternAt(EARLY + 1) == 1 && PatternAt(EARLY + 2) == 223
    ensures PatternAt(LATE) == 255 && PatternAt(LATE + 1) == 0 && PatternAt(LATE + 2) == 255
  {
  }

  // Three bytes of the pattern in the window.
  ghost predicate InPattern(w: seq<byte>, s: nat)
  {
    s + 2 < |w| && s + 2 < SIZE && w[s] == PatternAt(s) && w[s + 1] == PatternAt(s + 1) && w[s + 2] == PatternAt(s + 2)
  }

  lemma {:induction false} SameHash(w: seq<byte>, s: nat)
    requires (s == EARLY || s == LATE) && InPattern(w, s)
    ensures HashAt(w, s) == HASH
  {
    hide UpdateHash, PatternAt;
    PatternValues();
    EarlyHash();
    LateHash();
  }

  // Once the string at EARLY is in the hash table, its entry is at least that.
  ghost predicate Noted(head: seq<nat>, at: int, failed: bool)
  {
    at > EARLY && !failed ==> |head| == HASH_SIZE && head[HASH] >= EARLY
  }

  // The run over the pattern: no byte has left the window, and no match waits.
  ghost predicate Walking(z: Deflater, data: seq<byte>, at: int, avail: bool, matchLength: nat)
    reads z, z.win, z.win.window, z.win.prev, z.win.head, z.input, z.win.input, z.coder, z.coder.repr, z.coder.buf
  {
    && z.Running(data, at, avail, matchLength) && matchLength < MIN_MATCH && z.win.base == 0
    && z.input.all == Pattern() && at <= LATE && Noted(z.win.head[..], at, z.input.failed)
  }

  // What is in the window is the pattern, and its end is seen before the window is full.
  lemma {:induction false} Inside(z: Deflater, data: seq<byte>, at: int, avail: bool, matchLength: nat)
    requires Walking(z, data, at, avail, matchLength)
    ensures data <= Pattern() && at == z.win.strstart && |data| == at + z.win.lookahead
    ensures z.win.eofile || z.win.strstart + 1 < WSIZE + MAX_DIST
    ensures z.win.lookahead >= 3 ==> InPattern(z.win.window[..], z.win.strstart)
    ensures z.win.eofile && !z.input.failed ==> data == Pattern()
    ensures z.win.head.Length == HASH_SIZE && z.win.strstart + z.win.lookahead <= WINDOW_SIZE
  {
    hide PatternAt, Deflater.CoderAt, Deflater.Waiting;
    z.Opened(data, at, z.win.strstart);
    var w, n := z.win.window[..], z.win.strstart + z.win.lookahead;
    assert z.win.window[..n] == data[0..] == data;
    if z.win.lookahead >= 3 {
      assert w[..n][at] == data[at] && w[..n][at + 1] == data[at + 1] && w[..n][at + 2] == data[at + 2];
    }
  }

  lemma {:induction false} StillNoted(w: seq<byte>, head: seq<nat>, at: int, failed: bool, failed': bool)
    requires 0 <= at && Noted(head, at, failed) && (failed ==> failed') && |head| == HASH_SIZE && at + 2 < |w|
    requires at == EARLY && !failed ==> InPattern(w, at)
    ensures Noted(WithString(w, head, at), at + 1, failed')
  {
    if at == EARLY && !failed { SameHash(w, at); }
  }

  // One round: a literal at most, and the next string is noted.
  method WalkOn(z: Deflater, avail: bool, matchLength: nat, ghost data: seq<byte>, ghost at: int)
    returns (avail': bool, matchLength': nat, ghost data': seq<byte>, ghost at': int)
    requires Walking(z, data, at, avail, matchLength) && z.win.lookahead > 0 && at < LATE
    modifies z.coder, z.coder.repr, z.win, z.win.window, z.win.prev, z.win.head, z.input, z`tallied, z`turns
    ensures Walking(z, data', at', avail', matchLength') && at' == at + 1
  {
    hide Deflater.CoderAt, Pattern, Noted, WithString, InPattern;
    Inside(z, data, at, avail, matchLength);
    ghost var w, head, failed := z.win.window[..], z.win.head[..], z.input.failed;
    if at == EARLY && !failed { EarlyShows(z, data, at, avail, matchLength); }
    avail', matchLength', data', at' := z.Round(avail, matchLength, data, at);
    StillNoted(w, head, at, failed, z.input.failed);
    NoneWaits(z, data', at', avail', matchLength');
  }

  lemma {:induction false} EarlyShows(z: Deflater, data: seq<byte>, at: int, avail: bool, matchLength: nat)
    requires Walking(z, data, at, avail, matchLength) && at == EARLY && !z.input.failed
    ensures InPattern(z.win.window[..], at)
  {
    hide Pattern, InPattern, Deflater.CoderAt, Noted;
    Inside(z, data, at, avail, matchLength);
    PatternSize();
  }

  lemma {:induction false} PatternSize()
    ensures |Pattern()| == SIZE
  {
  }

  lemma {:induction false} NoneWaits(z: Deflater, data: seq<byte>, at: int, avail: bool, matchLength: nat)
    requires z.Running(data, at, avail, matchLength) && z.input.all == Pattern()
    ensures matchLength < MIN_MATCH
  {
    hide Pattern, Deflater.CoderAt, Pending;
    z.Opened(data, at, z.win.strstart);
    assert data <= Pattern();
    NoMatch(data, at - 1, z.win.base + z.win.matchStart, matchLength);
  }

  lemma {:induction false} Begins(z: Deflater, data: seq<byte>)
    requires z.WindowIn(data, 0, 0) && z.win.strstart == 0 && z.win.blockStart == 0 && z.win.base == 0
    requires (z.win.eofile || z.win.lookahead >= MIN_LOOKAHEAD)
             && (z.win.eofile && !z.input.failed ==> z.input.rest == [])
    requires z.CoderAt(data, 0, 0, true) && z.input.all == Pattern() && z.tallied == [] && z.turns == []
    ensures Walking(z, data, 0, false, MIN_MATCH - 1)
  {
    hide Pattern, Deflater.CoderAt, Deflater.WindowIn, LogOk;
    LogStarts(data, z.win.base + z.win.matchStart);
  }

  method WalkAll(z: Deflater) returns (prevLength: nat, avail: bool, ghost data: seq<byte>, ghost at: int)
    requires Walking(z, z.input.taken, 0, false, MIN_MATCH - 1)
    modifies z.coder, z.coder.repr, z.win, z.win.window, z.win.prev, z.win.head, z.input, z`tallied, z`turns
    ensures Walking(z, data, at, avail, prevLength)
    ensures !z.input.failed ==> at == LATE && z.win.lookahead > 0 && data == Pattern()
  {
    hide Walking, Pattern;
    avail, prevLength, data, at := false, MIN_MATCH - 1, z.input.taken, 0;
    Inside(z, data, at, avail, prevLength);
    while z.win.lookahead > 0 && z.win.strstart < LATE
      invariant Walking(z, data, at, avail, prevLength) && at == z.win.strstart <= LATE
      decreases LATE - at
    {
      avail, prevLength, data, at := WalkOn(z, avail, prevLength, data, at);
      Inside(z, data, at, avail, prevLength);
      AtMost(z, data, at, avail, prevLength);
    }
    Whole(z, data, at, avail, prevLength);
  }

  lemma {:induction false} AtMost(z: Deflater, data: seq<byte>, at: int, avail: bool, matchLength: nat)
    requires Walking(z, data, at, avail, matchLength)
    ensures at <= LATE
  {
    hide Pattern;
  }

  // All bytes are in the window or coded, if no read failed.
  lemma {:induction false} Whole(z: Deflater, data: seq<byte>, at: int, avail: bool, matchLength: nat)
    requires Walking(z, data, at, avail, matchLength) && (z.win.lookahead > 0 ==> at == LATE)
    ensures !z.input.failed ==> at == LATE && z.win.lookahead > 0 && data == Pattern()
  {
    hide Pattern, Deflater.CoderAt, Noted;
    Inside(z, data, at, avail, matchLength);
    PatternSize();
  }

  // The entry found at LATE is a candidate that longest_match is called for.
  method Arrive(z: Deflater, avail: bool, prevLength: nat, ghost data: seq<byte>) returns (hashHead: Pos)
    requires Walking(z, data, LATE, avail, prevLength) && !z.input.failed && z.win.lookahead > 0
    modifies z.win`insH, z.win.prev, z.win.head
    ensures z.win.strstart == LATE && EARLY <= hashHead && z.WindowIn(data, LATE, LATE + 1)
  {
    hide Pattern, Deflater.CoderAt;
    Inside(z, data, LATE, avail, prevLength);
    LateShows(z, data, avail, prevLength);
    SameHash(z.win.window[..], LATE);
    hashHead := z.Insert(data, LATE);
  }

  lemma {:induction false} LateShows(z: Deflater, data: seq<byte>, avail: bool, matchLength: nat)
    requires Walking(z, data, LATE, avail, matchLength) && !z.input.failed
    ensures InPattern(z.win.window[..], LATE)
  {
    hide Pattern, InPattern, Deflater.CoderAt, Noted;
    Inside(z, data, LATE, avail, matchLength);
    PatternSize();
  }

  // Unless a read fails, and whatever sizes the reads return, deflate comes to a state in which it
  // calls longest_match and the assertion fails.
  method LateSearch(timeStamp: nat) returns (z: Deflater, prevLength: nat, hashHead: Pos)
    requires timeStamp < WORD
    ensures !z.input.failed ==>
              && hashHead != 0 && prevLength < MAX_LAZY_MATCH && z.win.strstart - hashHead <= MAX_DIST
              && z.win.lookahead > 0 && z.win.strstart > WINDOW_SIZE - MIN_LOOKAHEAD
    ensures fresh(z) && z.input.all == Pattern()
    ensures !z.input.failed ==> z.WindowIn(z.input.all, LATE, LATE + 1)
  {
    hide Pattern, Noted, InPattern, Deflater.CoderAt;
    var input := new Input(Pattern());
    z := Start(input, timeStamp);
    hashHead := 0;
    Begins(z, input.taken);
    var avail;
    ghost var data, at;
    prevLength, avail, data, at := WalkAll(z);
    if !z.input.failed {
      hashHead := Arrive(z, avail, prevLength, data);
    }
  }
}
