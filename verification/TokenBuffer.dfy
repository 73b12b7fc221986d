/** The buffers of the current block: l_buf, d_buf and flag_buf, filled by ct_tally and read
    back by compress_block. */
module TokenBuffers {
  import opened Bits
  import opened Inflate
  import opened BlockEncoding

  type ush = n: nat | n < 65536

  const LIT_BUFSIZE := 8192
  const DIST_BUFSIZE := 8192

  // Which tokens are pairs.
  function Kinds(toks: seq<Token>): (s: seq<bool>)
    ensures |s| == |toks| && forall i :: 0 <= i < |s| ==> s[i] == toks[i].Match?
  {
    seq(|toks|, i requires 0 <= i < |toks| => toks[i].Match?)
  }

  // What l_buf holds for a token.
  function Lc(t: Token): int { match t case Literal(c) => c case Match(len, _) => len - 3 }

  // What d_buf holds: the distances less one.
  function Dists(toks: seq<Token>): (s: seq<int>)
    ensures |s| <= |toks|
  {
    if toks == [] then [] else OneDist(toks[0]) + Dists(toks[1..])
  }

  function OneDist(t: Token): (s: seq<int>)
    ensures |s| <= 1
  {
    if t.Match? then [t.dist - 1] else []
  }

  lemma {:induction false} DistsConcat(a: seq<Token>, b: seq<Token>)
    ensures Dists(a + b) == Dists(a) + Dists(b)
    decreases |a|
  {
    if a == [] {
      assert a + b == b;
    } else {
      assert (a + b)[1..] == a[1..] + b;
      DistsConcat(a[1..], b);
      Assoc(OneDist(a[0]), Dists(a[1..]), Dists(b));
    }
  }

  lemma {:induction false} DistsSnoc(toks: seq<Token>, t: Token)
    ensures Dists(toks + [t]) == if t.Match? then Dists(toks) + [t.dist - 1] else Dists(toks)
  {
    DistsConcat(toks, [t]);
    assert [t][1..] == [];
  }

  lemma {:induction false} DistsFirst(toks: seq<Token>, i: nat)
    requires i < |toks| && toks[i].Match?
    ensures |Dists(toks[..i])| < |Dists(toks)| && Dists(toks)[|Dists(toks[..i])|] == toks[i].dist - 1
    ensures |Dists(toks[..i + 1])| == |Dists(toks[..i])| + 1
  {
    assert toks == toks[..i] + toks[i..] && toks[..i + 1] == toks[..i] + [toks[i]];
    DistsConcat(toks[..i], toks[i..]);
    DistsSnoc(toks[..i], toks[i]);
  }

  lemma {:induction false} DistsSkip(toks: seq<Token>, i: nat)
    requires i < |toks| && toks[i].Literal?
    ensures |Dists(toks[..i + 1])| == |Dists(toks[..i])|
  {
    assert toks[..i + 1] == toks[..i] + [toks[i]];
    DistsSnoc(toks[..i], toks[i]);
  }

  lemma {:induction false} ValSnoc(bs: seq<bool>, b: bool)
    ensures ValLE(bs + [b]) == ValLE(bs) + if b then Pow2(|bs|) else 0
  {
    if bs == [] {
      assert (bs + [b])[1..] == [];
    } else {
      assert (bs + [b])[1..] == bs[1..] + [b];
      ValSnoc(bs[1..], b);
    }
  }

  // flag_buf holds one bit per token, eight to a byte.
  ghost predicate FlagsAt(fb: seq<byte>, toks: seq<Token>, j: nat)
    requires 8 * j + 8 <= |toks|
  {
    j < |fb| && fb[j] == ValLE(Kinds(toks[8 * j..8 * j + 8]))
  }

  ghost predicate FlagsHold(fb: seq<byte>, toks: seq<Token>, n: nat)
  {
    8 * n <= |toks| && forall j :: 0 <= j < n ==> FlagsAt(fb, toks, j)
  }

  lemma {:induction false} FlagsKeep(fb: seq<byte>, toks: seq<Token>, n: nat, t: Token)
    requires FlagsHold(fb, toks, n)
    ensures FlagsHold(fb, toks + [t], n)
  {
    forall j | 0 <= j < n ensures FlagsAt(fb, toks + [t], j) {
      assert FlagsAt(fb, toks, j);
      assert (toks + [t])[8 * j..8 * j + 8] == toks[8 * j..8 * j + 8];
    }
  }

  lemma {:induction false} FlagsFull(fb: seq<byte>, toks: seq<Token>, n: nat, v: byte, fb': seq<byte>)
    requires FlagsHold(fb, toks, n) && n < |fb| && fb' == fb[n := v] && |toks| == 8 * n + 8
             && v == ValLE(Kinds(toks[8 * n..]))
    ensures FlagsHold(fb', toks, n + 1)
  {
    assert toks[8 * n..] == toks[8 * n..8 * n + 8];
    forall j | 0 <= j < n + 1 ensures FlagsAt(fb', toks, j) {
      if j < n { assert FlagsAt(fb, toks, j); }
    }
  }

  lemma {:induction false} KindsSnoc(toks: seq<Token>, t: Token, n: nat)
    requires 8 * n <= |toks| < 8 * n + 8
    ensures ValLE(Kinds((toks + [t])[8 * n..]))
            == ValLE(Kinds(toks[8 * n..])) + (if t.Match? then Pow2(|toks| - 8 * n) else 0)
  {
    var a := toks[8 * n..];
    assert (toks + [t])[8 * n..] == a + [t];
    assert Kinds(a + [t]) == Kinds(a) + [t.Match?];
    ValSnoc(Kinds(a), t.Match?);
  }

  // The partial flag byte after one more token: flags |= flag_bit.
  lemma {:induction false} FlagsOr(toks: seq<Token>, t: Token, n: nat, flags: nat, bit: nat)
    requires 8 * n <= |toks| < 8 * n + 8 && flags == ValLE(Kinds(toks[8 * n..])) && bit == Pow2(|toks| - 8 * n)
    ensures bit < 256 && Or(flags, bit) < 256
            && (if t.Match? then Or(flags, bit) else flags) == ValLE(Kinds((toks + [t])[8 * n..]))
    ensures 2 * bit % 256 == if |toks| + 1 == 8 * n + 8 then 0 else Pow2(|toks| + 1 - 8 * n)
  {
    KindsSnoc(toks, t, n);
    var k := |toks| - 8 * n;
    NextBit(k);
    ShlOne(k);
    OrDisjoint(flags, 1, k);
  }

  // flag_bit <<= 1 in a byte.
  lemma {:induction false} NextBit(k: nat)
    requires k < 8
    ensures Pow2(k) < 256 && 2 * Pow2(k) % 256 == if k == 7 then 0 else Pow2(k + 1)
  {
    Pow2Small();
    if k < 7 { Pow2Mono(k + 1, 7); }
  }

  class TokenBuffer {
    const lBuf: array<byte>
    const dBuf: array<ush>
    const flagBuf: array<byte>
    var lastLit: nat
    var lastDist: nat
    var lastFlags: nat
    var flags: byte
    var flagBit: byte
    ghost var toks: seq<Token>

    ghost predicate Shape()
    {
      && lBuf.Length == LIT_BUFSIZE && dBuf.Length == DIST_BUFSIZE && flagBuf.Length == LIT_BUFSIZE / 8
      && lBuf != flagBuf
    }

    // The buffers hold toks.
    ghost predicate Valid()
      reads this, lBuf, dBuf, flagBuf
    {
      && Shape() && lastLit == |toks| < LIT_BUFSIZE && lastDist == |Dists(toks)|
      && (forall i :: 0 <= i < |toks| ==> TokenOk(toks[i]))
      && (forall i :: 0 <= i < |toks| ==> lBuf[i] == Lc(toks[i]))
      && (forall i :: 0 <= i < lastDist ==> dBuf[i] == Dists(toks)[i])
      && 8 * lastFlags <= lastLit < 8 * lastFlags + 8
      && FlagsHold(flagBuf[..], toks, lastFlags)
      && flags == ValLE(Kinds(toks[8 * lastFlags..])) && flagBit == Pow2(lastLit - 8 * lastFlags)
    }

    constructor ()
      ensures Valid() && toks == [] && fresh(lBuf) && fresh(dBuf) && fresh(flagBuf)
    {
      lBuf, dBuf, flagBuf := new byte[LIT_BUFSIZE](_ => 0), new ush[DIST_BUFSIZE](_ => 0),
        new byte[LIT_BUFSIZE / 8](_ => 0);
      lastLit, lastDist, lastFlags, flags, flagBit, toks := 0, 0, 0, 0, 1, [];
    }

    // The buffers' part of init_block.
    method Reset()
      requires Shape()
      modifies this
      ensures Valid() && toks == []
    {
      lastLit, lastDist, lastFlags, flags, flagBit, toks := 0, 0, 0, 0, 1, [];
    }

    // The flags of ct_tally after l_buf and d_buf are written.
    method SaveFlag(ghost before: seq<Token>, ghost t: Token)
      requires Shape() && lastLit == |before| + 1 && 8 * lastFlags <= |before| < 8 * lastFlags + 8
               && |before| + 1 < LIT_BUFSIZE
      requires FlagsHold(flagBuf[..], before, lastFlags)
      requires flags == ValLE(Kinds((before + [t])[8 * lastFlags..])) && flagBit == Pow2(|before| - 8 * lastFlags)
      modifies `lastFlags, `flags, `flagBit, flagBuf
      ensures 8 * lastFlags <= lastLit < 8 * lastFlags + 8 && FlagsHold(flagBuf[..], before + [t], lastFlags)
      ensures flags == ValLE(Kinds((before + [t])[8 * lastFlags..])) && flagBit == Pow2(lastLit - 8 * lastFlags)
    {
      FlagsKeep(flagBuf[..], before, lastFlags, t);
      FlagsOr(before, t, lastFlags, ValLE(Kinds(before[8 * lastFlags..])), flagBit);
      flagBit := 2 * flagBit % 256;
      if lastLit % 8 == 0 {
        FlagsFull(flagBuf[..], before + [t], lastFlags, flags, flagBuf[..][lastFlags := flags]);
        flagBuf[lastFlags] := flags;
        lastFlags := lastFlags + 1;
        flags := 0;
        flagBit := 1;
      }
    }

    // The buffers' part of ct_tally; dist is 0 for a literal.
    method Save(dist: ush, lc: byte, ghost t: Token)
      requires Valid() && |toks| + 1 < LIT_BUFSIZE && TokenOk(t)
      requires if dist == 0 then t.Literal? && t.c == lc else t == Match(lc + 3, dist)
      modifies this, lBuf, dBuf, flagBuf
      ensures Valid() && toks == old(toks) + [t]
    {
      hide Or, Kinds, ValLE, FlagsHold, Dists, Pow2;
      ghost var before := toks;
      DistsSnoc(before, t);
      FlagsOr(before, t, lastFlags, flags, flagBit);
      lBuf[lastLit] := lc;
      lastLit := lastLit + 1;
      if dist != 0 {
        dBuf[lastDist] := dist - 1;
        lastDist := lastDist + 1;
        flags := Or(flags, flagBit);
      }
      toks := before + [t];
      SaveFlag(before, t);
    }

    // The first statement of flush_block: the flags of the last tokens.
    method SaveLastFlags()
      requires Valid()
      modifies flagBuf
      ensures Valid() && lastFlags < flagBuf.Length && flagBuf[lastFlags] == flags
    {
      ghost var fb := flagBuf[..];
      flagBuf[lastFlags] := flags;
      forall j | 0 <= j < lastFlags ensures FlagsAt(flagBuf[..], toks, j) {
        assert FlagsAt(fb, toks, j);
      }
    }
  }
}
