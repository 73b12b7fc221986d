/** Tokens and the bytes they stand for. */
module Lz77 {
  import opened Bits
  import opened Inflate
  import opened BlockEncoding
  import opened BlockStream
  import opened HashChains

  // The n bytes of data at position at repeat those at from.
  ghost predicate MatchAt(data: seq<byte>, at: int, from: int, n: nat)
  {
    0 <= from < at && at + n <= |data| && forall k :: 0 <= k < n ==> Agree(data, from, at, k)
  }

  // The copy of a match, overlapping or not, continues the data.
  lemma {:induction false} CopyMatch(data: seq<byte>, at: nat, from: nat, n: nat)
    requires MatchAt(data, at, from, n)
    ensures CopyBack(data[..at], n, at - from) == data[..at + n]
    decreases n
  {
    if n != 0 {
      assert Agree(data, from, at, 0);
      assert data[..at] + [data[at]] == data[..at + 1];
      var at', from' := at + 1, from + 1;
      forall k | 0 <= k < n - 1 ensures Agree(data, from', at', k) {
        assert Agree(data, from, at, k + 1);
      }
      CopyMatch(data, at', from', n - 1);
    }
  }

  lemma {:induction false} MatchGrows(data: seq<byte>, data': seq<byte>, at: int, from: int, n: nat)
    requires MatchAt(data, at, from, n) && data <= data'
    ensures MatchAt(data', at, from, n)
  {
    forall k | 0 <= k < n ensures Agree(data', from, at, k) {
      assert Agree(data, from, at, k);
    }
  }

  lemma {:induction false} UnpackConcat(out: seq<byte>, a: seq<Token>, b: seq<Token>, mid: seq<byte>)
    requires Unpack(out, a) == Some(mid)
    ensures Unpack(out, a + b) == Unpack(mid, b)
    decreases |a|
  {
    if a == [] {
      assert a + b == b;
    } else {
      assert (a + b)[1..] == a[1..] + b;
      UnpackConcat(Apply(out, a[0]).value, a[1..], b, mid);
    }
  }

  lemma {:induction false} UnpackSnoc(out: seq<byte>, a: seq<Token>, t: Token, mid: seq<byte>)
    requires Unpack(out, a) == Some(mid)
    ensures Unpack(out, a + [t]) == Apply(mid, t)
  {
    UnpackConcat(out, a, [t], mid);
    assert [t][1..] == [];
  }

  lemma {:induction false} UnpackLiterals(out: seq<byte>, s: seq<byte>)
    ensures Unpack(out, Literals(s)) == Some(out + s)
    decreases |s|
  {
    if s == [] {
      assert out + s == out;
    } else {
      assert Literals(s)[1..] == Literals(s[1..]);
      UnpackLiterals(out + [s[0]], s[1..]);
      assert out + [s[0]] + s[1..] == out + s;
    }
  }

  // A match is of 3 to 258 bytes and reaches back no further than the window guarantees.
  ghost predicate InReach(t: Token)
  {
    t.Match? ==> 3 <= t.len <= 258 && 1 <= t.dist <= MAX_DIST
  }

  ghost predicate AllInReach(toks: seq<Token>)
  {
    forall i :: 0 <= i < |toks| ==> InReach(toks[i])
  }

  // The tokens expand to the data, with matches in reach only.
  ghost predicate StandsFor(toks: seq<Token>, data: seq<byte>)
  {
    Unpack([], toks) == Some(data) && AllInReach(toks)
  }

  // The blocks sent stand for the data before blk, the buffered tokens for the rest before at.
  ghost predicate Coded(data: seq<byte>, blk: int, at: int, pieces: seq<Piece>, toks: seq<Token>)
  {
    && 0 <= blk <= at <= |data|
    && StandsFor(PieceTokens(pieces), data[..blk])
    && Unpack(data[..blk], toks) == Some(data[..at]) && AllInReach(toks)
  }

  lemma {:induction false} CodedLiteral(data: seq<byte>, blk: int, at: int, pieces: seq<Piece>, toks: seq<Token>)
    requires Coded(data, blk, at, pieces, toks) && at < |data|
    ensures Coded(data, blk, at + 1, pieces, toks + [Literal(data[at])])
  {
    UnpackSnoc(data[..blk], toks, Literal(data[at]), data[..at]);
    assert data[..at] + [data[at]] == data[..at + 1];
  }

  lemma {:induction false} CodedMatch(data: seq<byte>, blk: int, at: int, pieces: seq<Piece>, toks: seq<Token>,
      len: nat, dist: nat)
    requires Coded(data, blk, at, pieces, toks) && MatchAt(data, at, at - dist, len) && InReach(Match(len, dist))
    ensures Coded(data, blk, at + len, pieces, toks + [Match(len, dist)])
  {
    UnpackSnoc(data[..blk], toks, Match(len, dist), data[..at]);
    CopyMatch(data, at, at - dist, len);
  }

  lemma {:induction false} CodedGrows(data: seq<byte>, data': seq<byte>, blk: int, at: int, pieces: seq<Piece>,
      toks: seq<Token>)
    requires Coded(data, blk, at, pieces, toks) && data <= data'
    ensures Coded(data', blk, at, pieces, toks)
  {
    assert data'[..blk] == data[..blk] && data'[..at] == data[..at];
  }

  // What a block stands for, whether it carries the tokens or the bytes.
  lemma {:induction false} CodedPiece(data: seq<byte>, blk: int, at: int, pieces: seq<Piece>, toks: seq<Token>,
      ptoks: seq<Token>)
    requires Coded(data, blk, at, pieces, toks) && (ptoks == toks || ptoks == Literals(data[blk..at]))
    ensures StandsFor(PieceTokens(pieces) + ptoks, data[..at])
  {
    UnpackConcat([], PieceTokens(pieces), ptoks, data[..blk]);
    if ptoks == Literals(data[blk..at]) {
      UnpackLiterals(data[..blk], data[blk..at]);
      assert data[..blk] + data[blk..at] == data[..at];
    }
  }

  lemma {:induction false} CodedFlushed(data: seq<byte>, blk: int, at: int, pieces: seq<Piece>, toks: seq<Token>,
      p: Piece)
    requires Coded(data, blk, at, pieces, toks) && (p.toks == toks || p.toks == Literals(data[blk..at]))
    requires PieceTokens(pieces + [p]) == PieceTokens(pieces) + p.toks
    ensures Coded(data, at, at, pieces + [p], [])
  {
    CodedPiece(data, blk, at, pieces, toks, p.toks);
  }

  // A stretch of the window is a stretch of the data.
  lemma {:induction false} SliceOfData(w: seq<byte>, data: seq<byte>, base: nat, a: nat, b: nat, end: nat)
    requires a <= b <= end <= |w| && base + end == |data| && w[..end] == data[base..]
    ensures w[a..b] == data[base + a..base + b]
  {
    assert w[a..b] == w[..end][a..b] == data[base..][a..b];
  }

  // The log of all tokens, a token at a time.
  lemma {:induction false} LogLiteral(data: seq<byte>, at: int, log: seq<Token>)
    requires 0 <= at < |data| && StandsFor(log, data[..at])
    ensures StandsFor(log + [Literal(data[at])], data[..at + 1])
  {
    UnpackSnoc([], log, Literal(data[at]), data[..at]);
    assert data[..at] + [data[at]] == data[..at + 1];
  }

  lemma {:induction false} LogMatch(data: seq<byte>, at: int, log: seq<Token>, len: nat, dist: nat)
    requires 0 <= at <= |data| && StandsFor(log, data[..at])
    requires MatchAt(data, at, at - dist, len) && InReach(Match(len, dist))
    ensures StandsFor(log + [Match(len, dist)], data[..at + len])
  {
    UnpackSnoc([], log, Match(len, dist), data[..at]);
    CopyMatch(data, at, at - dist, len);
  }
}
