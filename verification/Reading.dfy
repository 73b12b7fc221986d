/** What the reference decoder reads at a place of a stream, and the steps from the parts to the
    whole. The proofs that only pass these facts on hide what they stand for. */
module Reading {
  import opened Bits
  import opened CanonicalCode
  import opened CodeLengthRuns
  import opened Inflate

  ghost predicate SymbolAt(lens: seq<nat>, bs: seq<bool>, pos: nat, s: nat)
  {
    s < |lens| && DecodeSymbol(lens, bs, pos) == Some(s)
  }

  ghost predicate FieldAt(bs: seq<bool>, pos: nat, n: nat, v: nat)
  {
    ReadBits(bs, pos, n) == Some(v)
  }

  ghost predicate DistanceAt(dl: seq<nat>, bs: seq<bool>, pos: nat, len: nat, tok: Token, end: nat)
  {
    DecodeDistance(dl, bs, pos, len) == Some(Next(tok, end))
  }

  ghost predicate TokenAt(ll: seq<nat>, dl: seq<nat>, bs: seq<bool>, pos: nat, tok: Token, end: nat)
  {
    DecodeToken(ll, dl, bs, pos) == Some(Next(tok, end))
  }

  ghost predicate TokensAt(ll: seq<nat>, dl: seq<nat>, bs: seq<bool>, pos: nat, toks: seq<Token>, end: nat)
  {
    DecodeTokens(ll, dl, bs, pos) == Some((toks, end))
  }

  ghost predicate BytesAt(bs: seq<bool>, pos: nat, n: nat, toks: seq<Token>)
  {
    ReadBytes(bs, pos, n) == Some(toks)
  }

  ghost predicate StoredAt(bs: seq<bool>, pos: nat, toks: seq<Token>, end: nat)
  {
    DecodeStored(bs, pos) == Some((toks, end))
  }

  ghost predicate BlLensAt(bs: seq<bool>, pos: nat, cur: seq<nat>, from: nat, n: nat, cl: seq<nat>)
  {
    from + n <= BL_CODES && |cur| == BL_CODES && ReadBlLens(bs, pos, cur, from, n) == Some(cl)
  }

  ghost predicate ItemAt(cl: seq<nat>, bs: seq<bool>, pos: nat, it: Item, end: nat)
  {
    DecodeItem(cl, bs, pos) == Some((it, end))
  }

  ghost predicate LensAt(cl: seq<nat>, bs: seq<bool>, pos: nat, acc: seq<nat>, lens: seq<nat>, end: nat)
  {
    DecodeLens(cl, bs, pos, |lens|, acc) == Some((lens, end))
  }

  ghost predicate TreesAt(bs: seq<bool>, pos: nat, n: nat, ll: seq<nat>, dl: seq<nat>, end: nat)
  {
    n <= BL_CODES && DecodeTrees(bs, pos, |ll|, |dl|, n) == Some(Header(ll, dl, end))
  }

  ghost predicate HeaderAt(bs: seq<bool>, pos: nat, ll: seq<nat>, dl: seq<nat>, end: nat)
  {
    DecodeHeader(bs, pos) == Some(Header(ll, dl, end))
  }

  ghost predicate BlockAt(bs: seq<bool>, pos: nat, last: bool, toks: seq<Token>, end: nat)
  {
    DecodeBlock(bs, pos) == Some(Block(last, toks, end))
  }

  lemma {:induction false} SymbolBack(lens: seq<nat>, bs: seq<bool>, pos: nat, s: nat)
    requires Prefixable(lens) && s < |lens| && lens[s] > 0 && At(bs, pos, CodeBits(lens, s))
    ensures SymbolAt(lens, bs, pos, s)
  {
    DecodeUnique(lens, bs, pos, s);
  }

  lemma {:induction false} FieldBack(bs: seq<bool>, pos: nat, v: nat, n: nat)
    requires v < Pow2(n) && At(bs, pos, BitsLE(v, n))
    ensures FieldAt(bs, pos, n, v)
  {
    ValOfBits(v, n);
  }

  lemma {:induction false} DistanceFrom(dl: seq<nat>, bs: seq<bool>, pos: nat, len: nat, c: nat, x: nat)
    requires c < 30 && c < |dl| && SymbolAt(dl, bs, pos, c) && FieldAt(bs, pos + dl[c], DistExtra(c), x)
    ensures DistanceAt(dl, bs, pos, len, Match(len, DistBase(c) + x), pos + dl[c] + DistExtra(c))
  {
  }

  lemma {:induction false} LiteralFrom(ll: seq<nat>, dl: seq<nat>, bs: seq<bool>, pos: nat, c: nat)
    requires c < 256 && c < |ll| && SymbolAt(ll, bs, pos, c)
    ensures TokenAt(ll, dl, bs, pos, Literal(c), pos + ll[c])
  {
  }

  lemma {:induction false} MatchFrom(ll: seq<nat>, dl: seq<nat>, bs: seq<bool>, pos: nat, c: nat, x: nat, tok: Token,
      end: nat)
    requires c < 29 && c + 257 < |ll| && SymbolAt(ll, bs, pos, c + 257)
             && FieldAt(bs, pos + ll[c + 257], LengthExtra(c), x)
    requires DistanceAt(dl, bs, pos + ll[c + 257] + LengthExtra(c), LengthBase(c) + x, tok, end)
    ensures TokenAt(ll, dl, bs, pos, tok, end)
  {
    hide DecodeDistance, FindSymbol;
  }

  lemma {:induction false} TokensEnd(ll: seq<nat>, dl: seq<nat>, bs: seq<bool>, pos: nat)
    requires 256 < |ll| && SymbolAt(ll, bs, pos, 256)
    ensures TokensAt(ll, dl, bs, pos, [], pos + ll[256])
  {
  }

  lemma {:induction false} TokensFrom(ll: seq<nat>, dl: seq<nat>, bs: seq<bool>, pos: nat, t: Token, p: nat,
      ts: seq<Token>, q: nat)
    requires TokenAt(ll, dl, bs, pos, t, p) && TokensAt(ll, dl, bs, p, ts, q)
    ensures TokensAt(ll, dl, bs, pos, [t] + ts, q)
  {
  }

  lemma {:induction false} BytesEnd(bs: seq<bool>, pos: nat)
    ensures BytesAt(bs, pos, 0, [])
  {
  }

  lemma {:induction false} BytesFrom(bs: seq<bool>, pos: nat, n: nat, v: nat, ts: seq<Token>)
    requires v < 256 && FieldAt(bs, pos, 8, v) && BytesAt(bs, pos + 8, n, ts)
    ensures BytesAt(bs, pos, n + 1, [Literal(v)] + ts)
  {
  }

  lemma {:induction false} StoredFrom(bs: seq<bool>, pos: nat, p: nat, len: nat, ts: seq<Token>)
    requires p == ByteAligned(pos) && len < 65536 && FieldAt(bs, p, 16, len) && FieldAt(bs, p + 16, 16, 65535 - len)
             && BytesAt(bs, p + 32, len, ts)
    ensures StoredAt(bs, pos, ts, p + 32 + 8 * len)
  {
  }

  lemma {:induction false} BlLensEnd(bs: seq<bool>, pos: nat, cl: seq<nat>, from: nat)
    requires |cl| == BL_CODES && from <= BL_CODES
    ensures BlLensAt(bs, pos, cl, from, 0, cl)
  {
  }

  lemma {:induction false} BlLensFrom(bs: seq<bool>, pos: nat, cur: seq<nat>, from: nat, n: nat, v: nat, cl: seq<nat>)
    requires n > 0 && from + n <= BL_CODES && |cur| == BL_CODES && FieldAt(bs, pos, 3, v)
    requires BlLensAt(bs, pos + 3, cur[BlOrder(from) := v], from + 1, n - 1, cl)
    ensures BlLensAt(bs, pos, cur, from, n, cl)
  {
  }

  lemma {:induction false} ItemFrom(cl: seq<nat>, bs: seq<bool>, pos: nat, it: Item)
    requires it.sym < |cl| && SymbolAt(cl, bs, pos, it.sym) && FieldAt(bs, pos + cl[it.sym], BlExtra(it.sym), it.extra)
    ensures ItemAt(cl, bs, pos, it, pos + cl[it.sym] + BlExtra(it.sym))
  {
  }

  lemma {:induction false} LensEnd(cl: seq<nat>, bs: seq<bool>, pos: nat, lens: seq<nat>)
    ensures LensAt(cl, bs, pos, lens, lens, pos)
  {
  }

  lemma {:induction false} LensFrom(cl: seq<nat>, bs: seq<bool>, pos: nat, acc: seq<nat>, it: Item, p: nat,
      acc': seq<nat>, lens: seq<nat>, end: nat)
    requires |acc| < |lens| && ItemAt(cl, bs, pos, it, p) && ExpandItem(acc, it) == Some(acc')
             && LensAt(cl, bs, p, acc', lens, end)
    ensures LensAt(cl, bs, pos, acc, lens, end)
  {
  }

  lemma {:induction false} TreesFrom(bs: seq<bool>, pos: nat, ll: seq<nat>, dl: seq<nat>, cl: seq<nat>, n: nat,
      end: nat)
    requires n <= BL_CODES && BlLensAt(bs, pos, Repeat(0, BL_CODES), 0, n, cl)
             && LensAt(cl, bs, pos + 3 * n, [], ll + dl, end)
    ensures TreesAt(bs, pos, n, ll, dl, end)
  {
    var lens := ll + dl;
    assert lens[..|ll|] == ll && lens[|ll|..] == dl;
  }

  lemma {:induction false} HeaderFrom(bs: seq<bool>, pos: nat, n: nat, ll: seq<nat>, dl: seq<nat>, end: nat)
    requires 257 <= |ll| && 1 <= |dl| && 4 <= n <= BL_CODES && TreesAt(bs, pos + 14, n, ll, dl, end)
    requires FieldAt(bs, pos, 5, |ll| - 257) && FieldAt(bs, pos + 5, 5, |dl| - 1) && FieldAt(bs, pos + 10, 4, n - 4)
    ensures HeaderAt(bs, pos, ll, dl, end)
  {
  }

  // What follows the three header bits of a block of this kind is read as toks.
  ghost predicate BodyAt(bs: seq<bool>, pos: nat, kind: nat, toks: seq<Token>, end: nat)
  {
    || (kind == 0 && StoredAt(bs, pos, toks, end))
    || (kind == 1 && TokensAt(FixedLitLens(), FixedDistLens(), bs, pos, toks, end))
    || (kind == 2 && exists ll, dl, p :: HeaderAt(bs, pos, ll, dl, p) && TokensAt(ll, dl, bs, p, toks, end))
  }

  lemma {:induction false} BlockFrom(bs: seq<bool>, pos: nat, kind: nat, last: bool, toks: seq<Token>, end: nat)
    requires FieldAt(bs, pos, 1, if last then 1 else 0) && FieldAt(bs, pos + 1, 2, kind)
             && BodyAt(bs, pos + 3, kind, toks, end)
    ensures BlockAt(bs, pos, last, toks, end)
  {
  }
}
