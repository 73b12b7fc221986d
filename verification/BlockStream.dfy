/** Blocks one after the other: each kind of block as the reference decoder sees it in the
    stream, and the stream of all blocks sent so far. */
module BlockStream {
  import opened Bits
  import opened CanonicalCode
  import opened CodeLengthRuns
  import opened Inflate
  import opened BlockEncoding
  import opened Reading

  const STORED_BLOCK := 0
  const STATIC_TREES := 1
  const DYN_TREES := 2

  function KindBits(kind: nat, last: bool): (bs: seq<bool>)
    ensures |bs| == 3
  {
    BitsLE(2 * kind + if last then 1 else 0, 3)
  }

  lemma {:induction false} KindBack(bs: seq<bool>, pos: nat, kind: nat, last: bool)
    requires kind < 4 && At(bs, pos, KindBits(kind, last))
    ensures FieldAt(bs, pos, 1, if last then 1 else 0) && FieldAt(bs, pos + 1, 2, kind)
  {
    var b := if last then 1 else 0;
    Pow2Small();
    assert Shl(kind, 1) == 2 * Shl(kind, 0);
    BitsConcat(b, kind, 1, 2);
    AtConcat(bs, pos, BitsLE(b, 1), BitsLE(kind, 2));
    FieldBack(bs, pos, b, 1);
    FieldBack(bs, pos + 1, kind, 2);
  }

  lemma {:induction false} CountConcat(a: seq<nat>, b: seq<nat>, l: nat)
    ensures Count(a + b, l) == Count(a, l) + Count(b, l)
    decreases |b|
  {
    if b == [] {
      assert a + b == a;
    } else {
      var k := |b| - 1;
      CountConcat(a, b[..k], l);
      assert (a + b)[..|a| + k] == a + b[..k];
    }
  }

  lemma {:induction false} CountRepeat(x: nat, n: nat, l: nat)
    ensures Count(Repeat(x, n), l) == if x == l then n else 0
    decreases n
  {
    if n != 0 {
      CountRepeat(x, n - 1, l);
      assert Repeat(x, n)[..n - 1] == Repeat(x, n - 1);
    }
  }

  lemma {:induction false} FixedLitCount(l: nat)
    ensures Count(FixedLitLens(), l) == if l == 7 then 24 else if l == 8 then 152 else if l == 9 then 112 else 0
  {
    var a, b, c, d := Repeat(8, 144), Repeat(9, 112), Repeat(7, 24), Repeat(8, 8);
    assert FixedLitLens() == a + b + c + d;
    CountConcat(a + b + c, d, l);
    CountConcat(a + b, c, l);
    CountConcat(a, b, l);
    CountRepeat(8, 144, l);
    CountRepeat(9, 112, l);
    CountRepeat(7, 24, l);
    CountRepeat(8, 8, l);
  }

  lemma {:induction false} FixedLitFirst(l: nat)
    requires 1 <= l <= 16
    ensures FirstCode(FixedLitLens(), l) == if l <= 7 then 0 else if l == 8 then 48 else if l == 9 then 400 else Pow2(l)
  {
    if l > 1 {
      FixedLitFirst(l - 1);
      FixedLitCount(l - 1);
    }
    assert Pow2(10) == 1024;
  }

  lemma {:induction false} FixedDistFirst(l: nat)
    requires 1 <= l <= 16
    ensures FirstCode(FixedDistLens(), l) == if l <= 5 then 0 else Pow2(l)
  {
    if l > 1 {
      FixedDistFirst(l - 1);
      assert FixedDistLens() == Repeat(5, 32);
      CountRepeat(5, 32, l - 1);
    }
    assert Pow2(6) == 64;
  }

  // The fixed codes are complete prefix codes.
  lemma {:induction false} FixedComplete()
    ensures Complete(FixedLitLens()) && Complete(FixedDistLens())
  {
    FixedLitFirst(16);
    FixedDistFirst(16);
    Pow2Small();
  }

  // The code of fixed distance symbol n is n itself.
  lemma {:induction false} FixedDistCode(n: nat)
    requires n < 32
    ensures CodeBits(FixedDistLens(), n) == BitsBE(n, 5)
  {
    FixedDistFirst(5);
    assert FixedDistLens()[..n] == Repeat(5, n);
    CountRepeat(5, n, 5);
  }

  // The bits of compress_block.
  ghost function DataBits(t: Tables, ll: seq<nat>, dl: seq<nat>, toks: seq<Token>): (d: seq<bool>)
    requires TablesOk(t) && TokensCoded(t, ll, dl, toks) && END_BLOCK < |ll|
    ensures |d| == |TokensBits(t, ll, dl, toks)| + ll[END_BLOCK]
  {
    TokensBits(t, ll, dl, toks) + CodeBits(ll, END_BLOCK)
  }

  // A block as flush_block sends it: stored bytes, or tokens under the fixed codes or under
  // codes of their own.
  datatype Sent =
    | StoredBlock(bytes: seq<byte>)
    | StaticBlock(toks: seq<Token>)
    | DynamicBlock(codes: Dynamic, toks: seq<Token>)
  {
    ghost predicate Valid(t: Tables)
      requires TablesOk(t)
    {
      match this
      case StoredBlock(s) => |s| < 65536
      case StaticBlock(ts) => TokensCoded(t, FixedLitLens(), FixedDistLens(), ts)
      case DynamicBlock(h, ts) => h.Valid() && TokensCoded(t, h.ll, h.dl, ts) && h.ll[END_BLOCK] > 0
    }

    function Kind(): (k: nat)
      ensures k < 3
    {
      match this
      case StoredBlock(_) => STORED_BLOCK
      case StaticBlock(_) => STATIC_TREES
      case DynamicBlock(_, _) => DYN_TREES
    }

    function Tokens(): seq<Token>
    {
      match this case StoredBlock(s) => Literals(s) case StaticBlock(ts) => ts case DynamicBlock(_, ts) => ts
    }

    // What follows the three header bits, which end at pos.
    ghost function Body(t: Tables, pos: nat): seq<bool>
      requires TablesOk(t) && Valid(t)
    {
      match this
      case StoredBlock(s) => StoredBits(pos, s)
      case StaticBlock(ts) => DataBits(t, FixedLitLens(), FixedDistLens(), ts)
      case DynamicBlock(h, ts) => h.Bits() + DataBits(t, h.ll, h.dl, ts)
    }

    ghost function Bits(t: Tables, pos: nat, last: bool): (bs: seq<bool>)
      requires TablesOk(t) && Valid(t)
      ensures |bs| > 0
    {
      KindBits(Kind(), last) + Body(t, pos + 3)
    }
  }

  lemma {:induction false} DataBack(t: Tables, ll: seq<nat>, dl: seq<nat>, bs: seq<bool>, pos: nat, toks: seq<Token>,
      d: seq<bool>)
    requires TablesOk(t) && Prefixable(ll) && Prefixable(dl) && TokensCoded(t, ll, dl, toks)
    requires END_BLOCK < |ll| && ll[END_BLOCK] > 0 && d == DataBits(t, ll, dl, toks) && At(bs, pos, d)
    ensures TokensAt(ll, dl, bs, pos, toks, pos + |d|)
  {
    hide CodeBits, At, TokensAt, TokensBits, Prefixable;
    var eob, end := CodeBits(ll, END_BLOCK), pos + |d|;
    assert d == TokensBits(t, ll, dl, toks) + eob;
    TokensBack(t, ll, dl, bs, pos, toks, eob, end);
  }

  lemma {:induction false} StaticBack(t: Tables, toks: seq<Token>, bs: seq<bool>, pos: nat, ll: seq<nat>,
      dl: seq<nat>, d: seq<bool>)
    requires ll == FixedLitLens() && dl == FixedDistLens() && TablesOk(t) && TokensCoded(t, ll, dl, toks)
    requires d == DataBits(t, ll, dl, toks) && At(bs, pos, d)
    ensures BodyAt(bs, pos, STATIC_TREES, toks, pos + |d|)
  {
    FixedComplete();
    DataBack(t, ll, dl, bs, pos, toks, d);
  }

  lemma {:induction false} DynamicBack(t: Tables, h: Dynamic, toks: seq<Token>, bs: seq<bool>, pos: nat,
      hd: seq<bool>, d: seq<bool>, body: seq<bool>)
    requires h.Valid() && TablesOk(t) && TokensCoded(t, h.ll, h.dl, toks) && h.ll[END_BLOCK] > 0
    requires hd == h.Bits() && d == DataBits(t, h.ll, h.dl, toks) && body == hd + d && At(bs, pos, body)
    ensures BodyAt(bs, pos, DYN_TREES, toks, pos + |body|)
  {
    hide CodeBits, At, TokensAt, HeaderAt, FirstCode, DataBits;
    AtConcat(bs, pos, hd, d);
    HeaderBack(h, bs, pos);
    DataBack(t, h.ll, h.dl, bs, pos + |hd|, toks, d);
    DynamicFrom(bs, pos, h.ll, h.dl, pos + |hd|, toks, pos + |hd| + |d|);
  }

  lemma {:induction false} DynamicFrom(bs: seq<bool>, pos: nat, ll: seq<nat>, dl: seq<nat>, p: nat, toks: seq<Token>,
      end: nat)
    requires HeaderAt(bs, pos, ll, dl, p) && TokensAt(ll, dl, bs, p, toks, end)
    ensures BodyAt(bs, pos, DYN_TREES, toks, end)
  {
  }

  lemma {:induction false} StoredBodyBack(t: Tables, b: Sent, bs: seq<bool>, pos: nat, body: seq<bool>)
    requires b.StoredBlock? && TablesOk(t) && b.Valid(t) && body == b.Body(t, pos) && At(bs, pos, body)
    ensures BodyAt(bs, pos, b.Kind(), b.Tokens(), pos + |body|)
  {
    StoredBack(bs, pos, b.bytes);
  }

  lemma {:induction false} StaticBodyBack(t: Tables, b: Sent, bs: seq<bool>, pos: nat, body: seq<bool>)
    requires b.StaticBlock? && TablesOk(t) && b.Valid(t) && body == b.Body(t, pos) && At(bs, pos, body)
    ensures BodyAt(bs, pos, b.Kind(), b.Tokens(), pos + |body|)
  {
    StaticBack(t, b.toks, bs, pos, FixedLitLens(), FixedDistLens(), body);
  }

  lemma {:induction false} DynamicBodyBack(t: Tables, b: Sent, bs: seq<bool>, pos: nat, body: seq<bool>)
    requires b.DynamicBlock? && TablesOk(t) && b.Valid(t) && body == b.Body(t, pos) && At(bs, pos, body)
    ensures BodyAt(bs, pos, b.Kind(), b.Tokens(), pos + |body|)
  {
    DynamicBack(t, b.codes, b.toks, bs, pos, b.codes.Bits(), DataBits(t, b.codes.ll, b.codes.dl, b.toks), body);
  }

  lemma {:induction false} BodyBack(t: Tables, b: Sent, bs: seq<bool>, pos: nat, body: seq<bool>)
    requires TablesOk(t) && b.Valid(t) && body == b.Body(t, pos) && At(bs, pos, body)
    ensures BodyAt(bs, pos, b.Kind(), b.Tokens(), pos + |body|)
  {
    match b {
      case StoredBlock(_) => StoredBodyBack(t, b, bs, pos, body);
      case StaticBlock(_) => StaticBodyBack(t, b, bs, pos, body);
      case DynamicBlock(_, _) => DynamicBodyBack(t, b, bs, pos, body);
    }
  }

  lemma {:induction false} BlockOf(bs: seq<bool>, pos: nat, kind: nat, last: bool, toks: seq<Token>, body: seq<bool>,
      end: nat)
    requires kind < 3 && At(bs, pos, KindBits(kind, last)) && BodyAt(bs, pos + 3, kind, toks, end)
    ensures BlockAt(bs, pos, last, toks, end)
  {
    KindBack(bs, pos, kind, last);
    BlockFrom(bs, pos, kind, last, toks, end);
  }

  // Every block, whichever form it takes, is read back by the reference decoder.
  lemma {:induction false} BlockBack(t: Tables, b: Sent, last: bool, bs: seq<bool>, pos: nat, body: seq<bool>)
    requires TablesOk(t) && b.Valid(t) && body == b.Body(t, pos + 3) && At(bs, pos, KindBits(b.Kind(), last) + body)
    ensures BlockAt(bs, pos, last, b.Tokens(), pos + 3 + |body|)
  {
    hide *;
    AtConcat(bs, pos, KindBits(b.Kind(), last), body);
    BodyBack(t, b, bs, pos + 3, body);
    BlockOf(bs, pos, b.Kind(), last, b.Tokens(), body, pos + 3 + |body|);
  }

  // Some bits of the stream and the tokens they stand for.
  datatype Piece = Piece(bits: seq<bool>, toks: seq<Token>)

  function PieceBits(ps: seq<Piece>): seq<bool>
  {
    if ps == [] then [] else PieceBits(ps[..|ps| - 1]) + ps[|ps| - 1].bits
  }

  function PieceTokens(ps: seq<Piece>): seq<Token>
  {
    if ps == [] then [] else PieceTokens(ps[..|ps| - 1]) + ps[|ps| - 1].toks
  }

  lemma {:induction false} PieceTokensSnoc(ps: seq<Piece>, p: Piece)
    ensures PieceTokens(ps + [p]) == PieceTokens(ps) + p.toks
  {
    assert (ps + [p])[..|ps|] == ps;
  }

  // The piece is a block, read back wherever it stands at pos.
  ghost predicate IsBlock(p: Piece, pos: nat, last: bool)
  {
    && |p.bits| > 0
    && forall bs: seq<bool> :: At(bs, pos, p.bits) ==> BlockAt(bs, pos, last, p.toks, pos + |p.bits|)
  }

  lemma {:induction false} SentBits(t: Tables, b: Sent, pos: nat, last: bool)
    requires TablesOk(t) && b.Valid(t)
    ensures b.Bits(t, pos, last) == KindBits(b.Kind(), last) + b.Body(t, pos + 3)
  {
  }

  lemma {:induction false} SentIsBlock(t: Tables, b: Sent, pos: nat, last: bool, p: Piece)
    requires TablesOk(t) && b.Valid(t) && p == Piece(b.Bits(t, pos, last), b.Tokens())
    ensures IsBlock(p, pos, last)
  {
    hide At, BlockAt, TablesOk, Sent.Valid, Sent.Bits, Sent.Body;
    var body := b.Body(t, pos + 3);
    SentBits(t, b, pos, last);
    forall bs: seq<bool> | At(bs, pos, p.bits) ensures BlockAt(bs, pos, last, p.toks, pos + |p.bits|) {
      BlockBack(t, b, last, bs, pos, body);
    }
  }

  lemma {:induction false} BlockRead(p: Piece, pos: nat, last: bool, bs: seq<bool>)
    requires IsBlock(p, pos, last) && At(bs, pos, p.bits)
    ensures DecodeBlock(bs, pos) == Some(Block(last, p.toks, pos + |p.bits|)) && pos + |p.bits| <= |bs|
  {
    assert BlockAt(bs, pos, last, p.toks, pos + |p.bits|);
  }

  // The blocks sent so far; none is the last one.
  ghost predicate IsStream(ps: seq<Piece>)
  {
    ps == [] || (IsStream(ps[..|ps| - 1]) && IsBlock(ps[|ps| - 1], |PieceBits(ps[..|ps| - 1])|, false))
  }

  lemma {:induction false} StreamSnoc(ps: seq<Piece>, p: Piece)
    requires IsStream(ps) && IsBlock(p, |PieceBits(ps)|, false)
    ensures IsStream(ps + [p]) && PieceBits(ps + [p]) == PieceBits(ps) + p.bits
            && PieceTokens(ps + [p]) == PieceTokens(ps) + p.toks
  {
    assert (ps + [p])[..|ps|] == ps;
  }

  // Prepending the tokens of earlier blocks.
  function Prepend(toks: seq<Token>, r: Option<(seq<Token>, nat)>): Option<(seq<Token>, nat)>
  {
    match r
    case None => None
    case Some((ts, p)) => Some((toks + ts, p))
  }

  lemma {:induction false} NextBlock(bs: seq<bool>, pos: nat, toks: seq<Token>, ts: seq<Token>, end: nat)
    requires DecodeBlocks(bs, 0) == Prepend(toks, DecodeBlocks(bs, pos))
    requires DecodeBlock(bs, pos) == Some(Block(false, ts, end)) && pos < end <= |bs|
    ensures DecodeBlocks(bs, 0) == Prepend(toks + ts, DecodeBlocks(bs, end))
  {
    var r := DecodeBlocks(bs, end);
    if r.Some? { Assoc(toks, ts, r.value.0); }
  }

  // The decoder works through the blocks and goes on after them.
  lemma {:induction false} StreamBack(ps: seq<Piece>, bs: seq<bool>)
    requires IsStream(ps) && At(bs, 0, PieceBits(ps))
    ensures DecodeBlocks(bs, 0) == Prepend(PieceTokens(ps), DecodeBlocks(bs, |PieceBits(ps)|))
  {
    hide At, DecodeBlock, DecodeBlocks;
    if ps == [] {
      var r := DecodeBlocks(bs, 0);
      if r.Some? { assert [] + r.value.0 == r.value.0; }
    } else {
      var k := |ps| - 1;
      var s, p := PieceBits(ps[..k]), ps[k];
      AtConcat(bs, 0, s, p.bits);
      StreamBack(ps[..k], bs);
      BlockRead(p, |s|, false, bs);
      NextBlock(bs, |s|, PieceTokens(ps[..k]), p.toks, |s| + |p.bits|);
    }
  }

  lemma {:induction false} LastBlock(bs: seq<bool>, pos: nat, toks: seq<Token>, ts: seq<Token>, end: nat)
    requires DecodeBlocks(bs, 0) == Prepend(toks, DecodeBlocks(bs, pos))
    requires DecodeBlock(bs, pos) == Some(Block(true, ts, end))
    ensures DecodeBlocks(bs, 0) == Some((toks + ts, end))
  {
    assert DecodeBlocks(bs, pos) == Some((ts, end));
  }

  // A complete stream: blocks, the last block, and anything after it.
  lemma {:induction false} WholeStreamBack(ps: seq<Piece>, p: Piece, bs: seq<bool>, pos: nat)
    requires IsStream(ps) && pos == |PieceBits(ps)| && IsBlock(p, pos, true) && At(bs, 0, PieceBits(ps) + p.bits)
    ensures DecodeBlocks(bs, 0) == Some((PieceTokens(ps) + p.toks, pos + |p.bits|))
  {
    hide At, DecodeBlock, DecodeBlocks;
    AtConcat(bs, 0, PieceBits(ps), p.bits);
    StreamBack(ps, bs);
    BlockRead(p, pos, true, bs);
    LastBlock(bs, pos, PieceTokens(ps), p.toks, pos + |p.bits|);
  }
}
