/** The bits of a block as the compressor sends them, and the proof that the reference
    decoder reads them back: tokens, stored bytes and the header of dynamic codes. */
module BlockEncoding {
  import opened Bits
  import opened CanonicalCode
  import opened CodeLengthRuns
  import opened Inflate
  import opened Reading

  const END_BLOCK := 256

  // The tables that ct_init fills.
  datatype Tables = Tables(lengthCode: seq<nat>, distCode: seq<nat>, baseLength: seq<nat>, baseDist: seq<nat>) {
    ghost predicate Sized()
    {
      |lengthCode| == 256 && |distCode| == 512 && |baseLength| == 29 && |baseDist| == 30
    }

    // D_CODE(dist)
    function DCode(d: nat): nat
      requires d < 32768 && |distCode| == 512
    {
      if d < 256 then distCode[d] else distCode[256 + d / 128]
    }
  }

  // Length lc + 3 is coded by c and the extra value x.
  ghost predicate LengthSplit(lc: nat, c: nat, x: nat)
  {
    c < 29 && LengthBase(c) + x == lc + 3 && x < Pow2(LengthExtra(c))
  }

  // Distance d + 1 is coded by c and the extra value x.
  ghost predicate DistSplit(d: nat, c: nat, x: nat)
  {
    c < 30 && DistBase(c) + x == d + 1 && x < Pow2(DistExtra(c))
  }

  // The value of the extra bits as compress_block computes it.
  function LengthRest(t: Tables, lc: nat): (x: int)
    requires t.Sized() && lc < 256 && t.lengthCode[lc] < 29
  {
    var c := t.lengthCode[lc];
    if LengthExtra(c) == 0 then 0 else lc - t.baseLength[c]
  }

  function DistRest(t: Tables, d: nat): (x: int)
    requires t.Sized() && d < 32768 && t.DCode(d) < 30
  {
    var c := t.DCode(d);
    if DistExtra(c) == 0 then 0 else d - t.baseDist[c]
  }

  ghost predicate LengthOk(t: Tables, lc: nat)
    requires t.Sized() && lc < 256
  {
    t.lengthCode[lc] < 29 && LengthRest(t, lc) >= 0 && LengthSplit(lc, t.lengthCode[lc], LengthRest(t, lc))
  }

  ghost predicate DistOk(t: Tables, d: nat)
    requires t.Sized() && d < 32768
  {
    t.DCode(d) < 30 && DistRest(t, d) >= 0 && DistSplit(d, t.DCode(d), DistRest(t, d))
  }

  ghost predicate TablesOk(t: Tables)
  {
    && t.Sized()
    && (forall lc :: 0 <= lc < 256 ==> LengthOk(t, lc))
    && (forall d :: 0 <= d < 32768 ==> DistOk(t, d))
  }

  ghost predicate TokenOk(tok: Token)
  {
    tok.Match? ==> 3 <= tok.len <= 258 && 1 <= tok.dist <= 32768
  }

  // The symbols of a token.
  function LSym(t: Tables, tok: Token): nat
    requires t.Sized() && TokenOk(tok)
  {
    match tok
    case Literal(c) => c
    case Match(len, _) => t.lengthCode[len - 3] + 257
  }

  function DSym(t: Tables, tok: Token): nat
    requires t.Sized() && TokenOk(tok) && tok.Match?
  {
    t.DCode(tok.dist - 1)
  }

  // A token whose symbols have codes.
  ghost predicate TokCoded(t: Tables, ll: seq<nat>, dl: seq<nat>, tok: Token)
    requires TablesOk(t)
  {
    && TokenOk(tok)
    && LSym(t, tok) < |ll| && ll[LSym(t, tok)] > 0
    && (tok.Match? ==> DSym(t, tok) < |dl| && dl[DSym(t, tok)] > 0)
  }

  ghost function LengthBits(t: Tables, ll: seq<nat>, lc: nat): seq<bool>
    requires TablesOk(t) && lc < 256 && t.lengthCode[lc] + 257 < |ll|
  {
    assert LengthOk(t, lc);
    CodeBits(ll, t.lengthCode[lc] + 257) + BitsLE(LengthRest(t, lc), LengthExtra(t.lengthCode[lc]))
  }

  ghost function DistBits(t: Tables, dl: seq<nat>, d: nat): seq<bool>
    requires TablesOk(t) && d < 32768 && t.DCode(d) < |dl|
  {
    assert DistOk(t, d);
    CodeBits(dl, t.DCode(d)) + BitsLE(DistRest(t, d), DistExtra(t.DCode(d)))
  }

  ghost function TokBits(t: Tables, ll: seq<nat>, dl: seq<nat>, tok: Token): seq<bool>
    requires TablesOk(t) && TokCoded(t, ll, dl, tok)
  {
    match tok
    case Literal(c) => CodeBits(ll, c)
    case Match(len, dist) => LengthBits(t, ll, len - 3) + DistBits(t, dl, dist - 1)
  }

  ghost predicate TokensCoded(t: Tables, ll: seq<nat>, dl: seq<nat>, toks: seq<Token>)
    requires TablesOk(t)
  {
    forall i :: 0 <= i < |toks| ==> TokCoded(t, ll, dl, toks[i])
  }

  ghost function TokensBits(t: Tables, ll: seq<nat>, dl: seq<nat>, toks: seq<Token>): seq<bool>
    requires TablesOk(t) && TokensCoded(t, ll, dl, toks)
  {
    if toks == [] then [] else TokBits(t, ll, dl, toks[0]) + TokensBits(t, ll, dl, toks[1..])
  }

  lemma {:induction false} DistanceBack(t: Tables, dl: seq<nat>, bs: seq<bool>, pos: nat, len: nat, d: nat)
    requires TablesOk(t) && Prefixable(dl) && d < 32768 && t.DCode(d) < |dl| && dl[t.DCode(d)] > 0
    requires At(bs, pos, DistBits(t, dl, d))
    ensures DistanceAt(dl, bs, pos, len, Match(len, d + 1), pos + |DistBits(t, dl, d)|)
  {
    hide CodeBits, At, SymbolAt, FieldAt, DistanceAt, Prefixable;
    assert DistOk(t, d);
    var c, x := t.DCode(d), DistRest(t, d);
    AtConcat(bs, pos, CodeBits(dl, c), BitsLE(x, DistExtra(c)));
    SymbolBack(dl, bs, pos, c);
    FieldBack(bs, pos + dl[c], x, DistExtra(c));
    DistanceFrom(dl, bs, pos, len, c, x);
  }

  // A match is read back.
  lemma {:induction false} MatchBack(t: Tables, ll: seq<nat>, dl: seq<nat>, bs: seq<bool>, pos: nat, lc: nat, d: nat)
    requires TablesOk(t) && Prefixable(ll) && Prefixable(dl) && lc < 256 && d < 32768
    requires t.lengthCode[lc] + 257 < |ll| && ll[t.lengthCode[lc] + 257] > 0 && t.DCode(d) < |dl| && dl[t.DCode(d)] > 0
    requires At(bs, pos, LengthBits(t, ll, lc) + DistBits(t, dl, d))
    ensures TokenAt(ll, dl, bs, pos, Match(lc + 3, d + 1), pos + |LengthBits(t, ll, lc) + DistBits(t, dl, d)|)
  {
    hide CodeBits, At, SymbolAt, FieldAt, DistanceAt, TokenAt, Prefixable;
    assert LengthOk(t, lc);
    var c, x := t.lengthCode[lc], LengthRest(t, lc);
    AtConcat(bs, pos, LengthBits(t, ll, lc), DistBits(t, dl, d));
    AtConcat(bs, pos, CodeBits(ll, c + 257), BitsLE(x, LengthExtra(c)));
    SymbolBack(ll, bs, pos, c + 257);
    FieldBack(bs, pos + ll[c + 257], x, LengthExtra(c));
    DistanceBack(t, dl, bs, pos + ll[c + 257] + LengthExtra(c), lc + 3, d);
    MatchFrom(ll, dl, bs, pos, c, x, Match(lc + 3, d + 1), pos + |LengthBits(t, ll, lc) + DistBits(t, dl, d)|);
  }

  // One token is read back.
  lemma {:induction false} TokenBack(t: Tables, ll: seq<nat>, dl: seq<nat>, bs: seq<bool>, pos: nat, tok: Token)
    requires TablesOk(t) && Prefixable(ll) && Prefixable(dl) && TokCoded(t, ll, dl, tok)
    requires At(bs, pos, TokBits(t, ll, dl, tok))
    ensures TokenAt(ll, dl, bs, pos, tok, pos + |TokBits(t, ll, dl, tok)|)
  {
    hide CodeBits, LengthBits, DistBits, At, SymbolAt, TokenAt, Prefixable;
    match tok
    case Literal(c) =>
      SymbolBack(ll, bs, pos, c);
      LiteralFrom(ll, dl, bs, pos, c);
    case Match(len, dist) =>
      MatchBack(t, ll, dl, bs, pos, len - 3, dist - 1);
  }

  lemma {:induction false} TokensSplit(t: Tables, ll: seq<nat>, dl: seq<nat>, toks: seq<Token>, e: seq<bool>)
    requires TablesOk(t) && TokensCoded(t, ll, dl, toks) && toks != []
    ensures TokensCoded(t, ll, dl, toks[1..]) && TokCoded(t, ll, dl, toks[0])
    ensures TokensBits(t, ll, dl, toks) + e
            == TokBits(t, ll, dl, toks[0]) + (TokensBits(t, ll, dl, toks[1..]) + e)
  {
    Assoc(TokBits(t, ll, dl, toks[0]), TokensBits(t, ll, dl, toks[1..]), e);
  }

  // A whole block of tokens with its end-of-block mark is read back.
  lemma {:induction false} TokensBack(t: Tables, ll: seq<nat>, dl: seq<nat>, bs: seq<bool>, pos: nat,
      toks: seq<Token>, eob: seq<bool>, end: nat)
    requires TablesOk(t) && Prefixable(ll) && Prefixable(dl) && TokensCoded(t, ll, dl, toks)
    requires END_BLOCK < |ll| && ll[END_BLOCK] > 0 && eob == CodeBits(ll, END_BLOCK)
    requires At(bs, pos, TokensBits(t, ll, dl, toks) + eob) && end == pos + |TokensBits(t, ll, dl, toks) + eob|
    ensures TokensAt(ll, dl, bs, pos, toks, end)
    decreases |toks|
  {
    hide CodeBits, TokBits, At, TokenAt, TokensAt, Prefixable;
    if toks == [] {
      assert TokensBits(t, ll, dl, toks) + eob == eob;
      LastBack(ll, dl, bs, pos, eob, end);
    } else {
      TokensSplit(t, ll, dl, toks, eob);
      var a, b := TokBits(t, ll, dl, toks[0]), TokensBits(t, ll, dl, toks[1..]);
      AtConcat(bs, pos, a, b + eob);
      TokenBack(t, ll, dl, bs, pos, toks[0]);
      TokensBack(t, ll, dl, bs, pos + |a|, toks[1..], eob, end);
      TokensFrom(ll, dl, bs, pos, toks[0], pos + |a|, toks[1..], end);
      assert [toks[0]] + toks[1..] == toks;
    }
  }

  lemma {:induction false} LastBack(ll: seq<nat>, dl: seq<nat>, bs: seq<bool>, pos: nat, eob: seq<bool>, end: nat)
    requires Prefixable(ll) && END_BLOCK < |ll| && ll[END_BLOCK] > 0 && eob == CodeBits(ll, END_BLOCK)
             && At(bs, pos, eob) && end == pos + |eob|
    ensures TokensAt(ll, dl, bs, pos, [], end)
  {
    SymbolBack(ll, bs, pos, END_BLOCK);
    TokensEnd(ll, dl, bs, pos);
  }

  // Stored bytes.
  function Literals(s: seq<byte>): (ts: seq<Token>)
    ensures |ts| == |s|
  {
    seq(|s|, i requires 0 <= i < |s| => Literal(s[i]))
  }

  lemma {:induction false} BytesBack(bs: seq<bool>, pos: nat, s: seq<byte>)
    requires At(bs, pos, ByteBits(s))
    ensures BytesAt(bs, pos, |s|, Literals(s))
    decreases |s|
  {
    hide At, FieldAt, BytesAt;
    if s == [] {
      BytesEnd(bs, pos);
      assert Literals(s) == [];
    } else {
      assert s == [s[0]] + s[1..];
      ByteBitsConcat([s[0]], s[1..]);
      ByteBitsSnoc([], s[0]);
      assert ByteBits([s[0]]) == BitsLE(s[0], 8);
      AtConcat(bs, pos, BitsLE(s[0], 8), ByteBits(s[1..]));
      Pow2Small();
      FieldBack(bs, pos, s[0], 8);
      BytesBack(bs, pos + 8, s[1..]);
      BytesFrom(bs, pos, |s| - 1, s[0], Literals(s[1..]));
      assert [Literal(s[0])] + Literals(s[1..]) == Literals(s);
    }
  }

  ghost function StoredBits(pos: nat, s: seq<byte>): seq<bool>
    requires |s| < 65536
  {
    BitsLE(0, StoredPad(pos)) + (BitsLE(|s|, 16) + BitsLE(65535 - |s|, 16)) + ByteBits(s)
  }

  lemma {:induction false} AlignedPad(pos: nat)
    ensures ByteAligned(pos) == pos + StoredPad(pos)
  {
  }

  lemma {:induction false} StoredFields(bs: seq<bool>, pos: nat, s: seq<byte>, p: nat)
    requires |s| < 65536 && At(bs, pos, StoredBits(pos, s)) && p == pos + StoredPad(pos)
    ensures At(bs, p, BitsLE(|s|, 16)) && At(bs, p + 16, BitsLE(65535 - |s|, 16)) && At(bs, p + 32, ByteBits(s))
  {
    hide At;
    var pad, len, nlen := BitsLE(0, StoredPad(pos)), BitsLE(|s|, 16), BitsLE(65535 - |s|, 16);
    AtConcat(bs, pos, pad + (len + nlen), ByteBits(s));
    AtConcat(bs, pos, pad, len + nlen);
    AtConcat(bs, p, len, nlen);
  }

  lemma {:induction false} StoredBack(bs: seq<bool>, pos: nat, s: seq<byte>)
    requires |s| < 65536 && At(bs, pos, StoredBits(pos, s))
    ensures StoredAt(bs, pos, Literals(s), pos + |StoredBits(pos, s)|)
  {
    hide At, FieldAt, BytesAt, StoredAt, BitsLE, ByteBits;
    var p := pos + StoredPad(pos);
    AlignedPad(pos);
    StoredFields(bs, pos, s, p);
    Pow2Small();
    FieldBack(bs, p, |s|, 16);
    FieldBack(bs, p + 16, 65535 - |s|, 16);
    BytesBack(bs, p + 32, s);
    StoredFrom(bs, pos, p, |s|, Literals(s));
    StoredLength(pos, s);
  }

  lemma {:induction false} StoredLength(pos: nat, s: seq<byte>)
    requires |s| < 65536
    ensures |StoredBits(pos, s)| == StoredPad(pos) + 32 + 8 * |s|
  {
  }

  // The lengths of the code length code, in transmission order.
  ghost predicate BlLensOk(cl: seq<nat>)
  {
    |cl| == BL_CODES && forall i :: 0 <= i < BL_CODES ==> cl[i] < 8
  }

  ghost function BlLensBits(cl: seq<nat>, from: nat, n: nat): (bs: seq<bool>)
    requires BlLensOk(cl) && from + n <= BL_CODES
    ensures |bs| == 3 * n
    decreases n
  {
    if n == 0 then [] else BitsLE(cl[BlOrder(from)], 3) + BlLensBits(cl, from + 1, n - 1)
  }

  lemma {:induction false} BlOrderDistinct(i: nat, j: nat)
    requires i < j < BL_CODES
    ensures BlOrder(i) != BlOrder(j)
  {
  }

  lemma {:induction false} BlOrderCovers(s: nat) returns (i: nat)
    requires s < BL_CODES
    ensures i < BL_CODES && BlOrder(i) == s
  {
    i := if s >= 16 then s - 16 else if s == 0 then 3 else if s >= 8 then 4 + 2 * (s - 8) else 5 + 2 * (7 - s);
  }

  // cur already agrees with cl except at the places that are still to be read.
  ghost predicate AgreeOutside(cl: seq<nat>, cur: seq<nat>, from: nat, n: nat)
  {
    && |cl| == |cur| == BL_CODES && from + n <= BL_CODES
    && forall i :: 0 <= i < BL_CODES && (i < from || i >= from + n) ==> cur[BlOrder(i)] == cl[BlOrder(i)]
  }

  lemma {:induction false} AgreeMore(cl: seq<nat>, cur: seq<nat>, from: nat, n: nat)
    requires AgreeOutside(cl, cur, from, n) && n > 0
    ensures AgreeOutside(cl, cur[BlOrder(from) := cl[BlOrder(from)]], from + 1, n - 1)
  {
    var cur' := cur[BlOrder(from) := cl[BlOrder(from)]];
    forall i | 0 <= i < BL_CODES && (i < from + 1 || i >= from + n) ensures cur'[BlOrder(i)] == cl[BlOrder(i)] {
      if i < from { BlOrderDistinct(i, from); } else if i > from { BlOrderDistinct(from, i); }
    }
  }

  lemma {:induction false} BlLensBack(bs: seq<bool>, pos: nat, cl: seq<nat>, cur: seq<nat>, from: nat, n: nat)
    requires BlLensOk(cl) && AgreeOutside(cl, cur, from, n)
    requires At(bs, pos, BlLensBits(cl, from, n))
    ensures BlLensAt(bs, pos, cur, from, n, cl)
    decreases n
  {
    hide At, FieldAt, BlLensAt, BitsLE;
    if n == 0 {
      forall s | 0 <= s < BL_CODES ensures cur[s] == cl[s] {
        var i := BlOrderCovers(s);
      }
      assert cur == cl;
      BlLensEnd(bs, pos, cl, from);
    } else {
      var v := cl[BlOrder(from)];
      AtConcat(bs, pos, BitsLE(v, 3), BlLensBits(cl, from + 1, n - 1));
      Pow2Small();
      FieldBack(bs, pos, v, 3);
      AgreeMore(cl, cur, from, n);
      BlLensBack(bs, pos + 3, cl, cur[BlOrder(from) := v], from + 1, n - 1);
      BlLensFrom(bs, pos, cur, from, n, v, cl);
    }
  }

  // Code length items.
  ghost predicate ItemsCoded(cl: seq<nat>, items: seq<Item>)
  {
    forall i :: 0 <= i < |items| ==> ItemOk(items[i]) && items[i].sym < |cl| && cl[items[i].sym] > 0
  }

  ghost function ItemBits(cl: seq<nat>, it: Item): seq<bool>
    requires it.sym < |cl|
  {
    CodeBits(cl, it.sym) + BitsLE(it.extra, BlExtra(it.sym))
  }

  ghost function ItemsBits(cl: seq<nat>, items: seq<Item>): seq<bool>
    requires ItemsCoded(cl, items)
    decreases |items|
  {
    if items == [] then [] else ItemBits(cl, items[0]) + ItemsBits(cl, items[1..])
  }

  lemma {:induction false} ItemBack(cl: seq<nat>, bs: seq<bool>, pos: nat, it: Item)
    requires Prefixable(cl) && ItemOk(it) && it.sym < |cl| && cl[it.sym] > 0 && At(bs, pos, ItemBits(cl, it))
    ensures ItemAt(cl, bs, pos, it, pos + |ItemBits(cl, it)|)
  {
    AtConcat(bs, pos, CodeBits(cl, it.sym), BitsLE(it.extra, BlExtra(it.sym)));
    SymbolBack(cl, bs, pos, it.sym);
    FieldBack(bs, pos + cl[it.sym], it.extra, BlExtra(it.sym));
    ItemFrom(cl, bs, pos, it);
  }

  lemma {:induction false} ExpandGrows(acc: seq<nat>, items: seq<Item>)
    requires Expand(acc, items).Some?
    ensures |Expand(acc, items).value| >= |acc| + |items|
    decreases |items|
  {
    if items != [] { ExpandGrows(ExpandItem(acc, items[0]).value, items[1..]); }
  }

  // The lengths of both trees are read back.
  lemma {:induction false} LensBack(cl: seq<nat>, bs: seq<bool>, pos: nat, items: seq<Item>, acc: seq<nat>,
      lens: seq<nat>, end: nat)
    requires Prefixable(cl) && ItemsCoded(cl, items) && At(bs, pos, ItemsBits(cl, items))
             && end == pos + |ItemsBits(cl, items)|
    requires Expand(acc, items) == Some(lens)
    ensures LensAt(cl, bs, pos, acc, lens, end)
    decreases |items|
  {
    hide CodeBits, ItemBits, At, LensAt, ItemAt, Prefixable;
    if items == [] {
      LensEnd(cl, bs, pos, lens);
    } else {
      var it, rest := items[0], items[1..];
      RestCoded(cl, items);
      AtConcat(bs, pos, ItemBits(cl, it), ItemsBits(cl, rest));
      ExpandGrows(acc, items);
      ItemBack(cl, bs, pos, it);
      var acc' := ExpandItem(acc, it).value;
      LensBack(cl, bs, pos + |ItemBits(cl, it)|, rest, acc', lens, end);
      LensFrom(cl, bs, pos, acc, it, pos + |ItemBits(cl, it)|, acc', lens, end);
    }
  }

  lemma {:induction false} RestCoded(cl: seq<nat>, items: seq<Item>)
    requires ItemsCoded(cl, items) && items != []
    ensures ItemsCoded(cl, items[1..])
  {
    assert forall i :: 0 <= i < |items| - 1 ==> items[1..][i] == items[i + 1];
  }

  // The header of a block with dynamic codes. n is the number of code length code lengths.
  datatype Dynamic = Dynamic(ll: seq<nat>, dl: seq<nat>, cl: seq<nat>, n: nat) {
    function Items(): seq<Item> { AllRuns(ll) + AllRuns(dl) }

    ghost predicate Valid()
    {
      && 257 <= |ll| <= 286 && 1 <= |dl| <= 30 && 4 <= n <= BL_CODES
      && Prefixable(ll) && Prefixable(dl) && Prefixable(cl) && BlLensOk(cl)
      && (forall i :: n <= i < BL_CODES ==> cl[BlOrder(i)] == 0)
      && ItemsCoded(cl, Items())
    }

    ghost function Counts(): seq<bool>
      requires Valid()
    {
      BitsLE(|ll| - 257, 5) + BitsLE(|dl| - 1, 5) + BitsLE(n - 4, 4)
    }

    ghost function Bits(): seq<bool>
      requires Valid()
    {
      Counts() + BlLensBits(cl, 0, n) + ItemsBits(cl, Items())
    }
  }

  lemma {:induction false} CountsBack(h: Dynamic, bs: seq<bool>, pos: nat)
    requires h.Valid() && At(bs, pos, h.Counts())
    ensures FieldAt(bs, pos, 5, |h.ll| - 257) && FieldAt(bs, pos + 5, 5, |h.dl| - 1)
            && FieldAt(bs, pos + 10, 4, h.n - 4)
  {
    hide At, FieldAt, BitsLE;
    var a, b, c := BitsLE(|h.ll| - 257, 5), BitsLE(|h.dl| - 1, 5), BitsLE(h.n - 4, 4);
    AtConcat(bs, pos, a + b, c);
    AtConcat(bs, pos, a, b);
    Pow2Small();
    FieldBack(bs, pos, |h.ll| - 257, 5);
    FieldBack(bs, pos + 5, |h.dl| - 1, 5);
    FieldBack(bs, pos + 10, h.n - 4, 4);
  }

  lemma {:induction false} HeaderParts(h: Dynamic, bs: seq<bool>, pos: nat)
    requires h.Valid() && At(bs, pos, h.Bits())
    ensures At(bs, pos, h.Counts()) && At(bs, pos + 14, BlLensBits(h.cl, 0, h.n))
    ensures At(bs, pos + 14 + 3 * h.n, ItemsBits(h.cl, h.Items()))
    ensures |h.Bits()| == 14 + 3 * h.n + |ItemsBits(h.cl, h.Items())|
  {
    hide At, ItemsBits, BlLensBits, BitsLE, Prefixable;
    AtConcat(bs, pos, h.Counts() + BlLensBits(h.cl, 0, h.n), ItemsBits(h.cl, h.Items()));
    AtConcat(bs, pos, h.Counts(), BlLensBits(h.cl, 0, h.n));
  }

  lemma {:induction false} AgreeAtStart(h: Dynamic)
    requires h.Valid()
    ensures AgreeOutside(h.cl, Repeat(0, BL_CODES), 0, h.n)
  {
  }

  // The header is read back: both code length sequences, whatever the run coding did.
  lemma {:induction false} HeaderBack(h: Dynamic, bs: seq<bool>, pos: nat)
    requires h.Valid() && At(bs, pos, h.Bits())
    ensures HeaderAt(bs, pos, h.ll, h.dl, pos + |h.Bits()|)
  {
    hide CodeBits, At, FieldAt, TreesAt, HeaderAt, ItemsBits, BlLensBits, Prefixable;
    HeaderParts(h, bs, pos);
    CountsBack(h, bs, pos);
    TreesBack(h, bs, pos + 14);
    HeaderFrom(bs, pos, h.n, h.ll, h.dl, pos + |h.Bits()|);
  }

  lemma {:induction false} TreesBack(h: Dynamic, bs: seq<bool>, pos: nat)
    requires h.Valid() && At(bs, pos, BlLensBits(h.cl, 0, h.n)) && At(bs, pos + 3 * h.n, ItemsBits(h.cl, h.Items()))
    ensures TreesAt(bs, pos, h.n, h.ll, h.dl, pos + 3 * h.n + |ItemsBits(h.cl, h.Items())|)
  {
    hide CodeBits, FirstCode, At, BlLensAt, LensAt, TreesAt, ItemsBits, BlLensBits;
    AgreeAtStart(h);
    TwoTreesExpand(h.ll, h.dl);
    BlLensBack(bs, pos, h.cl, Repeat(0, BL_CODES), 0, h.n);
    var end := pos + 3 * h.n + |ItemsBits(h.cl, h.Items())|;
    LensBack(h.cl, bs, pos + 3 * h.n, h.Items(), [], h.ll + h.dl, end);
    TreesFrom(bs, pos, h.ll, h.dl, h.cl, h.n, end);
  }
}
