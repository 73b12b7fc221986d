/** ct_init: the tables from match lengths and distances to codes, and the static trees. */
module CodeTables {
  import opened Bits
  import opened CanonicalCode
  import opened CodeLengthRuns
  import opened Inflate
  import opened BlockEncoding
  import opened BlockStream

  const LENGTH_CODES := 29

  // Normalized length lc lies in the range of code c.
  ghost predicate InLength(lc: nat, c: nat)
  {
    c < 28 && LengthBase(c) <= lc + 3 < LengthBase(c) + Pow2(LengthExtra(c))
  }

  ghost predicate InDist(d: nat, c: nat)
  {
    c < D_CODES && DistBase(c) <= d + 1 < DistBase(c) + Pow2(DistExtra(c))
  }

  lemma {:induction false} LengthRoom(c: nat)
    requires c < 28
    ensures LengthBase(c) >= 3 && LengthBase(c) - 3 + Pow2(LengthExtra(c)) <= 256
    ensures c < 27 ==> LengthBase(c + 1) == LengthBase(c) + Pow2(LengthExtra(c))
    ensures c == 27 ==> LengthBase(c) - 3 + Pow2(LengthExtra(c)) == 256
  {
    Rfc1951Lengths();
    Pow2Small();
  }

  // The inner loop of each part: the next n entries from `from` on get the code.
  method FillRun(a: array<nat>, from: nat, n: nat, code: nat) returns (next: nat)
    requires from + n <= a.Length
    modifies a
    ensures next == from + n
    ensures forall i :: 0 <= i < a.Length ==> a[i] == if from <= i < next then code else old(a[i])
  {
    next := from;
    for k := 0 to n
      invariant next == from + k
      invariant forall i :: 0 <= i < a.Length ==> a[i] == if from <= i < next then code else old(a[i])
    {
      a[next] := code;
      next := next + 1;
    }
  }

  // The codes of the first `length` lengths, and the bases of the first `code` codes.
  ghost predicate LengthsDone(lc: seq<nat>, length: nat)
  {
    |lc| == 256 && length <= 256 && forall i :: 0 <= i < length ==> InLength(i, lc[i])
  }

  ghost predicate LengthBasesDone(bases: seq<nat>, code: nat)
  {
    code <= |bases| && forall c :: 0 <= c < code ==> bases[c] == LengthBase(c) - 3
  }

  lemma {:induction false} LengthsStart(lc: seq<nat>, bases: seq<nat>)
    requires |lc| == 256
    ensures LengthBase(0) == 3 && LengthsDone(lc, 0) && LengthBasesDone(bases, 0)
  {
  }

  lemma {:induction false} LengthsStep(lc: seq<nat>, lc': seq<nat>, code: nat, length: nat, next: nat)
    requires LengthsDone(lc, length) && code < 28 && length == LengthBase(code) - 3
    requires next == length + Pow2(LengthExtra(code)) <= 256 && |lc'| == 256
    requires forall i :: 0 <= i < 256 ==> lc'[i] == if length <= i < next then code else lc[i]
    ensures LengthsDone(lc', next)
  {
    hide LengthBase, LengthExtra, Pow2;
  }

  lemma {:induction false} LengthBasesStep(bases: seq<nat>, code: nat, base: nat)
    requires code < |bases| && LengthBasesDone(bases, code) && base == LengthBase(code) - 3
    ensures LengthBasesDone(bases[code := base], code + 1)
  {
  }

  // The first part of ct_init: length codes.
  method FillLengths() returns (lengthCode: array<nat>, baseLength: array<nat>)
    ensures fresh(lengthCode) && fresh(baseLength) && lengthCode.Length == 256 && baseLength.Length == LENGTH_CODES
    ensures forall lc :: 0 <= lc < 255 ==> InLength(lc, lengthCode[lc])
    ensures lengthCode[255] == 28
    ensures forall c :: 0 <= c < 28 ==> baseLength[c] == LengthBase(c) - 3
  {
    hide LengthBase, LengthExtra, Pow2, InLength;
    lengthCode, baseLength := new nat[256], new nat[LENGTH_CODES](_ => 0);
    var length: nat, code: nat := 0, 0;
    LengthsStart(lengthCode[..], baseLength[..]);
    while code < LENGTH_CODES - 1
      invariant code <= 28 && length <= 256 && length == if code < 28 then LengthBase(code) - 3 else 256
      invariant LengthsDone(lengthCode[..], length) && LengthBasesDone(baseLength[..], code)
    {
      LengthRoom(code);
      ghost var lc: seq<nat>, from := lengthCode[..], length;
      LengthBasesStep(baseLength[..], code, length);
      baseLength[code] := length;
      length := FillRun(lengthCode, length, Pow2(LengthExtra(code)), code);
      LengthsStep(lc, lengthCode[..], code, from, length);
      code := code + 1;
    }
    lengthCode[length - 1] := code;
  }

  lemma {:induction false} DistRoom(c: nat)
    requires c < D_CODES
    ensures DistBase(c + 1) == DistBase(c) + Pow2(DistExtra(c))
    ensures DistBase(c) >= 1 && (c < 16 ==> DistBase(c + 1) <= 257) && (c == 15 ==> DistBase(c + 1) == 257)
  {
    Rfc1951Distances();
    assert DistBase(16) == 257;
  }

  lemma {:induction false} By128(c: nat)
    requires c >= 16
    ensures DistExtra(c) >= 7 && Pow2(DistExtra(c)) == 128 * Pow2(DistExtra(c) - 7)
  {
    var e: nat := DistExtra(c) - 7;
    assert Pow2(e + 1) == 2 * Pow2(e) && Pow2(e + 2) == 2 * Pow2(e + 1);
    assert Pow2(e + 3) == 2 * Pow2(e + 2) && Pow2(e + 4) == 2 * Pow2(e + 3);
    assert Pow2(e + 5) == 2 * Pow2(e + 4) && Pow2(e + 6) == 2 * Pow2(e + 5);
  }

  lemma {:induction false} DistTop(c: nat, q: nat)
    requires 16 <= c < D_CODES && DistBase(c) - 1 == 128 * q
    ensures q + Pow2(DistExtra(c) - 7) <= 256 && DistBase(c + 1) - 1 == 128 * (q + Pow2(DistExtra(c) - 7))
    ensures c == 29 ==> q + Pow2(DistExtra(c) - 7) == 256
  {
    By128(c);
    Rfc1951Distances();
    assert DistBase(30) == DistBase(29) + Pow2(DistExtra(29));
    Pow2Small();
    assert Pow2(13) == 8192;
    DistMono(c + 1, 30);
  }

  lemma {:induction false} DistMono(a: nat, b: nat)
    requires a <= b
    ensures DistBase(a) <= DistBase(b)
  {
    if a < b { DistMono(a, b - 1); }
  }

  // The code of a distance whose upper bits are q.
  ghost predicate InBlock(q: nat, c: nat)
  {
    16 <= c < D_CODES && DistBase(c) <= 128 * q + 1 && 128 * (q + 1) + 1 <= DistBase(c) + Pow2(DistExtra(c))
  }

  lemma {:induction false} BlockOf(c: nat, q0: nat, q: nat)
    requires 16 <= c < D_CODES && DistBase(c) - 1 == 128 * q0 && q0 <= q < q0 + Pow2(DistExtra(c) - 7)
    ensures InBlock(q, c)
  {
    By128(c);
  }

  // The second part: the first 16 distance codes, one entry per distance.
  method FillNear(distCode: array<nat>, baseDist: array<nat>)
    requires distCode != baseDist && distCode.Length == 512 && baseDist.Length == D_CODES
    modifies distCode, baseDist
    ensures forall d :: 0 <= d < 256 ==> InDist(d, distCode[d])
    ensures BasesDone(baseDist[..], 16)
  {
    var dist: nat := 0;
    assert DistBase(0) == 1;
    for code := 0 to 16
      invariant dist <= 256 && dist == DistBase(code) - 1 && (code == 16 ==> dist == 256)
      invariant forall d :: 0 <= d < dist ==> InDist(d, distCode[d])
      invariant BasesDone(baseDist[..], code)
    {
      DistRoom(code);
      BasesStep(baseDist[..], code, dist);
      baseDist[code] := dist;
      dist := FillRun(distCode, dist, Pow2(DistExtra(code)), code);
    }
  }

  // The first `code` entries of base_dist.
  ghost predicate BasesDone(bd: seq<nat>, code: nat)
  {
    code <= |bd| && forall c :: 0 <= c < code ==> bd[c] == DistBase(c) - 1
  }

  lemma {:induction false} BasesStep(bd: seq<nat>, code: nat, base: nat)
    requires code < |bd| && BasesDone(bd, code) && base == DistBase(code) - 1
    ensures BasesDone(bd[code := base], code + 1)
  {
  }

  ghost predicate FarDone(dc: seq<nat>, dist: nat)
  {
    |dc| == 512 && 2 <= dist <= 256 && forall q :: 258 <= q < 256 + dist ==> InBlock(q - 256, dc[q])
  }

  lemma {:induction false} FarStart(dc: seq<nat>)
    requires |dc| == 512
    ensures FarDone(dc, 2)
  {
  }

  lemma {:induction false} FarStep(dc: seq<nat>, dc': seq<nat>, code: nat, dist: nat, dist': nat)
    requires FarDone(dc, dist) && 16 <= code < D_CODES && DistBase(code) - 1 == 128 * dist
    requires dist' == dist + Pow2(DistExtra(code) - 7) && |dc'| == 512
    requires forall i :: 0 <= i < 512 ==> dc'[i] == if 256 + dist <= i < 256 + dist' then code else dc[i]
    ensures FarDone(dc', dist') && DistBase(code + 1) - 1 == 128 * dist' && (code == 29 ==> dist' == 256)
  {
    DistTop(code, dist);
    forall q: nat | dist <= q < dist' ensures InBlock(q, code) {
      BlockOf(code, dist, q);
    }
  }

  // The third part: the other codes, one entry for 128 distances.
  method FillFar(distCode: array<nat>, baseDist: array<nat>)
    requires distCode != baseDist && distCode.Length == 512 && baseDist.Length == D_CODES
    requires BasesDone(baseDist[..], 16)
    modifies distCode, baseDist
    ensures forall d :: 0 <= d < 256 ==> distCode[d] == old(distCode[d])
    ensures FarDone(distCode[..], 256)
    ensures BasesDone(baseDist[..], D_CODES)
  {
    hide BasesDone, FarDone, DistBase, DistExtra, Pow2;
    var dist: nat := 256 / 128;
    DistRoom(15);
    FarStart(distCode[..]);
    for code := 16 to D_CODES
      invariant 128 * dist == DistBase(code) - 1 && (code == 30 ==> dist == 256) && FarDone(distCode[..], dist)
      invariant forall d :: 0 <= d < 256 ==> distCode[d] == old(distCode[d])
      invariant BasesDone(baseDist[..], code)
    {
      ghost var dc: seq<nat>, q := distCode[..], dist;
      By128(code);
      DistTop(code, q);
      BasesStep(baseDist[..], code, dist * 128);
      baseDist[code] := dist * 128;
      var next := FillRun(distCode, 256 + dist, Pow2(DistExtra(code) - 7), code);
      dist := next - 256;
      FarStep(dc, distCode[..], code, q, dist);
    }
  }

  lemma {:induction false} LengthEntry(t: Tables, lc: nat)
    requires t.Sized() && lc < 256 && (if lc == 255 then t.lengthCode[lc] == 28 else InLength(lc, t.lengthCode[lc]))
    requires t.lengthCode[lc] < 28 ==> t.baseLength[t.lengthCode[lc]] == LengthBase(t.lengthCode[lc]) - 3
    ensures LengthOk(t, lc)
  {
    assert LengthBase(28) == 258 && Pow2(0) == 1;
  }

  lemma {:induction false} DistEntry(t: Tables, d: nat, c: nat)
    requires t.Sized() && d < 32768 && c == t.DCode(d) && InDist(d, c) && t.baseDist[c] == DistBase(c) - 1
    ensures DistOk(t, d)
  {
    assert Pow2(0) == 1;
  }

  lemma {:induction false} FarEntry(d: nat, q: nat, c: nat)
    requires q == d / 128 && InBlock(q, c)
    ensures InDist(d, c)
  {
  }

  // The tables of ct_init code every length and every distance.
  method FillTables() returns (t: Tables)
    ensures TablesOk(t)
  {
    var lengthCode, baseLength := FillLengths();
    var distCode, baseDist := new nat[512](_ => 0), new nat[D_CODES](_ => 0);
    FillNear(distCode, baseDist);
    FillFar(distCode, baseDist);
    t := Tables(lengthCode[..], distCode[..], baseLength[..], baseDist[..]);
    forall lc | 0 <= lc < 256 ensures LengthOk(t, lc) {
      LengthEntry(t, lc);
    }
    forall d | 0 <= d < 32768 ensures DistOk(t, d) {
      if d >= 256 {
        assert InBlock(256 + d / 128 - 256, distCode[256 + d / 128]);
        FarEntry(d, d / 128, t.DCode(d));
      }
      DistEntry(t, d, t.DCode(d));
    }
  }

  // Static code lengths: n symbols of length l from symbol n0 on.
  method FillRange(dl: array<nat>, blCount: array<nat>, n0: nat, n1: nat, l: nat)
    requires dl != blCount && n0 <= n1 <= dl.Length && l < blCount.Length
    modifies dl, blCount
    ensures dl[..] == old(dl[..n0]) + Repeat(l, n1 - n0) + old(dl[n1..])
    ensures blCount[..] == old(blCount[..])[l := old(blCount[l]) + n1 - n0]
  {
    var n := n0;
    while n < n1
      invariant n0 <= n <= n1
      invariant forall i :: 0 <= i < dl.Length ==> dl[i] == if n0 <= i < n then l else old(dl[i])
      invariant blCount[..] == old(blCount[..])[l := old(blCount[l]) + n - n0]
    {
      dl[n] := l;
      n := n + 1;
      blCount[l] := blCount[l] + 1;
    }
  }

  // The static literal tree.
  method FillStaticLits(fc: array<nat>, dl: array<nat>, blCount: array<nat>)
    requires fc != dl && fc != blCount && dl != blCount && fc.Length == dl.Length == 288
             && blCount.Length == MAX_BITS + 1
    requires forall l :: 0 <= l <= MAX_BITS ==> blCount[l] == 0
    modifies fc, dl, blCount
    ensures dl[..] == FixedLitLens() && CodesSet(fc[..], FixedLitLens())
  {
    FillRange(dl, blCount, 0, 144, 8);
    FillRange(dl, blCount, 144, 256, 9);
    FillRange(dl, blCount, 256, 280, 7);
    FillRange(dl, blCount, 280, 288, 8);
    assert dl[..] == FixedLitLens();
    FixedComplete();
    StaticCounts(blCount[..]);
    assert dl[..287 + 1] == dl[..];
    GenCodes(fc, dl, blCount, 287);
  }

  lemma {:induction false} StaticCounts(bl: seq<nat>)
    requires |bl| == MAX_BITS + 1
    requires forall l :: 0 <= l <= MAX_BITS ==> bl[l] == if l == 7 then 24 else if l == 8 then 152 else if l == 9
             then 112 else 0
    ensures CountsMatch(bl, FixedLitLens())
  {
    forall l | 1 <= l <= MAX_BITS ensures bl[l] == Count(FixedLitLens(), l) {
      FixedLitCount(l);
    }
  }

  lemma {:induction false} StaticDistSet(c: nat, n: nat)
    requires n < D_CODES && c < Pow2(5) && BitsLE(c, 5) == BitsBE(n, 5)
    ensures CodeSet(c, FixedDistLens(), n)
  {
    hide BitsLE, BitsBE;
    FixedDistCode(n);
  }

  // The static distance tree.
  method FillStaticDists(fc: array<nat>, dl: array<nat>)
    requires fc != dl && fc.Length == dl.Length == D_CODES
    modifies fc, dl
    ensures forall n :: 0 <= n < D_CODES ==> dl[n] == 5 && CodeSet(fc[n], FixedDistLens(), n)
  {
    hide CodeSet, FixedDistLens, BitsLE, BitsBE, Pow2;
    for n := 0 to D_CODES
      invariant forall i :: 0 <= i < n ==> dl[i] == 5 && CodeSet(fc[i], FixedDistLens(), i)
    {
      dl[n] := 5;
      var c := BiReverse(n, 5);
      StaticDistSet(c, n);
      fc[n] := c;
    }
  }
}
