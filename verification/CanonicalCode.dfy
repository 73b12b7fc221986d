/** Canonical Huffman codes (section 3.2.2 of RFC 1951): the code of a symbol is a function
    of the code lengths alone. The reference decoder is here too, and so is gen_codes, the
    compressor's way of computing the codes, bit-reversed. */
module CanonicalCode {
  import opened Bits

  const MAX_BITS := 15
  const L_CODES := 286   // literals, the end of the block and the 29 lengths
  const D_CODES := 30    // distances

  // How many symbols have code length l.
  function Count(lens: seq<nat>, l: nat): (c: nat)
    ensures c <= |lens|
  {
    if lens == [] then 0
    else Count(lens[..|lens| - 1], l) + if lens[|lens| - 1] == l then 1 else 0
  }

  // The smallest code of length l.
  function FirstCode(lens: seq<nat>, l: nat): nat
  {
    if l <= 1 then 0 else 2 * (FirstCode(lens, l - 1) + Count(lens, l - 1))
  }

  // Codes of one length are consecutive, in symbol order.
  function Code(lens: seq<nat>, s: nat): nat
    requires s < |lens|
  {
    FirstCode(lens, lens[s]) + Count(lens[..s], lens[s])
  }

  // Codes are packed starting with their most significant bit.
  function CodeBits(lens: seq<nat>, s: nat): (bs: seq<bool>)
    requires s < |lens|
    ensures |bs| == lens[s]
  {
    BitsBE(Code(lens, s), lens[s])
  }

  // No length above 15 and the Kraft sum at most one, or exactly one.
  predicate LengthsBounded(lens: seq<nat>)
  {
    forall i :: 0 <= i < |lens| ==> lens[i] <= MAX_BITS
  }

  predicate Prefixable(lens: seq<nat>)
  {
    LengthsBounded(lens) && FirstCode(lens, 16) <= 65536
  }

  predicate Complete(lens: seq<nat>)
  {
    LengthsBounded(lens) && FirstCode(lens, 16) == 65536
  }

  // e occurs in bs at position pos.
  predicate At(bs: seq<bool>, pos: nat, e: seq<bool>)
  {
    pos + |e| <= |bs| && bs[pos..pos + |e|] == e
  }

  lemma {:induction false} AtConcat(bs: seq<bool>, pos: nat, a: seq<bool>, b: seq<bool>)
    ensures At(bs, pos, a + b) <==> At(bs, pos, a) && At(bs, pos + |a|, b)
  {
    if At(bs, pos, a + b) {
      assert bs[pos..pos + |a|] == (a + b)[..|a|] == a;
      assert bs[pos + |a|..pos + |a| + |b|] == (a + b)[|a|..] == b;
    }
    if At(bs, pos, a) && At(bs, pos + |a|, b) {
      assert bs[pos..pos + |a + b|] == bs[pos..pos + |a|] + bs[pos + |a|..pos + |a| + |b|];
    }
  }

  // Reference decoder for one symbol: the symbol whose code stands at pos.
  function FindSymbol(lens: seq<nat>, bs: seq<bool>, pos: nat, from: nat): (r: Option<nat>)
    requires from <= |lens|
    ensures r.Some? ==> r.value < |lens| && lens[r.value] > 0 && At(bs, pos, CodeBits(lens, r.value))
    decreases |lens| - from
  {
    if from == |lens| then None
    else if lens[from] > 0 && At(bs, pos, CodeBits(lens, from)) then Some(from)
    else FindSymbol(lens, bs, pos, from + 1)
  }

  function DecodeSymbol(lens: seq<nat>, bs: seq<bool>, pos: nat): (r: Option<nat>)
    ensures r.Some? ==> r.value < |lens| && lens[r.value] > 0 && At(bs, pos, CodeBits(lens, r.value))
  {
    FindSymbol(lens, bs, pos, 0)
  }

  lemma {:induction false} CountMono(lens: seq<nat>, l: nat, a: nat, b: nat)
    requires a <= b <= |lens|
    ensures Count(lens[..a], l) <= Count(lens[..b], l)
  {
    if a < b {
      CountMono(lens, l, a, b - 1);
      assert lens[..b][..b - 1] == lens[..b - 1];
    }
  }

  lemma {:induction false} CountStep(lens: seq<nat>, l: nat, s: nat)
    requires s < |lens|
    ensures Count(lens[..s + 1], l) == Count(lens[..s], l) + if lens[s] == l then 1 else 0
  {
    assert lens[..s + 1][..s] == lens[..s];
  }

  // The symbols before s leave room for s.
  lemma {:induction false} CountBefore(lens: seq<nat>, s: nat)
    requires s < |lens|
    ensures Count(lens[..s], lens[s]) < Count(lens, lens[s])
  {
    CountStep(lens, lens[s], s);
    CountMono(lens, lens[s], s + 1, |lens|);
    assert lens[..|lens|] == lens;
  }

  // A longer code starts above every shorter one.
  lemma {:induction false} FirstCodeAbove(lens: seq<nat>, l: nat, m: nat)
    requires 1 <= l < m
    ensures FirstCode(lens, m) >= Shl(FirstCode(lens, l) + Count(lens, l), m - l)
    decreases m
  {
    var x := FirstCode(lens, l) + Count(lens, l);
    if m == l + 1 {
      assert Shl(x, 1) == 2 * Shl(x, 0);
    } else {
      FirstCodeAbove(lens, l, m - 1);
      assert Shl(x, m - l) == 2 * Shl(x, m - 1 - l);
    }
  }

  lemma {:induction false} ShlReflects(a: nat, b: nat, n: nat)
    requires Shl(a, n) <= Shl(b, n)
    ensures a <= b
  {
    if n != 0 { ShlReflects(a, b, n - 1); }
  }

  // All codes of length l fit in l bits.
  lemma {:induction false} CodesFit(lens: seq<nat>, l: nat)
    requires Prefixable(lens) && 1 <= l <= MAX_BITS
    ensures FirstCode(lens, l) + Count(lens, l) <= Pow2(l)
  {
    FirstCodeAbove(lens, l, 16);
    ShlOne(l);
    ShlShl(1, l, 16 - l);
    ShlOne(16);
    Pow2Small();
    ShlReflects(FirstCode(lens, l) + Count(lens, l), Pow2(l), 16 - l);
  }

  lemma {:induction false} CodeFits(lens: seq<nat>, s: nat)
    requires Prefixable(lens) && s < |lens| && lens[s] > 0
    ensures Code(lens, s) < Pow2(lens[s])
  {
    CodesFit(lens, lens[s]);
    CountBefore(lens, s);
  }

  // Two symbols of the same length have different codes.
  lemma {:induction false} SameLengthDiffers(lens: seq<nat>, s: nat, t: nat)
    requires s < t < |lens| && lens[s] == lens[t]
    ensures Code(lens, s) < Code(lens, t)
  {
    CountStep(lens, lens[s], s);
    CountMono(lens, lens[s], s + 1, t);
  }

  // A shorter code is smaller than the leading bits of any longer one.
  lemma {:induction false} ShorterDiffers(lens: seq<nat>, s: nat, t: nat)
    requires s < |lens| && t < |lens| && 0 < lens[s] < lens[t]
    ensures Code(lens, s) < Shr(Code(lens, t), lens[t] - lens[s])
  {
    var k := lens[t] - lens[s];
    var x := FirstCode(lens, lens[s]) + Count(lens, lens[s]);
    FirstCodeAbove(lens, lens[s], lens[t]);
    CountBefore(lens, s);
    ShrMono(Shl(x, k), Code(lens, t), k);
    ShrShl(x, k);
  }

  // No code is a prefix of another.
  lemma {:induction false} PrefixFree(lens: seq<nat>, s: nat, t: nat)
    requires Prefixable(lens) && s < |lens| && t < |lens|
    requires 0 < lens[s] <= lens[t]
    requires CodeBits(lens, s) == CodeBits(lens, t)[..lens[s]]
    ensures s == t
  {
    var k := lens[t] - lens[s];
    CodeFits(lens, s);
    CodeFits(lens, t);
    BitsBEPrefix(Code(lens, t), lens[t], lens[s]);
    ShrFits(Code(lens, t), k, lens[s]);
    BitsBEInjective(Code(lens, s), Shr(Code(lens, t), k), lens[s]);
    if k > 0 {
      ShorterDiffers(lens, s, t);
    } else if s < t {
      SameLengthDiffers(lens, s, t);
    } else if t < s {
      SameLengthDiffers(lens, t, s);
    }
  }

  lemma {:induction false} AtPrefix(bs: seq<bool>, pos: nat, a: seq<bool>, b: seq<bool>)
    requires At(bs, pos, a) && At(bs, pos, b) && |a| <= |b|
    ensures a == b[..|a|]
  {
  }

  // At most one symbol's code stands at a position.
  lemma {:induction false} DecodeUnique(lens: seq<nat>, bs: seq<bool>, pos: nat, s: nat)
    requires Prefixable(lens) && s < |lens| && lens[s] > 0
    requires At(bs, pos, CodeBits(lens, s))
    ensures DecodeSymbol(lens, bs, pos) == Some(s)
  {
    FindSome(lens, bs, pos, s, 0);
    var t := DecodeSymbol(lens, bs, pos).value;
    if lens[s] <= lens[t] {
      AtPrefix(bs, pos, CodeBits(lens, s), CodeBits(lens, t));
      PrefixFree(lens, s, t);
    } else {
      AtPrefix(bs, pos, CodeBits(lens, t), CodeBits(lens, s));
      PrefixFree(lens, t, s);
    }
  }

  lemma {:induction false} FindSome(lens: seq<nat>, bs: seq<bool>, pos: nat, s: nat, from: nat)
    requires from <= s < |lens| && lens[s] > 0
    requires At(bs, pos, CodeBits(lens, s))
    ensures FindSymbol(lens, bs, pos, from).Some?
    decreases s - from
  {
    if from < s { FindSome(lens, bs, pos, s, from + 1); }
  }

  // bi_reverse: sending the result least significant bit first sends the code most
  // significant bit first.
  method BiReverse(code: nat, len: nat) returns (res: nat)
    requires 1 <= len
    ensures res < Pow2(len)
    ensures BitsLE(res, len) == BitsBE(code, len)
  {
    hide BitsBE, BitsLE, Pow2, Shr;
    var c, n := code, len;
    res := 0;
    ghost var j := 0;
    ReverseStart(code);
    while true
      invariant n + j == len && n > 0
      invariant res % 2 == 0 && res / 2 < Pow2(j) && c == Shr(code, j)
      invariant BitsBE(res / 2, j) == BitsLE(code, j)
      decreases n
    {
      res := res + c % 2;
      ReverseStep(code, j, res);
      n := n - 1;
      j := j + 1;
      if n <= 0 {
        ReverseDone(code, res, len);
        return;
      }
      c := c / 2;
      res := res * 2;
    }
  }

  lemma {:induction false} ReverseStart(code: nat)
    ensures 0 < Pow2(0) && Shr(code, 0) == code && BitsBE(0, 0) == BitsLE(code, 0)
  {
  }

  lemma {:induction false} ReverseStep(code: nat, j: nat, res: nat)
    requires res / 2 < Pow2(j) && BitsBE(res / 2, j) == BitsLE(code, j) && res % 2 == Shr(code, j) % 2
    ensures res < Pow2(j + 1) && BitsBE(res, j + 1) == BitsLE(code, j + 1)
    ensures Shr(code, j) / 2 == Shr(code, j + 1)
  {
    BitsSplit(code, j, 1);
    assert BitsLE(Shr(code, j), 1) == [Shr(code, j) % 2 == 1];
    ShrStep(code, j);
  }

  lemma {:induction false} ShrStep(v: nat, j: nat)
    ensures Shr(v, j) / 2 == Shr(v, j + 1)
  {
    if j != 0 { ShrStep(v / 2, j - 1); }
  }

  lemma {:induction false} ReverseDone(code: nat, res: nat, len: nat)
    requires BitsBE(res, len) == BitsLE(code, len)
    ensures BitsLE(res, len) == BitsBE(code, len)
  {
    BitsReversed(res, len);
    BitsReversed(code, len);
    ReverseTwice(BitsLE(res, len));
  }

  // bl_count holds the length statistics of lens.
  ghost predicate CountsMatch(blCount: seq<nat>, lens: seq<nat>)
  {
    && |blCount| == MAX_BITS + 1
    && blCount[0] == 0
    && forall l :: 1 <= l <= MAX_BITS ==> blCount[l] == Count(lens, l)
  }

  // An entry carries the code of its length, ready for send_bits.
  ghost predicate CodeSet(code: nat, lens: seq<nat>, n: nat)
    requires n < |lens|
  {
    lens[n] != 0 ==> code < Pow2(lens[n]) && BitsLE(code, lens[n]) == CodeBits(lens, n)
  }

  ghost predicate CodesSet(codes: seq<nat>, lens: seq<nat>)
  {
    |codes| >= |lens| && forall n :: 0 <= n < |lens| ==> CodeSet(codes[n], lens, n)
  }

  // next_code once the first n symbols have their codes.
  ghost predicate NextCodesAt(next: seq<nat>, lens: seq<nat>, n: nat)
    requires n <= |lens|
  {
    |next| == MAX_BITS + 1 &&
    forall l :: 1 <= l <= MAX_BITS ==> next[l] == FirstCode(lens, l) + Count(lens[..n], l)
  }

  // The first loop of gen_codes: the smallest code of every length.
  method NextCodes(blCount: seq<nat>, ghost lens: seq<nat>) returns (next: seq<nat>)
    requires Prefixable(lens) && CountsMatch(blCount, lens)
    ensures NextCodesAt(next, lens, 0)
  {
    next := [0];
    var code := 0;
    for bits := 1 to MAX_BITS + 1
      invariant code == FirstCode(lens, bits - 1)
      invariant |next| == bits
      invariant forall l :: 1 <= l < bits ==> next[l] == FirstCode(lens, l)
    {
      FirstCodeWord(lens, blCount, bits, code);
      code := Low(2 * (code + blCount[bits - 1]), 16);
      next := next + [code];
    }
    NextCodesStart(next, lens);
  }

  lemma {:induction false} NextCodesStart(next: seq<nat>, lens: seq<nat>)
    requires |next| == MAX_BITS + 1
    requires forall l :: 1 <= l <= MAX_BITS ==> next[l] == FirstCode(lens, l)
    ensures NextCodesAt(next, lens, 0)
  {
    assert lens[..0] == [];
  }

  // One more symbol served.
  lemma {:induction false} NextCodesStep(next: seq<nat>, lens: seq<nat>, n: nat)
    requires n < |lens| && NextCodesAt(next, lens, n) && LengthsBounded(lens)
    ensures lens[n] == 0 ==> NextCodesAt(next, lens, n + 1)
    ensures lens[n] != 0 ==>
      next[lens[n]] == Code(lens, n) && NextCodesAt(next[lens[n] := next[lens[n]] + 1], lens, n + 1)
  {
    forall l | 1 <= l <= MAX_BITS
      ensures Count(lens[..n + 1], l) == Count(lens[..n], l) + if lens[n] == l then 1 else 0
    {
      CountStep(lens, l, n);
    }
  }

  // gen_codes: fc is the Freq/Code field and dl the Dad/Len field of the tree.
  method GenCodes(fc: array<nat>, dl: array<nat>, blCount: array<nat>, maxCode: nat)
    requires fc != dl && fc != blCount && maxCode < fc.Length && maxCode < dl.Length
    requires Prefixable(dl[..maxCode + 1]) && CountsMatch(blCount[..], dl[..maxCode + 1])
    modifies fc
    ensures CodesSet(fc[..], dl[..maxCode + 1])
    ensures forall n :: 0 <= n < fc.Length && (n > maxCode || dl[n] == 0) ==> fc[n] == old(fc[n])
  {
    hide Pow2, FirstCode, Count, BitsLE;
    ghost var lens := dl[..maxCode + 1];
    var next := NextCodes(blCount[..], lens);
    for n := 0 to maxCode + 1
      invariant NextCodesAt(next, lens, n)
      invariant forall i :: 0 <= i < n ==> CodeSet(fc[i], lens, i)
      invariant forall i :: 0 <= i < fc.Length && (i >= n || dl[i] == 0) ==> fc[i] == old(fc[i])
    {
      var len := dl[n];
      assert len == lens[n];
      NextCodesStep(next, lens, n);
      if len != 0 {
        var c := BiReverse(next[len], len);
        next := next[len := next[len] + 1];
        fc[n] := c;
      }
    }
  }

  // The running code never outgrows its 16-bit variable.
  lemma {:induction false} FirstCodeWord(lens: seq<nat>, blCount: seq<nat>, bits: nat, code: nat)
    requires Prefixable(lens) && CountsMatch(blCount, lens) && 1 <= bits <= MAX_BITS
    requires code == FirstCode(lens, bits - 1)
    ensures Low(2 * (code + blCount[bits - 1]), 16) == FirstCode(lens, bits)
  {
    CodesFit(lens, bits);
    Pow2Mono(bits, 15);
    Pow2Small();
    LowFits(FirstCode(lens, bits), 16);
  }
}
