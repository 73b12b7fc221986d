/** Bit strings as sequences of booleans, shifts, and the two bit orders that DEFLATE
    uses: integers least significant bit first, Huffman codes most significant bit first
    (section 3.1.1 of RFC 1951). */
module Bits {

  type byte = b: nat | b < 256

  datatype Option<+T> = None | Some(value: T)

  // Always true. An invariant stated as "for all k, Open(k) implies it" stays folded until
  // some Open(k) is mentioned, which keeps it out of the proofs of those who only carry it.
  ghost predicate Open(k: nat) { k >= 0 }

  // Another one, to open one invariant without the others.
  ghost predicate Ajar(k: nat) { k >= 0 }

  lemma {:induction false} Assoc<T>(a: seq<T>, b: seq<T>, c: seq<T>)
    ensures (a + b) + c == a + (b + c)
  {
  }

  // The bytes of a text in ASCII.
  function Text(s: string): (b: seq<byte>)
    ensures |b| == |s|
  {
    seq(|s|, i requires 0 <= i < |s| => if s[i] as int < 256 then s[i] as int else 0)
  }

  // strspn: how many bytes at the start are in a class.
  function Span(s: seq<byte>, p: byte -> bool): (n: nat)
    ensures n <= |s|
  {
    if s != [] && p(s[0]) then 1 + Span(s[1..], p) else 0
  }

  lemma {:induction false} SpanOver(a: seq<byte>, b: seq<byte>, p: byte -> bool)
    requires (forall i :: 0 <= i < |a| ==> p(a[i])) && (b == [] || !p(b[0]))
    ensures Span(a + b, p) == |a|
  {
    if a == [] {
      assert a + b == b;
    } else {
      SpanOver(a[1..], b, p);
      assert (a + b)[1..] == a[1..] + b;
    }
  }

  // The pieces one after the other.
  function Flat<T>(xss: seq<seq<T>>): seq<T>
  {
    if xss == [] then [] else Flat(xss[..|xss| - 1]) + xss[|xss| - 1]
  }

  const WORD := 0x1_0000_0000             // numbers of 32 bits
  const LONG := 0x1_0000_0000_0000_0000   // and of 64

  function Min(a: int, b: int): int { if a <= b then a else b }

  function Pow2(n: nat): (p: nat)
    ensures p > 0
  {
    if n == 0 then 1 else 2 * Pow2(n - 1)
  }

  // The C operators v << n, v >> n and truncation to n bits, by doubling and halving.
  function Shl(v: nat, n: nat): nat { if n == 0 then v else 2 * Shl(v, n - 1) }

  function Shr(v: nat, n: nat): nat { if n == 0 then v else Shr(v / 2, n - 1) }

  function Low(v: nat, n: nat): (r: nat)
    ensures r < Pow2(n)
  {
    if n == 0 then 0 else v % 2 + 2 * Low(v / 2, n - 1)
  }

  lemma {:induction false} Pow2Mono(a: nat, b: nat)
    requires a <= b
    ensures Pow2(a) <= Pow2(b)
  {
    if a < b { Pow2Mono(a, b - 1); }
  }

  lemma {:induction false} Pow2Small()
    ensures Pow2(0) == 1 && Pow2(1) == 2 && Pow2(2) == 4 && Pow2(3) == 8 && Pow2(4) == 16 && Pow2(5) == 32
    ensures Pow2(7) == 128 && Pow2(8) == 256 && Pow2(9) == 512
    ensures Pow2(13) == 8192 && Pow2(15) == 32768 && Pow2(16) == 65536
  {
    assert Pow2(4) == 16;
    assert Pow2(8) == 256;
    assert Pow2(12) == 4096;
  }

  lemma {:induction false} ShlIsTimes(v: nat, n: nat)
    ensures Shl(v, n) == v * Pow2(n)
  {
    if n != 0 { ShlIsTimes(v, n - 1); }
  }

  lemma {:induction false} ShlZero(n: nat)
    ensures Shl(0, n) == 0
  {
    if n != 0 { ShlZero(n - 1); }
  }

  lemma {:induction false} ShlOne(n: nat)
    ensures Shl(1, n) == Pow2(n)
  {
    if n != 0 { ShlOne(n - 1); }
  }

  lemma {:induction false} ShlAdd(a: nat, b: nat, n: nat)
    ensures Shl(a + b, n) == Shl(a, n) + Shl(b, n)
  {
    if n != 0 { ShlAdd(a, b, n - 1); }
  }

  lemma {:induction false} ShlMono(a: nat, b: nat, n: nat)
    requires a <= b
    ensures Shl(a, n) <= Shl(b, n)
  {
    if n != 0 { ShlMono(a, b, n - 1); }
  }

  lemma {:induction false} ShlShl(a: nat, m: nat, n: nat)
    ensures Shl(Shl(a, m), n) == Shl(a, m + n)
  {
    if n != 0 { ShlShl(a, m, n - 1); }
  }

  lemma {:induction false} ShlInner(v: nat, n: nat)
    ensures Shl(2 * v, n) == Shl(v, n + 1)
  {
    if n != 0 { ShlInner(v, n - 1); }
  }

  lemma {:induction false} ShrShl(v: nat, n: nat)
    ensures Shr(Shl(v, n), n) == v
  {
    if n != 0 { ShrShl(v, n - 1); }
  }

  lemma {:induction false} ShrMono(a: nat, b: nat, n: nat)
    requires a <= b
    ensures Shr(a, n) <= Shr(b, n)
  {
    if n != 0 { ShrMono(a / 2, b / 2, n - 1); }
  }

  // Truncation and shifting right cut a number into its low and its high part.
  lemma {:induction false} LowHigh(v: nat, n: nat)
    ensures v == Low(v, n) + Shl(Shr(v, n), n)
  {
    if n != 0 { LowHigh(v / 2, n - 1); }
  }

  lemma {:induction false} LowFits(v: nat, n: nat)
    requires v < Pow2(n)
    ensures Low(v, n) == v
  {
    if n != 0 { LowFits(v / 2, n - 1); }
  }

  lemma {:induction false} LowSame(v: nat, n: nat)
    ensures BitsLE(Low(v, n), n) == BitsLE(v, n)
  {
    if n != 0 { LowSame(v / 2, n - 1); }
  }

  lemma {:induction false} ShrFits(v: nat, k: nat, n: nat)
    requires v < Pow2(k + n)
    ensures Shr(v, k) < Pow2(n)
  {
    if k != 0 { ShrFits(v / 2, k - 1, n); }
  }

  // u below 2^k under a field v of n bits fits in k + n bits.
  lemma {:induction false} FieldsFit(u: nat, v: nat, k: nat, n: nat)
    requires u < Pow2(k) && v < Pow2(n)
    ensures u + Shl(v, k) < Pow2(k + n)
  {
    if k != 0 { FieldsFit(u / 2, v, k - 1, n); }
  }

  // The low n bits of v, least significant first.
  function BitsLE(v: nat, n: nat): (bs: seq<bool>)
    ensures |bs| == n
  {
    if n == 0 then [] else [v % 2 == 1] + BitsLE(v / 2, n - 1)
  }

  // The low n bits of v, most significant first.
  function BitsBE(v: nat, n: nat): (bs: seq<bool>)
    ensures |bs| == n
  {
    if n == 0 then [] else BitsBE(v / 2, n - 1) + [v % 2 == 1]
  }

  function ValLE(bs: seq<bool>): (v: nat)
    ensures v < Pow2(|bs|)
  {
    if bs == [] then 0 else (if bs[0] then 1 else 0) + 2 * ValLE(bs[1..])
  }

  lemma {:induction false} ValOfBits(v: nat, n: nat)
    requires v < Pow2(n)
    ensures ValLE(BitsLE(v, n)) == v
  {
    if n != 0 {
      ValOfBits(v / 2, n - 1);
      assert BitsLE(v, n)[1..] == BitsLE(v / 2, n - 1);
    }
  }

  // A field of k bits followed by a field of n bits.
  lemma {:induction false} BitsConcat(u: nat, v: nat, k: nat, n: nat)
    requires u < Pow2(k)
    ensures BitsLE(u + Shl(v, k), k + n) == BitsLE(u, k) + BitsLE(v, n)
  {
    if k == 0 {
      assert BitsLE(u, k) + BitsLE(v, n) == BitsLE(v, n);
    } else {
      var w := u + Shl(v, k);
      assert w % 2 == u % 2 && w / 2 == u / 2 + Shl(v, k - 1);
      BitsConcat(u / 2, v, k - 1, n);
      assert k + n - 1 == (k - 1) + n;
    }
  }

  // Cutting the low k bits off a longer field.
  lemma {:induction false} BitsSplit(v: nat, k: nat, n: nat)
    ensures BitsLE(v, k + n) == BitsLE(v, k) + BitsLE(Shr(v, k), n)
  {
    if k == 0 {
      assert BitsLE(v, k) + BitsLE(v, n) == BitsLE(v, n);
    } else {
      BitsSplit(v / 2, k - 1, n);
      assert k + n - 1 == (k - 1) + n;
    }
  }

  function Reverse<T>(s: seq<T>): (r: seq<T>)
    ensures |r| == |s|
  {
    if s == [] then [] else Reverse(s[1..]) + [s[0]]
  }

  lemma {:induction false} ReverseIndex<T>(s: seq<T>, i: nat)
    requires i < |s|
    ensures Reverse(s)[i] == s[|s| - 1 - i]
  {
    if i < |s| - 1 { ReverseIndex(s[1..], i); }
  }

  lemma {:induction false} ReverseTwice<T>(s: seq<T>)
    ensures Reverse(Reverse(s)) == s
  {
    forall i | 0 <= i < |s| ensures Reverse(Reverse(s))[i] == s[i] {
      ReverseIndex(Reverse(s), i);
      ReverseIndex(s, |s| - 1 - i);
    }
  }

  lemma {:induction false} BitsReversed(v: nat, n: nat)
    ensures BitsBE(v, n) == Reverse(BitsLE(v, n))
  {
    if n != 0 {
      BitsReversed(v / 2, n - 1);
      assert BitsLE(v, n)[1..] == BitsLE(v / 2, n - 1);
    }
  }

  lemma {:induction false} BitsBEInjective(a: nat, b: nat, n: nat)
    requires a < Pow2(n) && b < Pow2(n)
    requires BitsBE(a, n) == BitsBE(b, n)
    ensures a == b
  {
    if n != 0 {
      var x, y := BitsBE(a / 2, n - 1), BitsBE(b / 2, n - 1);
      assert x == BitsBE(a, n)[..n - 1] == BitsBE(b, n)[..n - 1] == y;
      assert BitsBE(a, n)[n - 1] == BitsBE(b, n)[n - 1];
      BitsBEInjective(a / 2, b / 2, n - 1);
    }
  }

  // The first m bits of a code of n bits are the code shifted right by n - m.
  lemma {:induction false} BitsBEPrefix(v: nat, n: nat, m: nat)
    requires m <= n
    ensures BitsBE(v, n)[..m] == BitsBE(Shr(v, n - m), m)
  {
    if m < n {
      BitsBEPrefix(v / 2, n - 1, m);
      assert BitsBE(v, n)[..m] == BitsBE(v / 2, n - 1)[..m];
    }
  }

  // A stream of bytes read as bits, each byte least significant bit first.
  function ByteBits(s: seq<byte>): (bs: seq<bool>)
    ensures |bs| == 8 * |s|
  {
    if s == [] then [] else ByteBits(s[..|s| - 1]) + BitsLE(s[|s| - 1], 8)
  }

  lemma {:induction false} ByteBitsSnoc(s: seq<byte>, b: byte)
    ensures ByteBits(s + [b]) == ByteBits(s) + BitsLE(b, 8)
  {
    assert (s + [b])[..|s|] == s;
  }

  lemma {:induction false} ByteBitsConcat(s: seq<byte>, t: seq<byte>)
    ensures ByteBits(s + t) == ByteBits(s) + ByteBits(t)
  {
    hide BitsLE;
    if t == [] {
      assert s + t == s;
    } else {
      var t0 := t[..|t| - 1];
      ByteBitsConcat(s, t0);
      assert s + t == (s + t0) + [t[|t| - 1]];
      ByteBitsSnoc(s + t0, t[|t| - 1]);
      ByteBitsSnoc(t0, t[|t| - 1]);
    }
  }

  // Bitwise or of natural numbers.
  function Or(a: nat, b: nat): nat
    decreases a + b
  {
    if a == 0 then b else if b == 0 then a
    else (if a % 2 == 1 || b % 2 == 1 then 1 else 0) + 2 * Or(a / 2, b / 2)
  }

  // Or-ing in bits above a value that does not reach them is addition.
  lemma {:induction false} OrDisjoint(u: nat, v: nat, k: nat)
    requires u < Pow2(k)
    ensures Or(u, Shl(v, k)) == u + Shl(v, k)
  {
    if u != 0 && Shl(v, k) != 0 { OrDisjoint(u / 2, v, k - 1); }
  }

  // Number of bits that pad a stream of n bits to a byte boundary.
  function StoredPad(n: nat): (p: nat)
    ensures p < 8 && (n + p) % 8 == 0
  {
    (8 - n % 8) % 8
  }
}
