/** The rolling hash of three bytes, UPDATE_HASH: h = ((h << 5) ^ c) & 0x1fff. */
module MatchHash {
  import opened Bits

  const HASH_BITS := 13
  const HASH_SIZE := 8192
  const H_SHIFT := 5

  // Bitwise exclusive or of natural numbers.
  function Xor(a: nat, b: nat): nat
    decreases a + b
  {
    if a == 0 && b == 0 then 0 else (a % 2 + b % 2) % 2 + 2 * Xor(a / 2, b / 2)
  }

  function UpdateHash(h: nat, c: byte): (r: nat)
    ensures r < HASH_SIZE
  {
    Pow2Small();
    Low(Xor(Shl(h, H_SHIFT), c), HASH_BITS)
  }

  // The hash of the string at i.
  function HashAt(s: seq<byte>, i: nat): (r: nat)
    requires i + 2 < |s|
    ensures r < HASH_SIZE
  {
    UpdateHash(UpdateHash(UpdateHash(0, s[i]), s[i + 1]), s[i + 2])
  }

  // Truncation to n bits sees only the low n bits of both operands.
  lemma {:induction false} LowXor(a: nat, a': nat, b: nat, n: nat)
    requires Low(a, n) == Low(a', n)
    ensures Low(Xor(a, b), n) == Low(Xor(a', b), n)
  {
    hide Xor;
    if n != 0 {
      XorHalves(a, b);
      XorHalves(a', b);
      LowXor(a / 2, a' / 2, b / 2, n - 1);
    }
  }

  lemma {:induction false} XorUnfold(a: nat, b: nat)
    ensures Xor(a, b) == (a % 2 + b % 2) % 2 + 2 * Xor(a / 2, b / 2)
  {
    if a == 0 && b == 0 { assert a / 2 == 0 && b / 2 == 0; }
  }

  lemma {:induction false} HalvesOf(x: nat, bit: nat, rest: nat)
    requires bit < 2 && x == bit + 2 * rest
    ensures x % 2 == bit && x / 2 == rest
  {
  }

  lemma {:induction false} XorHalves(a: nat, b: nat)
    ensures Xor(a, b) % 2 == (a % 2 + b % 2) % 2 && Xor(a, b) / 2 == Xor(a / 2, b / 2)
  {
    hide Xor;
    XorUnfold(a, b);
    HalvesOf(Xor(a, b), (a % 2 + b % 2) % 2, Xor(a / 2, b / 2));
  }

  lemma {:induction false} LowShl(a: nat, a': nat, n: nat, k: nat)
    requires Low(a, n) == Low(a', n)
    ensures Low(Shl(a, k), n + k) == Low(Shl(a', k), n + k)
  {
    if k != 0 {
      LowShl(a, a', n, k - 1);
      assert Shl(a, k) / 2 == Shl(a, k - 1) && Shl(a', k) / 2 == Shl(a', k - 1);
      assert n + k - 1 == n + (k - 1);
    }
  }

  lemma {:induction false} LowLess(a: nat, a': nat, m: nat, n: nat)
    requires m <= n && Low(a, n) == Low(a', n)
    ensures Low(a, m) == Low(a', m)
  {
    if m != 0 { LowLess(a / 2, a' / 2, m - 1, n - 1); }
  }

  lemma {:induction false} LowLow(a: nat, m: nat, n: nat)
    requires m <= n
    ensures Low(Low(a, n), m) == Low(a, m)
  {
    if m != 0 {
      assert Low(a, n) % 2 == a % 2 && Low(a, n) / 2 == Low(a / 2, n - 1);
      LowLow(a / 2, m - 1, n - 1);
    }
  }

  // The new hash depends on all but the top five bits of the old one.
  lemma {:induction false} UpdateAgrees(h: nat, h': nat, c: byte, n: nat, m: nat)
    requires Low(h, n) == Low(h', n) && m <= n + H_SHIFT && m <= HASH_BITS
    ensures Low(UpdateHash(h, c), m) == Low(UpdateHash(h', c), m)
  {
    LowShl(h, h', n, H_SHIFT);
    LowLess(Shl(h, H_SHIFT), Shl(h', H_SHIFT), m, n + H_SHIFT);
    LowXor(Shl(h, H_SHIFT), Shl(h', H_SHIFT), c, m);
    LowLow(Xor(Shl(h, H_SHIFT), c), m, HASH_BITS);
    LowLow(Xor(Shl(h', H_SHIFT), c), m, HASH_BITS);
  }

  // The hash state h is ready for the third byte of the string at i.
  ghost predicate Primed(h: nat, s: seq<byte>, i: nat)
  {
    i + 1 < |s| && Low(h, 8) == Low(UpdateHash(UpdateHash(0, s[i]), s[i + 1]), 8)
  }

  // After three bytes nothing of the older ones is left.
  lemma {:induction false} PrimedNext(h: nat, s: seq<byte>, i: nat)
    requires Primed(h, s, i) && i + 2 < |s|
    ensures UpdateHash(h, s[i + 2]) == HashAt(s, i) && Primed(UpdateHash(h, s[i + 2]), s, i + 1)
  {
    var a, b, c := s[i], s[i + 1], s[i + 2];
    UpdateAgrees(h, UpdateHash(UpdateHash(0, a), b), c, 8, 13);
    LowFits(UpdateHash(h, c), 13);
    LowFits(HashAt(s, i), 13);
    UpdateAgrees(UpdateHash(0, a), 0, b, 0, 5);
    UpdateAgrees(UpdateHash(UpdateHash(0, a), b), UpdateHash(0, b), c, 5, 8);
  }

  lemma {:induction false} PrimedStart(h: nat, s: seq<byte>, i: nat)
    requires i + 1 < |s|
    ensures Primed(UpdateHash(UpdateHash(h, s[i]), s[i + 1]), s, i)
  {
    UpdateAgrees(h, 0, s[i], 0, 5);
    UpdateAgrees(UpdateHash(h, s[i]), UpdateHash(0, s[i]), s[i + 1], 5, 8);
  }

  lemma {:induction false} XorCancel(x: nat, b: nat, b': nat, n: nat)
    requires b < Pow2(n) && b' < Pow2(n) && Low(Xor(x, b), n) == Low(Xor(x, b'), n)
    ensures b == b'
  {
    hide Xor;
    if n != 0 {
      XorHalves(x, b);
      XorHalves(x, b');
      XorCancel(x / 2, b / 2, b' / 2, n - 1);
    }
  }

  // Strings with the same hash that agree in two bytes agree in the third.
  lemma {:induction false} ThirdByte(s: seq<byte>, i: nat, j: nat)
    requires i + 2 < |s| && j + 2 < |s| && HashAt(s, i) == HashAt(s, j) && s[i] == s[j] && s[i + 1] == s[j + 1]
    ensures s[i + 2] == s[j + 2]
  {
    var h, c, c' := UpdateHash(UpdateHash(0, s[i]), s[i + 1]), s[i + 2], s[j + 2];
    var x := Shl(h, H_SHIFT);
    LowLess(Xor(x, c), Xor(x, c'), 8, HASH_BITS);
    Pow2Small();
    XorCancel(x, c, c', 8);
  }
}
