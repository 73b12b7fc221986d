/** Streaming MD5: whatever pieces the bytes come in, the digest is that of section 3 of
    RFC 1321 over all of them. The block transform is a parameter, so the results hold for any. */
module Md5 {
  import opened Bits

  const BLOCK := 64

  // The four words of the state (section 3.3).
  datatype State = State(a: nat, b: nat, c: nat, d: nat)

  type Transform = (State, seq<byte>) -> State

  const INITIAL := State(0x67452301, 0xefcdab89, 0x98badcfe, 0x10325476)

  // The state after n blocks of the data (section 3.4).
  function Blocks(f: Transform, data: seq<byte>, n: nat): State
    requires 64 * n <= |data|
  {
    if n == 0 then INITIAL else f(Blocks(f, data, n - 1), data[64 * (n - 1)..64 * n])
  }

  lemma {:induction false} BlocksPrefix(f: Transform, data: seq<byte>, more: seq<byte>, n: nat)
    requires 64 * n <= |data|
    ensures Blocks(f, data + more, n) == Blocks(f, data, n)
  {
    if n > 0 {
      BlocksPrefix(f, data, more, n - 1);
      assert (data + more)[64 * (n - 1)..64 * n] == data[64 * (n - 1)..64 * n];
    }
  }

  function Zeros(n: nat): (s: seq<byte>)
    ensures |s| == n
  {
    seq(n, i => 0)
  }

  // A number in n bytes, low byte first.
  function LowBytes(x: nat, n: nat): (s: seq<byte>)
    ensures |s| == n
  {
    if n == 0 then [] else [x % 256] + LowBytes(x / 256, n - 1)
  }

  // How many zero bytes the padding of n bytes of data has.
  function ZeroCount(n: nat): (k: nat)
    ensures (n + 1 + k + 8) % 64 == 0 && k < 64
  {
    if n % 64 < 56 then 55 - n % 64 else 119 - n % 64
  }

  // Sections 3.1 and 3.2: a one bit, zero bits, and the length in bits modulo 2^64.
  function Padded(data: seq<byte>): (p: seq<byte>)
    ensures |p| % 64 == 0
  {
    data + ([0x80] + (Zeros(ZeroCount(|data|)) + LowBytes(8 * |data| % LONG, 8)))
  }

  // Section 3.5.
  function Output(s: State): (d: seq<byte>)
    ensures |d| == 16
  {
    LowBytes(s.a, 4) + LowBytes(s.b, 4) + LowBytes(s.c, 4) + LowBytes(s.d, 4)
  }

  // Section 3.3 gives the initial words byte by byte, low byte first.
  lemma {:induction false} InitialBytes()
    ensures Output(INITIAL) == [0x01, 0x23, 0x45, 0x67, 0x89, 0xab, 0xcd, 0xef,
                                0xfe, 0xdc, 0xba, 0x98, 0x76, 0x54, 0x32, 0x10]
  {
    hide LowBytes;
    FourBytes(0x67452301, 0x01, 0x23, 0x45, 0x67);
    FourBytes(0xefcdab89, 0x89, 0xab, 0xcd, 0xef);
    FourBytes(0x98badcfe, 0xfe, 0xdc, 0xba, 0x98);
    FourBytes(0x10325476, 0x76, 0x54, 0x32, 0x10);
  }

  lemma {:induction false} FourBytes(x: nat, a: byte, b: byte, c: byte, d: byte)
    requires x == 0x100 * (0x100 * (0x100 * (d as nat) + c) + b) + a
    ensures LowBytes(x, 4) == [a, b, c, d]
  {
    hide LowBytes;
    var z: nat := d;
    var y := 0x100 * z + c;
    FirstByte(x, 4, a, 0x100 * y + b);
    FirstByte(0x100 * y + b, 3, b, y);
    FirstByte(y, 2, c, z);
    FirstByte(z, 1, d, 0);
    NoBytes(0);
  }

  lemma {:induction false} FirstByte(x: nat, n: nat, a: byte, rest: nat)
    requires n > 0 && x == 0x100 * rest + a
    ensures LowBytes(x, n) == [a] + LowBytes(rest, n - 1)
  {
    assert x % 256 == a && x / 256 == rest;
  }

  lemma {:induction false} NoBytes(x: nat)
    ensures LowBytes(x, 0) == []
  {
  }

  // The value of bytes, low byte first.
  function ValueOf(s: seq<byte>): nat
  {
    if s == [] then 0 else (s[0] as nat) + 256 * ValueOf(s[1..])
  }

  lemma {:induction false} LowBytesBack(x: nat, n: nat)
    ensures ValueOf(LowBytes(x, n)) == x % Pow256(n)
  {
    if n > 0 {
      LowBytesBack(x / 256, n - 1);
      assert LowBytes(x, n)[1..] == LowBytes(x / 256, n - 1);
      LastDigit(x, Pow256(n - 1));
    } else {
      assert x % 1 == 0;
    }
  }

  function Pow256(n: nat): (p: nat)
    ensures p > 0
  {
    if n == 0 then 1 else 256 * Pow256(n - 1)
  }

  lemma {:induction false} LastDigit(x: nat, p: nat)
    requires p > 0
    ensures x % (256 * p) == x % 256 + 256 * (x / 256 % p)
  {
    var q, r := x / 256, x % 256;
    var a, b := q / p, q % p;
    Regrouped(x, p, q, r, a, b);
    RemainderIs(x, 256 * p, a, 256 * b + r);
  }

  lemma {:induction false} Regrouped(x: int, p: int, q: int, r: int, a: int, b: int)
    requires x == 256 * q + r && q == p * a + b
    ensures x == (256 * p) * a + (256 * b + r)
  {
    assert (256 * p) * a == 256 * (p * a);
  }

  lemma {:induction false} RemainderIs(x: int, m: int, a: int, r: int)
    requires 0 <= r < m && x == m * a + r
    ensures x % m == r
  {
    var d := x / m - a;
    assert x == m * (x / m) + x % m;
    assert m * (x / m) - m * a == m * d;
    NoMultiple(m, d, r - x % m);
  }

  lemma {:induction false} NoMultiple(m: int, d: int, e: int)
    requires m > 0 && m * d == e && -m < e < m
    ensures e == 0
  {
    AtLeastOne(m, d);
  }

  lemma {:induction false} AtLeastOne(m: int, d: int)
    requires m > 0
    ensures (d >= 1 ==> m * d >= m) && (d <= -1 ==> m * d <= -m)
  {
  }

  // The padding is a one bit, as few zero bits as fill the last block, and the length in bits.
  lemma {:induction false} PaddingLaw(data: seq<byte>)
    ensures var p, n := Padded(data), |data|;
            && n + 9 <= |p| < n + 9 + 64 && |p| % 64 == 0 && p[..n] == data && p[n] == 0x80
            && (forall i :: n + 1 <= i < |p| - 8 ==> p[i] == 0)
            && ValueOf(p[|p| - 8..]) == 8 * n % LONG
  {
    var p, n := Padded(data), |data|;
    var z, l := Zeros(ZeroCount(n)), LowBytes(8 * n % LONG, 8);
    assert p[|p| - 8..] == l;
    LowBytesBack(8 * n % LONG, 8);
    assert Pow256(8) == LONG;
    forall i | n + 1 <= i < |p| - 8 ensures p[i] == 0 { assert p[i] == z[i - n - 1]; }
  }

  function Digest(f: Transform, data: seq<byte>): (d: seq<byte>)
    ensures |d| == 16
  {
    Output(Blocks(f, Padded(data), |Padded(data)| / 64))
  }

  // The two words count n bytes in bits, modulo 2^64.
  predicate Counts(low: nat, high: nat, n: nat)
  {
    low < WORD && high < WORD && high * WORD + low == 8 * n % LONG
  }

  lemma {:induction false} Remains(r: nat, q: nat, x: nat)
    requires x == r + q * LONG && r < LONG
    ensures x % LONG == r
  {
  }

  // The counter after another len bytes: the low word wraps with a carry into the high one.
  lemma {:induction false} CountStep(low: nat, high: nat, n: nat, len: nat, low': nat, high': nat)
    requires Counts(low, high, n) && len < WORD
    requires low' == (low + 8 * len % WORD) % WORD
    requires high' == (high + (if low' < low then 1 else 0) + len / 0x2000_0000) % WORD
    ensures Counts(low', high', n + len)
  {
    var part := 8 * len % WORD;
    assert 8 * len == part + len / 0x2000_0000 * WORD;
    var carry := if low' < low then 1 else 0;
    assert low + part == low' + carry * WORD;
    var sum := high + carry + len / 0x2000_0000;
    var over := sum / WORD;
    assert sum == high' + over * WORD;
    var q := 8 * n / LONG;
    assert 8 * n == high * WORD + low + q * LONG;
    Remains(high' * WORD + low', over + q, 8 * (n + len));
  }

  // The same, folded.
  ghost predicate Counting(low: nat, high: nat, n: nat)
  {
    forall k {:trigger Open(k)} :: Open(k) ==> Counts(low, high, n)
  }

  // The low word tells how many bytes wait for a full block.
  lemma {:induction false} CountPending(low: nat, high: nat, n: nat, blocks: nat)
    requires Counting(low, high, n) && 64 * blocks <= n < 64 * blocks + 64
    ensures low / 8 % 64 == n - 64 * blocks
  {
    assert Open(0);
    var q := 8 * n / LONG;
    assert 8 * n == low + high * WORD + q * LONG;
    assert n == low / 8 + (high * 0x80_0000 + q * 0x80_0000_0000_0000) * 64;
  }

  // What the context holds after the bytes fed: the state after the full blocks, and the rest.
  ghost predicate Holds(f: Transform, fed: seq<byte>, n: nat, buf: State, input: seq<byte>)
  {
    && 64 * n <= |fed| <= 64 * n + 64 && |input| == 64
    && buf == Blocks(f, fed, n) && input[..|fed| - 64 * n] == fed[64 * n..]
  }

  // Some bytes are copied behind those that wait.
  lemma {:induction false} HoldsMore(f: Transform, fed: seq<byte>, n: nat, buf: State, input: seq<byte>, x: seq<byte>,
      input': seq<byte>)
    requires Holds(f, fed, n, buf, input) && |fed| - 64 * n + |x| <= 64
    requires input' == input[..|fed| - 64 * n] + x + input[|fed| - 64 * n + |x|..]
    ensures Holds(f, fed + x, n, buf, input')
  {
    BlocksPrefix(f, fed, x, n);
    assert input'[..|fed + x| - 64 * n] == input[..|fed| - 64 * n] + x;
    assert (fed + x)[64 * n..] == fed[64 * n..] + x;
  }

  // A full block goes into the state.
  lemma {:induction false} HoldsBlock(f: Transform, fed: seq<byte>, n: nat, buf: State, input: seq<byte>)
    requires Holds(f, fed, n, buf, input) && |fed| == 64 * n + 64
    ensures Holds(f, fed, n + 1, f(buf, input), input)
  {
    assert input[..64] == input;
    assert fed[64 * n..] == fed[64 * n..64 * n + 64];
    assert fed[64 * (n + 1)..] == input[..0];
  }

  class Context {
    const transform: Transform
    var buf: State
    var low: nat
    var high: nat
    const input: array<byte>
    // The bytes of all updates so far, and how many blocks of them the state covers.
    ghost var fed: seq<byte>
    ghost var blocks: nat

    ghost predicate Valid()
      reads this, input
    {
      input.Length == 64 && Holds(transform, fed, blocks, buf, input[..]) && |fed| < 64 * blocks + 64
        && Counting(low, high, |fed|)
    }

    // MD5_Init
    constructor (f: Transform)
      ensures Valid() && fed == [] && transform == f && fresh(input)
    {
      transform, buf, low, high := f, INITIAL, 0, 0;
      input := new byte[64];
      fed, blocks := [], 0;
    }

    // memcpy into the block.
    method CopyIn(at: nat, x: seq<byte>)
      requires input.Length == 64 && at + |x| <= 64
      modifies input
      ensures input[..] == old(input[..])[..at] + x + old(input[..])[at + |x|..]
    {
      forall i | 0 <= i < |x| { input[at + i] := x[i]; }
    }

    // MD5_Update
    method Update(data: seq<byte>)
      requires Valid() && |data| < WORD
      modifies this, input
      ensures Valid() && fed == old(fed) + data
    {
      var t := low;
      CountPending(low, high, |fed|, blocks);
      CountUp(|data|);
      t := t / 8 % 64;
      if t > 0 {
        var room := 64 - t;
        if |data| < room {
          Fill(t, data);
          return;
        }
        Fill(t, data[..room]);
        Consume();
        assert data == data[..room] + data[room..];
        assert old(fed) + data == fed + data[room..];
        Whole(data[room..]);
      } else {
        Whole(data);
      }
    }

    // The blocks of the data, and what is left over.
    method Whole(data: seq<byte>)
      requires input.Length == 64 && Holds(transform, fed, blocks, buf, input[..]) && |fed| == 64 * blocks
      modifies this, input
      ensures Holds(transform, fed, blocks, buf, input[..]) && |fed| < 64 * blocks + 64 && fed == old(fed) + data
      ensures low == old(low) && high == old(high)
    {
      ghost var fed0 := fed;
      var pos: nat := 0;
      while |data| - pos >= 64
        invariant pos <= |data|
        invariant fed == fed0 + data[..pos] && |fed| == 64 * blocks
        invariant Holds(transform, fed, blocks, buf, input[..])
        invariant low == old(low) && high == old(high)
      {
        assert fed0 + data[..pos + 64] == fed + data[pos..pos + 64];
        Fill(0, data[pos..pos + 64]);
        Consume();
        pos := pos + 64;
      }
      assert fed0 + data == fed + data[pos..];
      Fill(0, data[pos..]);
    }

    // The bit counter.
    method CountUp(len: nat)
      requires Counting(low, high, |fed|) && len < WORD
      modifies this
      ensures Counting(low, high, |fed| + len)
      ensures buf == old(buf) && fed == old(fed) && blocks == old(blocks)
    {
      var t := low;
      low := (t + 8 * len % WORD) % WORD;
      high := (high + (if low < t then 1 else 0) + len / 0x2000_0000) % WORD;
      assert Open(0);
      CountStep(t, old(high), |fed|, len, low, high);
    }

    method Fill(at: nat, x: seq<byte>)
      requires input.Length == 64 && Holds(transform, fed, blocks, buf, input[..]) && at == |fed| - 64 * blocks
               && at + |x| <= 64
      modifies this, input
      ensures Holds(transform, fed, blocks, buf, input[..]) && fed == old(fed) + x
      ensures low == old(low) && high == old(high) && blocks == old(blocks)
    {
      ghost var input0 := input[..];
      CopyIn(at, x);
      HoldsMore(transform, fed, blocks, buf, input0, x, input[..]);
      fed := fed + x;
    }

    method Consume()
      requires input.Length == 64 && Holds(transform, fed, blocks, buf, input[..]) && |fed| == 64 * blocks + 64
      modifies this
      ensures Holds(transform, fed, blocks, buf, input[..]) && blocks == old(blocks) + 1
      ensures low == old(low) && high == old(high) && fed == old(fed)
    {
      HoldsBlock(transform, fed, blocks, buf, input[..]);
      buf := transform(buf, input[..]);
      blocks := blocks + 1;
    }

    // MD5_Final
    method Final() returns (digest: seq<byte>)
      requires Valid()
      modifies this, input
      ensures digest == Digest(transform, old(fed))
    {
      hide Blocks, LowBytes, Zeros, Counting;
      ghost var data, whole := fed, blocks;
      CountPending(low, high, |fed|, blocks);
      var count: nat := low / 8 % 64;
      Fill(count, [0x80]);
      count := 64 - 1 - count;
      if count < 8 {
        Fill(64 - count, Zeros(count));
        Consume();
        Fill(0, Zeros(56));
      } else {
        Fill(64 - count, Zeros(count - 8));
      }
      Fill(56, LowBytes(low, 4) + LowBytes(high, 4));
      Consume();
      PaddingIs(data, whole, count, low, high, fed);
      digest := Output(buf);
    }
  }

  lemma {:induction false} LowBytesPair(low: nat, high: nat)
    requires low < WORD
    ensures LowBytes(high * WORD + low, 8) == LowBytes(low, 4) + LowBytes(high, 4)
  {
    var l1, l2, l3 := low / 256, low / 256 / 256, low / 256 / 256 / 256;
    var x1, x2, x3 := high * 0x100_0000 + l1, high * 0x1_0000 + l2, high * 0x100 + l3;
    var x := high * WORD + low;
    assert x % 256 == low % 256 && x / 256 == x1;
    assert x1 % 256 == l1 % 256 && x1 / 256 == x2;
    assert x2 % 256 == l2 % 256 && x2 / 256 == x3;
    assert x3 % 256 == l3 % 256 && x3 / 256 == high;
    LowBytesFour(low);
    assert LowBytes(x, 8) == [x % 256] + ([x1 % 256] + ([x2 % 256] + ([x3 % 256] + LowBytes(high, 4)))) by {
      assert LowBytes(x, 8) == [x % 256] + LowBytes(x1, 7);
      assert LowBytes(x1, 7) == [x1 % 256] + LowBytes(x2, 6);
      assert LowBytes(x2, 6) == [x2 % 256] + LowBytes(x3, 5);
    }
  }

  lemma {:induction false} LowBytesFour(x: nat)
    ensures LowBytes(x, 4) == [x % 256] + ([x / 256 % 256] + ([x / 256 / 256 % 256] + [x / 256 / 256 / 256 % 256]))
  {
    assert LowBytes(x / 256, 3) == [x / 256 % 256] + LowBytes(x / 256 / 256, 2);
    assert LowBytes(x / 256 / 256, 2) == [x / 256 / 256 % 256] + LowBytes(x / 256 / 256 / 256, 1);
    assert LowBytes(x / 256 / 256 / 256, 1) == [x / 256 / 256 / 256 % 256] + [];
  }

  lemma {:induction false} ZerosTwice(a: nat, b: nat)
    ensures Zeros(a) + Zeros(b) == Zeros(a + b)
  {
  }

  lemma {:induction false} PadWith(data: seq<byte>, z: seq<byte>, tail: seq<byte>)
    ensures data + [0x80] + z + tail == data + ([0x80] + (z + tail))
  {
  }

  lemma {:induction false} TailIs(low: nat, high: nat, n: nat)
    requires Counting(low, high, n)
    ensures LowBytes(low, 4) + LowBytes(high, 4) == LowBytes(8 * n % LONG, 8)
  {
    assert Open(0);
    LowBytesPair(low, high);
  }

  lemma {:induction false} ZeroCountIs(n: nat, whole: nat, count: nat)
    requires 64 * whole <= n < 64 * whole + 64 && count == 63 - (n - 64 * whole)
    ensures ZeroCount(n) == if count < 8 then count + 56 else count - 8
  {
  }

  // What MD5_Final appends is the padding.
  lemma {:induction false} PaddingIs(data: seq<byte>, whole: nat, count: nat, low: nat, high: nat, all: seq<byte>)
    requires 64 * whole <= |data| < 64 * whole + 64 && count == 63 - (|data| - 64 * whole)
             && Counting(low, high, |data|)
    requires var tail := LowBytes(low, 4) + LowBytes(high, 4);
             all == if count < 8 then data + [0x80] + Zeros(count) + Zeros(56) + tail
               else data + [0x80] + Zeros(count - 8) + tail
    ensures all == Padded(data)
  {
    var tail := LowBytes(low, 4) + LowBytes(high, 4);
    TailIs(low, high, |data|);
    ZeroCountIs(|data|, whole, count);
    PadWith(data, Zeros(ZeroCount(|data|)), tail);
    if count < 8 {
      ZerosTwice(count, 56);
      assert data + [0x80] + Zeros(count) + Zeros(56) == data + [0x80] + (Zeros(count) + Zeros(56));
    }
  }

  // Hashing a list of chunks gives the digest of their concatenation.
  method HashChunks(f: Transform, chunks: seq<seq<byte>>) returns (digest: seq<byte>)
    requires forall i :: 0 <= i < |chunks| ==> |chunks[i]| < WORD
    ensures digest == Digest(f, Flat(chunks))
  {
    var ctx := new Context(f);
    for i := 0 to |chunks|
      invariant ctx.Valid() && ctx.fed == Flat(chunks[..i]) && ctx.transform == f && fresh(ctx) && fresh(ctx.input)
    {
      ctx.Update(chunks[i]);
      assert chunks[..i + 1][..i] == chunks[..i];
    }
    assert chunks[..|chunks|] == chunks;
    digest := ctx.Final();
  }
}
