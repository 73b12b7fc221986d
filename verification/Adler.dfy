/** lzo_adler32: the deferred-modulo checksum against its definition byte by byte (section 8.2
    of RFC 1950). */
module Adler {
  import opened Bits
  import opened Probing

  const BASE := 65521
  const NMAX := 5552

  lemma {:induction false} HighTrials()
    ensures NoDivisor(BASE, 130)
  {
    assert NoDivisor(BASE, 250) && NoDivisor(BASE, 244) && NoDivisor(BASE, 238) && NoDivisor(BASE, 232);
    assert NoDivisor(BASE, 226) && NoDivisor(BASE, 220) && NoDivisor(BASE, 214) && NoDivisor(BASE, 208);
    assert NoDivisor(BASE, 202) && NoDivisor(BASE, 196) && NoDivisor(BASE, 190) && NoDivisor(BASE, 184);
    assert NoDivisor(BASE, 178) && NoDivisor(BASE, 172) && NoDivisor(BASE, 166) && NoDivisor(BASE, 160);
    assert NoDivisor(BASE, 154) && NoDivisor(BASE, 148) && NoDivisor(BASE, 142) && NoDivisor(BASE, 136);
    assert NoDivisor(BASE, 130);
  }

  lemma {:induction false} LowTrials()
    ensures NoDivisor(BASE, 2)
  {
    HighTrials();
    assert NoDivisor(BASE, 124) && NoDivisor(BASE, 118) && NoDivisor(BASE, 112) && NoDivisor(BASE, 106);
    assert NoDivisor(BASE, 100) && NoDivisor(BASE, 94) && NoDivisor(BASE, 88) && NoDivisor(BASE, 82);
    assert NoDivisor(BASE, 76) && NoDivisor(BASE, 70) && NoDivisor(BASE, 64) && NoDivisor(BASE, 58);
    assert NoDivisor(BASE, 52) && NoDivisor(BASE, 46) && NoDivisor(BASE, 40) && NoDivisor(BASE, 34);
    assert NoDivisor(BASE, 28) && NoDivisor(BASE, 22) && NoDivisor(BASE, 16) && NoDivisor(BASE, 10);
    assert NoDivisor(BASE, 4) && NoDivisor(BASE, 2);
  }

  lemma {:induction false} HasFactor(q: nat)
    requires BASE < q < 65536
    ensures !Prime(q)
  {
    assert q % 2 == 0 || q % 3 == 0 || q % 5 == 0 || q % 7 == 0 || q % 13 == 0 || q % 19 == 0;
  }

  // BASE is the largest prime below 65536: the numbers between have small factors.
  lemma {:induction false} LargestPrime(q: nat)
    ensures Prime(BASE) && (BASE < q < 65536 ==> !Prime(q))
  {
    LowTrials();
    TrialDivision(BASE);
    if BASE < q < 65536 { HasFactor(q); }
  }

  type uint32 = n: nat | n < WORD

  // The two sums, reduced after every byte.
  datatype Sums = Sums(s1: nat, s2: nat)

  function Add(a: Sums, b: byte): (r: Sums)
    ensures r.s1 < BASE && r.s2 < BASE
  {
    var s1 := (a.s1 + b) % BASE;
    Sums(s1, (a.s2 + s1) % BASE)
  }

  function AddAll(a: Sums, s: seq<byte>): (r: Sums)
    ensures a.s1 < BASE && a.s2 < BASE ==> r.s1 < BASE && r.s2 < BASE
  {
    if s == [] then a else Add(AddAll(a, s[..|s| - 1]), s[|s| - 1])
  }

  function Pack(a: Sums): nat { a.s2 * 65536 + a.s1 }

  function Unpack(adler: nat): Sums { Sums(adler % 65536, adler / 65536 % 65536) }

  // The checksum of s continued from adler.
  function Checksum(adler: nat, s: seq<byte>): nat { Pack(AddAll(Unpack(adler), s)) }

  // A value that the function returns, or 1 to start with.
  ghost predicate Reduced(adler: nat)
  {
    adler < WORD && adler % 65536 < BASE && adler / 65536 < BASE
  }

  lemma {:induction false} AddAllConcat(a: Sums, s: seq<byte>, t: seq<byte>)
    ensures AddAll(a, s + t) == AddAll(AddAll(a, s), t)
  {
    if t == [] {
      assert s + t == s;
    } else {
      AddAllConcat(a, s, t[..|t| - 1]);
      assert (s + t)[..|s| + |t| - 1] == s + t[..|t| - 1];
    }
  }

  lemma {:induction false} AddNone()
    ensures AddAll(Sums(1, 0), []) == Sums(1, 0)
  {
  }

  lemma {:induction false} AddLast(s: seq<byte>, b: byte, a: Sums) returns (t: seq<byte>)
    requires AddAll(Sums(1, 0), s) == a && a.s1 + b < BASE && a.s2 + a.s1 + b < BASE
    ensures t == s + [b] && AddAll(Sums(1, 0), t) == Sums(a.s1 + b, a.s2 + a.s1 + b)
  {
    t := s + [b];
    assert t[..|s|] == s;
  }

  // A checksum known in advance.
  lemma {:induction false} Wikipedia()
    ensures Checksum(1, Text("Wikipedia")) == 0x11E60398
  {
    hide AddAll;
    AddNone();
    var s: seq<byte> := [];
    s := AddLast(s, 87, Sums(1, 0));
    s := AddLast(s, 105, Sums(88, 88));
    s := AddLast(s, 107, Sums(193, 281));
    s := AddLast(s, 105, Sums(300, 581));
    s := AddLast(s, 112, Sums(405, 986));
    s := AddLast(s, 101, Sums(517, 1503));
    s := AddLast(s, 100, Sums(618, 2121));
    s := AddLast(s, 105, Sums(718, 2839));
    s := AddLast(s, 97, Sums(823, 3662));
    assert Text("Wikipedia") == s;
  }

  lemma {:induction false} PackUnpack(a: Sums)
    requires a.s1 < BASE && a.s2 < BASE
    ensures Unpack(Pack(a)) == a && Reduced(Pack(a))
  {
  }

  // Hashing x and then y is hashing both at once.
  lemma {:induction false} ChecksumConcat(adler: nat, x: seq<byte>, y: seq<byte>)
    requires Reduced(adler)
    ensures Checksum(Checksum(adler, x), y) == Checksum(adler, x + y) && Reduced(Checksum(adler, x))
  {
    var a := AddAll(Unpack(adler), x);
    PackUnpack(a);
    AddAllConcat(Unpack(adler), x, y);
  }

  // The sums of the inner loop after k bytes, unreduced: congruent and small enough.
  ghost predicate Tracks(s1: nat, s2: nat, a: Sums, k: nat)
  {
    && s1 % BASE == a.s1 && s2 % BASE == a.s2
    && s1 <= BASE - 1 + 255 * k && s2 <= Top(k)
  }

  // The largest s2 after k bytes.
  function Top(k: nat): nat { if k == 0 then BASE - 1 else Top(k - 1) + BASE - 1 + 255 * k }

  lemma {:induction false} TopIs(k: nat)
    ensures 2 * Top(k) == 2 * (k + 1) * (BASE - 1) + 255 * k * (k + 1)
  {
    if k != 0 {
      TopIs(k - 1);
      assert 2 * Top(k) == 2 * Top(k - 1) + 2 * (BASE - 1) + 510 * k;
      assert 255 * k * (k + 1) == 255 * (k - 1) * k + 510 * k;
    }
  }

  lemma {:induction false} TopMono(j: nat, k: nat)
    requires j <= k
    ensures Top(j) <= Top(k)
  {
    if j < k { TopMono(j, k - 1); }
  }

  // The constant 5552 is what 32 bits allow.
  lemma {:induction false} TopFits(k: nat)
    requires k <= NMAX
    ensures Top(k) < WORD && Top(NMAX + 1) >= WORD
  {
    TopMono(k, NMAX);
    TopIs(NMAX);
    TopIs(NMAX + 1);
  }

  lemma {:induction false} ModAdd(x: nat, y: nat)
    ensures (x + y) % BASE == (x % BASE + y) % BASE
  {
    var q, r := x / BASE, x % BASE;
    assert x + y == q * BASE + (r + y);
    ModMultiple(q, r + y);
  }

  lemma {:induction false} ModMultiple(q: nat, y: nat)
    ensures (q * BASE + y) % BASE == y % BASE
  {
    if q != 0 {
      ModMultiple(q - 1, y);
      assert q * BASE + y == ((q - 1) * BASE + y) + BASE;
    }
  }

  lemma {:induction false} TracksStep(s1: nat, s2: nat, a: Sums, k: nat, b: byte)
    requires Tracks(s1, s2, a, k) && k < NMAX
    ensures s1 + b < WORD && s2 + (s1 + b) < WORD && Tracks(s1 + b, s2 + (s1 + b), Add(a, b), k + 1)
  {
    ModAdd(s1, b);
    ModAdd(s2, s1 + b);
    ModAdd(s1 + b, a.s2);
    TopFits(k + 1);
  }

  // The inner loop: up to 5552 bytes without reduction, and no 32-bit sum wraps around.
  method Stretch(t1: uint32, t2: uint32, s: seq<byte>, ghost a: Sums) returns (s1: uint32, s2: uint32)
    requires |s| <= NMAX && t1 == a.s1 < BASE && t2 == a.s2 < BASE
    ensures s1 % BASE == AddAll(a, s).s1 && s2 % BASE == AddAll(a, s).s2
  {
    s1, s2 := t1, t2;
    for i := 0 to |s|
      invariant Tracks(s1, s2, AddAll(a, s[..i]), i)
    {
      TracksStep(s1, s2, AddAll(a, s[..i]), i, s[i]);
      assert s[..i + 1][..i] == s[..i];
      s1 := s1 + s[i];
      s2 := s2 + s1;
    }
    assert s[..|s|] == s;
  }

  // lzo_adler32; no buffer stands for NULL.
  method Adler32(adler: uint32, buffer: Option<seq<byte>>) returns (r: uint32)
    requires Reduced(adler)
    ensures r == if buffer.None? then 1 else Checksum(adler, buffer.value)
    ensures Reduced(r)
  {
    if buffer.None? {
      return 1;
    }
    var buf := buffer.value;
    ghost var start := Unpack(adler);
    var s1: uint32, s2: uint32, i: nat := adler % 65536, adler / 65536 % 65536, 0;
    while i < |buf|
      invariant i <= |buf| && s1 == AddAll(start, buf[..i]).s1 < BASE && s2 == AddAll(start, buf[..i]).s2 < BASE
    {
      var k: nat := if |buf| - i < NMAX then |buf| - i else NMAX;
      AddAllConcat(start, buf[..i], buf[i..i + k]);
      assert buf[..i] + buf[i..i + k] == buf[..i + k];
      s1, s2 := Stretch(s1, s2, buf[i..i + k], AddAll(start, buf[..i]));
      s1, s2, i := s1 % BASE, s2 % BASE, i + k;
    }
    assert buf[..i] == buf;
    PackUnpack(AddAll(start, buf));
    r := s2 * 65536 + s1;
  }
}
