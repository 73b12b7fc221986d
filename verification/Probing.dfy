/** Open addressing with double hashing over a table of prime size, as in make_hash and the
    three search functions of dpkg. */
module Probing {
  import opened Bits

  ghost predicate Prime(p: nat)
  {
    p >= 2 && forall d :: 2 <= d < p ==> p % d != 0
  }

  // Slots 0..p-1 hold an entry or nothing.
  type Table<E> = seq<Option<E>>

  // One step of a probe.
  function Next(a: nat, dec: nat, p: nat): (r: nat)
    requires a < p && 1 <= dec < p
    ensures r < p
  {
    if a >= dec then a - dec else a - dec + p
  }

  // The slot after n steps.
  function Probe(start: nat, dec: nat, p: nat, n: nat): (r: nat)
    requires start < p && 1 <= dec < p
    ensures r < p
  {
    if n == 0 then start else Next(Probe(start, dec, p, n - 1), dec, p)
  }

  ghost predicate Divides(p: nat, x: int)
    requires p > 0
  {
    exists k: int :: x == Times(k, p)
  }

  function Times(k: int, p: nat): int { k * p }

  lemma {:induction false} DividesSum(p: nat, x: int, y: int)
    requires p > 0 && Divides(p, x) && Divides(p, y)
    ensures Divides(p, x + y) && Divides(p, x - y)
  {
    var k :| x == Times(k, p);
    var l :| y == Times(l, p);
    assert x + y == Times(k + l, p);
    assert x - y == Times(k - l, p);
  }

  lemma {:induction false} DividesTimes(p: nat, x: int, q: int)
    requires p > 0 && Divides(p, x)
    ensures Divides(p, q * x)
  {
    var k :| x == Times(k, p);
    TimesAssoc(q, k, p);
    assert q * x == Times(q * k, p);
  }

  lemma {:induction false} TimesAssoc(q: int, k: int, p: int)
    ensures q * (k * p) == (q * k) * p
  {
  }

  // Euclid's lemma for a factor below the prime.
  lemma {:induction false} Euclid(p: nat, a: nat, b: int)
    requires Prime(p) && 0 < a < p && Divides(p, a * b)
    ensures Divides(p, b)
    decreases a
  {
    if a > 1 {
      var q, r := p / a, p % a;
      DividesTimes(p, a * b, q);
      assert Divides(p, p * b) by { Commute(p, b); assert p * b == Times(b, p); }
      DividesSum(p, p * b, q * (a * b));
      Remainder(p, a, q, r, b);
      Euclid(p, r, b);
    }
  }

  lemma {:induction false} Commute(a: int, b: int)
    ensures a * b == b * a
  {
  }

  lemma {:induction false} Remainder(p: int, a: int, q: int, r: int, b: int)
    requires p == q * a + r
    ensures p * b - q * (a * b) == r * b
  {
    TimesAssoc(q, a, b);
    assert (q * a + r) * b == q * a * b + r * b;
  }

  // Where a probe stands, modulo p.
  lemma {:induction false} ProbeIs(start: nat, dec: nat, p: nat, n: nat)
    requires start < p && 1 <= dec < p
    ensures Divides(p, Probe(start, dec, p, n) - start + dec * n)
  {
    if n == 0 {
      assert 0 == Times(0, p) && dec * 0 == 0;
    } else {
      ProbeIs(start, dec, p, n - 1);
      var a, b := Probe(start, dec, p, n - 1), Probe(start, dec, p, n);
      assert dec * n == dec * (n - 1) + dec;
      var k :| a - start + dec * (n - 1) == Times(k, p);
      assert b - start + dec * n == Times(if a >= dec then k else k + 1, p);
    }
  }

  lemma {:induction false} SmallMultiple(p: nat, x: int)
    requires p > 0 && Divides(p, x) && 0 - p < x < p
    ensures x == 0
  {
    var k :| x == Times(k, p);
    LargeMultiple(k, p);
  }

  lemma {:induction false} LargeMultiple(k: int, p: nat)
    ensures k >= 1 ==> k * p >= p
    ensures k <= -1 ==> k * p <= 0 - p
  {
  }

  lemma {:induction false} SameProbe(start: nat, dec: nat, p: nat, i: nat, j: nat)
    requires Prime(p) && start < p && 1 <= dec < p && i <= j < p && Probe(start, dec, p, i) == Probe(start, dec, p, j)
    ensures i == j
  {
    var x := Probe(start, dec, p, i) - start;
    ProbeIs(start, dec, p, i);
    ProbeIs(start, dec, p, j);
    DividesSum(p, x + dec * j, x + dec * i);
    assert dec * j - dec * i == dec * (j - i);
    Euclid(p, dec, j - i);
    SmallMultiple(p, j - i);
  }

  function Upto(n: nat): (s: set<nat>)
    ensures forall x: nat :: x in s <==> x < n
  {
    if n == 0 then {} else Upto(n - 1) + {n - 1}
  }

  lemma {:induction false} UptoSize(n: nat)
    ensures |Upto(n)| == n
  {
    if n != 0 { UptoSize(n - 1); }
  }

  ghost function Visited(start: nat, dec: nat, p: nat, n: nat): (s: set<nat>)
    requires start < p && 1 <= dec < p
  {
    if n == 0 then {} else Visited(start, dec, p, n - 1) + {Probe(start, dec, p, n - 1)}
  }

  lemma {:induction false} VisitedOnly(start: nat, dec: nat, p: nat, n: nat, x: nat) returns (k: nat)
    requires start < p && 1 <= dec < p && x in Visited(start, dec, p, n)
    ensures k < n && Probe(start, dec, p, k) == x
  {
    if x == Probe(start, dec, p, n - 1) {
      k := n - 1;
    } else {
      k := VisitedOnly(start, dec, p, n - 1, x);
    }
  }

  lemma {:induction false} VisitedSize(start: nat, dec: nat, p: nat, n: nat)
    requires Prime(p) && start < p && 1 <= dec < p && n <= p
    ensures |Visited(start, dec, p, n)| == n
  {
    if n != 0 {
      VisitedSize(start, dec, p, n - 1);
      var x := Probe(start, dec, p, n - 1);
      if x in Visited(start, dec, p, n - 1) {
        var k := VisitedOnly(start, dec, p, n - 1, x);
        SameProbe(start, dec, p, k, n - 1);
      }
    }
  }

  lemma {:induction false} SubsetFull(a: set<nat>, b: set<nat>)
    requires a <= b && |a| == |b|
    ensures a == b
  {
    if exists x :: x in b && x !in a {
      var x :| x in b && x !in a;
      Smaller(a, b - {x});
    }
  }

  lemma {:induction false} Smaller(a: set<nat>, b: set<nat>)
    requires a <= b
    ensures |a| <= |b|
    decreases |a|
  {
    if a != {} {
      var x :| x in a;
      Smaller(a - {x}, b - {x});
    }
  }

  // Every slot is reached within p steps, because the step is coprime to the prime p.
  lemma {:induction false} ProbesCover(start: nat, dec: nat, p: nat, slot: nat) returns (n: nat)
    requires Prime(p) && start < p && 1 <= dec < p && slot < p
    ensures n < p && Probe(start, dec, p, n) == slot
  {
    var v := Visited(start, dec, p, p);
    VisitedSize(start, dec, p, p);
    UptoSize(p);
    forall x | x in v ensures x in Upto(p) {
      var k := VisitedOnly(start, dec, p, p, x);
    }
    SubsetFull(v, Upto(p));
    n := VisitedOnly(start, dec, p, p, slot);
  }

  // No divisor from d on, up to the square root.
  predicate NoDivisor(p: nat, d: nat)
    requires d >= 2
    decreases p - d
  {
    d * d > p || d >= p || (p % d != 0 && NoDivisor(p, d + 1))
  }

  lemma {:induction false} NoDivisorAt(p: nat, d: nat, e: nat)
    requires 2 <= d <= e && NoDivisor(p, d) && e * e <= p && e < p
    ensures p % e != 0
    decreases e - d
  {
    SquareMono(d, e);
    if d < e { NoDivisorAt(p, d + 1, e); }
  }

  lemma {:induction false} SquareMono(a: nat, b: nat)
    requires a <= b
    ensures a * a <= b * b
  {
  }

  // Trial division.
  lemma {:induction false} TrialDivision(p: nat)
    requires p >= 2 && NoDivisor(p, 2)
    ensures Prime(p)
  {
    forall e | 2 <= e < p ensures p % e != 0 {
      if e * e <= p {
        NoDivisorAt(p, 2, e);
      } else if p % e == 0 {
        var f := p / e;
        Factors(p, e, f);
        NoDivisorAt(p, 2, f);
      }
    }
  }

  lemma {:induction false} Factors(p: nat, e: nat, f: nat)
    requires 2 <= e < p && p % e == 0 && f == p / e && e * e > p
    ensures 2 <= f < p && f * f <= p && p % f == 0
  {
    assert p == e * f;
    Commute(e, f);
    Multiple(e, f);
    if f >= e { Grows(e, f); }
    SquareMono(f, e);
  }

  lemma {:induction false} Grows(e: nat, f: nat)
    requires e <= f
    ensures e * e <= e * f
  {
  }

  lemma {:induction false} Multiple(e: nat, f: nat)
    requires f > 0
    ensures (e * f) % f == 0
  {
    var x := e * f;
    var q, r := x / f, x % f;
    QuotientIs(x, f);
    assert (e - q) * f == r;
    LargeMultiple(e - q, f);
  }

  lemma {:induction false} QuotientIs(x: nat, f: nat)
    requires f > 0
    ensures x == x / f * f + x % f && 0 <= x % f < f
  {
  }

  lemma {:induction false} NameTablePrime()
    ensures Prime(16381)
  {
    assert NoDivisor(16381, 122) && NoDivisor(16381, 116) && NoDivisor(16381, 110) && NoDivisor(16381, 104);
    assert NoDivisor(16381, 98) && NoDivisor(16381, 92) && NoDivisor(16381, 86) && NoDivisor(16381, 80);
    assert NoDivisor(16381, 74) && NoDivisor(16381, 68) && NoDivisor(16381, 62) && NoDivisor(16381, 56);
    assert NoDivisor(16381, 50) && NoDivisor(16381, 44) && NoDivisor(16381, 38) && NoDivisor(16381, 32);
    assert NoDivisor(16381, 26) && NoDivisor(16381, 20) && NoDivisor(16381, 14) && NoDivisor(16381, 8);
    assert NoDivisor(16381, 2);
    TrialDivision(16381);
  }

  lemma {:induction false} PackageTablePrime()
    ensures Prime(10007)
  {
    assert NoDivisor(10007, 95) && NoDivisor(10007, 89) && NoDivisor(10007, 83) && NoDivisor(10007, 77);
    assert NoDivisor(10007, 71) && NoDivisor(10007, 65) && NoDivisor(10007, 59) && NoDivisor(10007, 53);
    assert NoDivisor(10007, 47) && NoDivisor(10007, 41) && NoDivisor(10007, 35) && NoDivisor(10007, 29);
    assert NoDivisor(10007, 23) && NoDivisor(10007, 17) && NoDivisor(10007, 11) && NoDivisor(10007, 5);
    assert NoDivisor(10007, 2);
    TrialDivision(10007);
  }

  lemma {:induction false} StatusTablePrime()
    ensures Prime(8191)
  {
    assert NoDivisor(8191, 85) && NoDivisor(8191, 79) && NoDivisor(8191, 73) && NoDivisor(8191, 67);
    assert NoDivisor(8191, 61) && NoDivisor(8191, 55) && NoDivisor(8191, 49) && NoDivisor(8191, 43);
    assert NoDivisor(8191, 37) && NoDivisor(8191, 31) && NoDivisor(8191, 25) && NoDivisor(8191, 19);
    assert NoDivisor(8191, 13) && NoDivisor(8191, 7) && NoDivisor(8191, 2);
    TrialDivision(8191);
  }

  // The loop of the search functions. As long as some slot is free, or holds an entry that
  // fits, it ends within p steps.
  method Find<E>(t: Table<E>, start: nat, dec: nat, fits: E -> bool, ghost slot: nat) returns (a: nat, ghost n: nat)
    requires Prime(|t|) && start < |t| && 1 <= dec < |t| && slot < |t| && (t[slot].None? || fits(t[slot].value))
    ensures n < |t| && a == Probe(start, dec, |t|, n) && (t[a].None? || fits(t[a].value))
    ensures forall k :: 0 <= k < n ==> t[Probe(start, dec, |t|, k)].Some? && !fits(t[Probe(start, dec, |t|, k)].value)
  {
    var p := |t|;
    ghost var last := ProbesCover(start, dec, p, slot);
    a := start;
    n := 0;
    while t[a].Some? && !fits(t[a].value)
      invariant n <= last && a == Probe(start, dec, p, n)
      invariant forall k :: 0 <= k < n ==> t[Probe(start, dec, p, k)].Some? && !fits(t[Probe(start, dec, p, k)].value)
      decreases last - n
    {
      a := if a >= dec then a - dec else a - dec + p;
      n := n + 1;
    }
  }
}
