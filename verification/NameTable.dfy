/** Searching the hash tables of dpkg: which slot a search ends at, and interning of strings. */
module NameTable {
  import opened Bits
  import opened Probing

  type Name = seq<byte>

  // The sizes of the tables of strings, of packages and of status entries.
  const NAME_HASH_PRIME := 16381
  const PACKAGE_HASH_PRIME := 10007
  const STATUS_HASH_PRIME := 8191

  // hash_num of make_hash, modulo 2^64.
  function HashNum(key: Name, n: nat): nat
    requires n <= |key|
  {
    if n == 0 then 0
    else if n == 1 then key[0]
    else
      var c: nat, b: nat := key[n - 1], key[n - 2];
      (HashNum(key, n - 1) + Shl(c + b, c * (n - 1) % 24)) % LONG
  }

  function HashStart(key: Name, p: nat): (a: nat)
    requires p >= 2
    ensures a < p
  {
    HashNum(key, |key|) % WORD % p
  }

  function HashStep(key: Name, p: nat): (d: nat)
    requires p >= 2
    ensures 1 <= d < p
  {
    1 + HashNum(key, |key|) % (p - 1)
  }

  // After n steps from the start for key.
  function SlotAt(key: Name, p: nat, n: nat): (a: nat)
    requires p >= 2
    ensures a < p
  {
    Probe(HashStart(key, p), HashStep(key, p), p, n)
  }

  // In each of the three tables every key's probe comes to every slot within one round.
  lemma {:induction false} TablesCovered(key: Name, p: nat, slot: nat) returns (n: nat)
    requires p == NAME_HASH_PRIME || p == PACKAGE_HASH_PRIME || p == STATUS_HASH_PRIME
    requires slot < p
    ensures Prime(p) && n < p && SlotAt(key, p, n) == slot
  {
    hide Prime;
    NameTablePrime();
    PackageTablePrime();
    StatusTablePrime();
    n := ProbesCover(HashStart(key, p), HashStep(key, p), p, slot);
  }

  // The search for key ends at slot a after n steps: an entry that fits or no entry, with
  // entries that do not fit before it.
  ghost predicate EndsAt<E>(t: Table<E>, key: Name, fits: E -> bool, n: nat, a: nat)
  {
    && |t| >= 2 && a == SlotAt(key, |t|, n) && (t[a].None? || fits(t[a].value))
    && forall k :: 0 <= k < n ==> t[SlotAt(key, |t|, k)].Some? && !fits(t[SlotAt(key, |t|, k)].value)
  }

  // A search for key.
  method Search<E>(t: Table<E>, key: Name, fits: E -> bool, ghost slot: nat) returns (a: nat, ghost n: nat)
    requires Prime(|t|) && slot < |t| && (t[slot].None? || fits(t[slot].value))
    ensures n < |t| && EndsAt(t, key, fits, n, a)
  {
    a, n := Find(t, HashStart(key, |t|), HashStep(key, |t|), fits, slot);
  }

  // The entry at slot i can be found from key: no free slot comes before it.
  ghost predicate Reachable<E>(t: Table<E>, key: Name, i: nat)
  {
    |t| >= 2 && exists n: nat :: ReachedAt(t, key, i, n)
  }

  ghost predicate ReachedAt<E>(t: Table<E>, key: Name, i: nat, n: nat)
    requires |t| >= 2
  {
    SlotAt(key, |t|, n) == i && forall k :: 0 <= k < n ==> t[SlotAt(key, |t|, k)].Some?
  }

  // If an entry that fits is reachable, the search ends at an entry that fits.
  lemma {:induction false} SearchFinds<E>(t: Table<E>, key: Name, fits: E -> bool, n: nat, a: nat, i: nat)
    requires EndsAt(t, key, fits, n, a) && Reachable(t, key, i) && i < |t| && t[i].Some? && fits(t[i].value)
    ensures t[a].Some? && fits(t[a].value)
  {
    var m: nat :| ReachedAt(t, key, i, m);
    if n < m { assert t[SlotAt(key, |t|, n)].Some?; }
  }

  // Filling the free slot where the search for key ended, or replacing an entry, keeps every
  // entry reachable, the new one included.
  lemma {:induction false} FillKeeps<E>(t: Table<E>, key: Name, fits: E -> bool, n: nat, a: nat, e: E, other: Name,
      i: nat)
    requires EndsAt(t, key, fits, n, a) && ((i == a && other == key) || (i < |t| && Reachable(t, other, i)))
    ensures Reachable(t[a := Some(e)], other, i)
  {
    var t' := t[a := Some(e)];
    if i == a && other == key {
      assert ReachedAt(t', key, a, n);
    } else {
      var m: nat :| ReachedAt(t, other, i, m);
      assert ReachedAt(t', other, i, m);
    }
  }

  // The table of strings: every string is stored once, where its search ends.
  ghost predicate Interned(t: Table<Name>)
  {
    && Prime(|t|)
    && (forall i :: 0 <= i < |t| && t[i].Some? ==> Reachable(t, t[i].value, i))
    && (forall i, j :: 0 <= i < |t| && 0 <= j < |t| && t[i].Some? && t[i] == t[j] ==> i == j)
  }

  // What interning key in t gives, as a value.
  ghost predicate Interns(t: Table<Name>, key: Name, t': Table<Name>, a: nat)
  {
    && |t'| == |t| && a < |t| && t' == t[a := Some(key)] && (t[a] == None || t[a] == Some(key))
    && ((exists i :: 0 <= i < |t| && t[i] == Some(key)) ==> t' == t)
  }

  lemma {:induction false} InternKeeps(t: Table<Name>, key: Name, n: nat, a: nat)
    requires Interned(t) && EndsAt(t, key, k => k == key, n, a)
    ensures Interned(t[a := Some(key)]) && Interns(t, key, t[a := Some(key)], a)
  {
    var t' := t[a := Some(key)];
    forall i | 0 <= i < |t'| && t'[i].Some? ensures Reachable(t', t'[i].value, i) {
      FillKeeps(t, key, k => k == key, n, a, key, t'[i].value, i);
    }
    forall i | 0 <= i < |t| && t[i] == Some(key) ensures i == a {
      SearchFinds(t, key, k => k == key, n, a, i);
    }
    assert t[a] == Some(key) ==> t' == t;
  }

  // search_name_hashtable on the table of strings.
  class Names {
    const size: nat
    const slots: array<Option<Name>>

    constructor (size: nat)
      requires Prime(size)
      ensures Valid() && this.size == size && fresh(slots) && forall i :: 0 <= i < size ==> slots[i] == None
    {
      this.size := size;
      slots := new Option<Name>[size](_ => None);
    }

    ghost predicate Valid()
      reads this, slots
    {
      slots.Length == size && Interned(slots[..])
    }

    // While a slot is free, the search ends; the string gets the index it had, or a new one.
    method Intern(key: Name, ghost slot: nat) returns (a: nat)
      requires Valid() && slot < size && (slots[slot] == None || slots[slot] == Some(key))
      modifies slots
      ensures Valid() && Interns(old(slots[..]), key, slots[..], a)
    {
      ghost var t := slots[..];
      ghost var n;
      a, n := Search(slots[..], key, k => k == key, slot);
      InternKeeps(t, key, n, a);
      if slots[a] == None {
        slots[a] := Some(key);
      }
      assert slots[..] == t[a := Some(key)];
    }
  }

  // A run of interning: the table after each call and the index each call returned.
  ghost predicate Run(ts: seq<Table<Name>>, keys: seq<Name>, idx: seq<nat>)
  {
    && |ts| == |keys| + 1 && |idx| == |keys| && Interned(ts[0])
    && forall i :: 0 <= i < |keys| ==> RunStep(ts[i], keys[i], ts[i + 1], idx[i])
  }

  ghost predicate RunStep(t: Table<Name>, key: Name, t': Table<Name>, a: nat)
  {
    Interned(t') && Interns(t, key, t', a)
  }

  lemma {:induction false} RunKeeps(ts: seq<Table<Name>>, keys: seq<Name>, idx: seq<nat>, i: nat, j: nat, a: nat)
    requires Run(ts, keys, idx) && i <= j <= |keys| && a < |ts[i]| && ts[i][a].Some?
    ensures |ts[j]| == |ts[i]| && ts[j][a] == ts[i][a]
    decreases j
  {
    if i < j {
      RunKeeps(ts, keys, idx, i, j - 1, a);
      assert RunStep(ts[j - 1], keys[j - 1], ts[j - 1 + 1], idx[j - 1]);
    }
  }

  // Over a whole run, two calls return the same index exactly if they are given the same string.
  lemma {:induction false} SameIndexSameString(ts: seq<Table<Name>>, keys: seq<Name>, idx: seq<nat>, i: nat, j: nat)
    requires Run(ts, keys, idx) && i < j < |keys|
    ensures idx[i] == idx[j] <==> keys[i] == keys[j]
  {
    assert RunStep(ts[i], keys[i], ts[i + 1], idx[i]);
    assert RunStep(ts[j], keys[j], ts[j + 1], idx[j]);
    RunKeeps(ts, keys, idx, i + 1, j, idx[i]);
    RunKeeps(ts, keys, idx, i + 1, j + 1, idx[i]);
  }
}
