/** Debian version ordering (section 5.6.12 of the Debian Policy Manual): version_compare_part
    and version_compare against an order on keys. */
module VersionOrder {
  import opened Bits

  predicate IsDigit(c: byte) { 48 <= c <= 57 }

  predicate IsAlpha(c: byte) { 65 <= c <= 90 || 97 <= c <= 122 }

  // order; the end of the string is 0.
  function Order(c: byte): int
  {
    if c == 126 then -1 else if c == 0 then 0 else if IsDigit(c) then 0 else if IsAlpha(c) then c else c + 256
  }

  // The byte at i, or the terminator.
  function CharAt(s: seq<byte>, i: nat): byte { if i < |s| then s[i] else 0 }

  ghost predicate NoNul(s: seq<byte>)
  {
    forall i :: 0 <= i < |s| ==> s[i] != 0
  }

  // How many digits s starts with, and their value.
  function Digits(s: seq<byte>): (n: nat)
    ensures n <= |s| && (forall i :: 0 <= i < n ==> IsDigit(s[i])) && (n < |s| ==> !IsDigit(s[n]))
  {
    if s == [] || !IsDigit(s[0]) then 0 else 1 + Digits(s[1..])
  }

  function Number(ds: seq<byte>): nat
    requires forall i :: 0 <= i < |ds| ==> IsDigit(ds[i])
  {
    if ds == [] then 0 else assert IsDigit(ds[|ds| - 1]); var d: int := ds[|ds| - 1];
       10 * Number(ds[..|ds| - 1]) + (d - 48)
  }

  // What a version part is compared by: the order of each character of a text, 0 behind the
  // text, the number that follows, and so on; as if followed by zeros without end.
  function Key(s: seq<byte>): seq<int>
    decreases |s|
  {
    if s == [] then []
    else if IsDigit(s[0]) then
      var n := Digits(s);
      [0, Number(s[..n])] + Key(s[n..])
    else [Order(s[0])] + Key(s[1..])
  }

  function Head(k: seq<int>): int { if k == [] then 0 else k[0] }

  function Tail(k: seq<int>): seq<int> { if k == [] then [] else k[1..] }

  // Lexicographic order of sequences that go on with zeros.
  function Lex(k: seq<int>, l: seq<int>): int
    decreases |k| + |l|
  {
    if k == [] && l == [] then 0
    else if Head(k) != Head(l) then Head(k) - Head(l)
    else Lex(Tail(k), Tail(l))
  }

  function Sign(x: int): int { if x < 0 then -1 else if x > 0 then 1 else 0 }

  lemma {:induction false} LexReverse(k: seq<int>, l: seq<int>)
    ensures Lex(k, l) == -Lex(l, k)
    decreases |k| + |l|
  {
    if (k != [] || l != []) && Head(k) == Head(l) { LexReverse(Tail(k), Tail(l)); }
  }

  lemma {:induction false} LexTransitive(k: seq<int>, l: seq<int>, m: seq<int>)
    requires Lex(k, l) <= 0 && Lex(l, m) <= 0
    ensures Lex(k, m) <= 0 && (Lex(k, l) < 0 || Lex(l, m) < 0 ==> Lex(k, m) < 0)
    decreases |k| + |l| + |m|
  {
    if k != [] || l != [] || m != [] {
      LexStep(k, l);
      LexStep(l, m);
      LexStep(k, m);
      if Head(k) == Head(l) && Head(l) == Head(m) { LexTransitive(Tail(k), Tail(l), Tail(m)); }
    }
  }

  lemma {:induction false} LexStep(k: seq<int>, l: seq<int>)
    ensures Lex(k, l) == if Head(k) != Head(l) then Head(k) - Head(l) else Lex(Tail(k), Tail(l))
  {
    if k == [] && l == [] { assert Tail(k) == [] && Tail(l) == []; }
  }

  // Both keys stand at a number, or at the end.
  lemma {:induction false} KeyAtNumber(s: seq<byte>)
    requires s == [] || IsDigit(s[0])
    ensures Head(Key(s)) == 0 && Head(Tail(Key(s))) == Number(s[..Digits(s)])
    ensures Digits(s) < |s| ==> Tail(Tail(Key(s))) == Key(s[Digits(s)..])
    ensures Digits(s) == |s| ==> Tail(Tail(Key(s))) == []
  {
    if s != [] {
      var n := Digits(s);
      assert Key(s) == [0, Number(s[..n])] + Key(s[n..]);
      if n == |s| { assert s[n..] == []; }
    }
  }

  // Equal numbers: what follows decides. Different ones decide.
  lemma {:induction false} LexAtNumber(v: seq<byte>, r: seq<byte>)
    requires (v == [] || IsDigit(v[0])) && (r == [] || IsDigit(r[0]))
    ensures var x, y := Number(v[..Digits(v)]), Number(r[..Digits(r)]);
            Lex(Key(v), Key(r)) == if x != y then x - y else Lex(Key(v[Digits(v)..]), Key(r[Digits(r)..]))
  {
    KeyAtNumber(v);
    KeyAtNumber(r);
    LexStep(Key(v), Key(r));
    LexStep(Tail(Key(v)), Tail(Key(r)));
    assert Key([]) == [];
  }

  // One character of a text on either side.
  lemma {:induction false} LexAtText(v: seq<byte>, r: seq<byte>)
    requires NoNul(v) && NoNul(r) && ((v != [] && !IsDigit(v[0])) || (r != [] && !IsDigit(r[0])))
    ensures Head(Key(v)) == Order(CharAt(v, 0)) && Head(Key(r)) == Order(CharAt(r, 0))
    ensures Order(CharAt(v, 0)) == Order(CharAt(r, 0)) ==>
              v != [] && r != [] && Lex(Key(v), Key(r)) == Lex(Key(v[1..]), Key(r[1..]))
    ensures Order(CharAt(v, 0)) != Order(CharAt(r, 0)) ==>
              Lex(Key(v), Key(r)) == Order(CharAt(v, 0)) - Order(CharAt(r, 0))
  {
    LexStep(Key(v), Key(r));
    if Order(CharAt(v, 0)) == Order(CharAt(r, 0)) {
      assert Key(v) == [Order(v[0])] + Key(v[1..]);
      assert Key(r) == [Order(r[0])] + Key(r[1..]);
    }
  }

  function Pow10(n: nat): nat { if n == 0 then 1 else 10 * Pow10(n - 1) }

  predicate AllDigits(s: seq<byte>)
  {
    forall i :: 0 <= i < |s| ==> IsDigit(s[i])
  }

  lemma {:induction false} NumberBound(ds: seq<byte>)
    requires AllDigits(ds)
    ensures Number(ds) < Pow10(|ds|)
    ensures ds != [] && ds[0] != 48 ==> Number(ds) >= Pow10(|ds| - 1)
  {
    if ds != [] {
      var f := ds[..|ds| - 1];
      NumberBound(f);
      if |ds| > 1 { assert f[0] == ds[0]; }
    }
  }

  lemma {:induction false} Pow10Mono(a: nat, b: nat)
    requires a <= b
    ensures Pow10(a) <= Pow10(b)
  {
    if a < b { Pow10Mono(a, b - 1); }
  }

  // Without leading zeros the longer number is the larger.
  lemma {:induction false} LongerIsLarger(a: seq<byte>, b: seq<byte>)
    requires AllDigits(a) && AllDigits(b) && |a| > |b| && a[0] != 48
    ensures Number(a) > Number(b)
  {
    NumberBound(a);
    NumberBound(b);
    Pow10Mono(|b|, |a| - 1);
  }

  lemma {:induction false} LeadingZero(ds: seq<byte>)
    requires AllDigits(ds) && ds != [] && ds[0] == 48
    ensures Number(ds) == Number(ds[1..])
  {
    if |ds| > 1 {
      var k := |ds| - 1;
      LeadingZero(ds[..k]);
      assert ds[1..][..k - 1] == ds[..k][1..];
    } else {
      assert ds[1..] == [] && ds[..0] == [];
    }
  }

  lemma {:induction false} DigitsSkip(s: seq<byte>, i: nat)
    requires i <= Digits(s)
    ensures Digits(s[i..]) == Digits(s) - i
  {
    if i == 0 {
      assert s[0..] == s;
    } else {
      assert s[1..][i - 1..] == s[i..];
      DigitsSkip(s[1..], i - 1);
    }
  }

  // while (*val == '0') val++
  method SkipZeros(s: seq<byte>, i: nat) returns (j: nat)
    requires i <= |s|
    ensures i <= j <= i + Digits(s[i..]) <= |s| && CharAt(s, j) != 48
    ensures Number(s[i..i + Digits(s[i..])]) == Number(s[j..i + Digits(s[i..])])
  {
    j := i;
    ghost var e := i + Digits(s[i..]);
    while CharAt(s, j) == 48
      invariant i <= j <= e && Digits(s[j..]) == e - j && AllDigits(s[j..e]) && Number(s[i..e]) == Number(s[j..e])
      decreases |s| - j
    {
      assert s[j..] != [] && IsDigit(s[j..][0]);
      DigitsSkip(s[j..], 1);
      assert s[j..][1..] == s[j + 1..];
      LeadingZero(s[j..e]);
      assert s[j..e][1..] == s[j + 1..e];
      j := j + 1;
    }
  }

  // The digits from i to m and from j to n, in step.
  method Tandem(val: seq<byte>, ref: seq<byte>, i: nat, j: nat, ghost m: nat, ghost n: nat)
    returns (firstDiff: int, v: nat, r: nat)
    requires i <= m <= |val| && j <= n <= |ref| && AllDigits(val[i..m]) && AllDigits(ref[j..n])
    requires (m < |val| ==> !IsDigit(val[m])) && (n < |ref| ==> !IsDigit(ref[n]))
    ensures i <= v <= m && j <= r <= n && v - i == r - j && (v == m || r == n)
    ensures (IsDigit(CharAt(val, v)) <==> v < m) && (IsDigit(CharAt(ref, r)) <==> r < n)
    ensures AllDigits(val[i..v]) && AllDigits(ref[j..r])
            && Sign(firstDiff) == Sign(Number(val[i..v]) - Number(ref[j..r]))
  {
    hide Number;
    v, r, firstDiff := i, j, 0;
    assert val[i..i] == [] && ref[j..j] == [];
    InRange(val, i, m, v);
    InRange(ref, j, n, r);
    while IsDigit(CharAt(val, v)) && IsDigit(CharAt(ref, r))
      invariant i <= v <= m && j <= r <= n && v - i == r - j && AllDigits(val[i..v]) && AllDigits(ref[j..r])
      invariant (IsDigit(CharAt(val, v)) <==> v < m) && (IsDigit(CharAt(ref, r)) <==> r < n)
      invariant Sign(firstDiff) == Sign(Number(val[i..v]) - Number(ref[j..r]))
      decreases |val| - v
    {
      NumberSnoc(val, i, v);
      NumberSnoc(ref, j, r);
      if firstDiff == 0 {
        firstDiff := (val[v] as int) - (ref[r] as int);
      }
      v, r := v + 1, r + 1;
      InRange(val, i, m, v);
      InRange(ref, j, n, r);
    }
  }

  lemma {:induction false} InRange(s: seq<byte>, i: nat, m: nat, k: nat)
    requires i <= k <= m <= |s| && AllDigits(s[i..m]) && (m < |s| ==> !IsDigit(s[m]))
    ensures IsDigit(CharAt(s, k)) <==> k < m
  {
    if k < m { assert s[i..m][k - i] == s[k]; }
  }

  // The numbers at v and r: their difference by sign, or 0 and the positions behind them.
  method CompareNumbers(val: seq<byte>, ref: seq<byte>, v0: nat, r0: nat)
    returns (res: int, v: nat, r: nat, ghost m: nat, ghost n: nat, ghost x: nat, ghost y: nat)
    requires v0 <= |val| && r0 <= |ref|
    ensures NumberAt(val, v0, m, x) && NumberAt(ref, r0, n, y)
    ensures Sign(res) == Sign(x - y) && (res == 0 ==> v == m && r == n)
  {
    hide Number, Digits;
    m, n := v0 + Digits(val[v0..]), r0 + Digits(ref[r0..]);
    DigitRun(val, v0);
    DigitRun(ref, r0);
    x, y := Number(val[v0..m]), Number(ref[r0..n]);
    var i := SkipZeros(val, v0);
    var j := SkipZeros(ref, r0);
    var firstDiff;
    firstDiff, v, r := Tandem(val, ref, i, j, m, n);
    if IsDigit(CharAt(val, v)) {
      LongerIsLarger(val[i..m], ref[j..n]);
      res := 1;
      return;
    }
    if IsDigit(CharAt(ref, r)) {
      LongerIsLarger(ref[j..n], val[i..m]);
      res := -1;
      return;
    }
    res := firstDiff;
  }

  // The digits at i.
  lemma {:induction false} DigitRun(s: seq<byte>, i: nat)
    requires i <= |s|
    ensures var m := i + Digits(s[i..]); m <= |s| && AllDigits(s[i..m]) && (m < |s| ==> !IsDigit(s[m]))
  {
    var n := Digits(s[i..]);
    assert s[i..i + n] == s[i..][..n];
    if i + n < |s| { assert s[i..][n] == s[i + n]; }
  }

  lemma {:induction false} NumberSnoc(s: seq<byte>, i: nat, k: nat)
    requires i <= k < |s| && AllDigits(s[i..k]) && IsDigit(s[k])
    ensures AllDigits(s[i..k + 1]) && Number(s[i..k + 1]) == 10 * Number(s[i..k]) + ((s[k] as int) - 48)
  {
    assert s[i..k + 1][..k - i] == s[i..k];
  }

  ghost predicate Position(val: seq<byte>, ref: seq<byte>, v: nat, r: nat)
  {
    v <= |val| && r <= |ref| && Lex(Key(val), Key(ref)) == Lex(Key(val[v..]), Key(ref[r..]))
  }

  lemma {:induction false} TextStep(val: seq<byte>, ref: seq<byte>, v: nat, r: nat)
    requires NoNul(val) && NoNul(ref) && Position(val, ref, v, r)
    requires (v < |val| && !IsDigit(val[v])) || (r < |ref| && !IsDigit(ref[r]))
    ensures Order(CharAt(val, v)) != Order(CharAt(ref, r)) ==> Lex(Key(val), Key(ref))
                                                               == Order(CharAt(val, v)) - Order(CharAt(ref, r))
    ensures Order(CharAt(val, v)) == Order(CharAt(ref, r)) ==> v < |val| && r < |ref|
                                                               && Position(val, ref, v + 1, r + 1)
  {
    var a, b := val[v..], ref[r..];
    LexAtText(a, b);
    if Order(CharAt(val, v)) == Order(CharAt(ref, r)) { assert a[1..] == val[v + 1..] && b[1..] == ref[r + 1..]; }
  }

  // m is the end of the digits at v and x is their value.
  ghost predicate NumberAt(s: seq<byte>, v: nat, m: nat, x: nat)
  {
    v <= |s| && m == v + Digits(s[v..]) && AllDigits(s[v..m]) && x == Number(s[v..m])
  }

  lemma {:induction false} NumberStep(val: seq<byte>, ref: seq<byte>, v: nat, r: nat, m: nat, n: nat, x: nat, y: nat)
    requires Position(val, ref, v, r) && (v == |val| || IsDigit(val[v])) && (r == |ref| || IsDigit(ref[r]))
    requires NumberAt(val, v, m, x) && NumberAt(ref, r, n, y)
    ensures (x != y ==> Lex(Key(val), Key(ref)) == x - y) && (x == y ==> Position(val, ref, m, n))
    ensures v <= m && r <= n && (v < |val| ==> v < m) && (r < |ref| ==> r < n)
  {
    LexAtNumber(val[v..], ref[r..]);
    TailSlices(val, v, Digits(val[v..]));
    TailSlices(ref, r, Digits(ref[r..]));
  }

  lemma {:induction false} TailSlices(s: seq<byte>, v: nat, i: nat)
    requires v + i <= |s|
    ensures s[v..][..i] == s[v..v + i] && s[v..][i..] == s[v + i..]
  {
  }

  // The text at v and r, while either side has a character that is not a digit.
  method CompareText(val: seq<byte>, ref: seq<byte>, v0: nat, r0: nat) returns (res: int, v: nat, r: nat)
    requires NoNul(val) && NoNul(ref) && Position(val, ref, v0, r0)
    ensures res != 0 ==> Lex(Key(val), Key(ref)) == res
    ensures res == 0 ==> v0 <= v && r0 <= r && Position(val, ref, v, r) && (v == |val| || IsDigit(val[v]))
                         && (r == |ref| || IsDigit(ref[r]))
  {
    hide Lex, Key, Order;
    v, r := v0, r0;
    while (v < |val| && !IsDigit(val[v])) || (r < |ref| && !IsDigit(ref[r]))
      invariant v0 <= v && r0 <= r && Position(val, ref, v, r)
      decreases |val| - v
    {
      var vc, rc := Order(CharAt(val, v)), Order(CharAt(ref, r));
      TextStep(val, ref, v, r);
      if vc != rc {
        return vc - rc, v, r;
      }
      v, r := v + 1, r + 1;
    }
    res := 0;
  }

  // The numbers at v and r.
  method CompareDigits(val: seq<byte>, ref: seq<byte>, v0: nat, r0: nat) returns (res: int, v: nat, r: nat)
    requires Position(val, ref, v0, r0) && (v0 == |val| || IsDigit(val[v0])) && (r0 == |ref| || IsDigit(ref[r0]))
    ensures res != 0 ==> Sign(res) == Sign(Lex(Key(val), Key(ref)))
    ensures res == 0 ==> Position(val, ref, v, r) && v0 <= v && r0 <= r && (v0 < |val| ==> v0 < v)
                         && (r0 < |ref| ==> r0 < r)
  {
    ghost var m, n, x, y;
    res, v, r, m, n, x, y := CompareNumbers(val, ref, v0, r0);
    NumberStep(val, ref, v0, r0, m, n, x, y);
  }

  // version_compare_part; NULL is the empty string. The scan stays within both strings.
  method ComparePart(val: seq<byte>, ref: seq<byte>) returns (res: int)
    requires NoNul(val) && NoNul(ref)
    ensures Sign(res) == Sign(Lex(Key(val), Key(ref)))
  {
    var v: nat, r: nat := 0, 0;
    assert val[0..] == val && ref[0..] == ref;
    while v < |val| || r < |ref|
      invariant Position(val, ref, v, r)
      decreases |val| - v + (|ref| - r)
    {
      ghost var v0, r0 := v, r;
      res, v, r := CompareText(val, ref, v, r);
      if res != 0 {
        return;
      }
      res, v, r := CompareDigits(val, ref, v, r);
      if res != 0 {
        return;
      }
    }
    assert val[v..] == [] && ref[r..] == [];
    res := 0;
  }

  // The first occurrence of c, or |s|; strchr.
  function First(s: seq<byte>, c: byte): (i: nat)
    ensures i <= |s| && (i < |s| ==> s[i] == c) && forall k :: 0 <= k < i ==> s[k] != c
  {
    if s == [] || s[0] == c then 0 else 1 + First(s[1..], c)
  }

  // One past the last occurrence of c, or 0; strrchr.
  function Last(s: seq<byte>, c: byte): (i: nat)
    ensures i <= |s| && (i > 0 ==> s[i - 1] == c) && forall k :: i <= k < |s| ==> s[k] != c
  {
    if s == [] then 0 else if s[|s| - 1] == c then |s| else Last(s[..|s| - 1], c)
  }

  predicate IsWhite(c: byte) { c == 32 || 9 <= c <= 13 }

  // atoi as an unsigned value, for numbers that fit.
  function Atoi(s: seq<byte>): nat
  {
    var t := s[Span(s, IsWhite)..];
    var signed := t != [] && (t[0] == 43 || t[0] == 45);
    var u := if signed then t[1..] else t;
    var n := Number(u[..Digits(u)]);
    if signed && t[0] == 45 && n != 0 then WORD - n % WORD else n
  }

  const COLON := 58
  const HYPHEN := 45

  // A version in its three parts.
  datatype Version = Version(epoch: nat, upstream: seq<byte>, revision: seq<byte>)

  function Split(s: seq<byte>): Version
  {
    var c := First(s, COLON);
    var epoch, rest := if c < |s| then Atoi(s) else 0, if c < |s| then s[c + 1..] else s;
    var h := Last(rest, HYPHEN);
    if h > 0 then Version(epoch, rest[..h - 1], rest[h..]) else Version(epoch, rest, [])
  }

  // The order of two versions: epoch, upstream version, revision.
  function Order3(a: Version, b: Version): int
  {
    if a.epoch != b.epoch then a.epoch - b.epoch
    else if Lex(Key(a.upstream), Key(b.upstream)) != 0 then Lex(Key(a.upstream), Key(b.upstream))
    else Lex(Key(a.revision), Key(b.revision))
  }

  // version_compare
  method VersionCompare(ver1: seq<byte>, ver2: seq<byte>) returns (res: int)
    requires NoNul(ver1) && NoNul(ver2)
    ensures Sign(res) == Sign(Order3(Split(ver1), Split(ver2)))
  {
    var a, b := Split(ver1), Split(ver2);
    SplitNoNul(ver1);
    SplitNoNul(ver2);
    res := CompareSplit(a, b);
  }

  lemma {:induction false} SplitNoNul(s: seq<byte>)
    requires NoNul(s)
    ensures NoNul(Split(s).upstream) && NoNul(Split(s).revision)
  {
  }

  method CompareSplit(a: Version, b: Version) returns (res: int)
    requires NoNul(a.upstream) && NoNul(a.revision) && NoNul(b.upstream) && NoNul(b.revision)
    ensures Sign(res) == Sign(Order3(a, b))
  {
    if a.epoch < b.epoch {
      return -1;
    }
    if a.epoch > b.epoch {
      return 1;
    }
    res := ComparePart(a.upstream, b.upstream);
    if res == 0 {
      res := ComparePart(a.revision, b.revision);
    }
  }

  // A total preorder: every version compares equal to itself, the reverse comparison has the
  // opposite sign, and the order is transitive, strictly so if either comparison is strict.
  lemma {:induction false} OrderReverse(a: Version, b: Version)
    ensures Order3(a, b) == -Order3(b, a) && Order3(a, a) == 0
  {
    LexReverse(Key(a.upstream), Key(b.upstream));
    LexReverse(Key(a.revision), Key(b.revision));
    LexReverse(Key(a.upstream), Key(a.upstream));
    LexReverse(Key(a.revision), Key(a.revision));
  }

  lemma {:induction false} OrderTransitive(a: Version, b: Version, c: Version)
    requires Order3(a, b) <= 0 && Order3(b, c) <= 0
    ensures Order3(a, c) <= 0 && (Order3(a, b) < 0 || Order3(b, c) < 0 ==> Order3(a, c) < 0)
  {
    if a.epoch == b.epoch && b.epoch == c.epoch {
      LexTransitive(Key(a.upstream), Key(b.upstream), Key(c.upstream));
      if Lex(Key(a.upstream), Key(b.upstream)) == 0 && Lex(Key(b.upstream), Key(c.upstream)) == 0 {
        LexEqual(Key(a.upstream), Key(b.upstream), Key(c.upstream));
        LexTransitive(Key(a.revision), Key(b.revision), Key(c.revision));
      }
    }
  }

  lemma {:induction false} LexEqual(k: seq<int>, l: seq<int>, m: seq<int>)
    requires Lex(k, l) == 0 && Lex(l, m) == 0
    ensures Lex(k, m) == 0
  {
    LexReverse(k, l);
    LexReverse(l, m);
    LexReverse(k, m);
    LexTransitive(k, l, m);
    LexTransitive(m, l, k);
  }

  lemma {:induction false} DigitsPrefix(t: seq<byte>, x: seq<byte>)
    requires x != [] && !IsDigit(x[0])
    ensures Digits(t + x) == Digits(t)
  {
    if t != [] {
      assert (t + x)[1..] == t[1..] + x;
      DigitsPrefix(t[1..], x);
    }
  }

  // The key of a version that goes on with text.
  lemma {:induction false} KeyConcat(t: seq<byte>, x: seq<byte>)
    requires x != [] && !IsDigit(x[0])
    ensures Key(t + x) == Key(t) + Key(x)
    decreases |t|
  {
    if t == [] {
      assert t + x == x;
    } else if IsDigit(t[0]) {
      var n := Digits(t);
      DigitsPrefix(t, x);
      assert (t + x)[..n] == t[..n] && (t + x)[n..] == t[n..] + x;
      KeyConcat(t[n..], x);
      Assoc([0, Number(t[..n])], Key(t[n..]), Key(x));
    } else {
      assert (t + x)[1..] == t[1..] + x;
      KeyConcat(t[1..], x);
      Assoc([Order(t[0])], Key(t[1..]), Key(x));
    }
  }

  lemma {:induction false} LexPrefix(k: seq<int>, l: seq<int>)
    ensures Lex(k + l, k) == Lex(l, [])
  {
    if k == [] {
      assert k + l == l;
    } else {
      assert (k + l)[1..] == k[1..] + l;
      LexPrefix(k[1..], l);
    }
  }

  // "~" sorts before the end of the string, whatever follows it.
  lemma {:induction false} TildeFirst(t: seq<byte>, s: seq<byte>)
    ensures Lex(Key(t + ([126] + s)), Key(t)) < 0
  {
    var x := [126] + s;
    KeyConcat(t, x);
    LexPrefix(Key(t), Key(x));
  }

  // Section 5.6.12 on its own terms. A letter:
  predicate Letter(c: byte)
  {
    var x: int := c;
    ('A' as int <= x <= 'Z' as int) || ('a' as int <= x <= 'z' as int)
  }

  // Any character that is compared as text.
  predicate Textual(c: byte)
  {
    var x: int := c;
    x != 0 && !('0' as int <= x <= '9' as int)
  }

  // "~" comes first, then the letters, then everything else.
  predicate Before(c: byte, d: byte)
  {
    var tilde := '~' as int;
    if c == d || d == tilde then false
    else if c == tilde then true
    else if Letter(c) != Letter(d) then Letter(c)
    else c < d
  }

  // The first character in which two versions differ decides.
  lemma {:induction false} TextOrder(t: seq<byte>, c: byte, d: byte, s: seq<byte>, u: seq<byte>)
    requires Textual(c) && Textual(d) && c != d
    ensures Lex(Key(t + ([c] + s)), Key(t + ([d] + u))) < 0 <==> Before(c, d)
    ensures Lex(Key(t + ([c] + s)), Key(t + ([d] + u))) != 0
  {
    var x, y := [c] + s, [d] + u;
    KeyConcat(t, x);
    KeyConcat(t, y);
    LexSame(Key(t), Key(x), Key(y));
    assert Key(x) == [Order(c)] + Key(x[1..]) && Key(y) == [Order(d)] + Key(y[1..]);
    LexStep(Key(x), Key(y));
  }

  lemma {:induction false} LexSame(k: seq<int>, l: seq<int>, m: seq<int>)
    ensures Lex(k + l, k + m) == Lex(l, m)
  {
    if k == [] {
      assert k + l == l && k + m == m;
    } else {
      assert (k + l)[1..] == k[1..] + l && (k + m)[1..] == k[1..] + m;
      LexSame(k[1..], l, m);
    }
  }

  // The end of the text comes before every character but "~": the end of the version,
  lemma {:induction false} EndFirst(t: seq<byte>, c: byte, s: seq<byte>)
    requires Textual(c) && c != '~' as int
    ensures Lex(Key(t), Key(t + ([c] + s))) < 0
  {
    var x := [c] + s;
    KeyConcat(t, x);
    LexPrefix(Key(t), Key(x));
    LexReverse(Key(t), Key(t + x));
  }

  // or a digit behind it.
  lemma {:induction false} DigitFirst(t: seq<byte>, n: byte, r: seq<byte>, c: byte, s: seq<byte>)
    requires (t == [] || !IsDigit(t[|t| - 1])) && '0' as int <= n <= '9' as int && Textual(c)
    ensures Lex(Key(t + ([n] + r)), Key(t + ([c] + s))) < 0 <==> c != '~' as int
    ensures Lex(Key(t + ([n] + r)), Key(t + ([c] + s))) > 0 <==> c == '~' as int
  {
    var x, y := [n] + r, [c] + s;
    KeyConcat(t, y);
    KeyBehindText(t, x);
    LexSame(Key(t), Key(x), Key(y));
    LexStep(Key(x), Key(y));
    KeyAtNumber(x);
  }

  // The key behind text, whatever follows.
  lemma {:induction false} KeyBehindText(t: seq<byte>, x: seq<byte>)
    requires t == [] || !IsDigit(t[|t| - 1])
    ensures Key(t + x) == Key(t) + Key(x)
    decreases |t|
  {
    if t == [] {
      assert t + x == x;
    } else if IsDigit(t[0]) {
      var n := Digits(t);
      DigitsWithin(t, x);
      assert (t + x)[..n] == t[..n] && (t + x)[n..] == t[n..] + x;
      KeyBehindText(t[n..], x);
      Assoc([0, Number(t[..n])], Key(t[n..]), Key(x));
    } else {
      assert (t + x)[1..] == t[1..] + x;
      KeyBehindText(t[1..], x);
      Assoc([Order(t[0])], Key(t[1..]), Key(x));
    }
  }

  lemma {:induction false} DigitsWithin(t: seq<byte>, x: seq<byte>)
    requires t != [] && !IsDigit(t[|t| - 1])
    ensures Digits(t + x) == Digits(t) < |t|
  {
    if IsDigit(t[0]) {
      assert (t + x)[1..] == t[1..] + x;
      DigitsWithin(t[1..], x);
    }
  }

  // Numbers are compared by value, and equal ones leave it to what follows.
  lemma {:induction false} NumberOrder(t: seq<byte>, a: seq<byte>, b: seq<byte>, s: seq<byte>, u: seq<byte>)
    requires t == [] || !IsDigit(t[|t| - 1])
    requires AllDigits(a) && AllDigits(b) && a != [] && b != []
    requires (s == [] || !IsDigit(s[0])) && (u == [] || !IsDigit(u[0]))
    ensures Lex(Key(t + (a + s)), Key(t + (b + u)))
         == if Number(a) != Number(b) then Number(a) - Number(b) else Lex(Key(s), Key(u))
  {
    var x, y := a + s, b + u;
    KeyBehindText(t, x);
    KeyBehindText(t, y);
    LexSame(Key(t), Key(x), Key(y));
    DigitsExactly(a, s);
    DigitsExactly(b, u);
    assert x[..|a|] == a && x[|a|..] == s && y[..|b|] == b && y[|b|..] == u;
    LexAtNumber(x, y);
  }

  lemma {:induction false} DigitsExactly(a: seq<byte>, s: seq<byte>)
    requires AllDigits(a) && (s == [] || !IsDigit(s[0]))
    ensures Digits(a + s) == |a|
  {
    if a == [] {
      assert a + s == s;
    } else {
      assert (a + s)[1..] == a[1..] + s;
      DigitsExactly(a[1..], s);
    }
  }

  // In decimal.
  lemma {:induction false} Decimal(ds: seq<byte>, d: byte)
    requires AllDigits(ds) && '0' as int <= d <= '9' as int
    ensures AllDigits(ds + [d]) && Number([]) == 0
    ensures Number(ds + [d]) == 10 * Number(ds) + (d as int - '0' as int)
  {
    assert (ds + [d])[..|ds|] == ds;
  }

  // A version is written with its epoch, if it has one, and its revision, if it has one. The upstream
  // version may hold a ":" behind an epoch and a "-" before a revision.
  lemma {:induction false} SplitBack(e: Option<seq<byte>>, u: seq<byte>, r: Option<seq<byte>>)
    requires e.Some? ==> e.value != [] && AllDigits(e.value)
    requires r.Some? ==> '-' as int !in r.value
    requires e.None? ==> ':' as int !in u && (r.Some? ==> ':' as int !in r.value)
    requires r.None? ==> '-' as int !in u
    ensures Split(Written(e, u, r))
         == Version(if e.Some? then Number(e.value) else 0, u, if r.Some? then r.value else [])
  {
    hide First, Last, Atoi;
    var rest := Behind(u, r);
    RevisionBack(u, r);
    if e.Some? {
      var x := [COLON] + rest;
      NoColon(e.value);
      FirstAt(e.value, rest, COLON);
      AtoiDigits(e.value, x);
      assert Written(e, u, r) == e.value + x && (e.value + x)[|e.value| + 1..] == rest;
    } else {
      assert Written(e, u, r) == rest;
      FirstNone(rest, COLON);
    }
  }

  // The upstream version and the revision.
  function Behind(u: seq<byte>, r: Option<seq<byte>>): seq<byte>
  {
    if r.Some? then u + ([HYPHEN] + r.value) else u
  }

  lemma {:induction false} RevisionBack(u: seq<byte>, r: Option<seq<byte>>)
    requires if r.Some? then HYPHEN !in r.value else HYPHEN !in u
    ensures var rest := Behind(u, r); var h := Last(rest, HYPHEN);
            if h > 0 then r.Some? && rest[..h - 1] == u && rest[h..] == r.value else r.None? && rest == u
  {
    hide Last;
    if r.Some? {
      var rest := Behind(u, r);
      LastAt(u, r.value, HYPHEN);
      assert rest[..|u|] == u && rest[|u| + 1..] == r.value;
    } else {
      LastNone(u, HYPHEN);
    }
  }

  function Written(e: Option<seq<byte>>, u: seq<byte>, r: Option<seq<byte>>): seq<byte>
  {
    (if e.Some? then e.value + [':' as int] else []) + u + (if r.Some? then ['-' as int] + r.value else [])
  }

  lemma {:induction false} NoColon(e: seq<byte>)
    requires AllDigits(e)
    ensures COLON !in e
  {
  }

  lemma {:induction false} FirstAt(a: seq<byte>, b: seq<byte>, c: byte)
    requires c !in a
    ensures First(a + ([c] + b), c) == |a|
  {
    var s := a + ([c] + b);
    assert s[|a|] == c;
    forall k | 0 <= k < |a| ensures s[k] != c { assert s[k] == a[k]; }
  }

  lemma {:induction false} FirstNone(a: seq<byte>, c: byte)
    requires c !in a
    ensures First(a, c) == |a|
  {
  }

  lemma {:induction false} LastAt(a: seq<byte>, b: seq<byte>, c: byte)
    requires c !in b
    ensures Last(a + ([c] + b), c) == |a| + 1
  {
    var s := a + ([c] + b);
    assert s[|a|] == c;
    forall k | |a| + 1 <= k < |s| ensures s[k] != c { assert s[k] == b[k - |a| - 1]; }
  }

  lemma {:induction false} LastNone(a: seq<byte>, c: byte)
    requires c !in a
    ensures Last(a, c) == 0
  {
  }

  // atoi of digits with something else behind them.
  lemma {:induction false} AtoiDigits(e: seq<byte>, x: seq<byte>)
    requires AllDigits(e) && e != [] && (x == [] || !IsDigit(x[0]))
    ensures Atoi(e + x) == Number(e)
  {
    var s := e + x;
    assert s[0] == e[0] && IsDigit(e[0]);
    assert Span(s, IsWhite) == 0 && s[0..] == s;
    DigitsExactly(e, x);
    assert s[..|e|] == e;
  }
}
