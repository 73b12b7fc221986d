/** The LZO1X instruction stream: a reference decoder in small steps, and traces of it. */
module Lzo1x {
  import opened Bits
  import Inflate

  // What the byte at ip means: after a match without literals or at the start (Top), after a
  // long literal run (Run), after one to three literals (Lits); or a match is complete and
  // the count of its literals is still to be read (Done).
  datatype Mode = Top | Run | Lits | Done

  datatype State = State(ip: nat, out: seq<byte>, mode: Mode)

  datatype Outcome = Next(s: State) | End(out: seq<byte>, ip: nat) | Bad

  // A length that goes on over zero bytes.
  function Ext(s: seq<byte>, ip: nat, base: nat): (r: Option<(nat, nat)>)
    ensures r.Some? ==> ip < r.value.1 <= |s| && r.value.0 > base
    decreases |s| - ip
  {
    if ip >= |s| then None
    else if s[ip] == 0 then Ext(s, ip + 1, base + 255)
    else Some((base + s[ip], ip + 1))
  }

  // n literals.
  function Literal(s: seq<byte>, ip: nat, out: seq<byte>, n: nat, mode: Mode): Outcome
  {
    if ip + n <= |s| then Next(State(ip + n, out + s[ip..ip + n], mode)) else Bad
  }

  function Copied(ip: nat, out: seq<byte>, dist: nat, len: nat): Outcome
  {
    if 1 <= dist <= |out| then Next(State(ip, Inflate.CopyBack(out, len, dist), Done)) else Bad
  }

  // The two instructions below 16 that are matches.
  function ShortMatch(s: seq<byte>, ip: nat, out: seq<byte>, base: nat, len: nat): Outcome
    requires ip < |s|
  {
    if ip + 1 >= |s| then Bad
    else var t: nat, b: nat := s[ip], s[ip + 1]; Copied(ip + 2, out, base + t / 4 + 4 * b, len)
  }

  // A match instruction: where it ends, its distance (0 for the end mark) and its length.
  datatype Match = Match(ip: nat, dist: nat, len: nat)

  // The length field of an M3 or M4 match.
  function Length(s: seq<byte>, ip: nat, t: nat, top: nat): (r: Option<(nat, nat)>)
    ensures r.Some? ==> r.value.0 > 0 && ip <= r.value.1 <= (if ip > |s| then ip else |s|)
  {
    if t == 0 then Ext(s, ip, top) else Some((t, ip))
  }

  function Parse(s: seq<byte>, ip: nat): (r: Option<Match>)
    requires ip < |s| && s[ip] >= 16
    ensures r.Some? ==> ip + 2 <= r.value.ip <= |s| && r.value.len >= 3
  {
    var t: nat := s[ip];
    if t >= 64 then
      if ip + 1 >= |s| then None else var b: nat := s[ip + 1];
         Some(Match(ip + 2, 1 + t / 4 % 8 + 8 * b, t / 32 - 1 + 2))
    else
      match Length(s, ip + 1, if t >= 32 then t % 32 else t % 8, if t >= 32 then 31 else 7)
      case None => None
      case Some((n, p)) =>
        if p + 1 >= |s| then None
        else
          var lo: nat, hi: nat := s[p], s[p + 1];
          var off := lo / 4 + 64 * hi;
          if t >= 32 then Some(Match(p + 2, 1 + off, n + 2))
          else
            var far := (if t / 8 % 2 == 1 then 0x4000 else 0) + off;
            Some(Match(p + 2, if far == 0 then 0 else far + 0x4000, n + 2))
  }

  function Step(s: seq<byte>, c: State): Outcome
  {
    var State(ip, out, mode) := c;
    if mode == Done then
      if 2 <= ip <= |s| then
        var n := s[ip - 2] % 4;
        if n == 0 then Next(State(ip, out, Top)) else Literal(s, ip, out, n, Lits)
      else Bad
    else if ip >= |s| then Bad
    else if s[ip] >= 16 then
      match Parse(s, ip)
      case None => Bad
      case Some(m) => if m.dist == 0 then End(out, m.ip) else Copied(m.ip, out, m.dist, m.len)
    else if mode == Run then ShortMatch(s, ip, out, 0x801, 3)
    else if mode == Lits then ShortMatch(s, ip, out, 1, 2)
    else if s[ip] != 0 then Literal(s, ip + 1, out, s[ip] + 3, Run)
    else
      match Ext(s, ip + 1, 15)
      case None => Bad
      case Some((n, p)) => Literal(s, p, out, n + 3, Run)
  }

  function Start(s: seq<byte>): Outcome
  {
    if s == [] then Bad
    else if s[0] > 17 then Literal(s, 1, [], s[0] - 17, if s[0] - 17 < 4 then Lits else Run)
    else Next(State(0, [], Top))
  }

  lemma {:induction false} StepAdvances(s: seq<byte>, c: State)
    ensures Step(s, c).Next? ==> Step(s, c).s.ip >= c.ip && Step(s, c).s.ip <= |s|
    ensures Step(s, c).Next? && c.mode != Done ==> Step(s, c).s.ip > c.ip
    ensures Step(s, c).Next? && Step(s, c).s.mode == Done ==> c.mode != Done && Step(s, c).s.ip >= c.ip + 2
  {
  }

  // The output of a whole stream and where its end mark ends.
  function Finish(s: seq<byte>, o: Outcome): Option<(seq<byte>, nat)>
    decreases if o.Next? then |s| - o.s.ip + 1 else 0, if o.Next? && o.s.mode == Done then 1 else 0
  {
    match o
    case Bad => None
    case End(out, ip) => Some((out, ip))
    case Next(c) =>
      if c.ip > |s| then None
      else
        StepAdvances(s, c);
        Finish(s, Step(s, c))
  }

  function Decode(s: seq<byte>): Option<(seq<byte>, nat)> { Finish(s, Start(s)) }

  // The states that the decoder goes through, from the start.
  ghost predicate Trace(s: seq<byte>, tr: seq<State>)
  {
    && |tr| > 0 && Start(s) == Next(tr[0])
    && forall i :: 0 <= i < |tr| - 1 ==> Follows(s, tr[i], tr[i + 1])
  }

  ghost predicate Follows(s: seq<byte>, c: State, d: State)
  {
    Step(s, c) == Next(d)
  }

  lemma {:induction false} TraceSnoc(s: seq<byte>, tr: seq<State>, d: State)
    requires Trace(s, tr) && Step(s, tr[|tr| - 1]) == Next(d)
    ensures Trace(s, tr + [d])
  {
    var tr' := tr + [d];
    forall i | 0 <= i < |tr'| - 1 ensures Follows(s, tr'[i], tr'[i + 1]) {
      if i < |tr| - 1 { assert Follows(s, tr[i], tr[i + 1]); }
    }
  }

  lemma {:induction false} TraceFront(s: seq<byte>, tr: seq<State>, n: nat)
    requires Trace(s, tr) && 1 <= n <= |tr|
    ensures Trace(s, tr[..n])
  {
    forall i | 0 <= i < n - 1 ensures Follows(s, tr[..n][i], tr[..n][i + 1]) {
      assert Follows(s, tr[i], tr[i + 1]);
    }
  }

  lemma {:induction false} TraceBounds(s: seq<byte>, tr: seq<State>, i: nat)
    requires Trace(s, tr) && i < |tr|
    ensures tr[i].ip <= tr[|tr| - 1].ip <= |s|
    decreases |tr| - i
  {
    if i < |tr| - 1 {
      assert Follows(s, tr[i], tr[i + 1]);
      StepAdvances(s, tr[i]);
      TraceBounds(s, tr, i + 1);
    } else if i > 0 {
      assert Follows(s, tr[i - 1], tr[i - 1 + 1]);
      StepAdvances(s, tr[i - 1]);
    }
  }

  // The rest of the stream decides.
  lemma {:induction false} TraceDecodes(s: seq<byte>, tr: seq<State>)
    requires Trace(s, tr)
    ensures Decode(s) == Finish(s, Next(tr[|tr| - 1]))
  {
    var n := |tr| - 1;
    if n > 0 {
      TraceFront(s, tr, n);
      TraceDecodes(s, tr[..n]);
      assert Follows(s, tr[n - 1], tr[n - 1 + 1]);
      TraceBounds(s, tr, n - 1);
    }
  }

  // s and t agree from position n on.
  ghost predicate SameFrom(s: seq<byte>, t: seq<byte>, n: nat)
  {
    |s| == |t| && forall k :: n <= k < |s| ==> s[k] == t[k]
  }

  lemma {:induction false} ExtSame(s: seq<byte>, t: seq<byte>, ip: nat, base: nat)
    requires SameFrom(s, t, ip)
    ensures Ext(s, ip, base) == Ext(t, ip, base)
    decreases |s| - ip
  {
    if ip < |s| && s[ip] == 0 { ExtSame(s, t, ip + 1, base + 255); }
  }

  lemma {:induction false} ParseSame(s: seq<byte>, t: seq<byte>, ip: nat)
    requires SameFrom(s, t, ip) && ip < |s| && s[ip] >= 16
    ensures Parse(s, ip) == Parse(t, ip)
  {
    ExtSame(s, t, ip + 1, 31);
    ExtSame(s, t, ip + 1, 7);
  }

  lemma {:induction false} SliceSame(s: seq<byte>, t: seq<byte>, a: nat, b: nat)
    requires |s| == |t| && a <= b <= |s| && forall k :: a <= k < b ==> s[k] == t[k]
    ensures s[a..b] == t[a..b]
  {
  }

  lemma {:induction false} LiteralSame(s: seq<byte>, t: seq<byte>, ip: nat, out: seq<byte>, n: nat, mode: Mode)
    requires SameFrom(s, t, ip)
    ensures Literal(s, ip, out, n, mode) == Literal(t, ip, out, n, mode)
  {
    if ip + n <= |s| { SliceSame(s, t, ip, ip + n); }
  }

  // A step looks at the stream from its position on, or two bytes before.
  lemma {:induction false} StepSuffix(s: seq<byte>, t: seq<byte>, c: State)
    requires SameFrom(s, t, c.ip) && (c.mode == Done && 2 <= c.ip <= |s| ==> s[c.ip - 2] % 4 == t[c.ip - 2] % 4)
    ensures Step(s, c) == Step(t, c)
  {
    if c.mode == Done {
      if 2 <= c.ip <= |s| { LiteralSame(s, t, c.ip, c.out, s[c.ip - 2] % 4, Lits); }
    } else if c.ip < |s| {
      if s[c.ip] >= 16 {
        ParseSame(s, t, c.ip);
      } else {
        LiteralSame(s, t, c.ip + 1, c.out, s[c.ip] + 3, Run);
        ExtSame(s, t, c.ip + 1, 15);
        var e := Ext(s, c.ip + 1, 15);
        if e.Some? { LiteralSame(s, t, e.value.1, c.out, e.value.0 + 3, Run); }
      }
    }
  }

  // Two streams with the same rest give the same result.
  lemma {:induction false} FinishSuffix(s: seq<byte>, t: seq<byte>, c: State)
    requires SameFrom(s, t, c.ip) && (c.mode == Done && 2 <= c.ip <= |s| ==> s[c.ip - 2] % 4 == t[c.ip - 2] % 4)
    ensures Finish(s, Next(c)) == Finish(t, Next(c))
    decreases |s| + 1 - Min(c.ip, |s| + 1), if c.mode == Done then 1 else 0
  {
    if c.ip <= |s| {
      StepSuffix(s, t, c);
      StepAdvances(s, c);
      if Step(s, c).Next? { FinishSuffix(s, t, Step(s, c).s); }
    }
  }

  // s and t agree before the state d, but for the two low bits that its literals are
  // counted in.
  ghost predicate SameUpTo(s: seq<byte>, t: seq<byte>, d: State)
  {
    && |s| == |t| && d.ip <= |s|
    && forall k :: 0 <= k < d.ip ==> s[k] == t[k] || (d.mode == Done && k == d.ip - 2 && s[k] / 4 == t[k] / 4)
  }

  lemma {:induction false} ExtUpTo(s: seq<byte>, t: seq<byte>, ip: nat, base: nat, v: nat, p: nat)
    requires Ext(s, ip, base) == Some((v, p)) && |s| == |t| && forall k :: ip <= k < p ==> s[k] == t[k]
    ensures Ext(t, ip, base) == Some((v, p))
    decreases |s| - ip
  {
    if s[ip] == 0 { ExtUpTo(s, t, ip + 1, base + 255, v, p); }
  }

  lemma {:induction false} ParseUpTo(s: seq<byte>, t: seq<byte>, ip: nat, m: Match)
    requires ip < |s| && s[ip] >= 16 && Parse(s, ip) == Some(m) && |s| == |t|
    requires forall k :: ip <= k < m.ip && k != m.ip - 2 ==> s[k] == t[k]
    requires s[m.ip - 2] / 4 == t[m.ip - 2] / 4
    ensures t[ip] >= 16 && Parse(t, ip) == Some(m)
  {
    if s[ip] < 64 {
      var x: nat, top := if s[ip] >= 32 then s[ip] % 32 else s[ip] % 8, if s[ip] >= 32 then 31 else 7;
      if x == 0 {
        var (v, p) := Ext(s, ip + 1, top).value;
        ExtUpTo(s, t, ip + 1, top, v, p);
      }
    } else {
      OpcodeSame(s[ip], t[ip]);
    }
  }

  lemma {:induction false} OpcodeSame(a: nat, b: nat)
    requires a / 4 == b / 4
    ensures a / 32 == b / 32 && (a >= 64 <==> b >= 64) && (a >= 16 <==> b >= 16)
  {
    DivTwice(a);
    DivTwice(b);
  }

  lemma {:induction false} DivTwice(a: nat)
    ensures a / 32 == a / 4 / 8
  {
    var q, r := a / 32, a % 32;
    assert a / 4 == 8 * q + r / 4;
  }

  lemma {:induction false} LiteralUpTo(s: seq<byte>, t: seq<byte>, ip: nat, out: seq<byte>, n: nat, mode: Mode)
    requires |s| == |t| && ip + n <= |s| && forall k :: ip <= k < ip + n ==> s[k] == t[k]
    ensures Literal(s, ip, out, n, mode) == Literal(t, ip, out, n, mode)
  {
    SliceSame(s, t, ip, ip + n);
  }

  // The literals behind a match.
  lemma {:induction false} DoneUpTo(s: seq<byte>, t: seq<byte>, c: State, d: State)
    requires c.mode == Done && Step(s, c) == Next(d) && SameUpTo(s, t, d)
    ensures Step(t, c) == Next(d)
  {
    LiteralUpTo(s, t, c.ip, c.out, s[c.ip - 2] % 4, Lits);
  }

  lemma {:induction false} RunUpTo(s: seq<byte>, t: seq<byte>, c: State, d: State)
    requires c.mode == Top && c.ip < |s| && s[c.ip] < 16 && Step(s, c) == Next(d) && SameUpTo(s, t, d)
    ensures Step(t, c) == Next(d)
  {
    if s[c.ip] != 0 {
      LiteralUpTo(s, t, c.ip + 1, c.out, s[c.ip] + 3, Run);
    } else {
      var (v, p) := Ext(s, c.ip + 1, 15).value;
      ExtUpTo(s, t, c.ip + 1, 15, v, p);
      LiteralUpTo(s, t, p, c.out, v + 3, Run);
    }
  }

  lemma {:induction false} MatchUpTo(s: seq<byte>, t: seq<byte>, c: State, d: State)
    requires c.mode != Done && c.ip < |s| && (c.mode == Top ==> s[c.ip] >= 16) && Step(s, c) == Next(d)
             && SameUpTo(s, t, d)
    ensures Step(t, c) == Next(d)
  {
    if s[c.ip] >= 16 {
      ParseUpTo(s, t, c.ip, Parse(s, c.ip).value);
    } else {
      OpcodeSame(s[c.ip], t[c.ip]);
    }
  }

  // A step looks at nothing behind its end, and a match not at the count of its literals.
  lemma {:induction false} StepUpTo(s: seq<byte>, t: seq<byte>, c: State, d: State)
    requires Step(s, c) == Next(d) && SameUpTo(s, t, d)
    ensures Step(t, c) == Next(d)
  {
    if c.mode == Done {
      DoneUpTo(s, t, c, d);
    } else if c.mode == Top && s[c.ip] < 16 {
      RunUpTo(s, t, c, d);
    } else {
      MatchUpTo(s, t, c, d);
    }
  }

  lemma {:induction false} StartUpTo(s: seq<byte>, t: seq<byte>, d: State)
    requires Start(s) == Next(d) && SameUpTo(s, t, d) && t != [] && (s[0] == t[0] || (s[0] <= 17 && t[0] <= 17))
    ensures Start(t) == Next(d)
  {
    if s[0] > 17 { LiteralUpTo(s, t, 1, [], s[0] - 17, if s[0] - 17 < 4 then Lits else Run); }
  }

  lemma {:induction false} NotDone(s: seq<byte>, tr: seq<State>, i: nat)
    requires Trace(s, tr) && i + 1 < |tr| && tr[i + 1].mode == Done
    ensures tr[i].ip + 2 <= tr[i + 1].ip
  {
    assert Follows(s, tr[i], tr[i + 1]);
    StepAdvances(s, tr[i]);
  }

  // A trace survives changes behind its end and in the count of its literals.
  lemma {:induction false} TraceUpTo(s: seq<byte>, t: seq<byte>, tr: seq<State>)
    requires Trace(s, tr) && SameUpTo(s, t, tr[|tr| - 1]) && t != [] && (s[0] == t[0] || (s[0] <= 17 && t[0] <= 17))
    ensures Trace(t, tr)
    decreases |tr|
  {
    var n := |tr| - 1;
    if n == 0 {
      StartUpTo(s, t, tr[0]);
    } else {
      TraceFront(s, tr, n);
      TraceBounds(s, tr, n - 1);
      assert Follows(s, tr[n - 1], tr[n - 1 + 1]);
      if tr[n].mode == Done { NotDone(s, tr, n - 1); }
      TraceUpTo(s, t, tr[..n]);
      StepUpTo(s, t, tr[n - 1], tr[n]);
      TraceSnoc(t, tr[..n], tr[n]);
      assert tr[..n] + [tr[n]] == tr;
    }
  }

  // At the very start there is no output yet.
  lemma {:induction false} StartEmpty(s: seq<byte>, tr: seq<State>, i: nat)
    requires Trace(s, tr) && i < |tr| && tr[i].ip == 0
    ensures tr[i].out == []
  {
    if i > 0 {
      assert Follows(s, tr[i - 1], tr[i - 1 + 1]);
      StepAdvances(s, tr[i - 1]);
    }
  }
}
