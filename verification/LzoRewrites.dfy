/** The five rewrites of lzo1x_optimize on values: what each makes of the trace. */
module LzoRewrites {
  import opened Bits
  import Inflate
  import opened Lzo1x

  // The optimizer, at ip with the output out, has rewritten orig into s so far. It takes the
  // byte at ip in the given mode; the decoder of s may see literals before a match instead.
  ghost predicate Point(orig: seq<byte>, s: seq<byte>, tr: seq<State>, ip: nat, out: seq<byte>, mode: Mode)
  {
    && Trace(s, tr) && SameFrom(s, orig, ip) && mode != Done && Decode(orig).Some?
    && Decode(orig) == Finish(orig, Next(State(ip, out, mode)))
    && Agrees(s, tr[|tr| - 1], ip, out, mode)
  }

  ghost predicate Agrees(s: seq<byte>, c: State, ip: nat, out: seq<byte>, mode: Mode)
  {
    c.ip == ip && c.out == out && c.mode != Done && (c.mode == mode || (ip < |s| && s[ip] >= 16))
  }

  // The literals just before ip: a run of up to three behind a match, counted in the low bits
  // of the byte at litp, or a longer run with its header at litp.
  ghost predicate Anchored(s: seq<byte>, tr: seq<State>, litp: int, lit: nat)
  {
    0 <= litp && lit < 16 ==> |tr| >= 2 && Anchor(s, tr[|tr| - 2], litp, lit)
  }

  ghost predicate Anchor(s: seq<byte>, a: State, litp: nat, lit: nat)
  {
    if lit <= 3 then a.mode == Done && a.ip == litp + 2 <= |s| && s[litp] % 4 == lit
    else a.mode == Top && a.ip == litp < |s| && s[litp] == lit - 3
  }

  lemma {:induction false} AnyMode(s: seq<byte>, ip: nat, out: seq<byte>, a: Mode, b: Mode)
    requires a != Done && b != Done && (a == b || (ip < |s| && s[ip] >= 16))
    ensures Step(s, State(ip, out, a)) == Step(s, State(ip, out, b))
  {
  }

  // At a point the stream goes on.
  lemma {:induction false} PointGoesOn(orig: seq<byte>, s: seq<byte>, tr: seq<State>, ip: nat, out: seq<byte>,
      mode: Mode)
    requires Point(orig, s, tr, ip, out, mode)
    ensures ip < |s| && !Step(s, State(ip, out, mode)).Bad?
    ensures Step(orig, State(ip, out, mode)) == Step(s, State(ip, out, mode)) == Step(s, tr[|tr| - 1])
    ensures Finish(orig, Step(s, State(ip, out, mode))) == Decode(orig)
  {
    var c := State(ip, out, mode);
    TraceBounds(s, tr, |tr| - 1);
    StepSuffix(s, orig, c);
    AnyMode(s, ip, out, mode, tr[|tr| - 1].mode);
    assert tr[|tr| - 1] == State(ip, out, tr[|tr| - 1].mode);
    assert Finish(orig, Next(c)) == Finish(orig, Step(orig, c));
    assert Finish(orig, Bad) == None;
  }

  // A long literal run.
  lemma {:induction false} RunPoint(orig: seq<byte>, s: seq<byte>, tr: seq<State>, ip: nat, out: seq<byte>, d: State)
    requires Point(orig, s, tr, ip, out, Top) && ip < |s| && s[ip] < 16 && Step(s, State(ip, out, Top)) == Next(d)
    ensures d.mode == Run && Point(orig, s, tr + [d], d.ip, d.out, Run)
    ensures Anchored(s, tr + [d], ip, if s[ip] == 0 then 18 else s[ip] + 3)
  {
    PointGoesOn(orig, s, tr, ip, out, Top);
    StepAdvances(s, State(ip, out, Top));
    TraceSnoc(s, tr, d);
  }

  // A match and the literals behind it.
  lemma {:induction false} MatchPoint(orig: seq<byte>, s: seq<byte>, tr: seq<State>, ip: nat, out: seq<byte>,
      mode: Mode, d: State)
    requires Point(orig, s, tr, ip, out, mode) && Step(s, State(ip, out, mode)) == Next(d) && d.mode == Done
    ensures ip + 2 <= d.ip <= |s| && !Step(s, d).Bad? && Step(s, d).Next?
    ensures var e := Step(s, d).s;
            Point(orig, s, tr + [d, e], e.ip, e.out, e.mode) && Anchored(s, tr + [d, e], d.ip - 2, s[d.ip - 2] % 4)
  {
    PointGoesOn(orig, s, tr, ip, out, mode);
    StepAdvances(s, State(ip, out, mode));
    StepSuffix(s, orig, d);
    StepAdvances(orig, d);
    var e := Step(s, d).s;
    TraceSnoc(s, tr, d);
    TraceSnoc(s, tr + [d], e);
    assert tr + [d] + [e] == tr + [d, e];
  }

  // There is output before the first match, so its instruction is not the first.
  lemma {:induction false} MatchNotFirst(s: seq<byte>, tr: seq<State>, i: nat)
    requires Trace(s, tr) && i < |tr| && tr[i].mode == Done
    ensures tr[i].ip >= 3
  {
    if i > 0 {
      NotDone(s, tr, i - 1);
      assert Follows(s, tr[i - 1], tr[i - 1 + 1]);
      if tr[i - 1].ip == 0 { StartEmpty(s, tr, i - 1); }
    }
  }

  // The trace up to the anchor, in a stream that was changed only behind the anchor or in its
  // count of literals.
  lemma {:induction false} AnchorKept(s: seq<byte>, s': seq<byte>, tr: seq<State>)
    requires Trace(s, tr) && |tr| >= 2 && SameUpTo(s, s', tr[|tr| - 2]) && s' != []
    requires tr[|tr| - 2].ip == 0 ==> s[0] <= 17 && s'[0] <= 17
    requires tr[|tr| - 2].mode == Done ==> tr[|tr| - 2].ip >= 3
    ensures Trace(s', tr[..|tr| - 1])
  {
    TraceFront(s, tr, |tr| - 1);
    TraceUpTo(s, s', tr[..|tr| - 1]);
  }

  // What stands between the anchor and the instruction at ip.
  lemma {:induction false} ShortLiterals(orig: seq<byte>, s: seq<byte>, tr: seq<State>, ip: nat, out: seq<byte>,
      mode: Mode, litp: nat, lit: nat)
    requires Point(orig, s, tr, ip, out, mode) && Anchored(s, tr, litp, lit) && lit <= 3
    ensures |tr| >= 2 && ip == litp + 2 + lit <= |s| && out == tr[|tr| - 2].out + s[litp + 2..ip] && litp >= 1
  {
    var n := |tr| - 2;
    assert Follows(s, tr[n], tr[n + 1]);
    MatchNotFirst(s, tr, n);
    assert s[litp + 2..litp + 2] == [];
  }

  lemma {:induction false} LongLiterals(orig: seq<byte>, s: seq<byte>, tr: seq<State>, ip: nat, out: seq<byte>,
      mode: Mode, litp: nat, lit: nat)
    requires Point(orig, s, tr, ip, out, mode) && Anchored(s, tr, litp, lit) && 3 < lit < 16
    ensures |tr| >= 2 && ip == litp + 1 + lit <= |s| && out == tr[|tr| - 2].out + s[litp + 1..ip]
  {
    var n := |tr| - 2;
    assert Follows(s, tr[n], tr[n + 1]);
  }

  // The instruction at ip is a match that yields the bytes m, with no literals behind it.
  ghost predicate Yields(s: seq<byte>, ip: nat, out: seq<byte>, mode: Mode, d: State, m: seq<byte>)
  {
    && mode != Done && Step(s, State(ip, out, mode)) == Next(d) && d.mode == Done && d.out == out + m
    && 2 <= d.ip <= |s| && s[d.ip - 2] % 4 == 0
  }

  // The three literals that replace a match stand behind those of the match before.
  ghost predicate Appended(s: seq<byte>, s': seq<byte>, litp: nat, ip: nat, m: seq<byte>)
  {
    && |s'| == |s| && litp + 2 <= ip && ip + |m| <= |s|
    && (forall k :: 0 <= k < litp ==> s'[k] == s[k]) && s'[litp] == s[litp] / 4 * 4 + 3
    && (forall k :: litp < k < ip ==> s'[k] == s[k])
    && s'[ip..ip + |m|] == m && SameFrom(s', s, ip + |m|)
  }

  lemma {:induction false} AppendUpTo(s: seq<byte>, s': seq<byte>, litp: nat, ip: nat, m: seq<byte>, a: State)
    requires litp + 2 <= ip && ip + |m| <= |s| && Appended(s, s', litp, ip, m) && a.mode == Done && a.ip == litp + 2
    ensures SameUpTo(s, s', a)
  {
    var x, y: nat := s'[litp], s[litp];
    assert (y / 4 * 4 + 3) / 4 == y / 4;
  }

  // Three literals behind the anchor.
  lemma {:induction false} AppendStep(s: seq<byte>, s': seq<byte>, litp: nat, ip: nat, m: seq<byte>, a: State,
      out: seq<byte>)
    requires litp + 2 <= ip && ip + |m| <= |s| && Appended(s, s', litp, ip, m) && a.mode == Done && a.ip == litp + 2
    requires ip - a.ip + |m| == 3 && out == a.out + s[a.ip..ip]
    ensures Step(s', a) == Next(State(ip + |m|, out + m, Lits))
  {
    var y: nat := s[litp];
    assert (y / 4 * 4 + 3) % 4 == 3;
    SliceSame(s', s, a.ip, ip);
    assert s'[a.ip..a.ip + 3] == s'[a.ip..ip] + s'[ip..ip + |m|];
    Assoc(a.out, s[a.ip..ip], m);
  }

  // Rewrites m1_a and m3_a.
  lemma {:induction false} AppendPoint(orig: seq<byte>, s: seq<byte>, s': seq<byte>, tr: seq<State>, ip: nat,
      out: seq<byte>, mode: Mode, litp: nat, lit: nat, d: State, m: seq<byte>)
    requires Point(orig, s, tr, ip, out, mode) && Anchored(s, tr, litp, lit) && lit + |m| == 3
    requires Yields(s, ip, out, mode, d, m) && d.ip == ip + |m| < |s| && s[d.ip] >= 16
    requires litp + 2 <= ip && Appended(s, s', litp, ip, m)
    ensures |tr| >= 2
    ensures var tr' := tr[..|tr| - 1] + [State(d.ip, d.out, Lits)];
            Point(orig, s', tr', d.ip, d.out, Top) && Anchored(s', tr', litp, 3)
  {
    hide Finish, Decode, Trace;
    ShortLiterals(orig, s, tr, ip, out, mode, litp, lit);
    MatchPoint(orig, s, tr, ip, out, mode, d);
    var a, base, e := tr[|tr| - 2], tr[..|tr| - 1], State(d.ip, d.out, Lits);
    MatchNotFirst(s, tr, |tr| - 2);
    AppendUpTo(s, s', litp, ip, m, a);
    AnchorKept(s, s', tr);
    AppendStep(s, s', litp, ip, m, a, out);
    TraceSnoc(s', base, e);
    AppendAnchor(s, s', litp, ip, m, base + [e]);
  }

  lemma {:induction false} AppendAnchor(s: seq<byte>, s': seq<byte>, litp: nat, ip: nat, m: seq<byte>, tr: seq<State>)
    requires litp + 2 <= ip && ip + |m| <= |s| && Appended(s, s', litp, ip, m)
    requires |tr| >= 2 && tr[|tr| - 2].mode == Done && tr[|tr| - 2].ip == litp + 2
    ensures Anchored(s', tr, litp, 3)
  {
    var y: nat := s[litp];
    assert (y / 4 * 4 + 3) % 4 == 3;
  }

  // One long run: its header at h, the literals that stood at from..ip, and the bytes m in
  // place of the match and of the header of the run that follows.
  ghost predicate Merged(s: seq<byte>, s': seq<byte>, h: nat, from: nat, ip: nat, m: seq<byte>, header: nat)
  {
    && |s'| == |s| && from <= ip <= |s| && h + 1 + (ip - from) + |m| <= |s|
    && s'[h] == header && s'[h + 1..h + 1 + (ip - from)] == s[from..ip]
    && s'[h + 1 + (ip - from)..h + 1 + (ip - from) + |m|] == m && SameFrom(s', s, h + 1 + (ip - from) + |m|)
  }

  // The merged run is one step.
  lemma {:induction false} MergedStep(s: seq<byte>, s': seq<byte>, h: nat, from: nat, ip: nat, m: seq<byte>, t: nat,
      aout: seq<byte>, out: seq<byte>)
    requires from <= ip <= |s| && Merged(s, s', h, from, ip, m, ip - from + |m| + t) && 1 <= ip - from + |m| + t < 16
    requires out == aout + s[from..ip] && h + 1 + (ip - from) + |m| + t + 3 <= |s|
    ensures var end := h + 1 + (ip - from) + |m|;
            Step(s', State(h, aout, Top)) == Next(State(end + t + 3, out + m + s[end..end + t + 3], Run))
  {
    var lits, k := s[from..ip], h + 1 + (ip - from);
    var end := k + |m|;
    SliceSame(s', s, end, end + t + 3);
    var rest := s[end..end + t + 3];
    assert s'[h + 1..end + t + 3] == s'[h + 1..k] + s'[k..end] + s'[end..end + t + 3];
    assert aout + (lits + m + rest) == aout + lits + m + rest;
  }

  // The two steps over the match and the literal run behind it.
  lemma {:induction false} MatchThenRun(orig: seq<byte>, s: seq<byte>, tr: seq<State>, ip: nat, out: seq<byte>,
      mode: Mode, d: State, m: seq<byte>, t: nat)
    requires Point(orig, s, tr, ip, out, mode) && Yields(s, ip, out, mode, d, m) && d.ip < |s| && s[d.ip] == t
             && 1 <= t < 16
    ensures d.ip + 1 + t + 3 <= |s|
    ensures var f := State(d.ip + 1 + t + 3, d.out + s[d.ip + 1..d.ip + 1 + t + 3], Run);
            Decode(orig) == Finish(orig, Next(f))
  {
    hide Finish, Decode, Trace, Anchored, Point;
    MatchPoint(orig, s, tr, ip, out, mode, d);
    var e := State(d.ip, d.out, Top);
    assert Step(s, d) == Next(e);
    PointGoesOn(orig, s, tr + [d, e], d.ip, d.out, Top);
  }

  lemma {:induction false} SameTwice(s': seq<byte>, s: seq<byte>, orig: seq<byte>, a: nat, b: nat, n: nat)
    requires SameFrom(s', s, a) && SameFrom(s, orig, b) && a <= n && b <= n
    ensures SameFrom(s', orig, n)
  {
  }

  lemma {:induction false} RunReached(orig: seq<byte>, s': seq<byte>, tr': seq<State>, f: State, h: nat, lit: nat)
    requires Trace(s', tr') && |tr'| >= 2 && tr'[|tr'| - 1] == f && f.mode == Run && SameFrom(s', orig, f.ip)
    requires Decode(orig).Some? && Decode(orig) == Finish(orig, Next(f))
    requires lit > 3 && h < |s'| && tr'[|tr'| - 2].mode == Top && tr'[|tr'| - 2].ip == h && s'[h] == lit - 3
    ensures Point(orig, s', tr', f.ip, f.out, Run) && Anchored(s', tr', h, lit)
  {
  }

  // The short run is gone: the anchor is followed by an instruction.
  lemma {:induction false} ClearedTrace(orig: seq<byte>, s: seq<byte>, s': seq<byte>, tr: seq<State>, ip: nat,
      out: seq<byte>, mode: Mode, litp: nat, lit: nat)
    requires Point(orig, s, tr, ip, out, mode) && Anchored(s, tr, litp, lit) && lit <= 3 && |s| == |s'|
             && litp + 2 <= |s|
    requires (forall k :: 0 <= k < litp + 2 && k != litp ==> s'[k] == s[k]) && s'[litp] == s[litp] / 4 * 4
    ensures |tr| >= 2 && ip == litp + 2 + lit <= |s| && out == tr[|tr| - 2].out + s[litp + 2..ip]
    ensures Trace(s', tr[..|tr| - 1] + [State(litp + 2, tr[|tr| - 2].out, Top)])
  {
    ShortLiterals(orig, s, tr, ip, out, mode, litp, lit);
    var a := tr[|tr| - 2];
    MatchNotFirst(s, tr, |tr| - 2);
    ClearedUpTo(s, s', litp, a);
    AnchorKept(s, s', tr);
    TraceSnoc(s', tr[..|tr| - 1], State(litp + 2, a.out, Top));
  }

  // From the header of the merged run on.
  lemma {:induction false} MergedPoint(orig: seq<byte>, s: seq<byte>, s': seq<byte>, tr: seq<State>, h: nat,
      from: nat, ip: nat, m: seq<byte>, t: nat, aout: seq<byte>, f: State)
    requires Trace(s', tr) && tr[|tr| - 1] == State(h, aout, Top) && SameFrom(s, orig, ip) && Decode(orig).Some?
    requires from <= ip <= |s| && Merged(s, s', h, from, ip, m, ip - from + |m| + t) && 1 <= ip - from + |m| + t < 16
    requires f.ip == h + 1 + (ip - from) + |m| + t + 3 <= |s| && ip <= f.ip && f.mode == Run
    requires f.out == aout + s[from..ip] + m + s[f.ip - t - 3..f.ip] && Decode(orig) == Finish(orig, Next(f))
    ensures Point(orig, s', tr + [f], f.ip, f.out, Run) && Anchored(s', tr + [f], h, ip - from + |m| + t + 3)
  {
    MergedStep(s, s', h, from, ip, m, t, aout, aout + s[from..ip]);
    TraceSnoc(s', tr, f);
    SameTwice(s', s, orig, f.ip - t - 3, ip, f.ip);
    RunReached(orig, s', tr + [f], f, h, ip - from + |m| + t + 3);
  }

  // Rewrites m1_b and m3_b.
  lemma {:induction false} InsertPoint(orig: seq<byte>, s: seq<byte>, s': seq<byte>, tr: seq<State>, ip: nat,
      out: seq<byte>, mode: Mode, litp: nat, lit: nat, d: State, m: seq<byte>, t: nat)
    requires Point(orig, s, tr, ip, out, mode) && Anchored(s, tr, litp, lit) && lit <= 3
    requires Yields(s, ip, out, mode, d, m) && d.ip == ip + |m| < |s| && s[d.ip] == t && 1 <= t && lit + |m| + t < 16
    requires litp + 2 <= ip <= |s| && Merged(s, s', litp + 2, litp + 2, ip, m, lit + |m| + t)
    requires (forall k :: 0 <= k < litp + 2 && k != litp ==> s'[k] == s[k]) && s'[litp] == s[litp] / 4 * 4
    ensures |tr| >= 2 && d.ip + 1 + t + 3 <= |s|
    ensures var f := State(d.ip + 1 + t + 3, d.out + s[d.ip + 1..d.ip + 1 + t + 3], Run);
            var tr' := tr[..|tr| - 1] + [State(litp + 2, tr[|tr| - 2].out, Top), f];
            Point(orig, s', tr', f.ip, f.out, Run) && Anchored(s', tr', litp + 2, lit + |m| + t + 3)
  {
    hide Finish, Decode, Step, Anchored, Trace;
    ClearedTrace(orig, s, s', tr, ip, out, mode, litp, lit);
    MatchThenRun(orig, s, tr, ip, out, mode, d, m, t);
    var a, base := tr[|tr| - 2], tr[..|tr| - 1];
    var e, f := State(litp + 2, a.out, Top), State(d.ip + 1 + t + 3, d.out + s[d.ip + 1..d.ip + 1 + t + 3], Run);
    MergedPoint(orig, s, s', base + [e], litp + 2, litp + 2, ip, m, t, a.out, f);
    assert base + [e] + [f] == base + [e, f];
  }

  lemma {:induction false} ClearedUpTo(s: seq<byte>, s': seq<byte>, litp: nat, a: State)
    requires |s| == |s'| && litp + 2 <= |s| && a.mode == Done && a.ip == litp + 2
    requires (forall k :: 0 <= k < litp + 2 && k != litp ==> s'[k] == s[k]) && s'[litp] == s[litp] / 4 * 4
    ensures SameUpTo(s, s', a) && Step(s', a) == Next(State(a.ip, a.out, Top))
  {
    var y: nat := s[litp];
    assert (y / 4 * 4) / 4 == y / 4 && (y / 4 * 4) % 4 == 0;
  }

  lemma {:induction false} HeaderTrace(orig: seq<byte>, s: seq<byte>, s': seq<byte>, tr: seq<State>, ip: nat,
      out: seq<byte>, mode: Mode, litp: nat, lit: nat)
    requires Point(orig, s, tr, ip, out, mode) && Anchored(s, tr, litp, lit) && 3 < lit < 16 && |s| == |s'|
             && litp < |s| && s'[litp] < 16
    requires forall k :: 0 <= k < litp ==> s'[k] == s[k]
    ensures |tr| >= 2 && ip == litp + 1 + lit <= |s| && out == tr[|tr| - 2].out + s[litp + 1..ip]
    ensures Trace(s', tr[..|tr| - 1]) && tr[|tr| - 2] == State(litp, tr[|tr| - 2].out, Top)
  {
    LongLiterals(orig, s, tr, ip, out, mode, litp, lit);
    AnchorKept(s, s', tr);
  }

  // Rewrite m2.
  lemma {:induction false} ExtendPoint(orig: seq<byte>, s: seq<byte>, s': seq<byte>, tr: seq<State>, ip: nat,
      out: seq<byte>, mode: Mode, litp: nat, lit: nat, d: State, m: seq<byte>, t: nat)
    requires Point(orig, s, tr, ip, out, mode) && Anchored(s, tr, litp, lit) && 3 < lit < 16 && |m| > 0
    requires Yields(s, ip, out, mode, d, m) && d.ip + 1 == ip + |m| && d.ip < |s| && s[d.ip] == t && 1 <= t
             && lit + |m| + t < 16
    requires litp + 1 <= ip <= |s| && Merged(s, s', litp, litp + 1, ip, m, lit + |m| + t)
    requires forall k :: 0 <= k < litp ==> s'[k] == s[k]
    ensures |tr| >= 2 && d.ip + 1 + t + 3 <= |s|
    ensures var f := State(d.ip + 1 + t + 3, d.out + s[d.ip + 1..d.ip + 1 + t + 3], Run);
            var tr' := tr[..|tr| - 1] + [f];
            Point(orig, s', tr', f.ip, f.out, Run) && Anchored(s', tr', litp, lit + |m| + t + 3)
  {
    hide Finish, Decode, Step, Anchored, Trace;
    HeaderTrace(orig, s, s', tr, ip, out, mode, litp, lit);
    MatchThenRun(orig, s, tr, ip, out, mode, d, m, t);
    var a, base := tr[|tr| - 2], tr[..|tr| - 1];
    var f := State(d.ip + 1 + t + 3, d.out + s[d.ip + 1..d.ip + 1 + t + 3], Run);
    MergedPoint(orig, s, s', base, litp, litp + 1, ip, m, t, a.out, f);
  }
}
