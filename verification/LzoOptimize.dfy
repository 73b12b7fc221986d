/** lzo1x_optimize: the peephole pass over a compressed block, in place. */
module LzoOptimize {
  import opened Bits
  import Inflate
  import opened Lzo1x
  import opened LzoRewrites
  import opened LzoPass

  datatype Status = Ok | InputNotConsumed | EofNotFound

  // The optimizer stands at a point with the literals just before it, folded.
  ghost predicate AtPoint(orig: seq<byte>, s: seq<byte>, tr: seq<State>, ip: nat, out: seq<byte>, mode: Mode,
      litp: int, lit: nat)
  {
    forall k {:trigger Open(k)} :: Open(k) ==> Point(orig, s, tr, ip, out, mode) && Anchored(s, tr, litp, lit)
  }

  // The output never shrinks.
  lemma {:induction false} FinishGrows(s: seq<byte>, c: State, out: seq<byte>, end: nat)
    requires Finish(s, Next(c)) == Some((out, end))
    ensures |c.out| <= |out|
    decreases |s| + 1 - Min(c.ip, |s| + 1), if c.mode == Done then 1 else 0
  {
    if c.ip <= |s| {
      StepAdvances(s, c);
      match Step(s, c)
      case Next(d) => FinishGrows(s, d, out, end);
      case End(o, p) =>
      case Bad =>
    }
  }

  // The first two or three bytes of a copy.
  lemma {:induction false} CopyTwo(o: seq<byte>, d: nat)
    requires 1 <= d <= |o|
    ensures Inflate.CopyBack(o, 2, d) == o + [o[|o| - d], if d == 1 then o[|o| - d] else o[|o| - d + 1]]
  {
    var o1 := o + [o[|o| - d]];
    var o2 := o1 + [o1[|o1| - d]];
    assert Inflate.CopyBack(o1, 1, d) == Inflate.CopyBack(o2, 0, d);
    assert Inflate.CopyBack(o, 2, d) == Inflate.CopyBack(o1, 1, d);
  }

  lemma {:induction false} CopyThree(o: seq<byte>, d: nat)
    requires 1 <= d <= |o|
    ensures Inflate.CopyBack(o, 3, d)
         == o + [o[|o| - d], if d == 1 then o[|o| - d] else o[|o| - d + 1], if d == 1 || d == 2 then o[|o| - d]
           else o[|o| - d + 2]]
  {
    var o1 := o + [o[|o| - d]];
    CopyTwo(o1, d);
    assert Inflate.CopyBack(o, 3, d) == Inflate.CopyBack(o1, 2, d);
  }

  lemma {:induction false} CopyKeeps(o: seq<byte>, n: nat, d: nat)
    requires 1 <= d <= |o|
    ensures o <= Inflate.CopyBack(o, n, d)
    decreases n
  {
    if n != 0 { CopyKeeps(o + [o[|o| - d]], n - 1, d); }
  }

  // The buffer after the match bytes were replaced (s1) and the literals moved (s2).
  lemma {:induction false} InsertMerged(s: seq<byte>, s1: seq<byte>, s2: seq<byte>, q: nat, ip0: nat, m: seq<byte>,
      header: nat)
    requires |s| == |s1| == |s2| && 2 <= q <= ip0 && ip0 + 1 + |m| <= |s|
    requires (forall i :: 0 <= i < |s| && !(ip0 + 1 <= i < ip0 + 1 + |m|) && i != q - 2 ==> s1[i] == s[i])
             && s1[ip0 + 1..ip0 + 1 + |m|] == m
    requires s2[q] == header && s2[q + 1..ip0 + 1] == s1[q..ip0]
    requires forall i :: 0 <= i < |s| && !(q <= i < ip0 + 1) ==> s2[i] == s1[i]
    ensures Merged(s, s2, q, q, ip0, m, header)
  {
    SliceSame(s1, s, q, ip0);
    SliceSame(s2, s1, ip0 + 1, ip0 + 1 + |m|);
  }

  // The point behind the long run of rewrites m1_b and m3_b.
  lemma {:induction false} InsertDone(orig: seq<byte>, s: seq<byte>, s': seq<byte>, tr: seq<State>, ip: nat,
      out: seq<byte>, mode: Mode, litp: nat, lit: nat, d: State, m: seq<byte>, t: nat)
    returns (f: State, tr': seq<State>)
    requires AtPoint(orig, s, tr, ip, out, mode, litp, lit) && lit <= 3
    requires Yields(s, ip, out, mode, d, m) && d.ip == ip + |m| < |s| && s[d.ip] == t && 1 <= t && lit + |m| + t < 16
    requires litp + 2 <= ip <= |s| && Merged(s, s', litp + 2, litp + 2, ip, m, lit + |m| + t)
    requires (forall k :: 0 <= k < litp + 2 && k != litp ==> s'[k] == s[k]) && s'[litp] == s[litp] / 4 * 4
    ensures f.ip == d.ip + 1 + t + 3 <= |s'| == |s| && f.out == d.out + s'[d.ip + 1..f.ip]
            && f.out == d.out + s[d.ip + 1..f.ip]
    ensures AtPoint(orig, s', tr', f.ip, f.out, Run, litp + 2, lit + |m| + t + 3)
  {
    assert Open(0);
    ShortLiterals(orig, s, tr, ip, out, mode, litp, lit);
    InsertPoint(orig, s, s', tr, ip, out, mode, litp, lit, d, m, t);
    f := State(d.ip + 1 + t + 3, d.out + s[d.ip + 1..d.ip + 1 + t + 3], Run);
    tr' := tr[..|tr| - 1] + [State(litp + 2, tr[|tr| - 2].out, Top), f];
    SliceSame(s', s, d.ip + 1, f.ip);
  }

  // The same for rewrite m2.
  lemma {:induction false} ExtendDone(orig: seq<byte>, s: seq<byte>, s': seq<byte>, tr: seq<State>, ip: nat,
      out: seq<byte>, mode: Mode, litp: nat, lit: nat, d: State, m: seq<byte>, t: nat)
    returns (f: State, tr': seq<State>)
    requires AtPoint(orig, s, tr, ip, out, mode, litp, lit) && 3 < lit < 16 && |m| > 0
    requires Yields(s, ip, out, mode, d, m) && d.ip + 1 == ip + |m| && d.ip < |s| && s[d.ip] == t && 1 <= t
             && lit + |m| + t < 16
    requires litp + 1 <= ip <= |s| && Merged(s, s', litp, litp + 1, ip, m, lit + |m| + t)
    requires forall k :: 0 <= k < litp ==> s'[k] == s[k]
    ensures f.ip == d.ip + 1 + t + 3 <= |s'| == |s| && f.out == d.out + s'[d.ip + 1..f.ip]
            && f.out == d.out + s[d.ip + 1..f.ip]
    ensures AtPoint(orig, s', tr', f.ip, f.out, Run, litp, lit + |m| + t + 3)
  {
    hide Finish, Decode, Step, Trace;
    assert Open(0);
    LongLiterals(orig, s, tr, ip, out, mode, litp, lit);
    ExtendPoint(orig, s, s', tr, ip, out, mode, litp, lit, d, m, t);
    f := State(d.ip + 1 + t + 3, d.out + s[d.ip + 1..d.ip + 1 + t + 3], Run);
    tr' := tr[..|tr| - 1] + [f];
    SliceSame(s', s, d.ip + 1, f.ip);
  }

  // Rewrites m1_a and m3_a.
  lemma {:induction false} AppendDone(orig: seq<byte>, s: seq<byte>, s': seq<byte>, tr: seq<State>, ip: nat,
      out: seq<byte>, mode: Mode, litp: nat, lit: nat, d: State, m: seq<byte>)
    returns (tr': seq<State>)
    requires AtPoint(orig, s, tr, ip, out, mode, litp, lit) && lit + |m| == 3
    requires Yields(s, ip, out, mode, d, m) && d.ip == ip + |m| < |s| && s[d.ip] >= 16
    requires litp + 2 <= ip && Appended(s, s', litp, ip, m)
    ensures AtPoint(orig, s', tr', d.ip, d.out, Top, litp, 3)
  {
    assert Open(0);
    AppendPoint(orig, s, s', tr, ip, out, mode, litp, lit, d, m);
    tr' := tr[..|tr| - 1] + [State(d.ip, d.out, Lits)];
  }

  // A match and the literals behind it.
  lemma {:induction false} MatchAhead(orig: seq<byte>, s: seq<byte>, tr: seq<State>, ip: nat, out: seq<byte>,
      mode: Mode, litp: int, lit: nat, d: State)
    returns (e: State, tr': seq<State>)
    requires AtPoint(orig, s, tr, ip, out, mode, litp, lit) && Step(s, State(ip, out, mode)) == Next(d)
             && d.mode == Done
    ensures ip + 2 <= d.ip <= |s| && Step(s, d) == Next(e) && e.ip <= |s| && Decode(orig).Some?
            && |e.out| <= |Decode(orig).value.0|
    ensures AtPoint(orig, s, tr', e.ip, e.out, e.mode, d.ip - 2, s[d.ip - 2] % 4)
  {
    assert Open(0);
    MatchPoint(orig, s, tr, ip, out, mode, d);
    e := Step(s, d).s;
    tr' := tr + [d, e];
    StepAdvances(s, d);
    FinishGrows(orig, e, Decode(orig).value.0, Decode(orig).value.1);
  }

  lemma {:induction false} ShortBefore(orig: seq<byte>, s: seq<byte>, tr: seq<State>, ip: nat, out: seq<byte>,
      mode: Mode, litp: int, lit: nat)
    requires AtPoint(orig, s, tr, ip, out, mode, litp, lit) && litp >= 0 && lit <= 3
    ensures ip == litp + 2 + lit <= |s|
  {
    assert Open(0);
    ShortLiterals(orig, s, tr, ip, out, mode, litp, lit);
  }

  lemma {:induction false} LongBefore(orig: seq<byte>, s: seq<byte>, tr: seq<State>, ip: nat, out: seq<byte>,
      mode: Mode, litp: int, lit: nat)
    requires AtPoint(orig, s, tr, ip, out, mode, litp, lit) && litp >= 0 && 3 < lit < 16
    ensures ip == litp + 1 + lit <= |s|
  {
    assert Open(0);
    LongLiterals(orig, s, tr, ip, out, mode, litp, lit);
  }

  // The run of literals behind the match.
  lemma {:induction false} RunAhead(orig: seq<byte>, s: seq<byte>, tr: seq<State>, ip: nat, out: seq<byte>,
      mode: Mode, litp: int, lit: nat, d: State, m: seq<byte>, t: nat)
    requires AtPoint(orig, s, tr, ip, out, mode, litp, lit)
    requires Yields(s, ip, out, mode, d, m) && d.ip < |s| && s[d.ip] == t && 1 <= t < 16
    ensures d.ip + 1 + t + 3 <= |s| && Decode(orig).Some? && |d.out| + t + 3 <= |Decode(orig).value.0|
  {
    assert Open(0);
    MatchThenRun(orig, s, tr, ip, out, mode, d, m, t);
    var f := State(d.ip + 1 + t + 3, d.out + s[d.ip + 1..d.ip + 1 + t + 3], Run);
    FinishGrows(orig, f, Decode(orig).value.0, Decode(orig).value.1);
  }

  // The stream goes on, or the end mark is next and both streams stand for the same bytes.
  lemma {:induction false} Ahead(orig: seq<byte>, s: seq<byte>, tr: seq<State>, ip: nat, out: seq<byte>, mode: Mode,
      litp: int, lit: nat)
    requires AtPoint(orig, s, tr, ip, out, mode, litp, lit)
    ensures ip < |s| && mode != Done && !Step(s, State(ip, out, mode)).Bad?
    ensures Step(s, State(ip, out, mode)).End? ==> Decode(orig) == Decode(s)
                                                   == Some((out, Step(s, State(ip, out, mode)).ip))
  {
    assert Open(0);
    var o := Step(s, State(ip, out, mode));
    PointGoesOn(orig, s, tr, ip, out, mode);
    TraceDecodes(s, tr);
    TraceBounds(s, tr, |tr| - 1);
    if o.End? {
      assert Finish(s, Next(tr[|tr| - 1])) == Finish(s, o);
    }
  }

  // A match without literals is not the last instruction.
  lemma {:induction false} MoreAhead(orig: seq<byte>, s: seq<byte>, tr: seq<State>, ip: nat, out: seq<byte>,
      mode: Mode, litp: int, lit: nat, d: State)
    requires AtPoint(orig, s, tr, ip, out, mode, litp, lit) && Step(s, State(ip, out, mode)) == Next(d)
             && d.mode == Done
    ensures 2 <= d.ip <= |s| && (s[d.ip - 2] % 4 == 0 ==> d.ip < |s|)
  {
    var e, tr' := MatchAhead(orig, s, tr, ip, out, mode, litp, lit, d);
    if s[d.ip - 2] % 4 == 0 { Ahead(orig, s, tr', e.ip, e.out, e.mode, d.ip - 2, 0); }
  }

  // A long literal run.
  lemma {:induction false} RunDone(orig: seq<byte>, s: seq<byte>, tr: seq<State>, ip: nat, out: seq<byte>, litp: int,
      lit: nat, d: State, lit': nat)
    returns (tr': seq<State>)
    requires AtPoint(orig, s, tr, ip, out, Top, litp, lit) && ip < |s| && s[ip] < 16
             && Step(s, State(ip, out, Top)) == Next(d)
    requires if s[ip] == 0 then lit' >= 16 else lit' == s[ip] + 3
    ensures d.mode == Run && d.ip <= |s| && Decode(orig).Some? && |d.out| <= |Decode(orig).value.0|
    ensures AtPoint(orig, s, tr', d.ip, d.out, Run, ip, lit')
  {
    assert Open(0);
    RunPoint(orig, s, tr, ip, out, d);
    tr' := tr + [d];
    StepAdvances(s, State(ip, out, Top));
    FinishGrows(orig, d, Decode(orig).value.0, Decode(orig).value.1);
  }

  // An M3 or M4 match of length 3 takes three bytes.
  lemma {:induction false} ThreeBytes(s: seq<byte>, ip: nat, m: Match)
    requires ip < |s| && 16 <= s[ip] < 64 && Parse(s, ip) == Some(m) && m.len == 3
    ensures m.ip == ip + 3
  {
  }

  lemma {:induction false} MatchGrows(s: seq<byte>, d: State, e: State)
    requires d.mode == Done && Step(s, d) == Next(e)
    ensures |d.out| <= |e.out|
  {
  }

  class Optimizer {
    const inb: array<byte>
    const out: array<byte>
    var ip: nat
    var op: nat
    var litp: int   // -1 for NULL
    var lit: nat
    ghost const orig: seq<byte>
    ghost var tr: seq<State>
    ghost var log: seq<Opt>   // the pass so far

    constructor (inb: array<byte>, out: array<byte>)
      ensures this.inb == inb && this.out == out && orig == inb[..] && ip == op == lit == 0 && litp == -1
    {
      this.inb, this.out := inb, out;
      ip, op, litp, lit, orig, tr, log := 0, 0, -1, 0, inb[..], [], [];
    }

    ghost predicate Shape()
    {
      inb != out && Decode(orig).Some? && |Decode(orig).value.0| <= out.Length
    }

    // The instruction at ip is next, in the given mode.
    ghost predicate Here(mode: Mode)
      reads this, inb, out
    {
      && Shape() && mode != Done && op <= out.Length && -1 <= litp < inb.Length
         && (litp >= 0 && mode == Lits ==> 1 <= lit <= 3)
      && AtPoint(orig, inb[..], tr, ip, out[..op], mode, litp, lit)
      && Passes(orig, log, Opt(inb[..], ip, out[..op], mode, litp, lit))
    }

    // do *op++ = *ip++; while (--t > 0)
    method CopyLiterals(n: nat)
      requires inb != out && ip + n <= inb.Length && op + n <= out.Length
      modifies this`ip, this`op, out
      ensures ip == old(ip) + n && op == old(op) + n && out[..op] == old(out[..op]) + inb[old(ip)..ip]
    {
      for k := 0 to n
        invariant ip == old(ip) + k && op == old(op) + k && out[..op] == old(out[..op]) + inb[old(ip)..ip]
      {
        out[op] := inb[ip];
        op, ip := op + 1, ip + 1;
      }
    }

    // *op++ = *m_pos++, n times; the copy may overlap itself.
    method CopyMatch(dist: nat, n: nat)
      requires 1 <= dist <= op && op + n <= out.Length
      modifies this`op, out
      ensures op == old(op) + n && out[..op] == Inflate.CopyBack(old(out[..op]), n, dist)
    {
      ghost var total := Inflate.CopyBack(out[..op], n, dist);
      var mPos := op - dist;
      for k := 0 to n
        invariant op == old(op) + k && mPos == op - dist && Inflate.CopyBack(out[..op], n - k, dist) == total
      {
        ghost var o := out[..op];
        out[op] := out[mPos];
        op, mPos := op + 1, mPos + 1;
        assert out[..op] == o + [o[|o| - dist]];
      }
    }

    // copy2: the two bytes that a match of the given offset yields.
    method Copy2(at: nat, off: nat)
      requires inb != out && at + 2 <= inb.Length && 1 <= off <= op <= out.Length
      modifies inb
      ensures forall k :: 0 <= k < inb.Length && !(at <= k < at + 2) ==> inb[k] == old(inb[k])
      ensures out[..op] + inb[at..at + 2] == Inflate.CopyBack(out[..op], 2, off)
    {
      CopyTwo(out[..op], off);
      var mPos := op - off;
      inb[at] := out[mPos];
      inb[at + 1] := if off == 1 then out[mPos] else out[mPos + 1];
      assert inb[at..at + 2] == [inb[at], inb[at + 1]];
    }

    // copy3
    method Copy3(at: nat, off: nat)
      requires inb != out && at + 3 <= inb.Length && 1 <= off <= op <= out.Length
      modifies inb
      ensures forall k :: 0 <= k < inb.Length && !(at <= k < at + 3) ==> inb[k] == old(inb[k])
      ensures out[..op] + inb[at..at + 3] == Inflate.CopyBack(out[..op], 3, off)
    {
      CopyThree(out[..op], off);
      var mPos := op - off;
      inb[at] := out[mPos];
      if off == 1 {
        inb[at + 2], inb[at + 1] := out[mPos], out[mPos];
      } else if off == 2 {
        inb[at + 1] := out[mPos + 1];
        inb[at + 2] := out[mPos];
      } else {
        inb[at + 1] := out[mPos + 1];
        inb[at + 2] := out[mPos + 2];
      }
      assert inb[at..at + 3] == [inb[at], inb[at + 1], inb[at + 2]];
    }

    // The rest of a length: while (*ip == 0) t += 255, ip++; t += *ip++.
    method ReadExt(base: nat) returns (t: nat)
      requires Ext(inb[..], ip, base).Some?
      modifies this`ip
      ensures Ext(inb[..], old(ip), base) == Some((t, ip))
    {
      t := base;
      while inb[ip] == 0
        invariant ip < inb.Length && Ext(inb[..], ip, t) == Ext(inb[..], old(ip), base)
        decreases inb.Length - ip
      {
        t := t + 255;
        ip := ip + 1;
        assert Ext(inb[..], ip, t).Some?;
      }
      t := t + inb[ip];
      ip := ip + 1;
    }

    // A match instruction; dist is 0 for the end mark.
    method ReadMatch() returns (dist: nat, t: nat)
      requires ip < inb.Length && inb[ip] >= 16 && Parse(inb[..], ip).Some?
      modifies this`ip
      ensures Parse(inb[..], old(ip)) == Some(Match(ip, dist, t + 2)) && t >= 1
    {
      ghost var s: seq<byte> := inb[..];
      var c: nat := inb[ip];
      ip := ip + 1;
      if c >= 64 {
        var b: nat := inb[ip];
        ip := ip + 1;
        return 1 + c / 4 % 8 + 8 * b, c / 32 - 1;
      }
      t := if c >= 32 then c % 32 else c % 8;
      if t == 0 {
        t := ReadExt(if c >= 32 then 31 else 7);
      }
      var lo: nat, hi: nat := inb[ip], inb[ip + 1];
      ip := ip + 2;
      var off := lo / 4 + 64 * hi;
      if c >= 32 {
        dist := 1 + off;
      } else {
        dist := (if c / 8 % 2 == 1 then 0x4000 else 0) + off;
        if dist != 0 {
          dist := dist + 0x4000;
        }
      }
    }

    // The instruction at ip0 has been read and is a match of the given distance that leads to d.
    ghost predicate Read(s: seq<byte>, ip0: nat, o: seq<byte>, mode: Mode, d: State, dist: nat, n: nat)
      reads this, inb, out
    {
      && Shape() && inb[..] == s && op <= out.Length && out[..op] == o && ip == d.ip && -1 <= litp < inb.Length
      && AtPoint(orig, s, tr, ip0, o, mode, litp, lit)
      && Passes(orig, log, Opt(s, ip0, o, mode, litp, lit))
      && Step(s, State(ip0, o, mode)) == Next(d) && 1 <= dist <= op
         && d == State(d.ip, Inflate.CopyBack(o, n, dist), Done)
    }

    // A match is copied; the literals behind it follow.
    method TakeMatch(dist: nat, n: nat, ghost s: seq<byte>, ghost ip0: nat, ghost o: seq<byte>, ghost mode: Mode,
        ghost d: State) returns (mode': Mode)
      requires Read(s, ip0, o, mode, d, dist, n)
      requires IsMatch(Opt(s, ip0, o, mode, litp, lit), d) && Choose(Opt(s, ip0, o, mode, litp, lit), d) == Keep
      modifies this, out
      ensures Here(mode') && ip > ip0
    {
      hide Passes, Choose;
      ghost var a := Opt(s, ip0, o, mode, litp, lit);
      ghost var e, tr' := MatchAhead(orig, s, tr, ip0, o, mode, litp, lit, d);
      MatchGrows(s, d, e);
      CopyMatch(dist, n);
      mode' := MatchDone(s, d, e);
      KeepPass(a, d, Opt(s, e.ip, e.out, mode', litp, lit));
      Settle(s, e, tr', mode', a);
    }

    // match_done
    method MatchDone(ghost s: seq<byte>, ghost d: State, ghost e: State) returns (mode: Mode)
      requires inb != out && inb[..] == s && op <= out.Length && ip == d.ip && out[..op] == d.out
               && 2 <= ip <= inb.Length
      requires d.mode == Done && Step(s, d) == Next(e) && e.ip <= inb.Length && |e.out| <= out.Length
      modifies this`ip, this`op, this`lit, this`litp, out
      ensures inb[..] == s && op <= out.Length && ip == e.ip && out[..op] == e.out && mode == e.mode
      ensures litp == d.ip - 2 && lit == s[d.ip - 2] % 4 && (mode == Lits ==> lit >= 1)
    {
      var t := inb[ip - 2] % 4;
      lit := t;
      litp := ip - 2;
      mode := Top;
      if t != 0 {
        CopyLiterals(t);
        mode := Lits;
      }
    }

    // The trace follows the buffer.
    ghost method Settle(s: seq<byte>, f: State, tr': seq<State>, mode: Mode, a: Opt)
      requires Shape() && inb[..] == s && op <= out.Length && out[..op] == f.out && ip == f.ip
               && -1 <= litp < inb.Length
      requires mode != Done && AtPoint(orig, s, tr', f.ip, f.out, mode, litp, lit)
               && (litp >= 0 && mode == Lits ==> 1 <= lit <= 3)
      requires Passes(orig, log, a) && Pass(a, Opt(s, f.ip, f.out, mode, litp, lit))
      modifies this`tr, this`log
      ensures Here(mode)
    {
      hide Passes, Pass;
      tr := tr';
      PassesOn(orig, log, a, Opt(s, f.ip, f.out, mode, litp, lit));
      log := log + [Opt(s, f.ip, f.out, mode, litp, lit)];
    }

    method CopyK(k: nat, at: nat, off: nat)
      requires (k == 2 || k == 3) && inb != out && at + k <= inb.Length && 1 <= off <= op <= out.Length
      modifies inb
      ensures forall i :: 0 <= i < inb.Length && !(at <= i < at + k) ==> inb[i] == old(inb[i])
      ensures out[..op] + inb[at..at + k] == Inflate.CopyBack(out[..op], k, off)
    {
      if k == 2 {
        Copy2(at, off);
      } else {
        Copy3(at, off);
      }
    }

    // The bytes of the buffer for rewrites m1_a and m3_a: the count of literals of the previous
    // match becomes three, and literals take the place of the match.
    method AppendBytes(dist: nat, k: nat, ghost s: seq<byte>, ghost ip0: nat, ghost o: seq<byte>)
      returns (ghost s': seq<byte>, ghost m: seq<byte>)
      requires (k == 2 || k == 3) && inb != out && inb[..] == s && ip0 + k == ip <= inb.Length
               && 1 <= dist <= op <= out.Length && out[..op] == o
      requires 0 <= litp && litp + 2 <= ip0 && lit + k == 3
      modifies this`lit, inb
      ensures lit == 3 && inb[..] == s' && |m| == k && Appended(s, s', litp, ip0, m)
              && o + m == Inflate.CopyBack(o, k, dist)
    {
      lit := lit + k;
      inb[litp] := inb[litp] / 4 * 4 + lit;
      CopyK(k, ip - k, dist);
      s', m := inb[..], inb[ip0..ip];
      assert s'[ip0..ip0 + k] == m;
    }

    // Rewrites m1_a and m3_a.
    method AppendLiterals(dist: nat, k: nat, ghost s: seq<byte>, ghost ip0: nat, ghost o: seq<byte>, ghost mode: Mode,
        ghost d: State)
      requires (k == 2 || k == 3) && Read(s, ip0, o, mode, d, dist, k) && litp >= 0 && lit + k == 3
      requires ip0 + k == ip < inb.Length && inb[ip] >= 16 && inb[ip - 2] % 4 == 0
      requires IsMatch(Opt(s, ip0, o, mode, litp, lit), d) && Choose(Opt(s, ip0, o, mode, litp, lit), d) == Append
      modifies this, inb, out
      ensures Here(Top) && ip > ip0
    {
      hide Passes, Choose, Appended, Pass;
      ghost var a := Opt(s, ip0, o, mode, litp, lit);
      ShortBefore(orig, s, tr, ip0, o, mode, litp, lit);
      ghost var e, tr1 := MatchAhead(orig, s, tr, ip0, o, mode, litp, lit, d);
      MatchGrows(s, d, e);
      ghost var tr0, lit0 := tr, lit;
      ghost var s', m := AppendBytes(dist, k, s, ip0, o);
      ghost var tr' := AppendDone(orig, s, s', tr0, ip0, o, mode, litp, lit0, d, m);
      CopyMatch(dist, k);
      AppendPass(a, d, Opt(s', d.ip, d.out, Top, litp, lit));
      Settle(s', d, tr', Top, a);
    }

    // memmove(litp + 1, litp, lit)
    method MoveLiterals()
      requires 0 <= litp && litp + 1 + lit <= inb.Length
      modifies inb
      ensures inb[litp + 1..litp + 1 + lit] == old(inb[litp..litp + lit])
      ensures forall i :: 0 <= i < inb.Length && !(litp + 1 <= i < litp + 1 + lit) ==> inb[i] == old(inb[i])
    {
      var n: nat := lit;
      while n > 0
        invariant n <= lit
        invariant forall i :: 0 <= i < inb.Length ==> inb[i] == if litp + 1 + n <= i < litp + 1 + lit
                  then old(inb[i - 1]) else old(inb[i])
      {
        n := n - 1;
        inb[litp + 1 + n] := inb[litp + n];
      }
    }

    // The literals one byte further, with the header of a long run before them.
    method PutHeader(header: byte, n: nat)
      requires 0 <= litp && litp + 1 + lit <= inb.Length && lit == n
      modifies inb
      ensures inb[litp] == header && inb[litp + 1..litp + 1 + n] == old(inb[litp..litp + n])
      ensures forall i :: 0 <= i < inb.Length && !(litp <= i < litp + 1 + n) ==> inb[i] == old(inb[i])
    {
      if lit > 0 {
        MoveLiterals();
      }
      ghost var s := inb[..];
      inb[litp] := header;
      assert inb[litp + 1..litp + 1 + n] == s[litp + 1..litp + 1 + n];
    }

    // The bytes of the buffer for rewrites m1_b and m3_b: the short run before the match, the
    // match and the run behind it become one long run.
    // The low bits of the last match are cleared, and the bytes of this one copied in.
    method InsertCopy(dist: nat, k: nat, ghost s: seq<byte>, ghost ip0: nat, ghost o: seq<byte>)
      returns (ghost s1: seq<byte>, ghost m: seq<byte>)
      requires (k == 2 || k == 3) && inb != out && inb[..] == s && ip0 + k + 1 == ip <= inb.Length
      requires 1 <= dist <= op <= out.Length && out[..op] == o && 0 <= litp < ip0
      modifies inb
      ensures inb[..] == s1 && |m| == k && s1[ip0 + 1..ip0 + 1 + k] == m && o + m == Inflate.CopyBack(o, k, dist)
      ensures forall i :: 0 <= i < |s| && !(ip0 + 1 <= i < ip0 + 1 + k) && i != litp ==> s1[i] == s[i]
      ensures s1[litp] == s[litp] / 4 * 4
    {
      hide Inflate.CopyBack;
      inb[litp] := inb[litp] / 4 * 4;
      CopyK(k, ip - k, dist);
      m, s1 := inb[ip0 + 1..ip0 + 1 + k], inb[..];
    }

    method InsertBytes(dist: nat, k: nat, ghost s: seq<byte>, ghost ip0: nat, ghost o: seq<byte>)
      returns (t: nat, ghost s': seq<byte>, ghost m: seq<byte>)
      requires (k == 2 || k == 3) && inb != out && inb[..] == s && ip0 + k == ip < inb.Length
               && 1 <= dist <= op <= out.Length && out[..op] == o
      requires 0 <= litp && litp + 2 + lit == ip0 && lit + k + inb[ip] < 16
      modifies this`ip, this`lit, this`litp, inb
      ensures t == s[ip0 + k] && ip == ip0 + k + 1 && litp == old(litp) + 2 && lit == old(lit) + k + t + 3
      ensures inb[..] == s' && |m| == k && Merged(s, s', litp, litp, ip0, m, old(lit) + k + t)
              && o + m == Inflate.CopyBack(o, k, dist)
      ensures (forall i :: 0 <= i < litp && i != litp - 2 ==> s'[i] == s[i]) && s'[litp - 2] == s[litp - 2] / 4 * 4
    {
      hide Inflate.CopyBack, Merged;
      t := inb[ip];
      ip := ip + 1;
      ghost var s1, lit0;
      lit0 := lit;
      s1, m := InsertCopy(dist, k, s, ip0, o);
      litp := litp + 2;
      PutHeader(lit + k + t, lit);
      lit := lit + k + t + 3;
      s' := inb[..];
      InsertMerged(s, s1, s', litp, ip0, m, lit0 + k + t);
    }

    // The bytes of the replaced match, and then the literals behind it.
    method CopyRun(dist: nat, k: nat, t: nat, ghost o: seq<byte>, ghost dout: seq<byte>)
      requires inb != out && 1 <= dist <= op <= out.Length && out[..op] == o && dout == Inflate.CopyBack(o, k, dist)
      requires ip + t + 3 <= inb.Length && |dout| + t + 3 <= out.Length
      modifies this`ip, this`op, out
      ensures op <= out.Length && ip == old(ip) + t + 3 && out[..op] == dout + inb[old(ip)..ip]
    {
      CopyMatch(dist, k);
      CopyLiterals(t + 3);
    }

    // Rewrites m1_b and m3_b.
    method InsertRun(dist: nat, k: nat, ghost s: seq<byte>, ghost ip0: nat, ghost o: seq<byte>, ghost mode: Mode,
        ghost d: State)
      requires (k == 2 || k == 3) && Read(s, ip0, o, mode, d, dist, k) && litp >= 0 && lit <= 3
      requires ip0 + k == ip < inb.Length && 1 <= inb[ip] && lit + k + inb[ip] < 16 && inb[ip - 2] % 4 == 0
      requires IsMatch(Opt(s, ip0, o, mode, litp, lit), d) && Choose(Opt(s, ip0, o, mode, litp, lit), d) == Insert
      modifies this, inb, out
      ensures Here(Run) && ip > ip0
    {
      hide Finish, Decode, Inflate.CopyBack, Merged, Passes, Choose, Pass, Step, Trace;
      ghost var a := Opt(s, ip0, o, mode, litp, lit);
      ShortBefore(orig, s, tr, ip0, o, mode, litp, lit);
      ghost var tr0, litp0, lit0, m := tr, litp, lit, d.out[|o|..];
      CopyKeeps(o, k, dist);
      RunAhead(orig, s, tr, ip0, o, mode, litp, lit, d, m, s[d.ip]);
      var t;
      ghost var s';
      t, s', m := InsertBytes(dist, k, s, ip0, o);
      ghost var f, tr' := InsertDone(orig, s, s', tr0, ip0, o, mode, litp0, lit0, d, m, t);
      CopyRun(dist, k, t, o, d.out);
      Inserted(a, d, Opt(s', f.ip, f.out, Run, litp, lit), m, t);
      Settle(s', f, tr', Run, a);
    }

    // The bytes of the buffer for rewrite m2: the match becomes part of the long run before it,
    // and so does the run behind it.
    method ExtendBytes(dist: nat, ghost s: seq<byte>, ghost ip0: nat, ghost o: seq<byte>)
      returns (t: nat, ghost s': seq<byte>, ghost m: seq<byte>)
      requires inb != out && inb[..] == s && ip0 + 2 == ip < inb.Length && 1 <= dist <= op <= out.Length
               && out[..op] == o
      requires 0 <= litp && litp + 1 + lit == ip0 && lit + 3 + inb[ip] < 16
      modifies this`ip, this`lit, inb
      ensures t == s[ip0 + 2] && ip == ip0 + 3 && lit == old(lit) + 3 + t + 3
      ensures inb[..] == s' && |m| == 3 && Merged(s, s', litp, litp + 1, ip0, m, old(lit) + 3 + t)
              && o + m == Inflate.CopyBack(o, 3, dist)
      ensures forall i :: 0 <= i < litp ==> s'[i] == s[i]
    {
      t := inb[ip];
      ip := ip + 1;
      Copy3(ip - 3, dist);
      m := inb[ip - 3..ip];
      lit := lit + 3 + t + 3;
      inb[litp] := lit - 3;
      s' := inb[..];
      SliceSame(s', s, litp + 1, ip0);
      assert s'[ip0..ip0 + 3] == m;
    }

    // Rewrite m2.
    method ExtendRun(dist: nat, ghost s: seq<byte>, ghost ip0: nat, ghost o: seq<byte>, ghost mode: Mode,
        ghost d: State)
      requires Read(s, ip0, o, mode, d, dist, 3) && litp >= 0 && lit > 3
      requires ip0 + 2 == ip < inb.Length && 1 <= inb[ip] && lit + 3 + inb[ip] < 16 && inb[ip - 2] % 4 == 0
      requires IsMatch(Opt(s, ip0, o, mode, litp, lit), d) && Choose(Opt(s, ip0, o, mode, litp, lit), d) == Extend
      modifies this, inb, out
      ensures Here(Run) && ip > ip0
    {
      hide Finish, Decode, Inflate.CopyBack, Merged, Passes, Choose, Pass;
      ghost var a := Opt(s, ip0, o, mode, litp, lit);
      LongBefore(orig, s, tr, ip0, o, mode, litp, lit);
      ghost var tr0, lit0, m := tr, lit, d.out[|o|..];
      CopyKeeps(o, 3, dist);
      RunAhead(orig, s, tr, ip0, o, mode, litp, lit, d, m, s[d.ip]);
      var t;
      ghost var s';
      t, s', m := ExtendBytes(dist, s, ip0, o);
      ghost var f, tr' := ExtendDone(orig, s, s', tr0, ip0, o, mode, litp, lit0, d, m, t);
      CopyRun(dist, 3, t, o, d.out);
      Extended(a, d, Opt(s', f.ip, f.out, Run, litp, lit), m, t);
      Settle(s', f, tr', Run, a);
    }

    // The end mark has been read.
    ghost predicate Over()
      reads this, inb, out
    {
      && Shape() && op <= out.Length && Decode(inb[..]) == Decode(orig) == Some((out[..op], ip))
      && Rewritten(orig, inb[..], log)
    }

    // A match of type M2, M3 or M4, perhaps rewritten, or the end mark.
    method LongMatch(mode: Mode) returns (mode': Mode, over: bool)
      requires Here(mode) && ip < inb.Length && inb[ip] >= 16
      modifies this, inb, out
      ensures if over then Over() else Here(mode') && ip > old(ip)
    {
      ghost var s: seq<byte>, ip0, o := inb[..], ip, out[..op];
      Ahead(orig, s, tr, ip0, o, mode, litp, lit);
      var c: nat := inb[ip];
      var dist, t := ReadMatch();
      if dist == 0 {
        return Top, true;
      }
      ghost var d := Step(s, State(ip0, o, mode)).s;
      mode' := Rewrite(c >= 64, dist, t, s, ip0, o, mode, d);
      over := false;
    }

    // A literal run follows that leaves room in its header for n more literals.
    method RunFollows(n: nat) returns (yes: bool)
      requires ip < inb.Length
      ensures yes <==> 1 <= inb[ip] < 16 && lit + n + inb[ip] < 16
    {
      yes := inb[ip] < 16 && inb[ip] != 0 && lit + n + inb[ip] < 16;
    }

    method Rewrite(m2: bool, dist: nat, t: nat, ghost s: seq<byte>, ghost ip0: nat, ghost o: seq<byte>,
        ghost mode: Mode, ghost d: State) returns (mode': Mode)
      requires Read(s, ip0, o, mode, d, dist, t + 2) && ip0 < |s| && s[ip0] >= 16 && m2 == (s[ip0] >= 64)
      requires Parse(s, ip0) == Some(Match(ip, dist, t + 2))
      modifies this, inb, out
      ensures Here(mode') && ip > ip0
    {
      if litp >= 0 && t == 1 {
        MoreAhead(orig, s, tr, ip0, o, mode, litp, lit, d);
        assert inb[ip - 2] == s[d.ip - 2];
        var nl := inb[ip - 2] % 4;
        if nl == 0 {
          var run := RunFollows(3);
          if m2 {
            if lit > 3 && run {
              ExtendRun(dist, s, ip0, o, mode, d);
              return Run;
            }
          } else {
            ThreeBytes(s, ip0, Match(ip, dist, 3));
            if lit == 0 && inb[ip] >= 16 {
              AppendLiterals(dist, 3, s, ip0, o, mode, d);
              return Top;
            } else if lit <= 3 && run {
              InsertRun(dist, 3, s, ip0, o, mode, d);
              return Run;
            }
          }
        }
      }
      mode' := TakeMatch(dist, t + 2, s, ip0, o, mode, d);
    }

    // A long literal run.
    method LiteralRun()
      requires Here(Top) && ip < inb.Length && inb[ip] < 16
      modifies this, out
      ensures Here(Run) && ip > old(ip)
    {
      ghost var s: seq<byte>, ip0, o := inb[..], ip, out[..op];
      ghost var litp0, lit0, a := litp, lit, Opt(s, ip0, o, Top, litp, lit);
      Ahead(orig, s, tr, ip0, o, Top, litp, lit);
      ghost var d := Step(s, State(ip0, o, Top)).s;
      var t: nat := inb[ip];
      ip := ip + 1;
      litp := ip - 1;
      if t == 0 {
        t := ReadExt(15);
      }
      lit := t + 3;
      ghost var tr' := RunDone(orig, s, tr, ip0, o, litp0, lit0, d, lit);
      CopyLiterals(t + 3);
      Settle(s, d, tr', Run, a);
    }

    // The distance of a match below 16.
    method ReadShort(base: nat) returns (dist: nat)
      requires ip + 1 < inb.Length
      modifies this`ip
      ensures ip == old(ip) + 2 && (var t: nat, b: nat := inb[old(ip)], inb[old(ip) + 1]; dist == base + t / 4 + 4 * b)
    {
      var t: nat, b: nat := inb[ip], inb[ip + 1];
      ip := ip + 2;
      dist := base + t / 4 + 4 * b;
    }

    // The three-byte match behind a long run: never rewritten.
    method RunMatch() returns (mode: Mode)
      requires Here(Run) && ip < inb.Length && inb[ip] < 16
      modifies this, out
      ensures Here(mode) && ip > old(ip)
    {
      ghost var s: seq<byte>, ip0, o := inb[..], ip, out[..op];
      Ahead(orig, s, tr, ip0, o, Run, litp, lit);
      ghost var d := Step(s, State(ip0, o, Run)).s;
      var dist := ReadShort(0x801);
      mode := TakeMatch(dist, 3, s, ip0, o, Run, d);
    }

    // An M1 match, perhaps rewritten.
    method ShortMatchOf() returns (mode: Mode)
      requires Here(Lits) && ip < inb.Length && inb[ip] < 16
      modifies this, inb, out
      ensures Here(mode) && ip > old(ip)
    {
      ghost var s: seq<byte>, ip0, o := inb[..], ip, out[..op];
      Ahead(orig, s, tr, ip0, o, Lits, litp, lit);
      ghost var d := Step(s, State(ip0, o, Lits)).s;
      var dist := ReadShort(1);
      if litp >= 0 {
        MoreAhead(orig, s, tr, ip0, o, Lits, litp, lit, d);
        var nl := inb[ip - 2] % 4;
        if nl == 0 {
          if lit == 1 && inb[ip] >= 16 {
            AppendLiterals(dist, 2, s, ip0, o, Lits, d);
            return Top;
          }
          var run := RunFollows(2);
          if run {
            InsertRun(dist, 2, s, ip0, o, Lits, d);
            return Run;
          }
        }
      }
      mode := TakeMatch(dist, 2, s, ip0, o, Lits, d);
    }

    // One instruction.
    method Instruction(mode: Mode) returns (mode': Mode, over: bool)
      requires Here(mode)
      modifies this, inb, out
      ensures if over then Over() else Here(mode') && ip > old(ip)
    {
      Ahead(orig, inb[..], tr, ip, out[..op], mode, litp, lit);
      over := false;
      if inb[ip] >= 16 {
        mode', over := LongMatch(mode);
      } else if mode == Top {
        LiteralRun();
        mode' := Run;
      } else if mode == Run {
        mode' := RunMatch();
      } else {
        mode' := ShortMatchOf();
      }
    }

    // TEST_IP && TEST_OP, where the source makes the test: before an instruction that follows
    // a match, and behind the first byte of one that follows a short run.
    predicate Test(mode: Mode)
      reads this
    {
      (mode == Top ==> ip < inb.Length && op <= out.Length)
        && (mode == Lits ==> ip + 1 < inb.Length && op <= out.Length)
    }

    lemma {:induction false} TestHolds(mode: Mode)
      requires Here(mode)
      ensures ip < inb.Length && Test(mode)
    {
      Ahead(orig, inb[..], tr, ip, out[..op], mode, litp, lit);
    }

    // The first byte.
    method Begin() returns (mode: Mode)
      requires Shape() && orig == inb[..] && ip == op == lit == 0 && litp == -1
      modifies this, out
      ensures Here(mode)
    {
      StartPoint(orig);
      ghost var d := Start(orig).s;
      mode := Top;
      if inb[0] > 17 {
        var t := inb[0] - 17;
        ip := 1;
        CopyLiterals(t);
        mode := if t < 4 then Lits else Run;
      }
      tr, log := [d], [Opt(orig, d.ip, d.out, mode, -1, 0)];
    }

    // lzo1x_optimize
    method Optimize() returns (status: Status, outLen: nat)
      requires Shape() && orig == inb[..] && ip == op == lit == 0 && litp == -1
      modifies this, inb, out
      ensures Decode(inb[..]) == Decode(orig)
      ensures outLen <= out.Length && out[..outLen] == Decode(orig).value.0
      ensures status == if Decode(orig).value.1 == inb.Length then Ok else InputNotConsumed
      ensures Rewritten(orig, inb[..], log)
    {
      var mode := Begin();
      var over := false;
      TestHolds(mode);
      while !over && Test(mode)
        invariant if over then Over() else Here(mode) && ip < inb.Length && Test(mode)
        decreases !over, inb.Length - ip
      {
        mode, over := Instruction(mode);
        if !over { TestHolds(mode); }
      }
      outLen := op;
      status := if !over then EofNotFound else if ip == inb.Length then Ok else InputNotConsumed;
    }
  }

  lemma {:induction false} StartPoint(s: seq<byte>)
    requires Decode(s).Some?
    ensures s != [] && Start(s).Next? && Start(s).s.ip <= |s| && |Start(s).s.out| <= |Decode(s).value.0|
    ensures AtPoint(s, s, [Start(s).s], Start(s).s.ip, Start(s).s.out, Start(s).s.mode, -1, 0)
  {
    FinishGrows(s, Start(s).s, Decode(s).value.0, Decode(s).value.1);
  }

  // The pass on a block: same length, same meaning, and every rewrite that its rule asks for.
  method OptimizeBlock(inb: array<byte>, out: array<byte>) returns (status: Status, outLen: nat, ghost log: seq<Opt>)
    requires inb != out && Decode(inb[..]).Some? && |Decode(inb[..]).value.0| <= out.Length
    modifies inb, out
    ensures Decode(inb[..]) == old(Decode(inb[..]))
    ensures outLen <= out.Length && out[..outLen] == old(Decode(inb[..]).value.0)
    ensures status == if old(Decode(inb[..]).value.1) == inb.Length then Ok else InputNotConsumed
    ensures Rewritten(old(inb[..]), inb[..], log)
  {
    var pass := new Optimizer(inb, out);
    status, outLen := pass.Optimize();
    log := pass.log;
  }
}
