/** Which rewrites lzo1x_optimize makes, and what the buffer is afterwards. */
module LzoPass {
  import opened Bits
  import Inflate
  import opened Lzo1x
  import opened LzoRewrites

  // The optimizer before an instruction: the buffer so far, its position in it, what it has
  // decoded, and the literals just before (litp is -1 for NULL).
  datatype Opt = Opt(s: seq<byte>, ip: nat, out: seq<byte>, mode: Mode, litp: int, lit: nat)

  // A match is left as it is, or becomes two or three literals: at the end of the short run before
  // it, together with the runs on both sides of it, or together with two long runs.
  datatype Choice = Keep | Append | Insert | Extend

  // The byte at ip begins a literal run, and its header has room for n more.
  predicate RunFits(s: seq<byte>, ip: nat, n: nat) { ip < |s| && 1 <= s[ip] < 16 && n + s[ip] < 16 }

  predicate MatchFollows(s: seq<byte>, ip: nat) { ip < |s| && s[ip] >= 16 }

  // What becomes of the match at a that leads the decoder to d.
  function Choose(a: Opt, d: State): Choice
    requires a.ip < |a.s| && |a.out| <= |d.out| && 2 <= d.ip <= |a.s|
  {
    var op, len: nat := a.s[a.ip], |d.out| - |a.out|;
    if a.litp < 0 || a.s[d.ip - 2] % 4 != 0 then Keep
    else if op >= 64 then
      if len == 3 && a.lit > 3 && RunFits(a.s, d.ip, a.lit + 3) then Extend else Keep
    else if op >= 16 then
      if len == 3 && a.lit == 0 && MatchFollows(a.s, d.ip) then Append
      else if len == 3 && a.lit <= 3 && RunFits(a.s, d.ip, a.lit + 3) then Insert
      else Keep
    else if a.mode == Lits then
      if a.lit == 1 && MatchFollows(a.s, d.ip) then Append
      else if RunFits(a.s, d.ip, a.lit + 2) then Insert
      else Keep
    else Keep
  }

  // The match has been copied, with the literals behind it.
  ghost predicate Kept(a: Opt, d: State, b: Opt)
  {
    && 2 <= d.ip <= |a.s| && Step(a.s, d).Next?
    && var e := Step(a.s, d).s;
       b == Opt(a.s, e.ip, e.out, e.mode, d.ip - 2, a.s[d.ip - 2] % 4)
  }

  // The bytes of the match are the last of three literals behind the match before.
  ghost predicate AppendedTo(a: Opt, d: State, b: Opt)
  {
    && a.litp >= 0 && a.litp + 2 <= a.ip <= d.ip <= |a.s| && |a.out| <= |d.out| && a.ip + |d.out| - |a.out| == d.ip
    && Appended(a.s, b.s, a.litp, a.ip, d.out[|a.out|..])
    && b == Opt(b.s, d.ip, d.out, Top, a.litp, 3)
  }

  // The literals before the match, its bytes and the run behind it are one run, with its header at h
  // in place of that of the run behind.
  ghost predicate MergedTo(a: Opt, d: State, b: Opt, h: nat, from: nat)
  {
    && from <= a.ip && d.ip < |a.s| && |a.out| <= |d.out|
    && var t, m := a.s[d.ip] as nat, d.out[|a.out|..]; 
       && h + 1 + (a.ip - from) + |m| == d.ip + 1 && d.ip + 1 + t + 3 <= |a.s|
       && Merged(a.s, b.s, h, from, a.ip, m, a.lit + |m| + t)
       && b == Opt(b.s, d.ip + 1 + t + 3, d.out + a.s[d.ip + 1..d.ip + 1 + t + 3], Run, h, a.lit + |m| + t + 3)
  }

  // The run before was short: its count in the match before is cleared.
  ghost predicate InsertedTo(a: Opt, d: State, b: Opt)
  {
    && a.litp >= 0 && a.litp + 2 <= |a.s| && MergedTo(a, d, b, a.litp + 2, a.litp + 2) && |b.s| == |a.s|
    && (forall k :: 0 <= k < a.litp + 2 && k != a.litp ==> b.s[k] == a.s[k]) && b.s[a.litp] == a.s[a.litp] / 4 * 4
  }

  // The run before was long: its header counts the new literals too.
  ghost predicate ExtendedTo(a: Opt, d: State, b: Opt)
  {
    && a.litp >= 0 && a.litp < |a.s| && MergedTo(a, d, b, a.litp, a.litp + 1) && |b.s| == |a.s|
    && forall k :: 0 <= k < a.litp ==> b.s[k] == a.s[k]
  }

  ghost predicate MatchPass(a: Opt, d: State, b: Opt)
  {
    && a.ip < |a.s| && |a.out| <= |d.out| && 2 <= d.ip <= |a.s|
    && match Choose(a, d)
       case Keep => Kept(a, d, b)
       case Append => AppendedTo(a, d, b)
       case Insert => InsertedTo(a, d, b)
       case Extend => ExtendedTo(a, d, b)
  }

  // One instruction, and the buffer and the optimizer after it.
  ghost predicate Pass(a: Opt, b: Opt)
  {
    && a.ip < |a.s| && a.mode != Done
    && match Step(a.s, State(a.ip, a.out, a.mode))
       case Next(d) =>
         if a.mode == Top && a.s[a.ip] < 16 then
           |a.out| <= |d.out| && b == Opt(a.s, d.ip, d.out, Run, a.ip, |d.out| - |a.out|)
         else
           MatchPass(a, d, b)
       case End(_, _) => false
       case Bad => false
  }

  // Where the pass begins.
  ghost predicate First(orig: seq<byte>, a: Opt)
  {
    Start(orig).Next? && var c := Start(orig).s; a == Opt(orig, c.ip, c.out, c.mode, -1, 0)
  }

  // A pass from the first instruction up to now.
  ghost predicate Passes(orig: seq<byte>, log: seq<Opt>, now: Opt)
  {
    && |log| > 0 && First(orig, log[0]) && log[|log| - 1] == now
    && forall i :: 0 <= i < |log| - 1 ==> Pass(log[i], log[i + 1])
  }

  // The end mark is next.
  ghost predicate AtEnd(a: Opt)
  {
    Step(a.s, State(a.ip, a.out, a.mode)).End?
  }

  // A whole pass, and the buffer it leaves.
  ghost predicate Rewritten(orig: seq<byte>, s: seq<byte>, log: seq<Opt>)
  {
    |log| > 0 && Passes(orig, log, log[|log| - 1]) && AtEnd(log[|log| - 1]) && log[|log| - 1].s == s
  }

  lemma {:induction false} PassesOn(orig: seq<byte>, log: seq<Opt>, a: Opt, b: Opt)
    requires Passes(orig, log, a) && Pass(a, b)
    ensures Passes(orig, log + [b], b)
  {
    hide Pass;
    var log' := log + [b];
    forall i | 0 <= i < |log'| - 1 ensures Pass(log'[i], log'[i + 1]) {
      if i < |log| - 1 { assert Pass(log[i], log[i + 1]); }
    }
  }

  // The instruction at a is a match that leads to d.
  ghost predicate IsMatch(a: Opt, d: State)
  {
    && a.ip < |a.s| && a.mode != Done && Step(a.s, State(a.ip, a.out, a.mode)) == Next(d) && d.mode == Done
    && |a.out| <= |d.out| && 2 <= d.ip <= |a.s|
  }

  lemma {:induction false} MatchIs(a: Opt, d: State, b: Opt)
    requires IsMatch(a, d) && MatchPass(a, d, b)
    ensures Pass(a, b)
  {
    hide MatchPass;
  }

  lemma {:induction false} KeepPass(a: Opt, d: State, b: Opt)
    requires IsMatch(a, d) && Choose(a, d) == Keep && Kept(a, d, b)
    ensures Pass(a, b)
  {
    hide Kept, Choose;
    MatchIs(a, d, b);
  }

  lemma {:induction false} AppendPass(a: Opt, d: State, b: Opt)
    requires IsMatch(a, d) && Choose(a, d) == Append && AppendedTo(a, d, b)
    ensures Pass(a, b)
  {
    hide AppendedTo, Choose;
    MatchIs(a, d, b);
  }

  lemma {:induction false} Inserted(a: Opt, d: State, b: Opt, m: seq<byte>, t: nat)
    requires IsMatch(a, d) && Choose(a, d) == Insert && a.litp >= 0 && a.litp + 2 + a.lit == a.ip
    requires d.ip == a.ip + |m| < |a.s| && a.s[d.ip] == t && d.out == a.out + m && d.ip + 1 + t + 3 <= |a.s|
    requires Merged(a.s, b.s, a.litp + 2, a.litp + 2, a.ip, m, a.lit + |m| + t)
    requires (forall k :: 0 <= k < a.litp + 2 && k != a.litp ==> b.s[k] == a.s[k])
             && b.s[a.litp] == a.s[a.litp] / 4 * 4
    requires b == Opt(b.s, d.ip + 1 + t + 3, d.out + a.s[d.ip + 1..d.ip + 1 + t + 3], Run, a.litp + 2,
                      a.lit + |m| + t + 3)
    ensures Pass(a, b)
  {
    hide Choose, Step, IsMatch, Pass;
    assert d.out[|a.out|..] == m;
    assert InsertedTo(a, d, b);
    hide InsertedTo;
    InsertPass(a, d, b);
  }

  lemma {:induction false} Extended(a: Opt, d: State, b: Opt, m: seq<byte>, t: nat)
    requires IsMatch(a, d) && Choose(a, d) == Extend && a.litp >= 0 && a.litp + 1 + a.lit == a.ip
    requires d.ip + 1 == a.ip + |m| && d.ip < |a.s| && a.s[d.ip] == t && d.out == a.out + m
             && d.ip + 1 + t + 3 <= |a.s|
    requires Merged(a.s, b.s, a.litp, a.litp + 1, a.ip, m, a.lit + |m| + t)
    requires forall k :: 0 <= k < a.litp ==> b.s[k] == a.s[k]
    requires b == Opt(b.s, d.ip + 1 + t + 3, d.out + a.s[d.ip + 1..d.ip + 1 + t + 3], Run, a.litp,
                      a.lit + |m| + t + 3)
    ensures Pass(a, b)
  {
    hide Choose, Step, IsMatch, Pass;
    assert d.out[|a.out|..] == m;
    assert ExtendedTo(a, d, b);
    hide ExtendedTo;
    ExtendPass(a, d, b);
  }

  lemma {:induction false} InsertPass(a: Opt, d: State, b: Opt)
    requires IsMatch(a, d) && Choose(a, d) == Insert && InsertedTo(a, d, b)
    ensures Pass(a, b)
  {
    hide InsertedTo, Choose;
    MatchIs(a, d, b);
  }

  lemma {:induction false} ExtendPass(a: Opt, d: State, b: Opt)
    requires IsMatch(a, d) && Choose(a, d) == Extend && ExtendedTo(a, d, b)
    ensures Pass(a, b)
  {
    hide ExtendedTo, Choose;
    MatchIs(a, d, b);
  }

  // Four literals, a match of three bytes at distance 4, four literals, the end mark.
  const EXAMPLE: seq<byte> := [1, 97, 98, 99, 100, 76, 0, 1, 101, 102, 103, 104, 17, 0, 0]

  // Eleven literals, the end mark.
  const MERGED: seq<byte> := [8, 97, 98, 99, 100, 97, 98, 99, 101, 102, 103, 104, 17, 0, 0]

  lemma {:induction false} FirstPass(a: Opt, b: Opt)
    requires First(EXAMPLE, a)
    ensures !AtEnd(a) && (Pass(a, b) ==> b == Opt(EXAMPLE, 5, [97, 98, 99, 100], Run, 0, 4))
  {
    assert EXAMPLE[1..5] == [97, 98, 99, 100];
  }

  lemma {:induction false} SecondPass(a: Opt, b: Opt)
    requires a == Opt(EXAMPLE, 5, [97, 98, 99, 100], Run, 0, 4)
    ensures !AtEnd(a)
    ensures Pass(a, b) ==> b == Opt(MERGED, 12, [97, 98, 99, 100, 97, 98, 99, 101, 102, 103, 104], Run, 0, 11)
  {
    var o: seq<byte>, m: seq<byte> := a.out, [97, 98, 99];
    assert Parse(EXAMPLE, 5) == Some(Match(7, 4, 3));
    CopyAbc(o);
    var d := State(7, o + m, Done);
    assert Step(EXAMPLE, State(5, o, Run)) == Next(d) && d.out[|o|..] == m;
    assert Choose(a, d) == Extend;
    if Pass(a, b) {
      assert ExtendedTo(a, d, b);
      ExampleBytes(b.s, m);
      assert EXAMPLE[8..12] == [101, 102, 103, 104];
    }
  }

  lemma {:induction false} CopyAbc(o: seq<byte>)
    requires o == [97, 98, 99, 100]
    ensures Inflate.CopyBack(o, 3, 4) == o + [97, 98, 99]
  {
    assert Inflate.CopyBack(o, 3, 4) == Inflate.CopyBack(o + [97], 2, 4) == Inflate.CopyBack(o + [97] + [98], 1, 4);
    assert Inflate.CopyBack(o + [97] + [98], 1, 4) == o + [97] + [98] + [99];
  }

  lemma {:induction false} ExampleBytes(s: seq<byte>, m: seq<byte>)
    requires m == [97, 98, 99] && Merged(EXAMPLE, s, 0, 1, 5, m, 8)
    ensures s == MERGED
  {
    assert s[1..5][0] == s[1] && s[1..5][1] == s[2] && s[1..5][2] == s[3] && s[1..5][3] == s[4];
    assert s[5..8][0] == s[5] && s[5..8][1] == s[6] && s[5..8][2] == s[7];
  }

  lemma {:induction false} ThirdPass(a: Opt, b: Opt)
    requires a.s == MERGED && a.ip == 12 && a.mode == Run
    ensures !Pass(a, b)
  {
  }

  // Every pass over the first stream leaves the second.
  lemma {:induction false} ExampleMerged(s: seq<byte>, log: seq<Opt>)
    requires Rewritten(EXAMPLE, s, log)
    ensures s == MERGED
  {
    hide Pass, First, AtEnd;
    FirstPass(log[0], log[0]);
    assert |log| > 1 && Pass(log[0], log[0 + 1]);
    FirstPass(log[0], log[1]);
    SecondPass(log[1], log[1]);
    assert |log| > 2 && Pass(log[1], log[1 + 1]);
    SecondPass(log[1], log[2]);
    if |log| > 3 {
      assert Pass(log[2], log[2 + 1]);
      ThirdPass(log[2], log[3]);
    }
  }
}
