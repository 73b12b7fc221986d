/** cutstream and pastestream: a backup stream is cut into volumes and pasted together again. */
module StreamVolumes {
  import opened Bits

  const MAX_IO := 4096

  // A stdio stream: fread gives what it is asked for until the stream ends, and sets eof when
  // it comes short.
  class Source {
    var rest: seq<byte>
    var eof: bool

    constructor (data: seq<byte>)
      ensures rest == data && !eof
    {
      rest, eof := data, false;
    }

    method Read(n: nat) returns (data: seq<byte>)
      modifies this
      ensures data + rest == old(rest) && |data| <= n && (|data| == n || rest == [])
      ensures eof <==> old(eof) || |data| < n
    {
      var k := if n < |rest| then n else |rest|;
      data := rest[..k];
      rest := rest[k..];
      eof := eof || k < n;
    }
  }

  // The loop of fwrite calls around one read; a call may write any part of what it is given,
  // but not nothing.
  method WriteAll(data: seq<byte>, file: seq<byte>) returns (file': seq<byte>)
    ensures file' == file + data
  {
    file' := file;
    var progress: nat := 0;
    while progress < |data|
      invariant progress <= |data| && file' == file + data[..progress]
    {
      var k: nat :| 1 <= k <= |data| - progress;
      assert data[..progress + k] == data[..progress] + data[progress..progress + k];
      file' := file' + data[progress..progress + k];
      progress := progress + k;
    }
    assert data[..progress] == data;
  }

  // The first volume takes everything, or the others take something.
  predicate Ends(data: seq<byte>, cap: nat, max: nat)
  {
    max > 0 || |data| < cap
  }

  // The volumes of a stream: the first holds cap bytes, those behind it max.
  function Volumes(data: seq<byte>, cap: nat, max: nat): (v: seq<seq<byte>>)
    requires Ends(data, cap, max)
    ensures |v| > 0
    decreases |data|, if cap == 0 then 1 else 0
  {
    if |data| < cap then [data] else [data[..cap]] + Volumes(data[cap..], max, max)
  }

  lemma {:induction false} FlatCons(v: seq<byte>, vs: seq<seq<byte>>)
    ensures Flat([v] + vs) == v + Flat(vs)
  {
    if vs == [] {
      assert ([v] + vs)[..0] == [];
      assert Flat([v] + vs) == Flat([]) + v;
      assert [] + v == v + [];
    } else {
      var init, last := vs[..|vs| - 1], vs[|vs| - 1];
      FlatCons(v, init);
      assert ([v] + vs)[..|vs|] == [v] + init;
      assert (v + Flat(init)) + last == v + (Flat(init) + last);
    }
  }

  // Nothing is lost or moved.
  lemma {:induction false} VolumesConcat(data: seq<byte>, cap: nat, max: nat)
    requires Ends(data, cap, max)
    ensures Flat(Volumes(data, cap, max)) == data
    decreases |data|, if cap == 0 then 1 else 0
  {
    if |data| < cap {
      assert [data] == [data] + [];
      FlatCons(data, []);
      assert data + [] == data;
    } else {
      VolumesConcat(data[cap..], max, max);
      FlatCons(data[..cap], Volumes(data[cap..], max, max));
      assert data == data[..cap] + data[cap..];
    }
  }

  // Every volume that was cut has exactly its capacity, and the last is shorter.
  lemma {:induction false} VolumeSizes(data: seq<byte>, cap: nat, max: nat, i: nat)
    requires Ends(data, cap, max) && i < |Volumes(data, cap, max)|
    ensures var v, size := Volumes(data, cap, max), if i == 0 then cap else max;
            if i < |v| - 1 then |v[i]| == size else |v[i]| < size
    decreases |data|, if cap == 0 then 1 else 0
  {
    if |data| >= cap && i > 0 { VolumeSizes(data[cap..], max, max, i - 1); }
  }

  // What is cut, what is in the current volume and what is still to come make up the volumes.
  ghost predicate CutSoFar(data: seq<byte>, cap: nat, max: nat, done: seq<seq<byte>>, cur: seq<byte>, rest: seq<byte>,
      capacity: nat)
  {
    && Ends(data, cap, max) && Ends(cur + rest, capacity, max)
    && (|cur| < capacity || (cur == [] && capacity == 0))
    && Volumes(data, cap, max) == done + Volumes(cur + rest, capacity, max)
  }

  lemma {:induction false} CutVolume(data: seq<byte>, cap: nat, max: nat, done: seq<seq<byte>>, cur: seq<byte>,
      rest: seq<byte>, capacity: nat)
    requires Ends(data, cap, max) && Ends(cur + rest, capacity, max) && capacity == |cur|
    requires Volumes(data, cap, max) == done + Volumes(cur + rest, capacity, max)
    ensures CutSoFar(data, cap, max, done + [cur], [], rest, max)
  {
    assert (cur + rest)[..capacity] == cur && (cur + rest)[capacity..] == rest && [] + rest == rest;
    assert done + ([cur] + Volumes(rest, max, max)) == (done + [cur]) + Volumes(rest, max, max);
  }

  // The variables of the loop of filepipe, and one turn of it.
  datatype CutState = CutState(rest: seq<byte>, eof: bool, capacity: nat, i: nat, cuts: nat)

  function CutTurn(s: CutState, max: nat): CutState
    requires s.i <= s.capacity
  {
    var size := Min(MAX_IO, s.capacity - s.i);
    var k := Min(size, |s.rest|);
    var i, eof := s.i + k, s.eof || k < size;
    if i == s.capacity then CutState(s.rest[k..], eof, max, 0, s.cuts + 1)
    else CutState(s.rest[k..], eof, s.capacity, i, s.cuts)
  }

  // After n turns, or at the end of the stream.
  function After(s: CutState, max: nat, n: nat): (r: CutState)
    requires s.i <= s.capacity
    ensures r.i <= r.capacity
  {
    if n == 0 then s
    else
      var b := After(s, max, n - 1);
      if b.eof then b else CutTurn(b, max)
  }

  function CutStart(data: seq<byte>, cap: nat): CutState { CutState(data, false, cap, 0, 0) }

  // With nothing to fill, a turn changes nothing but the number of volumes.
  lemma {:induction false} EmptyVolume(rest: seq<byte>, cuts: nat)
    ensures CutTurn(CutState(rest, false, 0, 0, cuts), 0) == CutState(rest, false, 0, 0, cuts + 1)
  {
  }

  lemma {:induction false} NeverEnds(data: seq<byte>, cap: nat, n: nat)
    requires |data| >= cap
    ensures var s := After(CutStart(data, cap), 0, n); !s.eof && |s.rest| >= s.capacity - s.i
  {
    if n != 0 { NeverEnds(data, cap, n - 1); }
  }

  lemma {:induction false} Reaches(s: CutState, max: nat) returns (n: nat)
    requires s.i <= s.capacity && (max > 0 || |s.rest| < s.capacity - s.i)
    ensures After(s, max, n).eof
    decreases |s.rest|, if s.capacity == s.i then 1 else 0, !s.eof
  {
    if s.eof {
      n := 0;
    } else {
      n := Reaches(CutTurn(s, max), max);
      FirstTurn(s, max, n);
      n := n + 1;
    }
  }

  lemma {:induction false} FirstTurn(s: CutState, max: nat, n: nat)
    requires s.i <= s.capacity && !s.eof
    ensures After(s, max, n + 1) == After(CutTurn(s, max), max, n)
  {
    if n != 0 { FirstTurn(s, max, n - 1); }
  }

  // The loop comes to the end of the stream exactly if the volumes behind the first hold something
  // or the stream does not fill the first.
  lemma {:induction false} EndsExactly(data: seq<byte>, cap: nat, max: nat)
    ensures (exists n: nat :: After(CutStart(data, cap), max, n).eof) <==> Ends(data, cap, max)
  {
    if Ends(data, cap, max) {
      var n := Reaches(CutStart(data, cap), max);
    } else {
      forall n: nat ensures !After(CutStart(data, cap), max, n).eof { NeverEnds(data, cap, n); }
    }
  }

  lemma {:induction false} NoTurn(s: CutState, max: nat)
    requires s.i <= s.capacity
    ensures After(s, max, 0) == s
  {
  }

  lemma {:induction false} LastVolume(cur: seq<byte>, capacity: nat, max: nat)
    requires |cur| < capacity
    ensures Volumes(cur, capacity, max) == [cur]
  {
  }

  // A turn in which x was read.
  lemma {:induction false} TurnIs(data: seq<byte>, cap: nat, max: nat, n: nat, s: CutState, x: seq<byte>,
      rest: seq<byte>,
      eof: bool)
    requires s == After(CutStart(data, cap), max, n) && !s.eof && x + rest == s.rest
    requires var size := if MAX_IO > s.capacity - s.i then s.capacity - s.i else MAX_IO;
             |x| <= size && (|x| == size || rest == []) && (eof <==> |x| < size)
    ensures After(CutStart(data, cap), max, n + 1)
            == if s.i + |x| == s.capacity then CutState(rest, eof, max, 0, s.cuts + 1)
               else CutState(rest, eof, s.capacity, s.i + |x|, s.cuts)
  {
    assert s.rest[|x|..] == rest;
  }

  // The stream has ended after n turns, and so many volumes were cut.
  ghost predicate Stops(data: seq<byte>, cap: nat, max: nat, n: nat, cuts: nat)
  {
    After(CutStart(data, cap), max, n).eof && After(CutStart(data, cap), max, n).cuts == cuts
  }

  ghost predicate Cuts(data: seq<byte>, cap: nat, max: nat, cuts: nat)
  {
    exists n: nat :: Stops(data, cap, max, n, cuts)
  }

  // filepipe of cutstream: the volumes of the stream, cut at capacity Kbytes and then at maxK
  // Kbytes, with the volume number raised at each cut.
  method Cut(src: Source, capacityK: nat, maxK: nat, volno: nat) returns (volumes: seq<seq<byte>>, volno': nat)
    requires Ends(src.rest, 1024 * capacityK, 1024 * maxK) && !src.eof
    modifies src
    ensures volumes == old(Volumes(src.rest, 1024 * capacityK, 1024 * maxK))
    ensures volno' == volno + |volumes| - 1
    ensures Cuts(old(src.rest), 1024 * capacityK, 1024 * maxK, |volumes| - 1)
  {
    hide Volumes, After;
    ghost var data: seq<byte>, cap: nat, max: nat, n: nat := src.rest, 1024 * capacityK, 1024 * maxK, 0;
    NoTurn(CutStart(data, cap), max);
    var done: seq<seq<byte>>, cur: seq<byte>, i: nat := [], [], 0;
    var capacity: nat := 1024 * capacityK;
    volno' := volno;
    assert cur + src.rest == data && done + Volumes(data, cap, max) == Volumes(data, cap, max);
    while !src.eof
      invariant CutSoFar(data, cap, max, done, cur, src.rest, capacity) && i == |cur|
      invariant volno' == volno + |done| && (src.eof ==> src.rest == [] && |cur| < capacity)
      invariant CutState(src.rest, src.eof, capacity, i, |done|) == After(CutStart(data, cap), max, n)
      decreases |src.rest|, if capacity == 0 then 1 else 0, !src.eof
    {
      var size := if MAX_IO > capacity - i then capacity - i else MAX_IO;
      ghost var cur0, rest0, s := cur, src.rest, CutState(src.rest, src.eof, capacity, i, |done|);
      var x := src.Read(size);
      cur := WriteAll(x, cur);
      assert cur + src.rest == cur0 + rest0;
      TurnIs(data, cap, max, n, s, x, src.rest, src.eof);
      i := i + |x|;
      if i == capacity {
        CutVolume(data, cap, max, done, cur, src.rest, capacity);
        volno' := volno' + 1;
        done, cur, i := done + [cur], [], 0;
        capacity := 1024 * maxK;
      }
      n := n + 1;
    }
    assert cur + src.rest == cur;
    LastVolume(cur, capacity, max);
    assert Volumes(data, cap, max) == done + Volumes(cur, capacity, max);
    volumes := done + [cur];
    assert Stops(data, cap, max, n, |volumes| - 1);
  }

  // filepipe of pastestream.
  method Copy(volume: seq<byte>, out: seq<byte>) returns (out': seq<byte>)
    ensures out' == out + volume
  {
    var src := new Source(volume);
    out' := out;
    while !src.eof
      invariant out' + src.rest == out + volume && fresh(src) && (src.eof ==> src.rest == [])
      decreases |src.rest|, !src.eof
    {
      ghost var out0, rest0 := out', src.rest;
      var x := src.Read(MAX_IO);
      out' := WriteAll(x, out');
      assert out' + src.rest == out0 + rest0;
    }
    assert out' + [] == out';
  }

  // The volumes as they are asked for, each with the flag whether more are to come.
  datatype Round = Round(more: bool, volume: seq<byte>)

  // How many rounds the program makes; none if the volumes run out first.
  function Rounds(rounds: seq<Round>): (n: nat)
    ensures n <= |rounds|
  {
    if rounds == [] then 0
    else if !rounds[0].more then 1
    else if Rounds(rounds[1..]) == 0 then 0 else 1 + Rounds(rounds[1..])
  }

  function VolumesOf(rounds: seq<Round>): (v: seq<seq<byte>>)
    ensures |v| == |rounds|
  {
    seq(|rounds|, i requires 0 <= i < |rounds| => rounds[i].volume)
  }

  // The loop over the volumes; false where a volume cannot be opened.
  method Paste(rounds: seq<Round>) returns (ok: bool, out: seq<byte>)
    ensures ok <==> Rounds(rounds) > 0
    ensures ok ==> out == Flat(VolumesOf(rounds[..Rounds(rounds)]))
  {
    out, ok := [], false;
    var i: nat, more := 0, true;
    while more
      invariant i <= |rounds| && out == Flat(VolumesOf(rounds[..i]))
      invariant more ==> (Rounds(rounds) > 0 <==> Rounds(rounds[i..]) > 0)
                         && (Rounds(rounds[i..]) > 0 ==> Rounds(rounds) == i + Rounds(rounds[i..]))
      invariant !more ==> Rounds(rounds) == i > 0
      decreases |rounds| - i, more
    {
      if i == |rounds| {
        return;
      }
      more := rounds[i].more;
      out := Copy(rounds[i].volume, out);
      assert VolumesOf(rounds[..i + 1])[..i] == VolumesOf(rounds[..i]);
      assert rounds[i..][1..] == rounds[i + 1..];
      i := i + 1;
    }
    ok := true;
  }

  // The rounds for a list of volumes: more are to come until the last.
  function RoundsFor(vs: seq<seq<byte>>): (r: seq<Round>)
    ensures |r| == |vs|
  {
    seq(|vs|, i requires 0 <= i < |vs| => Round(i < |vs| - 1, vs[i]))
  }

  lemma {:induction false} RoundsForAll(vs: seq<seq<byte>>)
    requires vs != []
    ensures Rounds(RoundsFor(vs)) == |vs|
  {
    if |vs| > 1 {
      assert RoundsFor(vs)[1..] == RoundsFor(vs[1..]);
      RoundsForAll(vs[1..]);
    }
  }

  // Cutting a stream and pasting the volumes in order gives the stream back.
  method CutAndPaste(data: seq<byte>, capacityK: nat, maxK: nat, volno: nat) returns (ok: bool, out: seq<byte>)
    requires Ends(data, 1024 * capacityK, 1024 * maxK)
    ensures ok && out == data
  {
    var src := new Source(data);
    var volumes, volno' := Cut(src, capacityK, maxK, volno);
    VolumesConcat(data, 1024 * capacityK, 1024 * maxK);
    RoundsForAll(volumes);
    ok, out := Paste(RoundsFor(volumes));
    assert RoundsFor(volumes)[..|volumes|] == RoundsFor(volumes);
    assert VolumesOf(RoundsFor(volumes)) == volumes;
  }
}
