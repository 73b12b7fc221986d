/** implantisomd5 and checkisomd5: the sum of an ISO 9660 image, kept in the application area of
    its primary volume descriptor, is found again by the checker. */
module IsoSum {
  import opened Bits
  import opened Md5

  const SECTOR := 2048
  const CHUNK := 32768
  const APPDATA := 883
  const SIZE_AT := 84
  const SKIPPED := 307200
  const BLANK: byte := 32

  // Reads of whole sectors are full.
  predicate FullRead(data: seq<byte>)
  {
    |data| % 2048 == 0
  }

  // The sector of the primary volume descriptor (section 8.4 of ECMA-119), from sector s on.
  function PvdFrom(data: seq<byte>, s: nat): (r: Option<nat>)
    ensures r.Some? ==> s <= r.value && 2048 * r.value < |data| && data[2048 * r.value] == 1
    decreases |data| - 2048 * s
  {
    if 2048 * s >= |data| then None
    else if data[2048 * s] == 1 then Some(s)
    else if data[2048 * s] == 255 then None
    else PvdFrom(data, s + 1)
  }

  // parsepvd
  method ParsePvd(data: seq<byte>) returns (r: Option<nat>)
    ensures r == PvdFrom(data, 16)
  {
    var s: nat := 16;
    while 2048 * s < |data|
      invariant PvdFrom(data, s) == PvdFrom(data, 16)
      decreases |data| - 2048 * s
    {
      if data[2048 * s] == 1 {
        return Some(s);
      } else if data[2048 * s] == 255 {
        return None;
      }
      s := s + 1;
    }
    r := None;
  }

  // The number of bytes that the sum covers: the volume space size (section 8.4.8) as a 32-bit
  // signed number of sectors, without the last 150.
  function Region(data: seq<byte>, s: nat): int
    requires FullRead(data) && 2048 * s < |data|
  {
    var at := 2048 * s + SIZE_AT;
    var b0: nat, b1: nat, b2: nat, b3: nat := data[at], data[at + 1], data[at + 2], data[at + 3];
    var n := b0 * 0x100_0000 + b1 * 0x1_0000 + b2 * 0x100 + b3;
    (if n < 0x8000_0000 then n else n - WORD) * 2048 - SKIPPED
  }

  function Spaces(n: nat): (s: seq<byte>)
    ensures |s| == n
  {
    seq(n, i => BLANK)
  }

  function HexDigit(n: nat): (c: byte)
    requires n < 16
    ensures c != BLANK && c != 0
  {
    if n < 10 then 48 + n else 87 + n
  }

  // Two hexadecimal digits a byte.
  function Hex(d: seq<byte>): (s: seq<byte>)
    ensures |s| == 2 * |d| && forall i :: 0 <= i < |s| ==> s[i] != BLANK && s[i] != 0
  {
    if d == [] then [] else Hex(d[..|d| - 1]) + [HexDigit(d[|d| - 1] / 16), HexDigit(d[|d| - 1] % 16)]
  }

  const TITLE: seq<byte> := Text("ISO MD5SUM = ")
  const NOTE: seq<byte> := Text("THIS IS NOT THE SAME AS RUNNING MD5SUM ON THIS ISO!")

  lemma {:induction false} HexDigits()
    ensures seq(16, n requires 0 <= n < 16 => HexDigit(n)) == Text("0123456789abcdef")
  {
  }

  // The application area with a sum: a title, the sum with its terminator, and a note.
  function AppData(sum: seq<byte>): (a: seq<byte>)
    requires |sum| == 32
    ensures |a| == 512 && a[13..45] == sum && a[0] != BLANK && a[97] != BLANK
            && forall i :: 98 <= i < 512 ==> a[i] == BLANK
  {
    var a := TITLE + sum + [0] + [BLANK] + NOTE + Spaces(414);
    assert a[13..45] == sum;
    a
  }

  // What the implanter hashes: the region, or the whole image where the 32-bit count of the
  // bytes read never gets to the end of the region.
  function Implanter(data: seq<byte>, region: int): nat
  {
    if region <= 0 then 0 else if region < WORD && region < |data| then region else |data|
  }

  predicate Blank(data: seq<byte>, s: nat)
    requires FullRead(data) && 2048 * s < |data|
  {
    forall i :: 2048 * s + APPDATA <= i < 2048 * s + APPDATA + 512 ==> data[i] == BLANK
  }

  function WithAppData(data: seq<byte>, s: nat, a: seq<byte>): (r: seq<byte>)
    requires FullRead(data) && 2048 * s < |data| && |a| == 512
    ensures |r| == |data|
  {
    var at := 2048 * s + APPDATA;
    data[..at] + a + data[at + 512..]
  }

  function ImplantSum(f: Transform, data: seq<byte>, s: nat): (sum: seq<byte>)
    requires FullRead(data) && 2048 * s < |data|
    ensures |sum| == 32
  {
    Hex(Digest(f, data[..Implanter(data, Region(data, s))]))
  }

  function Implanted(f: Transform, data: seq<byte>, s: nat): (r: seq<byte>)
    requires FullRead(data) && 2048 * s < |data|
    ensures |r| == |data|
  {
    WithAppData(data, s, AppData(ImplantSum(f, data, s)))
  }

  // The volume space size is at 84, most significant byte first (section 8.4.8 of ECMA-119, which
  // counts from 1).
  lemma {:induction false} RegionSize(data: seq<byte>, s: nat, sectors: nat)
    requires FullRead(data) && 2048 * s < |data| && sectors < 0x8000_0000
    requires var at := 2048 * s + 84; ValueOf([data[at + 3], data[at + 2], data[at + 1], data[at]]) == sectors
    ensures Region(data, s) == 2048 * (sectors - 150)
  {
    var at := 2048 * s + 84;
    FourBack(data[at], data[at + 1], data[at + 2], data[at + 3]);
  }

  lemma {:induction false} FourBack(a: byte, b: byte, c: byte, d: byte)
    ensures var x: nat, y: nat, z: nat := b, c, d;
            ValueOf([d, c, b, a]) == a * 0x100_0000 + x * 0x1_0000 + y * 0x100 + z
  {
    var s1: seq<byte>, s2: seq<byte>, s3: seq<byte>, s4: seq<byte> := [a], [b, a], [c, b, a], [d, c, b, a];
    assert s4[1..] == s3 && s3[1..] == s2 && s2[1..] == s1;
    assert ValueOf(s1) == a && ValueOf(s2) == b + 0x100 * (a as nat);
  }

  // The application use area is at 883 (section 8.4.32). It is written whole and nothing else is.
  lemma {:induction false} NoteAt(f: Transform, data: seq<byte>, s: nat)
    requires FullRead(data) && 2048 * s < |data|
    ensures var at, r := 2048 * s + 883, Implanted(f, data, s);
            && r[..at] == data[..at] && r[at + 512..] == data[at + 512..]
            && r[at..at + 512] == AppData(ImplantSum(f, data, s))
  {
  }

  lemma {:induction false} NoteText(sum: seq<byte>)
    requires |sum| == 32
    ensures var a := AppData(sum);
            && a[..13] == Text("ISO MD5SUM = ") && a[13..45] == sum && a[45..47] == [0, 32]
            && a[47..98] == Text("THIS IS NOT THE SAME AS RUNNING MD5SUM ON THIS ISO!")
            && forall i :: 98 <= i < 512 ==> a[i] == 32
  {
  }

  // Where the implanter stands after pos bytes of size, with its 32-bit total of them.
  ghost predicate Reading(region: int, size: nat, total: nat, pos: nat)
  {
    forall k {:trigger Open(k)} :: Open(k) ==>
      && size % 2048 == 0 && region % 2048 == 0 && pos % 2048 == 0 && pos <= size && total == pos % WORD
      && (0 < region < WORD ==> pos <= region) && (region <= 0 ==> pos == 0)
  }

  lemma {:induction false} ReadStep(region: int, size: nat, total: nat, pos: nat)
    requires Reading(region, size, total, pos) && total < region && pos != size
    ensures Reading(region, size, (total + 2048) % WORD, pos + 2048) && pos + 2048 <= size
  {
    assert Open(0);
  }

  lemma {:induction false} ReadDone(region: int, data: seq<byte>, total: nat, pos: nat)
    requires Reading(region, |data|, total, pos) && (total >= region || pos == |data|)
    ensures pos == Implanter(data, region)
  {
    assert Open(0);
  }

  class Image {
    var data: seq<byte>

    // The hashing loop of implantisomd5.
    method HashRegion(f: Transform, region: int) returns (digest: seq<byte>)
      requires FullRead(data) && region % 2048 == 0
      ensures digest == Digest(f, data[..Implanter(data, region)])
    {
      var ctx := new Context(f);
      var total: nat, pos: nat := 0, 0;
      while total < region && pos != |data|
        invariant ctx.Valid() && ctx.transform == f && fresh(ctx) && fresh(ctx.input)
        invariant pos <= |data| && ctx.fed == data[..pos] && Reading(region, |data|, total, pos)
        decreases |data| - pos
      {
        ReadStep(region, |data|, total, pos);
        ctx.Update(data[pos..pos + 2048]);
        assert data[..pos + 2048] == data[..pos] + data[pos..pos + 2048];
        pos := pos + 2048;
        total := (total + 2048) % WORD;
      }
      ReadDone(region, data, total, pos);
      digest := ctx.Final();
    }

    // implantisomd5 without -f: it refuses an image with no descriptor or whose application
    // area is in use.
    method Implant(f: Transform) returns (ok: bool)
      requires FullRead(data)
      modifies this
      ensures ok <==> old(PvdFrom(data, 16).Some? && Blank(data, PvdFrom(data, 16).value))
      ensures ok ==> data == Implanted(f, old(data), old(PvdFrom(data, 16).value))
      ensures !ok ==> data == old(data)
    {
      var pvd := ParsePvd(data);
      if pvd.None? {
        return false;
      }
      var at := 2048 * pvd.value + APPDATA;
      if exists i :: at <= i < at + 512 && data[i] != BLANK {
        return false;
      }
      var digest := HashRegion(f, Region(data, pvd.value));
      data := WithAppData(data, pvd.value, AppData(Hex(digest)));
      ok := true;
    }
  }

  // memset with spaces from a to b.
  function Erased(buf: seq<byte>, a: nat, b: nat): (r: seq<byte>)
    requires a <= b <= |buf|
    ensures |r| == |buf|
  {
    buf[..a] + Spaces(b - a) + buf[b..]
  }

  // A chunk read at offset with the application area at apoff erased; none where the length of
  // the memset is negative.
  function EraseChunk(buf: seq<byte>, offset: nat, apoff: nat): (r: Option<seq<byte>>)
    ensures r.Some? ==> |r.value| == |buf|
  {
    var n := |buf|;
    if offset < apoff && offset + n >= apoff then
      var start := apoff - offset;
      var end := Min(start + Min(n, 512), offset + n - apoff);
      if end < start then None else Some(Erased(buf, start, end))
    else if offset >= apoff && offset + n < apoff + 512 then Some(Erased(buf, 0, n))
    else if offset < apoff + 512 && offset + n >= apoff + 512 then Some(Erased(buf, 0, apoff + 512 - offset))
    else Some(buf)
  }

  // The bytes the checker reads at once.
  function Attempt(data: seq<byte>, region: int, offset: nat): (n: nat)
    requires offset < region && offset < |data|
    ensures 1 <= n <= CHUNK && offset + n <= |data| && offset + n <= region
  {
    Min(Min(region - offset, CHUNK), |data| - offset)
  }

  // What the checker hashes from offset on.
  function Checked(data: seq<byte>, region: int, apoff: nat, offset: nat): Option<seq<byte>>
    decreases |data| - offset
  {
    if offset >= region || offset >= |data| then Some([])
    else
      var n := Attempt(data, region, offset);
      Join(EraseChunk(data[offset..offset + n], offset, apoff), Checked(data, region, apoff, offset + n))
  }

  function Join(a: Option<seq<byte>>, b: Option<seq<byte>>): Option<seq<byte>>
  {
    if a.Some? && b.Some? then Some(a.value + b.value) else None
  }

  // The sum read from the image is all spaces, up to its end.
  predicate NoSum(m: seq<byte>)
  {
    m == [] || m[0] == 0 || (m[0] == BLANK && NoSum(m[1..]))
  }

  function MediaSum(data: seq<byte>, s: nat): (m: seq<byte>)
    requires FullRead(data) && 2048 * s < |data|
    ensures |m| == 32
  {
    data[2048 * s + APPDATA + 13..2048 * s + APPDATA + 45]
  }

  // The result of the checker, or that it writes outside its buffer.
  datatype Outcome = Missing | Differs | Matches | Overrun

  function Outcomes(f: Transform, data: seq<byte>): Outcome
    requires FullRead(data)
  {
    var pvd := PvdFrom(data, 16);
    if pvd.None? || NoSum(MediaSum(data, pvd.value)) then Missing
    else
      var fed := Checked(data, Region(data, pvd.value), 2048 * pvd.value + APPDATA, 0);
      if fed.None? then Overrun
      else if MediaSum(data, pvd.value) == Hex(Digest(f, fed.value)) then Matches
      else Differs
  }

  // Erasing in the buffer itself.
  method EraseInPlace(buf: array<byte>, n: nat, offset: nat, apoff: nat) returns (ok: bool)
    requires n <= buf.Length
    modifies buf
    ensures ok <==> EraseChunk(old(buf[..n]), offset, apoff).Some?
    ensures ok ==> buf[..n] == EraseChunk(old(buf[..n]), offset, apoff).value
  {
    hide Erased;
    var start: int, end: int := 0, 0;
    ghost var was := buf[..n];
    if offset < apoff && offset + n >= apoff {
      start := apoff - offset;
      end := Min(start + Min(n, 512), offset + n - apoff);
    } else if offset >= apoff && offset + n < apoff + 512 {
      end := n;
    } else if offset < apoff + 512 && offset + n >= apoff + 512 {
      end := apoff + 512 - offset;
    } else {
      NothingErased(was);
    }
    if end < start {
      return false;
    }
    Erase(buf, n, start, end);
    ok := true;
  }

  lemma {:induction false} NothingErased(buf: seq<byte>)
    ensures Erased(buf, 0, 0) == buf
  {
  }

  // memset
  method Erase(buf: array<byte>, n: nat, start: nat, end: nat)
    requires start <= end <= n <= buf.Length
    modifies buf
    ensures buf[..n] == Erased(old(buf[..n]), start, end)
  {
    forall i | start <= i < end { buf[i] := BLANK; }
  }

  method ReadChunk(data: seq<byte>, offset: nat, n: nat, buf: array<byte>)
    requires offset + n <= |data| && n <= buf.Length
    modifies buf
    ensures buf[..n] == data[offset..offset + n]
  {
    forall i | 0 <= i < n { buf[i] := data[offset + i]; }
  }

  lemma {:induction false} JoinAssoc(a: seq<byte>, b: seq<byte>, c: Option<seq<byte>>)
    ensures Join(Some(a), Join(Some(b), c)) == Join(Some(a + b), c)
  {
    if c.Some? { assert a + (b + c.value) == (a + b) + c.value; }
  }

  lemma {:induction false} JoinUnit(a: seq<byte>, c: Option<seq<byte>>)
    ensures Join(Some([]), c) == c && Join(Some(a), Some([])) == Some(a)
  {
    assert a + [] == a;
    if c.Some? { assert [] + c.value == c.value; }
  }

  // What is fed and what is still to come make up what the checker hashes.
  ghost predicate FedSoFar(data: seq<byte>, region: int, apoff: nat, offset: nat, fed: seq<byte>)
  {
    forall k {:trigger Open(k)} :: Open(k) ==> Checked(data, region, apoff, 0)
                                               == Join(Some(fed), Checked(data, region, apoff, offset))
  }

  lemma {:induction false} FedStart(data: seq<byte>, region: int, apoff: nat)
    ensures FedSoFar(data, region, apoff, 0, [])
  {
    JoinUnit([], Checked(data, region, apoff, 0));
  }

  lemma {:induction false} FedStep(data: seq<byte>, region: int, apoff: nat, offset: nat, fed: seq<byte>, n: nat,
      chunk: Option<seq<byte>>)
    requires FedSoFar(data, region, apoff, offset, fed) && offset < region && offset < |data|
             && n == Attempt(data, region, offset)
    requires chunk == EraseChunk(data[offset..offset + n], offset, apoff)
    ensures chunk.Some? ==> FedSoFar(data, region, apoff, offset + n, fed + chunk.value)
    ensures chunk.None? ==> Checked(data, region, apoff, 0).None?
  {
    assert Open(0);
    if chunk.Some? { JoinAssoc(fed, chunk.value, Checked(data, region, apoff, offset + n)); }
  }

  lemma {:induction false} FedEnd(data: seq<byte>, region: int, apoff: nat, offset: nat, fed: seq<byte>)
    requires FedSoFar(data, region, apoff, offset, fed) && (offset >= region || offset >= |data|)
    ensures Checked(data, region, apoff, 0) == Some(fed)
  {
    assert Open(0);
    JoinUnit(fed, Some([]));
  }

  // The hashing loop of checkmd5sum; none where it overruns its buffer.
  method HashChecked(f: Transform, data: seq<byte>, region: int, apoff: nat) returns (digest: Option<seq<byte>>)
    ensures var fed := Checked(data, region, apoff, 0); digest == if fed.Some? then Some(Digest(f, fed.value)) else None
  {
    var ctx := new Context(f);
    var buf := new byte[CHUNK];
    var offset: nat := 0;
    FedStart(data, region, apoff);
    while offset < region && offset < |data|
      invariant ctx.Valid() && ctx.transform == f && fresh(ctx) && fresh(ctx.input) && fresh(buf) && buf != ctx.input
      invariant FedSoFar(data, region, apoff, offset, ctx.fed)
      decreases |data| - offset
    {
      var n := Attempt(data, region, offset);
      ReadChunk(data, offset, n, buf);
      FedStep(data, region, apoff, offset, ctx.fed, n, EraseChunk(buf[..n], offset, apoff));
      var ok := EraseInPlace(buf, n, offset, apoff);
      if !ok {
        return None;
      }
      ctx.Update(buf[..n]);
      offset := offset + n;
    }
    FedEnd(data, region, apoff, offset, ctx.fed);
    var d := ctx.Final();
    digest := Some(d);
  }

  // checkmd5sum
  method Check(f: Transform, data: seq<byte>) returns (r: Outcome)
    requires FullRead(data)
    ensures r == Outcomes(f, data)
  {
    var pvd := ParsePvd(data);
    if pvd.None? || NoSum(MediaSum(data, pvd.value)) {
      return Missing;
    }
    var digest := HashChecked(f, data, Region(data, pvd.value), 2048 * pvd.value + APPDATA);
    if digest.None? {
      return Overrun;
    }
    r := if MediaSum(data, pvd.value) == Hex(digest.value) then Matches else Differs;
  }

  // How many bytes the checker covers.
  function Covered(data: seq<byte>, region: int): (h: nat)
    ensures h <= |data|
  {
    if region <= 0 then 0 else Min(region, |data|)
  }

  // The length of the chunk that holds sector s.
  function ChunkOf(s: nat, h: nat): int
  {
    Min(CHUNK, h - CHUNK * (s / 16))
  }

  // The distance from the start of its chunk to the application area of sector s.
  function StartIn(s: nat): nat
  {
    2048 * (s % 16) + APPDATA
  }

  // The part of the application area that is erased reaches behind the note.
  ghost predicate ErasesEnough(s: nat, h: nat)
  {
    2048 * s < h ==> 2 * StartIn(s) + 98 <= ChunkOf(s, h)
  }

  // The descriptor at sector 16, as every image has it, is always early enough in its chunk.
  lemma {:induction false} Sector16(h: nat)
    requires h % 2048 == 0
    ensures ErasesEnough(16, h)
  {
    if 32768 < h { assert h >= 32768 + 2048; }
  }

  // Two images that agree but for the first 98 bytes of the application area of sector s.
  ghost predicate AgreeBut(data: seq<byte>, data': seq<byte>, s: nat)
  {
    && FullRead(data) && |data'| == |data| && 2048 * s < |data|
    && forall i :: 0 <= i < |data| && !(2048 * s + APPDATA <= i < 2048 * s + APPDATA + 98) ==> data'[i] == data[i]
  }

  // Erasing a chunk that holds the application area brings back the blanks.
  lemma {:induction false} EraseInside(data: seq<byte>, data': seq<byte>, s: nat, offset: nat, n: nat)
    requires AgreeBut(data, data', s) && Blank(data, s) && offset + n <= |data|
    requires var start := 2048 * s + APPDATA - offset; 0 < start && 2 * start + 98 <= n
    ensures EraseChunk(data'[offset..offset + n], offset, 2048 * s + APPDATA) == Some(data[offset..offset + n])
  {
    var start := 2048 * s + APPDATA - offset;
    var end := Min(start + Min(n, 512), n - start);
    var r := Erased(data'[offset..offset + n], start, end);
    forall i | 0 <= i < n ensures r[i] == data[offset..offset + n][i] {
      if i < start {
        assert r[i] == data'[offset + i];
      } else if i < end {
        assert data[offset + i] == BLANK;
      } else {
        assert r[i] == data'[offset + i];
      }
    }
    assert r == data[offset..offset + n];
  }

  // A chunk without it is left alone.
  lemma {:induction false} EraseOutside(data: seq<byte>, data': seq<byte>, s: nat, offset: nat, n: nat)
    requires AgreeBut(data, data', s) && offset + n <= |data|
    requires offset + n <= 2048 * s || 2048 * (s + 1) <= offset
    ensures EraseChunk(data'[offset..offset + n], offset, 2048 * s + APPDATA) == Some(data[offset..offset + n])
  {
    assert data'[offset..offset + n] == data[offset..offset + n];
  }

  // The checker hashes what the image was before.
  lemma {:induction false} CheckedBack(data: seq<byte>, data': seq<byte>, region: int, s: nat, c: nat)
    requires AgreeBut(data, data', s) && Blank(data, s) && region % 2048 == 0
    requires ErasesEnough(s, Covered(data, region)) && 32768 * c <= Covered(data, region)
    ensures Checked(data', region, 2048 * s + APPDATA, 32768 * c) == Some(data[32768 * c..Covered(data, region)])
    decreases Covered(data, region) - 32768 * c
  {
    var h, offset := Covered(data, region), 32768 * c;
    if offset < h {
      var n := Attempt(data', region, offset);
      assert n == Min(32768, h - offset);
      ChunkPlace(s, h, c, n);
      if offset <= 2048 * s < offset + n {
        EraseInside(data, data', s, offset, n);
      } else {
        EraseOutside(data, data', s, offset, n);
      }
      if n == 32768 {
        CheckedBack(data, data', region, s, c + 1);
      }
      assert data[offset..h] == data[offset..offset + n] + data[offset + n..h];
    }
  }

  // Where sector s lies with respect to chunk c.
  lemma {:induction false} ChunkPlace(s: nat, h: nat, c: nat, n: nat)
    requires h % 2048 == 0 && 32768 * c < h && n == Min(32768, h - 32768 * c)
    ensures n % 2048 == 0
    ensures 32768 * c <= 2048 * s < 32768 * c + n ==> c == s / 16 && n == ChunkOf(s, h)
                                                      && StartIn(s) == 2048 * s + APPDATA - 32768 * c && 2048 * s < h
    ensures !(32768 * c <= 2048 * s < 32768 * c + n) ==> 32768 * c + n <= 2048 * s || 2048 * (s + 1) <= 32768 * c
  {
    hide StartIn, ChunkOf;
    WholeSectors(h, c);
    if 32768 * c <= 2048 * s < 32768 * c + n {
      PlaceIn(s, h, c);
    } else if 2048 * s < 32768 * c {
      assert s + 1 <= 16 * c;
    }
  }

  lemma {:induction false} WholeSectors(h: nat, c: nat)
    requires h % 2048 == 0 && 32768 * c < h
    ensures (h - 32768 * c) % 2048 == 0
  {
  }

  lemma {:induction false} PlaceIn(s: nat, h: nat, c: nat)
    requires 16 * c <= s < 16 * c + 16
    ensures s / 16 == c && ChunkOf(s, h) == Min(32768, h - 32768 * c) && StartIn(s) == 2048 * s + APPDATA - 32768 * c
  {
    assert s / 16 == c && s % 16 == s - 16 * c;
  }

  lemma {:induction false} PvdSame(data: seq<byte>, data': seq<byte>, s: nat, k: nat)
    requires AgreeBut(data, data', s)
    ensures PvdFrom(data', k) == PvdFrom(data, k)
    decreases |data| - 2048 * k
  {
    if 2048 * k < |data| {
      assert data'[2048 * k] == data[2048 * k] by {
        assert !(2048 * s + APPDATA <= 2048 * k < 2048 * s + APPDATA + 98);
      }
      PvdSame(data, data', s, k + 1);
    }
  }

  lemma {:induction false} RegionSame(data: seq<byte>, data': seq<byte>, s: nat)
    requires AgreeBut(data, data', s)
    ensures Region(data', s) == Region(data, s)
  {
    var at := 2048 * s + SIZE_AT;
    assert data'[at] == data[at] && data'[at + 1] == data[at + 1] && data'[at + 2] == data[at + 2]
           && data'[at + 3] == data[at + 3];
  }

  lemma {:induction false} ImplantedAgrees(f: Transform, data: seq<byte>, s: nat)
    requires FullRead(data) && 2048 * s < |data| && Blank(data, s)
    ensures AgreeBut(data, Implanted(f, data, s), s) && MediaSum(Implanted(f, data, s), s) == ImplantSum(f, data, s)
  {
    hide ImplantSum, AppData;
    var a, at := AppData(ImplantSum(f, data, s)), 2048 * s + APPDATA;
    var data' := WithAppData(data, s, a);
    assert data'[at + 13..at + 45] == a[13..45];
    forall i | 0 <= i < |data| && !(at <= i < at + 98) ensures data'[i] == data[i] {
      if at + 98 <= i < at + 512 { assert data'[i] == a[i - at]; }
    }
  }

  lemma {:induction false} SumMatches(f: Transform, data: seq<byte>, s: nat, fed: seq<byte>)
    requires FullRead(data) && PvdFrom(data, 16) == Some(s) && MediaSum(data, s) == Hex(Digest(f, fed))
    requires Checked(data, Region(data, s), 2048 * s + APPDATA, 0) == Some(fed)
    ensures Outcomes(f, data) == Matches
  {
    assert !NoSum(Hex(Digest(f, fed)));
  }

  // The checker of the new image hashes what the implanter of the old one did.
  lemma {:induction false} HashesAgree(data: seq<byte>, data': seq<byte>, region: int, s: nat)
    requires AgreeBut(data, data', s) && Blank(data, s) && region % 2048 == 0
    requires ErasesEnough(s, Covered(data, region)) && (region < WORD || |data| <= region)
    ensures Checked(data', region, 2048 * s + APPDATA, 0) == Some(data[..Implanter(data, region)])
  {
    CheckedBack(data, data', region, s, 0);
    assert data[0..Covered(data, region)] == data[..Implanter(data, region)];
  }

  lemma {:induction false} CheckedLength(data: seq<byte>, region: int, apoff: nat, offset: nat)
    ensures var r, h := Checked(data, region, apoff, offset), Covered(data, region);
            r.Some? ==> |r.value| == if offset < h then h - offset else 0
    decreases |data| - offset
  {
    if offset < region && offset < |data| {
      CheckedLength(data, region, apoff, offset + Attempt(data, region, offset));
    }
  }

  // Sectors are too coarse for anything between: either the erasing reaches behind the note or
  // its length is negative.
  lemma {:induction false} AllOrNothing(s: nat, h: nat)
    requires h % 2048 == 0 && 2048 * s < h
    ensures 2 * StartIn(s) + 98 <= ChunkOf(s, h) || ChunkOf(s, h) < 2 * StartIn(s)
  {
    var n := ChunkOf(s, h) / 2048;
    assert ChunkOf(s, h) == 2048 * n;
  }

  // The checker of the implanted image hashes the bytes that the implanter hashed exactly if
  // enough is erased and the 32-bit count gets through the region.
  lemma {:induction false} HashesAgreeExactly(f: Transform, data: seq<byte>, s: nat, region: int)
    requires FullRead(data) && 2048 * s < |data| && Blank(data, s) && region % 2048 == 0
    ensures Checked(Implanted(f, data, s), region, 2048 * s + APPDATA, 0) == Some(data[..Implanter(data, region)])
      <==> ErasesEnough(s, Covered(data, region)) && (region < WORD || |data| <= region)
  {
    hide Checked, ImplantSum;
    var data', h, at := Implanted(f, data, s), Covered(data, region), 2048 * s + APPDATA;
    ImplantedAgrees(f, data, s);
    CheckedLength(data', region, at, 0);
    if region >= WORD && |data| > region {
      assert |data[..Implanter(data, region)]| == |data| > h;
    } else if ErasesEnough(s, h) {
      HashesAgree(data, data', region, s);
    } else {
      OverrunFrom(data', region, s, 0);
      AllOrNothing(s, h);
    }
  }

  // Implanting and then checking finds a match, on every image whose descriptor is early enough
  // in its chunk (sector 16 always is) and whose region the 32-bit count can get through.
  lemma {:induction false} ImplantChecks(f: Transform, data: seq<byte>)
    requires FullRead(data) && PvdFrom(data, 16).Some? && Blank(data, PvdFrom(data, 16).value)
    requires var s := PvdFrom(data, 16).value; var region := Region(data, s);
             ErasesEnough(s, Covered(data, region)) && (region < WORD || |data| <= region)
    ensures Outcomes(f, Implanted(f, data, PvdFrom(data, 16).value)) == Matches
  {
    hide Digest, Hex, PvdFrom, Checked, Region, Implanted, Outcomes, ImplantSum, AgreeBut, Blank, ErasesEnough;
    hide Covered, Implanter, MediaSum;
    var s := PvdFrom(data, 16).value;
    PvdInside(data, 16, s);
    var data', region := Implanted(f, data, s), Region(data, s);
    ImplantedAgrees(f, data, s);
    ImplantedFull(f, data, s);
    PvdSame(data, data', s, 16);
    RegionSame(data, data', s);
    RegionSectors(data, s);
    SumIs(f, data, s);
    HashesAgree(data, data', region, s);
    SumMatches(f, data', s, data[..Implanter(data, region)]);
  }

  lemma {:induction false} RegionSectors(data: seq<byte>, s: nat)
    requires FullRead(data) && 2048 * s < |data|
    ensures Region(data, s) % 2048 == 0
  {
  }

  lemma {:induction false} SumIs(f: Transform, data: seq<byte>, s: nat)
    requires FullRead(data) && 2048 * s < |data|
    ensures Implanter(data, Region(data, s)) <= |data|
    ensures ImplantSum(f, data, s) == Hex(Digest(f, data[..Implanter(data, Region(data, s))]))
  {
  }

  lemma {:induction false} PvdInside(data: seq<byte>, k: nat, s: nat)
    requires FullRead(data) && PvdFrom(data, k) == Some(s)
    ensures 2048 * s < |data|
  {
  }

  lemma {:induction false} ImplantedFull(f: Transform, data: seq<byte>, s: nat)
    requires FullRead(data) && 2048 * s < |data|
    ensures FullRead(Implanted(f, data, s)) && |Implanted(f, data, s)| == |data|
  {
  }

  // An image that was implanted is refused from then on.
  lemma {:induction false} ImplantOnce(f: Transform, data: seq<byte>)
    requires FullRead(data) && PvdFrom(data, 16).Some? && Blank(data, PvdFrom(data, 16).value)
    ensures var s := PvdFrom(data, 16).value; var data' := Implanted(f, data, s);
            FullRead(data') && PvdFrom(data', 16) == Some(s) && !Blank(data', s)
  {
    hide Digest, Hex, Region, AppData;
    var s := PvdFrom(data, 16).value;
    var data', at := Implanted(f, data, s), 2048 * s + APPDATA;
    ImplantedAgrees(f, data, s);
    PvdSame(data, data', s, 16);
    assert data'[at] == AppData(ImplantSum(f, data, s))[0];
  }

  // The checker runs out of its buffer exactly if the application area is in the second half of
  // its chunk.
  lemma {:induction false} OverrunFrom(data: seq<byte>, region: int, s: nat, c: nat)
    requires FullRead(data) && region % 2048 == 0 && 32768 * c <= Covered(data, region)
    ensures var h := Covered(data, region);
            Checked(data, region, 2048 * s + APPDATA, 32768 * c).None?
            <==> 32768 * c <= 2048 * s < h && ChunkOf(s, h) < 2 * StartIn(s)
    decreases Covered(data, region) - 32768 * c
  {
    var h, offset := Covered(data, region), 32768 * c;
    if offset < h {
      var n := Attempt(data, region, offset);
      assert n == Min(32768, h - offset);
      ChunkPlace(s, h, c, n);
      if n == 32768 {
        OverrunFrom(data, region, s, c + 1);
      }
    }
  }

  lemma {:induction false} OverrunExactly(f: Transform, data: seq<byte>)
    requires FullRead(data) && PvdFrom(data, 16).Some? && !NoSum(MediaSum(data, PvdFrom(data, 16).value))
    ensures var s := PvdFrom(data, 16).value; var h := Covered(data, Region(data, s));
            Outcomes(f, data) == Overrun <==> 2048 * s < h && ChunkOf(s, h) < 2 * StartIn(s)
  {
    hide Digest, Checked, PvdFrom, Hex;
    OverrunFrom(data, Region(data, PvdFrom(data, 16).value), PvdFrom(data, 16).value, 0);
  }

  // After implanting, the checker runs out of its buffer exactly then.
  lemma {:induction false} ImplantOverrunsExactly(f: Transform, data: seq<byte>)
    requires FullRead(data) && PvdFrom(data, 16).Some? && Blank(data, PvdFrom(data, 16).value)
    ensures var s := PvdFrom(data, 16).value; var h := Covered(data, Region(data, s));
            Outcomes(f, Implanted(f, data, s)) == Overrun <==> 2048 * s < h && ChunkOf(s, h) < 2 * StartIn(s)
  {
    hide PvdFrom, Digest, Region, Outcomes;
    var s := PvdFrom(data, 16).value;
    var data' := Implanted(f, data, s);
    ImplantedAgrees(f, data, s);
    PvdSame(data, data', s, 16);
    RegionSame(data, data', s);
    assert !NoSum(ImplantSum(f, data, s));
    OverrunExactly(f, data');
  }

  lemma {:induction false} PvdIs(data: seq<byte>, k: nat, s: nat)
    requires k <= s && 2048 * s < |data| && data[2048 * s] == 1
    requires forall i :: k <= i < s ==> SectorType(data, i) != 1 && SectorType(data, i) != 255
    ensures PvdFrom(data, k) == Some(s)
    decreases s - k
  {
    if k < s {
      assert SectorType(data, k) != 1;
      PvdIs(data, k + 1, s);
    }
  }

  function SectorType(data: seq<byte>, i: nat): byte
  {
    if 2048 * i < |data| then data[2048 * i] else 0
  }

  // An image of 32 sectors that says it has 200, with its descriptor at sector 24.
  function LateImage(): (data: seq<byte>)
    ensures |data| == 65536
  {
    seq(65536, i => if i == 49152 then 1 else if i == 49239 then 200 else if 50035 <= i < 50547 then BLANK else 0)
  }

  // Implanting accepts it, and the check of the result writes outside its buffer.
  lemma {:induction false} LateImageOverruns(f: Transform)
    ensures var data := LateImage();
            && FullRead(data) && PvdFrom(data, 16) == Some(24) && Blank(data, 24)
            && Outcomes(f, Implanted(f, data, 24)) == Overrun
  {
    hide Outcomes, Implanted, PvdFrom;
    var data := LateImage();
    PvdIs(data, 16, 24);
    assert Region(data, 24) == 102400;
    ImplantOverrunsExactly(f, data);
  }

  // An image of 2^32 bytes and the 150 sectors that are left out, its descriptor at sector 16.
  function LargeImage(): (data: seq<byte>)
    ensures |data| == WORD + SKIPPED
  {
    seq(WORD + SKIPPED, i =>
      if i == 32768 then 1 else if i == 32853 then 32 else if i == 32855 then 150
      else if 33651 <= i < 34163 then BLANK else 0)
  }

  // Implanting accepts it and hashes all of it; the check leaves the 150 sectors out.
  lemma {:induction false} LargeImageDiffers(f: Transform)
    ensures var data := LargeImage();
            && FullRead(data) && PvdFrom(data, 16) == Some(16) && Blank(data, 16) && Region(data, 16) == WORD
            && Implanter(data, WORD) == |data|
            && Checked(Implanted(f, data, 16), WORD, 2048 * 16 + APPDATA, 0) != Some(data)
  {
    hide Checked, Implanted, PvdFrom;
    var data := LargeImage();
    PvdIs(data, 16, 16);
    HashesAgreeExactly(f, data, 16, WORD);
    assert data[..|data|] == data;
  }

  // The promise where the descriptor is at sector 16.
  lemma {:induction false} ImplantChecksAt16(f: Transform, data: seq<byte>)
    requires FullRead(data) && PvdFrom(data, 16) == Some(16) && Blank(data, 16) && Region(data, 16) < WORD
    ensures Outcomes(f, Implanted(f, data, 16)) == Matches
  {
    hide Outcomes, Implanted, PvdFrom;
    assert Covered(data, Region(data, 16)) % 2048 == 0;
    Sector16(Covered(data, Region(data, 16)));
    ImplantChecks(f, data);
  }
}
