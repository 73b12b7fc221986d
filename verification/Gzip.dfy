/** zip: a gzip file from standard input, and what a reference inflate makes of it. */
module Gzip {
  import opened Bits
  import opened BitOutput
  import opened CanonicalCode
  import opened Inflate
  import opened BlockStream
  import opened BlockCoding
  import opened SlidingWindow
  import opened Lz77
  import opened Deflate
  import opened BlockEncoding
  import opened LazyMatching

  lemma {:induction false} BitsInjective(a: nat, b: nat, n: nat)
    requires a < Pow2(n) && b < Pow2(n) && BitsLE(a, n) == BitsLE(b, n)
    ensures a == b
  {
    ValOfBits(a, n);
    ValOfBits(b, n);
  }

  lemma {:induction false} ByteBitsInjective(a: seq<byte>, b: seq<byte>)
    requires ByteBits(a) == ByteBits(b)
    ensures a == b
    decreases |a|
  {
    assert |ByteBits(a)| == 8 * |a| && |ByteBits(b)| == 8 * |b|;
    if a != [] {
      var k := |a| - 1;
      var x, y := ByteBits(a[..k]), ByteBits(b[..k]);
      assert x == ByteBits(a)[..8 * k] == ByteBits(b)[..8 * k] == y;
      ByteBitsInjective(a[..k], b[..k]);
      assert BitsLE(a[k], 8) == ByteBits(a)[8 * k..] == ByteBits(b)[8 * k..] == BitsLE(b[k], 8);
      Pow2Small();
      BitsInjective(a[k], b[k], 8);
      assert a == a[..k] + [a[k]] && b == b[..k] + [b[k]];
    }
  }

  // A stream whose bits go on after those of its first bytes.
  lemma {:induction false} StreamSplit(head: seq<byte>, stream: seq<byte>, bits: seq<bool>)
    requires ByteBits(stream) == ByteBits(head) + bits
    ensures head <= stream && ByteBits(stream[|head|..]) == bits
  {
    var n := |head|;
    assert 8 * |stream| == 8 * n + |bits|;
    var a, b := stream[..n], stream[n..];
    assert stream == a + b;
    ByteBitsConcat(a, b);
    assert ByteBits(a) == ByteBits(stream)[..8 * n] == ByteBits(head);
    assert ByteBits(b) == ByteBits(stream)[8 * n..] == bits;
    ByteBitsInjective(a, head);
  }

  // A complete stream of blocks inflates to what its tokens stand for, whatever follows it.
  lemma {:induction false} StreamInflates(ps: seq<Piece>, p: Piece, pad: seq<bool>, body: seq<byte>, more: seq<byte>,
      data: seq<byte>)
    requires IsStream(ps) && IsBlock(p, |PieceBits(ps)|, true) && ByteBits(body) == PieceBits(ps) + p.bits + pad
    requires Unpack([], PieceTokens(ps) + p.toks) == Some(data)
    ensures InflateBytes(body + more) == Some(data)
  {
    var bs := ByteBits(body + more);
    ByteBitsConcat(body, more);
    var a := PieceBits(ps) + p.bits;
    Assoc(a, pad, ByteBits(more));
    assert bs == a + (pad + ByteBits(more));
    assert At(bs, 0, a);
    WholeStreamBack(ps, p, bs, |PieceBits(ps)|);
  }

  // The ten bytes of the gzip header (section 2.3 of RFC 1952): magic number, method DEFLATE,
  // no flags, time stamp, extra flags 2, system 3.
  function Header(timeStamp: nat): seq<byte>
    requires timeStamp < WORD
  {
    Word32(0x00088b1f) + Word32(timeStamp) + [2, 3]
  }

  // Byte by byte (section 2.3.1 of RFC 1952); the time stamp has its least significant byte first.
  lemma {:induction false} HeaderBytes(timeStamp: nat)
    requires timeStamp < WORD
    ensures var h := Header(timeStamp);
            && |h| == 10 && h[..4] == [0x1f, 0x8b, 8, 0] && h[8..] == [2, 3]
            && timeStamp == (h[4] as nat) + 0x100 * (h[5] as nat) + 0x10000 * (h[6] as nat) + 0x1000000 * (h[7] as nat)
  {
    var low, high := timeStamp % 65536, timeStamp / 65536;
    var h, w := Header(timeStamp), Word32(timeStamp);
    assert Word32(0x00088b1f) == [0x1f, 0x8b, 8, 0];
    assert h == [0x1f, 0x8b, 8, 0] + w + [2, 3];
    assert h[4] == w[0] && h[5] == w[1] && h[6] == w[2] && h[7] == w[3];
    var a: nat, b: nat, c: nat, d: nat := w[0], w[1], w[2], w[3];
    assert low == a + 0x100 * b && high == c + 0x100 * d;
  }

  // The file is the header, a DEFLATE stream of the data, the check word and the length.
  ghost predicate GzipParts(file: seq<byte>, body: seq<byte>, data: seq<byte>, timeStamp: nat, crc: nat)
    requires timeStamp < WORD && crc < WORD
  {
    && file == Header(timeStamp) + body + Word32(crc) + Word32(|data| % WORD)
    && forall more: seq<byte> :: Inflates(body, more, data)
  }

  ghost predicate Inflates(body: seq<byte>, more: seq<byte>, data: seq<byte>)
  {
    InflateBytes(body + more) == Some(data)
  }

  // How deflate came to the stream: its searches, the code tables, the blocks with the last one
  // apart, and the padding.
  datatype Packing = Packing(turns: seq<Turn>, t: Tables, pieces: seq<Piece>, last: Piece, pad: seq<bool>)

  // The bits are those of the blocks, into which the tokens of lazy matching over all the data are
  // divided.
  ghost predicate Packed(body: seq<byte>, data: seq<byte>, k: Packing)
  {
    && TurnsOk(data, k.turns) && LazyRun(data, k.turns).at == |data|
    && Divided(k.t, k.pieces, k.last, LazyTokens(data, k.turns))
    && ByteBits(body) == PieceBits(k.pieces) + k.last.bits + k.pad && |k.pad| < 8
  }

  // What deflate leaves on the stream behind the header.
  lemma {:induction false} BodyOf(coder: BlockCoder, p: Piece, pad: seq<bool>, data: seq<byte>)
    returns (body: seq<byte>)
    requires coder.Closed(p, pad) && Unpack([], PieceTokens(coder.pieces) + p.toks) == Some(data)
    ensures coder.w.stream == coder.head + body && forall more: seq<byte> :: Inflates(body, more, data)
    ensures ByteBits(body) == PieceBits(coder.pieces) + p.bits + pad && |pad| < 8
  {
    var bits := PieceBits(coder.pieces) + p.bits + pad;
    assert ByteBits(coder.head) + bits == ByteBits(coder.head) + PieceBits(coder.pieces) + p.bits + pad;
    StreamSplit(coder.head, coder.w.stream, bits);
    body := coder.w.stream[|coder.head|..];
    forall more: seq<byte> ensures Inflates(body, more, data) {
      StreamInflates(coder.pieces, p, pad, body, more, data);
    }
  }

  // The first eight bytes.
  method StartHeader(timeStamp: nat) returns (w: BitWriter)
    requires timeStamp < WORD
    ensures fresh(w) && fresh(w.outbuf) && w.Valid() && w.biValid == 0
            && w.stream == Word32(0x00088b1f) + Word32(timeStamp)
  {
    w := new BitWriter();
    w.Put32bit(0x00088b1f);
    w.Put32bit(timeStamp);
    assert [] + Word32(0x00088b1f) == Word32(0x00088b1f);
  }

  // The rest of the header, and no token yet.
  method EndHeader(z: Deflater, ghost data: seq<byte>)
    requires z.WindowIn(data, 0, 0) && z.coder.Valid() && z.coder.pieces == [] && z.coder.w.biValid == 0
    requires z.coder.buf.toks == [] && z.tallied == [] && z.turns == []
    modifies z.coder, z.coder.repr
    ensures z.WindowIn(data, 0, 0) && z.CoderAt(data, 0, 0, true) && z.coder.head == old(z.coder.w.stream) + [2, 3]
    ensures z.tallied == [] && z.turns == []
  {
    hide BlockCoder.Valid;
    z.coder.PutHeader([2, 3]);
    assert data[..0] == [];
  }

  // Everything up to deflate.
  method Start(input: Input, timeStamp: nat) returns (z: Deflater)
    requires input.taken == [] && input.rest == input.all && timeStamp < WORD
    modifies input
    ensures z.input == input && z.WindowIn(input.taken, 0, 0) && z.win.strstart == 0 && z.win.blockStart == 0
            && z.win.base == 0
    ensures (z.win.eofile || z.win.lookahead >= 262) && (z.win.eofile && !input.failed ==> input.rest == [])
    ensures z.CoderAt(input.taken, 0, 0, true) && z.coder.head == Header(timeStamp) && z.tallied == [] && z.turns == []
    ensures fresh(z.win) && fresh(z.win.window) && fresh(z.win.prev) && fresh(z.win.head) && fresh(z.coder)
            && fresh(z.coder.repr)
    ensures fresh(z.coder.w) && fresh(z.coder.w.outbuf)
  {
    hide Deflater.CoderAt, BlockCoder.Valid, Window.Filled;
    var w := StartHeader(timeStamp);
    z := new Deflater(input, w);
    z.Init();
    EndHeader(z, input.taken);
  }

  // The header and the blocks.
  method Compress(input: Input, timeStamp: nat) returns (w: BitWriter, ghost body: seq<byte>, ghost k: Packing)
    requires input.taken == [] && input.rest == input.all && timeStamp < WORD
    modifies input
    ensures fresh(w) && fresh(w.outbuf) && w.Valid() && w.biValid == 0 && w.stream == Header(timeStamp) + body
    ensures input.taken + input.rest == input.all && (!input.failed ==> input.rest == [])
    ensures (forall more: seq<byte> :: Inflates(body, more, input.taken)) && Packed(body, input.taken, k)
  {
    hide TurnsOk, LazyRun, Divided, LazyTokens;
    var z := Start(input, timeStamp);
    ghost var p, pad := z.Run(input.taken);
    body := BodyOf(z.coder, p, pad, input.taken);
    k := Packing(z.turns, z.coder.t, z.coder.pieces, p, pad);
    w := z.coder.w;
  }

  // zip. The check word is computed from the input by code that is not part of the model.
  method Zip(input: Input, timeStamp: nat, crcOf: seq<byte> -> nat)
    returns (file: seq<byte>, ghost body: seq<byte>, ghost k: Packing)
    requires input.taken == [] && input.rest == input.all && timeStamp < WORD && forall s :: crcOf(s) < WORD
    modifies input
    ensures input.taken + input.rest == input.all && (!input.failed ==> input.taken == input.all)
    ensures GzipParts(file, body, input.taken, timeStamp, crcOf(input.taken)) && Packed(body, input.taken, k)
  {
    hide Packed;
    var w;
    w, body, k := Compress(input, timeStamp);
    w.Put32bit(crcOf(input.taken));
    w.Put32bit(|input.taken| % WORD);
    w.FlushOutbuf();
    file := w.written;
  }
}
