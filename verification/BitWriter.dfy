/** The bit and byte output layer of the compressor: outbuf with its counter, and the
    16-bit accumulator bi_buf that send_bits fills from the bottom. */
module BitOutput {
  import opened Bits

  const OUTBUFSIZ := 8192
  const BUF_SIZE := 16

  class BitWriter {
    const outbuf: array<byte>
    var outcnt: nat
    var written: seq<byte>   // what xwrite has passed on
    var biBuf: nat
    var biValid: nat
    ghost var stream: seq<byte>   // every byte handed to the output so far, flushed or not
    ghost var sent: seq<bool>     // every bit sent so far, in stream order

    ghost predicate Buffered()
      reads this, outbuf
    {
      && outbuf.Length == OUTBUFSIZ
      && outcnt < OUTBUFSIZ
      && biValid <= BUF_SIZE
      && biBuf < Pow2(biValid)
      && stream == written + outbuf[..outcnt]
    }

    // The bits sent are those of the output bytes and then those still in the accumulator.
    ghost predicate Valid()
      reads this, outbuf
    {
      Buffered() && sent == ByteBits(stream) + BitsLE(biBuf, biValid)
    }

    constructor ()
      ensures Valid() && fresh(outbuf)
      ensures stream == [] && biValid == 0 && sent == []
    {
      outbuf := new byte[OUTBUFSIZ];
      outcnt, written, stream, sent, biBuf, biValid := 0, [], [], [], 0, 0;
    }

    method FlushOutbuf()
      requires Buffered()
      modifies this`written, this`outcnt
      ensures Buffered() && outcnt == 0 && (old(Valid()) ==> Valid())
      ensures written == stream
    {
      if outcnt == 0 {
        return;
      }
      written := written + outbuf[..outcnt];
      outcnt := 0;
    }

    method Put8bit(c: nat)
      requires Buffered()
      modifies this`written, this`outcnt, this`stream, outbuf
      ensures Buffered()
      ensures stream == old(stream) + [c % 256]
    {
      outbuf[outcnt] := c % 256;
      outcnt := outcnt + 1;
      stream := stream + [c % 256];
      if outcnt == OUTBUFSIZ {
        written := written + outbuf[..outcnt];
        outcnt := 0;
      }
    }

    method Put16bit(w: nat)
      requires Buffered() && w < 65536
      modifies this`written, this`outcnt, this`stream, outbuf
      ensures Buffered()
      ensures stream == old(stream) + [w % 256, w / 256]
    {
      if outcnt < OUTBUFSIZ - 2 {
        outbuf[outcnt] := w % 256;
        outcnt := outcnt + 1;
        outbuf[outcnt] := w / 256;
        outcnt := outcnt + 1;
        stream := stream + [w % 256, w / 256];
      } else {
        Put8bit(w);
        Put8bit(w / 256);
      }
    }

    // send_bits: the value's bits are appended, whatever the fill of the accumulator.
    method SendBits(value: nat, length: nat)
      requires Valid()
      requires 0 < length <= 16 && value < Pow2(length)
      modifies this, outbuf
      ensures Valid()
      ensures sent == old(sent) + BitsLE(value, length)
    {
      hide BitsLE, ByteBits, Or, Shl, Shr, Low;
      if biValid > BUF_SIZE - length {
        SendSplit(stream, biBuf, biValid, value, length);
        var word := Low(Or(biBuf, Shl(value, biValid)), 16);
        Put16bit(word);
        biBuf := Shr(value, BUF_SIZE - biValid);
        biValid := biValid + length - BUF_SIZE;
      } else {
        SendFits(biBuf, biValid, value, length);
        Assoc(ByteBits(stream), BitsLE(biBuf, biValid), BitsLE(value, length));
        biBuf := Low(Or(biBuf, Shl(value, biValid)), 16);
        biValid := biValid + length;
      }
      sent := sent + BitsLE(value, length);
    }

    // bi_windup: zero bits pad the stream to a byte boundary.
    method BiWindup()
      requires Valid()
      modifies this, outbuf
      ensures Valid() && biValid == 0 && biBuf == 0
      ensures sent == ByteBits(stream) == old(sent) + BitsLE(0, StoredPad(|old(sent)|))
    {
      WindupBits(stream, biBuf, biValid);
      if biValid > 8 {
        Put16bit(biBuf);
      } else if biValid > 0 {
        Put8bit(biBuf);
      }
      biBuf := 0;
      biValid := 0;
      sent := sent + BitsLE(0, StoredPad(|sent|));
      assert BitsLE(biBuf, 0) == [];
    }

    method PutBytes(buf: seq<byte>)
      requires Buffered()
      modifies this`written, this`outcnt, this`stream, outbuf
      ensures Buffered()
      ensures stream == old(stream) + buf
    {
      ghost var start := stream;
      for i := 0 to |buf|
        invariant Buffered()
        invariant stream == start + buf[..i]
      {
        Put8bit(buf[i]);
        assert start + buf[..i] + [buf[i]] == start + buf[..i + 1];
      }
      assert buf[..|buf|] == buf;
    }

    // copy_block: align, then optionally LEN and its complement, then the bytes.
    method CopyBlock(buf: seq<byte>, header: bool)
      requires Valid()
      requires header ==> |buf| < 65536
      modifies this, outbuf
      ensures Valid() && biValid == 0
      ensures var pad := StoredPad(|old(sent)|);
              sent == old(sent) + BitsLE(0, pad)
                        + (if header then BitsLE(|buf|, 16) + BitsLE(65535 - |buf|, 16) else [])
                        + ByteBits(buf)
    {
      hide BitsLE, ByteBits;
      BiWindup();
      ghost var start := stream;
      if header {
        HeaderBits(start, |buf|);
        Put16bit(|buf|);
        Put16bit(65535 - |buf|);
      }
      ghost var mid := stream;
      PutBytes(buf);
      ByteBitsConcat(mid, buf);
      sent := ByteBits(stream);
      NoBits(biBuf);
    }

    // put_32bit, outside the blocks.
    method Put32bit(n: nat)
      requires Valid() && biValid == 0 && n < WORD
      modifies this, outbuf
      ensures Valid() && biValid == 0 && stream == old(stream) + Word32(n) && sent == ByteBits(stream)
    {
      Put16bit(n % 65536);
      Put16bit(n / 65536);
      sent := ByteBits(stream);
      NoBits(biBuf);
    }

    // Single bytes outside the blocks.
    method PutAligned(buf: seq<byte>)
      requires Valid() && biValid == 0
      modifies this, outbuf
      ensures Valid() && biValid == 0 && stream == old(stream) + buf && sent == ByteBits(stream)
    {
      PutBytes(buf);
      sent := ByteBits(stream);
      NoBits(biBuf);
    }
  }

  // A 32-bit word, least significant byte first.
  function Word32(n: nat): (s: seq<byte>)
    requires n < WORD
    ensures |s| == 4
  {
    [n % 65536 % 256, n % 65536 / 256, n / 65536 % 256, n / 65536 / 256]
  }

  lemma {:induction false} PadFromFill(a: nat, n: nat)
    requires n <= 16
    ensures StoredPad(8 * a + n) == if n > 8 then 16 - n else if n > 0 then 8 - n else 0
  {
    assert (8 * a + n) % 8 == n % 8;
  }

  lemma {:induction false} WordBits(s: seq<byte>, w: nat)
    requires w < 65536
    ensures ByteBits(s + [w % 256, w / 256]) == ByteBits(s) + BitsLE(w, 16)
  {
    TwoBytes(s, w % 256, w / 256);
    WordOfBytes(w % 256, w / 256);
  }

  lemma {:induction false} TwoBytes(s: seq<byte>, lo: byte, hi: byte)
    ensures ByteBits(s + [lo, hi]) == ByteBits(s) + (BitsLE(lo, 8) + BitsLE(hi, 8))
  {
    ByteBitsSnoc(s, lo);
    ByteBitsSnoc(s + [lo], hi);
    Assoc(ByteBits(s), BitsLE(lo, 8), BitsLE(hi, 8));
    assert s + [lo, hi] == s + [lo] + [hi];
  }

  lemma {:induction false} HeaderBits(s: seq<byte>, n: nat)
    requires n < 65536
    ensures var m := 65535 - n;
            ByteBits(s + [n % 256, n / 256] + [m % 256, m / 256])
            == ByteBits(s) + (BitsLE(n, 16) + BitsLE(m, 16))
  {
    var m := 65535 - n;
    WordBits(s, n);
    WordBits(s + [n % 256, n / 256], m);
    Assoc(ByteBits(s), BitsLE(n, 16), BitsLE(m, 16));
  }

  lemma {:induction false} WordOfBytes(lo: nat, hi: nat)
    requires lo < 256
    ensures BitsLE(lo + 256 * hi, 16) == BitsLE(lo, 8) + BitsLE(hi, 8)
  {
    Pow2Small();
    ShlIsTimes(hi, 8);
    BitsConcat(lo, hi, 8, 8);
  }

  lemma {:induction false} PadBits(u: nat, n: nat, m: nat)
    requires u < Pow2(n) && n <= m <= 16
    ensures BitsLE(u, m) == BitsLE(u, n) + BitsLE(0, m - n)
    ensures u < 65536 && (m <= 8 ==> u < 256)
  {
    ShlZero(n);
    BitsConcat(u, 0, n, m - n);
    Pow2Small();
    Pow2Mono(n, 16);
    if m <= 8 { Pow2Mono(n, 8); }
  }

  lemma {:induction false} SendFits(u: nat, n: nat, value: nat, length: nat)
    requires u < Pow2(n) && value < Pow2(length) && n + length <= 16
    ensures var w := Low(Or(u, Shl(value, n)), 16);
            w < Pow2(n + length) && BitsLE(w, n + length) == BitsLE(u, n) + BitsLE(value, length)
  {
    OrDisjoint(u, value, n);
    FieldsFit(u, value, n, length);
    Pow2Mono(n + length, 16);
    LowFits(u + Shl(value, n), 16);
    BitsConcat(u, value, n, length);
  }

  // What happens when the accumulator overflows: the low 16 - n bits of the value complete
  // a word and the remaining high bits start the next one.
  lemma {:induction false} SplitValue(u: nat, n: nat, value: nat, length: nat)
    requires n <= 16 && u < Pow2(n)
    requires 0 < length <= 16 && value < Pow2(length) && n + length > 16
    ensures var q := Shr(value, 16 - n); var w := Low(Or(u, Shl(value, n)), 16);
            && w < 65536
            && q < Pow2(n + length - 16)
            && BitsLE(w, 16) + BitsLE(q, n + length - 16) == BitsLE(u, n) + BitsLE(value, length)
  {
    var k := 16 - n;
    OrDisjoint(u, value, n);
    Pow2Small();
    LowSame(u + Shl(value, n), 16);
    BitsConcat(u, value, n, k);
    assert n + k == 16;
    BitsSplit(value, k, length - k);
    Assoc(BitsLE(u, n), BitsLE(value, k), BitsLE(Shr(value, k), length - k));
    ShrFits(value, k, length - k);
  }

  lemma {:induction false} NoBits(v: nat)
    ensures BitsLE(v, 0) == []
  {
  }

  lemma {:induction false} SendSplit(s: seq<byte>, u: nat, n: nat, value: nat, length: nat)
    requires n <= 16 && u < Pow2(n)
    requires 0 < length <= 16 && value < Pow2(length) && n + length > 16
    ensures var q := Shr(value, 16 - n); var w := Low(Or(u, Shl(value, n)), 16);
            && w < 65536
            && q < Pow2(n + length - 16)
            && ByteBits(s + [w % 256, w / 256]) + BitsLE(q, n + length - 16)
               == ByteBits(s) + BitsLE(u, n) + BitsLE(value, length)
  {
    hide BitsLE, ByteBits, Or, Shl, Shr, Low;
    var q, w := Shr(value, 16 - n), Low(Or(u, Shl(value, n)), 16);
    SplitValue(u, n, value, length);
    WordBits(s, w);
    Assoc(ByteBits(s), BitsLE(w, 16), BitsLE(q, n + length - 16));
    Assoc(ByteBits(s), BitsLE(u, n), BitsLE(value, length));
  }

  lemma {:induction false} WindupBits(s: seq<byte>, u: nat, n: nat)
    requires n <= 16 && u < Pow2(n)
    ensures u < 65536 && (n <= 8 ==> u < 256)
    ensures ByteBits(if n > 8 then s + [u % 256, u / 256] else if n > 0 then s + [u % 256] else s)
            == ByteBits(s) + BitsLE(u, n) + BitsLE(0, StoredPad(|ByteBits(s) + BitsLE(u, n)|))
  {
    hide ByteBits, BitsLE, StoredPad, Pow2;
    var pad := StoredPad(8 * |s| + n);
    PadFromFill(|s|, n);
    PadBits(u, n, if n > 8 then 16 else 8);
    if n > 8 {
      WordBits(s, u);
    } else if n > 0 {
      ByteBitsSnoc(s, u);
    } else {
      NoBits(u);
      NoBits(0);
      assert BitsLE(u, n) + BitsLE(0, pad) == [];
    }
    Assoc(ByteBits(s), BitsLE(u, n), BitsLE(0, pad));
  }
}
