/** Small DEFLATE streams, byte by byte, and what the reference decoder makes of them. */
module InflateExamples {
  import opened Bits
  import opened CanonicalCode
  import opened CodeLengthRuns
  import opened Inflate
  import opened Reading
  import opened BlockEncoding
  import opened BlockStream

  // Bits written out, the first one first.
  function Str(s: string): (bs: seq<bool>)
    ensures |bs| == |s|
  {
    seq(|s|, i requires 0 <= i < |s| => s[i] == '1')
  }

  // Section 3.2.7: the order of the code length code lengths.
  lemma {:induction false} Rfc1951Order()
    ensures seq(BL_CODES, i requires 0 <= i < BL_CODES => BlOrder(i))
         == [16, 17, 18, 0, 8, 7, 9, 6, 10, 5, 11, 4, 12, 3, 13, 2, 14, 1, 15]
  {
  }

  lemma {:induction false} StrConcat(a: string, b: string)
    ensures Str(a + b) == Str(a) + Str(b)
  {
  }

  // The bits of some bytes, written out.
  ghost predicate Shown(b: seq<byte>, s: string)
  {
    ByteBits(b) == Str(s)
  }

  // The number whose bits are those from i on.
  function Value(s: string, i: nat): nat
    requires i <= |s|
    decreases |s| - i
  {
    if i == |s| then 0 else (if s[i] == '1' then 1 else 0) + 2 * Value(s, i + 1)
  }

  lemma {:induction false} ValueBits(s: string, i: nat)
    requires i <= |s|
    ensures BitsLE(Value(s, i), |s| - i) == Str(s)[i..]
    decreases |s| - i
  {
    if i < |s| {
      ValueBits(s, i + 1);
      assert Str(s)[i..] == [s[i] == '1'] + Str(s)[i + 1..];
    }
  }

  lemma {:induction false} Field(v: nat, s: string)
    requires Value(s, 0) == v
    ensures BitsLE(v, |s|) == Str(s)
  {
    ValueBits(s, 0);
  }

  lemma {:induction false} OneByte(b: byte, s: string)
    requires |s| == 8 && Value(s, 0) == b
    ensures Shown([b], s)
  {
    Field(b, s);
    ByteBitsSnoc([], b);
    assert [] + [b] == [b];
  }

  lemma {:induction false} MoreBytes(a: seq<byte>, s: string, b: seq<byte>, t: string)
    requires Shown(a, s) && Shown(b, t)
    ensures Shown(a + b, s + t)
  {
    hide ByteBits, Str;
    ByteBitsConcat(a, b);
    StrConcat(s, t);
  }

  lemma {:induction false} TwoBytes(lo: byte, hi: byte, s: string, t: string)
    requires |s| == |t| == 8 && Value(s, 0) == lo && Value(t, 0) == hi
    ensures BitsLE(lo + 256 * hi, 16) == Str(s + t)
  {
    hide BitsLE, Value;
    Field(lo, s);
    Field(hi, t);
    Pow2Small();
    BitsConcat(lo, hi, 8, 8);
    ShlIsTimes(hi, 8);
    StrConcat(s, t);
  }

  // A stored block of the byte 'a', the last.
  const STORED: seq<byte> := [0x01, 0x01, 0x00, 0xfe, 0xff, 0x61]

  lemma {:induction false} StoredBytes()
    ensures Shown([0x01], "10000000") && Shown([0x00], "00000000") && Shown([0xfe], "01111111")
    ensures Shown([0xff], "11111111") && Shown([0x61], "10000110")
  {
    OneByte(0x01, "10000000");
    OneByte(0x00, "00000000");
    OneByte(0xfe, "01111111");
    OneByte(0xff, "11111111");
    OneByte(0x61, "10000110");
  }

  lemma {:induction false} StoredStream()
    ensures ByteBits(STORED) == Str("10000000" + "10000000" + "00000000" + "01111111" + "11111111" + "10000110")
  {
    hide ByteBits, Str;
    StoredBytes();
    MoreBytes([0x01], "10000000", [0x01], "10000000");
    MoreBytes([0x01] + [0x01], "10000000" + "10000000", [0x00], "00000000");
    var a: seq<byte>, s := [0x01] + [0x01] + [0x00], "10000000" + "10000000" + "00000000";
    MoreBytes(a, s, [0xfe], "01111111");
    MoreBytes(a + [0xfe], s + "01111111", [0xff], "11111111");
    MoreBytes(a + [0xfe] + [0xff], s + "01111111" + "11111111", [0x61], "10000110");
    assert STORED == a + [0xfe] + [0xff] + [0x61];
  }

  lemma {:induction false} StoredFieldBits()
    ensures BitsLE(0, 5) == Str("00000") && BitsLE(1, 16) == Str("1000000000000000")
    ensures BitsLE(65534, 16) == Str("0111111111111111")
  {
    hide BitsLE, Str;
    Field(0, "00000");
    TwoBytes(1, 0, "10000000", "00000000");
    TwoBytes(0xfe, 0xff, "01111111", "11111111");
    assert "10000000" + "00000000" == "1000000000000000" && "01111111" + "11111111" == "0111111111111111";
  }

  lemma {:induction false} StoredParts()
    ensures ByteBits(STORED) == Str("100") + StoredBits(3, [0x61])
  {
    hide ByteBits, Str, BitsLE;
    StoredStream();
    StoredFieldBits();
    StoredBytes();
    var len, nlen := "1000000000000000", "0111111111111111";
    StrConcat("100", "00000" + (len + nlen) + "10000110");
    StrConcat("00000" + (len + nlen), "10000110");
    StrConcat("00000", len + nlen);
    StrConcat(len, nlen);
    assert "10000000" + "10000000" + "00000000" + "01111111" + "11111111" + "10000110"
        == "100" + ("00000" + (len + nlen) + "10000110");
  }

  lemma {:induction false} StoredExample()
    ensures InflateBytes(STORED) == Some([0x61])
  {
    hide BitsLE, ByteBits, StoredBits, DecodeStored;
    var bs, body := ByteBits(STORED), StoredBits(3, [0x61]);
    StoredParts();
    assert At(bs, 0, Str("100") + body);
    AtConcat(bs, 0, Str("100"), body);
    KindStored();
    StoredBack(bs, 3, [0x61]);
    BlockOf(bs, 0, STORED_BLOCK, true, Literals([0x61]), body, 3 + |body|);
    Whole(bs, Literals([0x61]), 3 + |body|);
    UnpackOne(0x61);
  }

  lemma {:induction false} KindStored()
    ensures KindBits(STORED_BLOCK, true) == Str("100")
  {
    Field(1, "100");
  }

  lemma {:induction false} Whole(bs: seq<bool>, toks: seq<Token>, end: nat)
    requires BlockAt(bs, 0, true, toks, end)
    ensures DecodeBlocks(bs, 0) == Some((toks, end))
  {
    hide DecodeBlock;
  }

  lemma {:induction false} UnpackOne(c: byte)
    ensures Literals([c]) == [Literal(c)] && Unpack([], [Literal(c)]) == Some([c])
  {
    assert [Literal(c)][1..] == [] && [] + [c] == [c];
  }

  // A code, its most significant bit first.
  function CodeValue(s: string, i: nat): nat
    requires i <= |s|
  {
    if i == 0 then 0 else 2 * CodeValue(s, i - 1) + if s[i - 1] == '1' then 1 else 0
  }

  lemma {:induction false} CodeValueBits(s: string, i: nat)
    requires i <= |s|
    ensures BitsBE(CodeValue(s, i), i) == Str(s)[..i]
  {
    if i > 0 {
      CodeValueBits(s, i - 1);
      assert Str(s)[..i] == Str(s)[..i - 1] + [s[i - 1] == '1'];
    }
  }

  lemma {:induction false} CodeField(v: nat, s: string)
    requires CodeValue(s, |s|) == v
    ensures BitsBE(v, |s|) == Str(s)
  {
    CodeValueBits(s, |s|);
    assert Str(s)[..|s|] == Str(s);
  }

  // The same byte under the fixed codes (section 3.2.6).
  const FIXED: seq<byte> := [0x4b, 0x04, 0x00]

  lemma {:induction false} FixedParts()
    ensures ByteBits(FIXED) == Str("110") + Str("10010001") + Str("0000000") + Str("000000")
  {
    hide ByteBits, Str;
    OneByte(0x4b, "11010010");
    OneByte(0x04, "00100000");
    OneByte(0x00, "00000000");
    MoreBytes([0x4b], "11010010", [0x04], "00100000");
    MoreBytes([0x4b] + [0x04], "11010010" + "00100000", [0x00], "00000000");
    assert FIXED == [0x4b] + [0x04] + [0x00];
    StrConcat("110", "10010001");
    StrConcat("110" + "10010001", "0000000");
    StrConcat("110" + "10010001" + "0000000", "000000");
    assert "11010010" + "00100000" + "00000000" == "110" + "10010001" + "0000000" + "000000";
  }

  lemma {:induction false} FixedCodesUsed()
    ensures CodeBits(FixedLitLens(), 97) == Str("10010001") && CodeBits(FixedLitLens(), 256) == Str("0000000")
  {
    hide Str, BitsBE;
    var lens := FixedLitLens();
    FixedLitFirst(8);
    FixedLitFirst(7);
    assert lens[..97] == Repeat(8, 97);
    CountRepeat(8, 97, 8);
    assert lens[..256] == Repeat(8, 144) + Repeat(9, 112);
    CountConcat(Repeat(8, 144), Repeat(9, 112), 7);
    CountRepeat(8, 144, 7);
    CountRepeat(9, 112, 7);
    CodeField(145, "10010001");
    CodeField(0, "0000000");
  }

  lemma {:induction false} FixedExample()
    ensures InflateBytes(FIXED) == Some([97])
  {
    hide BitsLE, ByteBits, At, CodeBits, DecodeTokens, FixedLitLens, TokensAt, TokenAt, SymbolAt, BlockAt, Prefixable;
    var bs := ByteBits(FIXED);
    FixedParts();
    FixedCodesUsed();
    FixedComplete();
    var ll, dl, a, b, c := FixedLitLens(), FixedDistLens(), Str("110"), Str("10010001"), Str("0000000");
    WholeAt(bs, a + b + c, Str("000000"));
    AtConcat(bs, 0, a + b, c);
    AtConcat(bs, 0, a, b);
    FixedLens();
    SymbolBack(ll, bs, 3, 97);
    LiteralFrom(ll, dl, bs, 3, 97);
    SymbolBack(ll, bs, 11, 256);
    TokensEnd(ll, dl, bs, 11);
    TokensFrom(ll, dl, bs, 3, Literal(97), 11, [], 18);
    assert [Literal(97)] + [] == [Literal(97)];
    KindFixed();
    BlockOf(bs, 0, STATIC_TREES, true, [Literal(97)], b + c, 18);
    Whole(bs, [Literal(97)], 18);
    UnpackOne(97);
  }

  lemma {:induction false} FixedLens()
    ensures FixedLitLens()[97] == 8 && FixedLitLens()[256] == 7 && Prefixable(FixedLitLens())
  {
    FixedComplete();
  }

  lemma {:induction false} WholeAt(bs: seq<bool>, a: seq<bool>, b: seq<bool>)
    requires bs == a + b
    ensures At(bs, 0, a)
  {
  }

  lemma {:induction false} KindFixed()
    ensures KindBits(STATIC_TREES, true) == Str("110")
  {
    Field(3, "110");
  }

  // Codes of its own: 'a', the end of the block and the lengths 3 to 5; distances 1 and 5 to 6. The
  // lengths take all three repeat codes.
  const LL: seq<nat> := Repeat(0, 97) + [1] + Repeat(0, 158) + Repeat(3, 4)
  const DL: seq<nat> := [1] + Repeat(0, 3) + [1]
  const CL: seq<nat> := [0] + [1] + [0] + [4] + Repeat(0, 12) + [4] + [3] + [2]

  lemma {:induction false} CountOne(x: nat, l: nat)
    ensures Count([x], l) == if x == l then 1 else 0
  {
    assert [x][..0] == [];
  }

  lemma {:induction false} LitCount(l: nat)
    requires l > 0
    ensures Count(LL, l) == if l == 1 then 1 else if l == 3 then 4 else 0
  {
    hide Count;
    CountConcat(Repeat(0, 97) + [1] + Repeat(0, 158), Repeat(3, 4), l);
    CountConcat(Repeat(0, 97) + [1], Repeat(0, 158), l);
    CountConcat(Repeat(0, 97), [1], l);
    CountRepeat(0, 97, l);
    CountRepeat(0, 158, l);
    CountRepeat(3, 4, l);
    CountOne(1, l);
  }

  lemma {:induction false} DistCount(l: nat)
    requires l > 0
    ensures Count(DL, l) == if l == 1 then 2 else 0
  {
    hide Count;
    CountConcat([1] + Repeat(0, 3), [1], l);
    CountConcat([1], Repeat(0, 3), l);
    CountRepeat(0, 3, l);
    CountOne(1, l);
  }

  lemma {:induction false} LowCount(l: nat)
    requires l > 0
    ensures Count([0] + [1] + [0], l) == (if l == 1 then 1 else 0)
    ensures Count([0] + [1] + [0] + [4] + Repeat(0, 12), l) == if l == 1 || l == 4 then 1 else 0
  {
    hide Count;
    CountConcat([0] + [1] + [0] + [4], Repeat(0, 12), l);
    CountConcat([0] + [1] + [0], [4], l);
    CountConcat([0] + [1], [0], l);
    CountConcat([0], [1], l);
    CountRepeat(0, 12, l);
    CountOne(0, l);
    CountOne(1, l);
    CountOne(4, l);
  }

  lemma {:induction false} ClCount(l: nat)
    requires l > 0
    ensures Count(CL, l) == if 1 <= l <= 3 then 1 else if l == 4 then 2 else 0
  {
    hide Count;
    LowCount(l);
    var low := [0] + [1] + [0] + [4] + Repeat(0, 12);
    CountConcat(low + [4] + [3], [2], l);
    CountConcat(low + [4], [3], l);
    CountConcat(low, [4], l);
    CountOne(4, l);
    CountOne(3, l);
    CountOne(2, l);
  }

  lemma {:induction false} LitFirst(l: nat)
    requires 1 <= l <= 16
    ensures FirstCode(LL, l) == if l == 1 then 0 else if l == 2 then 2 else if l == 3 then 4 else Pow2(l)
  {
    hide Count;
    if l > 1 {
      LitFirst(l - 1);
      LitCount(l - 1);
    }
    Pow2Small();
  }

  lemma {:induction false} DistFirst(l: nat)
    requires 1 <= l <= 16
    ensures FirstCode(DL, l) == if l == 1 then 0 else Pow2(l)
  {
    hide Count;
    if l > 1 {
      DistFirst(l - 1);
      DistCount(l - 1);
    }
    Pow2Small();
  }

  lemma {:induction false} ClFirst(l: nat)
    requires 1 <= l <= 16
    ensures FirstCode(CL, l)
         == if l == 1 then 0 else if l == 2 then 2 else if l == 3 then 6 else if l == 4 then 14 else Pow2(l)
  {
    hide Count;
    if l > 1 {
      ClFirst(l - 1);
      ClCount(l - 1);
    }
    Pow2Small();
  }

  lemma {:induction false} ExamplePrefixable()
    ensures Prefixable(LL) && Prefixable(DL) && Prefixable(CL)
  {
    hide FirstCode;
    LitFirst(16);
    DistFirst(16);
    ClFirst(16);
    Pow2Small();
  }

  lemma {:induction false} LitCodes()
    ensures CodeBits(LL, 97) == Str("0") && CodeBits(LL, 256) == Str("100") && CodeBits(LL, 258) == Str("110")
            && CodeBits(LL, 259) == Str("111")
  {
    hide FirstCode, Count, BitsBE, Str;
    LitFirst(1);
    LitFirst(3);
    var a, b := Repeat(0, 97), Repeat(0, 97) + [1] + Repeat(0, 158);
    assert LL[..97] == a && LL[..256] == b && LL[..258] == b + Repeat(3, 2) && LL[..259] == b + Repeat(3, 3);
    CountRepeat(0, 97, 1);
    LongerCount();
    CodeField(0, "0");
    CodeField(4, "100");
    CodeField(6, "110");
    CodeField(7, "111");
  }

  lemma {:induction false} LongerCount()
    ensures Count(Repeat(0, 97) + [1] + Repeat(0, 158), 3) == 0
    ensures Count(Repeat(0, 97) + [1] + Repeat(0, 158) + Repeat(3, 2), 3) == 2
    ensures Count(Repeat(0, 97) + [1] + Repeat(0, 158) + Repeat(3, 3), 3) == 3
  {
    hide Count;
    CountConcat(Repeat(0, 97), [1], 3);
    CountConcat(Repeat(0, 97) + [1], Repeat(0, 158), 3);
    CountConcat(Repeat(0, 97) + [1] + Repeat(0, 158), Repeat(3, 2), 3);
    CountConcat(Repeat(0, 97) + [1] + Repeat(0, 158), Repeat(3, 3), 3);
    CountRepeat(0, 97, 3);
    CountRepeat(0, 158, 3);
    CountRepeat(3, 2, 3);
    CountRepeat(3, 3, 3);
    CountOne(1, 3);
  }

  lemma {:induction false} DistCodes()
    ensures CodeBits(DL, 0) == Str("0") && CodeBits(DL, 4) == Str("1")
  {
    hide FirstCode, Count, BitsBE, Str;
    DistFirst(1);
    assert DL[..0] == [] && DL[..4] == [1] + Repeat(0, 3);
    CountConcat([1], Repeat(0, 3), 1);
    CountOne(1, 1);
    CountRepeat(0, 3, 1);
    assert Count([], 1) == 0 by { CountRepeat(0, 0, 1); assert Repeat(0, 0) == []; }
    CodeField(0, "0");
    CodeField(1, "1");
  }

  lemma {:induction false} ClCodes()
    ensures CodeBits(CL, 1) == Str("0") && CodeBits(CL, 18) == Str("10") && CodeBits(CL, 17) == Str("110")
    ensures CodeBits(CL, 3) == Str("1110") && CodeBits(CL, 16) == Str("1111")
  {
    hide FirstCode, Count, BitsBE, Str;
    ClFirst(1);
    ClFirst(2);
    ClFirst(3);
    ClFirst(4);
    ClBefore();
    CodeField(0, "0");
    CodeField(2, "10");
    CodeField(6, "110");
    CodeField(14, "1110");
    CodeField(15, "1111");
  }

  lemma {:induction false} ClBefore()
    ensures Count(CL[..1], 1) == 0 && Count(CL[..18], 2) == 0 && Count(CL[..17], 3) == 0 && Count(CL[..3], 4) == 0
            && Count(CL[..16], 4) == 1
  {
    hide Count;
    var low := [0] + [1] + [0] + [4] + Repeat(0, 12);
    assert CL[..1] == [0] && CL[..18] == low + [4] + [3] && CL[..17] == low + [4] && CL[..16] == low;
    assert CL[..3] == [0] + [1] + [0];
    LowCount(2);
    LowCount(3);
    LowCount(4);
    CountOne(0, 1);
    CountConcat(low + [4], [3], 2);
    CountConcat(low, [4], 2);
    CountConcat(low, [4], 3);
    CountOne(3, 2);
    CountOne(4, 2);
    CountOne(4, 3);
  }

  // A run of equal lengths, as far as one group of items takes it.
  lemma {:induction false} RunOf(lens: seq<nat>, n: nat, m: nat, prev: int, count: nat, cur: nat)
    requires n < m <= |lens| && (forall i :: n <= i < m ==> lens[i] == cur) && cur < GUARD
    requires count + (m - n) == MaxCount(prev, cur)
             || (count + (m - n) < MaxCount(prev, cur) && (m == |lens| || lens[m] != cur))
    ensures Runs(lens, n, prev, count) == Emit(cur, prev, count + (m - n)) + Runs(lens, m, cur, 0)
    decreases m - n
  {
    hide Emit;
    if n + 1 < m {
      assert NextLen(lens, n) == cur;
      RunOf(lens, n + 1, m, prev, count + 1, cur);
      assert count + 1 + (m - (n + 1)) == count + (m - n);
    }
  }

  lemma {:induction false} LitItems()
    ensures AllRuns(LL) == [Item(18, 86), Item(1, 0), Item(18, 127), Item(18, 9), Item(3, 0), Item(16, 0)]
  {
    hide Runs;
    RunOf(LL, 0, 97, -1, 0, 0);
    RunOf(LL, 97, 98, 0, 0, 1);
    RunOf(LL, 98, 236, 1, 0, 0);
    RunOf(LL, 236, 256, 0, 0, 0);
    RunOf(LL, 256, 260, 0, 0, 3);
    RunsEnd(LL, 3);
    assert Emit(1, 0, 1) == [Item(1, 0)];
  }

  lemma {:induction false} RunsEnd(lens: seq<nat>, prev: int)
    ensures Runs(lens, |lens|, prev, 0) == []
  {
  }

  lemma {:induction false} DistItems()
    ensures AllRuns(DL) == [Item(1, 0), Item(17, 0), Item(1, 0)]
  {
    hide Runs;
    RunOf(DL, 0, 1, -1, 0, 1);
    RunOf(DL, 1, 4, 1, 0, 0);
    RunOf(DL, 4, 5, 0, 0, 1);
    RunsEnd(DL, 1);
    assert Emit(1, -1, 1) == [Item(1, 0)] && Emit(1, 0, 1) == [Item(1, 0)];
  }

  // Fields of a stream, one after the other.
  function Join(fields: seq<string>): string
  {
    if fields == [] then "" else fields[0] + Join(fields[1..])
  }

  lemma {:induction false} JoinConcat(a: seq<string>, b: seq<string>)
    ensures Str(Join(a + b)) == Str(Join(a)) + Str(Join(b))
    decreases |a|
  {
    if a == [] {
      assert a + b == b;
    } else {
      hide Str;
      assert (a + b)[1..] == a[1..] + b;
      JoinConcat(a[1..], b);
      StrConcat(a[0], Join(a[1..] + b));
      StrConcat(a[0], Join(a[1..]));
    }
  }

  lemma {:induction false} JoinStep(fields: seq<string>, i: nat)
    requires i <= |fields|
    ensures Join(fields[i..]) == if i == |fields| then "" else fields[i] + Join(fields[i + 1..])
  {
    if i < |fields| { assert fields[i..][1..] == fields[i + 1..]; }
  }

  const H: Dynamic := Dynamic(LL, DL, CL, 18)

  // The counts, the lengths of the code length code, and the items with their extra bits.
  const COUNT_TEXT: seq<string> := ["11000", "00100", "0111"]

  const CL_TEXT: seq<string> :=
    ["001", "110", "010", "000", "000", "000", "000", "000", "000",
     "000", "000", "000", "000", "001", "000", "000", "000", "100"]

  const ITEM_TEXT: seq<string> :=
    ["10", "0110101", "0", "", "10", "1111111", "10", "1001000",
     "1110", "", "1111", "00", "0", "", "110", "000", "0", ""]

  lemma {:induction false} ExampleHeader()
    ensures H.Valid()
    ensures H.Items() == [Item(18, 86), Item(1, 0), Item(18, 127), Item(18, 9), Item(3, 0), Item(16, 0)]
                         + [Item(1, 0), Item(17, 0), Item(1, 0)]
  {
    hide AllRuns, Prefixable;
    LitItems();
    DistItems();
    ExamplePrefixable();
    Pow2Small();
    assert BlOrder(18) == 15 && CL[15] == 0;
  }

  lemma {:induction false} ClField(i: nat)
    requires i < 18
    ensures BitsLE(CL[BlOrder(i)], 3) == Str(CL_TEXT[i])
  {
    hide BitsLE, Str;
    Field(4, "001");
    Field(3, "110");
    Field(2, "010");
    Field(0, "000");
    Field(1, "100");
  }

  lemma {:induction false} ClBits(i: nat)
    requires i <= 18 && BlLensOk(CL)
    ensures BlLensBits(CL, i, 18 - i) == Str(Join(CL_TEXT[i..]))
    decreases 18 - i
  {
    hide BitsLE, BlOrder, Join, Str;
    var text := CL_TEXT;
    JoinStep(text, i);
    if i < 18 {
      ClField(i);
      ClBits(i + 1);
      StrConcat(CL_TEXT[i], Join(CL_TEXT[i + 1..]));
    }
  }

  lemma {:induction false} CountBits()
    ensures BitsLE(3, 5) + BitsLE(4, 5) + BitsLE(14, 4) == Str(Join(COUNT_TEXT))
  {
    hide BitsLE, Str;
    Field(3, "11000");
    Field(4, "00100");
    Field(14, "0111");
    StrConcat("11000" + "00100", "0111");
    StrConcat("11000", "00100");
    assert COUNT_TEXT[1..][1..][1..] == [];
    assert Join(COUNT_TEXT) == "11000" + "00100" + "0111";
  }

  // The bits of some items, written out.
  ghost predicate ItemsShown(items: seq<Item>, text: seq<string>, n: nat)
  {
    ItemsCoded(CL, items) && ItemsBits(CL, items) == Str(Join(text)) && |Join(text)| == n
  }

  lemma {:induction false} NoItems()
    ensures ItemsShown([], [], 0)
  {
  }

  // One item more.
  lemma {:induction false} MoreItems(it: Item, items: seq<Item>, code: string, extra: string, text: seq<string>,
      n: nat)
    requires ItemOk(it) && CL[it.sym] > 0 && CodeBits(CL, it.sym) == Str(code) && ItemsShown(items, text, n)
    requires |extra| == BlExtra(it.sym) && Value(extra, 0) == it.extra
    ensures ItemsShown([it] + items, [code, extra] + text, |code| + |extra| + n)
  {
    hide BitsLE, CodeBits, Str, Value;
    assert ([it] + items)[1..] == items;
    Field(it.extra, extra);
    var more := [extra] + text;
    assert ([code, extra] + text)[1..] == more && more[1..] == text;
    StrConcat(extra, Join(text));
    StrConcat(code, Join(more));
  }

  lemma {:induction false} ExtraValues()
    ensures Value("", 0) == 0 && Value("00", 0) == 0 && Value("000", 0) == 0
    ensures Value("0110101", 0) == 86 && Value("1111111", 0) == 127 && Value("1001000", 0) == 9
  {
  }

  lemma {:induction false} LastItems(items: seq<Item>)
    requires items == H.Items() && |items| == 9
    ensures ItemsShown(items[5..], ITEM_TEXT[10..], 14)
  {
    hide CodeBits, Str, ItemsBits, Prefixable, ItemsShown, Value, Join, AllRuns;
    ExampleHeader();
    ClCodes();
    ExtraValues();
    NoItems();
    assert items[9..] == [] && ITEM_TEXT[18..] == [];
    assert items[8..] == [items[8]] + items[9..];
    MoreItems(items[8], items[9..], "0", "", ITEM_TEXT[18..], 0);
    assert ITEM_TEXT[16..] == ["0", ""] + ITEM_TEXT[18..];
    assert items[7..] == [items[7]] + items[8..];
    MoreItems(items[7], items[8..], "110", "000", ITEM_TEXT[16..], 1);
    assert ITEM_TEXT[14..] == ["110", "000"] + ITEM_TEXT[16..];
    assert items[6..] == [items[6]] + items[7..];
    MoreItems(items[6], items[7..], "0", "", ITEM_TEXT[14..], 7);
    assert ITEM_TEXT[12..] == ["0", ""] + ITEM_TEXT[14..];
    assert items[5..] == [items[5]] + items[6..];
    MoreItems(items[5], items[6..], "1111", "00", ITEM_TEXT[12..], 8);
    assert ITEM_TEXT[10..] == ["1111", "00"] + ITEM_TEXT[12..];
  }

  lemma {:induction false} MiddleItems(items: seq<Item>)
    requires items == H.Items() && |items| == 9
    ensures ItemsShown(items[2..], ITEM_TEXT[4..], 36)
  {
    hide CodeBits, Str, ItemsBits, Prefixable, ItemsShown, Value, Join, AllRuns;
    ExampleHeader();
    ClCodes();
    ExtraValues();
    LastItems(items);
    assert items[4..] == [items[4]] + items[5..];
    MoreItems(items[4], items[5..], "1110", "", ITEM_TEXT[10..], 14);
    assert ITEM_TEXT[8..] == ["1110", ""] + ITEM_TEXT[10..];
    assert items[3..] == [items[3]] + items[4..];
    MoreItems(items[3], items[4..], "10", "1001000", ITEM_TEXT[8..], 18);
    assert ITEM_TEXT[6..] == ["10", "1001000"] + ITEM_TEXT[8..];
    assert items[2..] == [items[2]] + items[3..];
    MoreItems(items[2], items[3..], "10", "1111111", ITEM_TEXT[6..], 27);
    assert ITEM_TEXT[4..] == ["10", "1111111"] + ITEM_TEXT[6..];
  }

  lemma {:induction false} AllItems()
    ensures ItemsShown(H.Items(), ITEM_TEXT, 46)
  {
    hide CodeBits, Str, ItemsBits, Prefixable, ItemsShown, Value, Join, AllRuns;
    var items := H.Items();
    ExampleHeader();
    ClCodes();
    ExtraValues();
    MiddleItems(items);
    assert items[1..] == [items[1]] + items[2..];
    MoreItems(items[1], items[2..], "0", "", ITEM_TEXT[4..], 36);
    assert ITEM_TEXT[2..] == ["0", ""] + ITEM_TEXT[4..];
    assert items[0..] == [items[0]] + items[1..];
    MoreItems(items[0], items[1..], "10", "0110101", ITEM_TEXT[2..], 37);
    assert ITEM_TEXT[0..] == ["10", "0110101"] + ITEM_TEXT[2..];
    assert items[0..] == items && ITEM_TEXT[0..] == ITEM_TEXT;
  }

  const DYNAMIC_TOKENS: seq<Token> := [Literal(97), Match(5, 1), Match(4, 6)]

  lemma {:induction false} DynamicTokens(bs: seq<bool>)
    requires At(bs, 117, Str("0")) && At(bs, 118, Str("1110")) && At(bs, 122, Str("11011")) && At(bs, 127, Str("100"))
    ensures TokensAt(LL, DL, bs, 117, DYNAMIC_TOKENS, 130)
  {
    hide At, Str, CodeBits, Prefixable, SymbolAt, FieldAt, DistanceAt, TokenAt, TokensAt, BitsLE;
    LitCodes();
    DistCodes();
    ExamplePrefixable();
    Pow2Small();
    SymbolBack(LL, bs, 117, 97);
    LiteralFrom(LL, DL, bs, 117, 97);
    FirstMatch(bs);
    SecondMatch(bs);
    SymbolBack(LL, bs, 127, 256);
    TokensEnd(LL, DL, bs, 127);
    TokensFrom(LL, DL, bs, 122, Match(4, 6), 127, [], 130);
    TokensFrom(LL, DL, bs, 118, Match(5, 1), 122, [Match(4, 6)] + [], 130);
    TokensFrom(LL, DL, bs, 117, Literal(97), 118, [Match(5, 1)] + ([Match(4, 6)] + []), 130);
    assert [Literal(97)] + ([Match(5, 1)] + ([Match(4, 6)] + [])) == DYNAMIC_TOKENS;
  }

  lemma {:induction false} FirstMatch(bs: seq<bool>)
    requires At(bs, 118, Str("1110"))
    ensures TokenAt(LL, DL, bs, 118, Match(5, 1), 122)
  {
    hide At, Str, CodeBits, Prefixable, SymbolAt, DistanceAt, TokenAt, BitsLE;
    LitCodes();
    DistCodes();
    ExamplePrefixable();
    StrConcat("111", "0");
    assert "111" + "0" == "1110";
    AtConcat(bs, 118, Str("111"), Str("0"));
    AtInside(bs, 121, Str("0"));
    NoField(bs, 121);
    NoField(bs, 122);
    SymbolBack(LL, bs, 118, 259);
    SymbolBack(DL, bs, 121, 0);
    DistanceFrom(DL, bs, 121, 5, 0, 0);
    Rfc1951Lengths();
    Rfc1951Distances();
    MatchFrom(LL, DL, bs, 118, 2, 0, Match(5, 1), 122);
  }

  lemma {:induction false} AtInside(bs: seq<bool>, pos: nat, e: seq<bool>)
    requires At(bs, pos, e)
    ensures pos + |e| <= |bs|
  {
  }

  lemma {:induction false} NoField(bs: seq<bool>, pos: nat)
    requires pos <= |bs|
    ensures FieldAt(bs, pos, 0, 0)
  {
    assert bs[pos..pos] == [];
  }

  lemma {:induction false} SecondMatch(bs: seq<bool>)
    requires At(bs, 122, Str("11011"))
    ensures TokenAt(LL, DL, bs, 122, Match(4, 6), 127)
  {
    hide At, Str, CodeBits, Prefixable, SymbolAt, DistanceAt, TokenAt, BitsLE, FieldAt;
    LitCodes();
    DistCodes();
    ExamplePrefixable();
    StrConcat("110", "11");
    StrConcat("1", "1");
    assert "110" + "11" == "11011" && "1" + "1" == "11";
    AtConcat(bs, 122, Str("110"), Str("11"));
    AtConcat(bs, 125, Str("1"), Str("1"));
    SymbolBack(LL, bs, 122, 258);
    SymbolBack(DL, bs, 125, 4);
    Field(1, "1");
    Pow2Small();
    FieldBack(bs, 126, 1, 1);
    AtInside(bs, 125, Str("1"));
    NoField(bs, 125);
    Rfc1951Lengths();
    Rfc1951Distances();
    DistanceFrom(DL, bs, 125, 4, 4, 1);
    MatchFrom(LL, DL, bs, 122, 1, 0, Match(4, 6), 127);
  }

  // A block with codes of its own, field by field.
  const DYNAMIC: seq<string> := ["101"] + COUNT_TEXT + CL_TEXT + ITEM_TEXT + ["0", "1110", "11011", "100"]

  lemma {:induction false} HeaderBits()
    ensures H.Valid() && H.Bits() == Str(Join(COUNT_TEXT)) + Str(Join(CL_TEXT)) + Str(Join(ITEM_TEXT))
    ensures |Str(Join(COUNT_TEXT))| == 14 && |Str(Join(CL_TEXT))| == 54 && |H.Bits()| == 114
  {
    hide BitsLE, Str, Prefixable, Join, ItemsBits, BlLensBits, AllRuns, CodeBits;
    ExampleHeader();
    AllItems();
    ClBits(0);
    CountBits();
    assert CL_TEXT[0..] == CL_TEXT;
  }

  // The reference decoder reads it as three tokens, worth ten bytes.
  lemma {:induction false} DynamicExample()
    ensures DecodeBlock(Str(Join(DYNAMIC)), 0) == Some(Block(true, DYNAMIC_TOKENS, 130))
    ensures Unpack([], DYNAMIC_TOKENS) == Some([97, 97, 97, 97, 97, 97, 97, 97, 97, 97])
  {
    hide At, Str, TokensAt, HeaderAt, KindBits, Prefixable, Dynamic.Bits, Dynamic.Valid, Join, DecodeBlock;
    var bs := Str(Join(DYNAMIC));
    DynamicPlaces(bs);
    DynamicTokens(bs);
    HeaderBack(H, bs, 3);
    DynamicFrom(bs, 3, LL, DL, 117, DYNAMIC_TOKENS, 130);
    KindDynamic();
    BlockOf(bs, 0, DYN_TREES, true, DYNAMIC_TOKENS, [], 130);
    TenBytes();
  }

  lemma {:induction false} DynamicPlaces(bs: seq<bool>)
    requires bs == Str(Join(DYNAMIC))
    ensures H.Valid() && |H.Bits()| == 114 && At(bs, 0, Str("101")) && At(bs, 3, H.Bits())
    ensures At(bs, 117, Str("0")) && At(bs, 118, Str("1110")) && At(bs, 122, Str("11011")) && At(bs, 127, Str("100"))
  {
    hide At, Str, Join, Dynamic.Bits, Dynamic.Valid;
    HeaderBits();
    var kind, toks := ["101"], ["0", "1110", "11011", "100"];
    JoinConcat(kind + COUNT_TEXT + CL_TEXT + ITEM_TEXT, toks);
    JoinConcat(kind + COUNT_TEXT + CL_TEXT, ITEM_TEXT);
    JoinConcat(kind + COUNT_TEXT, CL_TEXT);
    JoinConcat(kind, COUNT_TEXT);
    ShortFields();
    var k, n, c, i := Str("101"), Str(Join(COUNT_TEXT)), Str(Join(CL_TEXT)), Str(Join(ITEM_TEXT));
    assert k + n + c + i == k + (n + c + i);
    WholeAt(bs, bs, []);
    AtConcat(bs, 0, k + H.Bits(), Str("0" + "1110" + "11011" + "100"));
    AtConcat(bs, 0, k, H.Bits());
    TokenPlaces(bs);
  }

  lemma {:induction false} ShortFields()
    ensures Join(["101"]) == "101" && Join(["0", "1110", "11011", "100"]) == "0" + "1110" + "11011" + "100"
  {
    assert ["101"][1..] == [];
    var f: seq<string> := ["0", "1110", "11011", "100"];
    assert f[1..] == ["1110", "11011", "100"] && f[1..][1..] == ["11011", "100"] && f[1..][1..][1..] == ["100"];
    assert ["100"][1..] == [];
  }

  lemma {:induction false} TokenPlaces(bs: seq<bool>)
    requires At(bs, 117, Str("0" + "1110" + "11011" + "100"))
    ensures At(bs, 117, Str("0")) && At(bs, 118, Str("1110")) && At(bs, 122, Str("11011")) && At(bs, 127, Str("100"))
  {
    hide At, Str;
    StrConcat("0" + "1110" + "11011", "100");
    StrConcat("0" + "1110", "11011");
    StrConcat("0", "1110");
    AtConcat(bs, 117, Str("0") + Str("1110") + Str("11011"), Str("100"));
    AtConcat(bs, 117, Str("0") + Str("1110"), Str("11011"));
    AtConcat(bs, 117, Str("0"), Str("1110"));
  }

  lemma {:induction false} KindDynamic()
    ensures KindBits(DYN_TREES, true) == Str("101")
  {
    Field(5, "101");
  }

  lemma {:induction false} TenBytes()
    ensures Unpack([], DYNAMIC_TOKENS) == Some([97, 97, 97, 97, 97, 97, 97, 97, 97, 97])
  {
    var a: seq<byte>, b: seq<byte> := [97], [97, 97, 97, 97, 97, 97];
    CopySame(a, 5, 1);
    CopySame(b, 4, 6);
    assert [] + a == a && a + Repeat(97, 5) == b && b + Repeat(97, 4) == [97, 97, 97, 97, 97, 97, 97, 97, 97, 97];
    var t1, t2 := [Match(5, 1), Match(4, 6)], [Match(4, 6)];
    assert DYNAMIC_TOKENS[1..] == t1 && t1[1..] == t2 && t2[1..] == [];
    assert Unpack(b, t2) == Unpack(b + Repeat(97, 4), []);
    assert Unpack(a, t1) == Unpack(b, t2);
  }

  lemma {:induction false} CopySame(out: seq<byte>, n: nat, d: nat)
    requires 1 <= d <= |out| && forall i :: 0 <= i < |out| ==> out[i] == 97
    ensures CopyBack(out, n, d) == out + Repeat(97, n)
    decreases n
  {
    if n > 0 { CopySame(out + [97], n - 1, d); }
  }
}
