/**
  CRC-32 of CORE/HASH/crc32.cpp (section 8 of RFC 1952): the table-driven loops
  against the register that shifts out one bit at a time.
 */
module Crc32 {

  type Byte = b: bv32 | b <= 0xFF witness 0

  // ------------------------------------------------------------- bit by bit

  function Xor(a: bv32, b: bv32): bv32 { a ^ b }

  function Half(c: bv32): bv32 { c >> 1 }

  predicate Odd(c: bv32) { c & 1 == 1 }

  /** The polynomial, its low powers first. */
  const POLYNOMIAL: bv32 := 0xEDB8_8320

  /** One bit of the reflected division by the polynomial. */
  function BitStep(c: bv32): bv32 {
    if Odd(c) then Xor(Half(c), POLYNOMIAL) else Half(c)
  }

  function ByteStep(c: bv32): bv32 {
    BitStep(BitStep(BitStep(BitStep(BitStep(BitStep(BitStep(BitStep(c))))))))
  }

  /** The register after some bytes. */
  function Run(c: bv32, s: seq<Byte>): bv32
    decreases |s|
  {
    if s == [] then c else Run(ByteStep(Xor(c, s[0])), s[1..])
  }

  /** The checksum by definition. */
  function Crc(s: seq<Byte>): bv32 { Xor(Run(0xFFFF_FFFF, s), 0xFFFF_FFFF) }

  // ------------------------------------------------------------- the table

  /** crc_table, by rows of sixteen entries. */
  function Row0(j: bv32): bv32 {
    match j
    case 0 => 0x0000_0000 case 1 => 0x7707_3096 case 2 => 0xEE0E_612C case 3 => 0x9909_51BA
    case 4 => 0x076D_C419 case 5 => 0x706A_F48F case 6 => 0xE963_A535 case 7 => 0x9E64_95A3
    case 8 => 0x0EDB_8832 case 9 => 0x79DC_B8A4 case 10 => 0xE0D5_E91E case 11 => 0x97D2_D988
    case 12 => 0x09B6_4C2B case 13 => 0x7EB1_7CBD case 14 => 0xE7B8_2D07 case _ => 0x90BF_1D91
  }

  function Row1(j: bv32): bv32 {
    match j
    case 0 => 0x1DB7_1064 case 1 => 0x6AB0_20F2 case 2 => 0xF3B9_7148 case 3 => 0x84BE_41DE
    case 4 => 0x1ADA_D47D case 5 => 0x6DDD_E4EB case 6 => 0xF4D4_B551 case 7 => 0x83D3_85C7
    case 8 => 0x136C_9856 case 9 => 0x646B_A8C0 case 10 => 0xFD62_F97A case 11 => 0x8A65_C9EC
    case 12 => 0x1401_5C4F case 13 => 0x6306_6CD9 case 14 => 0xFA0F_3D63 case _ => 0x8D08_0DF5
  }

  function Row2(j: bv32): bv32 {
    match j
    case 0 => 0x3B6E_20C8 case 1 => 0x4C69_105E case 2 => 0xD560_41E4 case 3 => 0xA267_7172
    case 4 => 0x3C03_E4D1 case 5 => 0x4B04_D447 case 6 => 0xD20D_85FD case 7 => 0xA50A_B56B
    case 8 => 0x35B5_A8FA case 9 => 0x42B2_986C case 10 => 0xDBBB_C9D6 case 11 => 0xACBC_F940
    case 12 => 0x32D8_6CE3 case 13 => 0x45DF_5C75 case 14 => 0xDCD6_0DCF case _ => 0xABD1_3D59
  }

  function Row3(j: bv32): bv32 {
    match j
    case 0 => 0x26D9_30AC case 1 => 0x51DE_003A case 2 => 0xC8D7_5180 case 3 => 0xBFD0_6116
    case 4 => 0x21B4_F4B5 case 5 => 0x56B3_C423 case 6 => 0xCFBA_9599 case 7 => 0xB8BD_A50F
    case 8 => 0x2802_B89E case 9 => 0x5F05_8808 case 10 => 0xC60C_D9B2 case 11 => 0xB10B_E924
    case 12 => 0x2F6F_7C87 case 13 => 0x5868_4C11 case 14 => 0xC161_1DAB case _ => 0xB666_2D3D
  }

  function Row4(j: bv32): bv32 {
    match j
    case 0 => 0x76DC_4190 case 1 => 0x01DB_7106 case 2 => 0x98D2_20BC case 3 => 0xEFD5_102A
    case 4 => 0x71B1_8589 case 5 => 0x06B6_B51F case 6 => 0x9FBF_E4A5 case 7 => 0xE8B8_D433
    case 8 => 0x7807_C9A2 case 9 => 0x0F00_F934 case 10 => 0x9609_A88E case 11 => 0xE10E_9818
    case 12 => 0x7F6A_0DBB case 13 => 0x086D_3D2D case 14 => 0x9164_6C97 case _ => 0xE663_5C01
  }

  function Row5(j: bv32): bv32 {
    match j
    case 0 => 0x6B6B_51F4 case 1 => 0x1C6C_6162 case 2 => 0x8565_30D8 case 3 => 0xF262_004E
    case 4 => 0x6C06_95ED case 5 => 0x1B01_A57B case 6 => 0x8208_F4C1 case 7 => 0xF50F_C457
    case 8 => 0x65B0_D9C6 case 9 => 0x12B7_E950 case 10 => 0x8BBE_B8EA case 11 => 0xFCB9_887C
    case 12 => 0x62DD_1DDF case 13 => 0x15DA_2D49 case 14 => 0x8CD3_7CF3 case _ => 0xFBD4_4C65
  }

  function Row6(j: bv32): bv32 {
    match j
    case 0 => 0x4DB2_6158 case 1 => 0x3AB5_51CE case 2 => 0xA3BC_0074 case 3 => 0xD4BB_30E2
    case 4 => 0x4ADF_A541 case 5 => 0x3DD8_95D7 case 6 => 0xA4D1_C46D case 7 => 0xD3D6_F4FB
    case 8 => 0x4369_E96A case 9 => 0x346E_D9FC case 10 => 0xAD67_8846 case 11 => 0xDA60_B8D0
    case 12 => 0x4404_2D73 case 13 => 0x3303_1DE5 case 14 => 0xAA0A_4C5F case _ => 0xDD0D_7CC9
  }

  function Row7(j: bv32): bv32 {
    match j
    case 0 => 0x5005_713C case 1 => 0x2702_41AA case 2 => 0xBE0B_1010 case 3 => 0xC90C_2086
    case 4 => 0x5768_B525 case 5 => 0x206F_85B3 case 6 => 0xB966_D409 case 7 => 0xCE61_E49F
    case 8 => 0x5EDE_F90E case 9 => 0x29D9_C998 case 10 => 0xB0D0_9822 case 11 => 0xC7D7_A8B4
    case 12 => 0x59B3_3D17 case 13 => 0x2EB4_0D81 case 14 => 0xB7BD_5C3B case _ => 0xC0BA_6CAD
  }

  function Row8(j: bv32): bv32 {
    match j
    case 0 => 0xEDB8_8320 case 1 => 0x9ABF_B3B6 case 2 => 0x03B6_E20C case 3 => 0x74B1_D29A
    case 4 => 0xEAD5_4739 case 5 => 0x9DD2_77AF case 6 => 0x04DB_2615 case 7 => 0x73DC_1683
    case 8 => 0xE363_0B12 case 9 => 0x9464_3B84 case 10 => 0x0D6D_6A3E case 11 => 0x7A6A_5AA8
    case 12 => 0xE40E_CF0B case 13 => 0x9309_FF9D case 14 => 0x0A00_AE27 case _ => 0x7D07_9EB1
  }

  function Row9(j: bv32): bv32 {
    match j
    case 0 => 0xF00F_9344 case 1 => 0x8708_A3D2 case 2 => 0x1E01_F268 case 3 => 0x6906_C2FE
    case 4 => 0xF762_575D case 5 => 0x8065_67CB case 6 => 0x196C_3671 case 7 => 0x6E6B_06E7
    case 8 => 0xFED4_1B76 case 9 => 0x89D3_2BE0 case 10 => 0x10DA_7A5A case 11 => 0x67DD_4ACC
    case 12 => 0xF9B9_DF6F case 13 => 0x8EBE_EFF9 case 14 => 0x17B7_BE43 case _ => 0x60B0_8ED5
  }

  function RowA(j: bv32): bv32 {
    match j
    case 0 => 0xD6D6_A3E8 case 1 => 0xA1D1_937E case 2 => 0x38D8_C2C4 case 3 => 0x4FDF_F252
    case 4 => 0xD1BB_67F1 case 5 => 0xA6BC_5767 case 6 => 0x3FB5_06DD case 7 => 0x48B2_364B
    case 8 => 0xD80D_2BDA case 9 => 0xAF0A_1B4C case 10 => 0x3603_4AF6 case 11 => 0x4104_7A60
    case 12 => 0xDF60_EFC3 case 13 => 0xA867_DF55 case 14 => 0x316E_8EEF case _ => 0x4669_BE79
  }

  function RowB(j: bv32): bv32 {
    match j
    case 0 => 0xCB61_B38C case 1 => 0xBC66_831A case 2 => 0x256F_D2A0 case 3 => 0x5268_E236
    case 4 => 0xCC0C_7795 case 5 => 0xBB0B_4703 case 6 => 0x2202_16B9 case 7 => 0x5505_262F
    case 8 => 0xC5BA_3BBE case 9 => 0xB2BD_0B28 case 10 => 0x2BB4_5A92 case 11 => 0x5CB3_6A04
    case 12 => 0xC2D7_FFA7 case 13 => 0xB5D0_CF31 case 14 => 0x2CD9_9E8B case _ => 0x5BDE_AE1D
  }

  function RowC(j: bv32): bv32 {
    match j
    case 0 => 0x9B64_C2B0 case 1 => 0xEC63_F226 case 2 => 0x756A_A39C case 3 => 0x026D_930A
    case 4 => 0x9C09_06A9 case 5 => 0xEB0E_363F case 6 => 0x7207_6785 case 7 => 0x0500_5713
    case 8 => 0x95BF_4A82 case 9 => 0xE2B8_7A14 case 10 => 0x7BB1_2BAE case 11 => 0x0CB6_1B38
    case 12 => 0x92D2_8E9B case 13 => 0xE5D5_BE0D case 14 => 0x7CDC_EFB7 case _ => 0x0BDB_DF21
  }

  function RowD(j: bv32): bv32 {
    match j
    case 0 => 0x86D3_D2D4 case 1 => 0xF1D4_E242 case 2 => 0x68DD_B3F8 case 3 => 0x1FDA_836E
    case 4 => 0x81BE_16CD case 5 => 0xF6B9_265B case 6 => 0x6FB0_77E1 case 7 => 0x18B7_4777
    case 8 => 0x8808_5AE6 case 9 => 0xFF0F_6A70 case 10 => 0x6606_3BCA case 11 => 0x1101_0B5C
    case 12 => 0x8F65_9EFF case 13 => 0xF862_AE69 case 14 => 0x616B_FFD3 case _ => 0x166C_CF45
  }

  function RowE(j: bv32): bv32 {
    match j
    case 0 => 0xA00A_E278 case 1 => 0xD70D_D2EE case 2 => 0x4E04_8354 case 3 => 0x3903_B3C2
    case 4 => 0xA767_2661 case 5 => 0xD060_16F7 case 6 => 0x4969_474D case 7 => 0x3E6E_77DB
    case 8 => 0xAED1_6A4A case 9 => 0xD9D6_5ADC case 10 => 0x40DF_0B66 case 11 => 0x37D8_3BF0
    case 12 => 0xA9BC_AE53 case 13 => 0xDEBB_9EC5 case 14 => 0x47B2_CF7F case _ => 0x30B5_FFE9
  }

  function RowF(j: bv32): bv32 {
    match j
    case 0 => 0xBDBD_F21C case 1 => 0xCABA_C28A case 2 => 0x53B3_9330 case 3 => 0x24B4_A3A6
    case 4 => 0xBAD0_3605 case 5 => 0xCDD7_0693 case 6 => 0x54DE_5729 case 7 => 0x23D9_67BF
    case 8 => 0xB366_7A2E case 9 => 0xC461_4AB8 case 10 => 0x5D68_1B02 case 11 => 0x2A6F_2B94
    case 12 => 0xB40B_BE37 case 13 => 0xC30C_8EA1 case 14 => 0x5A05_DF1B case _ => 0x2D02_EF8D
  }

  function Table(i: bv32): bv32 {
    var j := i & 0x0F;
    match i >> 4
    case 0 => Row0(j) case 1 => Row1(j) case 2 => Row2(j) case 3 => Row3(j)
    case 4 => Row4(j) case 5 => Row5(j) case 6 => Row6(j) case 7 => Row7(j)
    case 8 => Row8(j) case 9 => Row9(j) case 10 => RowA(j) case 11 => RowB(j)
    case 12 => RowC(j) case 13 => RowD(j) case 14 => RowE(j) case _ => RowF(j)
  }

  lemma Sixteen(j: bv32)
    requires j <= 0x0F
    ensures 8 <= j || j == 0 || j == 1 || j == 2 || j == 3 || j == 4 || j == 5 || j == 6 || j == 7
    ensures j < 8 || j == 8 || j == 9 || j == 10 || j == 11 || j == 12 || j == 13 || j == 14 || j == 15
  {
  }

  lemma CheckRow0(j: bv32) requires j <= 0x0F ensures Row0(j) == ByteStep(0x00 | j) { Sixteen(j); }
  lemma CheckRow1(j: bv32) requires j <= 0x0F ensures Row1(j) == ByteStep(0x10 | j) { Sixteen(j); }
  lemma CheckRow2(j: bv32) requires j <= 0x0F ensures Row2(j) == ByteStep(0x20 | j) { Sixteen(j); }
  lemma CheckRow3(j: bv32) requires j <= 0x0F ensures Row3(j) == ByteStep(0x30 | j) { Sixteen(j); }
  lemma CheckRow4(j: bv32) requires j <= 0x0F ensures Row4(j) == ByteStep(0x40 | j) { Sixteen(j); }
  lemma CheckRow5(j: bv32) requires j <= 0x0F ensures Row5(j) == ByteStep(0x50 | j) { Sixteen(j); }
  lemma CheckRow6(j: bv32) requires j <= 0x0F ensures Row6(j) == ByteStep(0x60 | j) { Sixteen(j); }
  lemma CheckRow7(j: bv32) requires j <= 0x0F ensures Row7(j) == ByteStep(0x70 | j) { Sixteen(j); }
  lemma CheckRow8(j: bv32) requires j <= 0x0F ensures Row8(j) == ByteStep(0x80 | j) { Sixteen(j); }
  lemma CheckRow9(j: bv32) requires j <= 0x0F ensures Row9(j) == ByteStep(0x90 | j) { Sixteen(j); }
  lemma CheckRowA(j: bv32) requires j <= 0x0F ensures RowA(j) == ByteStep(0xA0 | j) { Sixteen(j); }
  lemma CheckRowB(j: bv32) requires j <= 0x0F ensures RowB(j) == ByteStep(0xB0 | j) { Sixteen(j); }
  lemma CheckRowC(j: bv32) requires j <= 0x0F ensures RowC(j) == ByteStep(0xC0 | j) { Sixteen(j); }
  lemma CheckRowD(j: bv32) requires j <= 0x0F ensures RowD(j) == ByteStep(0xD0 | j) { Sixteen(j); }
  lemma CheckRowE(j: bv32) requires j <= 0x0F ensures RowE(j) == ByteStep(0xE0 | j) { Sixteen(j); }
  lemma CheckRowF(j: bv32) requires j <= 0x0F ensures RowF(j) == ByteStep(0xF0 | j) { Sixteen(j); }

  /** Every entry of the table is what eight single bit steps make of its index. */
  lemma TableIsByteStep(i: bv32)
    requires i <= 0xFF
    ensures Table(i) == ByteStep(i)
  {
    var r, j := i >> 4, i & 0x0F;
    assert i == ((r << 4) | j) && j <= 0x0F && r <= 0x0F;
    if r == 0 { CheckRow0(j); }
    else if r == 1 { CheckRow1(j); }
    else if r == 2 { CheckRow2(j); }
    else if r == 3 { CheckRow3(j); }
    else if r == 4 { CheckRow4(j); }
    else if r == 5 { CheckRow5(j); }
    else if r == 6 { CheckRow6(j); }
    else if r == 7 { CheckRow7(j); }
    else if r == 8 { CheckRow8(j); }
    else if r == 9 { CheckRow9(j); }
    else if r == 10 { CheckRowA(j); }
    else if r == 11 { CheckRowB(j); }
    else if r == 12 { CheckRowC(j); }
    else if r == 13 { CheckRowD(j); }
    else if r == 14 { CheckRowE(j); }
    else { CheckRowF(j); }
  }

  // ------------------------------------------------------------- linearity

  lemma HalfXor(a: bv32, b: bv32)
    ensures Half(Xor(a, b)) == Xor(Half(a), Half(b))
  {
  }

  lemma OddXor(a: bv32, b: bv32)
    ensures Odd(Xor(a, b)) <==> Odd(a) != Odd(b)
  {
  }

  lemma XorUndone(x: bv32, p: bv32)
    ensures Xor(Xor(x, p), p) == x
  {
  }

  lemma XorRight(x: bv32, y: bv32, p: bv32)
    ensures Xor(x, Xor(y, p)) == Xor(Xor(x, y), p)
  {
  }

  lemma XorSwap(x: bv32, y: bv32)
    ensures Xor(x, y) == Xor(y, x)
  {
  }

  lemma XorLeft(x: bv32, y: bv32, p: bv32)
    ensures Xor(Xor(x, p), y) == Xor(Xor(x, y), p)
  {
    hide Xor;
    XorSwap(Xor(x, p), y);
    XorRight(y, x, p);
    XorSwap(x, y);
  }

  lemma XorBoth(x: bv32, y: bv32, p: bv32)
    ensures Xor(Xor(x, p), Xor(y, p)) == Xor(x, y)
  {
    hide Xor;
    XorRight(Xor(x, p), y, p);
    XorLeft(x, y, p);
    XorUndone(Xor(x, y), p);
  }

  lemma BitStepXor(a: bv32, b: bv32)
    ensures BitStep(Xor(a, b)) == Xor(BitStep(a), BitStep(b))
  {
    hide Xor, Half, Odd;
    HalfXor(a, b);
    OddXor(a, b);
    XorBoth(Half(a), Half(b), POLYNOMIAL);
    XorLeft(Half(a), Half(b), POLYNOMIAL);
    XorRight(Half(a), Half(b), POLYNOMIAL);
  }

  /** Eight steps are linear as well. */
  lemma ByteStepXor(a: bv32, b: bv32)
    ensures ByteStep(Xor(a, b)) == Xor(ByteStep(a), ByteStep(b))
  {
    hide Xor, BitStep;
    var a1, b1 := BitStep(a), BitStep(b);
    BitStepXor(a, b);
    var a2, b2 := BitStep(a1), BitStep(b1);
    BitStepXor(a1, b1);
    var a3, b3 := BitStep(a2), BitStep(b2);
    BitStepXor(a2, b2);
    var a4, b4 := BitStep(a3), BitStep(b3);
    BitStepXor(a3, b3);
    var a5, b5 := BitStep(a4), BitStep(b4);
    BitStepXor(a4, b4);
    var a6, b6 := BitStep(a5), BitStep(b5);
    BitStepXor(a5, b5);
    var a7, b7 := BitStep(a6), BitStep(b6);
    BitStepXor(a6, b6);
    BitStepXor(a7, b7);
  }

  function Shift8(c: bv32): bv32 { c >> 8 }

  function Low(c: bv32): bv32 { c & 0xFF }

  function High(c: bv32): bv32 { c & 0xFFFF_FF00 }

  /** Eight steps on a register whose low byte is zero only shift it. */
  lemma LowByteZero(c: bv32)
    ensures ByteStep(High(c)) == Shift8(c)
  {
  }

  lemma Bytes(c: bv32)
    ensures Xor(High(c), Low(c)) == c && Low(c) <= 0xFF
  {
  }

  lemma ByteIn(c: bv32, ch: bv32)
    requires ch <= 0xFF
    ensures Shift8(Xor(c, ch)) == Shift8(c) && Xor(ch, c) == Xor(c, ch)
  {
  }

  /** The step of the loops: the table entry of the low byte, on the register without it. */
  lemma TableStep(c: bv32, ch: Byte)
    ensures Low(Xor(ch, c)) <= 0xFF
    ensures Xor(Shift8(c), Table(Low(Xor(ch, c)))) == ByteStep(Xor(c, ch))
  {
    hide Xor, Low, High, Shift8, ByteStep, Table;
    var x := Xor(c, ch);
    Bytes(x);
    ByteIn(c, ch);
    ByteStepXor(High(x), Low(x));
    LowByteZero(x);
    TableIsByteStep(Low(x));
  }

  // ------------------------------------------------------------- the loops

  lemma {:induction false} RunSnoc(c: bv32, s: seq<Byte>, ch: Byte)
    ensures Run(c, s + [ch]) == ByteStep(Xor(Run(c, s), ch))
    decreases |s|
  {
    hide ByteStep, Xor;
    if s == [] {
      assert Run(c, [ch]) == Run(ByteStep(Xor(c, ch)), []);
    } else {
      assert (s + [ch])[1..] == s[1..] + [ch];
      RunSnoc(ByteStep(Xor(c, s[0])), s[1..], ch);
    }
  }

  /** The one-shot form over a buffer. */
  method CrcOfBuffer(buff: seq<Byte>) returns (crc: bv32)
    ensures crc == Crc(buff)
  {
    hide ByteStep, Table, Xor, Low, Shift8;
    crc := 0xFFFF_FFFF;
    for i := 0 to |buff|
      invariant crc == Run(0xFFFF_FFFF, buff[..i])
    {
      var ch := buff[i];
      TableStep(crc, ch);
      var index := Low(Xor(ch, crc));
      assert buff[..i + 1] == buff[..i] + [ch];
      RunSnoc(0xFFFF_FFFF, buff[..i], ch);
      crc := Shift8(crc);
      crc := Xor(crc, Table(index));
    }
    assert buff[..|buff|] == buff;
    crc := Xor(crc, 0xFFFF_FFFF);
  }

  /** A signature that bytes are appended to: StartCRC, CRC32(sig, byte) and FinalizeCRC. */
  class Signature {
    var crc: bv32

    method Start()
      modifies this
      ensures crc == Run(0xFFFF_FFFF, [])
    {
      crc := 0xFFFF_FFFF;
    }

    method Append(byte: Byte, ghost before: seq<Byte>)
      requires crc == Run(0xFFFF_FFFF, before)
      modifies this
      ensures crc == Run(0xFFFF_FFFF, before + [byte])
    {
      hide ByteStep, Table, Xor, Low, Shift8;
      TableStep(crc, byte);
      var index := Low(Xor(byte, crc));
      RunSnoc(0xFFFF_FFFF, before, byte);
      crc := Shift8(crc);
      crc := Xor(crc, Table(index));
    }

    method Finalize()
      modifies this
      ensures crc == Xor(old(crc), 0xFFFF_FFFF)
    {
      crc := Xor(crc, 0xFFFF_FFFF);
    }
  }

  /** Byte by byte gives the same as the one-shot form. */
  method CrcByByte(s: seq<Byte>) returns (crc: bv32)
    ensures crc == Crc(s)
  {
    var sig := new Signature;
    sig.Start();
    for i := 0 to |s|
      invariant sig.crc == Run(0xFFFF_FFFF, s[..i])
    {
      sig.Append(s[i], s[..i]);
      assert s[..i + 1] == s[..i] + [s[i]];
    }
    assert s[..|s|] == s;
    sig.Finalize();
    crc := sig.crc;
  }

  /** Lower-case letters count as capitals and slashes as backslashes. */
  function Fold(ch: Byte): Byte {
    if 0x61 <= ch <= 0x7A then ch - 0x20 else if ch == 0x2F then 0x5C else ch
  }

  function FoldAll(s: seq<Byte>): (r: seq<Byte>)
    ensures |r| == |s| && forall i :: 0 <= i < |s| ==> r[i] == Fold(s[i])
  {
    if s == [] then [] else [Fold(s[0])] + FoldAll(s[1..])
  }

  /** The case-insensitive form is the checksum of the folded buffer. */
  method CiCrcOfBuffer(buff: seq<Byte>) returns (crc: bv32)
    ensures crc == Crc(FoldAll(buff))
  {
    ghost var folded := FoldAll(buff);
    hide ByteStep, Table, Xor, Low, Shift8;
    crc := 0xFFFF_FFFF;
    for i := 0 to |buff|
      invariant crc == Run(0xFFFF_FFFF, folded[..i])
    {
      var ch: bv32 := buff[i];
      if 0x61 <= ch <= 0x7A { ch := ch - 0x20; }
      if ch == 0x2F { ch := 0x5C; }
      TableStep(crc, ch);
      var index := Low(Xor(ch, crc));
      assert folded[..i + 1] == folded[..i] + [ch];
      RunSnoc(0xFFFF_FFFF, folded[..i], ch);
      crc := Shift8(crc);
      crc := Xor(crc, Table(index));
    }
    assert folded[..|buff|] == folded;
    crc := Xor(crc, 0xFFFF_FFFF);
  }

  // -------------------------------------------------------------- detection

  function BitBack(r: bv32): bv32 {
    if r & 0x8000_0000 != 0 then ((r ^ POLYNOMIAL) << 1) | 1 else r << 1
  }

  /** A single step can be undone: its top bit tells what was shifted out. */
  lemma BitStepUndone(c: bv32)
    ensures BitBack(BitStep(c)) == c
  {
  }

  lemma ByteStepInjective(a: bv32, b: bv32)
    requires ByteStep(a) == ByteStep(b)
    ensures a == b
  {
    hide BitStep, BitBack;
    var a1, b1 := BitStep(a), BitStep(b);
    var a2, b2 := BitStep(a1), BitStep(b1);
    var a3, b3 := BitStep(a2), BitStep(b2);
    var a4, b4 := BitStep(a3), BitStep(b3);
    var a5, b5 := BitStep(a4), BitStep(b4);
    var a6, b6 := BitStep(a5), BitStep(b5);
    var a7, b7 := BitStep(a6), BitStep(b6);
    BitStepInjective(a7, b7);
    BitStepInjective(a6, b6);
    BitStepInjective(a5, b5);
    BitStepInjective(a4, b4);
    BitStepInjective(a3, b3);
    BitStepInjective(a2, b2);
    BitStepInjective(a1, b1);
    BitStepInjective(a, b);
  }

  lemma BitStepInjective(a: bv32, b: bv32)
    requires BitStep(a) == BitStep(b)
    ensures a == b
  {
    hide BitStep, BitBack;
    BitStepUndone(a);
    BitStepUndone(b);
  }

  /** Equal bytes keep different registers different. */
  lemma {:induction false} RunInjective(c: bv32, d: bv32, s: seq<Byte>)
    requires Run(c, s) == Run(d, s)
    ensures c == d
    decreases |s|
  {
    hide ByteStep, Xor;
    if s != [] {
      RunInjective(ByteStep(Xor(c, s[0])), ByteStep(Xor(d, s[0])), s[1..]);
      ByteStepInjective(Xor(c, s[0]), Xor(d, s[0]));
      XorUndone(c, s[0]);
      XorUndone(d, s[0]);
    }
  }

  lemma {:induction false} RunConcat(c: bv32, s: seq<Byte>, t: seq<Byte>)
    ensures Run(c, s + t) == Run(Run(c, s), t)
    decreases |s|
  {
    hide ByteStep, Xor;
    if s == [] {
      assert s + t == t;
    } else {
      assert (s + t)[1..] == s[1..] + t;
      RunConcat(ByteStep(Xor(c, s[0])), s[1..], t);
    }
  }

  // Up to four bytes fill the register: they act on it as one word.

  function Up8(c: bv32): bv32 { c << 8 }

  function Word(s: seq<Byte>): bv32
    decreases |s|
  {
    if s == [] then 0 else Xor(s[0], Up8(Word(s[1..])))
  }

  lemma LowOfWord(ch: bv32, w: bv32)
    requires ch <= 0xFF
    ensures Low(Xor(ch, Up8(w))) == ch
  {
  }

  lemma RestOfWord(ch: bv32, w: bv32)
    requires ch <= 0xFF && w <= 0xFF_FFFF
    ensures Shift8(Xor(ch, Up8(w))) == w
  {
  }

  lemma UpIsHigh(w: bv32)
    requires w <= 0xFF_FFFF
    ensures High(Up8(w)) == Up8(w) && Shift8(Up8(w)) == w
  {
  }

  lemma UpStepsDown(w: bv32)
    requires w <= 0xFF_FFFF
    ensures ByteStep(Up8(w)) == w
  {
    hide Up8, ByteStep, High, Shift8;
    UpIsHigh(w);
    LowByteZero(Up8(w));
  }

  lemma WordOfOne(ch: bv32, w: bv32)
    requires ch <= 0xFF && w <= 0xFF_FFFF
    ensures Low(Xor(ch, Up8(w))) == ch && Shift8(Xor(ch, Up8(w))) == w && ByteStep(Up8(w)) == w
  {
    hide Xor, Up8, ByteStep, Low, Shift8;
    LowOfWord(ch, w);
    RestOfWord(ch, w);
    UpStepsDown(w);
  }

  lemma WordGrows(ch: bv32, w: bv32)
    requires ch <= 0xFF
    ensures w == 0 ==> Xor(ch, Up8(w)) <= 0xFF
    ensures w <= 0xFF ==> Xor(ch, Up8(w)) <= 0xFFFF
    ensures w <= 0xFFFF ==> Xor(ch, Up8(w)) <= 0xFF_FFFF
  {
  }

  lemma {:induction false} WordFits(s: seq<Byte>)
    requires |s| <= 3
    ensures Word(s) <= 0xFF_FFFF && (|s| <= 2 ==> Word(s) <= 0xFFFF) && (|s| <= 1 ==> Word(s) <= 0xFF) &&
      (|s| == 0 ==> Word(s) == 0)
    decreases |s|
  {
    hide Xor, Up8;
    if s != [] {
      WordFits(s[1..]);
      WordGrows(s[0], Word(s[1..]));
    }
  }

  function Steps(c: bv32, n: nat): bv32
    decreases n
  {
    if n == 0 then c else Steps(ByteStep(c), n - 1)
  }

  lemma {:induction false} RunIsSteps(c: bv32, s: seq<Byte>)
    requires |s| <= 4
    ensures Run(c, s) == Steps(Xor(c, Word(s)), |s|)
    decreases |s|
  {
    if s == [] {
      XorNothing(c);
    } else {
      hide Xor, Up8, ByteStep;
      var ch, w := s[0], Word(s[1..]);
      WordFits(s[1..]);
      WordOfOne(ch, w);
      RunIsSteps(ByteStep(Xor(c, ch)), s[1..]);
      XorRight(c, ch, Up8(w));
      ByteStepXor(Xor(c, ch), Up8(w));
    }
  }

  lemma XorNothing(c: bv32)
    ensures Xor(c, 0) == c
  {
  }

  lemma {:induction false} StepsInjective(a: bv32, b: bv32, n: nat)
    requires Steps(a, n) == Steps(b, n)
    ensures a == b
    decreases n
  {
    hide ByteStep;
    if n > 0 {
      StepsInjective(ByteStep(a), ByteStep(b), n - 1);
      ByteStepInjective(a, b);
    }
  }

  lemma {:induction false} WordInjective(s: seq<Byte>, t: seq<Byte>)
    requires |s| == |t| <= 4 && Word(s) == Word(t)
    ensures s == t
    decreases |s|
  {
    hide Xor, Up8, Low, Shift8;
    if s != [] {
      WordFits(s[1..]);
      WordFits(t[1..]);
      WordOfOne(s[0], Word(s[1..]));
      WordOfOne(t[0], Word(t[1..]));
      WordInjective(s[1..], t[1..]);
      assert s == [s[0]] + s[1..] && t == [t[0]] + t[1..];
    }
  }

  /**
    Two buffers of equal length that differ only within four consecutive bytes,
    in particular in one byte, have different checksums.
   */
  lemma {:induction false} BurstDetected(before: seq<Byte>, s: seq<Byte>, t: seq<Byte>, after: seq<Byte>)
    requires |s| == |t| <= 4 && s != t
    ensures Crc(before + s + after) != Crc(before + t + after)
  {
    hide Xor, Run, Word, Steps;
    var c, ones := Run(0xFFFF_FFFF, before), 0xFFFF_FFFF;
    RunConcat(ones, before + s, after);
    RunConcat(ones, before, s);
    RunConcat(ones, before + t, after);
    RunConcat(ones, before, t);
    if Crc(before + s + after) == Crc(before + t + after) {
      XorUndone(Run(ones, before + s + after), ones);
      XorUndone(Run(ones, before + t + after), ones);
      RunInjective(Run(c, s), Run(c, t), after);
      RunIsSteps(c, s);
      RunIsSteps(c, t);
      StepsInjective(Xor(c, Word(s)), Xor(c, Word(t)), |s|);
      XorSwap(c, Word(s));
      XorSwap(c, Word(t));
      XorUndone(Word(s), c);
      XorUndone(Word(t), c);
      WordInjective(s, t);
    }
  }

  // ------------------------------------------------------------ case and value

  /** The same byte, or the two cases of a letter, or the two slashes. */
  predicate Alike(a: Byte, b: Byte) {
    || a == b
    || (0x61 <= a <= 0x7A && b == a - 0x20) || (0x61 <= b <= 0x7A && a == b - 0x20)
    || (a == 0x2F && b == 0x5C) || (a == 0x5C && b == 0x2F)
  }

  lemma FoldAlike(a: Byte, b: Byte)
    ensures Fold(a) == Fold(b) <==> Alike(a, b)
  {
  }

  /**
    Buffers that differ only in the case of letters and the direction of slashes
    have the same case-insensitive checksum, and up to four bytes only these;
    without small letters and forward slashes it is the plain checksum.
   */
  lemma {:induction false} CaseIgnored(s: seq<Byte>, t: seq<Byte>)
    requires |s| == |t|
    ensures (forall i :: 0 <= i < |s| ==> Alike(s[i], t[i])) ==> Crc(FoldAll(s)) == Crc(FoldAll(t))
    ensures |s| <= 4 && Crc(FoldAll(s)) == Crc(FoldAll(t)) ==> forall i :: 0 <= i < |s| ==> Alike(s[i], t[i])
    ensures (forall i :: 0 <= i < |s| ==> !(0x61 <= s[i] <= 0x7A) && s[i] != 0x2F) ==> Crc(FoldAll(s)) == Crc(s)
  {
    hide Crc, Fold, Alike;
    var u, v := FoldAll(s), FoldAll(t);
    forall i | 0 <= i < |s| ensures u[i] == v[i] <==> Alike(s[i], t[i]) { FoldAlike(s[i], t[i]); }
    if forall i :: 0 <= i < |s| ==> Alike(s[i], t[i]) { assert u == v; }
    if |s| <= 4 && u != v {
      BurstDetected([], u, v, []);
      assert [] + u + [] == u && [] + v + [] == v;
    }
    if forall i :: 0 <= i < |s| ==> !(0x61 <= s[i] <= 0x7A) && s[i] != 0x2F {
      forall i | 0 <= i < |s| ensures u[i] == s[i] { FoldsNot(s[i]); }
      assert u == s;
    }
  }

  lemma FoldsNot(ch: Byte)
    requires !(0x61 <= ch <= 0x7A) && ch != 0x2F
    ensures Fold(ch) == ch
  {
  }

  lemma ThreeBytes(c: bv32, s: seq<Byte>)
    requires |s| == 3
    ensures Run(c, s) == ByteStep(Xor(ByteStep(Xor(ByteStep(Xor(c, s[0])), s[1])), s[2]))
  {
    hide ByteStep, Xor;
    var c1 := ByteStep(Xor(c, s[0]));
    var c2 := ByteStep(Xor(c1, s[1]));
    assert s[1..][1..][1..] == [] && s[1..][1..][0] == s[2];
    assert Run(c2, s[1..][1..]) == ByteStep(Xor(c2, s[2]));
    assert Run(c1, s[1..]) == Run(c2, s[1..][1..]);
  }

  /** The check value: the checksum of the digits 1 to 9. */
  lemma {:induction false} CheckValue()
    ensures Crc([0x31, 0x32, 0x33, 0x34, 0x35, 0x36, 0x37, 0x38, 0x39]) == 0xCBF4_3926
  {
    hide ByteStep, Run;
    var a, b, c: seq<Byte> := [0x31, 0x32, 0x33], [0x34, 0x35, 0x36], [0x37, 0x38, 0x39];
    assert a + b + c == [0x31, 0x32, 0x33, 0x34, 0x35, 0x36, 0x37, 0x38, 0x39];
    RunConcat(0xFFFF_FFFF, a + b, c);
    RunConcat(0xFFFF_FFFF, a, b);
    ThreeBytes(0xFFFF_FFFF, a);
    ThreeBytes(0x77B7_9C2D, b);
    ThreeBytes(0xF68D_2C9E, c);
    Registers();
  }

  lemma Registers()
    ensures ByteStep(Xor(ByteStep(Xor(ByteStep(Xor(0xFFFF_FFFF, 0x31)), 0x32)), 0x33)) == 0x77B7_9C2D
    ensures ByteStep(Xor(ByteStep(Xor(ByteStep(Xor(0x77B7_9C2D, 0x34)), 0x35)), 0x36)) == 0xF68D_2C9E
    ensures ByteStep(Xor(ByteStep(Xor(ByteStep(Xor(0xF68D_2C9E, 0x37)), 0x38)), 0x39)) == 0x340B_C6D9
  {
  }
}
