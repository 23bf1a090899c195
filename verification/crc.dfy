/** The CRC-16 of Dynamixel Protocol 2.0 as the packet class computes it: the
    256-entry lookup table of the protocol class, proved equal entry by entry to
    the table polynomial 0x8005 defines, and the byte-wise `update_crc` loop. */
module Crc16 {
  import opened Bytes
  import opened CrcPolynomial

  /** The lookup table of the protocol class, eight entries per row in the
      order it lists them; row `r` holds entries `8 * r` to `8 * r + 7`. The
      last case is row 31. */
  function CrcRow(r: Byte): (row: seq<bv16>)
    requires r < 32
    ensures |row| == 8
  {
    match r
    case 0 => [0x0000, 0x8005, 0x800F, 0x000A, 0x801B, 0x001E, 0x0014, 0x8011]
    case 1 => [0x8033, 0x0036, 0x003C, 0x8039, 0x0028, 0x802D, 0x8027, 0x0022]
    case 2 => [0x8063, 0x0066, 0x006C, 0x8069, 0x0078, 0x807D, 0x8077, 0x0072]
    case 3 => [0x0050, 0x8055, 0x805F, 0x005A, 0x804B, 0x004E, 0x0044, 0x8041]
    case 4 => [0x80C3, 0x00C6, 0x00CC, 0x80C9, 0x00D8, 0x80DD, 0x80D7, 0x00D2]
    case 5 => [0x00F0, 0x80F5, 0x80FF, 0x00FA, 0x80EB, 0x00EE, 0x00E4, 0x80E1]
    case 6 => [0x00A0, 0x80A5, 0x80AF, 0x00AA, 0x80BB, 0x00BE, 0x00B4, 0x80B1]
    case 7 => [0x8093, 0x0096, 0x009C, 0x8099, 0x0088, 0x808D, 0x8087, 0x0082]
    case 8 => [0x8183, 0x0186, 0x018C, 0x8189, 0x0198, 0x819D, 0x8197, 0x0192]
    case 9 => [0x01B0, 0x81B5, 0x81BF, 0x01BA, 0x81AB, 0x01AE, 0x01A4, 0x81A1]
    case 10 => [0x01E0, 0x81E5, 0x81EF, 0x01EA, 0x81FB, 0x01FE, 0x01F4, 0x81F1]
    case 11 => [0x81D3, 0x01D6, 0x01DC, 0x81D9, 0x01C8, 0x81CD, 0x81C7, 0x01C2]
    case 12 => [0x0140, 0x8145, 0x814F, 0x014A, 0x815B, 0x015E, 0x0154, 0x8151]
    case 13 => [0x8173, 0x0176, 0x017C, 0x8179, 0x0168, 0x816D, 0x8167, 0x0162]
    case 14 => [0x8123, 0x0126, 0x012C, 0x8129, 0x0138, 0x813D, 0x8137, 0x0132]
    case 15 => [0x0110, 0x8115, 0x811F, 0x011A, 0x810B, 0x010E, 0x0104, 0x8101]
    case 16 => [0x8303, 0x0306, 0x030C, 0x8309, 0x0318, 0x831D, 0x8317, 0x0312]
    case 17 => [0x0330, 0x8335, 0x833F, 0x033A, 0x832B, 0x032E, 0x0324, 0x8321]
    case 18 => [0x0360, 0x8365, 0x836F, 0x036A, 0x837B, 0x037E, 0x0374, 0x8371]
    case 19 => [0x8353, 0x0356, 0x035C, 0x8359, 0x0348, 0x834D, 0x8347, 0x0342]
    case 20 => [0x03C0, 0x83C5, 0x83CF, 0x03CA, 0x83DB, 0x03DE, 0x03D4, 0x83D1]
    case 21 => [0x83F3, 0x03F6, 0x03FC, 0x83F9, 0x03E8, 0x83ED, 0x83E7, 0x03E2]
    case 22 => [0x83A3, 0x03A6, 0x03AC, 0x83A9, 0x03B8, 0x83BD, 0x83B7, 0x03B2]
    case 23 => [0x0390, 0x8395, 0x839F, 0x039A, 0x838B, 0x038E, 0x0384, 0x8381]
    case 24 => [0x0280, 0x8285, 0x828F, 0x028A, 0x829B, 0x029E, 0x0294, 0x8291]
    case 25 => [0x82B3, 0x02B6, 0x02BC, 0x82B9, 0x02A8, 0x82AD, 0x82A7, 0x02A2]
    case 26 => [0x82E3, 0x02E6, 0x02EC, 0x82E9, 0x02F8, 0x82FD, 0x82F7, 0x02F2]
    case 27 => [0x02D0, 0x82D5, 0x82DF, 0x02DA, 0x82CB, 0x02CE, 0x02C4, 0x82C1]
    case 28 => [0x8243, 0x0246, 0x024C, 0x8249, 0x0258, 0x825D, 0x8257, 0x0252]
    case 29 => [0x0270, 0x8275, 0x827F, 0x027A, 0x826B, 0x026E, 0x0264, 0x8261]
    case 30 => [0x0220, 0x8225, 0x822F, 0x022A, 0x823B, 0x023E, 0x0234, 0x8231]
    case _ => [0x8213, 0x0216, 0x021C, 0x8219, 0x0208, 0x820D, 0x8207, 0x0202]
  }

  /** `crc_table[i]`: row `i / 8`, column `i % 8`. */
  function CrcTable(i: Byte): bv16
  {
    CrcRow(i >> 3)[(i & 7) as int]
  }

  /** One pass of the `update_crc` loop body: the table index is the high byte
      of the accumulator xor the data byte, and the accumulator shifted left by
      eight is masked to 16 bits (here by the width of `bv16`). */
  function UpdateByte(crc: bv16, b: Byte): bv16
  {
    (crc << 8) ^ CrcTable(((crc >> 8) as Byte) ^ b)
  }

  /** `update_crc(crc_accum, data_blk)`: the loop over `data_blk`, a left fold. */
  function UpdateCrc(crc: bv16, data: seq<Byte>): (r: bv16)
    ensures data != [] ==> r == UpdateByte(UpdateCrc(crc, data[..|data| - 1]), data[|data| - 1])
    decreases |data|
  {
    if |data| == 0 then crc
    else
      assert |data| >= 2 ==> data[..|data| - 1][1..] == data[1..][..|data| - 2];
      UpdateCrc(UpdateByte(crc, data[0]), data[1..])
  }

  /** The loop of `update_crc` as written, one byte per iteration. */
  method UpdateCrcLoop(seed: bv16, data: seq<Byte>) returns (crc: bv16)
    ensures crc == UpdateCrc(seed, data)
    ensures data == [] ==> crc == seed
  {
    crc := seed;
    var k := 0;
    while k < |data|
      invariant 0 <= k <= |data|
      invariant UpdateCrc(crc, data[k..]) == UpdateCrc(seed, data)
    {
      crc := UpdateByte(crc, data[k]);
      k := k + 1;
    }
  }

  /** The fold splits at any point: feeding `a` then `b` equals feeding `a + b`. */
  lemma {:induction false} UpdateCrcAppend(crc: bv16, a: seq<Byte>, b: seq<Byte>)
    ensures UpdateCrc(crc, a + b) == UpdateCrc(UpdateCrc(crc, a), b)
    decreases |a|
  {
    if a == [] {
      assert a + b == b;
    } else {
      assert (a + b)[0] == a[0];
      assert (a + b)[1..] == a[1..] + b;
      UpdateCrcAppend(UpdateByte(crc, a[0]), a[1..], b);
    }
  }

  lemma Row00IsPolynomial()
    ensures forall i: Byte :: i >> 3 == 0 ==> CrcTable(i) == PolyEntry(i)
  {
    assert CrcTable(0) == PolyEntry(0);
    assert CrcTable(1) == PolyEntry(1);
    assert CrcTable(2) == PolyEntry(2);
    assert CrcTable(3) == PolyEntry(3);
    assert CrcTable(4) == PolyEntry(4);
    assert CrcTable(5) == PolyEntry(5);
    assert CrcTable(6) == PolyEntry(6);
    assert CrcTable(7) == PolyEntry(7);
    forall i: Byte | i >> 3 == 0
      ensures CrcTable(i) == PolyEntry(i)
    {
      assert i == 0 || i == 1 || i == 2 || i == 3 || i == 4 || i == 5 || i == 6 || i == 7;
    }
  }

  lemma Row01IsPolynomial()
    ensures forall i: Byte :: i >> 3 == 1 ==> CrcTable(i) == PolyEntry(i)
  {
    assert CrcTable(8) == PolyEntry(8);
    assert CrcTable(9) == PolyEntry(9);
    assert CrcTable(10) == PolyEntry(10);
    assert CrcTable(11) == PolyEntry(11);
    assert CrcTable(12) == PolyEntry(12);
    assert CrcTable(13) == PolyEntry(13);
    assert CrcTable(14) == PolyEntry(14);
    assert CrcTable(15) == PolyEntry(15);
    forall i: Byte | i >> 3 == 1
      ensures CrcTable(i) == PolyEntry(i)
    {
      assert i == 8 || i == 9 || i == 10 || i == 11 || i == 12 || i == 13 || i == 14 || i == 15;
    }
  }

  lemma Row02IsPolynomial()
    ensures forall i: Byte :: i >> 3 == 2 ==> CrcTable(i) == PolyEntry(i)
  {
    assert CrcTable(16) == PolyEntry(16);
    assert CrcTable(17) == PolyEntry(17);
    assert CrcTable(18) == PolyEntry(18);
    assert CrcTable(19) == PolyEntry(19);
    assert CrcTable(20) == PolyEntry(20);
    assert CrcTable(21) == PolyEntry(21);
    assert CrcTable(22) == PolyEntry(22);
    assert CrcTable(23) == PolyEntry(23);
    forall i: Byte | i >> 3 == 2
      ensures CrcTable(i) == PolyEntry(i)
    {
      assert i == 16 || i == 17 || i == 18 || i == 19 || i == 20 || i == 21 || i == 22 || i == 23;
    }
  }

  lemma Row03IsPolynomial()
    ensures forall i: Byte :: i >> 3 == 3 ==> CrcTable(i) == PolyEntry(i)
  {
    assert CrcTable(24) == PolyEntry(24);
    assert CrcTable(25) == PolyEntry(25);
    assert CrcTable(26) == PolyEntry(26);
    assert CrcTable(27) == PolyEntry(27);
    assert CrcTable(28) == PolyEntry(28);
    assert CrcTable(29) == PolyEntry(29);
    assert CrcTable(30) == PolyEntry(30);
    assert CrcTable(31) == PolyEntry(31);
    forall i: Byte | i >> 3 == 3
      ensures CrcTable(i) == PolyEntry(i)
    {
      assert i == 24 || i == 25 || i == 26 || i == 27 || i == 28 || i == 29 || i == 30 || i == 31;
    }
  }

  lemma Row04IsPolynomial()
    ensures forall i: Byte :: i >> 3 == 4 ==> CrcTable(i) == PolyEntry(i)
  {
    assert CrcTable(32) == PolyEntry(32);
    assert CrcTable(33) == PolyEntry(33);
    assert CrcTable(34) == PolyEntry(34);
    assert CrcTable(35) == PolyEntry(35);
    assert CrcTable(36) == PolyEntry(36);
    assert CrcTable(37) == PolyEntry(37);
    assert CrcTable(38) == PolyEntry(38);
    assert CrcTable(39) == PolyEntry(39);
    forall i: Byte | i >> 3 == 4
      ensures CrcTable(i) == PolyEntry(i)
    {
      assert i == 32 || i == 33 || i == 34 || i == 35 || i == 36 || i == 37 || i == 38 || i == 39;
    }
  }

  lemma Row05IsPolynomial()
    ensures forall i: Byte :: i >> 3 == 5 ==> CrcTable(i) == PolyEntry(i)
  {
    assert CrcTable(40) == PolyEntry(40);
    assert CrcTable(41) == PolyEntry(41);
    assert CrcTable(42) == PolyEntry(42);
    assert CrcTable(43) == PolyEntry(43);
    assert CrcTable(44) == PolyEntry(44);
    assert CrcTable(45) == PolyEntry(45);
    assert CrcTable(46) == PolyEntry(46);
    assert CrcTable(47) == PolyEntry(47);
    forall i: Byte | i >> 3 == 5
      ensures CrcTable(i) == PolyEntry(i)
    {
      assert i == 40 || i == 41 || i == 42 || i == 43 || i == 44 || i == 45 || i == 46 || i == 47;
    }
  }

  lemma Row06IsPolynomial()
    ensures forall i: Byte :: i >> 3 == 6 ==> CrcTable(i) == PolyEntry(i)
  {
    assert CrcTable(48) == PolyEntry(48);
    assert CrcTable(49) == PolyEntry(49);
    assert CrcTable(50) == PolyEntry(50);
    assert CrcTable(51) == PolyEntry(51);
    assert CrcTable(52) == PolyEntry(52);
    assert CrcTable(53) == PolyEntry(53);
    assert CrcTable(54) == PolyEntry(54);
    assert CrcTable(55) == PolyEntry(55);
    forall i: Byte | i >> 3 == 6
      ensures CrcTable(i) == PolyEntry(i)
    {
      assert i == 48 || i == 49 || i == 50 || i == 51 || i == 52 || i == 53 || i == 54 || i == 55;
    }
  }

  lemma Row07IsPolynomial()
    ensures forall i: Byte :: i >> 3 == 7 ==> CrcTable(i) == PolyEntry(i)
  {
    assert CrcTable(56) == PolyEntry(56);
    assert CrcTable(57) == PolyEntry(57);
    assert CrcTable(58) == PolyEntry(58);
    assert CrcTable(59) == PolyEntry(59);
    assert CrcTable(60) == PolyEntry(60);
    assert CrcTable(61) == PolyEntry(61);
    assert CrcTable(62) == PolyEntry(62);
    assert CrcTable(63) == PolyEntry(63);
    forall i: Byte | i >> 3 == 7
      ensures CrcTable(i) == PolyEntry(i)
    {
      assert i == 56 || i == 57 || i == 58 || i == 59 || i == 60 || i == 61 || i == 62 || i == 63;
    }
  }

  lemma Row08IsPolynomial()
    ensures forall i: Byte :: i >> 3 == 8 ==> CrcTable(i) == PolyEntry(i)
  {
    assert CrcTable(64) == PolyEntry(64);
    assert CrcTable(65) == PolyEntry(65);
    assert CrcTable(66) == PolyEntry(66);
    assert CrcTable(67) == PolyEntry(67);
    assert CrcTable(68) == PolyEntry(68);
    assert CrcTable(69) == PolyEntry(69);
    assert CrcTable(70) == PolyEntry(70);
    assert CrcTable(71) == PolyEntry(71);
    forall i: Byte | i >> 3 == 8
      ensures CrcTable(i) == PolyEntry(i)
    {
      assert i == 64 || i == 65 || i == 66 || i == 67 || i == 68 || i == 69 || i == 70 || i == 71;
    }
  }

  lemma Row09IsPolynomial()
    ensures forall i: Byte :: i >> 3 == 9 ==> CrcTable(i) == PolyEntry(i)
  {
    assert CrcTable(72) == PolyEntry(72);
    assert CrcTable(73) == PolyEntry(73);
    assert CrcTable(74) == PolyEntry(74);
    assert CrcTable(75) == PolyEntry(75);
    assert CrcTable(76) == PolyEntry(76);
    assert CrcTable(77) == PolyEntry(77);
    assert CrcTable(78) == PolyEntry(78);
    assert CrcTable(79) == PolyEntry(79);
    forall i: Byte | i >> 3 == 9
      ensures CrcTable(i) == PolyEntry(i)
    {
      assert i == 72 || i == 73 || i == 74 || i == 75 || i == 76 || i == 77 || i == 78 || i == 79;
    }
  }

  lemma Row10IsPolynomial()
    ensures forall i: Byte :: i >> 3 == 10 ==> CrcTable(i) == PolyEntry(i)
  {
    assert CrcTable(80) == PolyEntry(80);
    assert CrcTable(81) == PolyEntry(81);
    assert CrcTable(82) == PolyEntry(82);
    assert CrcTable(83) == PolyEntry(83);
    assert CrcTable(84) == PolyEntry(84);
    assert CrcTable(85) == PolyEntry(85);
    assert CrcTable(86) == PolyEntry(86);
    assert CrcTable(87) == PolyEntry(87);
    forall i: Byte | i >> 3 == 10
      ensures CrcTable(i) == PolyEntry(i)
    {
      assert i == 80 || i == 81 || i == 82 || i == 83 || i == 84 || i == 85 || i == 86 || i == 87;
    }
  }

  lemma Row11IsPolynomial()
    ensures forall i: Byte :: i >> 3 == 11 ==> CrcTable(i) == PolyEntry(i)
  {
    assert CrcTable(88) == PolyEntry(88);
    assert CrcTable(89) == PolyEntry(89);
    assert CrcTable(90) == PolyEntry(90);
    assert CrcTable(91) == PolyEntry(91);
    assert CrcTable(92) == PolyEntry(92);
    assert CrcTable(93) == PolyEntry(93);
    assert CrcTable(94) == PolyEntry(94);
    assert CrcTable(95) == PolyEntry(95);
    forall i: Byte | i >> 3 == 11
      ensures CrcTable(i) == PolyEntry(i)
    {
      assert i == 88 || i == 89 || i == 90 || i == 91 || i == 92 || i == 93 || i == 94 || i == 95;
    }
  }

  lemma Row12IsPolynomial()
    ensures forall i: Byte :: i >> 3 == 12 ==> CrcTable(i) == PolyEntry(i)
  {
    assert CrcTable(96) == PolyEntry(96);
    assert CrcTable(97) == PolyEntry(97);
    assert CrcTable(98) == PolyEntry(98);
    assert CrcTable(99) == PolyEntry(99);
    assert CrcTable(100) == PolyEntry(100);
    assert CrcTable(101) == PolyEntry(101);
    assert CrcTable(102) == PolyEntry(102);
    assert CrcTable(103) == PolyEntry(103);
    forall i: Byte | i >> 3 == 12
      ensures CrcTable(i) == PolyEntry(i)
    {
      assert i == 96 || i == 97 || i == 98 || i == 99 || i == 100 || i == 101 || i == 102 || i == 103;
    }
  }

  lemma Row13IsPolynomial()
    ensures forall i: Byte :: i >> 3 == 13 ==> CrcTable(i) == PolyEntry(i)
  {
    assert CrcTable(104) == PolyEntry(104);
    assert CrcTable(105) == PolyEntry(105);
    assert CrcTable(106) == PolyEntry(106);
    assert CrcTable(107) == PolyEntry(107);
    assert CrcTable(108) == PolyEntry(108);
    assert CrcTable(109) == PolyEntry(109);
    assert CrcTable(110) == PolyEntry(110);
    assert CrcTable(111) == PolyEntry(111);
    forall i: Byte | i >> 3 == 13
      ensures CrcTable(i) == PolyEntry(i)
    {
      assert i == 104 || i == 105 || i == 106 || i == 107 || i == 108 || i == 109 || i == 110 || i == 111;
    }
  }

  lemma Row14IsPolynomial()
    ensures forall i: Byte :: i >> 3 == 14 ==> CrcTable(i) == PolyEntry(i)
  {
    assert CrcTable(112) == PolyEntry(112);
    assert CrcTable(113) == PolyEntry(113);
    assert CrcTable(114) == PolyEntry(114);
    assert CrcTable(115) == PolyEntry(115);
    assert CrcTable(116) == PolyEntry(116);
    assert CrcTable(117) == PolyEntry(117);
    assert CrcTable(118) == PolyEntry(118);
    assert CrcTable(119) == PolyEntry(119);
    forall i: Byte | i >> 3 == 14
      ensures CrcTable(i) == PolyEntry(i)
    {
      assert i == 112 || i == 113 || i == 114 || i == 115 || i == 116 || i == 117 || i == 118 || i == 119;
    }
  }

  lemma Row15IsPolynomial()
    ensures forall i: Byte :: i >> 3 == 15 ==> CrcTable(i) == PolyEntry(i)
  {
    assert CrcTable(120) == PolyEntry(120);
    assert CrcTable(121) == PolyEntry(121);
    assert CrcTable(122) == PolyEntry(122);
    assert CrcTable(123) == PolyEntry(123);
    assert CrcTable(124) == PolyEntry(124);
    assert CrcTable(125) == PolyEntry(125);
    assert CrcTable(126) == PolyEntry(126);
    assert CrcTable(127) == PolyEntry(127);
    forall i: Byte | i >> 3 == 15
      ensures CrcTable(i) == PolyEntry(i)
    {
      assert i == 120 || i == 121 || i == 122 || i == 123 || i == 124 || i == 125 || i == 126 || i == 127;
    }
  }

  lemma Row16IsPolynomial()
    ensures forall i: Byte :: i >> 3 == 16 ==> CrcTable(i) == PolyEntry(i)
  {
    assert CrcTable(128) == PolyEntry(128);
    assert CrcTable(129) == PolyEntry(129);
    assert CrcTable(130) == PolyEntry(130);
    assert CrcTable(131) == PolyEntry(131);
    assert CrcTable(132) == PolyEntry(132);
    assert CrcTable(133) == PolyEntry(133);
    assert CrcTable(134) == PolyEntry(134);
    assert CrcTable(135) == PolyEntry(135);
    forall i: Byte | i >> 3 == 16
      ensures CrcTable(i) == PolyEntry(i)
    {
      assert i == 128 || i == 129 || i == 130 || i == 131 || i == 132 || i == 133 || i == 134 || i == 135;
    }
  }

  lemma Row17IsPolynomial()
    ensures forall i: Byte :: i >> 3 == 17 ==> CrcTable(i) == PolyEntry(i)
  {
    assert CrcTable(136) == PolyEntry(136);
    assert CrcTable(137) == PolyEntry(137);
    assert CrcTable(138) == PolyEntry(138);
    assert CrcTable(139) == PolyEntry(139);
    assert CrcTable(140) == PolyEntry(140);
    assert CrcTable(141) == PolyEntry(141);
    assert CrcTable(142) == PolyEntry(142);
    assert CrcTable(143) == PolyEntry(143);
    forall i: Byte | i >> 3 == 17
      ensures CrcTable(i) == PolyEntry(i)
    {
      assert i == 136 || i == 137 || i == 138 || i == 139 || i == 140 || i == 141 || i == 142 || i == 143;
    }
  }

  lemma Row18IsPolynomial()
    ensures forall i: Byte :: i >> 3 == 18 ==> CrcTable(i) == PolyEntry(i)
  {
    assert CrcTable(144) == PolyEntry(144);
    assert CrcTable(145) == PolyEntry(145);
    assert CrcTable(146) == PolyEntry(146);
    assert CrcTable(147) == PolyEntry(147);
    assert CrcTable(148) == PolyEntry(148);
    assert CrcTable(149) == PolyEntry(149);
    assert CrcTable(150) == PolyEntry(150);
    assert CrcTable(151) == PolyEntry(151);
    forall i: Byte | i >> 3 == 18
      ensures CrcTable(i) == PolyEntry(i)
    {
      assert i == 144 || i == 145 || i == 146 || i == 147 || i == 148 || i == 149 || i == 150 || i == 151;
    }
  }

  lemma Row19IsPolynomial()
    ensures forall i: Byte :: i >> 3 == 19 ==> CrcTable(i) == PolyEntry(i)
  {
    assert CrcTable(152) == PolyEntry(152);
    assert CrcTable(153) == PolyEntry(153);
    assert CrcTable(154) == PolyEntry(154);
    assert CrcTable(155) == PolyEntry(155);
    assert CrcTable(156) == PolyEntry(156);
    assert CrcTable(157) == PolyEntry(157);
    assert CrcTable(158) == PolyEntry(158);
    assert CrcTable(159) == PolyEntry(159);
    forall i: Byte | i >> 3 == 19
      ensures CrcTable(i) == PolyEntry(i)
    {
      assert i == 152 || i == 153 || i == 154 || i == 155 || i == 156 || i == 157 || i == 158 || i == 159;
    }
  }

  lemma Row20IsPolynomial()
    ensures forall i: Byte :: i >> 3 == 20 ==> CrcTable(i) == PolyEntry(i)
  {
    assert CrcTable(160) == PolyEntry(160);
    assert CrcTable(161) == PolyEntry(161);
    assert CrcTable(162) == PolyEntry(162);
    assert CrcTable(163) == PolyEntry(163);
    assert CrcTable(164) == PolyEntry(164);
    assert CrcTable(165) == PolyEntry(165);
    assert CrcTable(166) == PolyEntry(166);
    assert CrcTable(167) == PolyEntry(167);
    forall i: Byte | i >> 3 == 20
      ensures CrcTable(i) == PolyEntry(i)
    {
      assert i == 160 || i == 161 || i == 162 || i == 163 || i == 164 || i == 165 || i == 166 || i == 167;
    }
  }

  lemma Row21IsPolynomial()
    ensures forall i: Byte :: i >> 3 == 21 ==> CrcTable(i) == PolyEntry(i)
  {
    assert CrcTable(168) == PolyEntry(168);
    assert CrcTable(169) == PolyEntry(169);
    assert CrcTable(170) == PolyEntry(170);
    assert CrcTable(171) == PolyEntry(171);
    assert CrcTable(172) == PolyEntry(172);
    assert CrcTable(173) == PolyEntry(173);
    assert CrcTable(174) == PolyEntry(174);
    assert CrcTable(175) == PolyEntry(175);
    forall i: Byte | i >> 3 == 21
      ensures CrcTable(i) == PolyEntry(i)
    {
      assert i == 168 || i == 169 || i == 170 || i == 171 || i == 172 || i == 173 || i == 174 || i == 175;
    }
  }

  lemma Row22IsPolynomial()
    ensures forall i: Byte :: i >> 3 == 22 ==> CrcTable(i) == PolyEntry(i)
  {
    assert CrcTable(176) == PolyEntry(176);
    assert CrcTable(177) == PolyEntry(177);
    assert CrcTable(178) == PolyEntry(178);
    assert CrcTable(179) == PolyEntry(179);
    assert CrcTable(180) == PolyEntry(180);
    assert CrcTable(181) == PolyEntry(181);
    assert CrcTable(182) == PolyEntry(182);
    assert CrcTable(183) == PolyEntry(183);
    forall i: Byte | i >> 3 == 22
      ensures CrcTable(i) == PolyEntry(i)
    {
      assert i == 176 || i == 177 || i == 178 || i == 179 || i == 180 || i == 181 || i == 182 || i == 183;
    }
  }

  lemma Row23IsPolynomial()
    ensures forall i: Byte :: i >> 3 == 23 ==> CrcTable(i) == PolyEntry(i)
  {
    assert CrcTable(184) == PolyEntry(184);
    assert CrcTable(185) == PolyEntry(185);
    assert CrcTable(186) == PolyEntry(186);
    assert CrcTable(187) == PolyEntry(187);
    assert CrcTable(188) == PolyEntry(188);
    assert CrcTable(189) == PolyEntry(189);
    assert CrcTable(190) == PolyEntry(190);
    assert CrcTable(191) == PolyEntry(191);
    forall i: Byte | i >> 3 == 23
      ensures CrcTable(i) == PolyEntry(i)
    {
      assert i == 184 || i == 185 || i == 186 || i == 187 || i == 188 || i == 189 || i == 190 || i == 191;
    }
  }

  lemma Row24IsPolynomial()
    ensures forall i: Byte :: i >> 3 == 24 ==> CrcTable(i) == PolyEntry(i)
  {
    assert CrcTable(192) == PolyEntry(192);
    assert CrcTable(193) == PolyEntry(193);
    assert CrcTable(194) == PolyEntry(194);
    assert CrcTable(195) == PolyEntry(195);
    assert CrcTable(196) == PolyEntry(196);
    assert CrcTable(197) == PolyEntry(197);
    assert CrcTable(198) == PolyEntry(198);
    assert CrcTable(199) == PolyEntry(199);
    forall i: Byte | i >> 3 == 24
      ensures CrcTable(i) == PolyEntry(i)
    {
      assert i == 192 || i == 193 || i == 194 || i == 195 || i == 196 || i == 197 || i == 198 || i == 199;
    }
  }

  lemma Row25IsPolynomial()
    ensures forall i: Byte :: i >> 3 == 25 ==> CrcTable(i) == PolyEntry(i)
  {
    assert CrcTable(200) == PolyEntry(200);
    assert CrcTable(201) == PolyEntry(201);
    assert CrcTable(202) == PolyEntry(202);
    assert CrcTable(203) == PolyEntry(203);
    assert CrcTable(204) == PolyEntry(204);
    assert CrcTable(205) == PolyEntry(205);
    assert CrcTable(206) == PolyEntry(206);
    assert CrcTable(207) == PolyEntry(207);
    forall i: Byte | i >> 3 == 25
      ensures CrcTable(i) == PolyEntry(i)
    {
      assert i == 200 || i == 201 || i == 202 || i == 203 || i == 204 || i == 205 || i == 206 || i == 207;
    }
  }

  lemma Row26IsPolynomial()
    ensures forall i: Byte :: i >> 3 == 26 ==> CrcTable(i) == PolyEntry(i)
  {
    assert CrcTable(208) == PolyEntry(208);
    assert CrcTable(209) == PolyEntry(209);
    assert CrcTable(210) == PolyEntry(210);
    assert CrcTable(211) == PolyEntry(211);
    assert CrcTable(212) == PolyEntry(212);
    assert CrcTable(213) == PolyEntry(213);
    assert CrcTable(214) == PolyEntry(214);
    assert CrcTable(215) == PolyEntry(215);
    forall i: Byte | i >> 3 == 26
      ensures CrcTable(i) == PolyEntry(i)
    {
      assert i == 208 || i == 209 || i == 210 || i == 211 || i == 212 || i == 213 || i == 214 || i == 215;
    }
  }

  lemma Row27IsPolynomial()
    ensures forall i: Byte :: i >> 3 == 27 ==> CrcTable(i) == PolyEntry(i)
  {
    assert CrcTable(216) == PolyEntry(216);
    assert CrcTable(217) == PolyEntry(217);
    assert CrcTable(218) == PolyEntry(218);
    assert CrcTable(219) == PolyEntry(219);
    assert CrcTable(220) == PolyEntry(220);
    assert CrcTable(221) == PolyEntry(221);
    assert CrcTable(222) == PolyEntry(222);
    assert CrcTable(223) == PolyEntry(223);
    forall i: Byte | i >> 3 == 27
      ensures CrcTable(i) == PolyEntry(i)
    {
      assert i == 216 || i == 217 || i == 218 || i == 219 || i == 220 || i == 221 || i == 222 || i == 223;
    }
  }

  lemma Row28IsPolynomial()
    ensures forall i: Byte :: i >> 3 == 28 ==> CrcTable(i) == PolyEntry(i)
  {
    assert CrcTable(224) == PolyEntry(224);
    assert CrcTable(225) == PolyEntry(225);
    assert CrcTable(226) == PolyEntry(226);
    assert CrcTable(227) == PolyEntry(227);
    assert CrcTable(228) == PolyEntry(228);
    assert CrcTable(229) == PolyEntry(229);
    assert CrcTable(230) == PolyEntry(230);
    assert CrcTable(231) == PolyEntry(231);
    forall i: Byte | i >> 3 == 28
      ensures CrcTable(i) == PolyEntry(i)
    {
      assert i == 224 || i == 225 || i == 226 || i == 227 || i == 228 || i == 229 || i == 230 || i == 231;
    }
  }

  lemma Row29IsPolynomial()
    ensures forall i: Byte :: i >> 3 == 29 ==> CrcTable(i) == PolyEntry(i)
  {
    assert CrcTable(232) == PolyEntry(232);
    assert CrcTable(233) == PolyEntry(233);
    assert CrcTable(234) == PolyEntry(234);
    assert CrcTable(235) == PolyEntry(235);
    assert CrcTable(236) == PolyEntry(236);
    assert CrcTable(237) == PolyEntry(237);
    assert CrcTable(238) == PolyEntry(238);
    assert CrcTable(239) == PolyEntry(239);
    forall i: Byte | i >> 3 == 29
      ensures CrcTable(i) == PolyEntry(i)
    {
      assert i == 232 || i == 233 || i == 234 || i == 235 || i == 236 || i == 237 || i == 238 || i == 239;
    }
  }

  lemma Row30IsPolynomial()
    ensures forall i: Byte :: i >> 3 == 30 ==> CrcTable(i) == PolyEntry(i)
  {
    assert CrcTable(240) == PolyEntry(240);
    assert CrcTable(241) == PolyEntry(241);
    assert CrcTable(242) == PolyEntry(242);
    assert CrcTable(243) == PolyEntry(243);
    assert CrcTable(244) == PolyEntry(244);
    assert CrcTable(245) == PolyEntry(245);
    assert CrcTable(246) == PolyEntry(246);
    assert CrcTable(247) == PolyEntry(247);
    forall i: Byte | i >> 3 == 30
      ensures CrcTable(i) == PolyEntry(i)
    {
      assert i == 240 || i == 241 || i == 242 || i == 243 || i == 244 || i == 245 || i == 246 || i == 247;
    }
  }

  lemma Row31IsPolynomial()
    ensures forall i: Byte :: i >> 3 == 31 ==> CrcTable(i) == PolyEntry(i)
  {
    assert CrcTable(248) == PolyEntry(248);
    assert CrcTable(249) == PolyEntry(249);
    assert CrcTable(250) == PolyEntry(250);
    assert CrcTable(251) == PolyEntry(251);
    assert CrcTable(252) == PolyEntry(252);
    assert CrcTable(253) == PolyEntry(253);
    assert CrcTable(254) == PolyEntry(254);
    assert CrcTable(255) == PolyEntry(255);
    forall i: Byte | i >> 3 == 31
      ensures CrcTable(i) == PolyEntry(i)
    {
      assert i == 248 || i == 249 || i == 250 || i == 251 || i == 252 || i == 253 || i == 254 || i == 255;
    }
  }

  /** Every entry of the source's table is eight MSB-first shift/xor steps of
      its index under polynomial 0x8005. */
  lemma TableIsPolynomial()
    ensures forall i: Byte :: CrcTable(i) == PolyEntry(i)
  {
    Row00IsPolynomial(); Row01IsPolynomial(); Row02IsPolynomial(); Row03IsPolynomial();
    Row04IsPolynomial(); Row05IsPolynomial(); Row06IsPolynomial(); Row07IsPolynomial();
    Row08IsPolynomial(); Row09IsPolynomial(); Row10IsPolynomial(); Row11IsPolynomial();
    Row12IsPolynomial(); Row13IsPolynomial(); Row14IsPolynomial(); Row15IsPolynomial();
    Row16IsPolynomial(); Row17IsPolynomial(); Row18IsPolynomial(); Row19IsPolynomial();
    Row20IsPolynomial(); Row21IsPolynomial(); Row22IsPolynomial(); Row23IsPolynomial();
    Row24IsPolynomial(); Row25IsPolynomial(); Row26IsPolynomial(); Row27IsPolynomial();
    Row28IsPolynomial(); Row29IsPolynomial(); Row30IsPolynomial(); Row31IsPolynomial();
  }

  /** Feeding the byte at position `k`: the step the known-vector proof takes
      twelve times. */
  lemma UpdateByteStep(crc: bv16, data: seq<Byte>, k: nat, b: Byte, next: bv16)
    requires k < |data| && data[k] == b && UpdateByte(crc, b) == next
    ensures UpdateCrc(crc, data[k..]) == UpdateCrc(next, data[k + 1..])
  {
    assert data[k..][1..] == data[k + 1..];
  }

  /** The accumulator over the header of the example below. */
  lemma PingReplyHeaderSteps()
    ensures UpdateByte(0x0000, 0xFF) == 0x0202
    ensures UpdateByte(0x0202, 0xFF) == 0x800D
    ensures UpdateByte(0x800D, 0xFD) == 0x0C0E
    ensures UpdateByte(0x0C0E, 0x00) == 0x0E28
  {
  }

  /** The accumulator over the id, length and instruction of the example below. */
  lemma PingReplyMiddleSteps()
    ensures UpdateByte(0x0E28, 0x01) == 0x2822
    ensures UpdateByte(0x2822, 0x07) == 0xA2E1
    ensures UpdateByte(0xA2E1, 0x00) == 0x62CF
    ensures UpdateByte(0x62CF, 0x55) == 0x4FB1
  {
  }

  /** The accumulator over the parameters of the example below. */
  lemma PingReplyParameterSteps()
    ensures UpdateByte(0x4FB1, 0x00) == 0x30A1
    ensures UpdateByte(0x30A1, 0x06) == 0xA1B4
    ensures UpdateByte(0xA1B4, 0x04) == 0xB7DE
    ensures UpdateByte(0xB7DE, 0x26) == 0x5D65
  {
  }

  /** The reply frame of the emulated-servo example, `FF FF FD 00 01 07 00 55
      00 06 04 26`, carries the CRC `65 5D`, that is 0x5D65. */
  lemma PingReplyCrc(data: seq<Byte>)
    requires |data| == 12
    requires data[0] == 0xFF && data[1] == 0xFF && data[2] == 0xFD && data[3] == 0x00
    requires data[4] == 0x01 && data[5] == 0x07 && data[6] == 0x00 && data[7] == 0x55
    requires data[8] == 0x00 && data[9] == 0x06 && data[10] == 0x04 && data[11] == 0x26
    ensures UpdateCrc(0, data) == 0x5D65
  {
    PingReplyHeaderSteps();
    PingReplyMiddleSteps();
    PingReplyParameterSteps();
    assert data[0..] == data;
    UpdateByteStep(0x0000, data, 0, 0xFF, 0x0202);
    UpdateByteStep(0x0202, data, 1, 0xFF, 0x800D);
    UpdateByteStep(0x800D, data, 2, 0xFD, 0x0C0E);
    UpdateByteStep(0x0C0E, data, 3, 0x00, 0x0E28);
    UpdateByteStep(0x0E28, data, 4, 0x01, 0x2822);
    UpdateByteStep(0x2822, data, 5, 0x07, 0xA2E1);
    UpdateByteStep(0xA2E1, data, 6, 0x00, 0x62CF);
    UpdateByteStep(0x62CF, data, 7, 0x55, 0x4FB1);
    UpdateByteStep(0x4FB1, data, 8, 0x00, 0x30A1);
    UpdateByteStep(0x30A1, data, 9, 0x06, 0xA1B4);
    UpdateByteStep(0xA1B4, data, 10, 0x04, 0xB7DE);
    UpdateByteStep(0xB7DE, data, 11, 0x26, 0x5D65);
    assert data[12..] == [];
  }
}
