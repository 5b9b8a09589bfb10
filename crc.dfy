/**
 * The sensor's CRC-8: the 256-entry lookup table CRC_TABLE and the running checksum
 * `crc = CRC_TABLE[crc ^ b]` that LD19Packet._val folds over a frame, starting from 0.
 */
module Crc {
  import opened Bytes

  /** Sixteen consecutive entries of the lookup table. */
  type Row = r: seq<bv8> | |r| == 16 witness seq(16, j => 0)

  const Row0: Row := [0x00, 0x4D, 0x9A, 0xD7, 0x79, 0x34, 0xE3, 0xAE, 0xF2, 0xBF, 0x68, 0x25, 0x8B, 0xC6, 0x11, 0x5C]
  const Row1: Row := [0xA9, 0xE4, 0x33, 0x7E, 0xD0, 0x9D, 0x4A, 0x07, 0x5B, 0x16, 0xC1, 0x8C, 0x22, 0x6F, 0xB8, 0xF5]
  const Row2: Row := [0x1F, 0x52, 0x85, 0xC8, 0x66, 0x2B, 0xFC, 0xB1, 0xED, 0xA0, 0x77, 0x3A, 0x94, 0xD9, 0x0E, 0x43]
  const Row3: Row := [0xB6, 0xFB, 0x2C, 0x61, 0xCF, 0x82, 0x55, 0x18, 0x44, 0x09, 0xDE, 0x93, 0x3D, 0x70, 0xA7, 0xEA]
  const Row4: Row := [0x3E, 0x73, 0xA4, 0xE9, 0x47, 0x0A, 0xDD, 0x90, 0xCC, 0x81, 0x56, 0x1B, 0xB5, 0xF8, 0x2F, 0x62]
  const Row5: Row := [0x97, 0xDA, 0x0D, 0x40, 0xEE, 0xA3, 0x74, 0x39, 0x65, 0x28, 0xFF, 0xB2, 0x1C, 0x51, 0x86, 0xCB]
  const Row6: Row := [0x21, 0x6C, 0xBB, 0xF6, 0x58, 0x15, 0xC2, 0x8F, 0xD3, 0x9E, 0x49, 0x04, 0xAA, 0xE7, 0x30, 0x7D]
  const Row7: Row := [0x88, 0xC5, 0x12, 0x5F, 0xF1, 0xBC, 0x6B, 0x26, 0x7A, 0x37, 0xE0, 0xAD, 0x03, 0x4E, 0x99, 0xD4]
  const Row8: Row := [0x7C, 0x31, 0xE6, 0xAB, 0x05, 0x48, 0x9F, 0xD2, 0x8E, 0xC3, 0x14, 0x59, 0xF7, 0xBA, 0x6D, 0x20]
  const Row9: Row := [0xD5, 0x98, 0x4F, 0x02, 0xAC, 0xE1, 0x36, 0x7B, 0x27, 0x6A, 0xBD, 0xF0, 0x5E, 0x13, 0xC4, 0x89]
  const Row10: Row := [0x63, 0x2E, 0xF9, 0xB4, 0x1A, 0x57, 0x80, 0xCD, 0x91, 0xDC, 0x0B, 0x46, 0xE8, 0xA5, 0x72, 0x3F]
  const Row11: Row := [0xCA, 0x87, 0x50, 0x1D, 0xB3, 0xFE, 0x29, 0x64, 0x38, 0x75, 0xA2, 0xEF, 0x41, 0x0C, 0xDB, 0x96]
  const Row12: Row := [0x42, 0x0F, 0xD8, 0x95, 0x3B, 0x76, 0xA1, 0xEC, 0xB0, 0xFD, 0x2A, 0x67, 0xC9, 0x84, 0x53, 0x1E]
  const Row13: Row := [0xEB, 0xA6, 0x71, 0x3C, 0x92, 0xDF, 0x08, 0x45, 0x19, 0x54, 0x83, 0xCE, 0x60, 0x2D, 0xFA, 0xB7]
  const Row14: Row := [0x5D, 0x10, 0xC7, 0x8A, 0x24, 0x69, 0xBE, 0xF3, 0xAF, 0xE2, 0x35, 0x78, 0xD6, 0x9B, 0x4C, 0x01]
  const Row15: Row := [0xF4, 0xB9, 0x6E, 0x23, 0x8D, 0xC0, 0x17, 0x5A, 0x06, 0x4B, 0x9C, 0xD1, 0x7F, 0x32, 0xE5, 0xA8]

  /** CRC_TABLE, read row by row. */
  function Table(): (t: seq<byte>)
    ensures |t| == 256
  {
    seq(256, i requires 0 <= i < 256 =>
    if i < 16 then Row0[i - 0] else
    if i < 32 then Row1[i - 16] else
    if i < 48 then Row2[i - 32] else
    if i < 64 then Row3[i - 48] else
    if i < 80 then Row4[i - 64] else
    if i < 96 then Row5[i - 80] else
    if i < 112 then Row6[i - 96] else
    if i < 128 then Row7[i - 112] else
    if i < 144 then Row8[i - 128] else
    if i < 160 then Row9[i - 144] else
    if i < 176 then Row10[i - 160] else
    if i < 192 then Row11[i - 176] else
    if i < 208 then Row12[i - 192] else
    if i < 224 then Row13[i - 208] else
    if i < 240 then Row14[i - 224] else
    Row15[i - 240])
  }

  /** One MSB-first step of the bitwise CRC register: shift left, folding in the generator when the top bit falls out. */
  function Shift(c: byte): byte
  {
    if c & 0x80 != 0 then (c << 1) ^ 0x4D else c << 1
  }

  /**
   * The register after one step per bit still to be shifted out, where `pending` is the
   * mask of those bits (0xFF for a whole byte).
   */
  function Shifts(c: byte, pending: byte): byte
    decreases pending as int
  {
    if pending == 0 then c else Shift(Shifts(c, pending >> 1))
  }

  /**
   * The table entry that bitwise CRC-8 computes for the byte x: eight MSB-first shifts
   * with the generator 0x4D (x^8 + x^6 + x^3 + x^2 + 1).
   */
  function PolyRemainder(x: byte): byte
  {
    Shifts(x, 0xFF)
  }

  /** The eight register steps of PolyRemainder written out one by one. */
  function EightShifts(x: byte): byte
  {
    Shift(Shift(Shift(Shift(Shift(Shift(Shift(Shift(x))))))))
  }

  /** PolyRemainder is the eight register steps written out. */
  lemma PolyRemainderUnrolled(x: byte)
    ensures PolyRemainder(x) == EightShifts(x)
  {
    assert Shifts(x, 0x03) == Shift(Shift(x));
    assert Shifts(x, 0x0F) == Shift(Shift(Shifts(x, 0x03)));
    assert Shifts(x, 0x3F) == Shift(Shift(Shifts(x, 0x0F)));
    assert Shifts(x, 0xFF) == Shift(Shift(Shifts(x, 0x3F)));
  }

  /** One register step loses nothing: the top bit that fell out shows in the lowest bit. */
  lemma ShiftInjective(a: byte, b: byte)
    requires Shift(a) == Shift(b)
    ensures a == b
  {
  }

  /** Any number of register steps loses nothing. */
  lemma {:induction false} ShiftsInjective(a: byte, b: byte, pending: byte)
    requires Shifts(a, pending) == Shifts(b, pending)
    ensures a == b
    decreases pending as int
  {
    if pending != 0 {
      ShiftInjective(Shifts(a, pending >> 1), Shifts(b, pending >> 1));
      ShiftsInjective(a, b, pending >> 1);
    }
  }

  /** Different bytes have different remainders. */
  lemma PolyRemainderInjective(a: byte, b: byte)
    requires PolyRemainder(a) == PolyRemainder(b)
    ensures a == b
  {
    ShiftsInjective(a, b, 0xFF);
  }

  /** Row 0 of CRC_TABLE holds the eight-step remainders of the bytes 0 to 15. */
  lemma Row0LowValues()
    ensures Row0[0] == EightShifts(0) && Row0[1] == EightShifts(1) && Row0[2] == EightShifts(2) && Row0[3] == EightShifts(3)
         && Row0[4] == EightShifts(4) && Row0[5] == EightShifts(5) && Row0[6] == EightShifts(6) && Row0[7] == EightShifts(7)
  {
  }

  /** The upper half of row 0. */
  lemma Row0HighValues()
    ensures Row0[8] == EightShifts(8) && Row0[9] == EightShifts(9) && Row0[10] == EightShifts(10) && Row0[11] == EightShifts(11)
         && Row0[12] == EightShifts(12) && Row0[13] == EightShifts(13) && Row0[14] == EightShifts(14) && Row0[15] == EightShifts(15)
  {
  }

  lemma Row0IsPolynomial(x: byte)
    requires 0 <= x as int < 16
    ensures Table()[x as int] == PolyRemainder(x)
  {
    PolyRemainderUnrolled(x);
    Row0LowValues();
    Row0HighValues();
    if x == 0 { } else if x == 1 { } else if x == 2 { } else if x == 3 { } else if x == 4 { } else if x == 5 { } else if x == 6 { } else if x == 7 { } else if x == 8 { } else if x == 9 { } else if x == 10 { } else if x == 11 { } else if x == 12 { } else if x == 13 { } else if x == 14 { } else { assert x == 15; }
  }

  /** Row 1 of CRC_TABLE holds the eight-step remainders of the bytes 16 to 31. */
  lemma Row1LowValues()
    ensures Row1[0] == EightShifts(16) && Row1[1] == EightShifts(17) && Row1[2] == EightShifts(18) && Row1[3] == EightShifts(19)
         && Row1[4] == EightShifts(20) && Row1[5] == EightShifts(21) && Row1[6] == EightShifts(22) && Row1[7] == EightShifts(23)
  {
  }

  /** The upper half of row 1. */
  lemma Row1HighValues()
    ensures Row1[8] == EightShifts(24) && Row1[9] == EightShifts(25) && Row1[10] == EightShifts(26) && Row1[11] == EightShifts(27)
         && Row1[12] == EightShifts(28) && Row1[13] == EightShifts(29) && Row1[14] == EightShifts(30) && Row1[15] == EightShifts(31)
  {
  }

  lemma Row1IsPolynomial(x: byte)
    requires 16 <= x as int < 32
    ensures Table()[x as int] == PolyRemainder(x)
  {
    PolyRemainderUnrolled(x);
    Row1LowValues();
    Row1HighValues();
    if x == 16 { } else if x == 17 { } else if x == 18 { } else if x == 19 { } else if x == 20 { } else if x == 21 { } else if x == 22 { } else if x == 23 { } else if x == 24 { } else if x == 25 { } else if x == 26 { } else if x == 27 { } else if x == 28 { } else if x == 29 { } else if x == 30 { } else { assert x == 31; }
  }

  /** Row 2 of CRC_TABLE holds the eight-step remainders of the bytes 32 to 47. */
  lemma Row2LowValues()
    ensures Row2[0] == EightShifts(32) && Row2[1] == EightShifts(33) && Row2[2] == EightShifts(34) && Row2[3] == EightShifts(35)
         && Row2[4] == EightShifts(36) && Row2[5] == EightShifts(37) && Row2[6] == EightShifts(38) && Row2[7] == EightShifts(39)
  {
  }

  /** The upper half of row 2. */
  lemma Row2HighValues()
    ensures Row2[8] == EightShifts(40) && Row2[9] == EightShifts(41) && Row2[10] == EightShifts(42) && Row2[11] == EightShifts(43)
         && Row2[12] == EightShifts(44) && Row2[13] == EightShifts(45) && Row2[14] == EightShifts(46) && Row2[15] == EightShifts(47)
  {
  }

  lemma Row2IsPolynomial(x: byte)
    requires 32 <= x as int < 48
    ensures Table()[x as int] == PolyRemainder(x)
  {
    PolyRemainderUnrolled(x);
    Row2LowValues();
    Row2HighValues();
    if x == 32 { } else if x == 33 { } else if x == 34 { } else if x == 35 { } else if x == 36 { } else if x == 37 { } else if x == 38 { } else if x == 39 { } else if x == 40 { } else if x == 41 { } else if x == 42 { } else if x == 43 { } else if x == 44 { } else if x == 45 { } else if x == 46 { } else { assert x == 47; }
  }

  /** Row 3 of CRC_TABLE holds the eight-step remainders of the bytes 48 to 63. */
  lemma Row3LowValues()
    ensures Row3[0] == EightShifts(48) && Row3[1] == EightShifts(49) && Row3[2] == EightShifts(50) && Row3[3] == EightShifts(51)
         && Row3[4] == EightShifts(52) && Row3[5] == EightShifts(53) && Row3[6] == EightShifts(54) && Row3[7] == EightShifts(55)
  {
  }

  /** The upper half of row 3. */
  lemma Row3HighValues()
    ensures Row3[8] == EightShifts(56) && Row3[9] == EightShifts(57) && Row3[10] == EightShifts(58) && Row3[11] == EightShifts(59)
         && Row3[12] == EightShifts(60) && Row3[13] == EightShifts(61) && Row3[14] == EightShifts(62) && Row3[15] == EightShifts(63)
  {
  }

  lemma Row3IsPolynomial(x: byte)
    requires 48 <= x as int < 64
    ensures Table()[x as int] == PolyRemainder(x)
  {
    PolyRemainderUnrolled(x);
    Row3LowValues();
    Row3HighValues();
    if x == 48 { } else if x == 49 { } else if x == 50 { } else if x == 51 { } else if x == 52 { } else if x == 53 { } else if x == 54 { } else if x == 55 { } else if x == 56 { } else if x == 57 { } else if x == 58 { } else if x == 59 { } else if x == 60 { } else if x == 61 { } else if x == 62 { } else { assert x == 63; }
  }

  /** Row 4 of CRC_TABLE holds the eight-step remainders of the bytes 64 to 79. */
  lemma Row4LowValues()
    ensures Row4[0] == EightShifts(64) && Row4[1] == EightShifts(65) && Row4[2] == EightShifts(66) && Row4[3] == EightShifts(67)
         && Row4[4] == EightShifts(68) && Row4[5] == EightShifts(69) && Row4[6] == EightShifts(70) && Row4[7] == EightShifts(71)
  {
  }

  /** The upper half of row 4. */
  lemma Row4HighValues()
    ensures Row4[8] == EightShifts(72) && Row4[9] == EightShifts(73) && Row4[10] == EightShifts(74) && Row4[11] == EightShifts(75)
         && Row4[12] == EightShifts(76) && Row4[13] == EightShifts(77) && Row4[14] == EightShifts(78) && Row4[15] == EightShifts(79)
  {
  }

  lemma Row4IsPolynomial(x: byte)
    requires 64 <= x as int < 80
    ensures Table()[x as int] == PolyRemainder(x)
  {
    PolyRemainderUnrolled(x);
    Row4LowValues();
    Row4HighValues();
    if x == 64 { } else if x == 65 { } else if x == 66 { } else if x == 67 { } else if x == 68 { } else if x == 69 { } else if x == 70 { } else if x == 71 { } else if x == 72 { } else if x == 73 { } else if x == 74 { } else if x == 75 { } else if x == 76 { } else if x == 77 { } else if x == 78 { } else { assert x == 79; }
  }

  /** Row 5 of CRC_TABLE holds the eight-step remainders of the bytes 80 to 95. */
  lemma Row5LowValues()
    ensures Row5[0] == EightShifts(80) && Row5[1] == EightShifts(81) && Row5[2] == EightShifts(82) && Row5[3] == EightShifts(83)
         && Row5[4] == EightShifts(84) && Row5[5] == EightShifts(85) && Row5[6] == EightShifts(86) && Row5[7] == EightShifts(87)
  {
  }

  /** The upper half of row 5. */
  lemma Row5HighValues()
    ensures Row5[8] == EightShifts(88) && Row5[9] == EightShifts(89) && Row5[10] == EightShifts(90) && Row5[11] == EightShifts(91)
         && Row5[12] == EightShifts(92) && Row5[13] == EightShifts(93) && Row5[14] == EightShifts(94) && Row5[15] == EightShifts(95)
  {
  }

  lemma Row5IsPolynomial(x: byte)
    requires 80 <= x as int < 96
    ensures Table()[x as int] == PolyRemainder(x)
  {
    PolyRemainderUnrolled(x);
    Row5LowValues();
    Row5HighValues();
    if x == 80 { } else if x == 81 { } else if x == 82 { } else if x == 83 { } else if x == 84 { } else if x == 85 { } else if x == 86 { } else if x == 87 { } else if x == 88 { } else if x == 89 { } else if x == 90 { } else if x == 91 { } else if x == 92 { } else if x == 93 { } else if x == 94 { } else { assert x == 95; }
  }

  /** Row 6 of CRC_TABLE holds the eight-step remainders of the bytes 96 to 111. */
  lemma Row6LowValues()
    ensures Row6[0] == EightShifts(96) && Row6[1] == EightShifts(97) && Row6[2] == EightShifts(98) && Row6[3] == EightShifts(99)
         && Row6[4] == EightShifts(100) && Row6[5] == EightShifts(101) && Row6[6] == EightShifts(102) && Row6[7] == EightShifts(103)
  {
  }

  /** The upper half of row 6. */
  lemma Row6HighValues()
    ensures Row6[8] == EightShifts(104) && Row6[9] == EightShifts(105) && Row6[10] == EightShifts(106) && Row6[11] == EightShifts(107)
         && Row6[12] == EightShifts(108) && Row6[13] == EightShifts(109) && Row6[14] == EightShifts(110) && Row6[15] == EightShifts(111)
  {
  }

  lemma Row6IsPolynomial(x: byte)
    requires 96 <= x as int < 112
    ensures Table()[x as int] == PolyRemainder(x)
  {
    PolyRemainderUnrolled(x);
    Row6LowValues();
    Row6HighValues();
    if x == 96 { } else if x == 97 { } else if x == 98 { } else if x == 99 { } else if x == 100 { } else if x == 101 { } else if x == 102 { } else if x == 103 { } else if x == 104 { } else if x == 105 { } else if x == 106 { } else if x == 107 { } else if x == 108 { } else if x == 109 { } else if x == 110 { } else { assert x == 111; }
  }

  /** Row 7 of CRC_TABLE holds the eight-step remainders of the bytes 112 to 127. */
  lemma Row7LowValues()
    ensures Row7[0] == EightShifts(112) && Row7[1] == EightShifts(113) && Row7[2] == EightShifts(114) && Row7[3] == EightShifts(115)
         && Row7[4] == EightShifts(116) && Row7[5] == EightShifts(117) && Row7[6] == EightShifts(118) && Row7[7] == EightShifts(119)
  {
  }

  /** The upper half of row 7. */
  lemma Row7HighValues()
    ensures Row7[8] == EightShifts(120) && Row7[9] == EightShifts(121) && Row7[10] == EightShifts(122) && Row7[11] == EightShifts(123)
         && Row7[12] == EightShifts(124) && Row7[13] == EightShifts(125) && Row7[14] == EightShifts(126) && Row7[15] == EightShifts(127)
  {
  }

  lemma Row7IsPolynomial(x: byte)
    requires 112 <= x as int < 128
    ensures Table()[x as int] == PolyRemainder(x)
  {
    PolyRemainderUnrolled(x);
    Row7LowValues();
    Row7HighValues();
    if x == 112 { } else if x == 113 { } else if x == 114 { } else if x == 115 { } else if x == 116 { } else if x == 117 { } else if x == 118 { } else if x == 119 { } else if x == 120 { } else if x == 121 { } else if x == 122 { } else if x == 123 { } else if x == 124 { } else if x == 125 { } else if x == 126 { } else { assert x == 127; }
  }

  /** Row 8 of CRC_TABLE holds the eight-step remainders of the bytes 128 to 143. */
  lemma Row8LowValues()
    ensures Row8[0] == EightShifts(128) && Row8[1] == EightShifts(129) && Row8[2] == EightShifts(130) && Row8[3] == EightShifts(131)
         && Row8[4] == EightShifts(132) && Row8[5] == EightShifts(133) && Row8[6] == EightShifts(134) && Row8[7] == EightShifts(135)
  {
  }

  /** The upper half of row 8. */
  lemma Row8HighValues()
    ensures Row8[8] == EightShifts(136) && Row8[9] == EightShifts(137) && Row8[10] == EightShifts(138) && Row8[11] == EightShifts(139)
         && Row8[12] == EightShifts(140) && Row8[13] == EightShifts(141) && Row8[14] == EightShifts(142) && Row8[15] == EightShifts(143)
  {
  }

  lemma Row8IsPolynomial(x: byte)
    requires 128 <= x as int < 144
    ensures Table()[x as int] == PolyRemainder(x)
  {
    PolyRemainderUnrolled(x);
    Row8LowValues();
    Row8HighValues();
    if x == 128 { } else if x == 129 { } else if x == 130 { } else if x == 131 { } else if x == 132 { } else if x == 133 { } else if x == 134 { } else if x == 135 { } else if x == 136 { } else if x == 137 { } else if x == 138 { } else if x == 139 { } else if x == 140 { } else if x == 141 { } else if x == 142 { } else { assert x == 143; }
  }

  /** Row 9 of CRC_TABLE holds the eight-step remainders of the bytes 144 to 159. */
  lemma Row9LowValues()
    ensures Row9[0] == EightShifts(144) && Row9[1] == EightShifts(145) && Row9[2] == EightShifts(146) && Row9[3] == EightShifts(147)
         && Row9[4] == EightShifts(148) && Row9[5] == EightShifts(149) && Row9[6] == EightShifts(150) && Row9[7] == EightShifts(151)
  {
  }

  /** The upper half of row 9. */
  lemma Row9HighValues()
    ensures Row9[8] == EightShifts(152) && Row9[9] == EightShifts(153) && Row9[10] == EightShifts(154) && Row9[11] == EightShifts(155)
         && Row9[12] == EightShifts(156) && Row9[13] == EightShifts(157) && Row9[14] == EightShifts(158) && Row9[15] == EightShifts(159)
  {
  }

  lemma Row9IsPolynomial(x: byte)
    requires 144 <= x as int < 160
    ensures Table()[x as int] == PolyRemainder(x)
  {
    PolyRemainderUnrolled(x);
    Row9LowValues();
    Row9HighValues();
    if x == 144 { } else if x == 145 { } else if x == 146 { } else if x == 147 { } else if x == 148 { } else if x == 149 { } else if x == 150 { } else if x == 151 { } else if x == 152 { } else if x == 153 { } else if x == 154 { } else if x == 155 { } else if x == 156 { } else if x == 157 { } else if x == 158 { } else { assert x == 159; }
  }

  /** Row 10 of CRC_TABLE holds the eight-step remainders of the bytes 160 to 175. */
  lemma Row10LowValues()
    ensures Row10[0] == EightShifts(160) && Row10[1] == EightShifts(161) && Row10[2] == EightShifts(162) && Row10[3] == EightShifts(163)
         && Row10[4] == EightShifts(164) && Row10[5] == EightShifts(165) && Row10[6] == EightShifts(166) && Row10[7] == EightShifts(167)
  {
  }

  /** The upper half of row 10. */
  lemma Row10HighValues()
    ensures Row10[8] == EightShifts(168) && Row10[9] == EightShifts(169) && Row10[10] == EightShifts(170) && Row10[11] == EightShifts(171)
         && Row10[12] == EightShifts(172) && Row10[13] == EightShifts(173) && Row10[14] == EightShifts(174) && Row10[15] == EightShifts(175)
  {
  }

  lemma Row10IsPolynomial(x: byte)
    requires 160 <= x as int < 176
    ensures Table()[x as int] == PolyRemainder(x)
  {
    PolyRemainderUnrolled(x);
    Row10LowValues();
    Row10HighValues();
    if x == 160 { } else if x == 161 { } else if x == 162 { } else if x == 163 { } else if x == 164 { } else if x == 165 { } else if x == 166 { } else if x == 167 { } else if x == 168 { } else if x == 169 { } else if x == 170 { } else if x == 171 { } else if x == 172 { } else if x == 173 { } else if x == 174 { } else { assert x == 175; }
  }

  /** Row 11 of CRC_TABLE holds the eight-step remainders of the bytes 176 to 191. */
  lemma Row11LowValues()
    ensures Row11[0] == EightShifts(176) && Row11[1] == EightShifts(177) && Row11[2] == EightShifts(178) && Row11[3] == EightShifts(179)
         && Row11[4] == EightShifts(180) && Row11[5] == EightShifts(181) && Row11[6] == EightShifts(182) && Row11[7] == EightShifts(183)
  {
  }

  /** The upper half of row 11. */
  lemma Row11HighValues()
    ensures Row11[8] == EightShifts(184) && Row11[9] == EightShifts(185) && Row11[10] == EightShifts(186) && Row11[11] == EightShifts(187)
         && Row11[12] == EightShifts(188) && Row11[13] == EightShifts(189) && Row11[14] == EightShifts(190) && Row11[15] == EightShifts(191)
  {
  }

  lemma Row11IsPolynomial(x: byte)
    requires 176 <= x as int < 192
    ensures Table()[x as int] == PolyRemainder(x)
  {
    PolyRemainderUnrolled(x);
    Row11LowValues();
    Row11HighValues();
    if x == 176 { } else if x == 177 { } else if x == 178 { } else if x == 179 { } else if x == 180 { } else if x == 181 { } else if x == 182 { } else if x == 183 { } else if x == 184 { } else if x == 185 { } else if x == 186 { } else if x == 187 { } else if x == 188 { } else if x == 189 { } else if x == 190 { } else { assert x == 191; }
  }

  /** Row 12 of CRC_TABLE holds the eight-step remainders of the bytes 192 to 207. */
  lemma Row12LowValues()
    ensures Row12[0] == EightShifts(192) && Row12[1] == EightShifts(193) && Row12[2] == EightShifts(194) && Row12[3] == EightShifts(195)
         && Row12[4] == EightShifts(196) && Row12[5] == EightShifts(197) && Row12[6] == EightShifts(198) && Row12[7] == EightShifts(199)
  {
  }

  /** The upper half of row 12. */
  lemma Row12HighValues()
    ensures Row12[8] == EightShifts(200) && Row12[9] == EightShifts(201) && Row12[10] == EightShifts(202) && Row12[11] == EightShifts(203)
         && Row12[12] == EightShifts(204) && Row12[13] == EightShifts(205) && Row12[14] == EightShifts(206) && Row12[15] == EightShifts(207)
  {
  }

  lemma Row12IsPolynomial(x: byte)
    requires 192 <= x as int < 208
    ensures Table()[x as int] == PolyRemainder(x)
  {
    PolyRemainderUnrolled(x);
    Row12LowValues();
    Row12HighValues();
    if x == 192 { } else if x == 193 { } else if x == 194 { } else if x == 195 { } else if x == 196 { } else if x == 197 { } else if x == 198 { } else if x == 199 { } else if x == 200 { } else if x == 201 { } else if x == 202 { } else if x == 203 { } else if x == 204 { } else if x == 205 { } else if x == 206 { } else { assert x == 207; }
  }

  /** Row 13 of CRC_TABLE holds the eight-step remainders of the bytes 208 to 223. */
  lemma Row13LowValues()
    ensures Row13[0] == EightShifts(208) && Row13[1] == EightShifts(209) && Row13[2] == EightShifts(210) && Row13[3] == EightShifts(211)
         && Row13[4] == EightShifts(212) && Row13[5] == EightShifts(213) && Row13[6] == EightShifts(214) && Row13[7] == EightShifts(215)
  {
  }

  /** The upper half of row 13. */
  lemma Row13HighValues()
    ensures Row13[8] == EightShifts(216) && Row13[9] == EightShifts(217) && Row13[10] == EightShifts(218) && Row13[11] == EightShifts(219)
         && Row13[12] == EightShifts(220) && Row13[13] == EightShifts(221) && Row13[14] == EightShifts(222) && Row13[15] == EightShifts(223)
  {
  }

  lemma Row13IsPolynomial(x: byte)
    requires 208 <= x as int < 224
    ensures Table()[x as int] == PolyRemainder(x)
  {
    PolyRemainderUnrolled(x);
    Row13LowValues();
    Row13HighValues();
    if x == 208 { } else if x == 209 { } else if x == 210 { } else if x == 211 { } else if x == 212 { } else if x == 213 { } else if x == 214 { } else if x == 215 { } else if x == 216 { } else if x == 217 { } else if x == 218 { } else if x == 219 { } else if x == 220 { } else if x == 221 { } else if x == 222 { } else { assert x == 223; }
  }

  /** Row 14 of CRC_TABLE holds the eight-step remainders of the bytes 224 to 239. */
  lemma Row14LowValues()
    ensures Row14[0] == EightShifts(224) && Row14[1] == EightShifts(225) && Row14[2] == EightShifts(226) && Row14[3] == EightShifts(227)
         && Row14[4] == EightShifts(228) && Row14[5] == EightShifts(229) && Row14[6] == EightShifts(230) && Row14[7] == EightShifts(231)
  {
  }

  /** The upper half of row 14. */
  lemma Row14HighValues()
    ensures Row14[8] == EightShifts(232) && Row14[9] == EightShifts(233) && Row14[10] == EightShifts(234) && Row14[11] == EightShifts(235)
         && Row14[12] == EightShifts(236) && Row14[13] == EightShifts(237) && Row14[14] == EightShifts(238) && Row14[15] == EightShifts(239)
  {
  }

  lemma Row14IsPolynomial(x: byte)
    requires 224 <= x as int < 240
    ensures Table()[x as int] == PolyRemainder(x)
  {
    PolyRemainderUnrolled(x);
    Row14LowValues();
    Row14HighValues();
    if x == 224 { } else if x == 225 { } else if x == 226 { } else if x == 227 { } else if x == 228 { } else if x == 229 { } else if x == 230 { } else if x == 231 { } else if x == 232 { } else if x == 233 { } else if x == 234 { } else if x == 235 { } else if x == 236 { } else if x == 237 { } else if x == 238 { } else { assert x == 239; }
  }

  /** Row 15 of CRC_TABLE holds the eight-step remainders of the bytes 240 to 255. */
  lemma Row15LowValues()
    ensures Row15[0] == EightShifts(240) && Row15[1] == EightShifts(241) && Row15[2] == EightShifts(242) && Row15[3] == EightShifts(243)
         && Row15[4] == EightShifts(244) && Row15[5] == EightShifts(245) && Row15[6] == EightShifts(246) && Row15[7] == EightShifts(247)
  {
  }

  /** The upper half of row 15. */
  lemma Row15HighValues()
    ensures Row15[8] == EightShifts(248) && Row15[9] == EightShifts(249) && Row15[10] == EightShifts(250) && Row15[11] == EightShifts(251)
         && Row15[12] == EightShifts(252) && Row15[13] == EightShifts(253) && Row15[14] == EightShifts(254) && Row15[15] == EightShifts(255)
  {
  }

  lemma Row15IsPolynomial(x: byte)
    requires 240 <= x as int < 256
    ensures Table()[x as int] == PolyRemainder(x)
  {
    PolyRemainderUnrolled(x);
    Row15LowValues();
    Row15HighValues();
    if x == 240 { } else if x == 241 { } else if x == 242 { } else if x == 243 { } else if x == 244 { } else if x == 245 { } else if x == 246 { } else if x == 247 { } else if x == 248 { } else if x == 249 { } else if x == 250 { } else if x == 251 { } else if x == 252 { } else if x == 253 { } else if x == 254 { } else { assert x == 255; }
  }

  /** Every entry of CRC_TABLE is the CRC-8 remainder of its index for the generator 0x4D (MSB-first). */
  lemma TableIsPolynomial()
        ensures forall x: byte :: Table()[x as int] == PolyRemainder(x)
  {
    forall x: byte
      ensures Table()[x as int] == PolyRemainder(x)
    {
      if x as int < 16 { Row0IsPolynomial(x); } else if x as int < 32 { Row1IsPolynomial(x); } else if x as int < 48 { Row2IsPolynomial(x); } else if x as int < 64 { Row3IsPolynomial(x); } else if x as int < 80 { Row4IsPolynomial(x); } else if x as int < 96 { Row5IsPolynomial(x); } else if x as int < 112 { Row6IsPolynomial(x); } else if x as int < 128 { Row7IsPolynomial(x); } else if x as int < 144 { Row8IsPolynomial(x); } else if x as int < 160 { Row9IsPolynomial(x); } else if x as int < 176 { Row10IsPolynomial(x); } else if x as int < 192 { Row11IsPolynomial(x); } else if x as int < 208 { Row12IsPolynomial(x); } else if x as int < 224 { Row13IsPolynomial(x); } else if x as int < 240 { Row14IsPolynomial(x); } else { Row15IsPolynomial(x); }
    }
  }

  /** Different indices hold different entries: CRC_TABLE is a permutation of 0..255. */
  lemma TableInjective(x: byte, y: byte)
    requires Table()[x as int] == Table()[y as int]
    ensures x == y
  {
    TableIsPolynomial();
    PolyRemainderInjective(x, y);
  }

  /**
   * One step of the checksum loop, `crc = CRC_TABLE[crc ^ b]`, written with the
   * remainder that the table entry holds (see StepLooksUpTable). It lands on 0
   * exactly when the byte fed in equals the running CRC.
   */
  function Step(crc: byte, b: byte): (r: byte)
    ensures r == 0 <==> b == crc
  {
    PolyRemainderOfZero();
    assert PolyRemainder(crc ^ b) == 0 ==> crc ^ b == 0 by {
      if PolyRemainder(crc ^ b) == 0 {
        PolyRemainderInjective(crc ^ b, 0);
      }
    }
    PolyRemainder(crc ^ b)
  }

  /** A step is the lookup of CRC_TABLE at crc ^ b. */
  lemma StepLooksUpTable(crc: byte, b: byte)
    ensures Step(crc, b) == Table()[(crc ^ b) as int]
  {
    TableIsPolynomial();
  }

  /** For a fixed input byte, one step maps different CRCs to different CRCs. */
  lemma StepInjective(c: byte, d: byte, b: byte)
    requires Step(c, b) == Step(d, b)
    ensures c == d
  {
    PolyRemainderInjective(c ^ b, d ^ b);
    assert c == (c ^ b) ^ b && d == (d ^ b) ^ b;
  }

  /** From the same CRC, different input bytes lead to different CRCs. */
  lemma StepSeparatesBytes(c: byte, x: byte, y: byte)
    requires x != y
    ensures Step(c, x) != Step(c, y)
  {
    if Step(c, x) == Step(c, y) {
      PolyRemainderInjective(c ^ x, c ^ y);
      assert false;
    }
  }

  /**
   * The running CRC after feeding the bytes of s in order, starting from 0:
   * the value of `crc` after `for b in s: crc = CRC_TABLE[crc ^ b]`.
   */
  function Crc8(s: seq<byte>): (c: byte)
    ensures s != [] ==> (c == 0 <==> s[|s| - 1] == Crc8(s[..|s| - 1]))
    decreases |s|
  {
    if s == [] then 0 else Step(Crc8(s[..|s| - 1]), s[|s| - 1])
  }

  /** Feeding one more byte b applies one table step to the CRC so far. */
  lemma Crc8Append(s: seq<byte>, b: byte)
    ensures Crc8(s + [b]) == Step(Crc8(s), b)
  {
    assert (s + [b])[..|s|] == s;
  }

  /** The remainder of the zero byte is zero. */
  lemma PolyRemainderOfZero()
    ensures PolyRemainder(0) == 0
  {
    PolyRemainderUnrolled(0);
  }

  /** Appending its own CRC to a message drives the CRC to 0. */
  lemma Crc8Residue(s: seq<byte>)
    ensures Crc8(s + [Crc8(s)]) == 0
  {
    Crc8Append(s, Crc8(s));
    assert Crc8(s) ^ Crc8(s) == 0;
    PolyRemainderOfZero();
  }

  /** The CRC of a message followed by one byte c is 0 exactly when c is the message's CRC. */
  lemma Crc8ZeroIff(s: seq<byte>, c: byte)
    ensures Crc8(s + [c]) == 0 <==> c == Crc8(s)
  {
    Crc8Append(s, c);
    if Crc8(s + [c]) == 0 {
      PolyRemainderOfZero();
      PolyRemainderInjective(Crc8(s) ^ c, 0);
      assert c == (Crc8(s) ^ c) ^ Crc8(s);
    } else {
      Crc8Residue(s);
    }
  }

  /** Appending a byte after a concatenation regroups. */
  lemma AppendAssoc(u: seq<byte>, p: seq<byte>, b: byte)
    ensures u + (p + [b]) == (u + p) + [b]
  {
  }

  /** Once two messages have different CRCs, feeding both the same bytes keeps them different. */
  lemma {:induction false} Crc8KeepsDifference(u: seq<byte>, v: seq<byte>, q: seq<byte>)
    requires Crc8(u) != Crc8(v)
    ensures Crc8(u + q) != Crc8(v + q)
    decreases |q|
  {
    if q == [] {
      assert u + q == u;
      assert v + q == v;
    } else {
      var p, b := q[..|q| - 1], q[|q| - 1];
      assert q == p + [b];
      Crc8KeepsDifference(u, v, p);
      AppendAssoc(u, p, b);
      AppendAssoc(v, p, b);
      Crc8Append(u + p, b);
      Crc8Append(v + p, b);
      if Step(Crc8(u + p), b) == Step(Crc8(v + p), b) {
        StepInjective(Crc8(u + p), Crc8(v + p), b);
      }
    }
  }

  /** A sequence around position k, with the byte there replaced by b or kept. */
  lemma SplitAround(s: seq<byte>, k: nat, b: byte)
    requires k < |s|
    ensures s == (s[..k] + [s[k]]) + s[k + 1..]
    ensures s[k := b] == (s[..k] + [b]) + s[k + 1..]
  {
  }

  /** Changing any single byte of a message changes its CRC. */
  lemma Crc8DetectsByteChange(s: seq<byte>, k: nat, b: byte)
    requires k < |s| && b != s[k]
    ensures Crc8(s[k := b]) != Crc8(s)
  {
    var p, q := s[..k], s[k + 1..];
    SplitAround(s, k, b);
    Crc8Append(p, s[k]);
    Crc8Append(p, b);
    StepSeparatesBytes(Crc8(p), b, s[k]);
    Crc8KeepsDifference(p + [b], p + [s[k]], q);
  }
}
