/** The 256-entry table of Generic/CdmiFuse/crc.cpp and what it holds: entry i is the reflected
    CRC-32 shift register after eight clocks from i. The rows of sixteen entries below are the
    array initialiser of the source, cut for the solver's sake only. */
module Crc32Table {

  const POLYNOMIAL: bv32 := 0xEDB88320

  /** One clock of the shift register. */
  function Clock(c: bv32): bv32 {
    if c & 1 == 1 then (c >> 1) ^ POLYNOMIAL else c >> 1
  }

  function Clock8(c: bv32): bv32 {
    Clock(Clock(Clock(Clock(Clock(Clock(Clock(Clock(c))))))))
  }

  const ROW_0: seq<bv32> := [
    0x00000000, 0x77073096, 0xee0e612c, 0x990951ba, 0x076dc419, 0x706af48f, 0xe963a535, 0x9e6495a3,
    0x0edb8832, 0x79dcb8a4, 0xe0d5e91e, 0x97d2d988, 0x09b64c2b, 0x7eb17cbd, 0xe7b82d07, 0x90bf1d91]
  const ROW_1: seq<bv32> := [
    0x1db71064, 0x6ab020f2, 0xf3b97148, 0x84be41de, 0x1adad47d, 0x6ddde4eb, 0xf4d4b551, 0x83d385c7,
    0x136c9856, 0x646ba8c0, 0xfd62f97a, 0x8a65c9ec, 0x14015c4f, 0x63066cd9, 0xfa0f3d63, 0x8d080df5]
  const ROW_2: seq<bv32> := [
    0x3b6e20c8, 0x4c69105e, 0xd56041e4, 0xa2677172, 0x3c03e4d1, 0x4b04d447, 0xd20d85fd, 0xa50ab56b,
    0x35b5a8fa, 0x42b2986c, 0xdbbbc9d6, 0xacbcf940, 0x32d86ce3, 0x45df5c75, 0xdcd60dcf, 0xabd13d59]
  const ROW_3: seq<bv32> := [
    0x26d930ac, 0x51de003a, 0xc8d75180, 0xbfd06116, 0x21b4f4b5, 0x56b3c423, 0xcfba9599, 0xb8bda50f,
    0x2802b89e, 0x5f058808, 0xc60cd9b2, 0xb10be924, 0x2f6f7c87, 0x58684c11, 0xc1611dab, 0xb6662d3d]
  const ROW_4: seq<bv32> := [
    0x76dc4190, 0x01db7106, 0x98d220bc, 0xefd5102a, 0x71b18589, 0x06b6b51f, 0x9fbfe4a5, 0xe8b8d433,
    0x7807c9a2, 0x0f00f934, 0x9609a88e, 0xe10e9818, 0x7f6a0dbb, 0x086d3d2d, 0x91646c97, 0xe6635c01]
  const ROW_5: seq<bv32> := [
    0x6b6b51f4, 0x1c6c6162, 0x856530d8, 0xf262004e, 0x6c0695ed, 0x1b01a57b, 0x8208f4c1, 0xf50fc457,
    0x65b0d9c6, 0x12b7e950, 0x8bbeb8ea, 0xfcb9887c, 0x62dd1ddf, 0x15da2d49, 0x8cd37cf3, 0xfbd44c65]
  const ROW_6: seq<bv32> := [
    0x4db26158, 0x3ab551ce, 0xa3bc0074, 0xd4bb30e2, 0x4adfa541, 0x3dd895d7, 0xa4d1c46d, 0xd3d6f4fb,
    0x4369e96a, 0x346ed9fc, 0xad678846, 0xda60b8d0, 0x44042d73, 0x33031de5, 0xaa0a4c5f, 0xdd0d7cc9]
  const ROW_7: seq<bv32> := [
    0x5005713c, 0x270241aa, 0xbe0b1010, 0xc90c2086, 0x5768b525, 0x206f85b3, 0xb966d409, 0xce61e49f,
    0x5edef90e, 0x29d9c998, 0xb0d09822, 0xc7d7a8b4, 0x59b33d17, 0x2eb40d81, 0xb7bd5c3b, 0xc0ba6cad]
  const ROW_8: seq<bv32> := [
    0xedb88320, 0x9abfb3b6, 0x03b6e20c, 0x74b1d29a, 0xead54739, 0x9dd277af, 0x04db2615, 0x73dc1683,
    0xe3630b12, 0x94643b84, 0x0d6d6a3e, 0x7a6a5aa8, 0xe40ecf0b, 0x9309ff9d, 0x0a00ae27, 0x7d079eb1]
  const ROW_9: seq<bv32> := [
    0xf00f9344, 0x8708a3d2, 0x1e01f268, 0x6906c2fe, 0xf762575d, 0x806567cb, 0x196c3671, 0x6e6b06e7,
    0xfed41b76, 0x89d32be0, 0x10da7a5a, 0x67dd4acc, 0xf9b9df6f, 0x8ebeeff9, 0x17b7be43, 0x60b08ed5]
  const ROW_A: seq<bv32> := [
    0xd6d6a3e8, 0xa1d1937e, 0x38d8c2c4, 0x4fdff252, 0xd1bb67f1, 0xa6bc5767, 0x3fb506dd, 0x48b2364b,
    0xd80d2bda, 0xaf0a1b4c, 0x36034af6, 0x41047a60, 0xdf60efc3, 0xa867df55, 0x316e8eef, 0x4669be79]
  const ROW_B: seq<bv32> := [
    0xcb61b38c, 0xbc66831a, 0x256fd2a0, 0x5268e236, 0xcc0c7795, 0xbb0b4703, 0x220216b9, 0x5505262f,
    0xc5ba3bbe, 0xb2bd0b28, 0x2bb45a92, 0x5cb36a04, 0xc2d7ffa7, 0xb5d0cf31, 0x2cd99e8b, 0x5bdeae1d]
  const ROW_C: seq<bv32> := [
    0x9b64c2b0, 0xec63f226, 0x756aa39c, 0x026d930a, 0x9c0906a9, 0xeb0e363f, 0x72076785, 0x05005713,
    0x95bf4a82, 0xe2b87a14, 0x7bb12bae, 0x0cb61b38, 0x92d28e9b, 0xe5d5be0d, 0x7cdcefb7, 0x0bdbdf21]
  const ROW_D: seq<bv32> := [
    0x86d3d2d4, 0xf1d4e242, 0x68ddb3f8, 0x1fda836e, 0x81be16cd, 0xf6b9265b, 0x6fb077e1, 0x18b74777,
    0x88085ae6, 0xff0f6a70, 0x66063bca, 0x11010b5c, 0x8f659eff, 0xf862ae69, 0x616bffd3, 0x166ccf45]
  const ROW_E: seq<bv32> := [
    0xa00ae278, 0xd70dd2ee, 0x4e048354, 0x3903b3c2, 0xa7672661, 0xd06016f7, 0x4969474d, 0x3e6e77db,
    0xaed16a4a, 0xd9d65adc, 0x40df0b66, 0x37d83bf0, 0xa9bcae53, 0xdebb9ec5, 0x47b2cf7f, 0x30b5ffe9]
  const ROW_F: seq<bv32> := [
    0xbdbdf21c, 0xcabac28a, 0x53b39330, 0x24b4a3a6, 0xbad03605, 0xcdd70693, 0x54de5729, 0x23d967bf,
    0xb3667a2e, 0xc4614ab8, 0x5d681b02, 0x2a6f2b94, 0xb40bbe37, 0xc30c8ea1, 0x5a05df1b, 0x2d02ef8d]
  const QUARTER_0 := ROW_0 + ROW_1 + ROW_2 + ROW_3
  const QUARTER_1 := ROW_4 + ROW_5 + ROW_6 + ROW_7
  const QUARTER_2 := ROW_8 + ROW_9 + ROW_A + ROW_B
  const QUARTER_3 := ROW_C + ROW_D + ROW_E + ROW_F

  const TABLE: seq<bv32> := QUARTER_0 + QUARTER_1 + QUARTER_2 + QUARTER_3

  function Entry(n: int): bv32 {
    if 0 <= n < 256 then Clock8(n as bv32) else 0
  }

  /** A stretch of the table, starting at index base. */
  ghost predicate Lists<T>(s: seq<T>, entry: int -> T, base: int) {
    forall k :: 0 <= k < |s| ==> s[k] == entry(base + k)
  }

  lemma Row<T>(row: seq<T>, entry: int -> T, base: int)
    requires row == [
      entry(base), entry(base + 1), entry(base + 2), entry(base + 3),
      entry(base + 4), entry(base + 5), entry(base + 6), entry(base + 7),
      entry(base + 8), entry(base + 9), entry(base + 10), entry(base + 11),
      entry(base + 12), entry(base + 13), entry(base + 14), entry(base + 15)]
    ensures |row| == 16 && Lists(row, entry, base)
  {
  }

  lemma Join<T>(a: seq<T>, b: seq<T>, entry: int -> T, base: int)
    requires Lists(a, entry, base) && Lists(b, entry, base + |a|)
    ensures Lists(a + b, entry, base)
  {
    forall k | 0 <= k < |a + b|
      ensures (a + b)[k] == entry(base + k)
    {
      if k >= |a| {
        assert b[k - |a|] == entry(base + |a| + (k - |a|));
      }
    }
  }

  lemma JoinFour<T>(a: seq<T>, b: seq<T>, c: seq<T>, d: seq<T>, entry: int -> T, base: int, n: nat)
    requires |a| == |b| == |c| == |d| == n
    requires Lists(a, entry, base) && Lists(b, entry, base + n)
    requires Lists(c, entry, base + 2 * n) && Lists(d, entry, base + 3 * n)
    ensures |a + b + c + d| == 4 * n && Lists(a + b + c + d, entry, base)
  {
    Join(a, b, entry, base);
    Join(a + b, c, entry, base);
    Join(a + b + c, d, entry, base);
  }

  lemma Row0Values()
    ensures ROW_0 == [
      Entry(0), Entry(1), Entry(2), Entry(3), Entry(4), Entry(5), Entry(6), Entry(7),
      Entry(8), Entry(9), Entry(10), Entry(11), Entry(12), Entry(13), Entry(14), Entry(15)]
  {
  }

  lemma FirstRow<T>(row: seq<T>, entry: int -> T)
    requires row == [
      entry(0), entry(1), entry(2), entry(3), entry(4), entry(5), entry(6), entry(7),
      entry(8), entry(9), entry(10), entry(11), entry(12), entry(13), entry(14), entry(15)]
    ensures |row| == 16 && Lists(row, entry, 0)
  {
    Row(row, entry, 0);
  }

  lemma Row0()
    ensures |ROW_0| == 16 && Lists(ROW_0, Entry, 0)
  {
    Row0Values();
    FirstRow(ROW_0, Entry);
  }

  lemma Row1()
    ensures |ROW_1| == 16 && Lists(ROW_1, Entry, 16)
  {
    assert ROW_1 == [
      Entry(16), Entry(17), Entry(18), Entry(19), Entry(20), Entry(21), Entry(22), Entry(23),
      Entry(24), Entry(25), Entry(26), Entry(27), Entry(28), Entry(29), Entry(30), Entry(31)];
    Row(ROW_1, Entry, 16);
  }

  lemma Row2()
    ensures |ROW_2| == 16 && Lists(ROW_2, Entry, 32)
  {
    assert ROW_2 == [
      Entry(32), Entry(33), Entry(34), Entry(35), Entry(36), Entry(37), Entry(38), Entry(39),
      Entry(40), Entry(41), Entry(42), Entry(43), Entry(44), Entry(45), Entry(46), Entry(47)];
    Row(ROW_2, Entry, 32);
  }

  lemma Row3()
    ensures |ROW_3| == 16 && Lists(ROW_3, Entry, 48)
  {
    assert ROW_3 == [
      Entry(48), Entry(49), Entry(50), Entry(51), Entry(52), Entry(53), Entry(54), Entry(55),
      Entry(56), Entry(57), Entry(58), Entry(59), Entry(60), Entry(61), Entry(62), Entry(63)];
    Row(ROW_3, Entry, 48);
  }

  lemma Row4()
    ensures |ROW_4| == 16 && Lists(ROW_4, Entry, 64)
  {
    assert ROW_4 == [
      Entry(64), Entry(65), Entry(66), Entry(67), Entry(68), Entry(69), Entry(70), Entry(71),
      Entry(72), Entry(73), Entry(74), Entry(75), Entry(76), Entry(77), Entry(78), Entry(79)];
    Row(ROW_4, Entry, 64);
  }

  lemma Row5()
    ensures |ROW_5| == 16 && Lists(ROW_5, Entry, 80)
  {
    assert ROW_5 == [
      Entry(80), Entry(81), Entry(82), Entry(83), Entry(84), Entry(85), Entry(86), Entry(87),
      Entry(88), Entry(89), Entry(90), Entry(91), Entry(92), Entry(93), Entry(94), Entry(95)];
    Row(ROW_5, Entry, 80);
  }

  lemma Row6()
    ensures |ROW_6| == 16 && Lists(ROW_6, Entry, 96)
  {
    assert ROW_6 == [
      Entry(96), Entry(97), Entry(98), Entry(99), Entry(100), Entry(101), Entry(102), Entry(103),
      Entry(104), Entry(105), Entry(106), Entry(107), Entry(108), Entry(109), Entry(110), Entry(111)];
    Row(ROW_6, Entry, 96);
  }

  lemma Row7()
    ensures |ROW_7| == 16 && Lists(ROW_7, Entry, 112)
  {
    assert ROW_7 == [
      Entry(112), Entry(113), Entry(114), Entry(115), Entry(116), Entry(117), Entry(118), Entry(119),
      Entry(120), Entry(121), Entry(122), Entry(123), Entry(124), Entry(125), Entry(126), Entry(127)];
    Row(ROW_7, Entry, 112);
  }

  lemma Row8()
    ensures |ROW_8| == 16 && Lists(ROW_8, Entry, 128)
  {
    assert ROW_8 == [
      Entry(128), Entry(129), Entry(130), Entry(131), Entry(132), Entry(133), Entry(134), Entry(135),
      Entry(136), Entry(137), Entry(138), Entry(139), Entry(140), Entry(141), Entry(142), Entry(143)];
    Row(ROW_8, Entry, 128);
  }

  lemma Row9()
    ensures |ROW_9| == 16 && Lists(ROW_9, Entry, 144)
  {
    assert ROW_9 == [
      Entry(144), Entry(145), Entry(146), Entry(147), Entry(148), Entry(149), Entry(150), Entry(151),
      Entry(152), Entry(153), Entry(154), Entry(155), Entry(156), Entry(157), Entry(158), Entry(159)];
    Row(ROW_9, Entry, 144);
  }

  lemma RowA()
    ensures |ROW_A| == 16 && Lists(ROW_A, Entry, 160)
  {
    assert ROW_A == [
      Entry(160), Entry(161), Entry(162), Entry(163), Entry(164), Entry(165), Entry(166), Entry(167),
      Entry(168), Entry(169), Entry(170), Entry(171), Entry(172), Entry(173), Entry(174), Entry(175)];
    Row(ROW_A, Entry, 160);
  }

  lemma RowB()
    ensures |ROW_B| == 16 && Lists(ROW_B, Entry, 176)
  {
    assert ROW_B == [
      Entry(176), Entry(177), Entry(178), Entry(179), Entry(180), Entry(181), Entry(182), Entry(183),
      Entry(184), Entry(185), Entry(186), Entry(187), Entry(188), Entry(189), Entry(190), Entry(191)];
    Row(ROW_B, Entry, 176);
  }

  lemma RowC()
    ensures |ROW_C| == 16 && Lists(ROW_C, Entry, 192)
  {
    assert ROW_C == [
      Entry(192), Entry(193), Entry(194), Entry(195), Entry(196), Entry(197), Entry(198), Entry(199),
      Entry(200), Entry(201), Entry(202), Entry(203), Entry(204), Entry(205), Entry(206), Entry(207)];
    Row(ROW_C, Entry, 192);
  }

  lemma RowD()
    ensures |ROW_D| == 16 && Lists(ROW_D, Entry, 208)
  {
    assert ROW_D == [
      Entry(208), Entry(209), Entry(210), Entry(211), Entry(212), Entry(213), Entry(214), Entry(215),
      Entry(216), Entry(217), Entry(218), Entry(219), Entry(220), Entry(221), Entry(222), Entry(223)];
    Row(ROW_D, Entry, 208);
  }

  lemma RowE()
    ensures |ROW_E| == 16 && Lists(ROW_E, Entry, 224)
  {
    assert ROW_E == [
      Entry(224), Entry(225), Entry(226), Entry(227), Entry(228), Entry(229), Entry(230), Entry(231),
      Entry(232), Entry(233), Entry(234), Entry(235), Entry(236), Entry(237), Entry(238), Entry(239)];
    Row(ROW_E, Entry, 224);
  }

  lemma RowF()
    ensures |ROW_F| == 16 && Lists(ROW_F, Entry, 240)
  {
    assert ROW_F == [
      Entry(240), Entry(241), Entry(242), Entry(243), Entry(244), Entry(245), Entry(246), Entry(247),
      Entry(248), Entry(249), Entry(250), Entry(251), Entry(252), Entry(253), Entry(254), Entry(255)];
    Row(ROW_F, Entry, 240);
  }

  lemma Quarter0(entry: int -> bv32)
    requires |ROW_0| == 16 && Lists(ROW_0, entry, 0)
    requires |ROW_1| == 16 && Lists(ROW_1, entry, 16)
    requires |ROW_2| == 16 && Lists(ROW_2, entry, 32)
    requires |ROW_3| == 16 && Lists(ROW_3, entry, 48)
    ensures |QUARTER_0| == 64 && Lists(QUARTER_0, entry, 0)
  {
    JoinFour(ROW_0, ROW_1, ROW_2, ROW_3, entry, 0, 16);
  }

  lemma Quarter1(entry: int -> bv32)
    requires |ROW_4| == 16 && Lists(ROW_4, entry, 64)
    requires |ROW_5| == 16 && Lists(ROW_5, entry, 80)
    requires |ROW_6| == 16 && Lists(ROW_6, entry, 96)
    requires |ROW_7| == 16 && Lists(ROW_7, entry, 112)
    ensures |QUARTER_1| == 64 && Lists(QUARTER_1, entry, 64)
  {
    JoinFour(ROW_4, ROW_5, ROW_6, ROW_7, entry, 64, 16);
  }

  lemma Quarter2(entry: int -> bv32)
    requires |ROW_8| == 16 && Lists(ROW_8, entry, 128)
    requires |ROW_9| == 16 && Lists(ROW_9, entry, 144)
    requires |ROW_A| == 16 && Lists(ROW_A, entry, 160)
    requires |ROW_B| == 16 && Lists(ROW_B, entry, 176)
    ensures |QUARTER_2| == 64 && Lists(QUARTER_2, entry, 128)
  {
    JoinFour(ROW_8, ROW_9, ROW_A, ROW_B, entry, 128, 16);
  }

  lemma Quarter3(entry: int -> bv32)
    requires |ROW_C| == 16 && Lists(ROW_C, entry, 192)
    requires |ROW_D| == 16 && Lists(ROW_D, entry, 208)
    requires |ROW_E| == 16 && Lists(ROW_E, entry, 224)
    requires |ROW_F| == 16 && Lists(ROW_F, entry, 240)
    ensures |QUARTER_3| == 64 && Lists(QUARTER_3, entry, 192)
  {
    JoinFour(ROW_C, ROW_D, ROW_E, ROW_F, entry, 192, 16);
  }

  lemma Quarters(entry: int -> bv32)
    requires |QUARTER_0| == |QUARTER_1| == |QUARTER_2| == |QUARTER_3| == 64
    requires Lists(QUARTER_0, entry, 0) && Lists(QUARTER_1, entry, 64)
    requires Lists(QUARTER_2, entry, 128) && Lists(QUARTER_3, entry, 192)
    ensures |TABLE| == 256 && Lists(TABLE, entry, 0)
  {
    JoinFour(QUARTER_0, QUARTER_1, QUARTER_2, QUARTER_3, entry, 0, 64);
  }

  lemma TableLists()
    ensures |TABLE| == 256 && Lists(TABLE, Entry, 0)
  {
    Row0(); Row1(); Row2(); Row3();
    Quarter0(Entry);
    Row4(); Row5(); Row6(); Row7();
    Quarter1(Entry);
    Row8(); Row9(); RowA(); RowB();
    Quarter2(Entry);
    RowC(); RowD(); RowE(); RowF();
    Quarter3(Entry);
    Quarters(Entry);
  }

  lemma IndexAsWord(i: bv32)
    requires i < 256
    ensures 0 <= i as int < 256 && (i as int) as bv32 == i
  {
  }

  /** The table holds what eight clocks make of each byte. */
  lemma TableEntry(i: bv32)
    requires i < 256
    ensures |TABLE| == 256
    ensures 0 <= i as int < 256 && TABLE[i as int] == Clock8(i)
  {
    IndexAsWord(i);
    TableLists();
    assert TABLE[i as int] == Entry(i as int);
  }
}
