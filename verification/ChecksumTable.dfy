/** The table of the checksum. */
module ChecksumTable {
  // The 256 constants are the remainders of the 256 bytes: each is made from the one with half its index by one more
  // step of the division.

  import opened Arith
  import opened BitStrings
  import opened Checksum
  import opened RunLength

  // ---------------------------------------------------------------- numbers in hexadecimal

  /** The digits of the polynomial that are not zero, combined with a digit. */
  function With1(d: int): int {
    if d < 2 then 1 - d else if d < 4 then 5 - d else if d < 6 then 9 - d else if d < 8 then 13 - d
    else if d < 10 then 17 - d else if d < 12 then 21 - d else if d < 14 then 25 - d else 29 - d
  }

  function With4(d: int): int {
    if d < 4 then d + 4 else if d < 8 then d - 4 else if d < 12 then d + 4 else d - 4
  }

  function With7(d: int): int {
    if d < 8 then 7 - d else 23 - d
  }

  function WithB(d: int): int {
    if d < 4 then 11 - d else if d < 8 then 19 - d else if d < 12 then 11 - d else 19 - d
  }

  function WithC(d: int): int {
    if d < 4 then d + 12 else if d < 8 then d + 4 else if d < 12 then d - 4 else d - 12
  }

  function WithD(d: int): int {
    if d < 2 then 13 - d else if d < 4 then 17 - d else if d < 6 then 13 - d else if d < 8 then 17 - d
    else if d < 10 then 13 - d else if d < 12 then 17 - d else if d < 14 then 13 - d else 17 - d
  }

  function Bit(b: int, d: int): int {
    if b == d then 0 else 1
  }

  lemma OneBitXor(a: nat, b: int, c: nat, d: int)
    requires 0 <= b <= 1 && 0 <= d <= 1
    ensures Xor(2 * a + b, 2 * c + d) == 2 * Xor(a, c) + Bit(b, d)
  {
    hide Xor;
    XorHalves(2 * a + b, 2 * c + d);
  }

  /** Digits, and numbers, are combined bit by bit. */
  lemma FourBitsXor(a: nat, p: int, q: int, r: int, s: int, c: nat, p': int, q': int, r': int, s': int)
    requires 0 <= p <= 1 && 0 <= q <= 1 && 0 <= r <= 1 && 0 <= s <= 1
    requires 0 <= p' <= 1 && 0 <= q' <= 1 && 0 <= r' <= 1 && 0 <= s' <= 1
    ensures Xor(16 * a + 8 * p + 4 * q + 2 * r + s, 16 * c + 8 * p' + 4 * q' + 2 * r' + s') ==
              16 * Xor(a, c) + 8 * Bit(p, p') + 4 * Bit(q, q') + 2 * Bit(r, r') + Bit(s, s')
  {
    hide Xor, Bit;
    OneBitXor(a, p, c, p');
    OneBitXor(2 * a + p, q, 2 * c + p', q');
    OneBitXor(4 * a + 2 * p + q, r, 4 * c + 2 * p' + q', r');
    OneBitXor(8 * a + 4 * p + 2 * q + r, s, 8 * c + 4 * p' + 2 * q' + r', s');
  }

  /** A digit combined with one of those of the polynomial. */
  function With(d: int, j: int): int {
    if j == 0x1 then With1(d)
    else if j == 0x4 then With4(d)
    else if j == 0x7 then With7(d)
    else if j == 0xb then WithB(d)
    else if j == 0xc then WithC(d)
    else WithD(d)
  }

  /** One digit more. */
  lemma DigitXor(a: nat, d: int, c: nat, j: int)
    requires 0 <= d < 16 && (j == 0x1 || j == 0x4 || j == 0x7 || j == 0xb || j == 0xc || j == 0xd)
    ensures Xor(16 * a + d, 16 * c + j) == 16 * Xor(a, c) + With(d, j)
  {
    hide Xor;
    var p, p' := if d >= 8 then 1 else 0, if j >= 8 then 1 else 0;
    var q, q' := if d - 8 * p >= 4 then 1 else 0, if j - 8 * p' >= 4 then 1 else 0;
    var r, r' := if d - 8 * p - 4 * q >= 2 then 1 else 0, if j - 8 * p' - 4 * q' >= 2 then 1 else 0;
    FourBitsXor(a, p, q, r, d - 8 * p - 4 * q - 2 * r, c, p', q', r', j - 8 * p' - 4 * q' - 2 * r');
  }

  function Hex(d7: int, d6: int, d5: int, d4: int, d3: int, d2: int, d1: int, d0: int): int {
    0x1000_0000 * d7 + 0x100_0000 * d6 + 0x10_0000 * d5 + 0x1_0000 * d4 + 0x1000 * d3 + 0x100 * d2 + 0x10 * d1 + d0
  }

  predicate Digit(d: int) {
    0 <= d < 16
  }

  /** The upper digits. */
  lemma TwoXor(d7: int, d6: int)
    requires Digit(d7) && Digit(d6)
    ensures Xor(16 * d7 + d6, 0x4) == 16 * d7 + With4(d6)
  {
    hide Xor, With4;
    XorZero(d7);
    DigitXor(d7, d6, 0, 0x4);
    assert 16 * 0 + 0x4 == 0x4;
  }

  lemma ThreeXor(d7: int, d6: int, d5: int)
    requires Digit(d7) && Digit(d6) && Digit(d5)
    ensures Xor(256 * d7 + 16 * d6 + d5, 0x4c) == 256 * d7 + 16 * With4(d6) + WithC(d5)
  {
    hide Xor, With4, WithC;
    TwoXor(d7, d6);
    DigitXor(16 * d7 + d6, d5, 0x4, 0xc);
  }

  lemma UpperXor(d7: int, d6: int, d5: int, d4: int)
    requires Digit(d7) && Digit(d6) && Digit(d5) && Digit(d4)
    ensures Xor(0x1000 * d7 + 0x100 * d6 + 0x10 * d5 + d4, 0x4c1) ==
              0x1000 * d7 + 0x100 * With4(d6) + 0x10 * WithC(d5) + With1(d4)
  {
    hide Xor, With1, With4, WithC;
    ThreeXor(d7, d6, d5);
    NextXor(256 * d7 + 16 * d6 + d5, 256 * d7 + 16 * With4(d6) + WithC(d5), d4);
  }

  lemma NextXor(e: nat, x: int, d: int)
    requires Xor(e, 0x4c) == x && Digit(d)
    ensures Xor(16 * e + d, 0x4c1) == 16 * x + With1(d)
  {
    hide Xor, With1;
    DigitXor(e, d, 0x4c, 0x1);
  }

  /** A number combined with the polynomial. */
  lemma HexXor(d7: int, d6: int, d5: int, d4: int, d3: int, d2: int, d1: int, d0: int)
    requires Digit(d7) && Digit(d6) && Digit(d5) && Digit(d4) && Digit(d3) && Digit(d2) && Digit(d1) && Digit(d0)
    ensures 0 <= Hex(d7, d6, d5, d4, d3, d2, d1, d0) < WORD
    ensures Xor(Hex(d7, d6, d5, d4, d3, d2, d1, d0), POLYNOMIAL) ==
              Hex(d7, With4(d6), WithC(d5), With1(d4), With1(d3), WithD(d2), WithB(d1), With7(d0))
  {
    hide Xor, With1, With4, With7, WithB, WithC, WithD;
    UpperXor(d7, d6, d5, d4);
    var e := 0x1000 * d7 + 0x100 * d6 + 0x10 * d5 + d4;
    DigitXor(e, d3, 0x4c1, 0x1);
    DigitXor(16 * e + d3, d2, 0x4c11, 0xd);
    DigitXor(256 * e + 16 * d3 + d2, d1, 0x4_c11d, 0xb);
    DigitXor(4096 * e + 256 * d3 + 16 * d2 + d1, d0, 0x4c_11db, 0x7);
  }

  // ---------------------------------------------------------------- what the entries must be

  /** `a` and `b` are the entries at twice the index of `t` and behind it. */
  ghost predicate Linked(t: int, a: int, b: int) {
    0 <= t < WORD && a == Shift(t) && b == Xor(a, POLYNOMIAL)
  }

  /** The digits are those of one of the two, and the polynomial makes the other. */
  lemma Link(t: int, a: int, b: int, d7: int, d6: int, d5: int, d4: int, d3: int, d2: int, d1: int, d0: int)
    requires Digit(d7) && Digit(d6) && Digit(d5) && Digit(d4) && Digit(d3) && Digit(d2) && Digit(d1) && Digit(d0)
    requires 0 <= t < WORD
    requires if t >= TOP_BIT then b == 2 * (t - TOP_BIT) else a == 2 * t
    requires Hex(d7, d6, d5, d4, d3, d2, d1, d0) == if t >= TOP_BIT then b else a
    requires Hex(d7, With4(d6), WithC(d5), With1(d4), With1(d3), WithD(d2), WithB(d1), With7(d0)) ==
               if t >= TOP_BIT then a else b
    ensures Linked(t, a, b)
  {
    hide Xor, With1, With4, With7, WithB, WithC, WithD, Hex;
    HexXor(d7, d6, d5, d4, d3, d2, d1, d0);
    var x := Hex(d7, d6, d5, d4, d3, d2, d1, d0);
    if t >= TOP_BIT {
      XorAssociates(x, POLYNOMIAL, POLYNOMIAL);
      XorSelf(POLYNOMIAL);
      XorZero(x);
    }
  }

  lemma LinkZero()
    ensures Linked(0, 0, POLYNOMIAL)
  {
    hide Xor;
    XorZero(POLYNOMIAL);
  }

  lemma {:induction false} ShiftsFirst(x: int, k: nat)
    requires 0 <= x < WORD
    ensures Shifts(x, k + 1) == Shifts(Shift(x), k)
  {
    hide Shift;
    if k > 0 {
      ShiftsFirst(x, k - 1);
    }
  }

  lemma EvenEntry(c: int)
    requires 0 <= c < 128
    ensures Shifts(2 * c * TOP, 8) == Shift(Shifts(c * TOP, 8))
  {
    hide Shifts, Xor;
    ShiftsFirst(c * TOP, 8);
    assert Shift(c * TOP) == 2 * c * TOP;
    OneMoreShift(c * TOP);
  }

  lemma OneMoreShift(x: int)
    requires 0 <= x < WORD
    ensures Shifts(x, 9) == Shift(Shifts(x, 8))
  {
    hide Shift;
  }

  lemma FirstEntry()
    ensures Shifts(0, 8) == 0 && Shifts(TOP, 8) == POLYNOMIAL
  {
    hide Pow2, Xor, Shifts;
    TopPower();
    ShiftsSmall(0, 8);
    Pow2Step(8);
    ShiftsSmall(TOP, 7);
    LastShift(TOP);
    XorZero(POLYNOMIAL);
  }

  lemma LastShift(x: int)
    requires 0 <= x < WORD
    ensures Shifts(x, 8) == Shift(Shifts(x, 7))
  {
    hide Shift;
  }

  lemma OddEntry(c: int)
    requires 0 <= c < 128
    ensures Shifts((2 * c + 1) * TOP, 8) == Xor(Shifts(2 * c * TOP, 8), POLYNOMIAL)
  {
    hide Xor, Pow2, Shifts, Join;
    TopPower();
    FirstEntry();
    XorHalves(2 * c, 1);
    XorZero(c);
    XorNothing();
    XorParts(2 * c, 0, 1, 0, 24);
    JoinTop(2 * c, 0);
    JoinTop(1, 0);
    JoinTop(2 * c + 1, 0);
    ShiftsLinear(2 * c * TOP, TOP, 8);
  }

  /** A table in which every entry is linked to the one with half its index. */
  ghost predicate AllLinked(table: seq<int>) {
    |table| == 256 && table[0] == 0 && forall c | 0 <= c < 128 :: Linked(table[c], table[2 * c], table[2 * c + 1])
  }

  lemma {:induction false} EntryIs(table: seq<int>, i: nat)
    requires AllLinked(table) && i < 256
    ensures table[i] == Shifts(i * TOP, 8)
  {
    hide Shifts, Shift, Xor;
    if i == 0 {
      FirstEntry();
    } else {
      var c := i / 2;
      EntryIs(table, c);
      assert Linked(table[c], table[2 * c], table[2 * c + 1]);
      EvenEntry(c);
      OddEntry(c);
      assert i == 2 * c || i == 2 * c + 1;
    }
  }

  // ---------------------------------------------------------------- the constants

  const ROW_0: seq<int> := [
    0x0000_0000, 0x04c1_1db7, 0x0982_3b6e, 0x0d43_26d9, 0x1304_76dc, 0x17c5_6b6b, 0x1a86_4db2, 0x1e47_5005,
    0x2608_edb8, 0x22c9_f00f, 0x2f8a_d6d6, 0x2b4b_cb61, 0x350c_9b64, 0x31cd_86d3, 0x3c8e_a00a, 0x384f_bdbd]

  const ROW_1: seq<int> := [
    0x4c11_db70, 0x48d0_c6c7, 0x4593_e01e, 0x4152_fda9, 0x5f15_adac, 0x5bd4_b01b, 0x5697_96c2, 0x5256_8b75,
    0x6a19_36c8, 0x6ed8_2b7f, 0x639b_0da6, 0x675a_1011, 0x791d_4014, 0x7ddc_5da3, 0x709f_7b7a, 0x745e_66cd]

  const ROW_2: seq<int> := [
    0x9823_b6e0, 0x9ce2_ab57, 0x91a1_8d8e, 0x9560_9039, 0x8b27_c03c, 0x8fe6_dd8b, 0x82a5_fb52, 0x8664_e6e5,
    0xbe2b_5b58, 0xbaea_46ef, 0xb7a9_6036, 0xb368_7d81, 0xad2f_2d84, 0xa9ee_3033, 0xa4ad_16ea, 0xa06c_0b5d]

  const ROW_3: seq<int> := [
    0xd432_6d90, 0xd0f3_7027, 0xddb0_56fe, 0xd971_4b49, 0xc736_1b4c, 0xc3f7_06fb, 0xceb4_2022, 0xca75_3d95,
    0xf23a_8028, 0xf6fb_9d9f, 0xfbb8_bb46, 0xff79_a6f1, 0xe13e_f6f4, 0xe5ff_eb43, 0xe8bc_cd9a, 0xec7d_d02d]

  const ROW_4: seq<int> := [
    0x3486_7077, 0x3047_6dc0, 0x3d04_4b19, 0x39c5_56ae, 0x2782_06ab, 0x2343_1b1c, 0x2e00_3dc5, 0x2ac1_2072,
    0x128e_9dcf, 0x164f_8078, 0x1b0c_a6a1, 0x1fcd_bb16, 0x018a_eb13, 0x054b_f6a4, 0x0808_d07d, 0x0cc9_cdca]

  const ROW_5: seq<int> := [
    0x7897_ab07, 0x7c56_b6b0, 0x7115_9069, 0x75d4_8dde, 0x6b93_dddb, 0x6f52_c06c, 0x6211_e6b5, 0x66d0_fb02,
    0x5e9f_46bf, 0x5a5e_5b08, 0x571d_7dd1, 0x53dc_6066, 0x4d9b_3063, 0x495a_2dd4, 0x4419_0b0d, 0x40d8_16ba]

  const ROW_6: seq<int> := [
    0xaca5_c697, 0xa864_db20, 0xa527_fdf9, 0xa1e6_e04e, 0xbfa1_b04b, 0xbb60_adfc, 0xb623_8b25, 0xb2e2_9692,
    0x8aad_2b2f, 0x8e6c_3698, 0x832f_1041, 0x87ee_0df6, 0x99a9_5df3, 0x9d68_4044, 0x902b_669d, 0x94ea_7b2a]

  const ROW_7: seq<int> := [
    0xe0b4_1de7, 0xe475_0050, 0xe936_2689, 0xedf7_3b3e, 0xf3b0_6b3b, 0xf771_768c, 0xfa32_5055, 0xfef3_4de2,
    0xc6bc_f05f, 0xc27d_ede8, 0xcf3e_cb31, 0xcbff_d686, 0xd5b8_8683, 0xd179_9b34, 0xdc3a_bded, 0xd8fb_a05a]

  const ROW_8: seq<int> := [
    0x690c_e0ee, 0x6dcd_fd59, 0x608e_db80, 0x644f_c637, 0x7a08_9632, 0x7ec9_8b85, 0x738a_ad5c, 0x774b_b0eb,
    0x4f04_0d56, 0x4bc5_10e1, 0x4686_3638, 0x4247_2b8f, 0x5c00_7b8a, 0x58c1_663d, 0x5582_40e4, 0x5143_5d53]

  const ROW_9: seq<int> := [
    0x251d_3b9e, 0x21dc_2629, 0x2c9f_00f0, 0x285e_1d47, 0x3619_4d42, 0x32d8_50f5, 0x3f9b_762c, 0x3b5a_6b9b,
    0x0315_d626, 0x07d4_cb91, 0x0a97_ed48, 0x0e56_f0ff, 0x1011_a0fa, 0x14d0_bd4d, 0x1993_9b94, 0x1d52_8623]

  const ROW_10: seq<int> := [
    0xf12f_560e, 0xf5ee_4bb9, 0xf8ad_6d60, 0xfc6c_70d7, 0xe22b_20d2, 0xe6ea_3d65, 0xeba9_1bbc, 0xef68_060b,
    0xd727_bbb6, 0xd3e6_a601, 0xdea5_80d8, 0xda64_9d6f, 0xc423_cd6a, 0xc0e2_d0dd, 0xcda1_f604, 0xc960_ebb3]

  const ROW_11: seq<int> := [
    0xbd3e_8d7e, 0xb9ff_90c9, 0xb4bc_b610, 0xb07d_aba7, 0xae3a_fba2, 0xaafb_e615, 0xa7b8_c0cc, 0xa379_dd7b,
    0x9b36_60c6, 0x9ff7_7d71, 0x92b4_5ba8, 0x9675_461f, 0x8832_161a, 0x8cf3_0bad, 0x81b0_2d74, 0x8571_30c3]

  const ROW_12: seq<int> := [
    0x5d8a_9099, 0x594b_8d2e, 0x5408_abf7, 0x50c9_b640, 0x4e8e_e645, 0x4a4f_fbf2, 0x470c_dd2b, 0x43cd_c09c,
    0x7b82_7d21, 0x7f43_6096, 0x7200_464f, 0x76c1_5bf8, 0x6886_0bfd, 0x6c47_164a, 0x6104_3093, 0x65c5_2d24]

  const ROW_13: seq<int> := [
    0x119b_4be9, 0x155a_565e, 0x1819_7087, 0x1cd8_6d30, 0x029f_3d35, 0x065e_2082, 0x0b1d_065b, 0x0fdc_1bec,
    0x3793_a651, 0x3352_bbe6, 0x3e11_9d3f, 0x3ad0_8088, 0x2497_d08d, 0x2056_cd3a, 0x2d15_ebe3, 0x29d4_f654]

  const ROW_14: seq<int> := [
    0xc5a9_2679, 0xc168_3bce, 0xcc2b_1d17, 0xc8ea_00a0, 0xd6ad_50a5, 0xd26c_4d12, 0xdf2f_6bcb, 0xdbee_767c,
    0xe3a1_cbc1, 0xe760_d676, 0xea23_f0af, 0xeee2_ed18, 0xf0a5_bd1d, 0xf464_a0aa, 0xf927_8673, 0xfde6_9bc4]

  const ROW_15: seq<int> := [
    0x89b8_fd09, 0x8d79_e0be, 0x803a_c667, 0x84fb_dbd0, 0x9abc_8bd5, 0x9e7d_9662, 0x933e_b0bb, 0x97ff_ad0c,
    0xafb0_10b1, 0xab71_0d06, 0xa632_2bdf, 0xa2f3_3668, 0xbcb4_666d, 0xb875_7bda, 0xb536_5d03, 0xb1f7_40b4]

  /** Eight entries and the sixteen that are linked to them. */
  ghost predicate RowLinked(t: seq<int>, i: nat, r: seq<int>)
    requires i + 8 <= |t| && |r| == 16
  {
    && Linked(t[i], r[0], r[1]) && Linked(t[i + 1], r[2], r[3])
    && Linked(t[i + 2], r[4], r[5]) && Linked(t[i + 3], r[6], r[7])
    && Linked(t[i + 4], r[8], r[9]) && Linked(t[i + 5], r[10], r[11])
    && Linked(t[i + 6], r[12], r[13]) && Linked(t[i + 7], r[14], r[15])
  }

  lemma Links0()
    ensures Linked(0x0000_0000, 0x0000_0000, 0x04c1_1db7)
    ensures Linked(0x04c1_1db7, 0x0982_3b6e, 0x0d43_26d9)
    ensures Linked(0x0982_3b6e, 0x1304_76dc, 0x17c5_6b6b)
    ensures Linked(0x0d43_26d9, 0x1a86_4db2, 0x1e47_5005)
    ensures Linked(0x1304_76dc, 0x2608_edb8, 0x22c9_f00f)
    ensures Linked(0x17c5_6b6b, 0x2f8a_d6d6, 0x2b4b_cb61)
    ensures Linked(0x1a86_4db2, 0x350c_9b64, 0x31cd_86d3)
    ensures Linked(0x1e47_5005, 0x3c8e_a00a, 0x384f_bdbd)
  {
    hide Linked;
    LinkZero();
    Link(0x04c1_1db7, 0x0982_3b6e, 0x0d43_26d9, 0x0, 0x9, 0x8, 0x2, 0x3, 0xb, 0x6, 0xe);
    Link(0x0982_3b6e, 0x1304_76dc, 0x17c5_6b6b, 0x1, 0x3, 0x0, 0x4, 0x7, 0x6, 0xd, 0xc);
    Link(0x0d43_26d9, 0x1a86_4db2, 0x1e47_5005, 0x1, 0xa, 0x8, 0x6, 0x4, 0xd, 0xb, 0x2);
    Link(0x1304_76dc, 0x2608_edb8, 0x22c9_f00f, 0x2, 0x6, 0x0, 0x8, 0xe, 0xd, 0xb, 0x8);
    Link(0x17c5_6b6b, 0x2f8a_d6d6, 0x2b4b_cb61, 0x2, 0xf, 0x8, 0xa, 0xd, 0x6, 0xd, 0x6);
    Link(0x1a86_4db2, 0x350c_9b64, 0x31cd_86d3, 0x3, 0x5, 0x0, 0xc, 0x9, 0xb, 0x6, 0x4);
    Link(0x1e47_5005, 0x3c8e_a00a, 0x384f_bdbd, 0x3, 0xc, 0x8, 0xe, 0xa, 0x0, 0x0, 0xa);
  }

  lemma Row0Linked()
    ensures RowLinked(ROW_0, 0, ROW_0)
  {
    hide Linked;
    Links0();
  }

  lemma Links1()
    ensures Linked(0x2608_edb8, 0x4c11_db70, 0x48d0_c6c7)
    ensures Linked(0x22c9_f00f, 0x4593_e01e, 0x4152_fda9)
    ensures Linked(0x2f8a_d6d6, 0x5f15_adac, 0x5bd4_b01b)
    ensures Linked(0x2b4b_cb61, 0x5697_96c2, 0x5256_8b75)
    ensures Linked(0x350c_9b64, 0x6a19_36c8, 0x6ed8_2b7f)
    ensures Linked(0x31cd_86d3, 0x639b_0da6, 0x675a_1011)
    ensures Linked(0x3c8e_a00a, 0x791d_4014, 0x7ddc_5da3)
    ensures Linked(0x384f_bdbd, 0x709f_7b7a, 0x745e_66cd)
  {
    hide Linked;
    Link(0x2608_edb8, 0x4c11_db70, 0x48d0_c6c7, 0x4, 0xc, 0x1, 0x1, 0xd, 0xb, 0x7, 0x0);
    Link(0x22c9_f00f, 0x4593_e01e, 0x4152_fda9, 0x4, 0x5, 0x9, 0x3, 0xe, 0x0, 0x1, 0xe);
    Link(0x2f8a_d6d6, 0x5f15_adac, 0x5bd4_b01b, 0x5, 0xf, 0x1, 0x5, 0xa, 0xd, 0xa, 0xc);
    Link(0x2b4b_cb61, 0x5697_96c2, 0x5256_8b75, 0x5, 0x6, 0x9, 0x7, 0x9, 0x6, 0xc, 0x2);
    Link(0x350c_9b64, 0x6a19_36c8, 0x6ed8_2b7f, 0x6, 0xa, 0x1, 0x9, 0x3, 0x6, 0xc, 0x8);
    Link(0x31cd_86d3, 0x639b_0da6, 0x675a_1011, 0x6, 0x3, 0x9, 0xb, 0x0, 0xd, 0xa, 0x6);
    Link(0x3c8e_a00a, 0x791d_4014, 0x7ddc_5da3, 0x7, 0x9, 0x1, 0xd, 0x4, 0x0, 0x1, 0x4);
    Link(0x384f_bdbd, 0x709f_7b7a, 0x745e_66cd, 0x7, 0x0, 0x9, 0xf, 0x7, 0xb, 0x7, 0xa);
  }

  lemma Row1Linked()
    ensures RowLinked(ROW_0, 8, ROW_1)
  {
    hide Linked;
    Links1();
  }

  lemma Links2()
    ensures Linked(0x4c11_db70, 0x9823_b6e0, 0x9ce2_ab57)
    ensures Linked(0x48d0_c6c7, 0x91a1_8d8e, 0x9560_9039)
    ensures Linked(0x4593_e01e, 0x8b27_c03c, 0x8fe6_dd8b)
    ensures Linked(0x4152_fda9, 0x82a5_fb52, 0x8664_e6e5)
    ensures Linked(0x5f15_adac, 0xbe2b_5b58, 0xbaea_46ef)
    ensures Linked(0x5bd4_b01b, 0xb7a9_6036, 0xb368_7d81)
    ensures Linked(0x5697_96c2, 0xad2f_2d84, 0xa9ee_3033)
    ensures Linked(0x5256_8b75, 0xa4ad_16ea, 0xa06c_0b5d)
  {
    hide Linked;
    Link(0x4c11_db70, 0x9823_b6e0, 0x9ce2_ab57, 0x9, 0x8, 0x2, 0x3, 0xb, 0x6, 0xe, 0x0);
    Link(0x48d0_c6c7, 0x91a1_8d8e, 0x9560_9039, 0x9, 0x1, 0xa, 0x1, 0x8, 0xd, 0x8, 0xe);
    Link(0x4593_e01e, 0x8b27_c03c, 0x8fe6_dd8b, 0x8, 0xb, 0x2, 0x7, 0xc, 0x0, 0x3, 0xc);
    Link(0x4152_fda9, 0x82a5_fb52, 0x8664_e6e5, 0x8, 0x2, 0xa, 0x5, 0xf, 0xb, 0x5, 0x2);
    Link(0x5f15_adac, 0xbe2b_5b58, 0xbaea_46ef, 0xb, 0xe, 0x2, 0xb, 0x5, 0xb, 0x5, 0x8);
    Link(0x5bd4_b01b, 0xb7a9_6036, 0xb368_7d81, 0xb, 0x7, 0xa, 0x9, 0x6, 0x0, 0x3, 0x6);
    Link(0x5697_96c2, 0xad2f_2d84, 0xa9ee_3033, 0xa, 0xd, 0x2, 0xf, 0x2, 0xd, 0x8, 0x4);
    Link(0x5256_8b75, 0xa4ad_16ea, 0xa06c_0b5d, 0xa, 0x4, 0xa, 0xd, 0x1, 0x6, 0xe, 0xa);
  }

  lemma Row2Linked()
    ensures RowLinked(ROW_1, 0, ROW_2)
  {
    hide Linked;
    Links2();
  }

  lemma Links3()
    ensures Linked(0x6a19_36c8, 0xd432_6d90, 0xd0f3_7027)
    ensures Linked(0x6ed8_2b7f, 0xddb0_56fe, 0xd971_4b49)
    ensures Linked(0x639b_0da6, 0xc736_1b4c, 0xc3f7_06fb)
    ensures Linked(0x675a_1011, 0xceb4_2022, 0xca75_3d95)
    ensures Linked(0x791d_4014, 0xf23a_8028, 0xf6fb_9d9f)
    ensures Linked(0x7ddc_5da3, 0xfbb8_bb46, 0xff79_a6f1)
    ensures Linked(0x709f_7b7a, 0xe13e_f6f4, 0xe5ff_eb43)
    ensures Linked(0x745e_66cd, 0xe8bc_cd9a, 0xec7d_d02d)
  {
    hide Linked;
    Link(0x6a19_36c8, 0xd432_6d90, 0xd0f3_7027, 0xd, 0x4, 0x3, 0x2, 0x6, 0xd, 0x9, 0x0);
    Link(0x6ed8_2b7f, 0xddb0_56fe, 0xd971_4b49, 0xd, 0xd, 0xb, 0x0, 0x5, 0x6, 0xf, 0xe);
    Link(0x639b_0da6, 0xc736_1b4c, 0xc3f7_06fb, 0xc, 0x7, 0x3, 0x6, 0x1, 0xb, 0x4, 0xc);
    Link(0x675a_1011, 0xceb4_2022, 0xca75_3d95, 0xc, 0xe, 0xb, 0x4, 0x2, 0x0, 0x2, 0x2);
    Link(0x791d_4014, 0xf23a_8028, 0xf6fb_9d9f, 0xf, 0x2, 0x3, 0xa, 0x8, 0x0, 0x2, 0x8);
    Link(0x7ddc_5da3, 0xfbb8_bb46, 0xff79_a6f1, 0xf, 0xb, 0xb, 0x8, 0xb, 0xb, 0x4, 0x6);
    Link(0x709f_7b7a, 0xe13e_f6f4, 0xe5ff_eb43, 0xe, 0x1, 0x3, 0xe, 0xf, 0x6, 0xf, 0x4);
    Link(0x745e_66cd, 0xe8bc_cd9a, 0xec7d_d02d, 0xe, 0x8, 0xb, 0xc, 0xc, 0xd, 0x9, 0xa);
  }

  lemma Row3Linked()
    ensures RowLinked(ROW_1, 8, ROW_3)
  {
    hide Linked;
    Links3();
  }

  lemma Links4()
    ensures Linked(0x9823_b6e0, 0x3486_7077, 0x3047_6dc0)
    ensures Linked(0x9ce2_ab57, 0x3d04_4b19, 0x39c5_56ae)
    ensures Linked(0x91a1_8d8e, 0x2782_06ab, 0x2343_1b1c)
    ensures Linked(0x9560_9039, 0x2e00_3dc5, 0x2ac1_2072)
    ensures Linked(0x8b27_c03c, 0x128e_9dcf, 0x164f_8078)
    ensures Linked(0x8fe6_dd8b, 0x1b0c_a6a1, 0x1fcd_bb16)
    ensures Linked(0x82a5_fb52, 0x018a_eb13, 0x054b_f6a4)
    ensures Linked(0x8664_e6e5, 0x0808_d07d, 0x0cc9_cdca)
  {
    hide Linked;
    Link(0x9823_b6e0, 0x3486_7077, 0x3047_6dc0, 0x3, 0x0, 0x4, 0x7, 0x6, 0xd, 0xc, 0x0);
    Link(0x9ce2_ab57, 0x3d04_4b19, 0x39c5_56ae, 0x3, 0x9, 0xc, 0x5, 0x5, 0x6, 0xa, 0xe);
    Link(0x91a1_8d8e, 0x2782_06ab, 0x2343_1b1c, 0x2, 0x3, 0x4, 0x3, 0x1, 0xb, 0x1, 0xc);
    Link(0x9560_9039, 0x2e00_3dc5, 0x2ac1_2072, 0x2, 0xa, 0xc, 0x1, 0x2, 0x0, 0x7, 0x2);
    Link(0x8b27_c03c, 0x128e_9dcf, 0x164f_8078, 0x1, 0x6, 0x4, 0xf, 0x8, 0x0, 0x7, 0x8);
    Link(0x8fe6_dd8b, 0x1b0c_a6a1, 0x1fcd_bb16, 0x1, 0xf, 0xc, 0xd, 0xb, 0xb, 0x1, 0x6);
    Link(0x82a5_fb52, 0x018a_eb13, 0x054b_f6a4, 0x0, 0x5, 0x4, 0xb, 0xf, 0x6, 0xa, 0x4);
    Link(0x8664_e6e5, 0x0808_d07d, 0x0cc9_cdca, 0x0, 0xc, 0xc, 0x9, 0xc, 0xd, 0xc, 0xa);
  }

  lemma Row4Linked()
    ensures RowLinked(ROW_2, 0, ROW_4)
  {
    hide Linked;
    Links4();
  }

  lemma Links5()
    ensures Linked(0xbe2b_5b58, 0x7897_ab07, 0x7c56_b6b0)
    ensures Linked(0xbaea_46ef, 0x7115_9069, 0x75d4_8dde)
    ensures Linked(0xb7a9_6036, 0x6b93_dddb, 0x6f52_c06c)
    ensures Linked(0xb368_7d81, 0x6211_e6b5, 0x66d0_fb02)
    ensures Linked(0xad2f_2d84, 0x5e9f_46bf, 0x5a5e_5b08)
    ensures Linked(0xa9ee_3033, 0x571d_7dd1, 0x53dc_6066)
    ensures Linked(0xa4ad_16ea, 0x4d9b_3063, 0x495a_2dd4)
    ensures Linked(0xa06c_0b5d, 0x4419_0b0d, 0x40d8_16ba)
  {
    hide Linked;
    Link(0xbe2b_5b58, 0x7897_ab07, 0x7c56_b6b0, 0x7, 0xc, 0x5, 0x6, 0xb, 0x6, 0xb, 0x0);
    Link(0xbaea_46ef, 0x7115_9069, 0x75d4_8dde, 0x7, 0x5, 0xd, 0x4, 0x8, 0xd, 0xd, 0xe);
    Link(0xb7a9_6036, 0x6b93_dddb, 0x6f52_c06c, 0x6, 0xf, 0x5, 0x2, 0xc, 0x0, 0x6, 0xc);
    Link(0xb368_7d81, 0x6211_e6b5, 0x66d0_fb02, 0x6, 0x6, 0xd, 0x0, 0xf, 0xb, 0x0, 0x2);
    Link(0xad2f_2d84, 0x5e9f_46bf, 0x5a5e_5b08, 0x5, 0xa, 0x5, 0xe, 0x5, 0xb, 0x0, 0x8);
    Link(0xa9ee_3033, 0x571d_7dd1, 0x53dc_6066, 0x5, 0x3, 0xd, 0xc, 0x6, 0x0, 0x6, 0x6);
    Link(0xa4ad_16ea, 0x4d9b_3063, 0x495a_2dd4, 0x4, 0x9, 0x5, 0xa, 0x2, 0xd, 0xd, 0x4);
    Link(0xa06c_0b5d, 0x4419_0b0d, 0x40d8_16ba, 0x4, 0x0, 0xd, 0x8, 0x1, 0x6, 0xb, 0xa);
  }

  lemma Row5Linked()
    ensures RowLinked(ROW_2, 8, ROW_5)
  {
    hide Linked;
    Links5();
  }

  lemma Links6()
    ensures Linked(0xd432_6d90, 0xaca5_c697, 0xa864_db20)
    ensures Linked(0xd0f3_7027, 0xa527_fdf9, 0xa1e6_e04e)
    ensures Linked(0xddb0_56fe, 0xbfa1_b04b, 0xbb60_adfc)
    ensures Linked(0xd971_4b49, 0xb623_8b25, 0xb2e2_9692)
    ensures Linked(0xc736_1b4c, 0x8aad_2b2f, 0x8e6c_3698)
    ensures Linked(0xc3f7_06fb, 0x832f_1041, 0x87ee_0df6)
    ensures Linked(0xceb4_2022, 0x99a9_5df3, 0x9d68_4044)
    ensures Linked(0xca75_3d95, 0x902b_669d, 0x94ea_7b2a)
  {
    hide Linked;
    Link(0xd432_6d90, 0xaca5_c697, 0xa864_db20, 0xa, 0x8, 0x6, 0x4, 0xd, 0xb, 0x2, 0x0);
    Link(0xd0f3_7027, 0xa527_fdf9, 0xa1e6_e04e, 0xa, 0x1, 0xe, 0x6, 0xe, 0x0, 0x4, 0xe);
    Link(0xddb0_56fe, 0xbfa1_b04b, 0xbb60_adfc, 0xb, 0xb, 0x6, 0x0, 0xa, 0xd, 0xf, 0xc);
    Link(0xd971_4b49, 0xb623_8b25, 0xb2e2_9692, 0xb, 0x2, 0xe, 0x2, 0x9, 0x6, 0x9, 0x2);
    Link(0xc736_1b4c, 0x8aad_2b2f, 0x8e6c_3698, 0x8, 0xe, 0x6, 0xc, 0x3, 0x6, 0x9, 0x8);
    Link(0xc3f7_06fb, 0x832f_1041, 0x87ee_0df6, 0x8, 0x7, 0xe, 0xe, 0x0, 0xd, 0xf, 0x6);
    Link(0xceb4_2022, 0x99a9_5df3, 0x9d68_4044, 0x9, 0xd, 0x6, 0x8, 0x4, 0x0, 0x4, 0x4);
    Link(0xca75_3d95, 0x902b_669d, 0x94ea_7b2a, 0x9, 0x4, 0xe, 0xa, 0x7, 0xb, 0x2, 0xa);
  }

  lemma Row6Linked()
    ensures RowLinked(ROW_3, 0, ROW_6)
  {
    hide Linked;
    Links6();
  }

  lemma Links7()
    ensures Linked(0xf23a_8028, 0xe0b4_1de7, 0xe475_0050)
    ensures Linked(0xf6fb_9d9f, 0xe936_2689, 0xedf7_3b3e)
    ensures Linked(0xfbb8_bb46, 0xf3b0_6b3b, 0xf771_768c)
    ensures Linked(0xff79_a6f1, 0xfa32_5055, 0xfef3_4de2)
    ensures Linked(0xe13e_f6f4, 0xc6bc_f05f, 0xc27d_ede8)
    ensures Linked(0xe5ff_eb43, 0xcf3e_cb31, 0xcbff_d686)
    ensures Linked(0xe8bc_cd9a, 0xd5b8_8683, 0xd179_9b34)
    ensures Linked(0xec7d_d02d, 0xdc3a_bded, 0xd8fb_a05a)
  {
    hide Linked;
    Link(0xf23a_8028, 0xe0b4_1de7, 0xe475_0050, 0xe, 0x4, 0x7, 0x5, 0x0, 0x0, 0x5, 0x0);
    Link(0xf6fb_9d9f, 0xe936_2689, 0xedf7_3b3e, 0xe, 0xd, 0xf, 0x7, 0x3, 0xb, 0x3, 0xe);
    Link(0xfbb8_bb46, 0xf3b0_6b3b, 0xf771_768c, 0xf, 0x7, 0x7, 0x1, 0x7, 0x6, 0x8, 0xc);
    Link(0xff79_a6f1, 0xfa32_5055, 0xfef3_4de2, 0xf, 0xe, 0xf, 0x3, 0x4, 0xd, 0xe, 0x2);
    Link(0xe13e_f6f4, 0xc6bc_f05f, 0xc27d_ede8, 0xc, 0x2, 0x7, 0xd, 0xe, 0xd, 0xe, 0x8);
    Link(0xe5ff_eb43, 0xcf3e_cb31, 0xcbff_d686, 0xc, 0xb, 0xf, 0xf, 0xd, 0x6, 0x8, 0x6);
    Link(0xe8bc_cd9a, 0xd5b8_8683, 0xd179_9b34, 0xd, 0x1, 0x7, 0x9, 0x9, 0xb, 0x3, 0x4);
    Link(0xec7d_d02d, 0xdc3a_bded, 0xd8fb_a05a, 0xd, 0x8, 0xf, 0xb, 0xa, 0x0, 0x5, 0xa);
  }

  lemma Row7Linked()
    ensures RowLinked(ROW_3, 8, ROW_7)
  {
    hide Linked;
    Links7();
  }

  lemma Links8()
    ensures Linked(0x3486_7077, 0x690c_e0ee, 0x6dcd_fd59)
    ensures Linked(0x3047_6dc0, 0x608e_db80, 0x644f_c637)
    ensures Linked(0x3d04_4b19, 0x7a08_9632, 0x7ec9_8b85)
    ensures Linked(0x39c5_56ae, 0x738a_ad5c, 0x774b_b0eb)
    ensures Linked(0x2782_06ab, 0x4f04_0d56, 0x4bc5_10e1)
    ensures Linked(0x2343_1b1c, 0x4686_3638, 0x4247_2b8f)
    ensures Linked(0x2e00_3dc5, 0x5c00_7b8a, 0x58c1_663d)
    ensures Linked(0x2ac1_2072, 0x5582_40e4, 0x5143_5d53)
  {
    hide Linked;
    Link(0x3486_7077, 0x690c_e0ee, 0x6dcd_fd59, 0x6, 0x9, 0x0, 0xc, 0xe, 0x0, 0xe, 0xe);
    Link(0x3047_6dc0, 0x608e_db80, 0x644f_c637, 0x6, 0x0, 0x8, 0xe, 0xd, 0xb, 0x8, 0x0);
    Link(0x3d04_4b19, 0x7a08_9632, 0x7ec9_8b85, 0x7, 0xa, 0x0, 0x8, 0x9, 0x6, 0x3, 0x2);
    Link(0x39c5_56ae, 0x738a_ad5c, 0x774b_b0eb, 0x7, 0x3, 0x8, 0xa, 0xa, 0xd, 0x5, 0xc);
    Link(0x2782_06ab, 0x4f04_0d56, 0x4bc5_10e1, 0x4, 0xf, 0x0, 0x4, 0x0, 0xd, 0x5, 0x6);
    Link(0x2343_1b1c, 0x4686_3638, 0x4247_2b8f, 0x4, 0x6, 0x8, 0x6, 0x3, 0x6, 0x3, 0x8);
    Link(0x2e00_3dc5, 0x5c00_7b8a, 0x58c1_663d, 0x5, 0xc, 0x0, 0x0, 0x7, 0xb, 0x8, 0xa);
    Link(0x2ac1_2072, 0x5582_40e4, 0x5143_5d53, 0x5, 0x5, 0x8, 0x2, 0x4, 0x0, 0xe, 0x4);
  }

  lemma Row8Linked()
    ensures RowLinked(ROW_4, 0, ROW_8)
  {
    hide Linked;
    Links8();
  }

  lemma Links9()
    ensures Linked(0x128e_9dcf, 0x251d_3b9e, 0x21dc_2629)
    ensures Linked(0x164f_8078, 0x2c9f_00f0, 0x285e_1d47)
    ensures Linked(0x1b0c_a6a1, 0x3619_4d42, 0x32d8_50f5)
    ensures Linked(0x1fcd_bb16, 0x3f9b_762c, 0x3b5a_6b9b)
    ensures Linked(0x018a_eb13, 0x0315_d626, 0x07d4_cb91)
    ensures Linked(0x054b_f6a4, 0x0a97_ed48, 0x0e56_f0ff)
    ensures Linked(0x0808_d07d, 0x1011_a0fa, 0x14d0_bd4d)
    ensures Linked(0x0cc9_cdca, 0x1993_9b94, 0x1d52_8623)
  {
    hide Linked;
    Link(0x128e_9dcf, 0x251d_3b9e, 0x21dc_2629, 0x2, 0x5, 0x1, 0xd, 0x3, 0xb, 0x9, 0xe);
    Link(0x164f_8078, 0x2c9f_00f0, 0x285e_1d47, 0x2, 0xc, 0x9, 0xf, 0x0, 0x0, 0xf, 0x0);
    Link(0x1b0c_a6a1, 0x3619_4d42, 0x32d8_50f5, 0x3, 0x6, 0x1, 0x9, 0x4, 0xd, 0x4, 0x2);
    Link(0x1fcd_bb16, 0x3f9b_762c, 0x3b5a_6b9b, 0x3, 0xf, 0x9, 0xb, 0x7, 0x6, 0x2, 0xc);
    Link(0x018a_eb13, 0x0315_d626, 0x07d4_cb91, 0x0, 0x3, 0x1, 0x5, 0xd, 0x6, 0x2, 0x6);
    Link(0x054b_f6a4, 0x0a97_ed48, 0x0e56_f0ff, 0x0, 0xa, 0x9, 0x7, 0xe, 0xd, 0x4, 0x8);
    Link(0x0808_d07d, 0x1011_a0fa, 0x14d0_bd4d, 0x1, 0x0, 0x1, 0x1, 0xa, 0x0, 0xf, 0xa);
    Link(0x0cc9_cdca, 0x1993_9b94, 0x1d52_8623, 0x1, 0x9, 0x9, 0x3, 0x9, 0xb, 0x9, 0x4);
  }

  lemma Row9Linked()
    ensures RowLinked(ROW_4, 8, ROW_9)
  {
    hide Linked;
    Links9();
  }

  lemma Links10()
    ensures Linked(0x7897_ab07, 0xf12f_560e, 0xf5ee_4bb9)
    ensures Linked(0x7c56_b6b0, 0xf8ad_6d60, 0xfc6c_70d7)
    ensures Linked(0x7115_9069, 0xe22b_20d2, 0xe6ea_3d65)
    ensures Linked(0x75d4_8dde, 0xeba9_1bbc, 0xef68_060b)
    ensures Linked(0x6b93_dddb, 0xd727_bbb6, 0xd3e6_a601)
    ensures Linked(0x6f52_c06c, 0xdea5_80d8, 0xda64_9d6f)
    ensures Linked(0x6211_e6b5, 0xc423_cd6a, 0xc0e2_d0dd)
    ensures Linked(0x66d0_fb02, 0xcda1_f604, 0xc960_ebb3)
  {
    hide Linked;
    Link(0x7897_ab07, 0xf12f_560e, 0xf5ee_4bb9, 0xf, 0x1, 0x2, 0xf, 0x5, 0x6, 0x0, 0xe);
    Link(0x7c56_b6b0, 0xf8ad_6d60, 0xfc6c_70d7, 0xf, 0x8, 0xa, 0xd, 0x6, 0xd, 0x6, 0x0);
    Link(0x7115_9069, 0xe22b_20d2, 0xe6ea_3d65, 0xe, 0x2, 0x2, 0xb, 0x2, 0x0, 0xd, 0x2);
    Link(0x75d4_8dde, 0xeba9_1bbc, 0xef68_060b, 0xe, 0xb, 0xa, 0x9, 0x1, 0xb, 0xb, 0xc);
    Link(0x6b93_dddb, 0xd727_bbb6, 0xd3e6_a601, 0xd, 0x7, 0x2, 0x7, 0xb, 0xb, 0xb, 0x6);
    Link(0x6f52_c06c, 0xdea5_80d8, 0xda64_9d6f, 0xd, 0xe, 0xa, 0x5, 0x8, 0x0, 0xd, 0x8);
    Link(0x6211_e6b5, 0xc423_cd6a, 0xc0e2_d0dd, 0xc, 0x4, 0x2, 0x3, 0xc, 0xd, 0x6, 0xa);
    Link(0x66d0_fb02, 0xcda1_f604, 0xc960_ebb3, 0xc, 0xd, 0xa, 0x1, 0xf, 0x6, 0x0, 0x4);
  }

  lemma Row10Linked()
    ensures RowLinked(ROW_5, 0, ROW_10)
  {
    hide Linked;
    Links10();
  }

  lemma Links11()
    ensures Linked(0x5e9f_46bf, 0xbd3e_8d7e, 0xb9ff_90c9)
    ensures Linked(0x5a5e_5b08, 0xb4bc_b610, 0xb07d_aba7)
    ensures Linked(0x571d_7dd1, 0xae3a_fba2, 0xaafb_e615)
    ensures Linked(0x53dc_6066, 0xa7b8_c0cc, 0xa379_dd7b)
    ensures Linked(0x4d9b_3063, 0x9b36_60c6, 0x9ff7_7d71)
    ensures Linked(0x495a_2dd4, 0x92b4_5ba8, 0x9675_461f)
    ensures Linked(0x4419_0b0d, 0x8832_161a, 0x8cf3_0bad)
    ensures Linked(0x40d8_16ba, 0x81b0_2d74, 0x8571_30c3)
  {
    hide Linked;
    Link(0x5e9f_46bf, 0xbd3e_8d7e, 0xb9ff_90c9, 0xb, 0xd, 0x3, 0xe, 0x8, 0xd, 0x7, 0xe);
    Link(0x5a5e_5b08, 0xb4bc_b610, 0xb07d_aba7, 0xb, 0x4, 0xb, 0xc, 0xb, 0x6, 0x1, 0x0);
    Link(0x571d_7dd1, 0xae3a_fba2, 0xaafb_e615, 0xa, 0xe, 0x3, 0xa, 0xf, 0xb, 0xa, 0x2);
    Link(0x53dc_6066, 0xa7b8_c0cc, 0xa379_dd7b, 0xa, 0x7, 0xb, 0x8, 0xc, 0x0, 0xc, 0xc);
    Link(0x4d9b_3063, 0x9b36_60c6, 0x9ff7_7d71, 0x9, 0xb, 0x3, 0x6, 0x6, 0x0, 0xc, 0x6);
    Link(0x495a_2dd4, 0x92b4_5ba8, 0x9675_461f, 0x9, 0x2, 0xb, 0x4, 0x5, 0xb, 0xa, 0x8);
    Link(0x4419_0b0d, 0x8832_161a, 0x8cf3_0bad, 0x8, 0x8, 0x3, 0x2, 0x1, 0x6, 0x1, 0xa);
    Link(0x40d8_16ba, 0x81b0_2d74, 0x8571_30c3, 0x8, 0x1, 0xb, 0x0, 0x2, 0xd, 0x7, 0x4);
  }

  lemma Row11Linked()
    ensures RowLinked(ROW_5, 8, ROW_11)
  {
    hide Linked;
    Links11();
  }

  lemma Links12()
    ensures Linked(0xaca5_c697, 0x5d8a_9099, 0x594b_8d2e)
    ensures Linked(0xa864_db20, 0x5408_abf7, 0x50c9_b640)
    ensures Linked(0xa527_fdf9, 0x4e8e_e645, 0x4a4f_fbf2)
    ensures Linked(0xa1e6_e04e, 0x470c_dd2b, 0x43cd_c09c)
    ensures Linked(0xbfa1_b04b, 0x7b82_7d21, 0x7f43_6096)
    ensures Linked(0xbb60_adfc, 0x7200_464f, 0x76c1_5bf8)
    ensures Linked(0xb623_8b25, 0x6886_0bfd, 0x6c47_164a)
    ensures Linked(0xb2e2_9692, 0x6104_3093, 0x65c5_2d24)
  {
    hide Linked;
    Link(0xaca5_c697, 0x5d8a_9099, 0x594b_8d2e, 0x5, 0x9, 0x4, 0xb, 0x8, 0xd, 0x2, 0xe);
    Link(0xa864_db20, 0x5408_abf7, 0x50c9_b640, 0x5, 0x0, 0xc, 0x9, 0xb, 0x6, 0x4, 0x0);
    Link(0xa527_fdf9, 0x4e8e_e645, 0x4a4f_fbf2, 0x4, 0xa, 0x4, 0xf, 0xf, 0xb, 0xf, 0x2);
    Link(0xa1e6_e04e, 0x470c_dd2b, 0x43cd_c09c, 0x4, 0x3, 0xc, 0xd, 0xc, 0x0, 0x9, 0xc);
    Link(0xbfa1_b04b, 0x7b82_7d21, 0x7f43_6096, 0x7, 0xf, 0x4, 0x3, 0x6, 0x0, 0x9, 0x6);
    Link(0xbb60_adfc, 0x7200_464f, 0x76c1_5bf8, 0x7, 0x6, 0xc, 0x1, 0x5, 0xb, 0xf, 0x8);
    Link(0xb623_8b25, 0x6886_0bfd, 0x6c47_164a, 0x6, 0xc, 0x4, 0x7, 0x1, 0x6, 0x4, 0xa);
    Link(0xb2e2_9692, 0x6104_3093, 0x65c5_2d24, 0x6, 0x5, 0xc, 0x5, 0x2, 0xd, 0x2, 0x4);
  }

  lemma Row12Linked()
    ensures RowLinked(ROW_6, 0, ROW_12)
  {
    hide Linked;
    Links12();
  }

  lemma Links13()
    ensures Linked(0x8aad_2b2f, 0x119b_4be9, 0x155a_565e)
    ensures Linked(0x8e6c_3698, 0x1819_7087, 0x1cd8_6d30)
    ensures Linked(0x832f_1041, 0x029f_3d35, 0x065e_2082)
    ensures Linked(0x87ee_0df6, 0x0b1d_065b, 0x0fdc_1bec)
    ensures Linked(0x99a9_5df3, 0x3793_a651, 0x3352_bbe6)
    ensures Linked(0x9d68_4044, 0x3e11_9d3f, 0x3ad0_8088)
    ensures Linked(0x902b_669d, 0x2497_d08d, 0x2056_cd3a)
    ensures Linked(0x94ea_7b2a, 0x2d15_ebe3, 0x29d4_f654)
  {
    hide Linked;
    Link(0x8aad_2b2f, 0x119b_4be9, 0x155a_565e, 0x1, 0x5, 0x5, 0xa, 0x5, 0x6, 0x5, 0xe);
    Link(0x8e6c_3698, 0x1819_7087, 0x1cd8_6d30, 0x1, 0xc, 0xd, 0x8, 0x6, 0xd, 0x3, 0x0);
    Link(0x832f_1041, 0x029f_3d35, 0x065e_2082, 0x0, 0x6, 0x5, 0xe, 0x2, 0x0, 0x8, 0x2);
    Link(0x87ee_0df6, 0x0b1d_065b, 0x0fdc_1bec, 0x0, 0xf, 0xd, 0xc, 0x1, 0xb, 0xe, 0xc);
    Link(0x99a9_5df3, 0x3793_a651, 0x3352_bbe6, 0x3, 0x3, 0x5, 0x2, 0xb, 0xb, 0xe, 0x6);
    Link(0x9d68_4044, 0x3e11_9d3f, 0x3ad0_8088, 0x3, 0xa, 0xd, 0x0, 0x8, 0x0, 0x8, 0x8);
    Link(0x902b_669d, 0x2497_d08d, 0x2056_cd3a, 0x2, 0x0, 0x5, 0x6, 0xc, 0xd, 0x3, 0xa);
    Link(0x94ea_7b2a, 0x2d15_ebe3, 0x29d4_f654, 0x2, 0x9, 0xd, 0x4, 0xf, 0x6, 0x5, 0x4);
  }

  lemma Row13Linked()
    ensures RowLinked(ROW_6, 8, ROW_13)
  {
    hide Linked;
    Links13();
  }

  lemma Links14()
    ensures Linked(0xe0b4_1de7, 0xc5a9_2679, 0xc168_3bce)
    ensures Linked(0xe475_0050, 0xcc2b_1d17, 0xc8ea_00a0)
    ensures Linked(0xe936_2689, 0xd6ad_50a5, 0xd26c_4d12)
    ensures Linked(0xedf7_3b3e, 0xdf2f_6bcb, 0xdbee_767c)
    ensures Linked(0xf3b0_6b3b, 0xe3a1_cbc1, 0xe760_d676)
    ensures Linked(0xf771_768c, 0xea23_f0af, 0xeee2_ed18)
    ensures Linked(0xfa32_5055, 0xf0a5_bd1d, 0xf464_a0aa)
    ensures Linked(0xfef3_4de2, 0xf927_8673, 0xfde6_9bc4)
  {
    hide Linked;
    Link(0xe0b4_1de7, 0xc5a9_2679, 0xc168_3bce, 0xc, 0x1, 0x6, 0x8, 0x3, 0xb, 0xc, 0xe);
    Link(0xe475_0050, 0xcc2b_1d17, 0xc8ea_00a0, 0xc, 0x8, 0xe, 0xa, 0x0, 0x0, 0xa, 0x0);
    Link(0xe936_2689, 0xd6ad_50a5, 0xd26c_4d12, 0xd, 0x2, 0x6, 0xc, 0x4, 0xd, 0x1, 0x2);
    Link(0xedf7_3b3e, 0xdf2f_6bcb, 0xdbee_767c, 0xd, 0xb, 0xe, 0xe, 0x7, 0x6, 0x7, 0xc);
    Link(0xf3b0_6b3b, 0xe3a1_cbc1, 0xe760_d676, 0xe, 0x7, 0x6, 0x0, 0xd, 0x6, 0x7, 0x6);
    Link(0xf771_768c, 0xea23_f0af, 0xeee2_ed18, 0xe, 0xe, 0xe, 0x2, 0xe, 0xd, 0x1, 0x8);
    Link(0xfa32_5055, 0xf0a5_bd1d, 0xf464_a0aa, 0xf, 0x4, 0x6, 0x4, 0xa, 0x0, 0xa, 0xa);
    Link(0xfef3_4de2, 0xf927_8673, 0xfde6_9bc4, 0xf, 0xd, 0xe, 0x6, 0x9, 0xb, 0xc, 0x4);
  }

  lemma Row14Linked()
    ensures RowLinked(ROW_7, 0, ROW_14)
  {
    hide Linked;
    Links14();
  }

  lemma Links15()
    ensures Linked(0xc6bc_f05f, 0x89b8_fd09, 0x8d79_e0be)
    ensures Linked(0xc27d_ede8, 0x803a_c667, 0x84fb_dbd0)
    ensures Linked(0xcf3e_cb31, 0x9abc_8bd5, 0x9e7d_9662)
    ensures Linked(0xcbff_d686, 0x933e_b0bb, 0x97ff_ad0c)
    ensures Linked(0xd5b8_8683, 0xafb0_10b1, 0xab71_0d06)
    ensures Linked(0xd179_9b34, 0xa632_2bdf, 0xa2f3_3668)
    ensures Linked(0xdc3a_bded, 0xbcb4_666d, 0xb875_7bda)
    ensures Linked(0xd8fb_a05a, 0xb536_5d03, 0xb1f7_40b4)
  {
    hide Linked;
    Link(0xc6bc_f05f, 0x89b8_fd09, 0x8d79_e0be, 0x8, 0xd, 0x7, 0x9, 0xe, 0x0, 0xb, 0xe);
    Link(0xc27d_ede8, 0x803a_c667, 0x84fb_dbd0, 0x8, 0x4, 0xf, 0xb, 0xd, 0xb, 0xd, 0x0);
    Link(0xcf3e_cb31, 0x9abc_8bd5, 0x9e7d_9662, 0x9, 0xe, 0x7, 0xd, 0x9, 0x6, 0x6, 0x2);
    Link(0xcbff_d686, 0x933e_b0bb, 0x97ff_ad0c, 0x9, 0x7, 0xf, 0xf, 0xa, 0xd, 0x0, 0xc);
    Link(0xd5b8_8683, 0xafb0_10b1, 0xab71_0d06, 0xa, 0xb, 0x7, 0x1, 0x0, 0xd, 0x0, 0x6);
    Link(0xd179_9b34, 0xa632_2bdf, 0xa2f3_3668, 0xa, 0x2, 0xf, 0x3, 0x3, 0x6, 0x6, 0x8);
    Link(0xdc3a_bded, 0xbcb4_666d, 0xb875_7bda, 0xb, 0x8, 0x7, 0x5, 0x7, 0xb, 0xd, 0xa);
    Link(0xd8fb_a05a, 0xb536_5d03, 0xb1f7_40b4, 0xb, 0x1, 0xf, 0x7, 0x4, 0x0, 0xb, 0x4);
  }

  lemma Row15Linked()
    ensures RowLinked(ROW_7, 8, ROW_15)
  {
    hide Linked;
    Links15();
  }

  function Row(k: int): (r: seq<int>)
    ensures |r| == 16
  {
    if k < 8 then
      if k < 4 then (if k < 2 then (if k < 1 then ROW_0 else ROW_1) else if k < 3 then ROW_2 else ROW_3)
      else if k < 6 then (if k < 5 then ROW_4 else ROW_5) else if k < 7 then ROW_6 else ROW_7
    else if k < 12 then (if k < 10 then (if k < 9 then ROW_8 else ROW_9) else if k < 11 then ROW_10 else ROW_11)
    else if k < 14 then (if k < 13 then ROW_12 else ROW_13) else if k < 15 then ROW_14 else ROW_15
  }

  /** The table of the source. */
  function CrcTable(): (table: seq<int>)
    ensures |table| == 256
  {
    seq(256, i requires 0 <= i < 256 => Row(i / 16)[i % 16])
  }

  lemma RowIs(k: int)
    requires 0 <= k < 16
    ensures RowLinked(Row(k / 2), 8 * (k % 2), Row(k))
  {
    hide RowLinked;
    Row0Linked(); Row1Linked(); Row2Linked(); Row3Linked();
    Row4Linked(); Row5Linked(); Row6Linked(); Row7Linked();
    Row8Linked(); Row9Linked(); Row10Linked(); Row11Linked();
    Row12Linked(); Row13Linked(); Row14Linked(); Row15Linked();
  }

  lemma EntryLinked(c: int)
    requires 0 <= c < 128
    ensures Linked(CrcTable()[c], CrcTable()[2 * c], CrcTable()[2 * c + 1])
  {
    hide Linked, Row;
    var k, i := c / 8, c % 8;
    RowIs(k);
    RowAt(Row(k / 2), 8 * (k % 2), Row(k), i);
    Places(c);
  }

  lemma RowAt(t: seq<int>, j: nat, r: seq<int>, i: nat)
    requires j + 8 <= |t| && |r| == 16 && RowLinked(t, j, r) && i < 8
    ensures Linked(t[j + i], r[2 * i], r[2 * i + 1])
  {
    hide Linked;
  }

  lemma Places(c: int)
    requires 0 <= c < 128
    ensures var k, i := c / 8, c % 8;
            && c / 16 == k / 2 && c % 16 == 8 * (k % 2) + i
            && 2 * c / 16 == k && 2 * c % 16 == 2 * i && (2 * c + 1) / 16 == k && (2 * c + 1) % 16 == 2 * i + 1
  {
  }

  /** The constants are the remainders. */
  lemma CrcTableIs()
    ensures IsCrcTable(CrcTable())
  {
    hide Row, Shifts, Linked;
    var table := CrcTable();
    forall c | 0 <= c < 128
      ensures Linked(table[c], table[2 * c], table[2 * c + 1])
    {
      EntryLinked(c);
    }
    FirstIsZero();
    forall i | 0 <= i < 256
      ensures table[i] == Shifts(i * TOP, 8) && 0 <= table[i] < WORD
    {
      EntryIs(table, i);
    }
  }

  lemma FirstIsZero()
    ensures CrcTable()[0] == 0
  {
  }

  /** With the table of the source, the checksum of every message is the remainder of the division. */
  lemma SourceDivides(xs: seq<int>)
    requires Bytes(xs)
    ensures Table(CrcTable()) && Crc(CrcTable(), xs) == Remainder(WORD - 1, BytesBits(xs))
  {
    hide IsCrcTable, Remainder, Crc, CrcTable;
    CrcTableIs();
    TableFrom(CrcTable());
    CrcDivides(CrcTable(), xs);
  }

  lemma TableFrom(table: seq<int>)
    requires IsCrcTable(table)
    ensures Table(table)
  {
  }
}
