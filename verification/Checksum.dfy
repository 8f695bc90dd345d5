/** The checksum. */
module Checksum {
  // The table-driven checksum divides the message, one bit at a time, by the polynomial of the 32-bit Ethernet
  // checksum.

  import opened Arith
  import opened BitStrings
  import opened RunLength

  const POLYNOMIAL := 0x04c1_1db7
  const TOP_BIT := 0x8000_0000

  // ---------------------------------------------------------------- exclusive or

  lemma {:induction false} XorCommutes(x: nat, y: nat)
    ensures Xor(x, y) == Xor(y, x)
    decreases x + y
  {
    if x > 0 || y > 0 {
      XorCommutes(x / 2, y / 2);
    }
  }

  lemma XorHalves(x: nat, y: nat)
    ensures Xor(x, y) / 2 == Xor(x / 2, y / 2) && Xor(x, y) % 2 == (x + y) % 2
  {
  }

  lemma {:induction false} XorAssociates(x: nat, y: nat, z: nat)
    ensures Xor(Xor(x, y), z) == Xor(x, Xor(y, z))
    decreases x + y + z
  {
    hide Xor;
    if x == 0 && y == 0 && z == 0 {
      XorNothing();
    } else {
      XorAssociates(x / 2, y / 2, z / 2);
      XorHalves(x, y);
      XorHalves(y, z);
      XorHalves(Xor(x, y), z);
      XorHalves(x, Xor(y, z));
      Recompose(Xor(Xor(x, y), z), Xor(x, Xor(y, z)));
    }
  }

  lemma Recompose(a: nat, b: nat)
    requires a / 2 == b / 2 && a % 2 == b % 2
    ensures a == b
  {
  }

  lemma XorNothing()
    ensures Xor(0, 0) == 0
  {
  }

  lemma {:induction false} XorZero(x: nat)
    ensures Xor(x, 0) == x && Xor(0, x) == x
  {
    if x > 0 {
      XorZero(x / 2);
    }
  }

  lemma {:induction false} XorSelf(x: nat)
    ensures Xor(x, x) == 0
  {
    if x > 0 {
      XorSelf(x / 2);
    }
  }

  /** Two pairs may be combined in any order. */
  lemma XorRegroup(a: nat, b: nat, c: nat, d: nat)
    ensures Xor(Xor(a, b), Xor(c, d)) == Xor(Xor(a, c), Xor(b, d))
  {
    hide Xor;
    XorAssociates(a, b, Xor(c, d));
    XorAssociates(b, c, d);
    XorCommutes(b, c);
    XorAssociates(c, b, d);
    XorAssociates(a, c, Xor(b, d));
  }

  lemma XorTwice(x: nat, y: nat)
    ensures Xor(2 * x, 2 * y) == 2 * Xor(x, y)
  {
    hide Xor;
    XorHalves(2 * x, 2 * y);
  }

  /** A number from its upper and its lower part. */
  function Join(a: int, p: int, b: int): int {
    a * p + b
  }

  lemma JoinNatural(a: int, p: int, b: int)
    requires a >= 0 && p >= 1 && b >= 0
    ensures Join(a, p, b) >= 0
  {
    assert a * p >= 0;
  }

  lemma JoinHalves(a: int, p: int, b: int)
    ensures Join(a, 2 * p, b) / 2 == Join(a, p, b / 2) && Join(a, 2 * p, b) % 2 == b % 2
  {
    var q := a * p;
    assert a * (2 * p) == 2 * q;
  }

  lemma JoinOne(a: int, b: int)
    ensures Join(a, 1, b) == a + b
  {
  }

  /** Numbers are combined part by part. */
  lemma {:induction false} XorParts(a: nat, b: nat, c: nat, d: nat, k: nat)
    requires b < Pow2(k) && d < Pow2(k)
    ensures Join(a, Pow2(k), b) >= 0 && Join(c, Pow2(k), d) >= 0
    ensures Xor(Join(a, Pow2(k), b), Join(c, Pow2(k), d)) == Join(Xor(a, c), Pow2(k), Xor(b, d))
  {
    hide Xor, Pow2, Join;
    Pow2Step(k);
    JoinNatural(a, Pow2(k), b);
    JoinNatural(c, Pow2(k), d);
    if k == 0 {
      XorNothing();
      JoinOne(a, b);
      JoinOne(c, d);
      JoinOne(Xor(a, c), Xor(b, d));
    } else {
      XorParts(a, b / 2, c, d / 2, k - 1);
      var p := Pow2(k - 1);
      JoinHalves(a, p, b);
      JoinHalves(c, p, d);
      JoinHalves(Xor(a, c), p, Xor(b, d));
      JoinNatural(Xor(a, c), 2 * p, Xor(b, d));
      XorHalves(Join(a, 2 * p, b), Join(c, 2 * p, d));
      XorHalves(b, d);
      SameParity(b, d, Join(a, 2 * p, b), Join(c, 2 * p, d));
      Recompose(Xor(Join(a, 2 * p, b), Join(c, 2 * p, d)), Join(Xor(a, c), 2 * p, Xor(b, d)));
    }
  }

  lemma SameParity(b: int, d: int, x: int, y: int)
    requires x % 2 == b % 2 && y % 2 == d % 2
    ensures (x + y) % 2 == (b + d) % 2
  {
  }

  lemma Pow2Step(k: nat)
    ensures Pow2(0) == 1 && (k > 0 ==> Pow2(k) == 2 * Pow2(k - 1))
  {
  }

  // ---------------------------------------------------------------- division by the polynomial

  function Xor32(x: int, y: int): (r: int)
    requires 0 <= x < WORD && 0 <= y < WORD
    ensures 0 <= r < WORD
  {
    XorWord(x, y);
    Xor(x, y)
  }

  /** One step of the division: the remainder moves up by one bit, and the polynomial goes away from it if a bit left at
      the top. */
  function Shift(x: int): (r: int)
    requires 0 <= x < WORD
    ensures 0 <= r < WORD
  {
    if x >= TOP_BIT then Xor32(2 * (x - TOP_BIT), POLYNOMIAL) else 2 * x
  }

  function Shifts(x: int, k: nat): (r: int)
    requires 0 <= x < WORD
    ensures 0 <= r < WORD
  {
    if k == 0 then x else Shift(Shifts(x, k - 1))
  }

  function Choose(bit: int): (r: int)
    ensures 0 <= r < WORD
  {
    if bit == 1 then POLYNOMIAL else 0
  }

  lemma ShiftIs(x: int)
    requires 0 <= x < WORD
    ensures Shift(x) == Xor(2 * (x % TOP_BIT), Choose(x / TOP_BIT)) && (x / TOP_BIT == 0 || x / TOP_BIT == 1)
  {
    hide Xor;
    if x < TOP_BIT {
      XorZero(2 * x);
    }
  }

  lemma ChooseXor(a: int, b: int)
    requires (a == 0 || a == 1) && (b == 0 || b == 1)
    ensures (Xor(a, b) == 0 || Xor(a, b) == 1) && Choose(Xor(a, b)) == Xor(Choose(a), Choose(b))
  {
    hide Xor;
    XorZero(0);
    XorZero(1);
    XorSelf(1);
    XorZero(POLYNOMIAL);
    XorSelf(POLYNOMIAL);
  }

  lemma TopPower()
    ensures Pow2(31) == TOP_BIT && Pow2(32) == WORD && Pow2(24) == TOP && Pow2(8) == 256
  {
    WordPowers();
    assert Pow2(32) == 2 * Pow2(31);
  }

  /** Division steps do not mix what was combined. */
  lemma ShiftLinear(x: int, y: int)
    requires 0 <= x < WORD && 0 <= y < WORD
    ensures Xor(x, y) < WORD && Shift(Xor(x, y)) == Xor(Shift(x), Shift(y))
  {
    hide Xor, Pow2, Shift, Choose;
    XorWord(x, y);
    var a, b, c, d := x / TOP_BIT, x % TOP_BIT, y / TOP_BIT, y % TOP_BIT;
    TopPower();
    ShiftIs(x);
    ShiftIs(y);
    ShiftIs(Xor(x, y));
    XorParts(a, b, c, d, 31);
    assert Join(a, TOP_BIT, b) == x && Join(c, TOP_BIT, d) == y;
    XorBound(b, d, 31);
    ChooseXor(a, c);
    PartsOf(Xor(x, y), Xor(a, c), Xor(b, d));
    XorTwice(b, d);
    XorRegroup(2 * b, Choose(a), 2 * d, Choose(c));
  }

  lemma PartsOf(x: int, a: int, b: int)
    requires x == Join(a, TOP_BIT, b) && 0 <= b < TOP_BIT
    ensures x / TOP_BIT == a && x % TOP_BIT == b
  {
    ModUnique(x, TOP_BIT, a, b);
  }

  lemma {:induction false} ShiftsLinear(x: int, y: int, k: nat)
    requires 0 <= x < WORD && 0 <= y < WORD
    ensures Xor(x, y) < WORD && Shifts(Xor(x, y), k) == Xor(Shifts(x, k), Shifts(y, k))
  {
    hide Xor, Shift;
    XorWord(x, y);
    if k > 0 {
      ShiftsLinear(x, y, k - 1);
      ShiftLinear(Shifts(x, k - 1), Shifts(y, k - 1));
    }
  }

  /** Small remainders only move up. */
  lemma {:induction false} ShiftsSmall(x: int, k: nat)
    requires 0 <= x && x * Pow2(k) < WORD
    ensures x < WORD && Shifts(x, k) == x * Pow2(k)
  {
    hide Pow2, Xor;
    Pow2Step(k);
    if k > 0 {
      var p := Pow2(k - 1);
      assert x * (2 * p) == 2 * (x * p);
      assert x * p >= 0;
      ShiftsSmall(x, k - 1);
    }
  }

  // ---------------------------------------------------------------- a byte at a time

  /** The table holds, for every byte, what eight steps make of it at the top. */
  ghost predicate IsCrcTable(table: seq<int>) {
    Table(table) && forall i | 0 <= i < 256 :: table[i] == Shifts(i * TOP, 8)
  }

  lemma TopAndRest(x: int)
    requires 0 <= x < WORD
    ensures 0 <= x / TOP < 256 && x == (x / TOP) * TOP + x % TOP && (x % TOP) * 256 == x * 256 % WORD
  {
    var q, r := x / TOP, x % TOP;
    assert x * 256 == WORD * q + r * 256;
    ModUnique(x * 256, WORD, q, r * 256);
  }

  /** A byte placed over the top of the remainder. */
  lemma TopCombined(q: int, r: int, ch: int)
    requires 0 <= q < 256 && 0 <= r < TOP && 0 <= ch < 256
    ensures Xor(q, ch) < 256 && Xor(q * TOP + r, ch * TOP) == Xor(Xor(q, ch) * TOP, r)
  {
    hide Xor, Pow2, Join;
    TopPower();
    XorByte(q, ch);
    XorParts(q, r, ch, 0, 24);
    XorZero(r);
    var m := Xor(q, ch);
    XorParts(m, 0, 0, r, 24);
    XorZero(m);
    JoinTop(q, r);
    JoinTop(ch, 0);
    JoinTop(m, 0);
    JoinTop(0, r);
  }

  lemma JoinTop(a: int, b: int)
    ensures Join(a, TOP, b) == a * TOP + b
  {
  }

  /** One look into the table makes the eight steps for a byte. */
  lemma UpdateDivides(table: seq<int>, crc: int, ch: int)
    requires IsCrcTable(table) && 0 <= crc < WORD && 0 <= ch < 256
    ensures 0 <= Xor(crc, ch * TOP) < WORD
    ensures UpdateCrc(table, crc, ch) == Shifts(Xor(crc, ch * TOP), 8)
  {
    hide Xor, Pow2, Shifts;
    TopPower();
    TopAndRest(crc);
    TopCombined(crc / TOP, crc % TOP, ch);
    XorWord(crc, ch * TOP);
    var m, r := Xor(crc / TOP, ch), crc % TOP;
    ShiftsLinear(m * TOP, r, 8);
    ShiftsSmall(r, 8);
    XorCommutes(table[m], r * 256);
  }

  // ---------------------------------------------------------------- a bit at a time

  /** The remainder after one more bit of the message. */
  function Feed(x: int, bit: int): (r: int)
    requires 0 <= x < WORD && 0 <= bit <= 1
    ensures 0 <= r < WORD
  {
    Shift(Xor32(x, bit * TOP_BIT))
  }

  /** The remainder of a whole message, bit by bit. */
  ghost function Remainder(x: int, bits: seq<int>): (r: int)
    requires 0 <= x < WORD && Bits(bits)
    ensures 0 <= r < WORD
  {
    if bits == [] then x else Feed(Remainder(x, bits[..|bits| - 1]), bits[|bits| - 1])
  }

  lemma {:induction false} RemainderConcat(x: int, a: seq<int>, b: seq<int>)
    requires 0 <= x < WORD && Bits(a) && Bits(b)
    ensures Bits(a + b) && Remainder(x, a + b) == Remainder(Remainder(x, a), b)
    decreases |b|
  {
    hide Feed;
    if b == [] {
      assert a + b == a;
    } else {
      var b' := b[..|b| - 1];
      RemainderConcat(x, a, b');
      assert (a + b)[..|a + b| - 1] == a + b';
    }
  }

  /** A number of `k` bits, placed at the top. */
  function Placed(v: int, k: nat): int
    requires k <= 32
  {
    v * Pow2(32 - k)
  }

  lemma PlacedFits(v: int, k: nat)
    requires k <= 32 && 0 <= v < Pow2(k)
    ensures 0 <= Placed(v, k) < WORD
  {
    hide Pow2;
    TopPower();
    Pow2Add(k, 32 - k);
    Below(v, Pow2(k), Pow2(32 - k));
  }

  lemma Below(v: int, a: int, b: int)
    requires 0 <= v < a && b >= 1 && a * b == WORD
    ensures 0 <= v * b < WORD
  {
    assert (a - v) * b >= b;
    assert (a - v) * b == a * b - v * b;
  }

  lemma PlacedEnds(v: int)
    ensures Placed(0, 0) == 0 && Placed(v, 8) == v * TOP
  {
    hide Pow2;
    TopPower();
  }

  /** The last bit does not overlap those before it. */
  lemma PlacedSplit(v: int, k: nat)
    requires 1 <= k <= 8 && 0 <= v < Pow2(k)
    ensures 0 <= Placed(v / 2, k - 1) && 0 <= Placed(v % 2, k)
    ensures Xor(Placed(v / 2, k - 1), Placed(v % 2, k)) == Placed(v, k)
  {
    hide Xor, Pow2;
    var h, b, p := v / 2, v % 2, Pow2(32 - k);
    Pow2Step(33 - k);
    assert 0 <= b * p < 2 * p by { assert b == 0 || b == 1; }
    XorParts(h, 0, 0, b * p, 33 - k);
    XorZero(h);
    XorZero(b * p);
    assert h * (2 * p) >= 0;
    assert v * p == h * (2 * p) + b * p;
  }

  /** A bit placed below the top reaches it after the steps for the bits before it. */
  lemma Climb(b: int, k: nat)
    requires (b == 0 || b == 1) && 1 <= k <= 8
    ensures 0 <= Placed(b, k) < WORD && Shifts(Placed(b, k), k - 1) == b * TOP_BIT
  {
    hide Pow2, Shifts;
    TopPower();
    Pow2Add(32 - k, k - 1);
    var p, q := Pow2(32 - k), Pow2(k - 1);
    assert b * p * q == b * TOP_BIT by { assert b == 0 || b == 1; }
    ShiftsSmall(b * p, k - 1);
  }

  /** The first `k` bits of a byte. */
  lemma {:induction false} PartialByte(x: int, v: int, k: nat)
    requires 0 <= x < WORD && k <= 8 && 0 <= v < Pow2(k)
    ensures 0 <= Placed(v, k) < WORD && 0 <= Xor(x, Placed(v, k)) < WORD
    ensures Remainder(x, BitsOf(k, v)) == Shifts(Xor(x, Placed(v, k)), k)
  {
    hide Xor, Pow2, Shift, Shifts, Feed, Placed, Remainder, BitsOf;
    PlacedFits(v, k);
    XorWord(x, Placed(v, k));
    Pow2Step(k);
    if k == 0 {
      PlacedEnds(0);
      XorZero(x);
      NoBits(x, v);
    } else {
      PartialByte(x, v / 2, k - 1);
      Climb(v % 2, k);
      PlacedSplit(v, k);
      LastBit(x, v, k);
      NextShift(x, Placed(v / 2, k - 1), Placed(v % 2, k), v % 2, k);
    }
  }

  lemma NoBits(x: int, v: int)
    requires 0 <= x < WORD
    ensures Shifts(x, 0) == x && Remainder(x, BitsOf(0, v)) == x
  {
  }

  /** Feeding a bit now, or having combined it before. */
  lemma NextShift(x: int, hi: int, lo: int, b: int, k: nat)
    requires 0 <= x < WORD && 0 <= hi < WORD && 0 <= lo < WORD && 0 <= b <= 1 && k >= 1
        && Shifts(lo, k - 1) == b * TOP_BIT
    ensures 0 <= Xor(x, hi) < WORD && 0 <= Xor(hi, lo) < WORD && 0 <= Xor(x, Xor(hi, lo)) < WORD
    ensures Feed(Shifts(Xor(x, hi), k - 1), b) == Shifts(Xor(x, Xor(hi, lo)), k)
  {
    hide Xor, Shift;
    XorWord(x, hi);
    XorWord(hi, lo);
    XorWord(x, Xor(hi, lo));
    XorAssociates(x, hi, lo);
    ShiftsLinear(Xor(x, hi), lo, k - 1);
  }

  lemma LastBit(x: int, v: int, k: nat)
    requires 0 <= x < WORD && k >= 1 && 0 <= v
    ensures Remainder(x, BitsOf(k, v)) == Feed(Remainder(x, BitsOf(k - 1, v / 2)), v % 2)
  {
    hide Feed;
    var bits := BitsOf(k, v);
    assert bits == BitsOf(k - 1, v / 2) + [v % 2];
    assert bits[..|bits| - 1] == BitsOf(k - 1, v / 2);
  }

  /** The checksum of a message is the remainder of its bits, starting from all ones. */
  lemma {:induction false} CrcDivides(table: seq<int>, xs: seq<int>)
    requires IsCrcTable(table) && Bytes(xs)
    ensures Crc(table, xs) == Remainder(WORD - 1, BytesBits(xs))
  {
    hide UpdateCrc, Remainder, Xor, Pow2, BitsOf, BytesBits, Shifts;
    if xs == [] {
      BytesBitsNone();
      NothingFed();
    } else {
      var rest, c := xs[..|xs| - 1], xs[|xs| - 1];
      CrcDivides(table, rest);
      var crc := Crc(table, rest);
      assert xs == rest + [c];
      BytesBitsMore(rest, c);
      RemainderConcat(WORD - 1, BytesBits(rest), BitsOf(8, c));
      TopPower();
      PartialByte(crc, c, 8);
      PlacedEnds(c);
      UpdateDivides(table, crc, c);
    }
  }

  lemma NothingFed()
    ensures Remainder(WORD - 1, []) == WORD - 1
  {
  }
}
