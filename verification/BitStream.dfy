/** The bit-level writer and reader: a 32-bit shift register in front of a byte buffer. */
module BitStream {
  import opened Arith
  import opened BitStrings

  function Or(x: nat, y: nat): (r: nat)
    decreases x + y
  {
    if x == 0 && y == 0 then 0 else 2 * Or(x / 2, y / 2) + (if x % 2 == 1 || y % 2 == 1 then 1 else 0)
  }

  lemma {:induction false} OrZero(x: nat)
    ensures Or(x, 0) == x
  {
    if x > 0 {
      OrZero(x / 2);
    }
  }

  /** Disjoint bit ranges are joined by addition. */
  lemma {:induction false} OrDisjoint(h: nat, y: nat, m: nat)
    requires 0 <= y < Pow2(m)
    ensures h * Pow2(m) >= 0 && Or(h * Pow2(m), y) == h * Pow2(m) + y
  {
    var x := h * Pow2(m);
    if m == 0 {
      OrZero(x);
    } else {
      assert x == 2 * (h * Pow2(m - 1));
      OrDisjoint(h, y / 2, m - 1);
      if x == 0 && y == 0 {
        assert Or(0, 0) == 0;
      } else {
        assert x / 2 == h * Pow2(m - 1) && x % 2 == 0;
      }
    }
  }

  // ---------------------------------------------------------------- the register

  /** The bits waiting in the top of the write register. */
  ghost function Waiting(buff: int, live: int): (bits: seq<int>)
    requires 0 <= live <= 32
    ensures |bits| == live && Bits(bits)
  {
    BitsOf(live, buff / Pow2(32 - live))
  }

  /** Below the waiting bits the register is zero. */
  ghost predicate Clean(buff: int, live: int) {
    0 <= live <= 32 && buff == Value(Waiting(buff, live)) * Pow2(32 - live)
  }

  lemma WaitingIs(buff: int, live: int, bits: seq<int>)
    requires Bits(bits) && |bits| == live <= 32 && buff == Value(bits) * Pow2(32 - live)
    ensures Clean(buff, live) && Waiting(buff, live) == bits
  {
    var p := Pow2(32 - live);
    assert buff / p == Value(bits) by { ExactQuotient(Value(bits), p); }
    ValueRange(bits);
    BitsOfValue(live, Value(bits));
    ValueUnique(BitsOf(live, Value(bits)), bits);
  }

  lemma ExactQuotient(v: int, p: int)
    requires p > 0
    ensures v * p / p == v
  {
    ModUnique(v * p, p, v, 0);
  }

  lemma CleanBound(buff: int, live: int)
    requires Clean(buff, live)
    ensures 0 <= buff < WORD
  {
    hide Pow2;
    WordPowers();
    var bits := Waiting(buff, live);
    ValueRange(bits);
    Pow2Add(live, 32 - live);
    Scale(Value(bits), Pow2(live), Pow2(32 - live));
  }

  lemma Scale(v: int, n: int, p: int)
    requires 0 <= v < n && p > 0
    ensures 0 <= v * p < n * p
  {
  }

  /** The top byte of the register is the first eight waiting bits; shifting brings up the rest. */
  lemma TopByte(buff: int, first: seq<int>, rest: seq<int>)
    requires Bits(first) && Bits(rest) && |first| == 8 && |rest| <= 24
    requires buff == Value(first + rest) * Pow2(24 - |rest|)
    ensures buff / TOP == Value(first) && 0 <= buff / TOP < 256
    ensures buff * 256 % WORD == Value(rest) * Pow2(32 - |rest|)
  {
    hide Pow2, Value;
    WordPowers();
    var k := |rest|;
    ValueConcat(first, rest);
    ValueRange(first);
    ValueRange(rest);
    Pow2Add(k, 24 - k);
    Pow2Add(24 - k, 8);
    Scale(Value(rest), Pow2(k), Pow2(24 - k));
    TopByteArithmetic(Value(first), Value(rest), Pow2(k), Pow2(24 - k));
  }

  lemma TopByteArithmetic(f: int, r: int, pk: int, pm: int)
    requires 0 <= f < 256 && 0 <= r * pm < TOP && pk * pm == TOP
    ensures (f * pk + r) * pm / TOP == f
    ensures (f * pk + r) * pm * 256 % WORD == r * (pm * 256)
  {
    var low := r * pm;
    assert (f * pk + r) * pm == f * (pk * pm) + low;
    assert (f * TOP + low) / TOP == f;
    assert (f * TOP + low) * 256 == f * WORD + low * 256;
    assert (f * WORD + low * 256) % WORD == low * 256;
  }

  ghost function Zeros(n: nat): (bits: seq<int>)
    ensures |bits| == n && Bits(bits)
  {
    seq(n, _ => 0)
  }

  lemma {:induction false} ValueZeros(bits: seq<int>, n: nat)
    ensures Value(bits + Zeros(n)) == Value(bits) * Pow2(n)
  {
    if n == 0 {
      assert bits + Zeros(0) == bits;
    } else {
      ValueZeros(bits, n - 1);
      assert (bits + Zeros(n))[..|bits| + n - 1] == bits + Zeros(n - 1);
    }
  }

  /** Moving one byte from the register to the buffer keeps the bits written. */
  lemma StoreOne(bytes: seq<int>, buff: int, live: int, padding: seq<int>)
    requires Clean(buff, live) && live > 0 && padding == Zeros(if live < 8 then 8 - live else 0)
    ensures 0 <= buff / TOP < 256
    ensures live >= 8 ==> Clean(buff * 256 % WORD, live - 8)
    ensures live >= 8 ==>
        BytesBits(bytes + [buff / TOP]) + Waiting(buff * 256 % WORD, live - 8) ==
        BytesBits(bytes) + Waiting(buff, live)
    ensures live < 8 ==> buff * 256 % WORD == 0
    ensures live < 8 ==> BytesBits(bytes + [buff / TOP]) == BytesBits(bytes) + Waiting(buff, live) + padding
  {
    hide Value, Pow2, BytesBits, BitsOf;
    var bits := Waiting(buff, live) + padding;
    Padded(buff, live, padding);
    var first, rest := bits[..8], bits[8..];
    assert first + rest == bits;
    TopByte(buff, first, rest);
    BytesBitsMore(bytes, buff / TOP);
    WordPowers();
    BitsOfValue(8, buff / TOP);
    ValueUnique(BitsOf(8, buff / TOP), first);
    if live >= 8 {
      WaitingIs(buff * 256 % WORD, live - 8, rest);
      assert bits == Waiting(buff, live);
      assert BytesBits(bytes) + first + rest == BytesBits(bytes) + (first + rest);
    } else {
      assert rest == [] && first == bits;
      ValueEmpty();
      assert BytesBits(bytes) + (Waiting(buff, live) + padding) == BytesBits(bytes) + Waiting(buff, live) + padding;
    }
  }

  lemma Padded(buff: int, live: int, padding: seq<int>)
    requires Clean(buff, live) && live > 0 && padding == Zeros(if live < 8 then 8 - live else 0)
    ensures buff == Value(Waiting(buff, live) + padding) * Pow2(32 - live - |padding|)
  {
    hide Value, Pow2, BitsOf;
    ValueZeros(Waiting(buff, live), |padding|);
    Pow2Add(|padding|, 32 - live - |padding|);
    Reassociate(Value(Waiting(buff, live)), Pow2(|padding|), Pow2(32 - live - |padding|));
  }

  // ---------------------------------------------------------------- writing

  class BitWriter {
    var bsBuff: int
    var bsLive: int
    var zbits: seq<int>

    ghost predicate Valid()
      reads this
    {
      Clean(bsBuff, bsLive) && Bytes(zbits)
    }

    /** Every bit written: the bytes already stored and the bits still in the register. */
    ghost function Written(): (bits: seq<int>)
      requires Valid()
      reads this
    {
      BytesBits(zbits) + Waiting(bsBuff, bsLive)
    }

    constructor ()
      ensures Valid() && zbits == [] && bsBuff == 0 && bsLive == 0 && Written() == []
    {
      bsBuff, bsLive, zbits := 0, 0, [];
    }

    method InitWrite()
      modifies this`bsBuff, this`bsLive
      ensures bsBuff == 0 && bsLive == 0 && (Bytes(zbits) ==> Valid() && Written() == BytesBits(zbits))
    {
      bsLive := 0;
      bsBuff := 0;
      assert BytesBits(zbits) + Waiting(0, 0) == BytesBits(zbits);
    }

    /** Stores the top byte of the register, padded with zeros if fewer than eight bits wait there. */
    method StoreByte(ghost padding: seq<int>)
      requires Valid() && bsLive > 0
      requires padding == Zeros(if bsLive < 8 then 8 - bsLive else 0)
      modifies this
      ensures bsLive == old(bsLive) - 8 && Bytes(zbits) && |zbits| == |old(zbits)| + 1
      ensures old(bsLive) >= 8 ==> Valid() && Written() == old(Written())
      ensures old(bsLive) < 8 ==> bsBuff == 0 && BytesBits(zbits) == old(Written()) + padding
    {
      hide Clean, Waiting, BytesBits;
      StoreOne(zbits, bsBuff, bsLive, padding);
      zbits := zbits + [bsBuff / TOP];
      bsBuff := bsBuff * 256 % WORD;
      bsLive := bsLive - 8;
    }

    /** Makes room in the register. */
    method NeedW()
      requires Valid()
      modifies this
      ensures Valid() && bsLive < 8 && Written() == old(Written())
    {
      while bsLive >= 8
        invariant Valid() && Written() == old(Written())
        decreases bsLive
      {
        StoreByte([]);
      }
    }

    /** Appends the `n` low bits of `v`. */
    method W(n: int, v: int)
      requires Valid() && 1 <= n <= 25 && 0 <= v < Pow2(n)
      modifies this
      ensures Valid() && Written() == old(Written()) + BitsOf(n, v)
    {
      hide Value, Pow2;
      NeedW();
      ghost var bits, more := Waiting(bsBuff, bsLive), BitsOf(n, v);
      var shift := 32 - bsLive - n;
      Joined(bsBuff, bsLive, n, v);
      CleanBound(bsBuff, bsLive);
      bsBuff := Or(bsBuff, v * Pow2(shift) % WORD);
      bsLive := bsLive + n;
      WaitingIs(bsBuff, bsLive, bits + more);
      assert BytesBits(zbits) + (bits + more) == BytesBits(zbits) + bits + more;
    }

    method PutUChar(c: int)
      requires Valid() && 0 <= c < 256
      modifies this
      ensures Valid() && Written() == old(Written()) + BitsOf(8, c)
    {
      assert Pow2(8) == 256;
      W(8, c);
    }

    /** Appends a 32-bit word as four bytes. */
    method PutUInt32(u: int)
      requires Valid() && 0 <= u < WORD
      modifies this
      ensures Valid() && Written() == old(Written()) + BitsOf(32, u)
    {
      hide Clean, Waiting, BytesBits, BitsOf;
      WordBits(u);
      ghost var w := Written();
      PutUChar(u / TOP % 256);
      PutUChar(u / 0x1_0000 % 256);
      PutUChar(u / 0x100 % 256);
      PutUChar(u % 256);
      Associate(w, BitsOf(8, u / TOP % 256), BitsOf(8, u / 0x1_0000 % 256), BitsOf(8, u / 0x100 % 256),
          BitsOf(8, u % 256));
    }

    /** Empties the register, padding the last byte with zeros. */
    method FinishWrite()
      requires Valid()
      modifies this
      ensures bsLive <= 0 && Bytes(zbits)
      ensures 0 <= 8 * |zbits| - |old(Written())| < 8
      ensures BytesBits(zbits) == old(Written()) + Zeros(8 * |zbits| - |old(Written())|)
    {
      ghost var pad: nat := 0;
      while bsLive > 0
        invariant bsLive > -8 && Bytes(zbits) && pad < 8
        invariant bsLive >= 0 ==> pad == 0 && Valid() && Written() == old(Written())
        invariant bsLive < 0 ==> BytesBits(zbits) == old(Written()) + Zeros(pad)
        decreases bsLive
      {
        pad := if bsLive < 8 then 8 - bsLive else 0;
        StoreByte(Zeros(pad));
      }
      assert bsLive == 0 ==> old(Written()) + Zeros(0) == Written() == BytesBits(zbits);
    }
  }

  lemma Associate(w: seq<int>, a: seq<int>, b: seq<int>, c: seq<int>, d: seq<int>)
    ensures w + a + b + c + d == w + (a + b + c + d)
  {
  }

  lemma ValueEmpty()
    ensures Value([]) == 0
  {
  }

  lemma Reassociate(a: int, b: int, c: int)
    ensures a * (b * c) == a * b * c
  {
  }

  /** Joining `n` new bits below the waiting ones. */
  lemma Joined(buff: int, live: int, n: int, v: int)
    requires Clean(buff, live) && live < 8 && 1 <= n <= 25 && 0 <= v < Pow2(n)
    ensures buff >= 0 && v * Pow2(32 - live - n) % WORD >= 0
    ensures Or(buff, v * Pow2(32 - live - n) % WORD) == Value(Waiting(buff, live) + BitsOf(n, v)) * Pow2(32 - live - n)
  {
    hide Pow2, Value, Or, BitsOf, Waiting;
    var bits, k := Waiting(buff, live), 32 - live - n;
    CleanBound(buff, live);
    ValueRange(bits);
    ShiftFits(live, n, v);
    OrDisjoint(Value(bits), v * Pow2(k), 32 - live);
    BitsOfValue(n, v);
    ValueConcat(bits, BitsOf(n, v));
    Distribute(Value(bits), Pow2(n), Pow2(k), v);
    Pow2Add(n, k);
  }

  lemma ShiftFits(live: int, n: int, v: int)
    requires 0 <= live && 0 <= n && live + n <= 32 && 0 <= v < Pow2(n)
    ensures 0 <= v * Pow2(32 - live - n) < Pow2(32 - live)
    ensures v * Pow2(32 - live - n) % WORD == v * Pow2(32 - live - n)
  {
    hide Pow2;
    var k := 32 - live - n;
    WordPowers();
    Pow2Add(n, k);
    Scale(v, Pow2(n), Pow2(k));
    Pow2Monotone(32 - live, 32);
    ModSmall(v * Pow2(k), WORD);
  }

  lemma ModSmall(x: int, m: int)
    requires 0 <= x < m
    ensures x % m == x
  {
  }

  lemma Distribute(b: int, n: int, k: int, v: int)
    ensures (b * n + v) * k == b * (n * k) + v * k
  {
  }

  lemma WordBits(u: int)
    requires 0 <= u < WORD
    ensures BitsOf(32, u) ==
        BitsOf(8, u / TOP % 256) + BitsOf(8, u / 0x1_0000 % 256) + BitsOf(8, u / 0x100 % 256) + BitsOf(8, u % 256)
  {
    hide BitsOf;
    LastByte(24, u);
    LastByte(16, u / 0x100);
    LastByte(8, u / 0x1_0000);
    LowByte(u);
    LowByte(u / 0x100);
    LowByte(u / 0x1_0000);
    assert u / 0x100 / 256 == u / 0x1_0000 && u / 0x1_0000 / 256 == u / TOP == u / TOP % 256;
  }

  lemma LowByte(u: int)
    ensures BitsOf(8, u % 256) == BitsOf(8, u)
  {
    assert Pow2(8) == 256;
    BitsOfMod(8, 8, u);
  }

  // ---------------------------------------------------------------- reading

  /** Shifting a byte into the low end of the read register. */
  function ShiftIn(buff: int, byte: int): (r: int)
    requires 0 <= byte < 256
    ensures 0 <= r
  {
    Or(buff * 256 % WORD, byte)
  }

  lemma ShiftedLeft(buff: int)
    ensures buff * 256 % WORD == buff % TOP * 256
  {
    var q, h := buff / TOP, buff % TOP;
    assert buff * 256 == WORD * q + h * 256;
    ModUnique(buff * 256, WORD, q, h * 256);
  }

  lemma ShiftInBits(buff: int, live: nat, byte: int)
    requires 0 <= buff < WORD && 0 <= byte < 256 && live <= 24
    ensures 0 <= ShiftIn(buff, byte) < WORD
    ensures BitsOf(live + 8, ShiftIn(buff, byte)) == BitsOf(live, buff) + BitsOf(8, byte)
  {
    hide BitsOf, Or, Pow2;
    WordPowers();
    var h := buff % TOP;
    ShiftedLeft(buff);
    OrDisjoint(h, byte, 8);
    var r := h * 256 + byte;
    assert r / 256 == h && r % 256 == byte;
    LastByte(live, r);
    LowByte(r);
    assert h == buff % TOP;
    BitsOfMod(live, 24, buff);
  }

  lemma TakeBits(buff: int, live: nat, n: nat)
    requires 0 <= buff && n <= live
    ensures BitsOf(live, buff) == BitsOf(n, buff / Pow2(live - n)) + BitsOf(live - n, buff)
    ensures Value(BitsOf(n, buff / Pow2(live - n))) == And(buff / Pow2(live - n), Pow2(n) - 1)
  {
    BitsOfLow(n, live - n, buff);
    var x := buff / Pow2(live - n);
    BitsOfMod(n, n, x);
    BitsOfValue(n, x % Pow2(n));
    Pow2IsPowerOfTwo(n);
    AndIsMod(x, Pow2(n));
  }

  class BitReader {
    var bsBuff: int
    var bsLive: int
    var nextIn: seq<int>

    ghost predicate Valid()
      reads this
    {
      0 <= bsBuff < WORD && 0 <= bsLive <= 32 && Bytes(nextIn)
    }

    /** The bits not yet read. */
    ghost function Remaining(): (bits: seq<int>)
      requires Valid()
      reads this
    {
      BitsOf(bsLive, bsBuff) + BytesBits(nextIn)
    }

    constructor (input: seq<int>)
      requires Bytes(input)
      ensures Valid() && Remaining() == BytesBits(input)
    {
      bsBuff, bsLive, nextIn := 0, 0, input;
    }

    /** Reads `n` bits, or stops without losing any when the input runs out. */
    method GetBits(n: int) returns (ok: bool, v: int)
      requires Valid() && 1 <= n <= 24
      modifies this
      ensures Valid()
      ensures ok <==> n <= |old(Remaining())|
      ensures ok ==> v == Value(old(Remaining())[..n]) && Remaining() == old(Remaining())[n..]
      ensures !ok ==> Remaining() == old(Remaining())
    {
      hide BitsOf, BytesBits, Value, Pow2;
      while bsLive < n
        invariant Valid() && Remaining() == old(Remaining())
        decreases |nextIn|
      {
        if nextIn == [] {
          return false, 0;
        }
        ShiftInBits(bsBuff, bsLive, nextIn[0]);
        assert nextIn == [nextIn[0]] + nextIn[1..];
        BytesBitsConcat([nextIn[0]], nextIn[1..]);
        OneByte(nextIn[0]);
        assert BitsOf(bsLive, bsBuff) + (BitsOf(8, nextIn[0]) + BytesBits(nextIn[1..])) ==
            BitsOf(bsLive, bsBuff) + BitsOf(8, nextIn[0]) + BytesBits(nextIn[1..]);
        bsBuff := ShiftIn(bsBuff, nextIn[0]);
        bsLive := bsLive + 8;
        nextIn := nextIn[1..];
      }
      TakeBits(bsBuff, bsLive, n);
      v := And(bsBuff / Pow2(bsLive - n), Pow2(n) - 1);
      ghost var taken := BitsOf(n, bsBuff / Pow2(bsLive - n));
      bsLive := bsLive - n;
      ok := true;
      assert old(Remaining()) == taken + Remaining();
      assert old(Remaining())[..n] == taken && old(Remaining())[n..] == Remaining();
    }
  }

  lemma OneByte(b: int)
    ensures BytesBits([b]) == BitsOf(8, b)
  {
    BytesBitsMore([], b);
    assert [] + [b] == [b];
  }
}
