/** The header of a block. */
module BlockHeader {
  // The mapping table, the selectors and the code lengths: how they are written as bit fields and read back.

  import opened Arith
  import opened BitStrings
  import opened Fields
  import opened Sequences

  /** A value and where the bits after it begin; or bits that mean nothing; or too few bits; or more values than the
      array for them has places. */
  datatype Parse<T> = Got(value: T, next: nat) | Malformed | Missing | Overrun

  /** The places for selectors, 2 more than groups of 50 symbols in a block of 900000. */
  const MAX_SELECTORS := 18_002

  // ---------------------------------------------------------------- pieces of a bit string

  /** The bits at `pos` begin with `piece`. */
  ghost predicate At(bits: seq<int>, pos: int, piece: seq<int>) {
    0 <= pos <= |bits| && piece <= bits[pos..]
  }

  lemma AtSplit(bits: seq<int>, pos: int, a: seq<int>, b: seq<int>)
    ensures At(bits, pos, a + b) <==> At(bits, pos, a) && At(bits, pos + |a|, b)
  {
    var n := |a|;
    if At(bits, pos, a + b) {
      assert (a + b)[..n] == a && (a + b)[n..] == b;
      assert bits[pos..][..n] == a && bits[pos..][n..] == bits[pos + n..];
    }
    if At(bits, pos, a) && At(bits, pos + n, b) {
      assert bits[pos..] == bits[pos..][..n] + bits[pos + n..];
    }
  }

  lemma AtSlice(bits: seq<int>, pos: int, piece: seq<int>)
    requires At(bits, pos, piece)
    ensures pos + |piece| <= |bits| && bits[pos..pos + |piece|] == piece
    ensures forall i | 0 <= i < |piece| :: bits[pos + i] == piece[i]
  {
    forall i | 0 <= i < |piece|
      ensures bits[pos + i] == piece[i]
    {
      assert bits[pos..][i] == piece[i];
    }
  }

  lemma {:induction false} FlattenAt(bits: seq<int>, pos: int, pieces: seq<seq<int>>, i: nat)
    requires At(bits, pos, Flatten(pieces)) && i < |pieces|
    ensures At(bits, pos + |Flatten(pieces[..i])|, pieces[i])
    ensures |Flatten(pieces[..i + 1])| == |Flatten(pieces[..i])| + |pieces[i]|
    decreases |pieces|
  {
    hide At;
    var n := |pieces| - 1;
    var front := pieces[..n];
    assert pieces == front + [pieces[n]];
    FlattenMore(front, pieces[n]);
    AtSplit(bits, pos, Flatten(front), pieces[n]);
    if i < n {
      FlattenAt(bits, pos, front, i);
      assert front[..i] == pieces[..i] && front[..i + 1] == pieces[..i + 1];
    } else {
      assert pieces[..i + 1] == pieces;
    }
  }

  // ---------------------------------------------------------------- numbers and flags

  /** Reads a number of `n` bits. */
  method ReadNumber(bits: seq<int>, pos: nat, n: nat, ghost want: int) returns (r: Parse<int>)
    requires pos <= |bits| && Bits(bits)
    ensures r == Missing <==> pos + n > |bits|
    ensures r == Missing || (r.Got? && r.next == pos + n && 0 <= r.value < Pow2(n))
    ensures r.Got? ==> At(bits, pos, BitsOf(n, r.value))
    ensures 0 <= want < Pow2(n) && At(bits, pos, BitsOf(n, want)) ==> r == Got(want, pos + n)
  {
    hide Value, BitsOf, Pow2;
    if pos + n > |bits| {
      if At(bits, pos, BitsOf(n, want)) {
        AtSlice(bits, pos, BitsOf(n, want));
      }
      return Missing;
    }
    var v := 0;
    NoValue();
    assert bits[pos..pos] == [];
    for i := 0 to n
      invariant v == Value(bits[pos..pos + i])
    {
      ValueStep(bits[pos..pos + i + 1], i);
      assert bits[pos..pos + i + 1][..i] == bits[pos..pos + i];
      assert bits[pos..pos + i + 1][..i + 1] == bits[pos..pos + i + 1];
      v := 2 * v + bits[pos + i];
    }
    SliceBits(bits, pos, n);
    ValueRange(bits[pos..pos + n]);
    NumberAt(bits, pos, n, v);
    if 0 <= want < Pow2(n) && At(bits, pos, BitsOf(n, want)) {
      AtSlice(bits, pos, BitsOf(n, want));
      BitsOfValue(n, want);
    }
    return Got(v, pos + n);
  }

  lemma NumberAt(bits: seq<int>, pos: nat, n: nat, v: int)
    requires Bits(bits) && pos + n <= |bits| && v == Value(bits[pos..pos + n]) && 0 <= v < Pow2(n)
    ensures At(bits, pos, BitsOf(n, v))
  {
    hide BitsOf, Pow2, Value;
    SliceBits(bits, pos, n);
    BitsOfValue(n, v);
    ValueUnique(BitsOf(n, v), bits[pos..pos + n]);
    assert bits[pos..pos + n] == bits[pos..][..n];
  }

  lemma NoValue()
    ensures Value([]) == 0
  {
  }

  lemma SliceBits(bits: seq<int>, pos: nat, n: nat)
    requires Bits(bits) && pos + n <= |bits|
    ensures Bits(bits[pos..pos + n])
  {
  }

  function Flag(b: bool): int {
    if b then 1 else 0
  }

  ghost function FlagBits(xs: seq<bool>): (bits: seq<int>)
    ensures |bits| == |xs| && Bits(bits)
  {
    seq(|xs|, i requires 0 <= i < |xs| => Flag(xs[i]))
  }

  /** Writes a flag for each entry. */
  method WriteFlags(xs: seq<bool>) returns (fs: seq<Field>)
    ensures AreFields(fs) && FieldsBits(fs) == FlagBits(xs)
  {
    hide FieldsBits, AreFields;
    fs := [];
    FieldsNone();
    for i := 0 to |xs|
      invariant AreFields(fs) && FieldsBits(fs) == FlagBits(xs)[..i]
    {
      OneBitField(Flag(xs[i]));
      FieldsAppend(fs, Field(1, Flag(xs[i])));
      assert FlagBits(xs)[..i + 1] == FlagBits(xs)[..i] + [Flag(xs[i])];
      fs := fs + [Field(1, Flag(xs[i]))];
    }
    assert FlagBits(xs)[..|xs|] == FlagBits(xs);
  }

  lemma OneBitField(v: int)
    requires v == 0 || v == 1
    ensures IsField(Field(1, v)) && BitsOf(1, v) == [v]
  {
    assert BitsOf(0, v / 2) == [];
    assert Pow2(1) == 2;
  }

  /** Reads `n` flags. */
  method ReadFlags(bits: seq<int>, pos: nat, n: nat, ghost want: seq<bool>) returns (r: Parse<seq<bool>>)
    requires pos <= |bits| && Bits(bits)
    ensures r == Missing || (r.Got? && |r.value| == n && r.next == pos + n <= |bits|)
    ensures r.Got? ==> At(bits, pos, FlagBits(r.value))
    ensures |want| == n && At(bits, pos, FlagBits(want)) ==> r == Got(want, pos + n)
  {
    if pos + n > |bits| {
      return Missing;
    }
    var xs := [];
    for i := 0 to n
      invariant |xs| == i && forall k | 0 <= k < i :: xs[k] <==> bits[pos + k] == 1
    {
      xs := xs + [bits[pos + i] == 1];
    }
    assert FlagBits(xs) == bits[pos..pos + n] == bits[pos..][..n];
    if |want| == n && At(bits, pos, FlagBits(want)) {
      AtSlice(bits, pos, FlagBits(want));
      assert xs == want;
    }
    return Got(xs, pos + n);
  }

  // ---------------------------------------------------------------- the mapping table

  function Row(x: seq<bool>, i: nat): (r: seq<bool>)
    requires |x| == 256 && i < 16
    ensures |r| == 16
  {
    x[16 * i..16 * i + 16]
  }

  /** Which rows of 16 bytes have a byte in use. */
  function RowFlags(x: seq<bool>): (r: seq<bool>)
    requires |x| == 256
    ensures |r| == 16
  {
    seq(16, i requires 0 <= i < 16 => true in Row(x, i))
  }

  /** The flags of the rows that are marked. */
  ghost function RowBits(flags: seq<bool>, x: seq<bool>): (r: seq<seq<int>>)
    requires |flags| == 16 && |x| == 256
    ensures |r| == 16
  {
    seq(16, i requires 0 <= i < 16 => if flags[i] then FlagBits(Row(x, i)) else [])
  }

  ghost function MapBits(x: seq<bool>): seq<int>
    requires |x| == 256
  {
    FlagBits(RowFlags(x)) + Flatten(RowBits(RowFlags(x), x))
  }

  ghost predicate Unused(row: seq<bool>) {
    row == seq(16, _ => false)
  }

  /** The bits from `pos` to `next` are a mapping table, perhaps with marked rows that have no byte in use. */
  ghost predicate MapAt(bits: seq<int>, pos: int, flags: seq<bool>, x: seq<bool>, next: int) {
    && |flags| == 16 && |x| == 256 && (forall i | 0 <= i < 16 && !flags[i] :: Unused(Row(x, i)))
    && At(bits, pos, FlagBits(flags)) && At(bits, pos + 16, Flatten(RowBits(flags, x)))
    && next == pos + 16 + |Flatten(RowBits(flags, x))|
  }

  lemma {:induction false} FlattenedBits(pieces: seq<seq<int>>)
    requires forall i | 0 <= i < |pieces| :: Bits(pieces[i])
    ensures Bits(Flatten(pieces))
  {
    if pieces != [] {
      FlattenedBits(pieces[..|pieces| - 1]);
    }
  }

  lemma MapIsBits(x: seq<bool>)
    requires |x| == 256
    ensures Bits(MapBits(x))
  {
    FlattenedBits(RowBits(RowFlags(x), x));
  }

  lemma MapBitsAt(bits: seq<int>, pos: int, x: seq<bool>)
    requires |x| == 256 && At(bits, pos, MapBits(x))
    ensures MapAt(bits, pos, RowFlags(x), x, pos + |MapBits(x)|)
  {
    hide At, FlagBits, Flatten, RowFlags;
    AtSplit(bits, pos, FlagBits(RowFlags(x)), Flatten(RowBits(RowFlags(x), x)));
    forall i | 0 <= i < 16 && !RowFlags(x)[i]
      ensures Unused(Row(x, i))
    {
      UnusedRow(x, i);
    }
  }

  /** Marks every row that has a byte in use. */
  method MarkRows(inUse: seq<bool>) returns (inUse16: seq<bool>)
    requires |inUse| == 256
    ensures inUse16 == RowFlags(inUse)
  {
    inUse16 := [];
    for i := 0 to 16
      invariant inUse16 == RowFlags(inUse)[..i]
    {
      var any := false;
      for j := 0 to 16
        invariant any <==> true in Row(inUse, i)[..j]
      {
        assert Row(inUse, i)[..j + 1] == Row(inUse, i)[..j] + [inUse[16 * i + j]];
        if inUse[16 * i + j] { any := true; }
      }
      assert Row(inUse, i)[..16] == Row(inUse, i);
      inUse16 := inUse16 + [any];
    }
  }

  method WriteMapping(inUse: seq<bool>) returns (fs: seq<Field>)
    requires |inUse| == 256
    ensures AreFields(fs) && FieldsBits(fs) == MapBits(inUse)
  {
    hide FieldsBits, AreFields, FlagBits, Flatten;
    var inUse16 := MarkRows(inUse);
    fs := WriteFlags(inUse16);
    ghost var rows := RowBits(RowFlags(inUse), inUse);
    NoPieces(FieldsBits(fs), rows);
    for i := 0 to 16
      invariant AreFields(fs) && FieldsBits(fs) == FlagBits(RowFlags(inUse)) + Flatten(rows[..i])
    {
      var gs := [];
      FieldsNone();
      if inUse16[i] {
        gs := WriteFlags(Row(inUse, i));
      }
      FieldsConcat(fs, gs);
      NextPiece(FlagBits(RowFlags(inUse)), rows, i);
      fs := fs + gs;
    }
    assert rows[..16] == rows;
  }

  lemma NoPieces(start: seq<int>, pieces: seq<seq<int>>)
    ensures start == start + Flatten(pieces[..0])
  {
    assert pieces[..0] == [];
  }

  lemma NextPiece(start: seq<int>, pieces: seq<seq<int>>, i: nat)
    requires i < |pieces|
    ensures start + Flatten(pieces[..i]) + pieces[i] == start + Flatten(pieces[..i + 1])
  {
    assert pieces[..i + 1] == pieces[..i] + [pieces[i]];
    FlattenMore(pieces[..i], pieces[i]);
  }

  /** Reads a mapping table: exactly what the bits hold, with whatever rows are marked. */
  method ReadMapping(bits: seq<int>, pos: nat) returns (r: Parse<seq<bool>>, ghost marked: seq<bool>)
    requires pos <= |bits| && Bits(bits)
    ensures r == Missing || (r.Got? && MapAt(bits, pos, marked, r.value, r.next) && pos <= r.next <= |bits|)
    ensures forall flags, x, next | MapAt(bits, pos, flags, x, next) :: r == Got(x, next)
  {
    hide FlagBits, At, Flatten, Unused, Row, RowBits, RowsAre;
    ghost var good := exists flags, x, next :: MapAt(bits, pos, flags, x, next);
    ghost var flags: seq<bool>, want: seq<bool>, end: int := [], [], 0;
    if good {
      flags, want, end :| MapAt(bits, pos, flags, want, end);
    }
    var f := ReadFlags(bits, pos, 16, flags);
    if f.Missing? {
      return Missing, [];
    }
    marked := f.value;
    ghost var rows := if good then RowBits(flags, want) else [];
    var inUse, p := [], f.next;
    ghost var pieces: seq<seq<int>> := [];
    NoPiecesAt(bits, p);
    NoRows(marked);
    for i := 0 to 16
      invariant |pieces| == i && |inUse| == 16 * i && RowsAre(marked, inUse, pieces)
      invariant At(bits, pos + 16, Flatten(pieces)) && p == pos + 16 + |Flatten(pieces)| <= |bits|
      invariant good ==> inUse == want[..16 * i] && pieces == rows[..i]
    {
      ghost var row := if good then Row(want, i) else [];
      if good {
        FlattenAt(bits, pos + 16, rows, i);
        RowHere(flags, want, i);
      }
      var next, q := seq(16, _ => false), p;
      NoPiecesAt(bits, p);
      UnusedRows(row, next);
      if f.value[i] {
        var g := ReadFlags(bits, p, 16, row);
        if g.Missing? {
          return Missing, [];
        }
        next, q := g.value, g.next;
      }
      ghost var piece := if marked[i] then FlagBits(next) else [];
      MorePieces(bits, pos + 16, pieces, piece, p);
      MoreRows(marked, inUse, pieces, next, piece);
      inUse, p, pieces := inUse + next, q, pieces + [piece];
    }
    AllRows(marked, inUse, pieces);
    if good {
      assert rows[..16] == rows && want[..256] == want;
    }
    r := Got(inUse, p);
    forall other, x, next | MapAt(bits, pos, other, x, next)
      ensures x == inUse && next == p
    {
      MapUnique(bits, pos, marked, inUse, p, other, x, next);
    }
  }

  lemma FlagsUnique(bits: seq<int>, pos: int, x: seq<bool>, y: seq<bool>)
    requires |x| == |y| && At(bits, pos, FlagBits(x)) && At(bits, pos, FlagBits(y))
    ensures x == y
  {
    AtSlice(bits, pos, FlagBits(x));
    AtSlice(bits, pos, FlagBits(y));
    forall i | 0 <= i < |x|
      ensures x[i] == y[i]
    {
      assert FlagBits(x)[i] == FlagBits(y)[i];
    }
  }

  lemma RowUnique(bits: seq<int>, pos: int, flags: seq<bool>, x: seq<bool>, y: seq<bool>, i: nat)
    requires |flags| == 16 && |x| == |y| == 256 && i < 16
    requires !flags[i] ==> Unused(Row(x, i)) && Unused(Row(y, i))
    requires At(bits, pos, RowBits(flags, x)[i]) && At(bits, pos, RowBits(flags, y)[i])
    ensures Row(x, i) == Row(y, i) && RowBits(flags, x)[i] == RowBits(flags, y)[i]
  {
    hide At, FlagBits;
    if flags[i] {
      FlagsUnique(bits, pos, Row(x, i), Row(y, i));
    }
  }

  /** The bits determine the mapping table. */
  lemma MapUnique(bits: seq<int>, pos: int, flags: seq<bool>, x: seq<bool>, next: int, flags': seq<bool>, x': seq<bool>,
      next': int)
    requires MapAt(bits, pos, flags, x, next) && MapAt(bits, pos, flags', x', next')
    ensures flags == flags' && x == x' && next == next'
  {
    hide At, FlagBits, Flatten, RowBits, Unused;
    FlagsUnique(bits, pos, flags, flags');
    var rows, rows' := RowBits(flags, x), RowBits(flags, x');
    for i := 0 to 16
      invariant rows[..i] == rows'[..i] && x[..16 * i] == x'[..16 * i]
    {
      FlattenAt(bits, pos + 16, rows, i);
      FlattenAt(bits, pos + 16, rows', i);
      RowUnique(bits, pos + 16 + |Flatten(rows[..i])|, flags, x, x', i);
      RowHere(flags, x, i);
      RowHere(flags, x', i);
    }
    assert x[..256] == x && x'[..256] == x' && rows[..16] == rows && rows'[..16] == rows';
  }

  /** A row as the mapping table holds it. */
  ghost predicate RowIs(marked: bool, row: seq<bool>, piece: seq<int>) {
    if marked then piece == FlagBits(row) else piece == [] && Unused(row)
  }

  ghost predicate RowsAre(marked: seq<bool>, x: seq<bool>, pieces: seq<seq<int>>) {
    && |x| == 16 * |pieces| && |pieces| <= |marked|
    && forall k | 0 <= k < |pieces| :: RowIs(marked[k], x[16 * k..16 * k + 16], pieces[k])
  }

  lemma NoRows(marked: seq<bool>)
    ensures RowsAre(marked, [], [])
  {
  }

  lemma MoreRows(marked: seq<bool>, x: seq<bool>, pieces: seq<seq<int>>, row: seq<bool>, piece: seq<int>)
    requires RowsAre(marked, x, pieces) && |row| == 16 && |pieces| < |marked| && RowIs(marked[|pieces|], row, piece)
    ensures RowsAre(marked, x + row, pieces + [piece])
  {
    hide RowIs;
    var y, i := x + row, |pieces|;
    assert y[16 * i..16 * i + 16] == row;
    forall k | 0 <= k < i
      ensures y[16 * k..16 * k + 16] == x[16 * k..16 * k + 16]
    {
    }
  }

  lemma AllRows(marked: seq<bool>, x: seq<bool>, pieces: seq<seq<int>>)
    requires RowsAre(marked, x, pieces) && |pieces| == |marked| == 16
    ensures pieces == RowBits(marked, x) && forall i | 0 <= i < 16 && !marked[i] :: Unused(Row(x, i))
  {
    hide FlagBits, Unused;
    forall i | 0 <= i < 16
      ensures RowIs(marked[i], Row(x, i), pieces[i])
    {
    }
  }

  lemma RowHere(flags: seq<bool>, x: seq<bool>, i: nat)
    requires |flags| == 16 && |x| == 256 && i < 16
    ensures x[..16 * (i + 1)] == x[..16 * i] + Row(x, i)
    ensures RowBits(flags, x)[i] == if flags[i] then FlagBits(Row(x, i)) else []
    ensures RowBits(flags, x)[..i + 1] == RowBits(flags, x)[..i] + [RowBits(flags, x)[i]]
  {
  }

  lemma UnusedRows(row: seq<bool>, none: seq<bool>)
    requires |none| == 16 && forall i | 0 <= i < 16 :: !none[i]
    ensures Unused(none) && (Unused(row) ==> row == none)
  {
  }

  lemma NoPiecesAt(bits: seq<int>, pos: int)
    requires 0 <= pos <= |bits|
    ensures At(bits, pos, []) && At(bits, pos, Flatten([])) && |Flatten<int>([])| == 0
  {
  }

  lemma MorePieces(bits: seq<int>, pos: int, pieces: seq<seq<int>>, piece: seq<int>, p: int)
    requires At(bits, pos, Flatten(pieces)) && p == pos + |Flatten(pieces)| && At(bits, p, piece)
    ensures At(bits, pos, Flatten(pieces + [piece])) && |Flatten(pieces + [piece])| == |Flatten(pieces)| + |piece|
  {
    hide At;
    FlattenMore(pieces, piece);
    AtSplit(bits, pos, Flatten(pieces), piece);
  }

  lemma UnusedRow(x: seq<bool>, i: nat)
    requires |x| == 256 && i < 16 && !RowFlags(x)[i]
    ensures Unused(Row(x, i))
  {
    var row := Row(x, i);
    forall k | 0 <= k < 16
      ensures !row[k]
    {
      assert row[k] ==> true in row;
    }
  }

  // ---------------------------------------------------------------- the selectors

  /** The tables 0..n in their first order. */
  ghost function Start(n: nat): (r: seq<int>)
    ensures |r| == n
  {
    seq(n, i => i)
  }

  /** Where `v` is in the list. */
  ghost function Place(list: seq<int>, v: int): (r: nat)
    ensures r <= |list| && (v in list ==> r < |list| && list[r] == v) && v !in list[..r]
  {
    if list == [] || list[0] == v then 0
    else
      var r := 1 + Place(list[1..], v);
      assert list == [list[0]] + list[1..];
      assert list[..r] == [list[0]] + list[1..][..r - 1];
      r
  }

  ghost function ToFront(list: seq<int>, r: nat): (l: seq<int>)
    requires r < |list|
    ensures |l| == |list| && multiset(l) == multiset(list)
  {
    assert list == list[..r] + [list[r]] + list[r + 1..];
    [list[r]] + list[..r] + list[r + 1..]
  }

  /** The order of the tables after the first `k` selectors. */
  ghost function Order(selectors: seq<int>, n: nat, k: nat): (list: seq<int>)
    requires k <= |selectors| && forall i | 0 <= i < |selectors| :: 0 <= selectors[i] < n
    ensures |list| == n && multiset(list) == multiset(Start(n))
  {
    if k == 0 then Start(n)
    else
      var list := Order(selectors, n, k - 1);
      AllThere(list, n, selectors[k - 1]);
      ToFront(list, Place(list, selectors[k - 1]))
  }

  lemma AllThere(list: seq<int>, n: nat, v: int)
    requires multiset(list) == multiset(Start(n)) && 0 <= v < n
    ensures v in list
  {
    assert Start(n)[v] == v;
    assert v in multiset(Start(n));
    assert v in multiset(list);
  }

  ghost predicate Selectors(selectors: seq<int>, n: int) {
    2 <= n <= 6 && 1 <= |selectors| <= MAX_SELECTORS && forall i | 0 <= i < |selectors| :: 0 <= selectors[i] < n
  }

  ghost function RankAt(selectors: seq<int>, n: nat, k: nat): (r: nat)
    requires k < |selectors| && forall i | 0 <= i < |selectors| :: 0 <= selectors[i] < n
    ensures r < n && Order(selectors, n, k)[r] == selectors[k]
    ensures Order(selectors, n, k + 1) == ToFront(Order(selectors, n, k), r)
  {
    AllThere(Order(selectors, n, k), n, selectors[k]);
    Place(Order(selectors, n, k), selectors[k])
  }

  ghost function Unary(j: nat): (bits: seq<int>)
    ensures |bits| == j + 1
  {
    Repeat(1, j) + [0]
  }

  ghost function UnaryBits(selectors: seq<int>, n: nat): (r: seq<seq<int>>)
    requires forall i | 0 <= i < |selectors| :: 0 <= selectors[i] < n
    ensures |r| == |selectors|
  {
    seq(|selectors|, k requires 0 <= k < |selectors| => Unary(RankAt(selectors, n, k)))
  }

  ghost function SelectorBits(selectors: seq<int>, n: nat): seq<int>
    requires Selectors(selectors, n)
  {
    BitsOf(3, n) + BitsOf(15, |selectors|) + Flatten(UnaryBits(selectors, n))
  }

  /** Finds a selector in the list and moves it to the front. */
  method FindSelector(pos: array<int>, n: nat, v: int) returns (j: nat)
    requires n == pos.Length && v in pos[..]
    modifies pos
    ensures j == Place(old(pos[..]), v) < n && pos[..] == ToFront(old(pos[..]), j)
  {
    hide Place, ToFront;
    ghost var list := pos[..];
    j := 0;
    var tmp := pos[0];
    while v != tmp
      invariant 0 <= j < n && tmp == list[j] && v !in list[..j]
      invariant pos[0] == list[0] && (forall k | 1 <= k <= j :: pos[k] == list[k - 1])
          && forall k | j < k < n :: pos[k] == list[k]
      decreases n - j
    {
      assert list[..j + 1] == list[..j] + [list[j]] && list[..n] == list;
      j := j + 1;
      var tmp2 := tmp;
      tmp := pos[j];
      pos[j] := tmp2;
    }
    pos[0] := tmp;
    PlaceUnique(list, v, j);
    MovedToFront(list, pos[..], j);
  }

  lemma MovedToFront(list: seq<int>, now: seq<int>, j: nat)
    requires j < |list| == |now| && now[0] == list[j]
    requires (forall k | 1 <= k <= j :: now[k] == list[k - 1]) && forall k | j < k < |list| :: now[k] == list[k]
    ensures now == ToFront(list, j)
  {
  }

  lemma {:induction false} PlaceUnique(list: seq<int>, v: int, j: nat)
    requires j < |list| && list[j] == v && v !in list[..j]
    ensures Place(list, v) == j
  {
    if j > 0 {
      assert list[..j][0] == list[0];
      assert list[..j] == [list[0]] + list[1..][..j - 1];
      PlaceUnique(list[1..], v, j - 1);
    }
  }

  /** The place of each selector in the list of tables, most recently used first. */
  method SelectorMtf(selectors: seq<int>, n: nat) returns (ranks: seq<int>)
    requires Selectors(selectors, n)
    ensures |ranks| == |selectors| && forall k | 0 <= k < |ranks| :: ranks[k] == RankAt(selectors, n, k)
  {
    hide Order, Place, ToFront;
    var pos := new int[n](i => i);
    OrderStart(selectors, n);
    assert pos[..] == Start(n);
    ranks := [];
    for i := 0 to |selectors|
      invariant |ranks| == i && (forall k | 0 <= k < i :: ranks[k] == RankAt(selectors, n, k))
          && pos[..] == Order(selectors, n, i)
    {
      AllThere(pos[..], n, selectors[i]);
      ghost var r := RankAt(selectors, n, i);
      var j := FindSelector(pos, n, selectors[i]);
      ranks := ranks + [j];
    }
  }

  lemma OrderStart(selectors: seq<int>, n: nat)
    requires forall i | 0 <= i < |selectors| :: 0 <= selectors[i] < n
    ensures Order(selectors, n, 0) == Start(n)
  {
  }

  method WriteUnary(j: nat) returns (fs: seq<Field>)
    ensures AreFields(fs) && FieldsBits(fs) == Unary(j)
  {
    hide FieldsBits, AreFields;
    fs := [];
    FieldsNone();
    OneBitField(0);
    OneBitField(1);
    for i := 0 to j
      invariant AreFields(fs) && FieldsBits(fs) == Repeat(1, i)
    {
      FieldsAppend(fs, Field(1, 1));
      assert Repeat(1, i + 1) == Repeat(1, i) + [1];
      fs := fs + [Field(1, 1)];
    }
    FieldsAppend(fs, Field(1, 0));
    fs := fs + [Field(1, 0)];
  }

  method WriteSelectors(selectors: seq<int>, n: nat) returns (fs: seq<Field>)
    requires Selectors(selectors, n)
    ensures AreFields(fs) && FieldsBits(fs) == SelectorBits(selectors, n)
  {
    hide FieldsBits, AreFields, Unary, Flatten, BitsOf, RankAt, Order;
    var ranks := SelectorMtf(selectors, n);
    fs := [Field(3, n), Field(15, |selectors|)];
    SelectorSizes(n, |selectors|);
    ghost var start, pieces := BitsOf(3, n) + BitsOf(15, |selectors|), UnaryBits(selectors, n);
    NoPieces(start, pieces);
    for i := 0 to |selectors|
      invariant AreFields(fs) && FieldsBits(fs) == start + Flatten(pieces[..i])
    {
      var gs := WriteUnary(ranks[i]);
      FieldsConcat(fs, gs);
      NextPiece(start, pieces, i);
      fs := fs + gs;
    }
    assert pieces[..|selectors|] == pieces;
  }

  lemma SelectorSizes(n: nat, count: nat)
    requires n <= 6 && count < 32768
    ensures AreFields([Field(3, n), Field(15, count)])
    ensures FieldsBits([Field(3, n), Field(15, count)]) == BitsOf(3, n) + BitsOf(15, count)
  {
    hide BitsOf, FieldsBits, Pow2;
    SmallPowers();
    FieldsNone();
    FieldsAppend([], Field(3, n));
    assert [] + [Field(3, n)] == [Field(3, n)] && [] + BitsOf(3, n) == BitsOf(3, n);
    FieldsAppend([Field(3, n)], Field(15, count));
    assert [Field(3, n)] + [Field(15, count)] == [Field(3, n), Field(15, count)];
  }

  lemma SmallPowers()
    ensures Pow2(2) == 4 && Pow2(3) == 8 && Pow2(5) == 32 && Pow2(15) == 32768 && Pow2(24) == 0x100_0000
  {
    assert Pow2(7) == 128 && Pow2(8) == 256;
    Pow2Add(8, 7);
    Pow2Add(8, 8);
    Pow2Add(16, 8);
  }

  /** Counts one bits up to the next zero bit, at most `n - 1`. */
  method ReadUnary(bits: seq<int>, pos: nat, n: nat, ghost want: nat) returns (r: Parse<nat>)
    requires pos <= |bits| && Bits(bits) && n >= 1
    ensures r.Got? ==> r.value < n && r.next == pos + r.value + 1 <= |bits| && At(bits, pos, Unary(r.value))
    ensures r != Overrun
    ensures want < n && At(bits, pos, Unary(want)) ==> r == Got(want, pos + want + 1)
  {
    ghost var good := want < n && At(bits, pos, Unary(want));
    if good {
      UnaryAt(bits, pos, want);
    }
    var j, p := 0, pos;
    while true
      invariant p == pos + j <= |bits| && j < n && (good ==> j <= want)
      invariant forall i | pos <= i < p :: bits[i] == 1
      decreases |bits| - p
    {
      if p == |bits| {
        return Missing;
      }
      p := p + 1;
      if bits[p - 1] == 0 {
        UnaryHere(bits, pos, j);
        return Got(j, p);
      }
      j := j + 1;
      if j >= n {
        return Malformed;
      }
    }
  }

  lemma UnaryHere(bits: seq<int>, pos: nat, j: nat)
    requires pos + j < |bits| && bits[pos + j] == 0 && forall i | pos <= i < pos + j :: bits[i] == 1
    ensures At(bits, pos, Unary(j))
  {
    assert bits[pos..][..j + 1] == Unary(j);
  }

  lemma UnaryAt(bits: seq<int>, pos: nat, j: nat)
    requires At(bits, pos, Unary(j))
    ensures pos + j < |bits| && bits[pos + j] == 0 && forall i | pos <= i < pos + j :: bits[i] == 1
  {
    AtSlice(bits, pos, Unary(j));
    assert Unary(j)[j] == 0;
    forall i | pos <= i < pos + j
      ensures bits[i] == 1
    {
      assert Unary(j)[i - pos] == 1;
    }
  }

  /** Undoes one step of the selectors' move-to-front coding. */
  method TakeSelector(pos: array<int>, r: nat) returns (tmp: int)
    requires r < pos.Length
    modifies pos
    ensures tmp == old(pos[..])[r] && pos[..] == ToFront(old(pos[..]), r)
  {
    ghost var list := pos[..];
    tmp := pos[r];
    var v := r;
    while v > 0
      invariant 0 <= v <= r && (forall k | 0 <= k <= v :: pos[k] == list[k])
      invariant (forall k | v < k <= r :: pos[k] == list[k - 1]) && forall k | r < k < pos.Length :: pos[k] == list[k]
    {
      pos[v] := pos[v - 1];
      v := v - 1;
    }
    pos[0] := tmp;
    assert pos[..] == ToFront(list, r);
  }

  /** Reads the place of the next selector and takes it from there. */
  method NextSelector(bits: seq<int>, pos: nat, list: array<int>, ghost rank: nat) returns (r: Parse<int>)
    requires pos <= |bits| && Bits(bits) && list.Length >= 1 && multiset(list[..]) == multiset(Start(list.Length))
    modifies list
    ensures multiset(list[..]) == multiset(Start(list.Length))
    ensures r.Got? ==>
              && pos < r.next <= |bits| && r.next - pos - 1 < list.Length && At(bits, pos, Unary(r.next - pos - 1))
              && r.value == old(list[..])[r.next - pos - 1] && list[..] == ToFront(old(list[..]), r.next - pos - 1)
    ensures r != Overrun
    ensures rank < list.Length && At(bits, pos, Unary(rank)) ==> r == Got(old(list[..])[rank], pos + rank + 1)
  {
    hide At, Unary;
    var g := ReadUnary(bits, pos, list.Length, rank);
    if !g.Got? {
      return if g.Missing? then Missing else Malformed;
    }
    InRange(list[..], list.Length, g.value);
    var tmp := TakeSelector(list, g.value);
    return Got(tmp, g.next);
  }

  /** The bits at `pos` are the ranks of these selectors. */
  ghost predicate RanksAt(bits: seq<int>, pos: int, n: nat, selectors: seq<int>) {
    (forall i | 0 <= i < |selectors| :: 0 <= selectors[i] < n) && At(bits, pos, Flatten(UnaryBits(selectors, n)))
  }

  lemma RankHere(bits: seq<int>, pos: int, n: nat, selectors: seq<int>, i: nat)
    requires RanksAt(bits, pos, n, selectors) && i < |selectors|
    ensures var pieces := UnaryBits(selectors, n);
            && At(bits, pos + |Flatten(pieces[..i])|, Unary(RankAt(selectors, n, i)))
            && |Flatten(pieces[..i + 1])| == |Flatten(pieces[..i])| + RankAt(selectors, n, i) + 1
  {
    hide At, Flatten, Order;
    FlattenAt(bits, pos, UnaryBits(selectors, n), i);
  }

  lemma NoRanks(bits: seq<int>, pos: int, n: nat)
    requires 0 <= pos <= |bits|
    ensures RanksAt(bits, pos, n, []) && |Flatten(UnaryBits([], n))| == 0 && Order([], n, 0) == Start(n)
  {
  }

  lemma {:induction false} OrderPrefix(want: seq<int>, n: nat, i: nat, k: nat)
    requires k <= i <= |want| && forall x | 0 <= x < |want| :: 0 <= want[x] < n
    ensures Order(want[..i], n, k) == Order(want, n, k)
  {
    hide ToFront, Place;
    if k > 0 {
      OrderPrefix(want, n, i, k - 1);
    }
  }

  /** A list of all tables has each of them in one place. */
  lemma PlaceIs(list: seq<int>, n: nat, k: nat)
    requires multiset(list) == multiset(Start(n)) && k < |list|
    ensures Place(list, list[k]) == k
  {
    var v := list[k];
    StartOnce(n, v);
    forall i | 0 <= i < k
      ensures list[i] != v
    {
      if list[i] == v {
        Twice(list, i, k);
      }
    }
    PlaceUnique(list, v, k);
  }

  lemma Twice(list: seq<int>, i: nat, k: nat)
    requires i < k < |list| && list[i] == list[k]
    ensures multiset(list)[list[k]] >= 2
  {
    assert list == list[..i] + [list[k]] + list[i + 1..k] + [list[k]] + list[k + 1..];
  }

  lemma {:induction false} StartOnce(n: nat, v: int)
    ensures multiset(Start(n))[v] <= 1
  {
    if n > 0 {
      StartOnce(n - 1, v);
      assert Start(n) == Start(n - 1) + [n - 1];
      if v == n - 1 {
        assert v !in Start(n - 1);
      }
    }
  }

  /** One more rank is read. */
  lemma RanksMore(bits: seq<int>, pos: int, n: nat, selectors: seq<int>, k: nat)
    requires RanksAt(bits, pos, n, selectors) && k < n
    requires At(bits, pos + |Flatten(UnaryBits(selectors, n))|, Unary(k))
    ensures var list := Order(selectors, n, |selectors|);
            && 0 <= list[k] < n
            && var more := selectors + [list[k]];
               && RanksAt(bits, pos, n, more) && Order(more, n, |more|) == ToFront(list, k)
               && |Flatten(UnaryBits(more, n))| == |Flatten(UnaryBits(selectors, n))| + k + 1
  {
    hide At, Flatten, Unary, ToFront, Order, Place;
    var m := |selectors|;
    var list := Order(selectors, n, m);
    InRange(list, n, k);
    var more := selectors + [list[k]];
    PlaceIs(list, n, k);
    assert more[..m] == selectors;
    OrderPrefix(more, n, m, m);
    var was, now := UnaryBits(selectors, n), UnaryBits(more, n);
    forall i | 0 <= i < m
      ensures now[i] == was[i]
    {
      OrderPrefix(more, n, m, i);
    }
    assert RankAt(more, n, m) == k;
    assert now == was + [Unary(k)];
    MorePieces(bits, pos, was, Unary(k), pos + |Flatten(was)|);
  }

  /** These selectors have been read, up to `p`, and have left the tables in this order. */
  ghost predicate Taken(bits: seq<int>, pos: int, n: nat, selectors: seq<int>, list: seq<int>, p: int) {
    && RanksAt(bits, pos, n, selectors) && p == pos + |Flatten(UnaryBits(selectors, n))| <= |bits|
    && list == Order(selectors, n, |selectors|)
  }

  lemma TakenStart(bits: seq<int>, pos: int, n: nat, list: seq<int>)
    requires 0 <= pos <= |bits| && |list| == n && forall i | 0 <= i < n :: list[i] == i
    ensures Taken(bits, pos, n, [], list, pos)
  {
    NoRanks(bits, pos, n);
    assert list == Start(n);
  }

  lemma TakenFacts(bits: seq<int>, pos: int, n: nat, selectors: seq<int>, list: seq<int>, p: int)
    requires Taken(bits, pos, n, selectors, list, p)
    ensures |list| == n && multiset(list) == multiset(Start(n)) && p <= |bits|
  {
    hide Order, UnaryBits;
  }

  lemma TakenMore(bits: seq<int>, pos: int, n: nat, selectors: seq<int>, list: seq<int>, p: int, k: nat)
    requires Taken(bits, pos, n, selectors, list, p) && k < n && At(bits, p, Unary(k)) && p + k + 1 <= |bits|
    ensures k < |list| && Taken(bits, pos, n, selectors + [list[k]], ToFront(list, k), p + k + 1)
  {
    hide Order, UnaryBits, ToFront, At, Unary, RanksAt;
    RanksMore(bits, pos, n, selectors, k);
  }

  /** What comes next when these selectors are the first of `want`. */
  lemma TakenNext(bits: seq<int>, pos: int, n: nat, selectors: seq<int>, list: seq<int>, p: int, want: seq<int>)
    returns (rank: nat)
    requires Taken(bits, pos, n, selectors, list, p) && RanksAt(bits, pos, n, want) && selectors < want
    ensures rank < n == |list| && At(bits, p, Unary(rank)) && list[rank] == want[|selectors|]
  {
    hide Order, At, Unary, Flatten, ToFront;
    var i := |selectors|;
    assert selectors == want[..i];
    rank := RankAt(want, n, i);
    RankHere(bits, pos, n, want, i);
    OrderPrefix(want, n, i, i);
    forall k | 0 <= k < i
      ensures UnaryBits(want, n)[k] == UnaryBits(selectors, n)[k]
    {
      OrderPrefix(want, n, i, k);
    }
    assert UnaryBits(want, n)[..i] == UnaryBits(selectors, n);
  }

  /** Reads the ranks of the selectors and undoes their move-to-front coding.  The source does so in two loops, and the
      first one stores a rank as soon as it is read. */
  method ReadRanks(bits: seq<int>, pos: nat, n: nat, count: nat, ghost want: seq<int>)
    returns (r: Parse<seq<int>>, ghost taken: seq<int>)
    requires pos <= |bits| && Bits(bits) && n >= 1
    ensures r.Got? ==> |r.value| == count <= MAX_SELECTORS && RanksAt(bits, pos, n, r.value)
    ensures r.Got? ==> r.next == pos + |Flatten(UnaryBits(r.value, n))| <= |bits|
    ensures |want| == count <= MAX_SELECTORS && RanksAt(bits, pos, n, want) ==> r.Got? && r.value == want
    ensures r.Overrun? ==> count > MAX_SELECTORS && |taken| == MAX_SELECTORS + 1 && RanksAt(bits, pos, n, taken)
    ensures count > MAX_SELECTORS && |want| == MAX_SELECTORS + 1 && RanksAt(bits, pos, n, want) ==> r.Overrun?
  {
    hide Taken, RanksAt, At, Unary, ToFront, Flatten, UnaryBits, Order, Start, Bits, Place, RankAt;
    ghost var good := |want| == (if count <= MAX_SELECTORS then count else MAX_SELECTORS + 1)
                      && RanksAt(bits, pos, n, want);
    var list := new int[n](i => i);
    var selectors, p := [], pos;
    TakenStart(bits, pos, n, list[..]);
    for i := 0 to count
      invariant |selectors| == i <= MAX_SELECTORS && 0 <= p && Taken(bits, pos, n, selectors, list[..], p)
      invariant good ==> selectors == want[..i]
    {
      TakenFacts(bits, pos, n, selectors, list[..], p);
      ghost var rank: nat := 0;
      if good {
        rank := TakenNext(bits, pos, n, selectors, list[..], p, want);
      }
      ghost var was := list[..];
      var g := NextSelector(bits, p, list, rank);
      if !g.Got? {
        return if g.Missing? then Missing else Malformed, [];
      }
      TakenMore(bits, pos, n, selectors, was, p, g.next - p - 1);
      selectors, p := selectors + [g.value], g.next;
      if i >= MAX_SELECTORS {
        TakenRanks(bits, pos, n, selectors, list[..], p);
        return Overrun, selectors;
      }
    }
    TakenRanks(bits, pos, n, selectors, list[..], p);
    if good {
      assert want[..count] == want;
    }
    return Got(selectors, p), [];
  }

  lemma TakenRanks(bits: seq<int>, pos: int, n: nat, selectors: seq<int>, list: seq<int>, p: int)
    requires Taken(bits, pos, n, selectors, list, p)
    ensures RanksAt(bits, pos, n, selectors) && (forall i | 0 <= i < |selectors| :: 0 <= selectors[i] < n)
    ensures p == pos + |Flatten(UnaryBits(selectors, n))| <= |bits|
  {
  }

  lemma InRange(list: seq<int>, n: nat, k: nat)
    requires multiset(list) == multiset(Start(n)) && k < |list|
    ensures 0 <= list[k] < n
  {
    assert list[k] in multiset(list);
    assert list[k] in Start(n);
  }

  /** The bits at `pos` announce more selectors than there are places, and hold enough of them to fill all places and
      one more. */
  ghost predicate Overlong(bits: seq<int>, pos: int, n: nat, count: nat, selectors: seq<int>) {
    && 2 <= n <= 6 && MAX_SELECTORS < count < 32768 && |selectors| == MAX_SELECTORS + 1
    && At(bits, pos, BitsOf(3, n)) && At(bits, pos + 3, BitsOf(15, count)) && RanksAt(bits, pos + 18, n, selectors)
  }

  ghost predicate TooManySelectors(bits: seq<int>, pos: int) {
    exists n, count, selectors :: Overlong(bits, pos, n, count, selectors)
  }

  lemma SelectorParts(bits: seq<int>, pos: int, selectors: seq<int>, n: nat)
    requires Selectors(selectors, n)
    ensures At(bits, pos, SelectorBits(selectors, n)) <==>
              && At(bits, pos, BitsOf(3, n)) && At(bits, pos + 3, BitsOf(15, |selectors|))
              && RanksAt(bits, pos + 18, n, selectors)
    ensures |SelectorBits(selectors, n)| == 18 + |Flatten(UnaryBits(selectors, n))|
  {
    hide At, BitsOf, Flatten, UnaryBits;
    AtSplit(bits, pos, BitsOf(3, n) + BitsOf(15, |selectors|), Flatten(UnaryBits(selectors, n)));
    AtSplit(bits, pos, BitsOf(3, n), BitsOf(15, |selectors|));
  }

  lemma NumberUnique(bits: seq<int>, pos: int, n: nat, v: int, w: int)
    requires 0 <= v < Pow2(n) && 0 <= w < Pow2(n) && At(bits, pos, BitsOf(n, v)) && At(bits, pos, BitsOf(n, w))
    ensures v == w
  {
    hide At, BitsOf;
    AtSlice(bits, pos, BitsOf(n, v));
    AtSlice(bits, pos, BitsOf(n, w));
    BitsOfValue(n, v);
    BitsOfValue(n, w);
  }

  lemma NotTooMany(bits: seq<int>, pos: int, selectors: seq<int>, n: nat)
    requires Selectors(selectors, n) && At(bits, pos, SelectorBits(selectors, n))
    ensures !TooManySelectors(bits, pos)
  {
    hide At, BitsOf, RanksAt, SelectorBits, Pow2;
    SelectorParts(bits, pos, selectors, n);
    SmallPowers();
    forall m: nat, count: nat, ranks
      ensures !Overlong(bits, pos, m, count, ranks)
    {
      if At(bits, pos + 3, BitsOf(15, count)) && count < 32768 {
        NumberUnique(bits, pos + 3, 15, |selectors|, count);
      }
    }
  }

  /** Reads the number of tables and the table of each group: exactly what the bits hold, unless they hold more
      selectors than there are places. */
  method ReadSelectors(bits: seq<int>, pos: nat, ghost want: seq<int>, ghost wantN: nat)
    returns (r: Parse<(int, seq<int>)>)
    requires pos <= |bits| && Bits(bits)
    ensures r.Got? ==>
              && r.value.0 >= 0 && Selectors(r.value.1, r.value.0) && At(bits, pos, SelectorBits(r.value.1, r.value.0))
              && r.next == pos + |SelectorBits(r.value.1, r.value.0)| <= |bits|
    ensures Selectors(want, wantN) && At(bits, pos, SelectorBits(want, wantN)) ==>
              r == Got((wantN, want), pos + |SelectorBits(want, wantN)|)
    ensures r.Overrun? <==> TooManySelectors(bits, pos)
  {
    hide At, Flatten, BitsOf, Pow2, RanksAt, SelectorBits, UnaryBits;
    ghost var n: nat, count: nat, ranks: seq<int> := 0, 0, [];
    SmallPowers();
    if Selectors(want, wantN) && At(bits, pos, SelectorBits(want, wantN)) {
      n, count, ranks := wantN, |want|, want;
      SelectorParts(bits, pos, want, wantN);
      NotTooMany(bits, pos, want, wantN);
    } else if TooManySelectors(bits, pos) {
      n, count, ranks :| Overlong(bits, pos, n, count, ranks);
    }
    var a := ReadNumber(bits, pos, 3, n);
    if a.Missing? {
      return Missing;
    }
    if a.value < 2 || a.value > 6 {
      return Malformed;
    }
    var b := ReadNumber(bits, a.next, 15, count);
    if b.Missing? {
      return Missing;
    }
    if b.value < 1 {
      return Malformed;
    }
    var c;
    ghost var taken;
    c, taken := ReadRanks(bits, b.next, a.value, b.value, ranks);
    match c {
      case Got(selectors, next) =>
        RanksInRange(bits, b.next, a.value, selectors);
        SelectorParts(bits, pos, selectors, a.value);
        return Got((a.value, selectors), next);
      case Malformed => return Malformed;
      case Missing => return Missing;
      case Overrun =>
        assert Overlong(bits, pos, a.value, b.value, taken);
        return Overrun;
    }
  }

  lemma RanksInRange(bits: seq<int>, pos: int, n: nat, selectors: seq<int>)
    requires RanksAt(bits, pos, n, selectors)
    ensures forall i | 0 <= i < |selectors| :: 0 <= selectors[i] < n
  {
  }

  // ---------------------------------------------------------------- the code lengths

  /** The steps from one code length to the next. */
  ghost function Delta(a: int, b: int): (bits: seq<int>)
    decreases if a < b then b - a else a - b
  {
    if a == b then [0] else if a < b then [1, 0] + Delta(a + 1, b) else [1, 1] + Delta(a - 1, b)
  }

  function Before(len: seq<int>, i: nat): int
    requires i < |len|
  {
    if i == 0 then len[0] else len[i - 1]
  }

  ghost function DeltaBits(len: seq<int>): (r: seq<seq<int>>)
    ensures |r| == |len|
  {
    seq(|len|, i requires 0 <= i < |len| => Delta(Before(len, i), len[i]))
  }

  ghost predicate CodeLengths(len: seq<int>, alphaSize: int) {
    |len| == alphaSize && alphaSize >= 1 && forall i | 0 <= i < alphaSize :: 1 <= len[i] <= 20
  }

  ghost function LengthBits(len: seq<int>): seq<int>
    requires |len| >= 1
  {
    BitsOf(5, len[0]) + Flatten(DeltaBits(len))
  }

  /** Two bits for every step up or down, and a zero. */
  method WriteDelta(a: int, b: int) returns (fs: seq<Field>)
    ensures AreFields(fs) && FieldsBits(fs) == Delta(a, b)
  {
    hide FieldsBits, AreFields, BitsOf;
    fs := [];
    FieldsNone();
    TwoBitFields();
    OneBitField(0);
    var curr := a;
    while curr < b
      invariant AreFields(fs) && FieldsBits(fs) + Delta(curr, b) == Delta(a, b)
      invariant curr <= b || curr == a
      decreases b - curr
    {
      DeltaStep(fs, Field(2, 2), 0, curr, curr + 1, b);
      fs := fs + [Field(2, 2)];
      curr := curr + 1;
    }
    while curr > b
      invariant AreFields(fs) && FieldsBits(fs) + Delta(curr, b) == Delta(a, b) && curr >= b
      decreases curr - b
    {
      DeltaStep(fs, Field(2, 3), 1, curr, curr - 1, b);
      fs := fs + [Field(2, 3)];
      curr := curr - 1;
    }
    FieldsAppend(fs, Field(1, 0));
    fs := fs + [Field(1, 0)];
  }

  lemma DeltaStep(fs: seq<Field>, f: Field, bit: int, curr: int, next: int, b: int)
    requires AreFields(fs) && IsField(f) && BitsOf(f.n, f.v) == [1, bit] && Delta(curr, b) == [1, bit] + Delta(next, b)
    ensures AreFields(fs + [f]) && FieldsBits(fs + [f]) + Delta(next, b) == FieldsBits(fs) + Delta(curr, b)
  {
    hide FieldsBits, AreFields, BitsOf, Delta;
    FieldsAppend(fs, f);
    assert FieldsBits(fs) + [1, bit] + Delta(next, b) == FieldsBits(fs) + ([1, bit] + Delta(next, b));
  }

  lemma TwoBitFields()
    ensures IsField(Field(2, 2)) && IsField(Field(2, 3)) && BitsOf(2, 2) == [1, 0] && BitsOf(2, 3) == [1, 1]
  {
    assert Pow2(1) == 2 && Pow2(2) == 4;
    assert BitsOf(0, 0) == [];
    assert BitsOf(1, 1) == BitsOf(0, 0) + [1];
  }

  method WriteLengths(len: seq<int>) returns (fs: seq<Field>)
    requires CodeLengths(len, |len|)
    ensures AreFields(fs) && FieldsBits(fs) == LengthBits(len)
  {
    hide FieldsBits, AreFields, BitsOf, Delta, Flatten;
    SmallPowers();
    FieldsNone();
    FieldsAppend([], Field(5, len[0]));
    fs := [] + [Field(5, len[0])];
    ghost var start, pieces := BitsOf(5, len[0]), DeltaBits(len);
    assert [] + start == start;
    NoPieces(start, pieces);
    for i := 0 to |len|
      invariant AreFields(fs) && FieldsBits(fs) == start + Flatten(pieces[..i])
    {
      var gs := WriteDelta(Before(len, i), len[i]);
      FieldsConcat(fs, gs);
      NextPiece(start, pieces, i);
      fs := fs + gs;
    }
    assert pieces[..|len|] == pieces;
  }

  lemma DeltaAt(bits: seq<int>, pos: int, a: int, b: int)
    requires At(bits, pos, Delta(a, b))
    ensures pos < |bits| && (bits[pos] == 0 <==> a == b) && (a == b ==> |Delta(a, b)| == 1)
    ensures a != b ==> pos + 1 < |bits| && (bits[pos + 1] == 0 <==> a < b)
    ensures a < b ==> At(bits, pos + 2, Delta(a + 1, b)) && |Delta(a, b)| == 2 + |Delta(a + 1, b)|
    ensures a > b ==> At(bits, pos + 2, Delta(a - 1, b)) && |Delta(a, b)| == 2 + |Delta(a - 1, b)|
  {
    AtSlice(bits, pos, Delta(a, b));
    if a < b {
      AtSplit(bits, pos, [1, 0], Delta(a + 1, b));
    } else if a > b {
      AtSplit(bits, pos, [1, 1], Delta(a - 1, b));
    }
  }

  /** Follows the steps to the next code length. */
  method ReadDelta(bits: seq<int>, pos: nat, start: int, ghost want: int) returns (r: Parse<int>)
    requires pos <= |bits| && Bits(bits)
    ensures r.Got? ==> 1 <= r.value <= 20 && pos <= r.next <= |bits|
    ensures 1 <= start <= 20 && 1 <= want <= 20 && At(bits, pos, Delta(start, want)) ==>
        r == Got(want, pos + |Delta(start, want)|)
  {
    hide At, Delta;
    ghost var good := 1 <= start <= 20 && 1 <= want <= 20 && At(bits, pos, Delta(start, want));
    var curr, p := start, pos;
    while true
      invariant pos <= p <= |bits|
      invariant good ==>
          1 <= curr <= 20 && At(bits, p, Delta(curr, want)) && p + |Delta(curr, want)| == pos + |Delta(start, want)|
      decreases |bits| - p
    {
      if good {
        DeltaAt(bits, p, curr, want);
      }
      if curr < 1 || curr > 20 {
        return Malformed;
      }
      if p == |bits| {
        return Missing;
      }
      if bits[p] == 0 {
        return Got(curr, p + 1);
      }
      if p + 1 == |bits| {
        return Missing;
      }
      curr := if bits[p + 1] == 0 then curr + 1 else curr - 1;
      p := p + 2;
    }
  }

  /** The bits at `pos` lead through these code lengths. */
  ghost predicate DeltasAt(bits: seq<int>, pos: int, len: seq<int>) {
    At(bits, pos, Flatten(DeltaBits(len)))
  }

  lemma DeltaHere(bits: seq<int>, pos: int, len: seq<int>, i: nat)
    requires DeltasAt(bits, pos, len) && i < |len|
    ensures var pieces := DeltaBits(len);
            && At(bits, pos + |Flatten(pieces[..i])|, Delta(Before(len, i), len[i]))
            && |Flatten(pieces[..i + 1])| == |Flatten(pieces[..i])| + |Delta(Before(len, i), len[i])|
  {
    hide At, Flatten, Delta;
    FlattenAt(bits, pos, DeltaBits(len), i);
  }

  /** Reads the code lengths of one table, starting from the first. */
  method ReadDeltas(bits: seq<int>, pos: nat, start: int, alphaSize: nat, ghost want: seq<int>)
    returns (r: Parse<seq<int>>)
    requires pos <= |bits| && Bits(bits) && alphaSize >= 1
    ensures r.Got? ==> pos <= r.next <= |bits| && CodeLengths(r.value, alphaSize)
    ensures CodeLengths(want, alphaSize) && start == want[0] && DeltasAt(bits, pos, want) ==>
              r == Got(want, pos + |Flatten(DeltaBits(want))|)
  {
    hide At, Delta, Flatten, DeltasAt, DeltaBits;
    ghost var good := CodeLengths(want, alphaSize) && start == want[0] && DeltasAt(bits, pos, want);
    if good {
      NoPieces([], DeltaBits(want));
    }
    var len, curr, p := [], start, pos;
    for i := 0 to alphaSize
      invariant |len| == i && pos <= p <= |bits| && forall k | 0 <= k < i :: 1 <= len[k] <= 20
      invariant good ==>
          len == want[..i] && (i < alphaSize ==> curr == Before(want, i))
          && p == pos + |Flatten(DeltaBits(want)[..i])|
    {
      if good {
        DeltaHere(bits, pos, want, i);
      }
      var d := ReadDelta(bits, p, curr, if good then want[i] else 0);
      if !d.Got? {
        return if d.Missing? then Missing else Malformed;
      }
      curr, p := d.value, d.next;
      len := len + [curr];
    }
    if good {
      assert DeltaBits(want)[..alphaSize] == DeltaBits(want) && want[..alphaSize] == want;
    }
    return Got(len, p);
  }

  method ReadLengths(bits: seq<int>, pos: nat, alphaSize: nat, ghost want: seq<int>) returns (r: Parse<seq<int>>)
    requires pos <= |bits| && Bits(bits) && alphaSize >= 1
    ensures r.Got? ==> pos <= r.next <= |bits| && CodeLengths(r.value, alphaSize)
    ensures CodeLengths(want, alphaSize) && At(bits, pos, LengthBits(want)) ==> r == Got(want, pos + |LengthBits(want)|)
  {
    hide At, BitsOf, Flatten, Pow2;
    ghost var good := CodeLengths(want, alphaSize) && At(bits, pos, LengthBits(want));
    SmallPowers();
    if good {
      AtSplit(bits, pos, BitsOf(5, want[0]), Flatten(DeltaBits(want)));
    }
    var a := ReadNumber(bits, pos, 5, if good then want[0] else 0);
    if a.Missing? {
      return Missing;
    }
    r := ReadDeltas(bits, a.next, a.value, alphaSize, want);
  }
}
