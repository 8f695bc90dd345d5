/** Compressed blocks. */
module BlockCodec {
  // Sorted rotations, move-to-front symbols and Huffman codes, and back.

  import opened Arith
  import opened BitStream
  import opened BitStrings
  import opened BlockHeader
  import opened Fields
  import opened HuffmanLengths
  import opened HuffmanTree
  import opened InverseBwt
  import opened MtfCode
  import opened Permutation
  import opened Sequences
  import C = CanonicalCode

  const GROUP := 50

  // ---------------------------------------------------------------- coding tables

  /** One coding table, for writing and for reading. */
  datatype Table = Table(len: seq<int>, minLen: int, maxLen: int, code: seq<int>, limit: seq<int>, base: seq<int>,
      perm: seq<int>)

  /** The table decodes the canonical code of its lengths. */
  ghost predicate Ready(tab: Table, alphaSize: int) {
    && |tab.len| == alphaSize && C.Lengths(tab.len, tab.minLen, tab.maxLen) && |tab.perm| == MAX_ALPHA
    && C.Tables(tab.limit, tab.base, tab.perm, tab.len, tab.minLen, tab.maxLen)
  }

  /** The table holds that code for writing. */
  ghost predicate HasCodes(tab: Table) {
    |tab.code| == |tab.len| && forall i | 0 <= i < |tab.len| :: tab.code[i] == C.CodeOf(tab.len, tab.minLen, i)
  }

  /** The lengths are those of a prefix code. */
  ghost predicate Prefix(tab: Table) {
    && tab.maxLen >= 0 && (forall i | 0 <= i < |tab.len| :: 0 <= tab.len[i] <= tab.maxLen)
    && KraftSum(tab.len, tab.maxLen) <= Pow2(tab.maxLen)
  }

  ghost predicate Tight(tab: Table) {
    tab.minLen in tab.len && tab.maxLen in tab.len
  }

  method Extremes(len: seq<int>) returns (minLen: int, maxLen: int)
    requires |len| > 0 && forall i | 0 <= i < |len| :: 1 <= len[i] <= 31
    ensures forall i | 0 <= i < |len| :: minLen <= len[i] <= maxLen
    ensures minLen in len && maxLen in len
  {
    minLen, maxLen := 32, 0;
    for i := 0 to |len|
      invariant forall k | 0 <= k < i :: minLen <= len[k] <= maxLen
      invariant if i == 0 then minLen == 32 && maxLen == 0 else minLen in len && maxLen in len
    {
      if len[i] > maxLen { maxLen := len[i]; }
      if len[i] < minLen { minLen := len[i]; }
    }
  }

  /** Builds a coding table from the frequencies of the symbols. */
  method MakeTable(freq: seq<nat>) returns (tab: Table)
    requires 2 <= |freq| <= MAX_ALPHA && FreqSum(freq) < 0x80_0000
    ensures Ready(tab, |freq|) && HasCodes(tab) && Tight(tab)
    ensures Prefix(tab) && KraftSum(tab.len, tab.maxLen) == Pow2(tab.maxLen)
  {
    hide KraftSum, Fib, FreqSum, Pow2;
    var n := |freq|;
    var len, code := new int[n], new int[n];
    SeventeenIsEnough(n);
    ghost var rounds := MakeCodeLengths(len, freq, 17);
    var minLen, maxLen := Extremes(len[..]);
    KraftOne(len[..], 17, maxLen);
    C.AssignCodes(code, len[..], minLen, maxLen);
    var limit, base, perm := new int[C.MAX_CODE_LEN], new int[C.MAX_CODE_LEN], new int[MAX_ALPHA];
    C.CreateDecodeTables(limit, base, perm, len[..], minLen, maxLen);
    tab := Table(len[..], minLen, maxLen, code[..], limit[..], base[..], perm[..]);
  }

  // ---------------------------------------------------------------- the symbols as bits

  /** The tables in use and the table that each group of symbols selects. */
  ghost predicate Selected(tabs: seq<Table>, selectors: seq<int>, alphaSize: int) {
    && (forall t | 0 <= t < |tabs| :: Ready(tabs[t], alphaSize))
    && forall i | 0 <= i < |selectors| :: 0 <= selectors[i] < |tabs|
  }

  ghost predicate Coverable(syms: seq<int>, selectors: seq<int>, alphaSize: int) {
    |syms| <= GROUP * |selectors| && forall i | 0 <= i < |syms| :: 0 <= syms[i] < alphaSize
  }

  ghost function TableOf(tabs: seq<Table>, selectors: seq<int>, i: int): Table
    requires 0 <= i < GROUP * |selectors| && forall k | 0 <= k < |selectors| :: 0 <= selectors[k] < |tabs|
  {
    tabs[selectors[i / GROUP]]
  }

  ghost function CodeBits(tab: Table, sym: int): (bits: seq<int>)
    requires 0 <= sym < |tab.len| && tab.len[sym] >= 0
    ensures |bits| == tab.len[sym] && Bits(bits)
  {
    BitsOf(tab.len[sym], C.CodeOf(tab.len, tab.minLen, sym))
  }

  lemma CodeFits(tab: Table, alphaSize: int, sym: int)
    requires Ready(tab, alphaSize) && Prefix(tab) && 0 <= sym < alphaSize
    ensures 1 <= tab.len[sym] <= 20 && 0 <= C.CodeOf(tab.len, tab.minLen, sym) < Pow2(tab.len[sym])
  {
    hide KraftSum, Pow2;
    C.CodeInLevel(tab.len, tab.minLen, sym);
    C.LevelFits(tab.len, tab.minLen, tab.maxLen, tab.len[sym]);
  }

  /** The codes of the first `n` symbols. */
  ghost function CodesBits(syms: seq<int>, tabs: seq<Table>, selectors: seq<int>, alphaSize: int,
      n: nat): (bits: seq<int>)
    requires Selected(tabs, selectors, alphaSize) && Coverable(syms, selectors, alphaSize) && n <= |syms|
    ensures Bits(bits)
  {
    if n == 0 then []
    else
      CodesBits(syms, tabs, selectors, alphaSize, n - 1) + CodeBits(TableOf(tabs, selectors, n - 1), syms[n - 1])
  }

  lemma CodesStep(syms: seq<int>, tabs: seq<Table>, selectors: seq<int>, alphaSize: int, i: nat)
    requires Selected(tabs, selectors, alphaSize) && Coverable(syms, selectors, alphaSize) && i < |syms|
    ensures var tab := TableOf(tabs, selectors, i);
            && Ready(tab, alphaSize) && 0 <= syms[i] < |tab.len| && tab.len[syms[i]] >= 1
            && CodesBits(syms, tabs, selectors, alphaSize, i + 1) ==
                CodesBits(syms, tabs, selectors, alphaSize, i) + CodeBits(tab, syms[i])
  {
    hide BitsOf, KraftSum, Pow2;
  }

  lemma {:induction false} CodesPrefix(syms: seq<int>, tabs: seq<Table>, selectors: seq<int>, alphaSize: int, i: nat,
      n: nat)
    requires Selected(tabs, selectors, alphaSize) && Coverable(syms, selectors, alphaSize) && i <= n <= |syms|
    ensures CodesBits(syms, tabs, selectors, alphaSize, i) <= CodesBits(syms, tabs, selectors, alphaSize, n)
  {
    hide CodesBits, CodeBits, Ready;
    if i < n {
      CodesPrefix(syms, tabs, selectors, alphaSize, i, n - 1);
      CodesStep(syms, tabs, selectors, alphaSize, n - 1);
    }
  }

  /** Writes every symbol with the table of its group. */
  method WriteCodes(syms: seq<int>, tabs: seq<Table>, selectors: seq<int>, ghost alphaSize: int)
    returns (fs: seq<Field>)
    requires Selected(tabs, selectors, alphaSize) && Coverable(syms, selectors, alphaSize)
    requires forall t | 0 <= t < |tabs| :: HasCodes(tabs[t]) && Prefix(tabs[t])
    ensures AreFields(fs) && FieldsBits(fs) == CodesBits(syms, tabs, selectors, alphaSize, |syms|)
  {
    hide FieldsBits, AreFields, BitsOf, Ready, HasCodes, Prefix, CodesBits, CodeBits;
    CodesNone(syms, tabs, selectors, alphaSize);
    FieldsNone();
    fs := [];
    var gs, selCtr := 0, 0;
    while gs < |syms|
      invariant 0 <= gs <= |syms| && selCtr >= 0 && (gs < |syms| ==> gs == GROUP * selCtr)
      invariant AreFields(fs) && FieldsBits(fs) == CodesBits(syms, tabs, selectors, alphaSize, gs)
    {
      var ge := gs + GROUP - 1;
      if ge >= |syms| { ge := |syms| - 1; }
      var i := gs;
      while i <= ge
        invariant gs <= i <= ge + 1
        invariant AreFields(fs) && FieldsBits(fs) == CodesBits(syms, tabs, selectors, alphaSize, i)
      {
        assert i / GROUP == selCtr;
        CodesStep(syms, tabs, selectors, alphaSize, i);
        var f := CodeField(tabs[selectors[selCtr]], syms[i], alphaSize);
        FieldsAppend(fs, f);
        fs := fs + [f];
        i := i + 1;
      }
      gs := ge + 1;
      selCtr := selCtr + 1;
    }
  }

  lemma CodesNone(syms: seq<int>, tabs: seq<Table>, selectors: seq<int>, alphaSize: int)
    requires Selected(tabs, selectors, alphaSize) && Coverable(syms, selectors, alphaSize)
    ensures CodesBits(syms, tabs, selectors, alphaSize, 0) == []
  {
  }

  method CodeField(tab: Table, sym: int, ghost alphaSize: int) returns (f: Field)
    requires Ready(tab, alphaSize) && HasCodes(tab) && Prefix(tab) && 0 <= sym < alphaSize
    ensures 0 <= sym < |tab.len| && tab.len[sym] >= 0
    ensures IsField(f) && BitsOf(f.n, f.v) == CodeBits(tab, sym)
  {
    hide BitsOf, KraftSum, Pow2;
    CodeFits(tab, alphaSize, sym);
    f := Field(tab.len[sym], tab.code[sym]);
  }

  // ---------------------------------------------------------------- reading them back

  /** The bits begin with the codes of `syms`, by prefix codes, and `syms` ends with the end-of-block symbol and has it
      nowhere else. */
  ghost predicate Encodes(bits: seq<int>, syms: seq<int>, tabs: seq<Table>, selectors: seq<int>, alphaSize: int)
    requires Selected(tabs, selectors, alphaSize)
  {
    && Coverable(syms, selectors, alphaSize) && |syms| > 0 && (forall t | 0 <= t < |tabs| :: Prefix(tabs[t]))
    && (forall i | 0 <= i < |syms| :: syms[i] == alphaSize - 1 <==> i == |syms| - 1)
    && CodesBits(syms, tabs, selectors, alphaSize, |syms|) <= bits
  }

  /** How far reading has come, for any `syms` that the bits encode. */
  ghost predicate ReadSoFar(bits: seq<int>, syms: seq<int>, tabs: seq<Table>, selectors: seq<int>, alphaSize: int,
      got: seq<int>, pos: int)
    requires Selected(tabs, selectors, alphaSize) && Coverable(syms, selectors, alphaSize)
  {
    got <= syms && |got| < |syms| && pos == |CodesBits(syms, tabs, selectors, alphaSize, |got|)|
  }

  /** The next code is that of the next symbol. */
  lemma NextCode(bits: seq<int>, syms: seq<int>, tabs: seq<Table>, selectors: seq<int>, alphaSize: int, i: int,
      pos: int)
    requires Selected(tabs, selectors, alphaSize) && Encodes(bits, syms, tabs, selectors, alphaSize) && 0 <= i < |syms|
    requires pos == |CodesBits(syms, tabs, selectors, alphaSize, i)|
    ensures pos <= |bits|
    ensures var tab := TableOf(tabs, selectors, i);
            && Ready(tab, alphaSize) && 0 <= syms[i] < |tab.len|
            && C.BeginsWith(bits[pos..], tab.len, tab.minLen, syms[i])
            && pos + tab.len[syms[i]] == |CodesBits(syms, tabs, selectors, alphaSize, i + 1)|
  {
    hide CodesBits, KraftSum, Pow2, BitsOf, Value;
    var tab, sym := TableOf(tabs, selectors, i), syms[i];
    CodesStep(syms, tabs, selectors, alphaSize, i);
    CodesPrefix(syms, tabs, selectors, alphaSize, i + 1, |syms|);
    CodeFits(tab, alphaSize, sym);
    var n := tab.len[sym];
    assert bits[pos..][..n] == CodeBits(tab, sym);
    BitsOfValue(n, C.CodeOf(tab.len, tab.minLen, sym));
  }

  datatype Reading = Read(syms: seq<int>, used: nat) | ReadError | ReadMore

  /** Reads symbols up to the end-of-block symbol, changing tables with every group. */
  method ReadSymbols(bits: seq<int>, tabs: seq<Table>, selectors: seq<int>, alphaSize: int) returns (r: Reading)
    requires Bits(bits) && Selected(tabs, selectors, alphaSize)
    ensures forall syms | Encodes(bits, syms, tabs, selectors, alphaSize) ::
              r == Read(syms, |CodesBits(syms, tabs, selectors, alphaSize, |syms|)|)
    ensures r.Read? ==> r.used <= |bits| && forall i | 0 <= i < |r.syms| :: 0 <= r.syms[i] < alphaSize
  {
    hide CodesBits, KraftSum, Pow2, BitsOf, Value, Ready;
    var got, pos, groupNo, groupPos := [], 0, -1, 0;
    forall syms | Encodes(bits, syms, tabs, selectors, alphaSize)
      ensures ReadSoFar(bits, syms, tabs, selectors, alphaSize, [], 0)
    {
      CodesNone(syms, tabs, selectors, alphaSize);
    }
    while true
      invariant 0 <= pos <= |bits| && -1 <= groupNo < |selectors| && 0 <= groupPos <= GROUP
          && |got| == GROUP * (groupNo + 1) - groupPos
      invariant forall i | 0 <= i < |got| :: 0 <= got[i] < alphaSize
      invariant forall syms | Encodes(bits, syms, tabs, selectors, alphaSize) ::
          ReadSoFar(bits, syms, tabs, selectors, alphaSize, got, pos)
      decreases |bits| - pos
    {
      if groupPos == 0 {
        groupNo := groupNo + 1;
        if groupNo >= |selectors| {
          return ReadError;
        }
        groupPos := GROUP;
      }
      groupPos := groupPos - 1;
      var tab := tabs[selectors[groupNo]];
      assert |got| / GROUP == groupNo;
      var next := NextSymbol(bits, tab, alphaSize, pos);
      forall syms | Encodes(bits, syms, tabs, selectors, alphaSize)
        ensures next == C.Symbol(syms[|got|], |CodesBits(syms, tabs, selectors, alphaSize, |got| + 1)| - pos)
      {
        NextCode(bits, syms, tabs, selectors, alphaSize, |got|, pos);
      }
      if !next.Symbol? {
        return if next.DataError? then ReadError else ReadMore;
      }
      got := got + [next.sym];
      pos := pos + next.used;
      if next.sym == alphaSize - 1 {
        return Read(got, pos);
      }
    }
  }

  method NextSymbol(bits: seq<int>, tab: Table, alphaSize: int, pos: int) returns (r: C.Outcome)
    requires Bits(bits) && Ready(tab, alphaSize) && 0 <= pos <= |bits|
    ensures r.Symbol? ==> 0 <= r.sym < alphaSize && 1 <= r.used <= |bits| - pos
    ensures forall sym | C.BeginsWith(bits[pos..], tab.len, tab.minLen, sym) :: r == C.Symbol(sym, tab.len[sym])
  {
    hide KraftSum, Pow2, Value;
    r := C.Decode(bits[pos..], tab.limit, tab.base, tab.perm, tab.minLen, tab.len, tab.maxLen);
  }

  // ---------------------------------------------------------------- compressing and decompressing a block

  /** How the symbols are to be coded: the frequencies behind each table, and the table of each group of 50 symbols. */
  datatype Plan = Plan(freqs: seq<seq<nat>>, selectors: seq<int>)

  ghost predicate IsPlan(plan: Plan, n: int, alphaSize: int) {
    && 2 <= |plan.freqs| <= 6 && |plan.selectors| == (n + GROUP - 1) / GROUP
    && (forall t | 0 <= t < |plan.freqs| :: |plan.freqs[t]| == alphaSize && FreqSum(plan.freqs[t]) < 0x80_0000)
    && forall i | 0 <= i < |plan.selectors| :: 0 <= plan.selectors[i] < |plan.freqs|
  }

  /** How a block was compressed: the sorted order of its rotations and the row of the block itself, the coding tables,
      the table of each group, and the symbols. */
  datatype Layout = Layout(ptr: seq<int>, origPtr: int, tabs: seq<Table>, selectors: seq<int>, syms: seq<int>)

  ghost function AlphaSize(b: seq<int>): int {
    Rank(InUse(b), 256) + 2
  }

  ghost predicate Sorts(k: Layout, b: seq<int>) {
    Block(b) && |b| <= 900_000 && SortsRotations(b, k.ptr) && 0 <= k.origPtr < |b| && k.ptr[k.origPtr] == 0
  }

  /** The symbols end with the end-of-block symbol and nowhere else. */
  ghost predicate EndsOnce(syms: seq<int>, alphaSize: int) {
    |syms| > 0 && forall i | 0 <= i < |syms| :: syms[i] == alphaSize - 1 <==> i == |syms| - 1
  }

  ghost predicate Codes(k: Layout, alphaSize: int) {
    && Selectors(k.selectors, |k.tabs|) && Selected(k.tabs, k.selectors, alphaSize)
        && (forall t | 0 <= t < |k.tabs| :: Tight(k.tabs[t]) && Prefix(k.tabs[t]))
    && Coverable(k.syms, k.selectors, alphaSize) && EndsOnce(k.syms, alphaSize)
  }

  /** The symbols stand for the last column of the sorted rotations of `b`. */
  ghost predicate Carries(k: Layout, b: seq<int>)
    requires Sorts(k, b)
  {
    var col := LastColumn(b, k.ptr);
    Bytes(col) && StandsFor(k.syms, Rank(InUse(b), 256), RanksOf(InUse(b), col))
  }

  ghost predicate Describes(k: Layout, b: seq<int>) {
    Sorts(k, b) && Codes(k, AlphaSize(b)) && Carries(k, b)
  }

  ghost function TablesBits(tabs: seq<Table>, alphaSize: int): (r: seq<seq<int>>)
    requires alphaSize >= 1 && forall t | 0 <= t < |tabs| :: Ready(tabs[t], alphaSize)
    ensures |r| == |tabs|
  {
    seq(|tabs|, t requires 0 <= t < |tabs| => if |tabs[t].len| >= 1 then LengthBits(tabs[t].len) else [])
  }

  ghost function CodedBits(k: Layout, alphaSize: int): seq<int>
    requires alphaSize >= 1 && Codes(k, alphaSize)
  {
    SelectorBits(k.selectors, |k.tabs|)
      + (Flatten(TablesBits(k.tabs, alphaSize)) + CodesBits(k.syms, k.tabs, k.selectors, alphaSize, |k.syms|))
  }

  /** What is written for a block after its checksum and the randomisation bit. */
  ghost function BlockData(k: Layout, b: seq<int>): seq<int>
    requires Describes(k, b)
  {
    BitsOf(24, k.origPtr) + (MapBits(InUse(b)) + CodedBits(k, AlphaSize(b)))
  }

  /** The bits are a compressed form of the block. */
  ghost predicate IsEncoding(bits: seq<int>, b: seq<int>) {
    exists k :: Describes(k, b) && bits == BlockData(k, b)
  }

  method MakeTables(freqs: seq<seq<nat>>, ghost alphaSize: int) returns (tabs: seq<Table>)
    requires 2 <= alphaSize <= MAX_ALPHA
        && forall t | 0 <= t < |freqs| :: |freqs[t]| == alphaSize && FreqSum(freqs[t]) < 0x80_0000
    ensures |tabs| == |freqs|
        && forall t | 0 <= t < |tabs| ::
             Ready(tabs[t], alphaSize) && HasCodes(tabs[t]) && Tight(tabs[t]) && Prefix(tabs[t])
  {
    hide Ready, FreqSum, HasCodes, Tight;
    tabs := [];
    for t := 0 to |freqs|
      invariant |tabs| == t && forall u | 0 <= u < t ::
                  Ready(tabs[u], alphaSize) && HasCodes(tabs[u]) && Tight(tabs[u]) && Prefix(tabs[u])
    {
      var tab := MakeTable(freqs[t]);
      tabs := tabs + [tab];
    }
  }

  /** Writes the code lengths of every table. */
  method WriteTables(tabs: seq<Table>, ghost alphaSize: int) returns (fs: seq<Field>)
    requires alphaSize >= 1 && forall t | 0 <= t < |tabs| :: Ready(tabs[t], alphaSize)
    ensures AreFields(fs) && FieldsBits(fs) == Flatten(TablesBits(tabs, alphaSize))
  {
    hide FieldsBits, AreFields, Flatten, LengthBits, Ready;
    fs := [];
    FieldsNone();
    ghost var pieces := TablesBits(tabs, alphaSize);
    NoPieces([], pieces);
    for t := 0 to |tabs|
      invariant AreFields(fs) && FieldsBits(fs) == [] + Flatten(pieces[..t])
    {
      ReadyLengths(tabs[t], alphaSize);
      var gs := WriteLengths(tabs[t].len);
      FieldsConcat(fs, gs);
      NextPiece([], pieces, t);
      fs := fs + gs;
    }
    assert pieces[..|tabs|] == pieces;
  }

  lemma ReadyLengths(tab: Table, alphaSize: int)
    requires Ready(tab, alphaSize) && alphaSize >= 1
    ensures CodeLengths(tab.len, alphaSize)
  {
  }

  /** Codes the symbols by a plan: the selectors, the tables and the codes. */
  method SendMtfValues(syms: seq<int>, nInUse: int, plan: Plan, ghost ranks: seq<int>, ghost ptr: seq<int>,
      ghost origPtr: int)
    returns (fs: seq<Field>, ghost k: Layout)
    requires StandsFor(syms, nInUse, ranks) && 1 <= nInUse <= 256 && |syms| <= 900_001
        && IsPlan(plan, |syms|, nInUse + 2)
    ensures k.ptr == ptr && k.origPtr == origPtr && k.syms == syms && Codes(k, nInUse + 2) && |k.selectors| <= 18_001
    ensures AreFields(fs) && FieldsBits(fs) == CodedBits(k, nInUse + 2)
  {
    hide CodesBits, BitsOf, Ready, FreqSum, StandsFor, IsPlan, HasCodes, Tight, FieldsBits, AreFields, Flatten;
    hide SelectorBits, TablesBits;
    var alphaSize := nInUse + 2;
    PlanFacts(plan, |syms|, alphaSize);
    FewSelectors(plan, |syms|, alphaSize);
    var tabs := MakeTables(plan.freqs, alphaSize);
    SymbolsCoverable(syms, nInUse, ranks, plan.selectors);
    k := Layout(ptr, origPtr, tabs, plan.selectors, syms);
    var f1 := WriteSelectors(plan.selectors, |tabs|);
    var f2 := WriteTables(tabs, alphaSize);
    var f3 := WriteCodes(syms, tabs, plan.selectors, alphaSize);
    FieldsConcat(f2, f3);
    FieldsConcat(f1, f2 + f3);
    fs := f1 + (f2 + f3);
  }

  /** Compresses a block whose rotations `ptr` sorts, coding the symbols by any plan. */
  method Compress(b: seq<int>, ptr: seq<int>, inUse: seq<bool>, plan: (seq<int>, int) -> Plan) returns (fs: seq<Field>)
    requires Block(b) && |b| <= 900_000 && SortsRotations(b, ptr) && inUse == InUse(b)
    requires forall ss, n {:trigger plan(ss, n)} | 2 <= n <= MAX_ALPHA :: IsPlan(plan(ss, n), |ss|, n)
    ensures AreFields(fs) && IsEncoding(FieldsBits(fs), b)
  {
    hide StandsFor, Counted, Rank, RanksOf, SortsRotations, IsPlan, LastColumn, FieldsBits, AreFields, MapBits, BitsOf;
    hide CodedBits, Codes;
    SortedPointers(b, ptr);
    ColumnInUse(b, ptr);
    var arr1 := Memory(ptr);
    var mtfFreq := new int[258];
    var nInUse, nMtf := GenerateMtfValues(b, ptr, inUse, arr1, mtfFreq);
    SomeInUse(inUse, b);
    var symbols := arr1[..nMtf];
    var p := plan(symbols, nInUse + 2);
    var origPtr := FindOrigin(ptr);
    ghost var k;
    var f3;
    f3, k := SendMtfValues(symbols, nInUse, p, RanksOf(inUse, LastColumn(b, ptr)), ptr, origPtr);
    var f2 := WriteMapping(inUse);
    var f1 := OriginField(origPtr);
    FieldsConcat(f2, f3);
    FieldsConcat(f1, f2 + f3);
    fs := f1 + (f2 + f3);
    assert Describes(k, b) && FieldsBits(fs) == BlockData(k, b);
  }

  /** The sorted order as it lies in memory, in halves of 16 bits. */
  method Memory(ptr: seq<int>) returns (arr1: array<int>)
    requires forall i | 0 <= i < |ptr| :: ptr[i] >= 0
    ensures fresh(arr1) && arr1.Length == 2 * |ptr| && HoldsWords(arr1[..], ptr)
  {
    arr1 := new int[2 * |ptr|];
    for i := 0 to |ptr|
      invariant forall k | 0 <= k < i :: arr1[2 * k] + 65536 * arr1[2 * k + 1] == ptr[k]
    {
      arr1[2 * i] := ptr[i] % 65536;
      arr1[2 * i + 1] := ptr[i] / 65536;
    }
  }

  method OriginField(origPtr: int) returns (fs: seq<Field>)
    requires 0 <= origPtr < 900_000
    ensures AreFields(fs) && FieldsBits(fs) == BitsOf(24, origPtr)
  {
    hide BitsOf, Pow2, FieldsBits, AreFields;
    SmallPowers();
    FieldsNone();
    FieldsAppend([], Field(24, origPtr));
    fs := [] + [Field(24, origPtr)];
    assert [] + BitsOf(24, origPtr) == BitsOf(24, origPtr);
  }

  /** A group for every 50 symbols leaves room in the arrays and in the 15 bits of the count. */
  lemma FewSelectors(plan: Plan, n: int, alphaSize: int)
    requires IsPlan(plan, n, alphaSize) && n <= 900_001
    ensures 50 * |plan.selectors| - 50 < n <= 50 * |plan.selectors|
    ensures |plan.selectors| <= 18_001 < MAX_SELECTORS < 32768
  {
  }

  lemma PlanFacts(plan: Plan, n: int, alphaSize: int)
    requires IsPlan(plan, n, alphaSize)
    ensures 2 <= |plan.freqs| <= 6 && |plan.selectors| == (n + GROUP - 1) / GROUP
    ensures forall t | 0 <= t < |plan.freqs| :: |plan.freqs[t]| == alphaSize && FreqSum(plan.freqs[t]) < 0x80_0000
    ensures forall i | 0 <= i < |plan.selectors| :: 0 <= plan.selectors[i] < |plan.freqs|
  {
  }

  lemma SortedPointers(b: seq<int>, ptr: seq<int>)
    requires SortsRotations(b, ptr)
    ensures |ptr| == |b| && IsPermutation(ptr, |b|)
  {
  }

  lemma SomeInUse(inUse: seq<bool>, b: seq<int>)
    requires |b| > 0 && inUse == InUse(b) && 0 <= b[0] < 256
    ensures 1 <= Rank(inUse, 256) <= 256
  {
    RankGrows(inUse, b[0], 256);
  }

  lemma SymbolsCoverable(syms: seq<int>, nInUse: int, ranks: seq<int>, selectors: seq<int>)
    requires StandsFor(syms, nInUse, ranks) && |selectors| == (|syms| + GROUP - 1) / GROUP
    ensures Coverable(syms, selectors, nInUse + 2) && EndsOnce(syms, nInUse + 2)
  {
    var before := syms[..|syms| - 1];
    forall i | 0 <= i < |syms| - 1
      ensures 0 <= syms[i] <= nInUse
    {
      assert before[i] == syms[i];
    }
  }

  // ---------------------------------------------------------------- decompressing

  /** Two tables of the same code. */
  ghost predicate SameCode(tab: Table, tab': Table) {
    tab.len == tab'.len && tab.minLen == tab'.minLen && tab.maxLen == tab'.maxLen
  }

  /** Prepares decoding with any code lengths. */
  method DecodeTable(len: seq<int>) returns (tab: Table)
    requires CodeLengths(len, |len|) && |len| <= MAX_ALPHA
    ensures Ready(tab, |len|)
    ensures forall want | Ready(want, |len|) && Tight(want) && want.len == len :: SameCode(tab, want)
  {
    hide KraftSum, Pow2, C.Tables, Ready, Tight;
    var minLen, maxLen := Extremes(len);
    forall want | Ready(want, |len|) && Tight(want) && want.len == len
      ensures want.minLen == minLen && want.maxLen == maxLen
    {
      TightIs(want, minLen, maxLen);
    }
    var limit, base, perm := new int[C.MAX_CODE_LEN], new int[C.MAX_CODE_LEN], new int[MAX_ALPHA];
    C.CreateDecodeTables(limit, base, perm, len, minLen, maxLen);
    tab := Table(len, minLen, maxLen, [], limit[..], base[..], perm[..]);
    NowReady(tab);
  }

  lemma NowReady(tab: Table)
    requires C.Lengths(tab.len, tab.minLen, tab.maxLen) && |tab.perm| == MAX_ALPHA
    requires C.Tables(tab.limit, tab.base, tab.perm, tab.len, tab.minLen, tab.maxLen)
    ensures Ready(tab, |tab.len|)
  {
  }

  /** The least and the greatest length are determined by the lengths. */
  lemma TightIs(tab: Table, minLen: int, maxLen: int)
    requires Ready(tab, |tab.len|) && Tight(tab) && minLen in tab.len && maxLen in tab.len
    requires forall i | 0 <= i < |tab.len| :: minLen <= tab.len[i] <= maxLen
    ensures tab.minLen == minLen && tab.maxLen == maxLen
  {
    hide C.Tables;
  }

  /** The tables that the lengths describe. */
  method DecodeTables(lens: seq<seq<int>>, alphaSize: int, ghost want: seq<Table>) returns (tabs: seq<Table>)
    requires 1 <= alphaSize <= MAX_ALPHA && forall t | 0 <= t < |lens| :: CodeLengths(lens[t], alphaSize)
    ensures |tabs| == |lens| && forall t | 0 <= t < |lens| :: Ready(tabs[t], alphaSize)
    ensures Described(lens, want, alphaSize) ==> forall t | 0 <= t < |want| :: SameCode(tabs[t], want[t])
  {
    hide Ready, Tight;
    tabs := [];
    for t := 0 to |lens|
      invariant |tabs| == t && forall i | 0 <= i < t :: Ready(tabs[i], alphaSize)
      invariant Described(lens, want, alphaSize) ==> forall i | 0 <= i < t :: SameCode(tabs[i], want[i])
    {
      var tab := DecodeTable(lens[t]);
      assert Described(lens, want, alphaSize) ==> Ready(want[t], alphaSize) && Tight(want[t]) && want[t].len == lens[t];
      tabs := tabs + [tab];
    }
  }

  /** The lengths are those of these tables. */
  ghost predicate Described(lens: seq<seq<int>>, tabs: seq<Table>, alphaSize: int) {
    |lens| == |tabs|
    && forall t | 0 <= t < |tabs| :: Ready(tabs[t], alphaSize) && Tight(tabs[t]) && tabs[t].len == lens[t]
  }

  ghost predicate TablesAt(bits: seq<int>, pos: int, tabs: seq<Table>, alphaSize: int) {
    alphaSize >= 1 && (forall t | 0 <= t < |tabs| :: Ready(tabs[t], alphaSize))
        && At(bits, pos, Flatten(TablesBits(tabs, alphaSize)))
  }

  lemma TableHere(bits: seq<int>, pos: int, tabs: seq<Table>, alphaSize: int, t: nat)
    requires TablesAt(bits, pos, tabs, alphaSize) && t < |tabs|
    ensures var pieces := TablesBits(tabs, alphaSize);
            && CodeLengths(tabs[t].len, alphaSize)
            && At(bits, pos + |Flatten(pieces[..t])|, LengthBits(tabs[t].len))
            && |Flatten(pieces[..t + 1])| == |Flatten(pieces[..t])| + |LengthBits(tabs[t].len)|
  {
    hide At, Flatten, LengthBits, Ready;
    ReadyLengths(tabs[t], alphaSize);
    FlattenAt(bits, pos, TablesBits(tabs, alphaSize), t);
  }

  /** Reads the code lengths of `n` tables. */
  method ReadTables(bits: seq<int>, pos: nat, n: nat, alphaSize: nat, ghost want: seq<Table>)
    returns (r: Parse<seq<seq<int>>>)
    requires pos <= |bits| && Bits(bits) && alphaSize >= 1
    ensures !r.Overrun?
    ensures r.Got? ==>
        |r.value| == n && pos <= r.next <= |bits| && forall t | 0 <= t < n :: CodeLengths(r.value[t], alphaSize)
    ensures |want| == n && TablesAt(bits, pos, want, alphaSize) ==>
              && r.Got? && r.next == pos + |Flatten(TablesBits(want, alphaSize))|
              && forall t | 0 <= t < n :: r.value[t] == want[t].len
  {
    hide At, Flatten, LengthBits, Ready, CodeLengths;
    ghost var good := |want| == n && TablesAt(bits, pos, want, alphaSize);
    var lens, p := [], pos;
    if good {
      NoPieces([], TablesBits(want, alphaSize));
    }
    for t := 0 to n
      invariant |lens| == t && pos <= p <= |bits| && forall i | 0 <= i < t :: CodeLengths(lens[i], alphaSize)
      invariant good ==>
          p == pos + |Flatten(TablesBits(want, alphaSize)[..t])| && forall i | 0 <= i < t :: lens[i] == want[i].len
    {
      if good {
        TableHere(bits, pos, want, alphaSize, t);
      }
      var g := BlockHeader.ReadLengths(bits, p, alphaSize, if good then want[t].len else []);
      if !g.Got? {
        return if g.Missing? then Missing else Malformed;
      }
      lens, p := lens + [g.value], g.next;
    }
    if good {
      assert TablesBits(want, alphaSize)[..n] == TablesBits(want, alphaSize);
    }
    return Got(lens, p);
  }

  /** Symbols coded with two sets of tables of the same codes. */
  lemma {:induction false} SameBits(syms: seq<int>, tabs: seq<Table>, tabs': seq<Table>, selectors: seq<int>,
      alphaSize: int, n: nat)
    requires Selected(tabs, selectors, alphaSize) && Selected(tabs', selectors, alphaSize)
        && Coverable(syms, selectors, alphaSize) && n <= |syms|
    requires |tabs| == |tabs'| && forall t | 0 <= t < |tabs| :: SameCode(tabs[t], tabs'[t])
    ensures CodesBits(syms, tabs, selectors, alphaSize, n) == CodesBits(syms, tabs', selectors, alphaSize, n)
  {
    hide Ready, BitsOf;
    if n > 0 {
      SameBits(syms, tabs, tabs', selectors, alphaSize, n - 1);
      CodesStep(syms, tabs, selectors, alphaSize, n - 1);
      CodesStep(syms, tabs', selectors, alphaSize, n - 1);
    }
  }

  /** Symbols that stand for few enough ranks are decoded to the end-of-block symbol. */
  lemma DecodingFinishes(syms: seq<int>, nInUse: int, ranks: seq<int>, k: nat, max: int)
    requires StandsFor(syms, nInUse, ranks) && |ranks| <= max && k <= |syms| && nInUse + 1 !in syms[..k]
    ensures k < |syms| && Symbols(syms[..k]) && |FeedAll(syms[..k]).out| <= max
    ensures syms[k] == nInUse + 1 ==> k == |syms| - 1
  {
    hide FeedAll;
    var before := syms[..|syms| - 1];
    EndIsLast(syms, k);
    assert before[..k] == syms[..k];
    OutGrows(before, k);
    if k < |syms| - 1 {
      assert before[k] == syms[k];
    }
  }

  lemma EndIsLast(syms: seq<int>, k: nat)
    requires 0 < |syms| && k <= |syms| && syms[|syms| - 1] !in syms[..k]
    ensures k < |syms|
  {
  }

  /** The decoder's table undoes the encoder's ranks. */
  lemma TranslateBack(inUse: seq<bool>, seqToUnseq: seq<int>, col: seq<int>)
    requires |inUse| == |seqToUnseq| == 256 && Bytes(col) && forall i | 0 <= i < |col| :: inUse[col[i]]
    requires forall c | 0 <= c < 256 && inUse[c] :: seqToUnseq[Rank(inUse, c)] == c
    ensures Bytes(RanksOf(inUse, col)) && Translate(seqToUnseq, RanksOf(inUse, col)) == col
  {
    hide Rank;
    var ranks := RanksOf(inUse, col);
    forall i | 0 <= i < |col|
      ensures 0 <= ranks[i] < 256 && seqToUnseq[ranks[i]] == col[i]
    {
      assert ranks[i] == Rank(inUse, col[i]);
    }
  }

  lemma DecodedColumn(syms: seq<int>, list: seq<int>, seqToUnseq: seq<int>, out: seq<int>, counts: seq<int>,
      nInUse: int, inUse: seq<bool>, col: seq<int>)
    requires |inUse| == |seqToUnseq| == 256 && Bytes(col) && forall i | 0 <= i < |col| :: inUse[col[i]]
    requires forall c | 0 <= c < 256 && inUse[c] :: seqToUnseq[Rank(inUse, c)] == c
    requires StandsFor(syms, nInUse, RanksOf(inUse, col)) && Decoded(syms[..|syms| - 1], list, seqToUnseq, out, counts)
    ensures out == col && |counts| == 256 && forall c | 0 <= c < 256 :: counts[c] == Equal(col, c, |col|)
  {
    hide FeedAll, Rank;
    TranslateBack(inUse, seqToUnseq, col);
  }

  lemma ColumnInUse(b: seq<int>, ptr: seq<int>)
    requires Block(b) && IsPermutation(ptr, |b|)
    ensures Bytes(LastColumn(b, ptr)) && forall i | 0 <= i < |b| :: InUse(b)[LastColumn(b, ptr)[i]]
  {
    var l := LastColumn(b, ptr);
    forall i | 0 <= i < |b|
      ensures 0 <= l[i] < 256 && l[i] in b
    {
      assert l[i] == b[Prev(ptr[i], |b|)];
    }
  }

  /** What comes of a block: its bytes followed by two more that the decompressor meets behind them, and where the next
      bits begin; or an error; or too few bits; or more selectors than there are places; or a run on which the source's
      arithmetic means nothing. */
  datatype Result = Unpacked(src: seq<int>, nblock: nat, next: nat) | Corrupt | More | Overran | Meaningless

  /** The last column of the sorted rotations and how often each byte is in it; or why there is none. */
  datatype Column = Column(bytes: seq<int>, counts: seq<int>, next: nat) | NoColumn(why: Result)

  ghost predicate IsColumn(c: Column) {
    c.Column? && Bytes(c.bytes) && |c.counts| == 256 && |c.bytes| <= 900_000
    && forall i | 0 <= i < 256 :: c.counts[i] == Equal(c.bytes, i, |c.bytes|)
  }

  /** Reads the symbols of one block and turns them into a column of bytes. */
  method ReadColumn(bits: seq<int>, pos: nat, level: int, inUse: seq<bool>, nInUse: int, seqToUnseq: seq<int>,
      tabs: seq<Table>, selectors: seq<int>, ghost syms: seq<int>, ghost col: seq<int>)
    returns (c: Column)
    requires pos <= |bits| && Bits(bits) && 1 <= level <= 9 && |inUse| == |seqToUnseq| == 256 && 1 <= nInUse <= 256
        && Bytes(seqToUnseq)
    requires Selected(tabs, selectors, nInUse + 2)
    ensures c.Column? ==> IsColumn(c) && pos <= c.next <= |bits|
    ensures Expected(bits, pos, level, inUse, nInUse, seqToUnseq, tabs, selectors, syms, col) ==>
              c.Column? && c.bytes == col && c.next == pos + |CodesBits(syms, tabs, selectors, nInUse + 2, |syms|)|
    ensures c.NoColumn? ==> !c.why.Unpacked? && !c.why.Overran?
  {
    hide CodesBits, Ready, Rank, RanksOf, StandsFor, Decoded, FeedAll, Equal, Expected, Encodes, Selected;
    ghost var good := Expected(bits, pos, level, inUse, nInUse, seqToUnseq, tabs, selectors, syms, col);
    if good {
      ExpectedEncodes(bits, pos, level, inUse, nInUse, seqToUnseq, tabs, selectors, syms, col);
    }
    var r := ReadSymbols(bits[pos..], tabs, selectors, nInUse + 2);
    if !r.Read? {
      return NoColumn(if r.ReadMore? then More else Corrupt);
    }
    var max := 100_000 * level;
    var space, unzftab := new int[max], new int[256];
    var outcome, n := DecodeMtf(r.syms, seqToUnseq, nInUse, max, space, unzftab);
    if good {
      ExpectedFinishes(bits, pos, level, inUse, nInUse, seqToUnseq, tabs, selectors, syms, col, n);
    }
    if !outcome.Finished? {
      return NoColumn(match outcome case NeedInput => More case Undefined => Meaningless case _ => Corrupt);
    }
    ghost var list :| Decoded(r.syms[..n], list, seqToUnseq, space[..outcome.nblock], unzftab[..]);
    ColumnOf(r.syms[..n], list, seqToUnseq, space[..outcome.nblock], unzftab[..]);
    if good {
      ExpectedColumn(bits, pos, level, inUse, nInUse, seqToUnseq, tabs, selectors, syms, col, list,
          space[..outcome.nblock], unzftab[..]);
    }
    c := Column(space[..outcome.nblock], unzftab[..], pos + r.used);
  }

  /** The bits hold the symbols that stand for this column. */
  ghost predicate Expected(bits: seq<int>, pos: int, level: int, inUse: seq<bool>, nInUse: int, seqToUnseq: seq<int>,
      tabs: seq<Table>, selectors: seq<int>, syms: seq<int>, col: seq<int>) {
    && Selected(tabs, selectors, nInUse + 2) && Coverable(syms, selectors, nInUse + 2) && EndsOnce(syms, nInUse + 2)
    && (forall t | 0 <= t < |tabs| :: Prefix(tabs[t]))
    && At(bits, pos, CodesBits(syms, tabs, selectors, nInUse + 2, |syms|))
    && |inUse| == |seqToUnseq| == 256 && Bytes(col) && |col| <= 100_000 * level
        && (forall i | 0 <= i < |col| :: inUse[col[i]])
    && (forall c | 0 <= c < 256 && inUse[c] :: seqToUnseq[Rank(inUse, c)] == c)
    && StandsFor(syms, nInUse, RanksOf(inUse, col))
  }

  lemma ExpectedEncodes(bits: seq<int>, pos: int, level: int, inUse: seq<bool>, nInUse: int, seqToUnseq: seq<int>,
      tabs: seq<Table>, selectors: seq<int>, syms: seq<int>, col: seq<int>)
    requires Expected(bits, pos, level, inUse, nInUse, seqToUnseq, tabs, selectors, syms, col)
    ensures 0 <= pos <= |bits| && Encodes(bits[pos..], syms, tabs, selectors, nInUse + 2)
  {
    hide CodesBits, Selected, Rank, StandsFor, Coverable;
  }

  lemma ExpectedFinishes(bits: seq<int>, pos: int, level: int, inUse: seq<bool>, nInUse: int, seqToUnseq: seq<int>,
      tabs: seq<Table>, selectors: seq<int>, syms: seq<int>, col: seq<int>, n: nat)
    requires Expected(bits, pos, level, inUse, nInUse, seqToUnseq, tabs, selectors, syms, col)
    requires n <= |syms| && nInUse + 1 !in syms[..n]
    ensures n < |syms| && Symbols(syms[..n]) && |FeedAll(syms[..n]).out| <= 100_000 * level
    ensures syms[n] == nInUse + 1 ==> n == |syms| - 1
  {
    hide CodesBits, Selected, FeedAll, Rank, At, StandsFor, Coverable, Symbols;
    DecodingFinishes(syms, nInUse, RanksOf(inUse, col), n, 100_000 * level);
  }

  lemma ColumnOf(syms: seq<int>, list: seq<int>, seqToUnseq: seq<int>, out: seq<int>, counts: seq<int>)
    requires Decoded(syms, list, seqToUnseq, out, counts) && Bytes(seqToUnseq)
    ensures Bytes(out) && |counts| == 256 && forall c | 0 <= c < 256 :: counts[c] == Equal(out, c, |out|)
  {
    hide FeedAll, Equal;
  }

  lemma ExpectedColumn(bits: seq<int>, pos: int, level: int, inUse: seq<bool>, nInUse: int, seqToUnseq: seq<int>,
      tabs: seq<Table>, selectors: seq<int>, syms: seq<int>, col: seq<int>, list: seq<int>, out: seq<int>,
      counts: seq<int>)
    requires Expected(bits, pos, level, inUse, nInUse, seqToUnseq, tabs, selectors, syms, col)
    requires Decoded(syms[..|syms| - 1], list, seqToUnseq, out, counts)
    ensures out == col
  {
    hide CodesBits, Selected, FeedAll, Rank, At, StandsFor, Coverable, Decoded, RanksOf;
    DecodedColumn(syms, list, seqToUnseq, out, counts, nInUse, inUse, col);
  }

  /** Undoes the transform: the bytes met from the origin, and two more. */
  method Invert(c: Column, origPtr: int) returns (src: seq<int>)
    requires IsColumn(c) && 0 <= origPtr < |c.bytes|
    ensures src == Follow(c.bytes, origPtr, |c.bytes| + 2) && Bytes(src)
  {
    hide Psi, Less, Equal, Dest, Follow, RowAfter, Threaded;
    var tt := new int[|c.bytes|](i requires 0 <= i < |c.bytes| => c.bytes[i]);
    assert tt[..] == c.bytes;
    var cftab := new int[257];
    FillCftab(cftab, c.counts, c.bytes);
    ComputeTt(tt, cftab, c.bytes);
    src := Unwind(tt, origPtr, |c.bytes| + 2, c.bytes);
    FollowBytes(c.bytes, origPtr, |c.bytes| + 2);
  }

  lemma FollowBytes(l: seq<int>, row: int, n: nat)
    requires Bytes(l) && 0 <= row < |l|
    ensures Bytes(Follow(l, row, n))
  {
    hide Psi, RowAfter;
  }

  /** The bits at `pos` are those of the block. */
  ghost predicate BlockAt(bits: seq<int>, pos: int, level: int, b: seq<int>, k: Layout) {
    Describes(k, b) && |b| <= 100_000 * level && At(bits, pos, BlockData(k, b))
  }

  /** The parts of the bits of a block. */
  lemma BlockParts(bits: seq<int>, pos: int, level: int, b: seq<int>, k: Layout)
    requires BlockAt(bits, pos, level, b, k)
    ensures var p1 := pos + 24;
            var p2 := p1 + |MapBits(InUse(b))|;
            var p3 := p2 + |SelectorBits(k.selectors, |k.tabs|)|;
            && 0 <= k.origPtr < 900_000 && At(bits, pos, BitsOf(24, k.origPtr)) && At(bits, p1, MapBits(InUse(b)))
            && AlphaSize(b) >= 3 && Selectors(k.selectors, |k.tabs|)
                && At(bits, p2, SelectorBits(k.selectors, |k.tabs|))
            && TablesAt(bits, p3, k.tabs, AlphaSize(b))
            && var p4 := p3 + |Flatten(TablesBits(k.tabs, AlphaSize(b)))|;
               && Codes(k, AlphaSize(b)) && At(bits, p4, CodesBits(k.syms, k.tabs, k.selectors, AlphaSize(b), |k.syms|))
               && p4 + |CodesBits(k.syms, k.tabs, k.selectors, AlphaSize(b), |k.syms|)| == pos + |BlockData(k, b)|
  {
    hide At, BitsOf, MapBits, SelectorBits, TablesBits, CodesBits, Flatten, Codes, Carries, Rank, SortsRotations;
    var a := AlphaSize(b);
    SomeInUse(InUse(b), b);
    CodesFacts(k, a);
    var m, s := MapBits(InUse(b)), SelectorBits(k.selectors, |k.tabs|);
    var t, c := Flatten(TablesBits(k.tabs, a)), CodesBits(k.syms, k.tabs, k.selectors, a, |k.syms|);
    AtSplit(bits, pos, BitsOf(24, k.origPtr), m + (s + (t + c)));
    AtSplit(bits, pos + 24, m, s + (t + c));
    AtSplit(bits, pos + 24 + |m|, s, t + c);
    AtSplit(bits, pos + 24 + |m| + |s|, t, c);
  }

  lemma CodesFacts(k: Layout, alphaSize: int)
    requires Codes(k, alphaSize)
    ensures Selectors(k.selectors, |k.tabs|) && forall t | 0 <= t < |k.tabs| :: Ready(k.tabs[t], alphaSize)
    ensures Selected(k.tabs, k.selectors, alphaSize) && Coverable(k.syms, k.selectors, alphaSize)
        && EndsOnce(k.syms, alphaSize)
    ensures forall t | 0 <= t < |k.tabs| :: Tight(k.tabs[t]) && Prefix(k.tabs[t])
  {
  }

  /** What precedes the symbols: the row of the block, the bytes in use, the tables and their selectors. */
  datatype Preface = Preface(origPtr: int, inUse: seq<bool>, nInUse: int, seqToUnseq: seq<int>, tabs: seq<Table>,
      selectors: seq<int>, next: nat)
    | NoPreface(why: Result)

  ghost predicate IsPreface(p: Preface) {
    && p.Preface? && 0 <= p.origPtr && |p.inUse| == |p.seqToUnseq| == 256 && p.nInUse == Rank(p.inUse, 256)
        && 1 <= p.nInUse <= 256
    && Bytes(p.seqToUnseq) && (forall c | 0 <= c < 256 && p.inUse[c] :: p.seqToUnseq[Rank(p.inUse, c)] == c)
    && Selected(p.tabs, p.selectors, p.nInUse + 2)
  }

  /** The preface that the layout describes. */
  ghost predicate PrefaceOf(p: Preface, b: seq<int>, k: Layout) {
    && p.Preface? && p.origPtr == k.origPtr && p.inUse == InUse(b) && p.selectors == k.selectors
    && |p.tabs| == |k.tabs| && forall t | 0 <= t < |k.tabs| :: SameCode(p.tabs[t], k.tabs[t])
  }

  /** The bits from `pos` to `next` are an origin that the decompressor accepts and a mapping table. */
  ghost predicate MapPrefix(bits: seq<int>, pos: int, level: int, origPtr: int, flags: seq<bool>, x: seq<bool>,
      next: int) {
    && 0 <= origPtr <= 10 + 100_000 * level && origPtr < 0x100_0000
    && At(bits, pos, BitsOf(24, origPtr)) && MapAt(bits, pos + 24, flags, x, next)
  }

  lemma PrefixUnique(bits: seq<int>, pos: int, level: int, o: int, flags: seq<bool>, x: seq<bool>, next: int, o': int,
      flags': seq<bool>, x': seq<bool>, next': int)
    requires MapPrefix(bits, pos, level, o, flags, x, next) && MapPrefix(bits, pos, level, o', flags', x', next')
    ensures o == o' && x == x' && next == next'
  {
    hide At, BitsOf, MapAt, Pow2;
    SmallPowers();
    NumberUnique(bits, pos, 24, o, o');
    MapUnique(bits, pos + 24, flags, x, next, flags', x', next');
  }

  /** Reads the origin and the mapping table: exactly what the bits hold. */
  method ReadMap(bits: seq<int>, pos: nat, level: int) returns (r: Parse<(int, seq<bool>)>, ghost marked: seq<bool>)
    requires pos <= |bits| && Bits(bits)
    ensures r.Got? ==> pos <= r.next <= |bits| && MapPrefix(bits, pos, level, r.value.0, marked, r.value.1, r.next)
    ensures forall o, flags, x, next | MapPrefix(bits, pos, level, o, flags, x, next) :: r == Got((o, x), next)
    ensures !r.Overrun?
  {
    hide At, BitsOf, MapAt, Pow2;
    SmallPowers();
    marked := [];
    ghost var want := 0;
    if o, flags, x, next :| MapPrefix(bits, pos, level, o, flags, x, next) {
      want := o;
    }
    var o := ReadNumber(bits, pos, 24, want);
    if o.Missing? {
      return Missing, marked;
    }
    forall o', flags, x, next | MapPrefix(bits, pos, level, o', flags, x, next)
      ensures o.value == o'
    {
      NumberUnique(bits, pos, 24, o.value, o');
    }
    if o.value > 10 + 100_000 * level {
      return Malformed, marked;
    }
    var m;
    m, marked := ReadMapping(bits, o.next);
    if m.Missing? {
      return Missing, marked;
    }
    r := Got((o.value, m.value), m.next);
  }

  /** The block at `pos` has more selectors than the decompressor has places: its origin is accepted, some byte is in
      use, and all places and one more are filled before the bits end or turn out malformed. */
  ghost predicate BlockOverruns(bits: seq<int>, pos: int, level: int) {
    exists o, flags, x, next ::
      MapPrefix(bits, pos, level, o, flags, x, next) && true in x && TooManySelectors(bits, next)
  }

  lemma OverrunsBehind(bits: seq<int>, pos: int, level: int, o: int, flags: seq<bool>, x: seq<bool>, next: int)
    requires MapPrefix(bits, pos, level, o, flags, x, next)
    ensures BlockOverruns(bits, pos, level) <==> true in x && TooManySelectors(bits, next)
  {
    hide MapPrefix, TooManySelectors;
    if o', flags', x', next' :|
      MapPrefix(bits, pos, level, o', flags', x', next') && true in x' && TooManySelectors(bits, next')
    {
      PrefixUnique(bits, pos, level, o, flags, x, next, o', flags', x', next');
    }
  }

  lemma NoOverrun(bits: seq<int>, pos: int, level: int)
    requires forall o, flags, x, next :: !MapPrefix(bits, pos, level, o, flags, x, next)
    ensures !BlockOverruns(bits, pos, level)
  {
  }

  lemma MapPart(bits: seq<int>, pos: int, level: int, b: seq<int>, k: Layout)
    requires BlockAt(bits, pos, level, b, k)
    ensures MapPrefix(bits, pos, level, k.origPtr, RowFlags(InUse(b)), InUse(b), pos + 24 + |MapBits(InUse(b))|)
  {
    hide At, BitsOf, MapBits, SelectorBits, TablesBits, CodesBits, BlockData, BlockAt, TablesAt, Codes, Flatten, MapAt;
    hide Selectors;
    BlockParts(bits, pos, level, b, k);
    OriginSmall(bits, pos, level, b, k);
    MapBitsAt(bits, pos + 24, InUse(b));
  }

  lemma OriginSmall(bits: seq<int>, pos: int, level: int, b: seq<int>, k: Layout)
    requires BlockAt(bits, pos, level, b, k)
    ensures 0 <= k.origPtr < |b| <= 100_000 * level
  {
  }

  /** Reads everything before the symbols. */
  method ReadPreface(bits: seq<int>, pos: nat, level: int, ghost b: seq<int>, ghost k: Layout) returns (p: Preface)
    requires pos <= |bits| && Bits(bits)
    ensures p.Preface? ==> IsPreface(p) && pos <= p.next <= |bits|
    ensures BlockAt(bits, pos, level, b, k) ==>
              && PrefaceOf(p, b, k)
              && p.next + |CodesBits(k.syms, k.tabs, k.selectors, AlphaSize(b), |k.syms|)| == pos + |BlockData(k, b)|
              && At(bits, p.next, CodesBits(k.syms, k.tabs, k.selectors, AlphaSize(b), |k.syms|))
    ensures p.NoPreface? ==> !p.why.Unpacked?
    ensures p == NoPreface(Overran) <==> BlockOverruns(bits, pos, level)
  {
    hide At, BitsOf, MapBits, SelectorBits, TablesBits, CodesBits, BlockData, BlockAt, Rank, Ready, Tight, Flatten;
    hide CodeLengths, Codes, Selected, Coverable, MapPrefix, BlockOverruns, TooManySelectors, Selectors;
    ghost var good := BlockAt(bits, pos, level, b, k);
    if good {
      BlockParts(bits, pos, level, b, k);
      MapPart(bits, pos, level, b, k);
    }
    var m;
    ghost var marked;
    m, marked := ReadMap(bits, pos, level);
    if !m.Got? {
      NoOverrun(bits, pos, level);
      return NoPreface(if m.Missing? then More else Corrupt);
    }
    OverrunsBehind(bits, pos, level, m.value.0, marked, m.value.1, m.next);
    var inUse := m.value.1;
    PrefixSizes(bits, pos, level, m.value.0, marked, inUse, m.next);
    var seqToUnseq, nInUse := MakeMapsDecoder(inUse);
    RankBound(inUse);
    RankSome(inUse, 256);
    if nInUse == 0 {
      return NoPreface(Corrupt);
    }
    var alphaSize := nInUse + 2;
    var s := ReadSelectors(bits, m.next, k.selectors, |k.tabs|);
    if !s.Got? {
      return NoPreface(match s case Missing => More case Overrun => Overran case _ => Corrupt);
    }
    var l := ReadTables(bits, s.next, s.value.0, alphaSize, k.tabs);
    if !l.Got? {
      return NoPreface(if l.Missing? then More else Corrupt);
    }
    if good {
      TablesDescribed(l.value, k, alphaSize);
    }
    var tabs := DecodeTables(l.value, alphaSize, k.tabs);
    NowSelected(tabs, s.value.1, s.value.0, alphaSize);
    p := Preface(m.value.0, inUse, nInUse, seqToUnseq, tabs, s.value.1, l.next);
  }

  lemma PrefixSizes(bits: seq<int>, pos: int, level: int, o: int, flags: seq<bool>, x: seq<bool>, next: int)
    requires MapPrefix(bits, pos, level, o, flags, x, next)
    ensures o >= 0 && |x| == 256
  {
  }

  lemma {:induction false} RankSome(inUse: seq<bool>, c: nat)
    requires c <= |inUse|
    ensures Rank(inUse, c) == 0 <==> true !in inUse[..c]
    ensures c == |inUse| ==> inUse[..c] == inUse
  {
    if c > 0 {
      RankSome(inUse, c - 1);
      assert inUse[..c] == inUse[..c - 1] + [inUse[c - 1]];
    }
  }

  lemma RankBound(inUse: seq<bool>)
    requires |inUse| == 256
    ensures 0 <= Rank(inUse, 256) <= 256
  {
  }

  lemma TablesDescribed(lens: seq<seq<int>>, k: Layout, alphaSize: int)
    requires Codes(k, alphaSize) && |lens| == |k.tabs| && forall t | 0 <= t < |lens| :: lens[t] == k.tabs[t].len
    ensures Described(lens, k.tabs, alphaSize)
  {
    hide Ready, Tight;
  }

  lemma NowSelected(tabs: seq<Table>, selectors: seq<int>, n: int, alphaSize: int)
    requires Selectors(selectors, n) && |tabs| == n && forall t | 0 <= t < |tabs| :: Ready(tabs[t], alphaSize)
    ensures Selected(tabs, selectors, alphaSize)
  {
    hide Ready;
  }

  /** What the bits after the preface hold. */
  lemma PrefaceExpects(bits: seq<int>, pos: int, level: int, b: seq<int>, k: Layout, p: Preface)
    requires BlockAt(bits, pos, level, b, k) && IsPreface(p) && PrefaceOf(p, b, k)
    requires At(bits, p.next, CodesBits(k.syms, k.tabs, k.selectors, AlphaSize(b), |k.syms|))
    ensures |k.ptr| == |b| && IsPermutation(k.ptr, |b|)
    ensures Expected(bits, p.next, level, p.inUse, p.nInUse, p.seqToUnseq, p.tabs, p.selectors, k.syms,
        LastColumn(b, k.ptr))
    ensures |CodesBits(k.syms, p.tabs, p.selectors, p.nInUse + 2, |k.syms|)| ==
        |CodesBits(k.syms, k.tabs, k.selectors, AlphaSize(b), |k.syms|)|
  {
    hide At, BlockData, Rank, Ready, CodesBits, Coverable, StandsFor, RanksOf, EndsOnce, Selected;
    CodesFacts(k, AlphaSize(b));
    SortedPointers(b, k.ptr);
    ColumnInUse(b, k.ptr);
    SameBits(k.syms, k.tabs, p.tabs, k.selectors, AlphaSize(b), |k.syms|);
  }

  /** Decompresses one block. */
  method Decompress(bits: seq<int>, pos: nat, level: int, ghost b: seq<int>, ghost k: Layout) returns (r: Result)
    requires pos <= |bits| && Bits(bits) && 1 <= level <= 9
    ensures r.Unpacked? ==> r.nblock > 0 && |r.src| == r.nblock + 2 && Bytes(r.src) && pos <= r.next <= |bits|
    ensures BlockAt(bits, pos, level, b, k) ==>
        r.Unpacked? && r.nblock == |b| && r.src[..|b|] == b && r.next == pos + |BlockData(k, b)|
    ensures r == Overran <==> BlockOverruns(bits, pos, level)
  {
    hide BlockOverruns, At, BlockAt, BlockData, CodesBits, Selected, Rank, IsColumn, Follow, Expected, Equal;
    ghost var good := BlockAt(bits, pos, level, b, k);
    var p := ReadPreface(bits, pos, level, b, k);
    if p.NoPreface? {
      return p.why;
    }
    ghost var col := [];
    if good {
      PrefaceExpects(bits, pos, level, b, k, p);
      col := LastColumn(b, k.ptr);
    }
    var c := ReadColumn(bits, p.next, level, p.inUse, p.nInUse, p.seqToUnseq, p.tabs, p.selectors, k.syms, col);
    if c.NoColumn? {
      return c.why;
    }
    if good {
      OriginSmall(bits, pos, level, b, k);
    }
    if p.origPtr >= |c.bytes| {
      return Corrupt;
    }
    var src := Invert(c, p.origPtr);
    if good {
      BlockFollows(bits, pos, level, b, k, src);
    }
    r := Unpacked(src, |c.bytes|, c.next);
  }

  lemma BlockFollows(bits: seq<int>, pos: int, level: int, b: seq<int>, k: Layout, src: seq<int>)
    requires BlockAt(bits, pos, level, b, k) && |k.ptr| == |b| && IsPermutation(k.ptr, |b|)
    requires 0 <= k.origPtr < |b| && src == Follow(LastColumn(b, k.ptr), k.origPtr, |b| + 2)
    ensures src[..|b|] == b
  {
    hide At, BlockData, Codes, Carries, SortsRotations, RowAfter;
    FollowBlock(b, k.ptr, k.origPtr);
    assert src[..|b|] == Follow(LastColumn(b, k.ptr), k.origPtr, |b|);
  }

  /** Every compressed form of a block decompresses to that block, whatever bits come before and after it. */
  method DecompressEncoding(bits: seq<int>, pos: nat, level: int, ghost b: seq<int>, ghost code: seq<int>)
    returns (r: Result)
    requires pos <= |bits| && Bits(bits) && 1 <= level <= 9
    ensures r.Unpacked? ==> r.nblock > 0 && |r.src| == r.nblock + 2 && Bytes(r.src) && pos <= r.next <= |bits|
    ensures IsEncoding(code, b) && |b| <= 100_000 * level && At(bits, pos, code) ==>
              r.Unpacked? && r.nblock == |b| && r.src[..|b|] == b && r.next == pos + |code|
    ensures r == Overran <==> BlockOverruns(bits, pos, level)
  {
    hide BlockOverruns, At, Describes, BlockData;
    ghost var k := Layout([], 0, [], [], []);
    if IsEncoding(code, b) {
      k :| Describes(k, b) && code == BlockData(k, b);
    }
    r := Decompress(bits, pos, level, b, k);
  }

  /** Compressing a block and decompressing it gives the block back, for every order of equal rotations and every
      plan. */
  method RoundTrip(b: seq<int>, ptr: seq<int>, inUse: seq<bool>, plan: (seq<int>, int) -> Plan, level: int)
    returns (out: seq<int>)
    requires Block(b) && SortsRotations(b, ptr) && inUse == InUse(b) && 1 <= level <= 9 && |b| <= 100_000 * level
    requires forall ss, n {:trigger plan(ss, n)} | 2 <= n <= MAX_ALPHA :: IsPlan(plan(ss, n), |ss|, n)
    ensures out == b
  {
    hide SortsRotations, IsPlan, IsEncoding, FieldsBits, AreFields, BytesBits;
    var fs := Compress(b, ptr, inUse, plan);
    var writer := new BitWriter();
    PutFields(writer, fs);
    writer.FinishWrite();
    ghost var code := FieldsBits(fs);
    assert [] + code == code;
    var bits := AllBits(writer.zbits);
    var r := DecompressEncoding(bits, 0, level, b, code);
    out := r.src[..r.nblock];
  }

  lemma OneBit(bits: seq<int>)
    ensures |bits| >= 1 ==> Value(bits[..1]) == bits[0] && bits == [bits[0]] + bits[1..]
  {
    if |bits| >= 1 {
      ValueStep(bits, 0);
      assert bits[..0] == [];
    }
  }

  /** Reads the bits of some bytes one at a time. */
  method AllBits(bytes: seq<int>) returns (bits: seq<int>)
    requires Bytes(bytes)
    ensures bits == BytesBits(bytes)
  {
    hide BitsOf, BytesBits, Value;
    var reader := new BitReader(bytes);
    ghost var all := BytesBits(bytes);
    bits := [];
    var ok, v := reader.GetBits(1);
    OneBit(all);
    while ok
      invariant reader.Valid()
      invariant ok ==> all == bits + [v] + reader.Remaining()
      invariant !ok ==> all == bits && reader.Remaining() == []
      decreases if ok then |reader.Remaining()| + 1 else 0
    {
      bits := bits + [v];
      ghost var rest := reader.Remaining();
      ok, v := reader.GetBits(1);
      OneBit(rest);
    }
  }
}
