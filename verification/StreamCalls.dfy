/** Whole runs of the compressor. */
module StreamCalls {
  // Sequences of calls of the sequential compressor, the bytes they produce, and the same bytes from one stream per
  // block.

  import opened Arith
  import opened BitStrings
  import opened BitStream
  import opened BlockStream
  import opened Fields
  import opened RunLength
  import opened Sequences

  const MAX_UNUSED := 5000

  // ---------------------------------------------------------------- the bytes determine the blocks

  /** A block as the sorter receives it. */
  ghost predicate BlockBytes(level: int, x: seq<int>) {
    0 < |x| <= 100_000 * level && Bytes(x)
  }

  ghost function CodeOf(u: Setup, x: seq<int>): seq<int>
    requires IsSetup(u)
  {
    FieldsBits(u.encode(x, InUse(x)))
  }

  /** No compressed block begins another, so a decompressor can tell where it ends and what it stands for. */
  ghost predicate SelfDelimiting(u: Setup)
    requires IsSetup(u)
  {
    forall x, y | BlockBytes(u.level, x) && BlockBytes(u.level, y) && CodeOf(u, x) <= CodeOf(u, y) :: x == y
  }

  /** Blocks that a compressor of this level can produce. */
  ghost predicate Proper(level: int, bs: seq<seq<Pair>>) {
    forall i | 0 <= i < |bs| :: Pairs(bs[i]) && BlockBytes(level, CodedAll(bs[i]))
  }

  ghost predicate SameCodes(bs: seq<seq<Pair>>, cs: seq<seq<Pair>>, n: nat)
    requires n <= |bs| && n <= |cs| && Blocks(bs) && Blocks(cs)
  {
    forall i | 0 <= i < n :: CodedAll(bs[i]) == CodedAll(cs[i])
  }

  lemma BlockIsPrefix(u: Setup, bs: seq<seq<Pair>>, all: seq<int>, i: nat)
    requires IsSetup(u) && Blocks(bs) && StreamBits(u, bs) <= all && i < |bs|
    ensures Blocks(bs[..i]) && Blocks(bs[..i + 1])
    ensures Opening(u, bs[..i + 1]) == Opening(u, bs[..i]) + BlockBits(u, bs[i]) <= all
  {
    hide BlockBits, CombinedCrc, IsSetup, Pairs, BitsOf, BytesBits;
    var front := bs[..i + 1];
    assert front[..i] == bs[..i] && front[i] == bs[i];
    OpeningGrows(u, bs, i + 1);
    OpeningGrows(u, bs, i);
    PrefixChain(Opening(u, front), Opening(u, bs), StreamBits(u, bs), all);
  }

  lemma PrefixChain(a: seq<int>, b: seq<int>, c: seq<int>, d: seq<int>)
    requires a <= b <= c <= d
    ensures a <= d
  {
  }

  lemma EndIsPrefix(u: Setup, bs: seq<seq<Pair>>, all: seq<int>)
    requires IsSetup(u) && Blocks(bs) && StreamBits(u, bs) <= all
    ensures Opening(u, bs) + BytesBits(END_MAGIC) <= all
  {
    hide Opening, CombinedCrc, IsSetup, Pairs, BitsOf, BytesBits;
  }

  lemma MagicsDiffer(p: seq<int>, rest: seq<int>, all: seq<int>)
    requires p + BytesBits(END_MAGIC) <= all
    ensures !(p + (BytesBits(BLOCK_MAGIC) + rest) <= all)
  {
    hide BytesBits;
    var n := |p| + 48;
    if p + (BytesBits(BLOCK_MAGIC) + rest) <= all {
      assert (p + (BytesBits(BLOCK_MAGIC) + rest))[|p|..n] == BytesBits(BLOCK_MAGIC);
      assert (p + BytesBits(END_MAGIC))[|p|..n] == BytesBits(END_MAGIC);
      BytesBitsUnique(BLOCK_MAGIC, END_MAGIC);
    }
  }

  ghost function Head(crc: int): seq<int> {
    BytesBits(BLOCK_MAGIC) + BitsOf(32, crc) + BitsOf(1, 0)
  }

  lemma BlockParts(u: Setup, ps: seq<Pair>)
    requires IsSetup(u) && Pairs(ps)
    ensures BlockBits(u, ps) == Head(BlockCrc(u, ps)) + CodeOf(u, CodedAll(ps)) && |Head(BlockCrc(u, ps))| == 81
  {
    hide BytesBits, BitsOf, FieldsBits, CodedAll;
  }

  lemma HeadStarts(crc: int, rest: seq<int>)
    ensures Head(crc) + rest == BytesBits(BLOCK_MAGIC) + (BitsOf(32, crc) + BitsOf(1, 0) + rest)
  {
    hide BytesBits, BitsOf;
  }

  lemma SliceOf(p: seq<int>, h: seq<int>, f: seq<int>, all: seq<int>)
    requires p + (h + f) <= all
    ensures h == all[|p|..|p| + |h|] && f == all[|p| + |h|..|p| + |h| + |f|]
  {
    var x := p + (h + f);
    assert x == all[..|x|];
    assert x[|p|..|p| + |h|] == h;
    assert x[|p| + |h|..|p| + |h| + |f|] == f;
  }

  lemma Aligned(p: seq<int>, h: seq<int>, k: seq<int>, f: seq<int>, g: seq<int>, all: seq<int>)
    requires p + (h + f) <= all && p + (k + g) <= all && |h| == |k|
    ensures h == k && (f <= g || g <= f)
  {
    SliceOf(p, h, f, all);
    SliceOf(p, k, g, all);
  }

  lemma SameBlock(u: Setup, x: seq<Pair>, y: seq<Pair>, p: seq<int>, all: seq<int>)
    requires IsSetup(u) && SelfDelimiting(u) && Pairs(x) && Pairs(y)
    requires BlockBytes(u.level, CodedAll(x)) && BlockBytes(u.level, CodedAll(y))
    requires p + BlockBits(u, x) <= all && p + BlockBits(u, y) <= all
    ensures CodedAll(x) == CodedAll(y) && BlockBits(u, x) == BlockBits(u, y)
  {
    hide BlockBits, BlockCrc, CodedAll, CodeOf, Head, IsSetup, Pairs, BlockBytes;
    BlockParts(u, x);
    BlockParts(u, y);
    Aligned(p, Head(BlockCrc(u, x)), Head(BlockCrc(u, y)), CodeOf(u, CodedAll(x)), CodeOf(u, CodedAll(y)), all);
  }

  lemma SameEnd(u: Setup, bs: seq<seq<Pair>>, cs: seq<seq<Pair>>, all: seq<int>)
    requires IsSetup(u) && Blocks(bs) && Blocks(cs) && |bs| <= |cs|
    requires StreamBits(u, bs) <= all && StreamBits(u, cs) <= all
    requires Blocks(cs[..|bs|]) && Opening(u, bs) == Opening(u, cs[..|bs|])
    ensures |bs| == |cs|
  {
    hide Opening, BlockBits, BlockCrc, CodedAll, CodeOf, Head, IsSetup, StreamBits, Pairs;
    if |bs| < |cs| {
      var p, c := Opening(u, bs), cs[|bs|];
      EndIsPrefix(u, bs, all);
      BlockIsPrefix(u, cs, all, |bs|);
      BlockParts(u, c);
      var crc, f := BlockCrc(u, c), CodeOf(u, CodedAll(c));
      HeadStarts(crc, f);
      MagicsDiffer(p, BitsOf(32, crc) + BitsOf(1, 0) + f, all);
    }
  }

  /** What two block lists that begin the same bits have in common, after `i` blocks. */
  ghost predicate Agree(u: Setup, bs: seq<seq<Pair>>, cs: seq<seq<Pair>>, i: nat)
    requires IsSetup(u) && Blocks(bs) && Blocks(cs)
  {
    && i <= |bs| && i <= |cs| && SameCodes(bs, cs, i)
    && Blocks(bs[..i]) && Blocks(cs[..i]) && Opening(u, bs[..i]) == Opening(u, cs[..i])
  }

  lemma AgreeMore(u: Setup, bs: seq<seq<Pair>>, cs: seq<seq<Pair>>, all: seq<int>, i: nat)
    requires IsSetup(u) && SelfDelimiting(u) && Blocks(bs) && Blocks(cs) && Proper(u.level, bs) && Proper(u.level, cs)
    requires StreamBits(u, bs) <= all && StreamBits(u, cs) <= all && i < |bs| && i < |cs| && Agree(u, bs, cs, i)
    ensures Agree(u, bs, cs, i + 1)
  {
    hide Opening, BlockBits, StreamBits, CodedAll, IsSetup, SelfDelimiting, BlockBytes, Pairs;
    BlockIsPrefix(u, bs, all, i);
    BlockIsPrefix(u, cs, all, i);
    SameBlock(u, bs[i], cs[i], Opening(u, bs[..i]), all);
  }

  /** The bytes of a stream determine its blocks. */
  lemma StreamDetermines(u: Setup, bs: seq<seq<Pair>>, cs: seq<seq<Pair>>, out: seq<int>)
    requires IsSetup(u) && SelfDelimiting(u) && Blocks(bs) && Blocks(cs) && Proper(u.level, bs) && Proper(u.level, cs)
    requires IsStream(u, bs, out) && IsStream(u, cs, out)
    ensures |bs| == |cs| && forall i | 0 <= i < |bs| :: CodedAll(bs[i]) == CodedAll(cs[i])
  {
    var all := BytesBits(out);
    PrefixesAgree(u, bs, cs, all);
  }

  lemma PrefixesAgree(u: Setup, bs: seq<seq<Pair>>, cs: seq<seq<Pair>>, all: seq<int>)
    requires IsSetup(u) && SelfDelimiting(u) && Blocks(bs) && Blocks(cs) && Proper(u.level, bs) && Proper(u.level, cs)
    requires StreamBits(u, bs) <= all && StreamBits(u, cs) <= all
    ensures |bs| == |cs| && SameCodes(bs, cs, |bs|)
  {
    hide StreamBits, IsSetup, SelfDelimiting, Proper, Blocks, Opening, SameCodes;
    var i := 0;
    AgreeNone(u, bs, cs);
    while i < |bs| && i < |cs|
      invariant i <= |bs| && i <= |cs| && Agree(u, bs, cs, i)
    {
      AgreeMore(u, bs, cs, all, i);
      i := i + 1;
    }
    assert bs[..|bs|] == bs && cs[..|cs|] == cs;
    if i == |bs| {
      SameEnd(u, bs, cs, all);
    } else {
      SameEnd(u, cs, bs, all);
    }
  }

  lemma AgreeNone(u: Setup, bs: seq<seq<Pair>>, cs: seq<seq<Pair>>)
    requires IsSetup(u) && Blocks(bs) && Blocks(cs)
    ensures Agree(u, bs, cs, 0)
  {
    assert bs[..0] == [] && cs[..0] == [];
  }

  // ---------------------------------------------------------------- the request to finish

  lemma {:induction false} SplitProper(level: int, input: seq<int>)
    requires Bytes(input) && level >= 1
    ensures Proper(level, Split(level, input).done)
  {
    hide Regular, Contents, PlainAll, CodedAll, Add, PlainBlocks;
    if input != [] {
      var before, c := input[..|input| - 1], input[|input| - 1];
      SplitProper(level, before);
      SplitSizes(level, before);
      SplitKeeps(level, before);
      var sp := Split(level, before);
      AddSize(sp.cur, c);
    }
  }

  lemma FinishProper(level: int, a: seq<int>, b: seq<int>)
    requires Bytes(a + b) && level >= 1
    ensures Blocks(FinishBlocks(level, a, b)) && Proper(level, FinishBlocks(level, a, b))
  {
    hide Regular, Contents, PlainAll, CodedAll, Split, Add, Flushed, PlainBlocks;
    FinishKeeps(level, a, b);
    BlockSizes(level, a, b);
    var bs := FinishBlocks(level, a, b);
    forall i | 0 <= i < |bs|
      ensures BlockBytes(level, CodedAll(bs[i]))
    {
      FinishNotEmpty(level, a, b, i);
    }
  }

  lemma FinishNotEmpty(level: int, a: seq<int>, b: seq<int>, i: nat)
    requires Bytes(a + b) && level >= 1 && Blocks(FinishBlocks(level, a, b)) && i < |FinishBlocks(level, a, b)|
    ensures CodedAll(FinishBlocks(level, a, b)[i]) != []
  {
    hide Regular, Contents, PlainAll, CodedAll, Split, Add, Flushed, PlainBlocks, BlockBytes;
    var all := a + b;
    var bs := FinishBlocks(level, a, b);
    var before := if b == [] then a else all[..|all| - 1];
    assert Bytes(before) by { if b == [] { assert all == a; } }
    SplitProper(level, before);
    var done := Split(level, before).done;
    if i < |done| {
      assert bs[i] == done[i];
      assert BlockBytes(level, CodedAll(done[i]));
      BlockNotEmpty(level, CodedAll(done[i]));
    } else {
      assert bs[i] != [];
      AllNotEmpty(bs[i]);
    }
  }

  lemma AllNotEmpty(ps: seq<Pair>)
    requires Pairs(ps) && ps != []
    ensures CodedAll(ps) != []
  {
  }

  lemma BlockNotEmpty(level: int, x: seq<int>)
    requires BlockBytes(level, x)
    ensures x != []
  {
  }

  /** Finishing with the last bytes gives the same compressed bytes as finishing after them, except exactly when the
      last byte fills the block. */
  lemma FinishBytes(u: Setup, a: seq<int>, b: seq<int>, xs: seq<int>, ys: seq<int>)
    requires IsSetup(u) && SelfDelimiting(u) && Bytes(a + b)
    requires Blocks(FinishBlocks(u.level, a, b)) && IsStream(u, FinishBlocks(u.level, a, b), xs)
    requires Blocks(Ended(Split(u.level, a + b))) && IsStream(u, Ended(Split(u.level, a + b)), ys)
    ensures xs == ys <==> b == [] || !Full(u.level, LastCurrent(u.level, a + b))
  {
    hide SelfDelimiting, IsStream, FinishBlocks, Split, Ended, Full, LastCurrent, Proper, Blocks;
    FinishMatters(u.level, a, b);
    FinishProper(u.level, a, b);
    assert a + b + [] == a + b;
    FinishProper(u.level, a + b, []);
    EndedIsFinish(u.level, a + b);
    if b == [] || !Full(u.level, LastCurrent(u.level, a + b)) {
      StreamUnique(u, FinishBlocks(u.level, a, b), xs, ys);
    } else if xs == ys {
      StreamDetermines(u, FinishBlocks(u.level, a, b), Ended(Split(u.level, a + b)), xs);
    }
  }

  lemma EndedIsFinish(level: int, a: seq<int>)
    ensures FinishBlocks(level, a, []) == Ended(Split(level, a))
  {
  }

  /** At every level the way of finishing shows in the bytes for some input. */
  lemma FinishShows(u: Setup, xs: seq<int>, ys: seq<int>)
    requires IsSetup(u) && SelfDelimiting(u)
    requires var b := Alternating(BlockMax(u.level) + 1);
             && Blocks(FinishBlocks(u.level, [], b)) && IsStream(u, FinishBlocks(u.level, [], b), xs)
             && Blocks(Ended(Split(u.level, b))) && IsStream(u, Ended(Split(u.level, b)), ys)
    ensures xs != ys
  {
    hide SelfDelimiting, IsStream, FinishBlocks, Split, Ended, Full, LastCurrent, Blocks, Alternating, IsSetup;
    SetupLevel(u);
    var b := Alternating(BlockMax(u.level) + 1);
    assert [] + b == b;
    AlternatingFills(u.level);
    FinishBytes(u, [], b, xs, ys);
  }

  // ---------------------------------------------------------------- arbitrary calls

  ghost function Sum(xs: seq<nat>): nat {
    if xs == [] then 0 else Sum(xs[..|xs| - 1]) + xs[|xs| - 1]
  }

  lemma SumMore(xs: seq<nat>, i: nat)
    requires i < |xs|
    ensures Sum(xs[..i + 1]) == Sum(xs[..i]) + xs[i]
  {
    assert xs[..i + 1][..i] == xs[..i];
  }

  lemma {:induction false} SumGrows(xs: seq<nat>, i: nat)
    requires i <= |xs|
    ensures Sum(xs[..i]) <= Sum(xs)
    decreases |xs|
  {
    if i < |xs| {
      assert xs[..|xs| - 1][..i] == xs[..i];
      SumGrows(xs[..|xs| - 1], i);
    } else {
      assert xs[..i] == xs;
    }
  }

  /** Calls with input: each takes what it can with the room it has. */
  method RunCalls(c: Compressor, runs: seq<(seq<int>, nat)>) returns (fed: seq<int>, out: seq<int>)
    requires c.Valid() && c.mode == Running && c.runInput == [] && c.produced == []
    requires forall i | 0 <= i < |runs| :: Bytes(runs[i].0)
    modifies c, c.s, c.s.buf, c.s.buf.block, c.s.buf.inUse, c.s.bits
    ensures c.Valid() && c.mode == Running && c.runInput == fed && c.produced == out
  {
    hide IsSetup, IsStream, FinishBlocks, Blocks, StreamLength;
    hide Compressor.Consistent;
    fed, out := [], [];
    for i := 0 to |runs|
      invariant c.Valid() && c.mode == Running && c.runInput == fed && c.produced == out
    {
      var code, rest, piece := c.Compress(Run, runs[i].0, runs[i].1);
      fed := fed + runs[i].0[..|runs[i].0| - |rest|];
      out := out + piece;
    }
  }

  /** One call that asks to finish, of a stream with the blocks `bs`. */
  method FinishOnce(c: Compressor, rest: seq<int>, space: nat, ghost b: seq<int>, ghost bs: seq<seq<Pair>>)
    returns (finished: bool, rest': seq<int>, piece: seq<int>)
    requires c.Valid() && c.Accepts(|rest|) && Bytes(rest) && c.finishInput + rest == b && IsSetup(c.s.setup)
    requires bs == FinishBlocks(c.s.setup.level, c.runInput, b) && Blocks(bs)
    modifies c, c.s, c.s.buf, c.s.buf.block, c.s.buf.inUse, c.s.bits
    ensures c.Valid() && c.produced == old(c.produced) + piece && c.runInput == old(c.runInput)
    ensures finished <==> |old(c.produced)| + space >= StreamLength(c.s.setup, bs)
    ensures finished ==> IsStream(c.s.setup, bs, c.produced)
    ensures !finished ==>
              && c.Accepts(|rest'|) && Bytes(rest') && c.finishInput + rest' == b
              && |piece| == space && |c.produced| < StreamLength(c.s.setup, bs)
  {
    hide IsSetup, IsStream, FinishBlocks, Blocks, StreamLength;
    hide Compressor.Consistent;
    ghost var before := c.finishInput;
    var code;
    code, rest', piece := c.Compress(Finish, rest, space);
    ghost var taken := rest[..|rest| - |rest'|];
    SuffixBytes(rest, taken, rest');
    assert before + taken + rest' == before + (taken + rest');
    finished := code == StreamEnd;
  }

  /** Calls that finish: the first brings the last input `b`, each later one what the one before left. */
  method FinishCalls(c: Compressor, b: seq<int>, spaces: seq<nat>) returns (out: seq<int>, finished: bool)
    requires c.Valid() && c.mode == Running && Bytes(b)
    modifies c, c.s, c.s.buf, c.s.buf.block, c.s.buf.inUse, c.s.bits
    ensures IsSetup(c.s.setup)
    ensures var bs := FinishBlocks(c.s.setup.level, old(c.runInput), b);
            && Blocks(bs)
            && (finished <==> |old(c.produced)| + Sum(spaces) >= StreamLength(c.s.setup, bs))
            && (finished ==> IsStream(c.s.setup, bs, old(c.produced) + out))
  {
    hide IsSetup, IsStream, FinishBlocks, Blocks, StreamLength, Sum;
    hide Compressor.Consistent;
    out, finished := [], false;
    c.NotEnded();
    c.NothingFinished();
    c.TooShort(b);
    var rest := b;
    ghost var u, before := c.s.setup, c.produced;
    assert [] + b == b;
    ghost var bs := FinishBlocks(u.level, c.runInput, b);
    SumNone(spaces);
    for i := 0 to |spaces|
      invariant c.Valid() && c.Accepts(|rest|) && Bytes(rest) && c.runInput == old(c.runInput)
          && c.finishInput + rest == b
      invariant c.produced == before + out && |out| == Sum(spaces[..i]) && |before| + |out| < StreamLength(u, bs)
          && !finished
    {
      var piece;
      finished, rest, piece := FinishOnce(c, rest, spaces[i], b, bs);
      SumMore(spaces, i);
      assert before + out + piece == before + (out + piece);
      out := out + piece;
      if finished {
        SumGrows(spaces, i + 1);
        return;
      }
    }
    assert spaces[..|spaces|] == spaces;
  }

  lemma SumNone(xs: seq<nat>)
    ensures Sum(xs[..0]) == 0
  {
  }

  /** Makes a sequence of calls of the sequential compressor: some with input, then some that finish.  They finish
      exactly when the room is enough for the whole stream. */
  method MakeCalls(u: Setup, runs: seq<(seq<int>, nat)>, b: seq<int>, spaces: seq<nat>)
    returns (fed: seq<int>, early: seq<int>, late: seq<int>, finished: bool)
    requires IsSetup(u) && Bytes(b) && forall i | 0 <= i < |runs| :: Bytes(runs[i].0)
    ensures Bytes(fed)
    ensures var bs := FinishBlocks(u.level, fed, b);
            && Blocks(bs)
            && (finished <==> |early| + Sum(spaces) >= StreamLength(u, bs))
            && (finished ==> IsStream(u, bs, early + late))
  {
    hide IsSetup, IsStream, FinishBlocks, Blocks, StreamLength, Sum;
    hide Compressor.Consistent;
    var c := new Compressor(u);
    fed, early := RunCalls(c, runs);
    c.NothingFinished();
    late, finished := FinishCalls(c, b, spaces);
  }

  // ---------------------------------------------------------------- the file interface

  datatype Status = Ok | Failed(code: Code)

  method WriteOnce(c: Compressor, rest: seq<int>) returns (code: Code, rest': seq<int>, piece: seq<int>)
    requires c.Valid() && Bytes(rest) && rest != []
    modifies c, c.s, c.s.buf, c.s.buf.block, c.s.buf.inUse, c.s.bits
    ensures c.Valid() && c.mode == old(c.mode) && c.produced == old(c.produced) + piece
        && c.finishInput == old(c.finishInput)
    ensures c.mode == Running ==>
              && code == RunOk && Bytes(rest') && c.runInput + rest' == old(c.runInput) + rest
              && (rest' == [] || |piece| == MAX_UNUSED)
    ensures c.mode != Running ==> code == SequenceError && piece == [] && c.runInput == old(c.runInput)
  {
    hide IsSetup, IsStream, FinishBlocks, Blocks, StreamLength;
    hide Compressor.Consistent;
    ghost var fed := c.runInput;
    code, rest', piece := c.Compress(Run, rest, MAX_UNUSED);
    ghost var taken := rest[..|rest| - |rest'|];
    SuffixBytes(rest, taken, rest');
    assert fed + taken + rest' == fed + (taken + rest');
    assert code == SequenceError ==> taken == [] && fed + [] == fed;
  }

  /** How long a stream can become that still has input to take. */
  ghost function Bound(c: Compressor, rest: seq<int>): int
    requires IsSetup(c.s.setup) && Bytes(c.runInput) && Bytes(rest)
    reads c
  {
    FinishBlocksAre(c.s.setup, c.runInput, rest);
    StreamLength(c.s.setup, FinishBlocks(c.s.setup.level, c.runInput, rest))
  }

  lemma BelowBound(c: Compressor, rest: seq<int>)
    requires c.Valid() && c.mode == Running && Bytes(rest)
    ensures IsSetup(c.s.setup) && Bytes(c.runInput) && |c.produced| < Bound(c, rest)
  {
    hide IsSetup, FinishBlocks, Blocks, StreamLength;
    hide Compressor.Consistent;
    c.NothingFinished();
    c.NotEnded();
    assert [] + rest == rest;
    c.TooShort(rest);
  }

  /** Writes all of a buffer, in pieces of at most 5000 compressed bytes. */
  method Write(c: Compressor, buf: seq<int>) returns (status: Status, out: seq<int>)
    requires c.Valid() && Bytes(buf)
    modifies c, c.s, c.s.buf, c.s.buf.block, c.s.buf.inUse, c.s.bits
    ensures c.Valid() && c.mode == old(c.mode) && c.produced == old(c.produced) + out
        && c.finishInput == old(c.finishInput)
    ensures c.mode == Running || buf == [] ==> status == Ok && c.runInput == old(c.runInput) + buf
    ensures c.mode != Running && buf != [] ==>
        status == Failed(SequenceError) && out == [] && c.runInput == old(c.runInput)
  {
    hide IsSetup, FinishBlocks, Blocks, StreamLength;
    hide Compressor.Consistent;
    out := [];
    assert c.produced + [] == c.produced && c.runInput + [] == c.runInput;
    if buf == [] {
      return Ok, out;
    }
    var rest := buf;
    ghost var fed, bound := c.runInput, 0;
    if c.mode == Running {
      BelowBound(c, rest);
      bound := Bound(c, rest);
    }
    while true
      invariant c.Valid() && c.mode == old(c.mode) && c.produced == old(c.produced) + out
          && c.finishInput == old(c.finishInput)
      invariant rest != [] && Bytes(rest) && c.runInput + rest == fed + buf
      invariant c.mode != Running ==> out == [] && c.runInput == fed
      invariant c.mode == Running ==> IsSetup(c.s.setup) && Bytes(c.runInput) && |c.produced| < bound == Bound(c, rest)
      decreases bound - |c.produced|
    {
      var code, rest', piece := WriteOnce(c, rest);
      out := out + piece;
      if code != RunOk {
        return Failed(code), out;
      }
      if rest' == [] {
        assert c.runInput + [] == c.runInput;
        return Ok, out;
      }
      BelowBound(c, rest');
      FinishRegroup(c.s.setup.level, c.runInput, rest', fed, buf);
      rest := rest';
    }
  }

  /** With input left, only the whole input matters. */
  lemma FinishRegroup(level: int, a: seq<int>, b: seq<int>, a': seq<int>, b': seq<int>)
    requires b != [] && b' != [] && a + b == a' + b'
    ensures FinishBlocks(level, a, b) == FinishBlocks(level, a', b')
  {
  }

  /** Finishes the stream, in pieces of at most 5000 compressed bytes. */
  method WriteClose(c: Compressor) returns (out: seq<int>)
    requires c.Valid() && c.mode == Running
    modifies c, c.s, c.s.buf, c.s.buf.block, c.s.buf.inUse, c.s.bits
    ensures IsSetup(c.s.setup)
    ensures var bs := Ended(Split(c.s.setup.level, old(c.runInput)));
            Blocks(bs) && IsStream(c.s.setup, bs, old(c.produced) + out)
  {
    hide IsSetup, IsStream, FinishBlocks, Blocks, StreamLength, Ended, Split;
    hide Compressor.Consistent;
    out := [];
    c.NothingFinished();
    c.NotEnded();
    c.TooShort([]);
    ghost var u, before, fed := c.s.setup, c.produced, c.runInput;
    EndedIsFinish(u.level, fed);
    assert c.finishInput + [] == [];
    ghost var bound := StreamLength(u, FinishBlocks(u.level, fed, []));
    while true
      invariant c.Valid() && c.Accepts(0) && c.runInput == fed && c.finishInput == [] && c.produced == before + out
      invariant |c.produced| < bound
      decreases bound - |c.produced|
    {
      var code, rest, piece := c.Compress(Finish, [], MAX_UNUSED);
      assert before + out + piece == before + (out + piece);
      out := out + piece;
      if code == StreamEnd {
        return;
      }
    }
  }

  /** Opens a file, writes all pieces and closes it. */
  method WriteAll(u: Setup, pieces: seq<seq<int>>) returns (out: seq<int>)
    requires IsSetup(u) && forall i | 0 <= i < |pieces| :: Bytes(pieces[i])
    ensures Bytes(Flatten(pieces))
    ensures var bs := Ended(Split(u.level, Flatten(pieces)));
            Blocks(bs) && IsStream(u, bs, out)
  {
    hide IsSetup, IsStream, Blocks, Ended, Split, Flatten;
    hide Compressor.Consistent;
    FlattenBytes(pieces);
    var c := new Compressor(u);
    out := [];
    FlattenNone();
    assert pieces[..0] == [];
    for i := 0 to |pieces|
      invariant c.Valid() && c.mode == Running && c.runInput == Flatten(pieces[..i]) && c.produced == out
    {
      var status, piece := Write(c, pieces[i]);
      out := out + piece;
      assert pieces[..i + 1] == pieces[..i] + [pieces[i]];
      FlattenMore(pieces[..i], pieces[i]);
    }
    assert pieces[..|pieces|] == pieces;
    var last := WriteClose(c);
    out := out + last;
  }

  /** Compresses a whole buffer into another with one call: the request to finish brings all the input. */
  method BuffToBuffCompress(u: Setup, source: seq<int>, destLen: nat) returns (code: Code, dest: seq<int>)
    requires IsSetup(u) && Bytes(source)
    ensures var bs := FinishBlocks(u.level, [], source);
            && Blocks(bs)
            && (code == StreamEnd <==> destLen >= StreamLength(u, bs))
            && (code == StreamEnd ==> IsStream(u, bs, dest))
    ensures code != StreamEnd ==> code == FinishOk || (code == SequenceError && destLen == 0)
  {
    hide IsSetup, IsStream, FinishBlocks, Blocks, StreamLength;
    hide Compressor.Consistent;
    var c := new Compressor(u);
    var rest;
    assert [] + source == source;
    code, rest, dest := c.Compress(Finish, source, destLen);
    assert [] + dest == dest;
  }

  // ---------------------------------------------------------------- the same bytes

  /** However the input is cut into pieces for the file interface and into chunks for the reader, the sequential
      compressor and the one with a stream per block produce the same bytes. */
  method SameBytes(u: Setup, pieces: seq<seq<int>>, chunks: seq<seq<int>>)
    returns (sequential: seq<int>, parallel: seq<int>)
    requires IsSetup(u) && Chunks(chunks) && (forall i | 0 <= i < |pieces| :: Bytes(pieces[i]))
        && Flatten(pieces) == Flatten(chunks)
    ensures sequential == parallel
  {
    hide IsStream, Split, Ended, Blocks, IsSetup, Flatten;
    sequential := WriteAll(u, pieces);
    parallel := CompressInStreams(u, chunks);
    StreamUnique(u, Ended(Split(u.level, Flatten(chunks))), sequential, parallel);
  }

  /** The same for arbitrary calls with arbitrary room that finish with any part of the input, exactly unless the last
      byte fills a block and comes with the request to finish. */
  method SameBytesFromCalls(u: Setup, runs: seq<(seq<int>, nat)>, b: seq<int>, spaces: seq<nat>, chunks: seq<seq<int>>)
    returns (fed: seq<int>, early: seq<int>, late: seq<int>, finished: bool, parallel: seq<int>)
    requires IsSetup(u) && Chunks(chunks) && Bytes(b) && forall i | 0 <= i < |runs| :: Bytes(runs[i].0)
    ensures Bytes(fed) && Blocks(FinishBlocks(u.level, fed, b))
    ensures finished <==> |early| + Sum(spaces) >= StreamLength(u, FinishBlocks(u.level, fed, b))
    ensures finished && fed + b == Flatten(chunks) && (b == [] || !Full(u.level, LastCurrent(u.level, fed + b))) ==>
              early + late == parallel
    ensures (finished && fed + b == Flatten(chunks) && b != []
             && Full(u.level, LastCurrent(u.level, fed + b)) && SelfDelimiting(u)) ==>
              early + late != parallel
  {
    hide IsStream, Split, Ended, Blocks, IsSetup, Flatten, FinishBlocks, Full, LastCurrent, SelfDelimiting;
    hide StreamLength, Sum;
    fed, early, late, finished := MakeCalls(u, runs, b, spaces);
    parallel := CompressInStreams(u, chunks);
    if finished && fed + b == Flatten(chunks) {
      SetupLevel(u);
      FinishMatters(u.level, fed, b);
      if b == [] || !Full(u.level, LastCurrent(u.level, fed + b)) {
        StreamUnique(u, Ended(Split(u.level, Flatten(chunks))), early + late, parallel);
      } else if SelfDelimiting(u) {
        FinishBytes(u, fed, b, early + late, parallel);
      }
    }
  }
}
