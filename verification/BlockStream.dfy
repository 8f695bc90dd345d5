/** Compressed streams. */
module BlockStream {
  // One sequential compressor, and one stream per block with saved and restored state.

  import opened Arith
  import opened BitStrings
  import opened BitStream
  import opened Fields
  import opened RunLength
  import opened Sequences

  // ---------------------------------------------------------------- what a stream is

  /** The level, the checksum table, and the compression of one block as the fields that it writes. */
  datatype Setup = Setup(level: int, table: seq<int>, encode: (seq<int>, seq<bool>) -> seq<Field>)

  ghost predicate IsSetup(u: Setup) {
    1 <= u.level <= 9 && Table(u.table) && forall bytes, inUse :: AreFields(u.encode(bytes, inUse))
  }

  function BlockMax(level: int): int {
    100_000 * level - 19
  }

  function Not32(x: int): (r: int)
    requires 0 <= x < WORD
    ensures 0 <= r < WORD
  {
    WORD - 1 - x
  }

  function RotateLeft(x: int): (r: int)
    requires 0 <= x < WORD
    ensures 0 <= r < WORD
  {
    x * 2 % WORD + x / 0x8000_0000
  }

  /** The checksum of the stream after one more block. */
  function Combine(combined: int, crc: int): (r: int)
    requires 0 <= combined < WORD && 0 <= crc < WORD
    ensures 0 <= r < WORD
  {
    XorWord(RotateLeft(combined), crc);
    Xor(RotateLeft(combined), crc)
  }

  ghost function BlockCrc(u: Setup, ps: seq<Pair>): (r: int)
    requires IsSetup(u) && Pairs(ps)
    ensures 0 <= r < WORD
  {
    Not32(Crc(u.table, PlainAll(ps)))
  }

  ghost predicate Blocks(bs: seq<seq<Pair>>) {
    forall i | 0 <= i < |bs| :: Pairs(bs[i])
  }

  ghost function CombinedCrc(u: Setup, bs: seq<seq<Pair>>): (r: int)
    requires IsSetup(u) && Blocks(bs)
    ensures 0 <= r < WORD
  {
    if bs == [] then 0 else Combine(CombinedCrc(u, bs[..|bs| - 1]), BlockCrc(u, bs[|bs| - 1]))
  }

  const HEADER: seq<int> := [0x42, 0x5a, 0x68]
  const BLOCK_MAGIC: seq<int> := [0x31, 0x41, 0x59, 0x26, 0x53, 0x59]
  const END_MAGIC: seq<int> := [0x17, 0x72, 0x45, 0x38, 0x50, 0x90]

  ghost function HeaderBits(u: Setup): seq<int> {
    BytesBits(HEADER) + BitsOf(8, 0x30 + u.level)
  }

  ghost function BlockBits(u: Setup, ps: seq<Pair>): (bits: seq<int>)
    requires IsSetup(u) && Pairs(ps)
  {
    var bytes := CodedAll(ps);
    BytesBits(BLOCK_MAGIC) + BitsOf(32, BlockCrc(u, ps)) + BitsOf(1, 0) + FieldsBits(u.encode(bytes, InUse(bytes)))
  }

  /** The header and some blocks. */
  ghost function Opening(u: Setup, bs: seq<seq<Pair>>): (bits: seq<int>)
    requires IsSetup(u) && Blocks(bs)
  {
    if bs == [] then HeaderBits(u) else Opening(u, bs[..|bs| - 1]) + BlockBits(u, bs[|bs| - 1])
  }

  /** A whole stream. */
  ghost function StreamBits(u: Setup, bs: seq<seq<Pair>>): (bits: seq<int>)
    requires IsSetup(u) && Blocks(bs)
  {
    Opening(u, bs) + BytesBits(END_MAGIC) + BitsOf(32, CombinedCrc(u, bs))
  }

  /** The bytes of a whole stream: its bits and the zeros that fill up the last byte. */
  ghost predicate IsStream(u: Setup, bs: seq<seq<Pair>>, bytes: seq<int>)
    requires IsSetup(u) && Blocks(bs)
  {
    && Bytes(bytes)
    && var bits := StreamBits(u, bs);
       0 <= 8 * |bytes| - |bits| < 8 && BytesBits(bytes) == bits + Zeros(8 * |bytes| - |bits|)
  }

  /** How many bytes a whole stream has. */
  ghost function StreamLength(u: Setup, bs: seq<seq<Pair>>): int
    requires IsSetup(u) && Blocks(bs)
  {
    (|StreamBits(u, bs)| + 7) / 8
  }

  lemma StreamUnique(u: Setup, bs: seq<seq<Pair>>, xs: seq<int>, ys: seq<int>)
    requires IsSetup(u) && Blocks(bs) && IsStream(u, bs, xs) && IsStream(u, bs, ys)
    ensures xs == ys
  {
    hide StreamBits, BytesBits;
    assert |xs| == |ys|;
    BytesBitsUnique(xs, ys);
  }

  // ---------------------------------------------------------------- how the input falls into blocks

  /** Finished blocks, and the runs of the current one. */
  datatype Splitter = Splitter(done: seq<seq<Pair>>, cur: Runs)

  ghost predicate Orderly(sp: Splitter) {
    && Blocks(sp.done) && Regular(sp.cur) && (sp.cur.len == 0 ==> sp.cur.pairs == [])
    && forall i | 0 <= i < |sp.done| :: Separated(sp.done[i])
  }

  ghost predicate Full(level: int, cur: Runs) {
    Pairs(cur.pairs) && |CodedAll(cur.pairs)| >= BlockMax(level)
  }

  /** A full block is closed and its pending run carried over. */
  ghost function Closed(level: int, sp: Splitter): (r: Splitter) {
    if Full(level, sp.cur) then Splitter(sp.done + [sp.cur.pairs], Carried(sp.cur)) else sp
  }

  ghost function Split(level: int, input: seq<int>): (sp: Splitter) {
    if input == [] then Splitter([], Runs(256, 0, []))
    else
      var sp := Split(level, input[..|input| - 1]);
      Closed(level, Splitter(sp.done, Add(sp.cur, input[|input| - 1])))
  }

  /** The blocks of a stream that ends here. */
  ghost function Ended(sp: Splitter): (bs: seq<seq<Pair>>) {
    var last := Flushed(sp.cur).pairs;
    if last == [] then sp.done else sp.done + [last]
  }

  ghost function PlainBlocks(bs: seq<seq<Pair>>): (xs: seq<int>)
    requires Blocks(bs)
  {
    if bs == [] then [] else PlainBlocks(bs[..|bs| - 1]) + PlainAll(bs[|bs| - 1])
  }

  lemma BlocksMore(bs: seq<seq<Pair>>, b: seq<Pair>)
    requires Blocks(bs) && Pairs(b)
    ensures Blocks(bs + [b]) && PlainBlocks(bs + [b]) == PlainBlocks(bs) + PlainAll(b)
  {
    assert (bs + [b])[..|bs|] == bs;
  }

  /** Closing a block loses nothing. */
  lemma ClosedKeeps(level: int, sp: Splitter)
    requires Orderly(sp)
    ensures Orderly(Closed(level, sp))
    ensures PlainBlocks(Closed(level, sp).done) + Contents(Closed(level, sp).cur) ==
        PlainBlocks(sp.done) + Contents(sp.cur)
  {
    hide PlainAll, Contents, Regular, CodedAll;
    if Full(level, sp.cur) {
      CarryKeeps(sp.cur);
      BlocksMore(sp.done, sp.cur.pairs);
      assert PlainBlocks(sp.done) + PlainAll(sp.cur.pairs) + Contents(Carried(sp.cur)) ==
          PlainBlocks(sp.done) + (PlainAll(sp.cur.pairs) + Contents(Carried(sp.cur)));
    }
  }

  /** The blocks and the pending run stand for the input. */
  lemma {:induction false} SplitKeeps(level: int, input: seq<int>)
    requires Bytes(input)
    ensures Orderly(Split(level, input))
    ensures PlainBlocks(Split(level, input).done) + Contents(Split(level, input).cur) == input
  {
    hide PlainAll, Contents, Regular, Closed;
    if input == [] {
      StartRegular();
    } else {
      var before, c := input[..|input| - 1], input[|input| - 1];
      SplitKeeps(level, before);
      var sp := Split(level, before);
      AddKeeps(sp.cur, c);
      var sp' := Splitter(sp.done, Add(sp.cur, c));
      assert sp'.cur.len != 0 by { RegularParts(sp.cur); }
      ClosedKeeps(level, sp');
      assert PlainBlocks(sp.done) + (Contents(sp.cur) + [c]) == PlainBlocks(sp.done) + Contents(sp.cur) + [c];
    }
  }

  lemma StartRegular()
    ensures Regular(Runs(256, 0, [])) && Contents(Runs(256, 0, [])) == []
  {
    AllNone();
    assert Pending(Runs(256, 0, [])) == [] && [] + Pending(Runs(256, 0, [])) == [];
  }

  /** The blocks of a whole stream stand for its input, and each can be expanded again. */
  lemma EndedKeeps(level: int, input: seq<int>)
    requires Bytes(input)
    ensures var bs := Ended(Split(level, input));
            && Blocks(bs) && PlainBlocks(bs) == input
            && forall i | 0 <= i < |bs| :: Separated(bs[i])
  {
    hide PlainAll, Split, Regular, CodedAll;
    SplitKeeps(level, input);
    var sp := Split(level, input);
    FlushKeeps(sp.cur);
    RegularParts(Flushed(sp.cur));
    var last := Flushed(sp.cur).pairs;
    assert Contents(sp.cur) == PlainAll(last);
    if last == [] {
      AllNone();
      assert PlainBlocks(sp.done) + [] == PlainBlocks(sp.done);
    } else {
      BlocksMore(sp.done, last);
    }
  }

  // ---------------------------------------------------------------- one compression stream

  ghost function TrailerBits(combined: int): seq<int> {
    BytesBits(END_MAGIC) + BitsOf(32, combined)
  }

  lemma TrailerLength(combined: int)
    ensures |TrailerBits(combined)| == 80
  {
    assert |BytesBits(END_MAGIC)| == 48;
  }

  /** Writes some bytes. */
  method PutBytes(bits: BitWriter, bytes: seq<int>)
    requires bits.Valid() && Bytes(bytes)
    modifies bits
    ensures bits.Valid() && bits.Written() == old(bits.Written()) + BytesBits(bytes)
  {
    hide Clean, Waiting, BytesBits;
    assert bytes[..0] == [];
    BytesBitsNone();
    assert bits.Written() + [] == bits.Written();
    for i := 0 to |bytes|
      invariant bits.Valid() && bits.Written() == old(bits.Written()) + BytesBits(bytes[..i])
    {
      assert bytes[..i + 1] == bytes[..i] + [bytes[i]];
      BytesBitsMore(bytes[..i], bytes[i]);
      bits.PutUChar(bytes[i]);
      assert old(bits.Written()) + BytesBits(bytes[..i]) + BitsOf(8, bytes[i]) ==
          old(bits.Written()) + (BytesBits(bytes[..i]) + BitsOf(8, bytes[i]));
    }
    assert bytes[..|bytes|] == bytes;
  }

  method PutHeader(bits: BitWriter, u: Setup)
    requires bits.Valid() && bits.zbits == [] && IsSetup(u)
    modifies bits
    ensures bits.Valid() && bits.Written() == HeaderBits(u)
  {
    hide Clean, Waiting, BytesBits, BitsOf;
    bits.InitWrite();
    BytesBitsNone();
    PutBytes(bits, HEADER);
    bits.PutUChar(0x30 + u.level);
    assert [] + BytesBits(HEADER) == BytesBits(HEADER);
  }

  ghost function BlockFieldBits(crc: int, fs: seq<Field>): seq<int>
    requires AreFields(fs)
  {
    BytesBits(BLOCK_MAGIC) + BitsOf(32, crc) + BitsOf(1, 0) + FieldsBits(fs)
  }

  method PutBlock(bits: BitWriter, crc: int, fs: seq<Field>)
    requires bits.Valid() && 0 <= crc < WORD && AreFields(fs)
    modifies bits
    ensures bits.Valid() && bits.Written() == old(bits.Written()) + BlockFieldBits(crc, fs)
  {
    hide Clean, Waiting, BytesBits, BitsOf, FieldsBits;
    ghost var w := bits.Written();
    PutBytes(bits, BLOCK_MAGIC);
    bits.PutUInt32(crc);
    bits.W(1, 0);
    PutFields(bits, fs);
    Associate(w, BytesBits(BLOCK_MAGIC), BitsOf(32, crc), BitsOf(1, 0), FieldsBits(fs));
  }

  method PutTrailer(bits: BitWriter, combined: int)
    requires bits.Valid() && 0 <= combined < WORD
    modifies bits
    ensures Bytes(bits.zbits)
    ensures var all := old(bits.Written()) + TrailerBits(combined);
            0 <= 8 * |bits.zbits| - |all| < 8 && BytesBits(bits.zbits) == all + Zeros(8 * |bits.zbits| - |all|)
  {
    hide Clean, Waiting, BytesBits, BitsOf;
    ghost var w := bits.Written();
    PutBytes(bits, END_MAGIC);
    bits.PutUInt32(combined);
    assert w + BytesBits(END_MAGIC) + BitsOf(32, combined) == w + TrailerBits(combined);
    bits.FinishWrite();
  }

  /** Before block number `blockNo`: the checksum and the bits so far are those of the finished blocks. */
  ghost predicate Between(u: Setup, done: seq<seq<Pair>>, blockNo: int, combined: int, produced: seq<int>,
      written: seq<int>) {
    && IsSetup(u) && Blocks(done) && blockNo == |done| + 1 && combined == CombinedCrc(u, done) && Bytes(produced)
    && if done == [] then produced == [] && written == [] else BytesBits(produced) + written == Opening(u, done)
  }

  lemma OpeningMore(u: Setup, done: seq<seq<Pair>>, ps: seq<Pair>)
    requires IsSetup(u) && Blocks(done) && Pairs(ps)
    ensures Blocks(done + [ps]) && Opening(u, done + [ps]) == Opening(u, done) + BlockBits(u, ps)
    ensures CombinedCrc(u, done + [ps]) == Combine(CombinedCrc(u, done), BlockCrc(u, ps))
  {
    assert (done + [ps])[..|done|] == done;
  }

  /** One more block on top of what was written. */
  lemma OneMoreBlock(u: Setup, done: seq<seq<Pair>>, blockNo: int, combined: int, produced: seq<int>, written: seq<int>,
      ps: seq<Pair>)
    requires Between(u, done, blockNo, combined, produced, written) && Pairs(ps)
    ensures Blocks(done + [ps]) && CombinedCrc(u, done + [ps]) == Combine(combined, BlockCrc(u, ps))
    ensures var through := (if blockNo == 1 then HeaderBits(u) else written) + BlockBits(u, ps);
            BytesBits(produced) + through == Opening(u, done + [ps])
  {
    hide BlockBits, HeaderBits, BlockCrc, Combine, IsSetup, Pairs;
    OpeningMore(u, done, ps);
    if done == [] {
      OpeningNone(u);
      assert BytesBits([]) + (HeaderBits(u) + BlockBits(u, ps)) == HeaderBits(u) + BlockBits(u, ps);
    } else {
      assert BytesBits(produced) + (written + BlockBits(u, ps)) == BytesBits(produced) + written + BlockBits(u, ps);
    }
  }

  lemma NoMoreBlocks(u: Setup, done: seq<seq<Pair>>, blockNo: int, combined: int, produced: seq<int>, written: seq<int>)
    requires Between(u, done, blockNo, combined, produced, written)
    ensures Blocks(done) && Bytes(produced) && combined == CombinedCrc(u, done)
    ensures BytesBits(produced) + ((if blockNo == 1 then HeaderBits(u) else written) + []) == Opening(u, done)
  {
    if done == [] {
      OpeningNone(u);
    }
  }

  lemma OpeningNone(u: Setup)
    requires IsSetup(u)
    ensures Opening(u, []) == HeaderBits(u)
  {
  }

  /** The trailer completes the stream. */
  lemma Completed(u: Setup, bs: seq<seq<Pair>>, produced: seq<int>, through: seq<int>, zbits: seq<int>)
    requires IsSetup(u) && Blocks(bs) && Bytes(produced) && Bytes(zbits)
        && BytesBits(produced) + through == Opening(u, bs)
    requires var all := through + TrailerBits(CombinedCrc(u, bs));
             0 <= 8 * |zbits| - |all| < 8 && BytesBits(zbits) == all + Zeros(8 * |zbits| - |all|)
    ensures IsStream(u, bs, produced + zbits)
  {
    hide Opening, CombinedCrc, BytesBits, IsSetup, Blocks, StreamBits, TrailerBits, Zeros;
    var trailer := TrailerBits(CombinedCrc(u, bs));
    var pad := Zeros(8 * |zbits| - |through + trailer|);
    BytesBitsConcat(produced, zbits);
    StreamIs(u, bs);
    Regrouped(BytesBits(produced), through, trailer, pad);
  }

  lemma Regrouped(a: seq<int>, b: seq<int>, c: seq<int>, d: seq<int>)
    ensures a + (b + c + d) == a + b + c + d
  {
  }

  lemma StreamIs(u: Setup, bs: seq<seq<Pair>>)
    requires IsSetup(u) && Blocks(bs)
    ensures StreamBits(u, bs) == Opening(u, bs) + TrailerBits(CombinedCrc(u, bs))
  {
    assert Opening(u, bs) + (BytesBits(END_MAGIC) + BitsOf(32, CombinedCrc(u, bs))) ==
        Opening(u, bs) + BytesBits(END_MAGIC) + BitsOf(32, CombinedCrc(u, bs));
  }

  lemma BetweenFacts(u: Setup, done: seq<seq<Pair>>, blockNo: int, combined: int, produced: seq<int>, written: seq<int>)
    requires Between(u, done, blockNo, combined, produced, written)
    ensures Blocks(done) && combined == CombinedCrc(u, done) && Bytes(produced) && blockNo == |done| + 1
  {
  }

  /** The state handed from block to block on the input side. */
  datatype Saved = Saved(ch: int, len: int, blockNo: int, combined: int)

  /** The state handed from block to block on the output side. */
  datatype SavedOut = SavedOut(bsBuff: int, bsLive: int)

  class Stream {
    const setup: Setup
    const buf: BlockBuffer
    const bits: BitWriter
    var blockNo: int
    var blockCrc: int
    var combinedCrc: int

    /** The parts are in order and lie where they should. */
    ghost predicate Valid()
      reads this, buf, buf.block, buf.inUse, bits
    {
      && IsSetup(setup) && buf.table == setup.table && buf.block.Length == 100_000 * setup.level
      && buf.Valid() && bits.Valid() && 0 <= combinedCrc < WORD && 0 <= blockCrc < WORD && blockNo >= 1
    }

    constructor (setup: Setup)
      requires IsSetup(setup)
      ensures Valid() && this.setup == setup && fresh(buf) && fresh(buf.block) && fresh(buf.inUse) && fresh(bits)
      ensures blockNo == 1 && combinedCrc == 0 && bits.zbits == [] && bits.bsLive == 0 && bits.bsBuff == 0
      ensures buf.stateInCh == 256 && buf.stateInLen == 0 && buf.pairs == [] && buf.nblock == 0
    {
      this.setup := setup;
      blockNo, blockCrc, combinedCrc := 1, 0, 0;
      buf := new BlockBuffer(setup.table, 100_000 * setup.level);
      bits := new BitWriter();
    }

    ghost function Current(): Runs
      reads buf
    {
      Runs(buf.stateInCh, buf.stateInLen, buf.pairs)
    }

    /** Takes input until it runs out or the block is full. */
    method CopyInput(input: seq<int>, ghost done: seq<seq<Pair>>, ghost consumed: seq<int>)
      returns (rest: seq<int>, ghost taken: seq<int>)
      requires Valid() && Bytes(input) && (buf.stateInLen == 0 ==> buf.nblock == 0)
      requires Split(setup.level, consumed) == Closed(setup.level, Splitter(done, Current()))
      modifies buf, buf.block, buf.inUse
      ensures Valid() && input == taken + rest && (rest == [] || buf.nblock >= BlockMax(setup.level))
      ensures buf.nblock <= old(buf.nblock) || buf.nblock <= BlockMax(setup.level) + 4
      ensures buf.stateInLen == 0 ==> buf.nblock == 0
      ensures Split(setup.level, consumed + taken) == Closed(setup.level, Splitter(done, Current()))
      ensures taken == [] ==> Current() == old(Current()) && buf.nblock == old(buf.nblock)
      ensures taken != [] ==> JustAdded(setup.level, consumed + taken, done, Current())
    {
      hide Filled, Regular, Split, Clean, Waiting, BytesBits, IsSetup, Closed, Full, JustAdded, Add;
      SetupLevel(setup);
      rest, taken := input, [];
      assert consumed + [] == consumed;
      while buf.nblock < BlockMax(setup.level) && rest != []
        invariant Valid() && input == taken + rest
        invariant buf.nblock <= old(buf.nblock) || buf.nblock <= BlockMax(setup.level) + 4
        invariant buf.stateInLen == 0 ==> buf.nblock == 0
        invariant Split(setup.level, consumed + taken) == Closed(setup.level, Splitter(done, Current()))
        invariant taken == [] ==> Current() == old(Current()) && buf.nblock == old(buf.nblock)
        invariant taken != [] ==> JustAdded(setup.level, consumed + taken, done, Current())
        decreases |rest|
      {
        ghost var cur, c := Current(), rest[0];
        assert c == input[|taken|];
        NotFull(setup.level, buf.table, buf.block[..buf.nblock], buf.inUse[..], buf.blockCrc, cur);
        SplitNext(setup.level, consumed + taken, done, cur, c);
        assert consumed + taken + [c] == consumed + (taken + [c]);
        assert input == taken + [c] + rest[1..];
        buf.AddCharToBlock(rest[0]);
        rest := rest[1..];
        taken := taken + [c];
      }
    }

    /** Checksums of a block; the block's sorted and coded form is a function of its bytes. */
    method CompressBlockCompute()
      requires Valid()
      modifies this`blockCrc, this`combinedCrc
      ensures Valid()
      ensures buf.nblock > 0 ==>
          blockCrc == BlockCrc(setup, buf.pairs) && combinedCrc == Combine(old(combinedCrc), blockCrc)
      ensures buf.nblock == 0 ==> combinedCrc == old(combinedCrc)
    {
      hide Filled, Regular, Crc, PlainAll, CodedAll, Combine, Pairs, Table, Clean, Waiting, BytesBits;
      FilledFacts(buf.table, buf.block[..buf.nblock], buf.inUse[..], buf.blockCrc, buf.pairs);
      if buf.nblock > 0 {
        blockCrc := Not32(buf.blockCrc);
        combinedCrc := Combine(combinedCrc, blockCrc);
      }
    }

    /** Writes the stream header before the first block, the block if it is not empty, and the trailer after the
        last. */
    method CompressBlockSave(isLast: bool)
      requires Valid() && bits.zbits == [] && (buf.nblock > 0 ==> blockCrc == BlockCrc(setup, buf.pairs))
      modifies bits
      ensures Bytes(bits.zbits)
      ensures !isLast ==> Valid() && bits.Written() == old(Through(bits.Written()))
      ensures isLast ==>
                var all := old(Through(bits.Written())) + TrailerBits(combinedCrc);
                0 <= 8 * |bits.zbits| - |all| < 8 && BytesBits(bits.zbits) == all + Zeros(8 * |bits.zbits| - |all|)
      ensures isLast ==> bits.zbits != []
    {
      hide Filled, Regular, Crc, PlainAll, CodedAll, Combine, Clean, Waiting, BytesBits, BitsOf, FieldsBits;
      hide IsSetup, BlockCrc, Pairs, Table, BlockBits, HeaderBits, TrailerBits, BlockFieldBits;
      FilledFacts(buf.table, buf.block[..buf.nblock], buf.inUse[..], buf.blockCrc, buf.pairs);
      FilledBits(setup, buf.table, buf.block[..buf.nblock], buf.inUse[..], buf.blockCrc, buf.pairs);
      ghost var all := Through(bits.Written());
      if blockNo == 1 {
        PutHeader(bits, setup);
      }
      if buf.nblock > 0 {
        PutBlock(bits, blockCrc, setup.encode(buf.block[..buf.nblock], buf.inUse[..]));
      }
      assert bits.Written() == all;
      if isLast {
        PutTrailer(bits, combinedCrc);
        TrailerLength(combinedCrc);
      }
    }

    /** Writes the block, in a stream whose earlier blocks are `done`, once its checksums are known. */
    method StoreBlock(isLast: bool, ghost done: seq<seq<Pair>>, ghost combined: int, ghost produced: seq<int>)
      requires Valid() && bits.zbits == [] && Between(setup, done, blockNo, combined, produced, bits.Written())
      requires Pairs(buf.pairs) && combined == CombinedCrc(setup, done) && (!isLast ==> buf.nblock > 0)
      requires buf.nblock > 0 ==> blockCrc == BlockCrc(setup, buf.pairs) && combinedCrc == Combine(combined, blockCrc)
      requires buf.nblock == 0 ==> combinedCrc == combined
      modifies bits
      ensures Bytes(bits.zbits)
      ensures !isLast ==> Valid() && Blocks(done + [buf.pairs]) && combinedCrc == CombinedCrc(setup, done + [buf.pairs])
      ensures !isLast ==> BytesBits(produced) + bits.Written() == Opening(setup, done + [buf.pairs])
      ensures isLast ==> var bs := if buf.pairs == [] then done else done + [buf.pairs];
                         Blocks(bs) && IsStream(setup, bs, produced + bits.zbits)
      ensures isLast ==> bits.zbits != []
    {
      hide Filled, Regular, Crc, PlainAll, CodedAll, Combine, Clean, Waiting, BytesBits, BitsOf, FieldsBits, IsSetup;
      hide BlockCrc, Pairs, Table, BlockBits, HeaderBits, TrailerBits, CombinedCrc, Opening, IsStream, Between, Blocks;
      FilledNone(buf.table, buf.block[..buf.nblock], buf.inUse[..], buf.blockCrc, buf.pairs);
      ghost var ps, written := buf.pairs, bits.Written();
      OneMoreBlock(setup, done, blockNo, combined, produced, written, ps);
      NoMoreBlocks(setup, done, blockNo, combined, produced, written);
      ghost var through := Through(written);
      CompressBlockSave(isLast);
      if isLast {
        ghost var bs := if ps == [] then done else done + [ps];
        assert through == if ps == [] then (if blockNo == 1 then HeaderBits(setup) else written) + []
            else (if blockNo == 1 then HeaderBits(setup) else written) + BlockBits(setup, ps);
        Completed(setup, bs, produced, through, bits.zbits);
      }
    }

    /** Compresses the block and writes it. */
    method CompressBlock(isLast: bool, ghost done: seq<seq<Pair>>, ghost produced: seq<int>)
      requires Valid() && bits.zbits == [] && Between(setup, done, blockNo, combinedCrc, produced, bits.Written())
      requires !isLast ==> buf.nblock > 0
      modifies this`blockCrc, this`combinedCrc, bits
      ensures Pairs(buf.pairs) && Bytes(bits.zbits)
      ensures !isLast ==> Valid() && Blocks(done + [buf.pairs]) && combinedCrc == CombinedCrc(setup, done + [buf.pairs])
      ensures !isLast ==> BytesBits(produced) + bits.Written() == Opening(setup, done + [buf.pairs])
      ensures isLast ==> var bs := if buf.pairs == [] then done else done + [buf.pairs];
                         Blocks(bs) && IsStream(setup, bs, produced + bits.zbits)
      ensures isLast ==> bits.zbits != []
    {
      hide Filled, Regular, Crc, PlainAll, CodedAll, Combine, Clean, Waiting, BytesBits, IsSetup, BlockCrc, Pairs;
      hide Table, CombinedCrc, Opening, IsStream, Between, Blocks;
      FilledFacts(buf.table, buf.block[..buf.nblock], buf.inUse[..], buf.blockCrc, buf.pairs);
      BetweenFacts(setup, done, blockNo, combinedCrc, produced, bits.Written());
      ghost var combined := combinedCrc;
      CompressBlockCompute();
      StoreBlock(isLast, done, combined, produced);
    }

    /** What the next block needs to know, taken before this block is compressed. */
    method SaveStateBeforeBlocksort() returns (saved: Saved)
      requires Valid()
      ensures saved == Saved(buf.stateInCh, buf.stateInLen, blockNo + 1, Combine(combinedCrc, Not32(buf.blockCrc)))
      ensures Pairs(buf.pairs) && Not32(buf.blockCrc) == BlockCrc(setup, buf.pairs)
    {
      FilledFacts(buf.table, buf.block[..buf.nblock], buf.inUse[..], buf.blockCrc, buf.pairs);
      saved := Saved(buf.stateInCh, buf.stateInLen, blockNo + 1, Combine(combinedCrc, Not32(buf.blockCrc)));
    }

    method RestoreState(saved: Saved)
      requires Valid() && buf.pairs == [] && Regular(Runs(saved.ch, saved.len, []))
      requires saved.blockNo >= 1 && 0 <= saved.combined < WORD
      modifies this, buf
      ensures Valid() && Current() == Runs(saved.ch, saved.len, []) && blockNo == saved.blockNo
          && combinedCrc == saved.combined
      ensures buf.nblock == old(buf.nblock)
    {
      hide Filled, Regular, Clean, Waiting, BytesBits, IsSetup;
      buf.stateInCh := saved.ch;
      buf.stateInLen := saved.len;
      blockNo := saved.blockNo;
      combinedCrc := saved.combined;
    }

    method RestoreOutputState(saved: SavedOut)
      requires Valid() && Clean(saved.bsBuff, saved.bsLive) && bits.zbits == []
      modifies bits
      ensures Valid() && bits.zbits == [] && bits.Written() == Waiting(saved.bsBuff, saved.bsLive)
    {
      hide Filled, Regular, IsSetup;
      bits.bsBuff := saved.bsBuff;
      bits.bsLive := saved.bsLive;
      assert [] + Waiting(saved.bsBuff, saved.bsLive) == Waiting(saved.bsBuff, saved.bsLive);
    }

    /** What has been written once this block is. */
    ghost function Through(before: seq<int>): seq<int>
      requires Valid()
      reads this, buf, buf.block, buf.inUse, bits
    {
      (if blockNo == 1 then HeaderBits(setup) else before)
        + (if buf.nblock > 0 then BlockBits(setup, buf.pairs) else [])
    }
  }

  lemma SetupLevel(u: Setup)
    requires IsSetup(u)
    ensures 1 <= u.level <= 9
  {
  }

  lemma NotFull(level: int, table: seq<int>, bytes: seq<int>, inUse: seq<bool>, crc: int, cur: Runs)
    requires Filled(table, bytes, inUse, crc, cur.pairs)
    ensures Full(level, cur) <==> |bytes| >= BlockMax(level)
  {
  }

  /** The current block `cur` comes from one that was not full by adding the last byte of the input. */
  ghost predicate JustAdded(level: int, input: seq<int>, done: seq<seq<Pair>>, cur: Runs) {
    && input != []
    && var sp := Split(level, input[..|input| - 1]);
       sp.done == done && cur == Add(sp.cur, input[|input| - 1])
  }

  lemma SplitNext(level: int, input: seq<int>, done: seq<seq<Pair>>, cur: Runs, c: int)
    requires Split(level, input) == Closed(level, Splitter(done, cur)) && !Full(level, cur)
    ensures Split(level, input + [c]) == Closed(level, Splitter(done, Add(cur, c)))
    ensures JustAdded(level, input + [c], done, Add(cur, c))
  {
    assert (input + [c])[..|input|] == input;
  }

  lemma FilledBits(u: Setup, table: seq<int>, bytes: seq<int>, inUse: seq<bool>, crc: int, ps: seq<Pair>)
    requires IsSetup(u) && Filled(table, bytes, inUse, crc, ps)
    ensures AreFields(u.encode(bytes, inUse))
    ensures BlockBits(u, ps) == BlockFieldBits(BlockCrc(u, ps), u.encode(bytes, inUse))
  {
    assert inUse == InUse(bytes);
  }

  // ---------------------------------------------------------------- the sequential compressor

  datatype Mode = Running | Finishing | Idle
  datatype Action = Run | Finish
  datatype Code = RunOk | FinishOk | StreamEnd | ParamError | SequenceError

  /** The blocks of a stream whose caller supplied `b` together with the request to finish: the block that takes the
      last byte also takes the pending run, even if it is full. */
  ghost function FinishBlocks(level: int, a: seq<int>, b: seq<int>): (bs: seq<seq<Pair>>) {
    if b == [] then Ended(Split(level, a))
    else
      var sp := Split(level, (a + b)[..|a + b| - 1]);
      Ended(Splitter(sp.done, Add(sp.cur, (a + b)[|a + b| - 1])))
  }

  class Compressor {
    const s: Stream
    var mode: Mode
    var output: bool
    var outPos: int
    var awaited: int
    ghost var done: seq<seq<Pair>>
    ghost var runInput: seq<int>
    ghost var finishInput: seq<int>
    ghost var produced: seq<int>
    ghost var ended: bool

    /** What holds between calls. */
    ghost predicate Valid()
      reads this, s, s.buf, s.buf.block, s.buf.inUse, s.bits
    {
      Consistent() && (mode == Finishing && ended ==> outPos < |s.bits.zbits|)
    }

    /** What holds at every moment. */
    ghost predicate Consistent()
      reads this, s, s.buf, s.buf.block, s.buf.inUse, s.bits
    {
      && Bytes(runInput) && Bytes(finishInput) && (mode == Running ==> finishInput == [] && !ended)
          && (mode == Idle ==> ended) && awaited >= 0
      && (mode == Finishing && !ended && finishInput != [] ==> awaited > 0)
      && if ended then Over() else s.Valid() && if output then Writing() else Reading()
    }

    /** Collecting a block. */
    ghost predicate Reading()
      reads this, s, s.buf, s.buf.block, s.buf.inUse, s.bits
      requires s.Valid()
    {
      && s.bits.zbits == [] && outPos == 0 && s.buf.nblock < BlockMax(s.setup.level)
          && (s.buf.stateInLen == 0 ==> s.buf.nblock == 0)
      && Split(s.setup.level, runInput + finishInput) == Splitter(done, s.Current())
      && Between(s.setup, done, s.blockNo, s.combinedCrc, produced, s.bits.Written())
    }

    /** Handing out a compressed block that is not the last. */
    ghost predicate Writing()
      reads this, s, s.buf, s.buf.block, s.buf.inUse, s.bits
      requires s.Valid()
    {
      && 0 <= outPos <= |s.bits.zbits| && s.buf.stateInLen > 0 && Bytes(produced)
      && Split(s.setup.level, runInput + finishInput) == Splitter(done, Carried(s.Current()))
      && Blocks(done) && s.blockNo == |done| && done != [] && s.combinedCrc == CombinedCrc(s.setup, done)
      && BytesBits(produced + s.bits.zbits[outPos..]) + Waiting(s.bits.bsBuff, s.bits.bsLive) == Opening(s.setup, done)
    }

    /** Handing out the last block. */
    ghost predicate Over()
      reads this, s, s.buf, s.bits
    {
      && output && mode != Running && awaited == 0 && s.buf.stateInCh == 256 && 0 <= outPos <= |s.bits.zbits|
          && IsSetup(s.setup)
      && var bs := FinishBlocks(s.setup.level, runInput, finishInput);
         Blocks(bs) && IsStream(s.setup, bs, produced + s.bits.zbits[outPos..])
    }

    constructor (setup: Setup)
      requires IsSetup(setup)
      ensures Valid() && mode == Running && s.setup == setup && runInput == [] && finishInput == [] && produced == []
      ensures fresh(s) && fresh(s.buf) && fresh(s.buf.block) && fresh(s.buf.inUse) && fresh(s.bits)
    {
      hide Filled, Regular, Clean, IsSetup;
      s := new Stream(setup);
      mode, output, outPos, awaited := Running, false, 0, 0;
      done, runInput, finishInput, produced, ended := [], [], [], [], false;
      new;
      SetupLevel(setup);
      assert runInput + finishInput == [];
    }

    /** Hands out compressed bytes while there is room. */
    method CopyOutput(space: nat) returns (out: seq<int>)
      requires Consistent() && output
      modifies this`outPos, this`produced
      ensures Consistent() && produced == old(produced) + out && |out| <= space
      ensures outPos == old(outPos) + |out| <= |s.bits.zbits| && (outPos == |s.bits.zbits| || |out| == space)
    {
      hide Filled, Regular, Clean, Waiting, BytesBits, IsSetup, Split, Opening, CombinedCrc, IsStream, Blocks;
      hide FinishBlocks, Between;
      out := [];
      ghost var start := outPos;
      while outPos < |s.bits.zbits| && |out| < space
        invariant start <= outPos <= |s.bits.zbits| && out == s.bits.zbits[start..outPos] && |out| <= space
            && produced == old(produced)
      {
        out := out + [s.bits.zbits[outPos]];
        outPos := outPos + 1;
      }
      assert s.bits.zbits[start..] == out + s.bits.zbits[outPos..];
      assert produced + (out + s.bits.zbits[outPos..]) == produced + out + s.bits.zbits[outPos..];
      PieceBytes(produced, s.bits.zbits, start, outPos);
      produced := produced + out;
    }

    /** Starts the next block. */
    method NextBlock()
      requires Consistent() && output && !ended && outPos == |s.bits.zbits|
      modifies this`outPos, this`output, s`blockNo, s.buf, s.buf.inUse, s.bits`zbits
      ensures Consistent() && !output
    {
      hide Filled, Regular, Clean, Waiting, BytesBits, IsSetup, Split, Opening, CombinedCrc, IsStream, Blocks;
      hide FinishBlocks;
      SetupLevel(s.setup);
      CleanLive(s.bits.bsBuff, s.bits.bsLive);
      BytesBitsNone();
      assert produced + s.bits.zbits[outPos..] == produced;
      assert [] + Waiting(s.bits.bsBuff, s.bits.bsLive) == Waiting(s.bits.bsBuff, s.bits.bsLive);
      s.buf.PrepareNewBlock();
      s.bits.zbits := [];
      s.blockNo := s.blockNo + 1;
      outPos := 0;
      output := false;
    }

    /** Compresses a full block. */
    method CloseBlock()
      requires s.Valid() && !output && !ended && s.bits.zbits == [] && outPos == 0 && s.buf.nblock > 0
          && s.buf.stateInLen > 0
      requires (mode == Running ==> finishInput == []) && mode != Idle && (mode == Finishing ==> awaited > 0)
          && awaited >= 0
      requires Bytes(runInput) && Bytes(finishInput)
      requires Between(s.setup, done, s.blockNo, s.combinedCrc, produced, s.bits.Written())
      requires Split(s.setup.level, runInput + finishInput) == Splitter(done + [s.buf.pairs], Carried(s.Current()))
      modifies this`output, this`done, s`blockCrc, s`combinedCrc, s.bits
      ensures Consistent() && output && !ended
    {
      hide Filled, Regular, Clean, Waiting, BytesBits, IsSetup, Split, Opening, CombinedCrc, IsStream, Blocks;
      hide FinishBlocks, Between, Pairs;
      BetweenFacts(s.setup, done, s.blockNo, s.combinedCrc, produced, s.bits.Written());
      s.CompressBlock(false, done, produced);
      done := done + [s.buf.pairs];
      output := true;
      CleanLive(s.bits.bsBuff, s.bits.bsLive);
      BytesBitsConcat(produced, s.bits.zbits);
      assert s.bits.zbits[0..] == s.bits.zbits;
      assert BytesBits(produced) + (BytesBits(s.bits.zbits) + Waiting(s.bits.bsBuff, s.bits.bsLive)) ==
          BytesBits(produced) + BytesBits(s.bits.zbits) + Waiting(s.bits.bsBuff, s.bits.bsLive);
    }

    /** Compresses the last block and closes the stream. */
    method EndStream()
      requires s.Valid() && !output && !ended && s.bits.zbits == [] && outPos == 0
      requires mode == Finishing && awaited == 0 && s.buf.nblock + 5 <= s.buf.block.Length && Bytes(runInput)
          && Bytes(finishInput)
      requires Between(s.setup, done, s.blockNo, s.combinedCrc, produced, s.bits.Written())
      requires FinishBlocks(s.setup.level, runInput, finishInput) == Ended(Splitter(done, s.Current()))
      modifies this`output, this`ended, s`blockCrc, s`combinedCrc, s.buf, s.buf.block, s.buf.inUse, s.bits
      ensures Consistent() && output && ended && outPos < |s.bits.zbits| && s.buf.nblock <= old(s.buf.nblock) + 5
    {
      hide Filled, Regular, Clean, Waiting, BytesBits, IsSetup, Split, Opening, CombinedCrc, IsStream, Blocks;
      hide FinishBlocks, Between, Pairs;
      s.buf.FlushRl();
      s.CompressBlock(true, done, produced);
      output := true;
      ended := true;
      assert s.bits.zbits[0..] == s.bits.zbits;
    }

    /** Takes input, and compresses the block if it is full or the last one. */
    method InputStep(input: seq<int>) returns (rest: seq<int>, again: bool, ghost taken: seq<int>)
      requires Consistent() && !output && mode != Idle && Bytes(input) && (mode == Finishing ==> awaited == |input|)
      modifies this`output, this`ended, this`done, this`awaited, this`runInput, this`finishInput
      modifies s`blockCrc, s`combinedCrc, s.buf, s.buf.block, s.buf.inUse, s.bits
      ensures Consistent() && Bytes(rest) && input == taken + rest && (mode == Finishing ==> awaited == |rest|)
      ensures mode == Running ==> runInput == old(runInput) + taken && finishInput == old(finishInput)
      ensures mode == Finishing ==> runInput == old(runInput) && finishInput == old(finishInput) + taken
      ensures !old(ended) && (again ==> output && (ended || taken != [])) && (ended ==> outPos < |s.bits.zbits|)
      ensures !again ==> rest == [] && !output && mode == Running
      ensures s.buf.nblock <= 100_000 * s.setup.level - 10
    {
      hide Filled, Regular, Clean, Waiting, BytesBits, IsSetup, Split, Opening, CombinedCrc, IsStream, Blocks;
      hide FinishBlocks, Between, Pairs, Closed, Full, Add, JustAdded;
      SetupLevel(s.setup);
      ghost var input0 := runInput + finishInput;
      NotFull(s.setup.level, s.buf.table, s.buf.block[..s.buf.nblock], s.buf.inUse[..], s.buf.blockCrc, s.Current());
      ClosedIs(s.setup.level, Splitter(done, s.Current()));
      rest, taken := s.CopyInput(input, done, input0);
      SuffixBytes(input, taken, rest);
      PrefixBytes(input, taken, rest);
      NotFull(s.setup.level, s.buf.table, s.buf.block[..s.buf.nblock], s.buf.inUse[..], s.buf.blockCrc, s.Current());
      ClosedIs(s.setup.level, Splitter(done, s.Current()));
      if mode == Running {
        runInput := runInput + taken;
        assert finishInput == [] && runInput + [] == input0 + taken;
      } else {
        finishInput := finishInput + taken;
        assert runInput + finishInput == input0 + taken;
        awaited := awaited - (|input| - |rest|);
      }
      if mode != Running && awaited == 0 {
        FinishNow(s.setup.level, runInput, finishInput, done, s.Current());
        EndStream();
        again := true;
      } else if s.buf.nblock >= BlockMax(s.setup.level) {
        RegularEmpty(s.Current());
        CloseBlock();
        again := true;
      } else {
        again := rest != [];
      }
    }

    /** Moves input and output until one of them stops the compressor. */
    method HandleCompress(input: seq<int>, space: nat)
      returns (rest: seq<int>, out: seq<int>, progress: bool, ghost taken: seq<int>)
      requires Valid() && mode != Idle && Bytes(input) && (mode == Finishing ==> awaited == |input|)
      modifies this, s, s.buf, s.buf.block, s.buf.inUse, s.bits
      ensures Consistent() && mode == old(mode) && input == taken + rest && produced == old(produced) + out
          && |out| <= space
      ensures mode == Running ==> runInput == old(runInput) + taken
      ensures mode == Finishing ==>
          runInput == old(runInput) && finishInput == old(finishInput) + taken && awaited == |rest|
      ensures progress <==> taken != [] || out != []
      ensures if output then outPos <= |s.bits.zbits| && (|out| == space || (ended && outPos == |s.bits.zbits|))
          else rest == [] && mode == Running
      ensures mode == Running ==> finishInput == old(finishInput)
      ensures ended && outPos == |s.bits.zbits| ==> out != []
    {
      hide Filled, Regular, Clean, Waiting, BytesBits, IsSetup, Split, Opening, CombinedCrc, IsStream, Blocks;
      hide FinishBlocks, Between, Pairs, Consistent;
      rest, out, taken := input, [], [];
      NotEnded();
      while true
        invariant Consistent() && mode == old(mode) && Bytes(rest) && input == taken + rest
            && produced == old(produced) + out && |out| <= space
        invariant mode == Running ==> runInput == old(runInput) + taken && finishInput == old(finishInput)
        invariant mode == Finishing ==>
            runInput == old(runInput) && finishInput == old(finishInput) + taken && awaited == |rest|
        invariant ended && outPos == |s.bits.zbits| ==> out != []
        decreases |rest| + if ended then 0 else 1
      {
        if output {
          var piece := CopyOutput(space - |out|);
          assert old(produced) + out + piece == old(produced) + (out + piece);
          out := out + piece;
          if outPos < |s.bits.zbits| { break; }
          if mode == Finishing && awaited == 0 && (s.buf.stateInCh == 256 || s.buf.stateInLen == 0) {
            RegularUnlessOver();
            break;
          }
          NotOver();
          NextBlock();
        }
        ghost var more;
        ghost var was := taken;
        var again;
        rest, again, more := InputStep(rest);
        assert was + (more + rest) == was + more + rest;
        assert old(runInput) + was + more == old(runInput) + (was + more);
        assert old(finishInput) + was + more == old(finishInput) + (was + more);
        taken := taken + more;
        if !again { break; }
      }
      progress := |rest| < |input| || out != [];
    }

    lemma RegularUnlessOver()
      requires Consistent() && output && (s.buf.stateInCh == 256 || s.buf.stateInLen == 0)
      ensures ended
    {
      if !ended {
        RegularEmpty(s.Current());
      }
    }

    lemma NotOver()
      requires Consistent() && output && mode != Idle && !(mode == Finishing && awaited == 0 && s.buf.stateInCh == 256)
      ensures !ended
    {
    }

    lemma NotEnded()
      requires Consistent()
      ensures mode == Running ==> !ended
    {
    }

    lemma NothingFinished()
      requires Consistent() && mode == Running
      ensures finishInput == [] && IsSetup(s.setup) && Bytes(runInput)
    {
    }

    /** The test for the end of the stream. */
    lemma FinishedExactly()
      requires Consistent() && mode == Finishing && output
      ensures IsSetup(s.setup) && Bytes(runInput) && Bytes(finishInput)
      ensures ended && outPos == |s.bits.zbits| <==>
              awaited == 0 && (s.buf.stateInCh >= 256 || s.buf.stateInLen <= 0) && outPos >= |s.bits.zbits|
    {
      hide Filled, Regular, Clean, Waiting, BytesBits, IsSetup, Split, Opening, CombinedCrc, IsStream, Blocks;
      hide FinishBlocks, Between;
      if !ended {
        RegularEmpty(s.Current());
      }
    }

    /** Until the stream is complete, less has been handed out than the stream will have. */
    lemma TooShort(rest: seq<int>)
      requires Consistent() && mode != Idle && (mode == Finishing ==> awaited == |rest|) && Bytes(rest)
      requires !(ended && outPos == |s.bits.zbits|)
      ensures IsSetup(s.setup) && Bytes(runInput + finishInput + rest)
      ensures var bs := FinishBlocks(s.setup.level, runInput, finishInput + rest);
              Blocks(bs) && |produced| < StreamLength(s.setup, bs)
    {
      hide Filled, Regular, Clean, Waiting, BytesBits, IsSetup, Split, Opening, CombinedCrc, IsStream, Blocks;
      hide FinishBlocks, Between;
      hide StreamLength;
      FinishBlocksAre(s.setup, runInput, finishInput + rest);
      var bs := FinishBlocks(s.setup.level, runInput, finishInput + rest);
      if ended {
        assert finishInput + rest == finishInput;
        LengthOf(s.setup, bs, produced + s.bits.zbits[outPos..]);
      } else {
        var tail := if output then s.bits.zbits[outPos..] else [];
        assert runInput + finishInput + rest == runInput + (finishInput + rest);
        DoneInFinish(s.setup.level, runInput, finishInput, rest);
        CleanLive(s.bits.bsBuff, s.bits.bsLive);
        if output {
          PrefixShort(s.setup, done, bs, produced, tail, Waiting(s.bits.bsBuff, s.bits.bsLive));
        } else {
          BetweenShort(s.setup, done, bs, s.blockNo, s.combinedCrc, produced, s.bits.Written());
        }
      }
    }

    /** A request to finish is taken if it is the first or comes with the input that the last one left. */
    ghost predicate Accepts(n: nat)
      reads this
    {
      mode == Running || (mode == Finishing && awaited == n)
    }

    /** One call of the compressor. */
    method Compress(action: Action, input: seq<int>, space: nat) returns (code: Code, rest: seq<int>, out: seq<int>)
      requires Valid() && Bytes(input)
      modifies this, s, s.buf, s.buf.block, s.buf.inUse, s.bits
      ensures Valid() && produced == old(produced) + out && |out| <= space
      ensures |rest| <= |input| && rest == input[|input| - |rest|..]
      ensures action == Run ==> runInput == old(runInput) + input[..|input| - |rest|] && finishInput == old(finishInput)
      ensures action == Finish ==>
          runInput == old(runInput) && finishInput == old(finishInput) + input[..|input| - |rest|]
      ensures action == Run ==> mode == old(mode)
      ensures action == Run && mode == Running ==>
                (|out| == space || rest == []) && code == if out == [] && rest == input then ParamError else RunOk
      ensures action == Run && mode != Running ==> code == SequenceError
      ensures action == Finish && !old(Accepts(|input|)) ==> code == SequenceError && mode == old(mode)
      ensures action == Finish && old(Accepts(|input|)) && code != StreamEnd ==>
                && mode == Finishing && awaited == |rest| && |out| == space
                && code == if out == [] && rest == input then SequenceError else FinishOk
      ensures action == Finish && old(Accepts(|input|)) ==>
                && IsSetup(s.setup)
                && var bs := FinishBlocks(s.setup.level, runInput, old(finishInput) + input);
                   && Blocks(bs)
                   && (code == StreamEnd <==> |old(produced)| + space >= StreamLength(s.setup, bs))
                   && (code == StreamEnd ==> mode == Idle && rest == [] && IsStream(s.setup, bs, produced))
                   && (code != StreamEnd ==> |produced| < StreamLength(s.setup, bs))
      ensures code == SequenceError || code == ParamError ==> out == [] && rest == input
    {
      hide Filled, Regular, Clean, Waiting, BytesBits, IsSetup, Split, Opening, CombinedCrc, IsStream, Blocks;
      hide FinishBlocks;
      hide Between, Pairs, Consistent, StreamLength;
      rest, out := input, [];
      assert input[..0] == [] && runInput + [] == runInput && finishInput + [] == finishInput
          && produced + [] == produced;
      if mode == Idle {
        return SequenceError, rest, out;
      }
      if mode == Running && action == Finish {
        BeginFinish(|input|);
      }
      if mode == Finishing && (action != Finish || awaited != |input|) {
        return SequenceError, rest, out;
      }
      if mode == Running {
        var progress;
        ghost var taken;
        rest, out, progress, taken := HandleCompress(input, space);
        NotEnded();
        assert taken == input[..|input| - |rest|];
        code := if progress then RunOk else ParamError;
      } else {
        code, rest, out := FinishCall(input, space);
      }
    }

    /** A call that asks to finish. */
    method FinishCall(input: seq<int>, space: nat) returns (code: Code, rest: seq<int>, out: seq<int>)
      requires Valid() && Bytes(input) && mode == Finishing && awaited == |input|
      modifies this, s, s.buf, s.buf.block, s.buf.inUse, s.bits
      ensures Valid() && produced == old(produced) + out && |out| <= space
      ensures |rest| <= |input| && rest == input[|input| - |rest|..]
      ensures runInput == old(runInput) && finishInput == old(finishInput) + input[..|input| - |rest|]
      ensures code != StreamEnd ==>
                && mode == Finishing && awaited == |rest| && |out| == space
                && code == if out == [] && rest == input then SequenceError else FinishOk
      ensures IsSetup(s.setup)
      ensures var bs := FinishBlocks(s.setup.level, runInput, old(finishInput) + input);
              && Blocks(bs)
              && (code == StreamEnd <==> |old(produced)| + space >= StreamLength(s.setup, bs))
              && (code == StreamEnd ==> mode == Idle && rest == [] && IsStream(s.setup, bs, produced))
              && (code != StreamEnd ==> |produced| < StreamLength(s.setup, bs))
    {
      hide Filled, Regular, Clean, Waiting, BytesBits, IsSetup, Split, Opening, CombinedCrc, IsStream, Blocks;
      hide FinishBlocks;
      hide Between, Pairs, Consistent, StreamLength;
      var progress;
      ghost var taken;
      rest, out, progress, taken := HandleCompress(input, space);
      assert taken == input[..|input| - |rest|];
      assert old(finishInput) + taken + rest == old(finishInput) + (taken + rest);
      FinishedExactly();
      FinishBlocksAre(s.setup, runInput, finishInput + rest);
      if !(ended && outPos == |s.bits.zbits|) {
        TooShort(rest);
      }
      if !progress {
        code := SequenceError;
      } else if awaited > 0 || (s.buf.stateInCh < 256 && s.buf.stateInLen > 0) || outPos < |s.bits.zbits| {
        code := FinishOk;
      } else {
        assert finishInput + [] == finishInput;
        GoIdle();
        LengthOf(s.setup, FinishBlocks(s.setup.level, runInput, finishInput), produced);
        code := StreamEnd;
      }
    }

    method BeginFinish(n: nat)
      requires Consistent() && mode == Running
      modifies this`mode, this`awaited
      ensures Valid() && mode == Finishing && awaited == n
    {
      hide Filled, Regular, Clean, Waiting, BytesBits, IsSetup, Split, Opening, CombinedCrc, IsStream, Blocks;
      hide FinishBlocks, Between, Pairs;
      awaited := n;
      mode := Finishing;
    }

    method GoIdle()
      requires Consistent() && mode == Finishing && output && outPos == |s.bits.zbits|
      requires s.buf.stateInCh >= 256 || s.buf.stateInLen <= 0
      modifies this`mode
      ensures Consistent() && mode == Idle && IsSetup(s.setup)
      ensures var bs := FinishBlocks(s.setup.level, runInput, finishInput);
              Blocks(bs) && IsStream(s.setup, bs, produced)
    {
      hide Filled, Regular, Clean, Waiting, BytesBits, IsSetup, Split, Opening, CombinedCrc, IsStream, Blocks;
      hide FinishBlocks, Between, Pairs;
      if !ended {
        RegularEmpty(s.Current());
      }
      assert produced + s.bits.zbits[outPos..] == produced;
      mode := Idle;
    }
  }

  lemma FinishBlocksAre(u: Setup, a: seq<int>, b: seq<int>)
    requires IsSetup(u) && Bytes(a) && Bytes(b)
    ensures Bytes(a + b) && Blocks(FinishBlocks(u.level, a, b))
  {
    FinishKeeps(u.level, a, b);
  }

  lemma LengthOf(u: Setup, bs: seq<seq<Pair>>, bytes: seq<int>)
    requires IsSetup(u) && Blocks(bs) && IsStream(u, bs, bytes)
    ensures |bytes| == StreamLength(u, bs)
  {
    hide StreamBits, BytesBits, Zeros;
  }

  lemma {:induction false} OpeningGrows(u: Setup, bs: seq<seq<Pair>>, n: nat)
    requires IsSetup(u) && Blocks(bs) && n <= |bs|
    ensures Blocks(bs[..n]) && Opening(u, bs[..n]) <= Opening(u, bs)
    decreases |bs|
  {
    hide BlockBits, HeaderBits, IsSetup, Pairs;
    if n < |bs| {
      var front := bs[..|bs| - 1];
      assert front[..n] == bs[..n];
      OpeningGrows(u, front, n);
      assert Opening(u, bs) == Opening(u, front) + BlockBits(u, bs[|bs| - 1]);
    } else {
      assert bs[..n] == bs;
    }
  }

  lemma StreamLonger(u: Setup, done: seq<seq<Pair>>, bs: seq<seq<Pair>>, n: nat)
    requires IsSetup(u) && Blocks(bs) && done <= bs && Blocks(done) && 8 * n <= |Opening(u, done)|
    ensures n < StreamLength(u, bs)
  {
    hide Opening, TrailerBits, IsSetup, Blocks, StreamBits, CombinedCrc;
    OpeningGrows(u, bs, |done|);
    assert bs[..|done|] == done;
    assert |Opening(u, done)| <= |Opening(u, bs)|;
    StreamIs(u, bs);
    TrailerLength(CombinedCrc(u, bs));
  }

  lemma PrefixShort(u: Setup, done: seq<seq<Pair>>, bs: seq<seq<Pair>>, produced: seq<int>, tail: seq<int>,
      waiting: seq<int>)
    requires IsSetup(u) && Blocks(bs) && done <= bs && Blocks(done)
        && BytesBits(produced + tail) + waiting == Opening(u, done)
    ensures |produced| < StreamLength(u, bs)
  {
    hide Opening, BytesBits, IsSetup, Blocks, StreamLength;
    StreamLonger(u, done, bs, |produced|);
  }

  lemma BetweenShort(u: Setup, done: seq<seq<Pair>>, bs: seq<seq<Pair>>, blockNo: int, combined: int,
      produced: seq<int>, written: seq<int>)
    requires Between(u, done, blockNo, combined, produced, written) && Blocks(bs) && done <= bs
    ensures |produced| < StreamLength(u, bs)
  {
    hide Opening, BytesBits, IsSetup, Blocks, StreamLength;
    StreamLonger(u, done, bs, |produced|);
  }

  lemma {:induction false} SplitGrows(level: int, x: seq<int>, y: seq<int>)
    ensures Split(level, x).done <= Split(level, x + y).done
    decreases |y|
  {
    if y == [] {
      assert x + y == x;
    } else {
      var z := y[..|y| - 1];
      SplitGrows(level, x, z);
      assert (x + y)[..|x + y| - 1] == x + z;
    }
  }

  /** The finished blocks stay, whatever input follows. */
  lemma DoneInFinish(level: int, a: seq<int>, b: seq<int>, rest: seq<int>)
    requires b == [] || rest != []
    ensures Split(level, a + b).done <= FinishBlocks(level, a, b + rest)
  {
    hide Split;
    if b + rest == [] {
      assert a + b == a;
    } else {
      var all := a + (b + rest);
      var more := rest[..|rest| - 1];
      assert all[..|all| - 1] == a + b + more;
      SplitGrows(level, a + b, more);
    }
  }

  lemma FinishNow(level: int, a: seq<int>, b: seq<int>, done: seq<seq<Pair>>, cur: Runs)
    requires if b == [] then Split(level, a + b) == Splitter(done, cur) else JustAdded(level, a + b, done, cur)
    ensures FinishBlocks(level, a, b) == Ended(Splitter(done, cur))
  {
    if b == [] {
      assert a + b == a;
    }
  }

  lemma PieceBytes(a: seq<int>, c: seq<int>, i: int, j: int)
    requires 0 <= i <= j <= |c|
    ensures Bytes(a) && Bytes(c) ==> Bytes(a + c[i..j])
  {
  }

  /** The current block once the last byte of the input is in. */
  ghost function LastCurrent(level: int, input: seq<int>): Runs
    requires input != []
  {
    Add(Split(level, input[..|input| - 1]).cur, input[|input| - 1])
  }

  /** The blocks stand for the input however the end of the stream was asked for. */
  lemma FinishKeeps(level: int, a: seq<int>, b: seq<int>)
    requires Bytes(a + b) && level >= 1
    ensures var bs := FinishBlocks(level, a, b);
            && Blocks(bs) && PlainBlocks(bs) == a + b
            && forall i | 0 <= i < |bs| :: Separated(bs[i])
  {
    hide PlainAll, Split, Regular, CodedAll, Contents, PlainBlocks;
    var input := a + b;
    if b == [] {
      assert input == a;
      EndedKeeps(level, a);
    } else {
      var before, c := input[..|input| - 1], input[|input| - 1];
      SplitKeeps(level, before);
      var sp := Split(level, before);
      AddKeeps(sp.cur, c);
      var cur := Add(sp.cur, c);
      FlushKeeps(cur);
      RegularParts(Flushed(cur));
      ContentsOfFlushed(cur);
      var last := Flushed(cur).pairs;
      assert last != [] by { AllNone(); assert Contents(cur) != []; }
      BlocksMore(sp.done, last);
      assert PlainBlocks(sp.done) + (Contents(sp.cur) + [c]) == before + [c] == input;
    }
  }

  lemma ContentsOfFlushed(r: Runs)
    requires Regular(r)
    ensures Pairs(Flushed(r).pairs) && Contents(r) == PlainAll(Flushed(r).pairs)
  {
    RegularParts(r);
  }

  /** Supplying the last bytes together with the request to finish gives the same blocks as supplying them before,
      except exactly when the last byte fills the block. */
  lemma FinishMatters(level: int, a: seq<int>, b: seq<int>)
    requires Bytes(a + b) && level >= 1
    ensures FinishBlocks(level, a, b) == Ended(Split(level, a + b)) <==>
        b == [] || !Full(level, LastCurrent(level, a + b))
    ensures b != [] && Full(level, LastCurrent(level, a + b)) ==>
        |Ended(Split(level, a + b))| == |FinishBlocks(level, a, b)| + 1
  {
    hide Split, Full, Regular, Contents, PlainBlocks, Ended, Closed, PlainAll, Flushed, Carried;
    var input := a + b;
    if b == [] {
      assert input == a;
    } else {
      var before, c := input[..|input| - 1], input[|input| - 1];
      SplitKeeps(level, before);
      var sp := Split(level, before);
      AddKeeps(sp.cur, c);
      RegularParts(sp.cur);
      var cur := Add(sp.cur, c);
      assert LastCurrent(level, input) == cur && cur.len > 0;
      SplitLast(level, input);
      ClosedIs(level, Splitter(sp.done, cur));
      EndedSizes(sp.done, cur);
    }
  }

  lemma SplitLast(level: int, input: seq<int>)
    requires input != []
    ensures var sp := Split(level, input[..|input| - 1]);
            Split(level, input) == Closed(level, Splitter(sp.done, Add(sp.cur, input[|input| - 1])))
  {
  }

  lemma EndedSizes(done: seq<seq<Pair>>, cur: Runs)
    requires cur.len > 0
    ensures |Ended(Splitter(done, cur))| == |done| + 1
    ensures |Ended(Splitter(done + [cur.pairs], Carried(cur)))| == |done| + 2
  {
  }

  /** Input that fills a block with its last byte. */
  ghost function Alternating(n: nat): (xs: seq<int>)
    ensures |xs| == n && Bytes(xs)
  {
    seq(n, i => i % 2)
  }

  lemma {:induction false} AlternatingSplit(level: int, n: nat)
    requires level >= 1 && 1 <= n <= BlockMax(level)
    ensures var sp := Split(level, Alternating(n));
            && sp.done == [] && sp.cur.ch == (n - 1) % 2 && sp.cur.len == 1
            && Pairs(sp.cur.pairs) && |sp.cur.pairs| == |CodedAll(sp.cur.pairs)| == n - 1
  {
    hide Split, CodedAll, Alternating, Closed;
    var xs := Alternating(n);
    AlternatingMore(n - 1);
    AllNone();
    var cur := Runs(256, 0, []);
    if n > 1 {
      AlternatingSplit(level, n - 1);
      cur := Split(level, Alternating(n - 1)).cur;
      AllMore(cur.pairs, Pair(cur.ch, 1));
      assert Coded(Pair(cur.ch, 1)) == [cur.ch];
    } else {
      AlternatingNone(level);
    }
    ClosedIs(level, Splitter([], cur));
    SplitNext(level, Alternating(n - 1), [], cur, (n - 1) % 2);
    ClosedIs(level, Splitter([], Add(cur, (n - 1) % 2)));
  }

  lemma AlternatingMore(n: nat)
    ensures Alternating(n + 1) == Alternating(n) + [n % 2]
  {
  }

  lemma AlternatingNone(level: int)
    ensures Split(level, Alternating(0)) == Splitter([], Runs(256, 0, []))
  {
    assert Alternating(0) == [];
  }

  /** At every level some input fills a block with its last byte. */
  lemma AlternatingFills(level: int)
    requires level >= 1
    ensures Full(level, LastCurrent(level, Alternating(BlockMax(level) + 1)))
  {
    hide Split, CodedAll, Alternating, PlainAll;
    var n := BlockMax(level);
    AlternatingSplit(level, n);
    AlternatingMore(n);
    var cur := Split(level, Alternating(n)).cur;
    AllMore(cur.pairs, Pair(cur.ch, 1));
    var xs := Alternating(n) + [n % 2];
    assert xs[..|xs| - 1] == Alternating(n);
    assert Add(cur, n % 2).pairs == cur.pairs + [Pair(cur.ch, 1)];
  }

  // ---------------------------------------------------------------- block sizes

  ghost predicate Sized(bs: seq<seq<Pair>>, limit: int) {
    forall i | 0 <= i < |bs| :: Pairs(bs[i]) && |CodedAll(bs[i])| <= limit
  }

  lemma AddSize(r: Runs, c: int)
    requires Regular(r) && 0 <= c < 256 && (r.len == 0 ==> r.pairs == [])
    ensures Pairs(r.pairs) && Pairs(Add(r, c).pairs) && |CodedAll(Add(r, c).pairs)| <= |CodedAll(r.pairs)| + 5
  {
    RegularParts(r);
    if r.len > 0 {
      AllMore(r.pairs, Pair(r.ch, r.len));
    }
  }

  lemma {:induction false} SplitSizes(level: int, input: seq<int>)
    requires Bytes(input) && level >= 1
    ensures var sp := Split(level, input);
            Sized(sp.done, BlockMax(level) + 4) && Pairs(sp.cur.pairs) && |CodedAll(sp.cur.pairs)| < BlockMax(level)
  {
    hide Regular, Contents, PlainAll, CodedAll, Add;
    AllNone();
    if input != [] {
      var before, c := input[..|input| - 1], input[|input| - 1];
      SplitSizes(level, before);
      SplitKeeps(level, before);
      AddSize(Split(level, before).cur, c);
    }
  }

  /** No block is larger than the decompressor accepts. */
  lemma BlockSizes(level: int, a: seq<int>, b: seq<int>)
    requires Bytes(a + b) && level >= 1
    ensures Sized(FinishBlocks(level, a, b), 100_000 * level - 10)
  {
    hide Regular, Contents, PlainAll, CodedAll, Add, Split, Ended, Flushed, Sized, PlainBlocks;
    var input := a + b;
    if b == [] {
      assert a == input;
      SplitSizes(level, a);
      SplitKeeps(level, a);
      EndedSized(level, Split(level, a).done, Split(level, a).cur);
    } else {
      var before, c := input[..|input| - 1], input[|input| - 1];
      SplitSizes(level, before);
      SplitKeeps(level, before);
      var sp := Split(level, before);
      AddSize(sp.cur, c);
      AddKeeps(sp.cur, c);
      EndedSized(level, sp.done, Add(sp.cur, c));
    }
  }

  /** Every block but the last is at most 19 bytes short of its hundreds of thousands. */
  lemma BlocksFull(level: int, a: seq<int>, b: seq<int>)
    requires Bytes(a + b) && level >= 1
    ensures Blocks(FinishBlocks(level, a, b))
    ensures forall i | 0 <= i < |FinishBlocks(level, a, b)| - 1 ::
              |CodedAll(FinishBlocks(level, a, b)[i])| >= 100_000 * level - 19
  {
    hide Regular, Contents, PlainAll, CodedAll, Add, Split, Flushed, PlainBlocks;
    var input := a + b;
    BlockSizes(level, a, b);
    if b == [] {
      assert a == input;
      SplitFull(level, a);
    } else {
      SplitFull(level, input[..|input| - 1]);
    }
  }

  lemma {:induction false} SplitFull(level: int, input: seq<int>)
    requires Bytes(input) && level >= 1
    ensures var done := Split(level, input).done;
            Blocks(done) && forall i | 0 <= i < |done| :: |CodedAll(done[i])| >= 100_000 * level - 19
  {
    hide Regular, Contents, PlainAll, CodedAll, Add;
    if input != [] {
      SplitFull(level, input[..|input| - 1]);
    }
  }

  lemma EndedSized(level: int, done: seq<seq<Pair>>, cur: Runs)
    requires Sized(done, BlockMax(level) + 4) && Regular(cur) && Pairs(cur.pairs)
        && |CodedAll(cur.pairs)| <= BlockMax(level) + 4
    ensures Sized(Ended(Splitter(done, cur)), 100_000 * level - 10)
  {
    hide Regular, CodedAll, Flushed;
    FlushSize(cur);
  }

  lemma FlushSize(r: Runs)
    requires Regular(r)
    ensures Pairs(r.pairs) && Pairs(Flushed(r).pairs) && |CodedAll(Flushed(r).pairs)| <= |CodedAll(r.pairs)| + 5
  {
    RegularParts(r);
    if r.len > 0 {
      AllMore(r.pairs, Pair(r.ch, r.len));
    } else {
      assert r.pairs + [] == r.pairs;
    }
  }

  // ---------------------------------------------------------------- one stream per block

  ghost predicate Chunks(chunks: seq<seq<int>>) {
    forall i | 0 <= i < |chunks| :: chunks[i] != [] && Bytes(chunks[i])
  }

  /** Feeds a stream until its block is full or the input ends. */
  method ReadBlock(s: Stream, buffer: seq<int>, chunks: seq<seq<int>>, next: nat, ghost done: seq<seq<Pair>>,
      ghost consumed: seq<int>)
    returns (buffer': seq<int>, next': nat, lastBlock: bool, ghost taken: seq<int>)
    requires s.Valid() && s.buf.nblock == 0 && Bytes(buffer) && Chunks(chunks) && next <= |chunks|
    requires Split(s.setup.level, consumed) == Splitter(done, s.Current()) ==
        Closed(s.setup.level, Splitter(done, s.Current()))
    modifies s.buf, s.buf.block, s.buf.inUse
    ensures s.Valid() && Bytes(buffer') && next' <= |chunks|
    ensures buffer + Flatten(chunks[next..]) == taken + (buffer' + Flatten(chunks[next'..]))
    ensures Split(s.setup.level, consumed + taken) == Closed(s.setup.level, Splitter(done, s.Current()))
    ensures lastBlock ==> buffer' == [] && next' == |chunks| && s.buf.nblock < BlockMax(s.setup.level)
    ensures !lastBlock ==> s.buf.nblock >= BlockMax(s.setup.level) && taken != []
    ensures s.buf.nblock <= BlockMax(s.setup.level) + 4
  {
    hide Filled, Regular, Split, Clean, Waiting, BytesBits, IsSetup, Closed, Full, JustAdded, Add, Flatten;
    SetupLevel(s.setup);
    buffer', next', taken := buffer, next, [];
    assert consumed + [] == consumed;
    while true
      invariant s.Valid() && Bytes(buffer') && next' <= |chunks| && s.buf.nblock < BlockMax(s.setup.level)
      invariant s.buf.stateInLen == 0 ==> s.buf.nblock == 0
      invariant buffer + Flatten(chunks[next..]) == taken + (buffer' + Flatten(chunks[next'..]))
      invariant Split(s.setup.level, consumed + taken) == Closed(s.setup.level, Splitter(done, s.Current()))
      decreases |chunks| - next', |buffer'|
    {
      if buffer' != [] {
        ghost var more;
        ghost var was, before := taken, buffer';
        buffer', more := s.CopyInput(buffer', done, consumed + taken);
        Assoc(consumed, was, more);
        Rejoin(was, more, buffer', Flatten(chunks[next'..]));
        SuffixBytes(before, more, buffer');
        taken := taken + more;
        if s.buf.nblock >= BlockMax(s.setup.level) {
          return buffer', next', false, taken;
        }
      } else {
        if next' == |chunks| {
          return buffer', next', true, taken;
        }
        FlattenRest(chunks, next');
        assert [] + Flatten(chunks[next'..]) == Flatten(chunks[next'..]);
        buffer' := chunks[next'];
        next' := next' + 1;
      }
    }
  }

  lemma Rejoin(a: seq<int>, b: seq<int>, c: seq<int>, d: seq<int>)
    ensures a + ((b + c) + d) == (a + b) + (c + d)
  {
  }

  lemma SuffixBytes(all: seq<int>, front: seq<int>, back: seq<int>)
    requires Bytes(all) && all == front + back
    ensures Bytes(back)
  {
    forall i | 0 <= i < |back|
      ensures 0 <= back[i] < 256
    {
      assert all[|front| + i] == back[i];
    }
  }

  lemma PrefixBytes(all: seq<int>, front: seq<int>, back: seq<int>)
    requires Bytes(all) && all == front + back
    ensures Bytes(front)
  {
    forall i | 0 <= i < |front|
      ensures 0 <= front[i] < 256
    {
      assert all[i] == front[i];
    }
  }

  lemma FlattenRest(chunks: seq<seq<int>>, i: nat)
    requires i < |chunks|
    ensures Flatten(chunks[i..]) == chunks[i] + Flatten(chunks[i + 1..])
  {
    FlattenFirst(chunks[i], chunks[i + 1..]);
    assert [chunks[i]] + chunks[i + 1..] == chunks[i..];
  }

  /** What holds between two blocks when every block has a stream of its own: the saved states continue the stream. */
  ghost predicate Resumable(u: Setup, done: seq<seq<Pair>>, consumed: seq<int>, saved: Saved, outSaved: SavedOut,
      out: seq<int>) {
    && IsSetup(u) && Clean(outSaved.bsBuff, outSaved.bsLive) && 0 <= saved.combined < WORD && saved.blockNo >= 1
    && Regular(Runs(saved.ch, saved.len, []))
    && Split(u.level, consumed) == Splitter(done, Runs(saved.ch, saved.len, []))
    && Between(u, done, saved.blockNo, saved.combined, out, Waiting(outSaved.bsBuff, outSaved.bsLive))
  }

  lemma ResumeEmpty(u: Setup)
    requires IsSetup(u)
    ensures Resumable(u, [], [], Saved(256, 0, 1, 0), SavedOut(0, 0), [])
  {
    StartRegular();
    assert Waiting(0, 0) == [];
    WaitingIs(0, 0, []);
  }

  lemma EmptyNotFull(level: int, sp: Splitter)
    requires 1 <= level && sp.cur.pairs == []
    ensures Closed(level, sp) == sp
  {
    AllNone();
  }

  /** Compresses with a fresh stream for every block, as the reader, worker and writer threads do between them. */
  method CompressInStreams(u: Setup, chunks: seq<seq<int>>) returns (out: seq<int>)
    requires IsSetup(u) && Chunks(chunks)
    ensures Bytes(Flatten(chunks))
    ensures var bs := Ended(Split(u.level, Flatten(chunks)));
            Blocks(bs) && IsStream(u, bs, out)
  {
    hide Filled, Regular, Split, Clean, Waiting, BytesBits, IsSetup, Closed, Full, Add, Flatten, Between, Resumable;
    hide Opening, CombinedCrc, IsStream, Blocks, Pairs;
    FlattenBytes(chunks);
    SetupLevel(u);
    var saved, outSaved := Saved(256, 0, 1, 0), SavedOut(0, 0);
    ghost var done, consumed := [], [];
    var buffer, next := [], 0;
    out := [];
    ResumeEmpty(u);
    assert chunks[0..] == chunks && [] + ([] + Flatten(chunks)) == Flatten(chunks);
    while true
      invariant Bytes(buffer) && next <= |chunks| && Flatten(chunks) == consumed + (buffer + Flatten(chunks[next..]))
      invariant Resumable(u, done, consumed, saved, outSaved, out)
      decreases |Flatten(chunks)| - |consumed|
    {
      var lastBlock;
      ghost var taken, ps;
      buffer, next, lastBlock, saved, outSaved, out, taken, ps :=
          OneStream(u, saved, outSaved, buffer, chunks, next, out, done, consumed);
      assert consumed + taken + (buffer + Flatten(chunks[next..])) ==
          consumed + (taken + (buffer + Flatten(chunks[next..])));
      consumed := consumed + taken;
      if lastBlock {
        assert chunks[|chunks|..] == [];
        FlattenNone();
        assert consumed + ([] + []) == consumed;
        return;
      }
      done := done + [ps];
    }
  }

  lemma ClosedIs(level: int, sp: Splitter)
    ensures Full(level, sp.cur) ==> Closed(level, sp) == Splitter(sp.done + [sp.cur.pairs], Carried(sp.cur))
    ensures !Full(level, sp.cur) ==> Closed(level, sp) == sp
  {
  }

  lemma NextResumable(u: Setup, done: seq<seq<Pair>>, ps: seq<Pair>, consumed: seq<int>, cur: Runs, saved: Saved,
      outSaved: SavedOut, out: seq<int>, zbits: seq<int>)
    requires IsSetup(u) && Clean(outSaved.bsBuff, outSaved.bsLive) && 0 <= saved.combined < WORD
        && saved.blockNo == |done| + 2
    requires Regular(Carried(cur)) && saved.ch == cur.ch && saved.len == cur.len && Bytes(out) && Bytes(zbits)
    requires Split(u.level, consumed) == Splitter(done + [ps], Carried(cur))
    requires Blocks(done + [ps]) && saved.combined == CombinedCrc(u, done + [ps])
    requires BytesBits(out) + (BytesBits(zbits) + Waiting(outSaved.bsBuff, outSaved.bsLive)) == Opening(u, done + [ps])
    ensures Resumable(u, done + [ps], consumed, saved, outSaved, out + zbits)
  {
    hide Split, Clean, Waiting, BytesBits, IsSetup, Opening, CombinedCrc, Blocks, Regular;
    BytesBitsConcat(out, zbits);
    CleanLive(outSaved.bsBuff, outSaved.bsLive);
    assert BytesBits(out) + (BytesBits(zbits) + Waiting(outSaved.bsBuff, outSaved.bsLive)) ==
        BytesBits(out) + BytesBits(zbits) + Waiting(outSaved.bsBuff, outSaved.bsLive);
  }

  lemma CleanLive(buff: int, live: int)
    requires Clean(buff, live)
    ensures 0 <= live <= 32
  {
  }

  lemma FlattenNone()
    ensures Flatten<int>([]) == []
  {
  }

  lemma {:induction false} FlattenBytes(chunks: seq<seq<int>>)
    requires forall i | 0 <= i < |chunks| :: Bytes(chunks[i])
    ensures Bytes(Flatten(chunks))
  {
    if chunks != [] {
      FlattenBytes(chunks[..|chunks| - 1]);
    }
  }

  /** The worker's and the writer's part: compress the block, continue the saved output state, and store. */
  method FinishStream(s: Stream, lastBlock: bool, outSaved: SavedOut, out: seq<int>, ghost done: seq<seq<Pair>>)
    returns (outSaved': SavedOut, out': seq<int>)
    requires s.Valid() && s.bits.zbits == [] && Clean(outSaved.bsBuff, outSaved.bsLive)
        && (!lastBlock ==> s.buf.nblock > 0)
    requires Between(s.setup, done, s.blockNo, s.combinedCrc, out, Waiting(outSaved.bsBuff, outSaved.bsLive))
    modifies s, s.bits
    ensures Pairs(s.buf.pairs) && |out| <= |out'| && out == out'[..|out|] && Bytes(out'[|out|..])
    ensures !lastBlock ==>
              && Blocks(done + [s.buf.pairs]) && Clean(outSaved'.bsBuff, outSaved'.bsLive)
              && BytesBits(out) + (BytesBits(out'[|out|..]) + Waiting(outSaved'.bsBuff, outSaved'.bsLive)) ==
                  Opening(s.setup, done + [s.buf.pairs])
    ensures lastBlock ==> var bs := if s.buf.pairs == [] then done else done + [s.buf.pairs];
                          Blocks(bs) && IsStream(s.setup, bs, out')
  {
    hide Filled, Regular, Clean, Waiting, BytesBits, IsSetup, Between, Opening, CombinedCrc, IsStream, Blocks, Pairs;
    hide Combine, BlockCrc, Crc;
    FilledFacts(s.buf.table, s.buf.block[..s.buf.nblock], s.buf.inUse[..], s.buf.blockCrc, s.buf.pairs);
    CleanLive(outSaved.bsBuff, outSaved.bsLive);
    BetweenFacts(s.setup, done, s.blockNo, s.combinedCrc, out, Waiting(outSaved.bsBuff, outSaved.bsLive));
    ghost var combined := s.combinedCrc;
    s.CompressBlockCompute();
    s.RestoreOutputState(outSaved);
    s.StoreBlock(lastBlock, done, combined, out);
    outSaved' := SavedOut(s.bits.bsBuff, s.bits.bsLive);
    out' := out + s.bits.zbits;
    assert out'[|out|..] == s.bits.zbits;
  }

  /** One block in its own stream: restore, read, save, compress, restore and save the output side. */
  method OneStream(u: Setup, saved: Saved, outSaved: SavedOut, buffer: seq<int>, chunks: seq<seq<int>>, next: nat,
      out: seq<int>, ghost done: seq<seq<Pair>>, ghost consumed: seq<int>)
    returns (buffer': seq<int>, next': nat, lastBlock: bool, saved': Saved, outSaved': SavedOut, out': seq<int>,
        ghost taken: seq<int>, ghost ps: seq<Pair>)
    requires Resumable(u, done, consumed, saved, outSaved, out)
    requires Bytes(buffer) && Chunks(chunks) && next <= |chunks|
    ensures Bytes(buffer') && next' <= |chunks|
        && buffer + Flatten(chunks[next..]) == taken + (buffer' + Flatten(chunks[next'..]))
    ensures lastBlock ==> buffer' == [] && next' == |chunks|
    ensures lastBlock ==>
        var bs := Ended(Split(u.level, consumed + taken)); IsSetup(u) && Blocks(bs) && IsStream(u, bs, out')
    ensures !lastBlock ==> taken != [] && Resumable(u, done + [ps], consumed + taken, saved', outSaved', out')
  {
    hide Filled, Regular, Split, Clean, Waiting, BytesBits, IsSetup, Closed, Full, Add, Flatten, Between, Opening;
    hide CombinedCrc, IsStream, Blocks, Pairs, Combine, BlockCrc, Crc;
    SetupLevel(u);
    var s := new Stream(u);
    s.RestoreState(saved);
    EmptyNotFull(u.level, Splitter(done, s.Current()));
    buffer', next', lastBlock, taken := ReadBlock(s, buffer, chunks, next, done, consumed);
    saved', outSaved' := saved, outSaved;
    CleanLive(outSaved.bsBuff, outSaved.bsLive);
    BetweenFacts(u, done, saved.blockNo, saved.combined, out, Waiting(outSaved.bsBuff, outSaved.bsLive));
    NotFull(u.level, s.buf.table, s.buf.block[..s.buf.nblock], s.buf.inUse[..], s.buf.blockCrc, s.Current());
    ClosedIs(u.level, Splitter(done, s.Current()));
    ghost var cur := s.Current();
    if !lastBlock {
      saved' := s.SaveStateBeforeBlocksort();
    } else {
      s.buf.FlushRl();
    }
    ps := s.buf.pairs;
    outSaved', out' := FinishStream(s, lastBlock, outSaved, out, done);
    if !lastBlock {
      CarryKeeps(cur);
      OpeningMore(u, done, ps);
      NextResumable(u, done, ps, consumed + taken, cur, saved', outSaved', out, out'[|out|..]);
      assert out + out'[|out|..] == out';
    }
  }
}
