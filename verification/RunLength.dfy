/** Run-length coding. */
module RunLength {
  // The initial stage of the compressor and the final, resumable one of the decompressor.

  import opened Arith
  import opened BitStrings
  import opened Sequences

  // ---------------------------------------------------------------- checksums

  function Xor(x: nat, y: nat): (r: nat)
    decreases x + y
  {
    if x == 0 && y == 0 then 0 else 2 * Xor(x / 2, y / 2) + (x + y) % 2
  }

  lemma {:induction false} XorBound(x: nat, y: nat, k: nat)
    requires x < Pow2(k) && y < Pow2(k)
    ensures Xor(x, y) < Pow2(k)
  {
    if x > 0 || y > 0 {
      XorBound(x / 2, y / 2, k - 1);
    }
  }

  ghost predicate Table(table: seq<int>) {
    |table| == 256 && forall i | 0 <= i < 256 :: 0 <= table[i] < WORD
  }

  lemma XorWord(x: int, y: int)
    requires 0 <= x < WORD && 0 <= y < WORD
    ensures Xor(x, y) < WORD
  {
    hide Xor, Pow2;
    WordPowers();
    XorBound(x, y, 32);
  }

  lemma XorByte(x: int, y: int)
    requires 0 <= x < 256 && 0 <= y < 256
    ensures Xor(x, y) < 256
  {
    hide Xor, Pow2;
    WordPowers();
    XorBound(x, y, 8);
  }

  function UpdateCrc(table: seq<int>, crc: int, ch: int): (r: int)
    requires Table(table) && 0 <= crc < WORD && 0 <= ch < 256
    ensures 0 <= r < WORD
  {
    XorByte(crc / TOP, ch);
    XorWord(crc * 256 % WORD, table[Xor(crc / TOP, ch)]);
    Xor(crc * 256 % WORD, table[Xor(crc / TOP, ch)])
  }

  /** The running checksum of a byte string. */
  ghost function Crc(table: seq<int>, xs: seq<int>): (r: int)
    requires Table(table) && Bytes(xs)
    ensures 0 <= r < WORD
  {
    if xs == [] then WORD - 1 else UpdateCrc(table, Crc(table, xs[..|xs| - 1]), xs[|xs| - 1])
  }

  lemma CrcMore(table: seq<int>, xs: seq<int>, x: int)
    requires Table(table) && Bytes(xs) && 0 <= x < 256
    ensures Bytes(xs + [x]) && Crc(table, xs + [x]) == UpdateCrc(table, Crc(table, xs), x)
  {
    assert (xs + [x])[..|xs|] == xs;
  }

  // ---------------------------------------------------------------- runs

  datatype Pair = Pair(ch: int, len: int)

  ghost predicate IsPair(p: Pair) {
    0 <= p.ch < 256 && 1 <= p.len <= 255
  }

  /** The bytes a run stands for. */
  ghost function Plain(p: Pair): (xs: seq<int>)
    requires IsPair(p)
    ensures |xs| == p.len && Bytes(xs)
  {
    Repeat(p.ch, p.len)
  }

  /** How a run is written in a block: up to three bytes literally, else four and a count. */
  ghost function Coded(p: Pair): (xs: seq<int>)
    requires IsPair(p)
    ensures 1 <= |xs| <= 5 && Bytes(xs)
  {
    if p.len < 4 then Repeat(p.ch, p.len) else Repeat(p.ch, 4) + [p.len - 4]
  }

  ghost predicate Pairs(ps: seq<Pair>) {
    forall i | 0 <= i < |ps| :: IsPair(ps[i])
  }

  ghost function PlainAll(ps: seq<Pair>): (xs: seq<int>)
    requires Pairs(ps)
    ensures Bytes(xs)
  {
    if ps == [] then [] else PlainAll(ps[..|ps| - 1]) + Plain(ps[|ps| - 1])
  }

  ghost function CodedAll(ps: seq<Pair>): (xs: seq<int>)
    requires Pairs(ps)
    ensures Bytes(xs)
  {
    if ps == [] then [] else CodedAll(ps[..|ps| - 1]) + Coded(ps[|ps| - 1])
  }

  /** A short run is followed by a run of another byte. */
  ghost predicate Separated(ps: seq<Pair>) {
    forall i, j | 0 <= i && j == i + 1 < |ps| :: ps[i].len == 255 || ps[i].ch != ps[j].ch
  }

  lemma AllMore(ps: seq<Pair>, p: Pair)
    requires Pairs(ps) && IsPair(p)
    ensures Pairs(ps + [p])
    ensures PlainAll(ps + [p]) == PlainAll(ps) + Plain(p)
    ensures CodedAll(ps + [p]) == CodedAll(ps) + Coded(p)
  {
    assert (ps + [p])[..|ps|] == ps;
  }

  lemma {:induction false} AllFirst(ps: seq<Pair>)
    requires Pairs(ps) && ps != []
    ensures Pairs(ps[1..])
    ensures PlainAll(ps) == Plain(ps[0]) + PlainAll(ps[1..])
    ensures CodedAll(ps) == Coded(ps[0]) + CodedAll(ps[1..])
  {
    hide Plain, Coded, PlainAll, CodedAll;
    if |ps| > 1 {
      var ps', p := ps[..|ps| - 1], ps[|ps| - 1];
      AllFirst(ps');
      assert ps[1..] == ps'[1..] + [p] && ps == ps' + [p];
      AllMore(ps', p);
      AllMore(ps'[1..], p);
      assert Plain(ps[0]) + PlainAll(ps'[1..]) + Plain(p) == Plain(ps[0]) + (PlainAll(ps'[1..]) + Plain(p));
      assert Coded(ps[0]) + CodedAll(ps'[1..]) + Coded(p) == Coded(ps[0]) + (CodedAll(ps'[1..]) + Coded(p));
    } else {
      assert ps == [] + [ps[0]] && ps[1..] == [];
      AllMore([], ps[0]);
      AllNone();
    }
  }

  lemma AllNone()
    ensures Pairs([]) && PlainAll([]) == [] && CodedAll([]) == []
  {
  }

  // ---------------------------------------------------------------- what a block means

  datatype Expansion = Expansion(bytes: seq<int>, ok: bool)

  /** How many equal bytes lead `src[i..n]`, at most four. */
  function Lead(src: seq<int>, i: int, n: int): (r: int)
    requires 0 <= i < n <= |src|
    ensures 1 <= r <= 4 && i + r <= n
  {
    if i + 1 == n || src[i + 1] != src[i] then 1
    else if i + 2 == n || src[i + 2] != src[i] then 2
    else if i + 3 == n || src[i + 3] != src[i] then 3
    else 4
  }

  /** The bytes that the block `src[..n]` stands for from position `i` on.  A block that ends in four equal bytes
      without a count is corrupt; `src` goes on past the block because the decoder reads the missing count there. */
  function Expand(src: seq<int>, i: int, n: int): (e: Expansion)
    requires 0 <= i && 0 <= n && n + 2 <= |src|
    requires Bytes(src)
    decreases n + 1 - i
  {
    if i >= n then Expansion([], i == n)
    else
      var r := Lead(src, i, n);
      if r < 4 then
        var e := Expand(src, i + r, n);
        Expansion(Repeat(src[i], r) + e.bytes, e.ok)
      else
        var e := Expand(src, i + 5, n);
        Expansion(Repeat(src[i], 4 + src[i + 4]) + e.bytes, e.ok)
  }

  /** The decoder's reading of a block undoes the encoder's coding of its runs. */
  lemma {:induction false} ExpandCoded(src: seq<int>, i: int, n: int, ps: seq<Pair>)
    requires 0 <= i <= n && n + 2 <= |src| && Bytes(src)
    requires Pairs(ps) && Separated(ps) && src[i..n] == CodedAll(ps)
    ensures Expand(src, i, n) == Expansion(PlainAll(ps), true)
    decreases |ps|
  {
    hide Plain, Coded, PlainAll, CodedAll, Lead, Separated;
    AllNone();
    if ps == [] {
      assert |src[i..n]| == n - i;
    } else {
      var p, rest := ps[0], ps[1..];
      var c := Coded(p);
      AllFirst(ps);
      SeparatedRest(ps);
      var j := i + |c|;
      assert |src[i..n]| == |c| + |CodedAll(rest)|;
      assert src[i..j] == src[i..n][..|c|] == c && src[j..n] == src[i..n][|c|..] == CodedAll(rest);
      ExpandCoded(src, j, n, rest);
      CodedLead(src, i, n, p, rest);
      CodedShape(p);
    }
  }

  lemma CodedShape(p: Pair)
    requires IsPair(p)
    ensures |Coded(p)| == if p.len < 4 then p.len else 5
    ensures Plain(p) == Repeat(p.ch, p.len)
  {
  }

  lemma SeparatedRest(ps: seq<Pair>)
    requires Separated(ps) && ps != []
    ensures Separated(ps[1..])
    ensures |ps| > 1 ==> ps[0].len == 255 || ps[0].ch != ps[1].ch
  {
    var rest := ps[1..];
    forall a, b | 0 <= a && b == a + 1 < |rest|
      ensures rest[a].len == 255 || rest[a].ch != rest[b].ch
    {
      assert ps[a + 1] == rest[a] && ps[b + 1] == rest[b];
    }
  }

  /** The first run of the coded block is recognised with its full length. */
  lemma CodedLead(src: seq<int>, i: int, n: int, p: Pair, rest: seq<Pair>)
    requires 0 <= i <= n && n + 2 <= |src| && IsPair(p) && Pairs(rest)
    requires i + |Coded(p)| <= n && src[i..i + |Coded(p)|] == Coded(p) && src[i + |Coded(p)|..n] == CodedAll(rest)
    requires rest != [] ==> p.len == 255 || p.ch != rest[0].ch
    ensures i < n && src[i] == p.ch && Lead(src, i, n) == if p.len < 4 then p.len else 4
    ensures p.len >= 4 ==> i + 5 <= n && src[i + 4] == p.len - 4
  {
    hide CodedAll, Coded;
    CodedShape(p);
    CodedBytes(src, i, p);
    if p.len < 4 && i + p.len < n {
      NextRun(src, i + p.len, n, rest);
    }
  }

  lemma CodedBytes(src: seq<int>, i: int, p: Pair)
    requires IsPair(p) && 0 <= i && i + |Coded(p)| <= |src| && src[i..i + |Coded(p)|] == Coded(p)
    ensures forall k | i <= k < i + (if p.len < 4 then p.len else 4) :: src[k] == p.ch
    ensures p.len >= 4 ==> |Coded(p)| == 5 && src[i + 4] == p.len - 4
  {
    var c := Coded(p);
    forall k | i <= k < i + (if p.len < 4 then p.len else 4)
      ensures src[k] == p.ch
    {
      assert src[k] == c[k - i];
    }
    if p.len >= 4 {
      assert src[i + 4] == c[4];
    }
  }

  lemma NextRun(src: seq<int>, j: int, n: int, rest: seq<Pair>)
    requires 0 <= j < n <= |src| && Pairs(rest) && src[j..n] == CodedAll(rest)
    ensures rest != [] && src[j] == rest[0].ch
  {
    assert |src[j..n]| > 0 && src[j..n][0] == src[j];
    assert rest != [];
    AllFirst(rest);
    assert Coded(rest[0])[0] == rest[0].ch;
  }

  // ---------------------------------------------------------------- the encoder

  /** The pending run (none when `len` is zero) and the runs already in the block. */
  datatype Runs = Runs(ch: int, len: int, pairs: seq<Pair>)

  ghost function Pending(r: Runs): (ps: seq<Pair>) {
    if r.len == 0 then [] else [Pair(r.ch, r.len)]
  }

  ghost predicate Regular(r: Runs) {
    && (r.len == 0 <==> r.ch == 256) && Pairs(r.pairs + Pending(r)) && Separated(r.pairs + Pending(r))
  }

  /** One more input byte. */
  function Add(r: Runs, c: int): (r': Runs) {
    if r.len == 0 then Runs(c, 1, r.pairs)
    else if c != r.ch || r.len == 255 then Runs(c, 1, r.pairs + [Pair(r.ch, r.len)])
    else Runs(r.ch, r.len + 1, r.pairs)
  }

  /** The input bytes that the block and the pending run stand for. */
  ghost function Contents(r: Runs): (xs: seq<int>)
    requires Regular(r)
    ensures Bytes(xs)
  {
    PlainAll(r.pairs + Pending(r))
  }

  lemma RegularParts(r: Runs)
    requires Regular(r)
    ensures Pairs(r.pairs) && Separated(r.pairs) && 0 <= r.len <= 255 && (r.len > 0 ==> IsPair(Pair(r.ch, r.len)))
  {
    var ps, all := r.pairs, r.pairs + Pending(r);
    forall i | 0 <= i < |ps|
      ensures IsPair(ps[i])
    {
      assert all[i] == ps[i];
    }
    forall i, j | 0 <= i && j == i + 1 < |ps|
      ensures ps[i].len == 255 || ps[i].ch != ps[j].ch
    {
      assert all[i] == ps[i] && all[j] == ps[j];
    }
    if r.len != 0 {
      assert all[|ps|] == Pair(r.ch, r.len);
    }
  }

  lemma AddKeeps(r: Runs, c: int)
    requires Regular(r) && 0 <= c < 256 && (r.len == 0 ==> r.pairs == [])
    ensures Regular(Add(r, c)) && Contents(Add(r, c)) == Contents(r) + [c]
  {
    hide PlainAll, CodedAll, Plain, Coded;
    RegularParts(r);
    var r' := Add(r, c);
    PlainIs(Pair(c, 1));
    if r'.len == 1 {
      assert r'.pairs == r.pairs + Pending(r);
      AllMore(r'.pairs, Pair(c, 1));
      assert Repeat(c, 1) == [c];
      SeparatedMore(r.pairs + Pending(r), Pair(c, 1));
    } else {
      PlainIs(Pair(r.ch, r.len));
      PlainIs(Pair(r.ch, r.len + 1));
      AllMore(r.pairs, Pair(r.ch, r.len));
      AllMore(r.pairs, Pair(r.ch, r.len + 1));
      RepeatMore(r.ch, r.len, 1);
      assert Repeat(r.ch, 1) == [c];
      assert PlainAll(r.pairs) + Plain(Pair(r.ch, r.len)) + [c] == PlainAll(r.pairs) + (Plain(Pair(r.ch, r.len)) + [c]);
      SeparatedLast(r.pairs, Pair(r.ch, r.len), Pair(r.ch, r.len + 1));
    }
  }

  lemma PlainIs(p: Pair)
    requires IsPair(p)
    ensures Plain(p) == Repeat(p.ch, p.len)
  {
  }

  lemma SeparatedMore(ps: seq<Pair>, p: Pair)
    requires Separated(ps) && (ps != [] ==> ps[|ps| - 1].len == 255 || ps[|ps| - 1].ch != p.ch)
    ensures Separated(ps + [p])
  {
    var xs := ps + [p];
    forall i, j | 0 <= i && j == i + 1 < |xs|
      ensures xs[i].len == 255 || xs[i].ch != xs[j].ch
    {
      assert j < |ps| ==> ps[i].len == 255 || ps[i].ch != ps[j].ch;
    }
  }

  lemma SeparatedLast(ps: seq<Pair>, p: Pair, q: Pair)
    requires Separated(ps + [p]) && p.ch == q.ch
    ensures Separated(ps + [q])
  {
    var xs, ys := ps + [p], ps + [q];
    forall i, j | 0 <= i && j == i + 1 < |ys|
      ensures ys[i].len == 255 || ys[i].ch != ys[j].ch
    {
      assert xs[i].len == 255 || xs[i].ch != xs[j].ch;
    }
  }

  /** Ending the pending run. */
  ghost function Flushed(r: Runs): (r': Runs) {
    Runs(256, 0, r.pairs + Pending(r))
  }

  lemma FlushKeeps(r: Runs)
    requires Regular(r)
    ensures Regular(Flushed(r)) && Contents(Flushed(r)) == Contents(r)
  {
    assert r.pairs + Pending(r) + [] == r.pairs + Pending(r);
  }

  /** Carrying the pending run over to a new block. */
  ghost function Carried(r: Runs): (r': Runs) {
    Runs(r.ch, r.len, [])
  }

  lemma CarryKeeps(r: Runs)
    requires Regular(r)
    ensures Regular(Carried(r)) && Pairs(r.pairs) && Separated(r.pairs)
    ensures Contents(r) == PlainAll(r.pairs) + Contents(Carried(r))
  {
    RegularParts(r);
    var ps, pending := r.pairs, Pending(r);
    assert [] + pending == pending;
    if r.len == 0 {
      assert ps + [] == ps;
      AllNone();
      assert PlainAll(ps) + [] == PlainAll(ps);
    } else {
      var p := Pair(r.ch, r.len);
      AllMore(ps, p);
      AllNone();
      AllMore([], p);
      assert [] + [p] == [p] && [] + Plain(p) == Plain(p);
    }
  }

  /** What the block buffer holds: the coded runs, the bytes in use and the checksum of the plain bytes. */
  ghost predicate Filled(table: seq<int>, bytes: seq<int>, inUse: seq<bool>, crc: int, ps: seq<Pair>) {
    && Table(table) && Pairs(ps) && bytes == CodedAll(ps) && crc == Crc(table, PlainAll(ps))
    && |inUse| == 256 && forall c | 0 <= c < 256 :: inUse[c] <==> c in bytes
  }

  ghost function Marked(inUse: seq<bool>, p: Pair): (r: seq<bool>)
    requires |inUse| == 256 && IsPair(p)
    ensures |r| == 256
  {
    if p.len < 4 then inUse[p.ch := true] else inUse[p.ch := true][p.len - 4 := true]
  }

  lemma FilledMore(table: seq<int>, bytes: seq<int>, inUse: seq<bool>, crc: int, ps: seq<Pair>, p: Pair)
    requires Filled(table, bytes, inUse, crc, ps) && IsPair(p)
    ensures Pairs(ps + [p])
    ensures Filled(table, bytes + Coded(p), Marked(inUse, p), Crc(table, PlainAll(ps) + Plain(p)), ps + [p])
  {
    hide Crc, PlainAll, CodedAll;
    AllMore(ps, p);
    var c := Coded(p);
    assert c[0] == p.ch && (p.len >= 4 ==> c[4] == p.len - 4);
    forall x | 0 <= x < 256
      ensures Marked(inUse, p)[x] <==> x in bytes + c
    {
      assert x in c <==> x == p.ch || (p.len >= 4 && x == p.len - 4);
    }
  }

  /** The compressor's view of one block under construction. */
  class BlockBuffer {
    const table: seq<int>
    const block: array<int>
    const inUse: array<bool>
    var stateInCh: int
    var stateInLen: int
    var nblock: int
    var blockCrc: int
    ghost var pairs: seq<Pair>

    ghost predicate Valid()
      reads this, block, inUse
    {
      && 0 <= nblock <= block.Length
      && Filled(table, block[..nblock], inUse[..], blockCrc, pairs)
      && Regular(Runs(stateInCh, stateInLen, pairs))
    }

    constructor (table: seq<int>, size: nat)
      requires Table(table)
      ensures Valid() && this.table == table && fresh(block) && fresh(inUse) && block.Length == size
      ensures stateInCh == 256 && stateInLen == 0 && pairs == [] && nblock == 0
    {
      this.table := table;
      block := new int[size];
      inUse := new bool[256](_ => false);
      stateInCh, stateInLen, nblock, blockCrc, pairs := 256, 0, 0, WORD - 1, [];
      new;
      assert block[..0] == [];
      AllNone();
    }

    /** Starts an empty block; the pending run stays. */
    method PrepareNewBlock()
      requires Valid()
      modifies this, inUse
      ensures Valid() && nblock == 0 && pairs == [] && stateInCh == old(stateInCh) && stateInLen == old(stateInLen)
    {
      hide Regular, Filled, CodedAll, PlainAll, Crc, Table, Pairs;
      FilledFacts(table, block[..nblock], inUse[..], blockCrc, pairs);
      CarryKeeps(Runs(stateInCh, stateInLen, pairs));
      nblock := 0;
      blockCrc := WORD - 1;
      pairs := [];
      ClearInUse();
      assert block[..0] == [];
      FilledEmpty(table, inUse[..]);
    }

    method ClearInUse()
      requires inUse.Length == 256
      modifies inUse
      ensures forall k | 0 <= k < 256 :: !inUse[k]
    {
      for i := 0 to 256
        invariant forall k | 0 <= k < i :: !inUse[k]
      {
        inUse[i] := false;
      }
    }

    /** The checksum loop over a run. */
    method UpdateRun(ch: int, len: int, ghost before: seq<int>)
      requires Table(table) && 0 <= ch < 256 && 0 <= len
      requires Bytes(before) && blockCrc == Crc(table, before)
      modifies this`blockCrc
      ensures Bytes(before + Repeat(ch, len)) && blockCrc == Crc(table, before + Repeat(ch, len))
    {
      assert before + Repeat(ch, 0) == before;
      for i := 0 to len
        invariant Bytes(before + Repeat(ch, i)) && blockCrc == Crc(table, before + Repeat(ch, i))
      {
        CrcMore(table, before + Repeat(ch, i), ch);
        assert before + Repeat(ch, i) + [ch] == before + Repeat(ch, i + 1);
        blockCrc := UpdateCrc(table, blockCrc, ch);
      }
    }

    /** The switch over the length of a run. */
    method PutCoded(ch: int, len: int)
      requires IsPair(Pair(ch, len)) && 0 <= nblock && nblock + 5 <= block.Length && inUse.Length == 256
      modifies this`nblock, block, inUse
      ensures nblock == old(nblock) + |Coded(Pair(ch, len))|
      ensures block[..nblock] == old(block[..nblock]) + Coded(Pair(ch, len))
      ensures inUse[..] == Marked(old(inUse[..]), Pair(ch, len))
    {
      inUse[ch] := true;
      if len == 1 {
        block[nblock] := ch; nblock := nblock + 1;
      } else if len == 2 {
        block[nblock] := ch; nblock := nblock + 1;
        block[nblock] := ch; nblock := nblock + 1;
      } else if len == 3 {
        block[nblock] := ch; nblock := nblock + 1;
        block[nblock] := ch; nblock := nblock + 1;
        block[nblock] := ch; nblock := nblock + 1;
      } else {
        inUse[len - 4] := true;
        block[nblock] := ch; nblock := nblock + 1;
        block[nblock] := ch; nblock := nblock + 1;
        block[nblock] := ch; nblock := nblock + 1;
        block[nblock] := ch; nblock := nblock + 1;
        block[nblock] := len - 4; nblock := nblock + 1;
      }
    }

    /** Writes the pending run into the block. */
    method AddPairToBlock()
      requires Valid() && stateInCh < 256 && nblock + 5 <= block.Length
      modifies this`nblock, this`blockCrc, this`pairs, block, inUse
      ensures 0 <= nblock <= old(nblock) + 5
      ensures pairs == old(pairs) + [Pair(stateInCh, stateInLen)] && Pairs(pairs)
      ensures nblock <= block.Length && Filled(table, block[..nblock], inUse[..], blockCrc, pairs)
    {
      ghost var p := Pair(stateInCh, stateInLen);
      RegularParts(Runs(stateInCh, stateInLen, pairs));
      FilledMore(table, block[..nblock], inUse[..], blockCrc, pairs, p);
      FilledFacts(table, block[..nblock], inUse[..], blockCrc, pairs);
      hide Filled, Regular, CodedAll, PlainAll, Crc, Coded;
      PlainIs(p);
      UpdateRun(stateInCh, stateInLen, PlainAll(pairs));
      PutCoded(stateInCh, stateInLen);
      pairs := pairs + [p];
    }

    method FlushRl()
      requires Valid() && nblock + 5 <= block.Length
      modifies this, block, inUse
      ensures Valid() && nblock <= old(nblock) + 5
      ensures Runs(stateInCh, stateInLen, pairs) == old(Flushed(Runs(stateInCh, stateInLen, pairs)))
    {
      hide Filled, Regular;
      ghost var r := Runs(stateInCh, stateInLen, pairs);
      RegularEmpty(r);
      FlushKeeps(r);
      if stateInCh < 256 {
        AddPairToBlock();
      }
      stateInCh := 256;
      stateInLen := 0;
      assert r.pairs + [] == r.pairs;
    }

    /** Takes one input byte. */
    method AddCharToBlock(c: int)
      requires Valid() && 0 <= c < 256 && nblock + 5 <= block.Length && (stateInLen == 0 ==> nblock == 0)
      modifies this, block, inUse
      ensures Valid() && nblock <= old(nblock) + 5 && stateInLen > 0
      ensures Runs(stateInCh, stateInLen, pairs) == old(Add(Runs(stateInCh, stateInLen, pairs), c))
    {
      hide Filled, Regular;
      ghost var r := Runs(stateInCh, stateInLen, pairs);
      RegularEmpty(r);
      FilledNone(table, block[..nblock], inUse[..], blockCrc, pairs);
      AddKeeps(r, c);
      if c != stateInCh && stateInLen == 1 {
        AddSingle();
        stateInCh := c;
      } else if c != stateInCh || stateInLen == 255 {
        if stateInCh < 256 {
          AddPairToBlock();
        }
        stateInCh := c;
        stateInLen := 1;
      } else {
        stateInLen := stateInLen + 1;
      }
    }

    /** The fast path: a run of one byte. */
    method AddSingle()
      requires Valid() && stateInLen == 1 && nblock + 5 <= block.Length
      modifies this`nblock, this`blockCrc, this`pairs, block, inUse
      ensures 0 <= nblock <= old(nblock) + 5
      ensures pairs == old(pairs) + [Pair(stateInCh, stateInLen)] && Pairs(pairs)
      ensures nblock <= block.Length && Filled(table, block[..nblock], inUse[..], blockCrc, pairs)
    {
      ghost var p := Pair(stateInCh, 1);
      RegularParts(Runs(stateInCh, stateInLen, pairs));
      FilledMore(table, block[..nblock], inUse[..], blockCrc, pairs, p);
      FilledFacts(table, block[..nblock], inUse[..], blockCrc, pairs);
      assert Coded(p) == [stateInCh] == Plain(p);
      CrcMore(table, PlainAll(pairs), stateInCh);
      hide Filled, Regular, CodedAll, PlainAll, Crc, Coded;
      ghost var bytes, used := block[..nblock], inUse[..];
      blockCrc := UpdateCrc(table, blockCrc, stateInCh);
      inUse[stateInCh] := true;
      block[nblock] := stateInCh;
      nblock := nblock + 1;
      assert block[..nblock] == bytes + [stateInCh];
      assert inUse[..] == used[stateInCh := true];
      pairs := pairs + [p];
    }
  }

  lemma RegularEmpty(r: Runs)
    requires Regular(r)
    ensures (r.len == 0 <==> r.ch == 256) && 0 <= r.ch <= 256 && r.len >= 0
  {
    RegularParts(r);
  }

  lemma FilledNone(table: seq<int>, bytes: seq<int>, inUse: seq<bool>, crc: int, ps: seq<Pair>)
    requires Filled(table, bytes, inUse, crc, ps)
    ensures bytes == [] <==> ps == []
  {
    if ps != [] {
      AllFirst(ps);
    }
  }

  lemma FilledEmpty(table: seq<int>, inUse: seq<bool>)
    requires Table(table) && |inUse| == 256 && forall c | 0 <= c < 256 :: !inUse[c]
    ensures Filled(table, [], inUse, WORD - 1, [])
  {
  }

  lemma FilledFacts(table: seq<int>, bytes: seq<int>, inUse: seq<bool>, crc: int, ps: seq<Pair>)
    requires Filled(table, bytes, inUse, crc, ps)
    ensures Table(table) && Pairs(ps) && |inUse| == 256 && Bytes(PlainAll(ps)) && crc == Crc(table, PlainAll(ps))
  {
  }

  // ---------------------------------------------------------------- the decoder

  /** Writes out a decoded block in as many pieces as the caller's buffers dictate. */
  class Unpacker {
    const table: seq<int>
    const src: seq<int>
    const saveNblock: int
    var outCh: int
    var outLen: int
    var used: int
    var k0: int
    var crc: int
    ghost var delivered: seq<int>

    ghost predicate Valid()
      reads this
    {
      && Table(table) && Bytes(src) && 0 <= saveNblock && saveNblock + 2 <= |src|
      && 1 <= used <= saveNblock + 2 && (used <= saveNblock ==> k0 == src[used - 1])
      && 0 <= outLen <= 259 && 0 <= outCh < 256
      && Bytes(delivered) && crc == Crc(table, delivered)
    }

    /** Everything still to be written: the rest of the current run and of the block. */
    ghost function Owed(): (xs: seq<int>)
      requires Valid()
      reads this
    {
      Repeat(outCh, outLen) + Expand(src, used - 1, saveNblock).bytes
    }

    constructor (table: seq<int>, src: seq<int>, nblock: int)
      requires Table(table) && Bytes(src) && 0 <= nblock && nblock + 2 <= |src|
      ensures Valid() && this.table == table && this.src == src && saveNblock == nblock && delivered == [] && used == 1
          && outLen == 0
      ensures Owed() == Expand(src, 0, nblock).bytes
    {
      this.table, this.src, saveNblock := table, src, nblock;
      outCh, outLen, used, k0, crc, delivered := 0, 0, 1, src[0], WORD - 1, [];
      new;
      assert Repeat(0, 0) + Expand(src, 0, nblock).bytes == Expand(src, 0, nblock).bytes;
    }

    /** Reads the next run of the block. */
    method StartRun()
      requires Valid() && outLen == 0 && used <= saveNblock
      modifies this`outCh, this`outLen, this`used, this`k0
      ensures Valid() && used > old(used) && outLen > 0
      ensures Owed() == old(Owed()) && Expand(src, used - 1, saveNblock).ok == old(Expand(src, used - 1, saveNblock).ok)
    {
      hide Expand, Crc, Repeat;
      ghost var i := used - 1;
      ExpandRun(src, i, saveNblock);
      assert Repeat(outCh, 0) + Expand(src, i, saveNblock).bytes == Expand(src, i, saveNblock).bytes;
      outCh := k0;
      var k1 := src[used]; used := used + 1;
      outLen := 1;
      if k1 != k0 { k0 := k1; return; }
      if used == saveNblock + 1 { return; }
      outLen := 2;
      k1 := src[used]; used := used + 1;
      if used == saveNblock + 1 { return; }
      if k1 != k0 { k0 := k1; return; }
      outLen := 3;
      k1 := src[used]; used := used + 1;
      if used == saveNblock + 1 { return; }
      if k1 != k0 { k0 := k1; return; }
      k1 := src[used]; used := used + 1;
      outLen := k1 + 4;
      k0 := src[used]; used := used + 1;
    }

    /** Writes as much of the current run as fits. */
    method EmitRun(space: nat) returns (out: seq<int>)
      requires Valid()
      modifies this`outLen, this`crc, this`delivered
      ensures Valid() && delivered == old(delivered) + out
      ensures |out| == (if space <= old(outLen) then space else old(outLen)) && outLen == old(outLen) - |out|
      ensures old(Owed()) == out + Owed()
    {
      hide Expand, Crc, Repeat, Table, UpdateCrc, Bytes;
      out := [];
      ghost var rest := Expand(src, used - 1, saveNblock).bytes;
      ghost var all := Owed();
      while outLen > 0 && |out| < space
        invariant Valid() && delivered == old(delivered) + out && |out| <= space && |out| + outLen == old(outLen)
        invariant all == out + Owed()
        decreases outLen
      {
        CrcMore(table, delivered, outCh);
        EmitOne(out, outCh, outLen, rest);
        Assoc(old(delivered), out, [outCh]);
        out := out + [outCh];
        delivered := delivered + [outCh];
        crc := UpdateCrc(table, crc, outCh);
        outLen := outLen - 1;
      }
    }

    /** Writes up to `space` bytes.  Returns true exactly when it has come to the end of a corrupt block. */
    method Unpack(space: nat) returns (out: seq<int>, corrupt: bool)
      requires Valid()
      modifies this
      ensures Valid() && delivered == old(delivered) + out
      ensures |out| == (if space <= |old(Owed())| then space else |old(Owed())|)
      ensures out == old(Owed())[..|out|] && Owed() == old(Owed())[|out|..]
      ensures Expand(src, used - 1, saveNblock).ok == old(Expand(src, used - 1, saveNblock).ok)
      ensures corrupt <==> |old(Owed())| <= space && !Expand(src, used - 1, saveNblock).ok
      ensures Owed() == [] && !corrupt ==> used == saveNblock + 1 && outLen == 0
    {
      hide Expand, Crc, Repeat, Table;
      ghost var all := Owed();
      out, corrupt := Pump(space);
      PiecesOf(all, out, Owed());
    }

    /** Alternates between writing runs and reading them until the space is used up or the block ends. */
    method Pump(space: nat) returns (out: seq<int>, corrupt: bool)
      requires Valid()
      modifies this
      ensures Valid() && delivered == old(delivered) + out && |out| <= space && old(Owed()) == out + Owed()
      ensures Expand(src, used - 1, saveNblock).ok == old(Expand(src, used - 1, saveNblock).ok)
      ensures corrupt ==> Owed() == [] && !Expand(src, used - 1, saveNblock).ok
      ensures !corrupt ==>
          if Owed() == [] then used == saveNblock + 1 && outLen == 0 && Expand(src, used - 1, saveNblock).ok
          else |out| == space
    {
      hide Expand, Crc, Repeat, Table;
      out := [];
      ghost var all, ok := Owed(), Expand(src, used - 1, saveNblock).ok;
      while true
        invariant Valid() && delivered == old(delivered) + out && |out| <= space
        invariant all == out + Owed() && Expand(src, used - 1, saveNblock).ok == ok
        decreases saveNblock + 2 - used
      {
        var more := EmitRun(space - |out|);
        Assoc(old(delivered), out, more);
        Assoc(out, more, Owed());
        out := out + more;
        if outLen > 0 {
          return out, false;
        }
        ExpandEnds(src, used - 1, saveNblock);
        assert Repeat(outCh, 0) == [];
        if used > saveNblock + 1 {
          return out, true;
        }
        if used == saveNblock + 1 {
          return out, false;
        }
        StartRun();
      }
    }
  }

  lemma PiecesOf(all: seq<int>, front: seq<int>, back: seq<int>)
    requires all == front + back
    ensures |all| == |front| + |back| && front == all[..|front|] && back == all[|front|..]
  {
  }

  lemma Assoc(a: seq<int>, b: seq<int>, c: seq<int>)
    ensures a + (b + c) == a + b + c
  {
  }

  lemma EmitOne(out: seq<int>, ch: int, n: nat, rest: seq<int>)
    requires n >= 1
    ensures out + (Repeat(ch, n) + rest) == (out + [ch]) + (Repeat(ch, n - 1) + rest)
  {
    assert Repeat(ch, n) == [ch] + Repeat(ch, n - 1);
  }

  /** Reading one run. */
  lemma ExpandRun(src: seq<int>, i: int, n: int)
    requires 0 <= i < n && n + 2 <= |src| && Bytes(src)
    ensures var r := Lead(src, i, n);
            var len, next := if r < 4 then r else 4 + src[i + 4], if r < 4 then i + r else i + 5;
            && Expand(src, i, n).bytes == Repeat(src[i], len) + Expand(src, next, n).bytes
            && Expand(src, i, n).ok == Expand(src, next, n).ok
  {
  }

  lemma ExpandEnds(src: seq<int>, i: int, n: int)
    requires 0 <= i && 0 <= n && n + 2 <= |src| && Bytes(src)
    ensures i >= n ==> Expand(src, i, n) == Expansion([], i == n)
    ensures i < n ==> Expand(src, i, n).bytes != []
  {
  }

  /** A block made of coded runs is written out as the plain bytes of those runs, with the checksum the encoder
      recorded. */
  lemma RunsRoundTrip(table: seq<int>, bytes: seq<int>, inUse: seq<bool>, crc: int, ps: seq<Pair>, src: seq<int>)
    requires Filled(table, bytes, inUse, crc, ps) && Separated(ps)
    requires Bytes(src) && |src| >= |bytes| + 2 && src[..|bytes|] == bytes
    ensures Expand(src, 0, |bytes|) == Expansion(PlainAll(ps), true) && crc == Crc(table, PlainAll(ps))
  {
    assert src[0..|bytes|] == bytes;
    ExpandCoded(src, 0, |bytes|, ps);
  }

  /** Any sequence of buffer sizes that adds up to enough delivers the whole block, in order. */
  method UnpackInPieces(u: Unpacker, spaces: seq<nat>) returns (out: seq<int>)
    requires u.Valid() && Expand(u.src, u.used - 1, u.saveNblock).ok
    modifies u
    ensures u.Valid() && out + u.Owed() == old(u.Owed())
    ensures |out| == if Total(spaces) <= |old(u.Owed())| then Total(spaces) else |old(u.Owed())|
    ensures u.delivered == old(u.delivered) + out && u.crc == Crc(u.table, u.delivered)
  {
    hide Expand, Crc, Table, Bytes, Repeat;
    out := [];
    for i := 0 to |spaces|
      invariant u.Valid() && Expand(u.src, u.used - 1, u.saveNblock).ok
      invariant out + u.Owed() == old(u.Owed()) && u.delivered == old(u.delivered) + out
      invariant |out| == if Total(spaces[..i]) <= |old(u.Owed())| then Total(spaces[..i]) else |old(u.Owed())|
    {
      assert spaces[..i + 1][..i] == spaces[..i];
      ghost var owed, before := u.Owed(), out;
      var piece, corrupt := u.Unpack(spaces[i]);
      assert owed == piece + u.Owed();
      Assoc(before, piece, u.Owed());
      Assoc(old(u.delivered), before, piece);
      out := out + piece;
    }
    assert spaces[..|spaces|] == spaces;
  }

  function Total(xs: seq<nat>): (t: nat) {
    if xs == [] then 0 else Total(xs[..|xs| - 1]) + xs[|xs| - 1]
  }
}
