/** The decoder's move-to-front list: 256 entries in 16 segments that slide down through one array. */
module MtfSegments {

  const SEGMENT := 16
  const SIZE := 4096

  /** Moves element `k` to the front. */
  function MoveToFront<T>(list: seq<T>, k: int): (r: seq<T>)
    requires 0 <= k < |list|
    ensures |r| == |list|
  {
    [list[k]] + list[..k] + list[k + 1..]
  }

  lemma MoveToFrontAt<T>(list: seq<T>, k: int, q: int)
    requires 0 <= k < |list| && 0 <= q < |list|
    ensures MoveToFront(list, k)[q] == if q == 0 then list[k] else if q <= k then list[q - 1] else list[q]
  {
  }

  /** Segments are in order, do not overlap and lie within the array. */
  ghost predicate Laid(b: seq<int>) {
    && |b| == SEGMENT && 0 <= b[0] && b[15] + SEGMENT <= SIZE
    && forall i, j | 0 <= i <= j < SEGMENT :: b[i] + SEGMENT * (j - i) <= b[j]
  }

  /** Entry `q` of the list. */
  ghost function Cell(m: seq<int>, b: seq<int>, q: int): int
    requires |m| == SIZE && Laid(b) && 0 <= q < 256
  {
    m[b[q / 16] + q % 16]
  }

  /** The list that the segments represent. */
  ghost function View(m: seq<int>, b: seq<int>): (list: seq<int>)
    requires |m| == SIZE && Laid(b)
    ensures |list| == 256 && forall q | 0 <= q < 256 :: list[q] == Cell(m, b, q)
  {
    seq(256, q requires 0 <= q < 256 => Cell(m, b, q))
  }

  // ---------------------------------------------------------------- the first segment

  /** Shifts the cells pp..pp+k-1 up by one, four at a time while possible. */
  method ShiftByFour(mtfa: array<int>, pp: int, k: int)
    requires 0 <= pp && 0 <= k && pp + k < mtfa.Length
    modifies mtfa
    ensures forall c {:trigger mtfa[c]} | 0 <= c < mtfa.Length ::
        mtfa[c] == if pp < c <= pp + k then old(mtfa[c - 1]) else old(mtfa[c])
  {
    var nn := k;
    while nn > 3
      invariant 0 <= nn <= k
      invariant forall c | 0 <= c < mtfa.Length ::
          mtfa[c] == if pp + nn < c <= pp + k then old(mtfa[c - 1]) else old(mtfa[c])
    {
      var z := pp + nn;
      mtfa[z] := mtfa[z - 1];
      mtfa[z - 1] := mtfa[z - 2];
      mtfa[z - 2] := mtfa[z - 3];
      mtfa[z - 3] := mtfa[z - 4];
      nn := nn - 4;
    }
    while nn > 0
      invariant 0 <= nn <= k
      invariant forall c | 0 <= c < mtfa.Length ::
          mtfa[c] == if pp + nn < c <= pp + k then old(mtfa[c - 1]) else old(mtfa[c])
    {
      mtfa[pp + nn] := mtfa[pp + nn - 1];
      nn := nn - 1;
    }
  }

  /** Moves an entry of the first segment to the front. */
  method MoveInFirst(mtfa: array<int>, mtfbase: array<int>, nn: int) returns (uc: int)
    requires mtfa != mtfbase && mtfa.Length == SIZE && Laid(mtfbase[..]) && 0 <= nn < SEGMENT
    modifies mtfa
    ensures uc == View(old(mtfa[..]), mtfbase[..])[nn]
    ensures View(mtfa[..], mtfbase[..]) == MoveToFront(View(old(mtfa[..]), mtfbase[..]), nn)
  {
    hide View;
    ghost var m, b := mtfa[..], mtfbase[..];
    var pp := mtfbase[0];
    assert b[0] + SEGMENT * (15 - 0) <= b[15];
    uc := mtfa[pp + nn];
    ShiftByFour(mtfa, pp, nn);
    mtfa[pp] := uc;
    FrontMoved(m, mtfa[..], b, nn);
  }

  lemma FrontMoved(m: seq<int>, m': seq<int>, b: seq<int>, k: int)
    requires |m| == |m'| == SIZE && Laid(b) && 0 <= k < SEGMENT && m'[b[0]] == m[b[0] + k]
    requires forall c {:trigger m'[c]} | 0 <= c < SIZE && c != b[0] ::
        m'[c] == if b[0] < c <= b[0] + k then m[c - 1] else m[c]
    ensures View(m', b) == MoveToFront(View(m, b), k)
  {
    var v, v' := View(m, b), View(m', b);
    forall q | 0 <= q < 256
      ensures v'[q] == MoveToFront(v, k)[q]
    {
      MoveToFrontAt(v, k, q);
      var i := q / 16;
      var c := b[i] + q % 16;
      assert b[0] + SEGMENT * (i - 0) <= b[i] && b[i] + SEGMENT * (15 - i) <= b[15];
      assert v'[q] == Cell(m', b, q) == m'[c] && v[q] == Cell(m, b, q) == m[c];
      if q == 0 {
        assert v[k] == Cell(m, b, k);
      } else if q <= k {
        assert v[q - 1] == Cell(m, b, q - 1);
      } else {
        assert c > b[0] + k;
      }
    }
  }

  // ---------------------------------------------------------------- the other segments

  /** The base of segment `i` once the segments between `l` and `top` have moved down by one. */
  ghost function Moved(b: seq<int>, top: int, l: int, i: int): int
    requires |b| == SEGMENT && 0 <= i < SEGMENT
  {
    if l < i < top then b[i] - 1 else b[i]
  }

  /** The last entry of segment `i`. */
  ghost function LastOf(m: seq<int>, b: seq<int>, i: int): int
    requires |m| == SIZE && Laid(b) && 0 <= i < SEGMENT
  {
    assert b[0] + SEGMENT * (i - 0) <= b[i] && b[i] + SEGMENT * (15 - i) <= b[15];
    m[b[i] + 15]
  }

  /** What entry `j` of segment `i` holds once the segments between `l` and `top` have each taken
      over the last entry of the segment below. */
  ghost function Passed(m: seq<int>, b: seq<int>, top: int, l: int, i: int, j: int): int
    requires |m| == SIZE && Laid(b) && 0 <= l <= top < SEGMENT && 0 <= i < SEGMENT && 0 <= j < SEGMENT
  {
    assert b[0] + SEGMENT * (i - 0) <= b[i] && b[i] + SEGMENT * (15 - i) <= b[15];
    if l < i <= top && j == 0 then LastOf(m, b, i - 1)
    else if l < i < top then m[b[i] + j - 1]
    else m[b[i] + j]
  }

  ghost predicate Passing(m': seq<int>, m: seq<int>, b: seq<int>, top: int, l: int) {
    && |m| == |m'| == SIZE && Laid(b) && 1 <= b[0] && 0 <= l <= top < SEGMENT
    && forall i, j | 0 <= i < SEGMENT && 0 <= j < SEGMENT :: Holds(m', m, b, top, l, i, j)
  }

  ghost predicate Holds(m': seq<int>, m: seq<int>, b: seq<int>, top: int, l: int, i: int, j: int)
    requires |m| == |m'| == SIZE && Laid(b) && 1 <= b[0] && 0 <= l <= top < SEGMENT
    requires 0 <= i < SEGMENT && 0 <= j < SEGMENT
  {
    assert b[0] + SEGMENT * (i - 0) <= b[i] && b[i] + SEGMENT * (15 - i) <= b[15];
    m'[Moved(b, top, l, i) + j] == Passed(m, b, top, l, i, j)
  }

  /** One round of the loop that passes last entries up. */
  lemma PassOne(m': seq<int>, m: seq<int>, b: seq<int>, top: int, l: int)
    requires Passing(m', m, b, top, l) && l >= 1
    ensures Moved(b, top, l - 1, l) >= 0 && m'[b[l - 1] + 15] == LastOf(m, b, l - 1)
    ensures Passing(m'[Moved(b, top, l - 1, l) := LastOf(m, b, l - 1)], m, b, top, l - 1)
  {
    var w, v := Moved(b, top, l - 1, l), LastOf(m, b, l - 1);
    assert b[l - 1] + SEGMENT * (l - (l - 1)) <= b[l] && b[l] + SEGMENT * (15 - l) <= b[15];
    assert b[0] + SEGMENT * (l - 1 - 0) <= b[l - 1];
    assert Holds(m', m, b, top, l, l - 1, 15);
    var r, below := m'[w := v], l - 1;
    forall i, j | 0 <= i < SEGMENT && 0 <= j < SEGMENT
      ensures Holds(r, m, b, top, below, i, j)
    {
      assert Holds(m', m, b, top, l, i, j);
      if i < l {
        assert b[i] + SEGMENT * (l - 1 - i) <= b[l - 1];
      } else if i > l {
        assert b[l] + SEGMENT * (i - l) <= b[i];
      } else if j > 0 {
        assert Holds(m', m, b, top, l, l, j - 1);
      }
    }
  }

  /** Shifts the cells lo..pp-1 up by one. */
  method ShiftByOne(mtfa: array<int>, lo: int, top: int)
    requires 0 <= lo <= top < mtfa.Length
    modifies mtfa
    ensures forall c {:trigger mtfa[c]} | 0 <= c < mtfa.Length ::
        mtfa[c] == if lo < c <= top then old(mtfa[c - 1]) else old(mtfa[c])
  {
    var pp := top;
    while pp > lo
      invariant lo <= pp <= top
      invariant forall c | 0 <= c < mtfa.Length :: mtfa[c] == if pp < c <= top then old(mtfa[c - 1]) else old(mtfa[c])
    {
      mtfa[pp] := mtfa[pp - 1];
      pp := pp - 1;
    }
  }

  /** The bases after the move: every segment below `top` has moved down by one. */
  ghost function Lowered(b: seq<int>, top: int): (r: seq<int>)
    requires |b| == SEGMENT
    ensures |r| == SEGMENT
  {
    seq(SEGMENT, i requires 0 <= i < SEGMENT => if i < top then b[i] - 1 else b[i])
  }

  lemma LoweredLaid(b: seq<int>, top: int)
    requires Laid(b) && b[0] >= 1 && 1 <= top < SEGMENT
    ensures Laid(Lowered(b, top))
  {
    var r := Lowered(b, top);
    forall i, j | 0 <= i <= j < SEGMENT
      ensures r[i] + SEGMENT * (j - i) <= r[j]
    {
      assert b[i] + SEGMENT * (j - i) <= b[j];
    }
  }

  /** All writes together move entry `off` of segment `top` to the front of the list. */
  lemma PassedView(m: seq<int>, m1: seq<int>, m2: seq<int>, b: seq<int>, top: int, off: int)
    requires |m| == SIZE && Passing(m2, m1, b, top, 0) && 1 <= top && 0 <= off < SEGMENT
    requires ShiftedUp(m1, m, b[top], b[top] + off)
    requires Laid(Lowered(b, top))
    ensures var uc := View(m, b)[16 * top + off];
            View(m2[b[0] - 1 := uc], Lowered(b, top)) == MoveToFront(View(m, b), 16 * top + off)
  {
    var v, k, b' := View(m, b), 16 * top + off, Lowered(b, top);
    var r := m2[b[0] - 1 := v[k]];
    var v' := View(r, b');
    forall q | 0 <= q < 256
      ensures v'[q] == MoveToFront(v, k)[q]
    {
      MoveToFrontAt(v, k, q);
      PassedCell(m, m1, m2, b, top, off, q);
    }
  }

  ghost predicate ShiftedUp(m1: seq<int>, m: seq<int>, from: int, upto: int) {
    |m1| == |m| == SIZE && 0 <= from
        && forall c {:trigger m1[c]} | 0 <= c < SIZE :: m1[c] == if from < c <= upto then m[c - 1] else m[c]
  }

  /** An entry of the first segment after the move. */
  lemma PassedFirst(m: seq<int>, m1: seq<int>, m2: seq<int>, b: seq<int>, top: int, off: int, j: int)
    requires Passing(m2, m1, b, top, 0) && 1 <= top && 1 <= j < SEGMENT && 0 <= off
        && ShiftedUp(m1, m, b[top], b[top] + off)
    ensures b[0] + j - 1 < SIZE && m2[b[0] - 1 + j] == m[b[0] + j - 1]
  {
    assert b[0] + SEGMENT * (top - 0) <= b[top] && b[0] + SEGMENT * (15 - 0) <= b[15];
    assert Holds(m2, m1, b, top, 0, 0, j - 1);
  }

  /** An entry of a later segment after the move. */
  lemma PassedLater(m: seq<int>, m1: seq<int>, m2: seq<int>, b: seq<int>, top: int, off: int, i: int, j: int)
    requires Passing(m2, m1, b, top, 0) && 1 <= i < SEGMENT && 0 <= j < SEGMENT && 0 <= off < SEGMENT
    requires ShiftedUp(m1, m, b[top], b[top] + off)
    ensures 1 <= b[i - 1] && b[i - 1] + 15 < b[i] && b[i] + 15 < SIZE
    ensures m2[Moved(b, top, 0, i) + j] ==
        if 16 * i + j <= 16 * top + off then (if j > 0 then m[b[i] + j - 1] else m[b[i - 1] + 15]) else m[b[i] + j]
  {
    assert b[i - 1] + SEGMENT * (i - (i - 1)) <= b[i] && b[0] + SEGMENT * (i - 1 - 0) <= b[i - 1]
        && b[i] + SEGMENT * (15 - i) <= b[15];
    assert Holds(m2, m1, b, top, 0, i, j);
    if i < top {
      assert b[i] + SEGMENT * (top - i) <= b[top];
    } else if i > top {
      assert b[top] + SEGMENT * (i - top) <= b[i];
      assert b[top] + SEGMENT * (i - 1 - top) <= b[i - 1];
    }
  }

  lemma PassedCell(m: seq<int>, m1: seq<int>, m2: seq<int>, b: seq<int>, top: int, off: int, q: int)
    requires |m| == SIZE && Passing(m2, m1, b, top, 0) && 1 <= top && 0 <= off < SEGMENT && 0 <= q < 256
    requires ShiftedUp(m1, m, b[top], b[top] + off)
    requires Laid(Lowered(b, top))
    ensures var v, k := View(m, b), 16 * top + off;
            View(m2[b[0] - 1 := v[k]], Lowered(b, top))[q] == if q == 0 then v[k] else if q <= k then v[q - 1] else v[q]
  {
    hide View, Passing, ShiftedUp;
    PassingBounds(m2, m1, b, top);
    var v, k, b', i, j := View(m, b), 16 * top + off, Lowered(b, top), q / 16, q % 16;
    var r := m2[b[0] - 1 := v[k]];
    assert View(r, b')[q] == Cell(r, b', q) && v[q] == Cell(m, b, q);
    assert q > 0 ==> v[q - 1] == Cell(m, b, q - 1);
    if q > 0 {
      if i == 0 {
        PassedFirst(m, m1, m2, b, top, off, j);
      } else {
        assert b[0] + SEGMENT * (i - 0) <= b[i];
        PassedLater(m, m1, m2, b, top, off, i, j);
      }
    }
  }

  lemma PassingBounds(m': seq<int>, m: seq<int>, b: seq<int>, top: int)
    requires Passing(m', m, b, top, 0)
    ensures |m| == |m'| == SIZE && Laid(b) && 1 <= b[0] < SIZE && 0 <= top < SEGMENT
  {
    assert b[0] + SEGMENT * (15 - 0) <= b[15];
  }

  /** Passes the last entry of every segment below `top` up to the next segment. */
  method PassUp(mtfa: array<int>, mtfbase: array<int>, top: int, ghost m1: seq<int>, ghost b: seq<int>)
    requires mtfa != mtfbase && mtfa.Length == SIZE && mtfa[..] == m1
    requires Laid(b) && b[0] >= 1 && 1 <= top < SEGMENT && mtfbase[..] == b[top := b[top] + 1]
    modifies mtfa, mtfbase
    ensures Passing(mtfa[..], m1, b, top, 0)
    ensures mtfbase[..] == Lowered(b, top)[0 := b[0]]
  {
    var lno := top;
    while lno > 0
      invariant 0 <= lno <= top && mtfbase.Length == SEGMENT
      invariant Passing(mtfa[..], m1, b, top, lno)
      invariant forall i | 0 <= i < SEGMENT :: mtfbase[i] == Moved(b, top, lno, i) + (if i == lno == top then 1 else 0)
    {
      hide Laid, Passing;
      PassOne(mtfa[..], m1, b, top, lno);
      ghost var m' := mtfa[..];
      mtfbase[lno] := mtfbase[lno] - 1;
      mtfa[mtfbase[lno]] := mtfa[mtfbase[lno - 1] + SEGMENT - 1];
      assert mtfa[..] == m'[Moved(b, top, lno - 1, lno) := LastOf(m1, b, lno - 1)];
      lno := lno - 1;
    }
  }

  /** The general case: an entry of a later segment moves to the front, and every segment before it
      passes its last entry on. */
  method MoveFromLater(mtfa: array<int>, mtfbase: array<int>, nn: int) returns (uc: int)
    requires mtfa != mtfbase && mtfa.Length == SIZE && Laid(mtfbase[..]) && mtfbase[0] >= 1
    requires SEGMENT <= nn < 256
    modifies mtfa, mtfbase
    ensures Laid(mtfbase[..]) && mtfbase[0] == old(mtfbase[0]) - 1
    ensures uc == View(old(mtfa[..]), old(mtfbase[..]))[nn]
    ensures View(mtfa[..], mtfbase[..]) == MoveToFront(View(old(mtfa[..]), old(mtfbase[..])), nn)
  {
    hide View, Passing;
    ghost var m, b := mtfa[..], mtfbase[..];
    var lno, off := nn / SEGMENT, nn % SEGMENT;
    assert b[0] + SEGMENT * (lno - 0) <= b[lno] && b[lno] + SEGMENT * (15 - lno) <= b[15];
    var pp := mtfbase[lno] + off;
    uc := mtfa[pp];
    assert uc == Cell(m, b, nn);
    ShiftByOne(mtfa, mtfbase[lno], pp);
    ghost var m1 := mtfa[..];
    mtfbase[lno] := mtfbase[lno] + 1;
    PassUp(mtfa, mtfbase, lno, m1, b);
    ghost var m2 := mtfa[..];
    LoweredLaid(b, lno);
    PassedView(m, m1, m2, b, lno, off);
    mtfbase[0] := mtfbase[0] - 1;
    mtfa[mtfbase[0]] := uc;
    assert mtfbase[..] == Lowered(b, lno);
    assert mtfa[..] == m2[b[0] - 1 := uc];
  }

  ghost predicate Copied(m': seq<int>, m: seq<int>, b: seq<int>, q: int)
    requires |m| == SIZE && Laid(b)
  {
    && |m'| == SIZE && 0 <= q <= 256
    && (forall p | q <= p < 256 :: m'[3840 + p] == Cell(m, b, p))
    && (forall c | 0 <= c < 3840 + q :: m'[c] == m[c])
  }

  /** Moves all segments back to the top of the array. */
  method Rebuild(mtfa: array<int>, mtfbase: array<int>)
    requires mtfa != mtfbase && mtfa.Length == SIZE && Laid(mtfbase[..])
    modifies mtfa, mtfbase
    ensures Laid(mtfbase[..]) && mtfbase[0] == 3840
    ensures View(mtfa[..], mtfbase[..]) == View(old(mtfa[..]), old(mtfbase[..]))
  {
    ghost var m, b := mtfa[..], mtfbase[..];
    var kk := SIZE - 1;
    var ii := 15;
    while ii >= 0
      invariant -1 <= ii <= 15 && kk == 3840 + 16 * (ii + 1) - 1
      invariant Copied(mtfa[..], m, b, 16 * (ii + 1))
      invariant forall i | 0 <= i <= ii :: mtfbase[i] == b[i]
      invariant forall i | ii < i < SEGMENT :: mtfbase[i] == 3840 + 16 * i
    {
      var jj := SEGMENT - 1;
      while jj >= 0
        invariant -1 <= jj <= 15 && kk == 3840 + 16 * ii + jj
        invariant Copied(mtfa[..], m, b, 16 * ii + jj + 1)
        invariant forall i | 0 <= i <= ii :: mtfbase[i] == b[i]
        invariant forall i | ii < i < SEGMENT :: mtfbase[i] == 3840 + 16 * i
      {
        CopyOne(mtfa[..], m, b, ii, jj);
        ghost var m' := mtfa[..];
        mtfa[kk] := mtfa[mtfbase[ii] + jj];
        assert mtfa[..] == m'[kk := m'[b[ii] + jj]];
        kk := kk - 1;
        jj := jj - 1;
      }
      mtfbase[ii] := kk + 1;
      ii := ii - 1;
    }
    CopiedView(mtfa[..], m, b, mtfbase[..]);
  }

  lemma CopyOne(m': seq<int>, m: seq<int>, b: seq<int>, i: int, j: int)
    requires |m| == SIZE && Laid(b) && 0 <= i < SEGMENT && 0 <= j < SEGMENT && Copied(m', m, b, 16 * i + j + 1)
    ensures 0 <= b[i] + j <= 3840 + 16 * i + j < SIZE
    ensures Copied(m'[3840 + 16 * i + j := m'[b[i] + j]], m, b, 16 * i + j)
  {
    var q := 16 * i + j;
    assert b[i] + SEGMENT * (15 - i) <= b[15] && b[0] + SEGMENT * (i - 0) <= b[i];
    assert Cell(m, b, q) == m[b[i] + j];
  }

  lemma CopiedView(m': seq<int>, m: seq<int>, b: seq<int>, b': seq<int>)
    requires |m| == SIZE && Laid(b) && Copied(m', m, b, 0)
    requires |b'| == SEGMENT && forall i | 0 <= i < SEGMENT :: b'[i] == 3840 + 16 * i
    ensures Laid(b') && View(m', b') == View(m, b)
  {
    forall q | 0 <= q < 256
      ensures View(m', b')[q] == View(m, b)[q]
    {
      assert View(m', b')[q] == Cell(m', b', q) == m'[3840 + q];
    }
  }

  /** The initial list 0..255. */
  method Initialise(mtfa: array<int>, mtfbase: array<int>)
    requires mtfa != mtfbase && mtfa.Length == SIZE && mtfbase.Length == SEGMENT
    modifies mtfa, mtfbase
    ensures Laid(mtfbase[..]) && mtfbase[0] == 3840
    ensures View(mtfa[..], mtfbase[..]) == seq(256, q => q)
  {
    var kk := SIZE - 1;
    var ii := 15;
    while ii >= 0
      invariant -1 <= ii <= 15 && kk == 3840 + 16 * (ii + 1) - 1
      invariant forall c | kk < c < SIZE :: mtfa[c] == c - 3840
      invariant forall i | ii < i < SEGMENT :: mtfbase[i] == 3840 + 16 * i
    {
      var jj := SEGMENT - 1;
      while jj >= 0
        invariant -1 <= jj <= 15 && kk == 3840 + 16 * ii + jj
        invariant forall c | kk < c < SIZE :: mtfa[c] == c - 3840
        invariant forall i | ii < i < SEGMENT :: mtfbase[i] == 3840 + 16 * i
      {
        mtfa[kk] := ii * SEGMENT + jj;
        kk := kk - 1;
        jj := jj - 1;
      }
      mtfbase[ii] := kk + 1;
      ii := ii - 1;
    }
    assert Laid(mtfbase[..]);
    forall q | 0 <= q < 256
      ensures View(mtfa[..], mtfbase[..])[q] == q
    {
      assert Cell(mtfa[..], mtfbase[..], q) == mtfa[3840 + q];
    }
  }

  /** Moves entry `nn` to the front and returns it.  The segments always represent the plain list. */
  method TakeNth(mtfa: array<int>, mtfbase: array<int>, nn: int) returns (uc: int)
    requires mtfa != mtfbase && mtfa.Length == SIZE && Laid(mtfbase[..]) && mtfbase[0] >= 1 && 0 <= nn < 256
    modifies mtfa, mtfbase
    ensures Laid(mtfbase[..]) && mtfbase[0] >= 1
    ensures uc == View(old(mtfa[..]), old(mtfbase[..]))[nn]
    ensures View(mtfa[..], mtfbase[..]) == MoveToFront(View(old(mtfa[..]), old(mtfbase[..])), nn)
  {
    hide View;
    if nn < SEGMENT {
      uc := MoveInFirst(mtfa, mtfbase, nn);
    } else {
      uc := MoveFromLater(mtfa, mtfbase, nn);
      if mtfbase[0] == 0 {
        Rebuild(mtfa, mtfbase);
      }
    }
  }
}
