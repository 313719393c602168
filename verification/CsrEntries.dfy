/** The entries of a converted matrix, one by one. */
module CsrEntries {
  import opened Csr
  import W = Words

  /** Row bi and column bj of block j, which stands in block row i. */
  ghost predicate InBlock(m: Blocked, i: nat, j: nat, bi: nat, bj: nat)
    requires Stored(m)
  {
    i < BlockRows(m) && m.rowStart[i] <= j < m.rowStart[i + 1] && bi < m.bsX && bj < m.bsY
  }

  /** The entry there, with the value that the conversion reads. */
  ghost function EntryThere(m: Blocked, i: nat, j: nat, bi: nat, bj: nat): (e: Entry)
    requires Valid(m) && InBlock(m, i, j, bi, bj)
  {
    ReadThere(m, i, j, bi, bj);
    Entry(i * m.bsX + bi, m.colIdx[j] * m.bsY + bj, m.buffer[j * (m.bsX * m.bsY) + m.bsX * bi + bj])
  }

  lemma ReadThere(m: Blocked, i: nat, j: nat, bi: nat, bj: nat)
    requires Valid(m) && InBlock(m, i, j, bi, bj)
    ensures j < Blocks(m) == |m.colIdx| && 0 <= j * (m.bsX * m.bsY) + m.bsX * bi + bj < |m.buffer|
    ensures i * m.bsX + bi >= 0 && m.colIdx[j] * m.bsY + bj >= 0
    ensures EntryOf(m, i, j, bi, bj) ==
            Entry(i * m.bsX + bi, m.colIdx[j] * m.bsY + bj, m.buffer[j * (m.bsX * m.bsY) + m.bsX * bi + bj])
  {
    hide W.Times;
    RowOfBlocks(m, i);
    SlotInRange(m, j, bi, bj);
    Places(m, i, j, bi);
  }

  // ---------- Where the tuples stand ----------

  lemma {:induction false} BlockRowAt(m: Blocked, i: nat, j: nat, bi: nat, n: nat, bj: nat)
    requires Valid(m) && j < Blocks(m) && bi < m.bsX && bj < n <= m.bsY
    ensures OfBlockRow(m, i, j, bi, n)[bj] == EntryOf(m, i, j, bi, bj)
  {
    hide EntryOf;
    if bj < n - 1 { BlockRowAt(m, i, j, bi, n - 1, bj); }
  }

  lemma RowInBlock(width: nat, bi: nat, bj: nat, n: nat)
    requires bi < n && bj < width
    ensures W.Times(width, bi) + bj < W.Times(width, n)
  {
    hide W.Times;
    W.TimesAdd(width, bi, 1);
    W.TimesOne(width);
    W.TimesMono(width, bi + 1, n);
  }

  lemma OfBlockNext(m: Blocked, i: nat, j: nat, n: nat)
    requires Valid(m) && j < Blocks(m) && n < m.bsX
    ensures OfBlock(m, i, j, n + 1) == OfBlock(m, i, j, n) + OfBlockRow(m, i, j, n, m.bsY)
  {
    hide OfBlockRow;
  }

  lemma {:induction false} BlockAt(m: Blocked, i: nat, j: nat, n: nat, bi: nat, bj: nat)
    requires Valid(m) && j < Blocks(m) && bi < n <= m.bsX && bj < m.bsY
    ensures W.Times(m.bsY, bi) + bj < |OfBlock(m, i, j, n)|
    ensures OfBlock(m, i, j, n)[W.Times(m.bsY, bi) + bj] == EntryOf(m, i, j, bi, bj)
  {
    hide EntryOf, OfBlockRow, W.Times, OfBlock;
    RowInBlock(m.bsY, bi, bj, n);
    OfBlockNext(m, i, j, n - 1);
    if bi < n - 1 {
      BlockAt(m, i, j, n - 1, bi, bj);
    } else {
      BlockRowAt(m, i, j, bi, m.bsY, bj);
    }
  }

  /** The first j blocks of a block row hold the tuples of block l at places from BlockSize times its number in the
      row. */
  lemma {:induction false} RowBlocksAt(m: Blocked, i: nat, j: nat, l: nat, k: nat)
    requires Valid(m) && i < BlockRows(m) && m.rowStart[i] <= l < j <= m.rowStart[i + 1] <= Blocks(m)
    requires k < W.Times(m.bsY, m.bsX)
    ensures W.Times(BlockSize(m), l - m.rowStart[i]) + k < |OfRowBlocks(m, i, j)|
    ensures OfRowBlocks(m, i, j)[W.Times(BlockSize(m), l - m.rowStart[i]) + k] == OfBlock(m, i, l, m.bsX)[k]
    decreases j
  {
    hide OfBlock, W.Times, OfRowBlocks, Valid;
    RowOfBlocks(m, i);
    W.TimesSwap(m.bsX, m.bsY);
    RowInBlock(BlockSize(m), l - m.rowStart[i], k, j - m.rowStart[i]);
    RowBlocksNext(m, i, j - 1);
    if l < j - 1 { RowBlocksAt(m, i, j - 1, l, k); }
  }

  lemma {:induction false} EntriesPrefix(m: Blocked, i: nat, n: nat, k: nat)
    requires Valid(m) && i < n <= BlockRows(m) && k < |Entries(m, i + 1)|
    ensures k < |Entries(m, n)| && Entries(m, n)[k] == Entries(m, i + 1)[k]
  {
    hide OfRowBlocks, Entries, EntryCount;
    if i + 1 < n {
      EntriesPrefix(m, i, n - 1, k);
      EntriesNext(m, n - 1);
    }
  }

  /** The tuples are listed block by block and row by row: that of row bi and column bj of block j stands at place
      j * (bsX * bsY) + bi * bsY + bj. */
  lemma TupleAt(m: Blocked, i: nat, j: nat, bi: nat, bj: nat)
    requires Valid(m) && InBlock(m, i, j, bi, bj)
    ensures var tuples, k := Entries(m, BlockRows(m)), j * (m.bsX * m.bsY) + bi * m.bsY + bj;
            0 <= k < |tuples| == Blocks(m) * (m.bsX * m.bsY) && tuples[k] == EntryThere(m, i, j, bi, bj)
  {
    hide W.Times, Entries, OfRowBlocks, OfBlock, EntryOf, Valid;
    RowOfBlocks(m, i);
    ReadThere(m, i, j, bi, bj);
    TuplePlace(m, i, j, bi, bj);
    var inBlock := W.Times(m.bsY, bi) + bj;
    var inRow := W.Times(BlockSize(m), j - m.rowStart[i]) + inBlock;
    BlockAt(m, i, j, m.bsX, bi, bj);
    RowInBlock(m.bsY, bi, bj, m.bsX);
    RowBlocksAt(m, i, m.rowStart[i + 1], j, inBlock);
    EntriesNext(m, i);
    EntriesPrefix(m, i, BlockRows(m), EntryCount(m, i) + inRow);
  }

  lemma TuplePlace(m: Blocked, i: nat, j: nat, bi: nat, bj: nat)
    requires Valid(m) && InBlock(m, i, j, bi, bj)
    ensures EntryCount(m, i) + (W.Times(BlockSize(m), j - m.rowStart[i]) + (W.Times(m.bsY, bi) + bj)) ==
            j * (m.bsX * m.bsY) + bi * m.bsY + bj
    ensures EntryCount(m, BlockRows(m)) == Blocks(m) * (m.bsX * m.bsY)
  {
    hide W.Times;
    W.TimesAdd(BlockSize(m), m.rowStart[i], j - m.rowStart[i]);
    W.TimesIs(m.bsX, m.bsY);
    W.TimesIs(BlockSize(m), j);
    W.TimesIs(BlockSize(m), Blocks(m));
    W.TimesIs(m.bsY, bi);
  }

  lemma {:induction false} RowOfBlock(m: Blocked, j: nat, n: nat) returns (i: nat)
    requires Valid(m) && n <= BlockRows(m) && j < m.rowStart[n]
    ensures i < n && m.rowStart[i] <= j < m.rowStart[i + 1]
  {
    hide W.Times, BlockRows;
    if n > 0 && j < m.rowStart[n - 1] { i := RowOfBlock(m, j, n - 1); } else { i := n - 1; }
  }

  lemma Split(k: nat, d: nat, n: nat)
    requires d > 0 && k < n * d
    ensures k / d < n && k % d < d && k == k / d * d + k % d
  {
    if k / d >= n { ProductMono(n, k / d, d); }
  }

  lemma ProductMono(n: nat, q: nat, d: nat)
    requires n <= q
    ensures n * d <= q * d
  {
  }

  /** There are no other tuples: every place is that of a row and a column of a block. */
  lemma TupleFrom(m: Blocked, k: nat) returns (i: nat, j: nat, bi: nat, bj: nat)
    requires Valid(m) && k < |Entries(m, BlockRows(m))|
    ensures InBlock(m, i, j, bi, bj) && k == j * (m.bsX * m.bsY) + bi * m.bsY + bj
  {
    hide W.Times, Entries, BlockRows;
    W.TimesIs(m.bsX, m.bsY);
    W.TimesIs(BlockSize(m), Blocks(m));
    var size := m.bsX * m.bsY;
    Positive(m.bsX, m.bsY);
    Split(k, size, Blocks(m));
    Split(k % size, m.bsY, m.bsX);
    j, bi, bj := k / size, k % size / m.bsY, k % size % m.bsY;
    i := RowOfBlock(m, j, BlockRows(m));
  }

  lemma Positive(a: nat, b: nat)
    requires a > 0 && b > 0
    ensures a * b > 0
  {
  }

  // ---------- The converted matrix ----------

  /** The compressed matrix has this entry, between the pointers of its row. */
  ghost predicate HasEntry(a: CsrMatrix, e: Entry) {
    && e.row + 1 < |a.rowStart| && |a.colIdx| == |a.vals|
    && exists k: nat :: a.rowStart[e.row] <= k < a.rowStart[e.row + 1] && k < |a.colIdx| &&
                        Entry(e.row, a.colIdx[k], a.vals[k]) == e
  }

  /** Every value of every block is an entry of the result. */
  lemma ConvertedHas(m: Blocked, i: nat, j: nat, bi: nat, bj: nat)
    requires Valid(m) && InBlock(m, i, j, bi, bj)
    ensures HasEntry(Converted(m), EntryThere(m, i, j, bi, bj))
  {
    hide Entries, Sorted, Converted, EntryThere, BlockRows, Valid;
    var e := EntryThere(m, i, j, bi, bj);
    var tuples := Entries(m, BlockRows(m));
    TupleAt(m, i, j, bi, bj);
    RowThere(m, i, j, bi, bj);
    ConvertedEntries(m);
    assert e in multiset(tuples);
    assert e in multiset(Sorted(tuples));
    var k :| 0 <= k < |Sorted(tuples)| && Sorted(tuples)[k] == e;
    InSomeRow(m, k);
  }

  lemma InSomeRow(m: Blocked, k: nat)
    requires Valid(m) && k < |Sorted(Entries(m, BlockRows(m)))|
    ensures var a, e := Converted(m), Sorted(Entries(m, BlockRows(m)))[k];
            && e.row < m.rows && |a.rowStart| == m.rows + 1 && k < |a.colIdx| == |a.vals|
            && a.rowStart[e.row] <= k < a.rowStart[e.row + 1] && a.colIdx[k] == e.col && a.vals[k] == e.val
  {
    hide Entries, Sorted, Before, IsSorted;
    var tuples := Entries(m, BlockRows(m));
    EntriesBelow(m, BlockRows(m));
    SortedSorts(tuples);
    SameRows(tuples, Sorted(tuples), m.rows);
    InItsRow(Sorted(tuples), Sorted(tuples)[k].row, k);
  }

  lemma RowThere(m: Blocked, i: nat, j: nat, bi: nat, bj: nat)
    requires Valid(m) && InBlock(m, i, j, bi, bj)
    ensures EntryThere(m, i, j, bi, bj).row == i * m.bsX + bi < m.rows
  {
    hide W.Times;
    RowInRange(m, i, bi);
    W.TimesIs(m.bsX, i);
  }

  /** No other block of the block row stands in the block column of block j. */
  ghost predicate OnlyThere(m: Blocked, i: nat, j: nat)
    requires Stored(m) && i < BlockRows(m)
  {
    forall l :: m.rowStart[i] <= l < m.rowStart[i + 1] && l != j && l < |m.colIdx| && j < |m.colIdx| ==>
      m.colIdx[l] != m.colIdx[j]
  }

  lemma {:induction false} OneBlockOfRow(m: Blocked, stride: nat, r: nat, c: nat, lo: nat, hi: nat, j: nat)
    requires Valid(m) && lo <= hi <= Blocks(m) && (stride == m.bsX || stride == m.bsY) && j < Blocks(m)
    requires c / m.bsY == m.colIdx[j] && forall l :: lo <= l < hi && l != j ==> m.colIdx[l] != m.colIdx[j]
    ensures Slot(m, stride, j, r % m.bsX, c % m.bsY) < |m.buffer|
    ensures BlockedSum(m, stride, r, c, lo, hi) ==
            if lo <= j < hi then m.buffer[Slot(m, stride, j, r % m.bsX, c % m.bsY)] else 0.0
    decreases hi
  {
    hide Slot, W.Times, BlockRows;
    SlotInRange(m, j, r % m.bsX, c % m.bsY);
    if hi > lo { OneBlockOfRow(m, stride, r, c, lo, hi - 1, j); }
  }

  /** The value of the blocked matrix at row bi and column bj of block j, if no other block of the block row stands
      there, with block rows `stride` apart. */
  lemma BlockedThere(m: Blocked, stride: nat, i: nat, j: nat, bi: nat, bj: nat)
    requires Valid(m) && InBlock(m, i, j, bi, bj) && OnlyThere(m, i, j) && (stride == m.bsX || stride == m.bsY)
    ensures j < |m.colIdx| && i * m.bsX + bi >= 0 && m.colIdx[j] * m.bsY + bj >= 0
    ensures 0 <= j * (m.bsX * m.bsY) + stride * bi + bj < |m.buffer|
    ensures BlockedAt(m, stride, i * m.bsX + bi, m.colIdx[j] * m.bsY + bj) ==
            m.buffer[j * (m.bsX * m.bsY) + stride * bi + bj]
  {
    hide W.Times, BlockedSum;
    RowOfBlocks(m, i);
    SlotInRange(m, j, bi, bj);
    W.TimesIs(m.bsX, m.bsY);
    W.TimesIs(BlockSize(m), j);
    W.TimesIs(stride, bi);
    W.DivModOf(i, bi, m.bsX);
    W.DivModOf(m.colIdx[j], bj, m.bsY);
    OneBlockOfRow(m, stride, i * m.bsX + bi, m.colIdx[j] * m.bsY + bj, m.rowStart[i], m.rowStart[i + 1], j);
  }

  /** The result has, at row i * bsX + bi and column colIdx[j] * bsY + bj, the value at
      j * bsX * bsY + bsX * bi + bj of the buffer, if no other block of the row stands there. */
  lemma ConvertedThere(m: Blocked, i: nat, j: nat, bi: nat, bj: nat)
    requires Valid(m) && InBlock(m, i, j, bi, bj) && OnlyThere(m, i, j)
    ensures var a, e := Converted(m), EntryThere(m, i, j, bi, bj);
            && e.row < m.rows && |a.rowStart| == m.rows + 1
            && a.rowStart[e.row] <= a.rowStart[e.row + 1] <= |a.colIdx| == |a.vals|
            && CsrSum(a, e.row, e.col, a.rowStart[e.row], a.rowStart[e.row + 1]) == e.val
  {
    hide Converted, BlockedAt, CsrSum, W.Times;
    RowThere(m, i, j, bi, bj);
    BlockedThere(m, m.bsX, i, j, bi, bj);
    ConvertedValue(m, i * m.bsX + bi, m.colIdx[j] * m.bsY + bj);
  }
}
