/** Conversion of a blocked matrix into compressed sparse rows. */
module Csr {
  import S = Sorting
  import W = Words
  import opened Grids

  /** A blocked matrix: blocks rowStart[i]..rowStart[i+1] stand in block row i, block j in block
      column colIdx[j], with bsX * bsY values each. */
  datatype Blocked = Blocked(buffer: seq<real>, rowStart: seq<nat>, colIdx: seq<nat>, rows: nat, bsX: nat, bsY: nat)

  datatype Entry = Entry(row: nat, col: nat, val: real)

  function BlockRows(m: Blocked): (n: nat)
    requires m.bsX > 0
  {
    m.rows / m.bsX
  }

  function Blocks(m: Blocked): (nnz: nat)
    requires m.bsX > 0 && |m.rowStart| == BlockRows(m) + 1
  {
    m.rowStart[BlockRows(m)]
  }

  /** A stored matrix, with blocks of any shape. */
  ghost predicate Stored(m: Blocked) {
    && m.bsX > 0 && m.bsY > 0
    && |m.rowStart| == BlockRows(m) + 1 && m.rowStart[0] == 0
    && (forall i, j :: 0 <= i <= j < |m.rowStart| ==> m.rowStart[i] <= m.rowStart[j])
    && |m.colIdx| == Blocks(m) && |m.buffer| == W.Times(BlockSize(m), Blocks(m))
  }

  /** The conversion strides the rows of a block by bsX; no read leaves the buffer. */
  ghost predicate InBounds(m: Blocked)
    requires Stored(m)
  {
    forall j: nat, bi: nat, bj: nat :: j < Blocks(m) && bi < m.bsX && bj < m.bsY ==>
      Slot(m, m.bsX, j, bi, bj) < |m.buffer|
  }

  /** The matrices the conversion is for; ReadsInBounds says that no others are read in bounds. */
  ghost predicate Valid(m: Blocked) {
    Stored(m) && (m.bsX == 1 || m.bsX <= m.bsY || Blocks(m) == 0)
  }

  function BlockSize(m: Blocked): (n: nat)
  {
    W.Times(m.bsX, m.bsY)
  }

  /** Where row bi of a block starts when rows are `stride` apart. */
  function Slot(m: Blocked, stride: nat, j: nat, bi: nat, bj: nat): (k: nat)
  {
    W.Times(BlockSize(m), j) + W.Times(stride, bi) + bj
  }

  lemma SlotInRange(m: Blocked, j: nat, bi: nat, bj: nat)
    requires Valid(m) && j < Blocks(m) && bi < m.bsX && bj < m.bsY
    ensures Slot(m, m.bsX, j, bi, bj) < |m.buffer| && Slot(m, m.bsY, j, bi, bj) < |m.buffer|
  {
    hide W.Times;
    W.TimesAdd(BlockSize(m), j, 1);
    W.TimesOne(BlockSize(m));
    W.TimesMono(BlockSize(m), j + 1, Blocks(m));
    W.TimesSwap(m.bsX, m.bsY);
    W.TimesMono(m.bsY, bi + 1, m.bsX);
    W.TimesAdd(m.bsY, bi, 1);
    W.TimesOne(m.bsY);
    W.TimesSwap(m.bsY, bi);
    W.TimesSwap(m.bsX, bi);
    if m.bsX > 1 {
      W.TimesMono(bi, m.bsX, m.bsY);
    }
    W.TimesOne(m.bsX);
  }

  // ---------- The entries ----------

  function EntryOf(m: Blocked, i: nat, j: nat, bi: nat, bj: nat): (e: Entry)
    requires Valid(m) && j < Blocks(m) && bi < m.bsX && bj < m.bsY
  {
    SlotInRange(m, j, bi, bj);
    Entry(W.Times(m.bsX, i) + bi, W.Times(m.bsY, m.colIdx[j]) + bj, m.buffer[Slot(m, m.bsX, j, bi, bj)])
  }

  /** The first n entries of row bi of block j in block row i... */
  function OfBlockRow(m: Blocked, i: nat, j: nat, bi: nat, n: nat): (s: seq<Entry>)
    requires Valid(m) && j < Blocks(m) && bi < m.bsX && n <= m.bsY
    ensures |s| == n
  {
    if n == 0 then [] else OfBlockRow(m, i, j, bi, n - 1) + [EntryOf(m, i, j, bi, n - 1)]
  }

  /** ... of its first n rows... */
  function OfBlock(m: Blocked, i: nat, j: nat, n: nat): (s: seq<Entry>)
    requires Valid(m) && j < Blocks(m) && n <= m.bsX
    ensures |s| == W.Times(m.bsY, n)
  {
    W.TimesOne(m.bsY);
    if n == 0 then [] else
      W.TimesAdd(m.bsY, n - 1, 1);
      OfBlock(m, i, j, n - 1) + OfBlockRow(m, i, j, n - 1, m.bsY)
  }

  /** ... of the blocks of block row i below j... */
  function OfRowBlocks(m: Blocked, i: nat, j: nat): (s: seq<Entry>)
    requires Valid(m) && i < BlockRows(m) && m.rowStart[i] <= j <= m.rowStart[i + 1] <= Blocks(m)
    ensures |s| == W.Times(BlockSize(m), j - m.rowStart[i])
    decreases j
  {
    W.TimesOne(BlockSize(m));
    if j == m.rowStart[i] then [] else
      W.TimesAdd(BlockSize(m), j - 1 - m.rowStart[i], 1);
      W.TimesSwap(m.bsX, m.bsY);
      OfRowBlocks(m, i, j - 1) + OfBlock(m, i, j - 1, m.bsX)
  }

  lemma RowOfBlocks(m: Blocked, i: nat)
    requires Valid(m) && i < BlockRows(m)
    ensures i + 1 < |m.rowStart| && m.rowStart[i] <= m.rowStart[i + 1] <= Blocks(m)
  {
    hide W.Times, BlockRows;
  }

  /** How many entries the first n block rows have. */
  function EntryCount(m: Blocked, n: nat): (k: nat)
    requires Valid(m) && n <= BlockRows(m)
  {
    W.Times(BlockSize(m), m.rowStart[n])
  }

  lemma NoEntryCount(m: Blocked)
    requires Valid(m)
    ensures EntryCount(m, 0) == 0
  {
    W.TimesOne(BlockSize(m));
  }

  lemma NextEntryCount(m: Blocked, i: nat)
    requires Valid(m) && i < BlockRows(m)
    ensures i + 1 < |m.rowStart| && m.rowStart[i] <= m.rowStart[i + 1] <= Blocks(m)
    ensures EntryCount(m, i + 1) == EntryCount(m, i) + W.Times(BlockSize(m), m.rowStart[i + 1] - m.rowStart[i])
  {
    hide W.Times;
    RowOfBlocks(m, i);
    W.TimesOne(BlockSize(m));
    W.TimesAdd(BlockSize(m), m.rowStart[i], m.rowStart[i + 1] - m.rowStart[i]);
  }

  /** ... and of the first n block rows. */
  function Entries(m: Blocked, n: nat): (s: seq<Entry>)
    requires Valid(m) && n <= BlockRows(m)
    ensures |s| == EntryCount(m, n)
  {
    if n == 0 then NoEntryCount(m); [] else
      NextEntryCount(m, n - 1);
      Entries(m, n - 1) + OfRowBlocks(m, n - 1, m.rowStart[n])
  }

  ghost predicate RowsBelow(s: seq<Entry>, rows: nat) {
    forall k :: 0 <= k < |s| ==> s[k].row < rows
  }

  // ---------- Sorting ----------

  /** The order of tuples. */
  predicate AtMost(a: Entry, b: Entry) {
    a.row < b.row || (a.row == b.row && (a.col < b.col || (a.col == b.col && a.val <= b.val)))
  }

  predicate IsSorted(s: seq<Entry>) {
    S.Ordered(AtMost, s)
  }

  /** The result of std::sort. */
  function Sorted(s: seq<Entry>): (r: seq<Entry>)
    ensures |r| == |s|
  {
    S.Sort(AtMost, s)
  }

  /** Sorting permutes the entries into order. */
  lemma SortedSorts(s: seq<Entry>)
    ensures IsSorted(Sorted(s)) && multiset(Sorted(s)) == multiset(s)
  {
    S.SortSorts(AtMost, s);
  }

  // ---------- Row pointers ----------

  function InRow(s: seq<Entry>, r: nat): (n: nat)
  {
    if s == [] then 0 else InRow(s[..|s| - 1], r) + (if s[|s| - 1].row == r then 1 else 0)
  }

  /** How many entries stand in rows before r. */
  function Before(s: seq<Entry>, r: nat): (n: nat)
    ensures n <= |s|
  {
    if s == [] then 0 else Before(s[..|s| - 1], r) + (if s[|s| - 1].row < r then 1 else 0)
  }

  lemma {:induction false} BeforeNext(s: seq<Entry>, r: nat)
    ensures Before(s, 0) == 0 && Before(s, r + 1) == Before(s, r) + InRow(s, r)
  {
    if s != [] { BeforeNext(s[..|s| - 1], r); }
  }

  lemma {:induction false} BeforeAll(s: seq<Entry>, r: nat)
    requires RowsBelow(s, r)
    ensures Before(s, r) == |s|
  {
    if s != [] { BeforeAll(s[..|s| - 1], r); }
  }

  lemma {:induction false} BeforeMono(s: seq<Entry>, q: nat, r: nat)
    requires q <= r
    ensures Before(s, q) <= Before(s, r)
  {
    if s != [] { BeforeMono(s[..|s| - 1], q, r); }
  }

  lemma CountNext(s: seq<Entry>, l: nat, r: nat)
    requires l < |s|
    ensures InRow(s[..l + 1], r) == InRow(s[..l], r) + (if s[l].row == r then 1 else 0)
    ensures Before(s[..l + 1], r) == Before(s[..l], r) + (if s[l].row < r then 1 else 0)
    ensures InRow(s[..0], r) == 0 && s[..|s|] == s
  {
    assert s[..l + 1][..l] == s[..l];
  }

  /** Before the last n entries of a sorted list nothing of a later row is counted. */
  lemma {:induction false} BeforeOfPrefix(s: seq<Entry>, l: nat, n: nat)
    requires IsSorted(s) && l < n <= |s|
    ensures Before(s[..n], s[l].row) == Before(s[..l], s[l].row)
  {
    hide Before, InRow, IsSorted;
    CountNext(s, n - 1, s[l].row);
    if l < n - 1 {
      BeforeOfPrefix(s, l, n - 1);
      SortedPair(s, l, n - 1);
    }
  }

  lemma {:induction false} PrefixCount(s: seq<Entry>, l: nat, r: nat)
    requires l <= |s| && forall k :: 0 <= k < l ==> s[k].row <= r
    ensures Before(s[..l], r) + InRow(s[..l], r) == l
  {
    if l > 0 {
      PrefixCount(s, l - 1, r);
      CountNext(s, l - 1, r);
    }
  }

  /** The fill puts the l-th entry of the sorted list at place l. */
  lemma FillPosition(s: seq<Entry>, l: nat)
    requires IsSorted(s) && l < |s|
    ensures Before(s, s[l].row) + InRow(s[..l], s[l].row) == l
  {
    BeforeOfPrefix(s, l, |s|);
    assert s[..|s|] == s;
    forall k | 0 <= k < l ensures s[k].row <= s[l].row { assert AtMost(s[k], s[l]); }
    PrefixCount(s, l, s[l].row);
  }

  // ---------- The conversion ----------

  lemma RowBlocksNext(m: Blocked, i: nat, j: nat)
    requires Valid(m) && i < BlockRows(m) && m.rowStart[i] <= j < m.rowStart[i + 1]
    ensures m.rowStart[i + 1] <= Blocks(m)
    ensures OfRowBlocks(m, i, m.rowStart[i]) == []
    ensures OfRowBlocks(m, i, j + 1) == OfRowBlocks(m, i, j) + OfBlock(m, i, j, m.bsX)
  {
  }

  lemma EntriesNext(m: Blocked, i: nat)
    requires Valid(m) && i < BlockRows(m)
    ensures m.rowStart[i] <= m.rowStart[i + 1] <= Blocks(m) && OfRowBlocks(m, i, m.rowStart[i]) == [] &&
            Entries(m, 0) == []
    ensures Entries(m, i + 1) == Entries(m, i) + OfRowBlocks(m, i, m.rowStart[i + 1])
  {
  }

  lemma NoEntries(m: Blocked)
    requires Valid(m)
    ensures Entries(m, 0) == []
  {
  }

  /** The tuples of all matrix entries, in the order of storage. */
  method MakeTuples(m: Blocked) returns (entries: seq<Entry>)
    requires Valid(m)
    ensures entries == Entries(m, BlockRows(m))
  {
    hide Entries, OfRowBlocks, OfBlock, W.Times;
    NoEntries(m);
    entries := [];
    for i := 0 to BlockRows(m)
      invariant entries == Entries(m, i)
    {
      ghost var before := entries;
      EntriesNext(m, i);
      for j := m.rowStart[i] to m.rowStart[i + 1]
        invariant entries == before + OfRowBlocks(m, i, j)
      {
        RowBlocksNext(m, i, j);
        var block := BlockTuples(m, i, j);
        entries := entries + block;
      }
    }
  }

  /** The places as the code computes them. */
  lemma Places(m: Blocked, i: nat, j: nat, bi: nat)
    requires Valid(m) && j < Blocks(m)
    ensures W.Times(BlockSize(m), j) + W.Times(m.bsX, bi) == j * (m.bsX * m.bsY) + m.bsX * bi
    ensures W.Times(m.bsX, i) == i * m.bsX && W.Times(m.bsY, m.colIdx[j]) == m.colIdx[j] * m.bsY
  {
    W.TimesIs(m.bsX, m.bsY);
    W.TimesIs(BlockSize(m), j);
    W.TimesIs(m.bsX, bi);
    W.TimesIs(m.bsX, i);
    W.TimesIs(m.bsY, m.colIdx[j]);
  }

  method BlockTuples(m: Blocked, i: nat, j: nat) returns (entries: seq<Entry>)
    requires Valid(m) && j < Blocks(m)
    ensures entries == OfBlock(m, i, j, m.bsX)
  {
    hide W.Times;
    entries := [];
    for bi := 0 to m.bsX
      invariant entries == OfBlock(m, i, j, bi)
    {
      ghost var before := entries;
      for bj := 0 to m.bsY
        invariant entries == before + OfBlockRow(m, i, j, bi, bj)
      {
        SlotInRange(m, j, bi, bj);
        Places(m, i, j, bi);
        var val := m.buffer[j * (m.bsX * m.bsY) + m.bsX * bi + bj];
        entries := entries + [Entry(i * m.bsX + bi, m.colIdx[j] * m.bsY + bj, val)];
      }
    }
  }

  /** Row lengths, one place up, added up to row pointers. */
  method RowPointers(entries: seq<Entry>, rows: nat) returns (csrRowStart: array<nat>)
    requires RowsBelow(entries, rows)
    ensures fresh(csrRowStart) && csrRowStart.Length == rows + 1
    ensures forall i :: 0 <= i <= rows ==> csrRowStart[i] == Before(entries, i)
  {
    hide InRow, Before;
    csrRowStart := new nat[rows + 1];
    for i := 0 to rows + 1
      invariant forall k :: 0 <= k < i ==> csrRowStart[k] == 0
    {
      csrRowStart[i] := 0;
    }
    forall r: nat | r < rows ensures InRow(entries[..0], r) == 0 { NoneInRow(r); assert entries[..0] == []; }
    for l := 0 to |entries|
      invariant csrRowStart[0] == 0
      invariant forall i :: 1 <= i <= rows ==> csrRowStart[i] == InRow(entries[..l], i - 1)
    {
      forall r: nat | r < rows
        ensures InRow(entries[..l + 1], r) == InRow(entries[..l], r) + (if entries[l].row == r then 1 else 0) {
        CountNext(entries, l, r);
      }
      csrRowStart[entries[l].row + 1] := csrRowStart[entries[l].row + 1] + 1;
    }
    assert entries[..|entries|] == entries;
    BeforeNext(entries, 0);
    for i := 0 to rows
      invariant forall k :: 0 <= k <= i ==> csrRowStart[k] == Before(entries, k)
      invariant forall k :: i < k <= rows ==> csrRowStart[k] == InRow(entries, k - 1)
    {
      BeforeNext(entries, i);
      csrRowStart[i + 1] := csrRowStart[i + 1] + csrRowStart[i];
    }
  }

  lemma NoneInRow(r: nat)
    ensures InRow([], r) == 0
  {
  }

  /** Every entry goes to where its row's pointer stands, and the pointer moves on. */
  method Fill(entries: seq<Entry>, rows: nat, csrRowStart: array<nat>, csrColIdx: array<nat>, csrVals: array<real>)
    requires IsSorted(entries) && RowsBelow(entries, rows)
    requires csrRowStart.Length == rows + 1 && csrColIdx.Length == csrVals.Length == |entries| &&
             csrRowStart != csrColIdx
    requires forall i :: 0 <= i <= rows ==> csrRowStart[i] == Before(entries, i)
    modifies csrRowStart, csrColIdx, csrVals
    ensures forall l :: 0 <= l < |entries| ==> csrColIdx[l] == entries[l].col && csrVals[l] == entries[l].val
    ensures forall i :: 0 <= i < rows ==> csrRowStart[i] == Before(entries, i + 1)
  {
    hide InRow, Before, IsSorted;
    forall r: nat | r < rows ensures InRow(entries[..0], r) == 0 { NoneInRow(r); assert entries[..0] == []; }
    for l := 0 to |entries|
      invariant forall r :: 0 <= r < rows ==> csrRowStart[r] == Before(entries, r) + InRow(entries[..l], r)
      invariant forall k :: 0 <= k < l ==> csrColIdx[k] == entries[k].col && csrVals[k] == entries[k].val
    {
      FillPosition(entries, l);
      forall r: nat | r < rows
        ensures InRow(entries[..l + 1], r) == InRow(entries[..l], r) + (if entries[l].row == r then 1 else 0) {
        CountNext(entries, l, r);
      }
      var i := csrRowStart[entries[l].row];
      csrVals[i] := entries[l].val;
      csrColIdx[i] := entries[l].col;
      csrRowStart[entries[l].row] := csrRowStart[entries[l].row] + 1;
    }
    assert entries[..|entries|] == entries;
    forall i: nat | i < rows ensures csrRowStart[i] == Before(entries, i + 1) { BeforeNext(entries, i); }
  }

  /** The pointers go back one row. */
  method ShiftBack(rows: nat, csrRowStart: array<nat>)
    requires csrRowStart.Length == rows + 1
    modifies csrRowStart
    ensures csrRowStart[0] == 0 && forall i :: 1 <= i <= rows ==> csrRowStart[i] == old(csrRowStart[i - 1])
  {
    var i := rows;
    while i > 0
      invariant 0 <= i <= rows
      invariant forall k :: 0 <= k <= i ==> csrRowStart[k] == old(csrRowStart[k])
      invariant forall k :: i < k <= rows ==> csrRowStart[k] == old(csrRowStart[k - 1])
    {
      csrRowStart[i] := csrRowStart[i - 1];
      i := i - 1;
    }
    csrRowStart[0] := 0;
  }

  /** A matrix in compressed sparse rows. */
  datatype CsrMatrix = CsrMatrix(rowStart: seq<nat>, colIdx: seq<nat>, vals: seq<real>)

  /** The compressed rows of a sorted list of entries. */
  function Compressed(entries: seq<Entry>, rows: nat): (c: CsrMatrix)
  {
    CsrMatrix(seq(rows + 1, i requires 0 <= i => Before(entries, i)),
              seq(|entries|, l requires 0 <= l < |entries| => entries[l].col),
              seq(|entries|, l requires 0 <= l < |entries| => entries[l].val))
  }

  function Converted(m: Blocked): (c: CsrMatrix)
    requires Valid(m)
  {
    Compressed(Sorted(Entries(m, BlockRows(m))), m.rows)
  }

  /** convertToCSR */
  method ConvertToCSR(m: Blocked) returns (csrRowStart: array<nat>, csrColIdx: array<nat>, csrVals: array<real>)
    requires Valid(m)
    ensures fresh(csrRowStart) && fresh(csrColIdx) && fresh(csrVals)
    ensures CsrMatrix(csrRowStart[..], csrColIdx[..], csrVals[..]) == Converted(m)
  {
    hide Entries, Sorted, Before, InRow, IsSorted;
    var tuples := MakeTuples(m);
    EntriesBelow(m, BlockRows(m));
    SortedSorts(tuples);
    var entries := Sorted(tuples);
    SameRows(tuples, entries, m.rows);
    csrRowStart := RowPointers(entries, m.rows);
    csrColIdx := new nat[|entries|];
    csrVals := new real[|entries|];
    Fill(entries, m.rows, csrRowStart, csrColIdx, csrVals);
    ShiftBack(m.rows, csrRowStart);
    BeforeNext(entries, 0);
  }

  lemma SameRows(s: seq<Entry>, t: seq<Entry>, rows: nat)
    requires multiset(s) == multiset(t) && RowsBelow(s, rows)
    ensures RowsBelow(t, rows)
  {
    forall k | 0 <= k < |t| ensures t[k].row < rows {
      assert t[k] in multiset(t);
      assert t[k] in multiset(s);
    }
  }

  lemma RowInRange(m: Blocked, i: nat, bi: nat)
    requires m.bsX > 0 && i < BlockRows(m) && bi < m.bsX
    ensures W.Times(m.bsX, i) + bi < m.rows
  {
    hide W.Times;
    W.TimesAdd(m.bsX, i, 1);
    W.TimesOne(m.bsX);
    W.TimesMono(m.bsX, i + 1, BlockRows(m));
    W.TimesIs(m.bsX, m.rows / m.bsX);
    assert m.rows / m.bsX * m.bsX <= m.rows;
  }

  /** The rows of all entries are rows of the matrix. */
  lemma {:induction false} EntriesBelow(m: Blocked, n: nat)
    requires Valid(m) && n <= BlockRows(m)
    ensures RowsBelow(Entries(m, n), m.rows)
  {
    hide OfRowBlocks;
    if n > 0 {
      EntriesBelow(m, n - 1);
      RowBlocksBelow(m, n - 1, m.rowStart[n]);
    }
  }

  lemma {:induction false} RowBlocksBelow(m: Blocked, i: nat, j: nat)
    requires Valid(m) && i < BlockRows(m) && m.rowStart[i] <= j <= m.rowStart[i + 1] <= Blocks(m)
    ensures RowsBelow(OfRowBlocks(m, i, j), m.rows)
    decreases j
  {
    hide OfBlock;
    if j > m.rowStart[i] {
      RowBlocksBelow(m, i, j - 1);
      BlockBelow(m, i, j - 1, m.bsX);
    }
  }

  lemma {:induction false} BlockBelow(m: Blocked, i: nat, j: nat, n: nat)
    requires Valid(m) && i < BlockRows(m) && j < Blocks(m) && n <= m.bsX
    ensures RowsBelow(OfBlock(m, i, j, n), m.rows)
  {
    hide OfBlockRow;
    if n > 0 {
      BlockBelow(m, i, j, n - 1);
      BlockRowBelow(m, i, j, n - 1, m.bsY);
    }
  }

  lemma {:induction false} BlockRowBelow(m: Blocked, i: nat, j: nat, bi: nat, n: nat)
    requires Valid(m) && i < BlockRows(m) && j < Blocks(m) && bi < m.bsX && n <= m.bsY
    ensures RowsBelow(OfBlockRow(m, i, j, bi, n), m.rows)
  {
    RowInRange(m, i, bi);
    if n > 0 { BlockRowBelow(m, i, j, bi, n - 1); }
  }

  // ---------- What the result means ----------

  /** Row pointers run from 0 to the number of entries, and columns ascend within a row. */
  lemma ConvertedIsCsr(m: Blocked, r: nat)
    requires Valid(m) && r < m.rows
    ensures var c := Converted(m);
            && |c.rowStart| == m.rows + 1 && c.rowStart[0] == 0 && c.rowStart[m.rows] == |c.colIdx| == |c.vals|
            && c.rowStart[r] <= c.rowStart[r + 1] <= |c.colIdx|
            && forall k, l :: c.rowStart[r] <= k <= l < c.rowStart[r + 1] ==> c.colIdx[k] <= c.colIdx[l]
  {
    hide Entries, Sorted, Before, InRow, IsSorted;
    var tuples := Entries(m, BlockRows(m));
    var entries := Sorted(tuples);
    EntriesBelow(m, BlockRows(m));
    SortedSorts(tuples);
    SameRows(tuples, entries, m.rows);
    BeforeNext(entries, 0);
    BeforeAll(entries, m.rows);
    BeforeMono(entries, r, r + 1);
    BeforeMono(entries, r + 1, m.rows);
    forall k, l | Before(entries, r) <= k <= l < Before(entries, r + 1) ensures entries[k].col <= entries[l].col {
      InItsRow(entries, r, k);
      InItsRow(entries, r, l);
      SortedPair(entries, k, l);
    }
  }

  lemma SortedPair(s: seq<Entry>, k: nat, l: nat)
    requires IsSorted(s) && k <= l < |s|
    ensures k == l || AtMost(s[k], s[l])
  {
  }

  /** Entry k belongs to row r exactly when it stands between the row's pointers. */
  lemma InItsRow(s: seq<Entry>, r: nat, k: nat)
    requires IsSorted(s) && k < |s|
    ensures s[k].row == r <==> Before(s, r) <= k < Before(s, r + 1)
  {
    hide InRow, Before, IsSorted;
    var q := s[k].row;
    FillPosition(s, k);
    BeforeNext(s, q);
    InRowOfPrefix(s, q, k + 1, |s|);
    assert s[..|s|] == s;
    CountNext(s, k, q);
    if q < r { BeforeMono(s, q + 1, r); }
    if r < q { BeforeMono(s, r + 1, q); }
  }

  lemma {:induction false} InRowOfPrefix(s: seq<Entry>, r: nat, l: nat, n: nat)
    requires l <= n <= |s|
    ensures InRow(s[..l], r) <= InRow(s[..n], r)
  {
    if l < n {
      InRowOfPrefix(s, r, l, n - 1);
      CountNext(s, n - 1, r);
    }
  }

  /** The entries of the result: k-th column and value, in the row that k stands in. */
  lemma ConvertedEntries(m: Blocked)
    requires Valid(m)
    ensures var c, entries := Converted(m), Sorted(Entries(m, BlockRows(m)));
            && multiset(entries) == multiset(Entries(m, BlockRows(m)))
            && |c.colIdx| == |c.vals| == |entries| && |c.rowStart| == m.rows + 1
            && forall k, r :: 0 <= k < |entries| && 0 <= r < m.rows ==>
                 (c.rowStart[r] <= k < c.rowStart[r + 1] <==> entries[k] == Entry(r, c.colIdx[k], c.vals[k]))
  {
    hide Entries, Sorted, Before, IsSorted;
    var entries := Sorted(Entries(m, BlockRows(m)));
    SortedSorts(Entries(m, BlockRows(m)));
    forall k, r | 0 <= k < |entries| && 0 <= r < m.rows
      ensures Before(entries, r) <= k < Before(entries, r + 1) <==> entries[k].row == r {
      InItsRow(entries, r, k);
    }
  }

  // ---------- Matrix values ----------

  /** The sum of the entries at (r, c). */
  function Sum(s: seq<Entry>, r: nat, c: nat): (x: real)
  {
    if s == [] then 0.0
    else Sum(s[..|s| - 1], r, c) + (if s[|s| - 1].row == r && s[|s| - 1].col == c then s[|s| - 1].val else 0.0)
  }

  lemma {:induction false} SumConcat(s: seq<Entry>, t: seq<Entry>, r: nat, c: nat)
    ensures Sum(s + t, r, c) == Sum(s, r, c) + Sum(t, r, c)
  {
    if t == [] {
      assert s + t == s;
    } else {
      SumConcat(s, t[..|t| - 1], r, c);
      assert (s + t)[..|s + t| - 1] == s + t[..|t| - 1];
    }
  }

  /** The order of entries does not matter to the sum. */
  lemma {:induction false} SumSorted(s: seq<Entry>, r: nat, c: nat)
    ensures Sum(Sorted(s), r, c) == Sum(s, r, c)
  {
    if s != [] {
      SumSorted(s[1..], r, c);
      SumInsert(s[0], Sorted(s[1..]), r, c);
      SumConcat([s[0]], s[1..], r, c);
      assert [s[0]] + s[1..] == s;
    }
  }

  lemma {:induction false} SumInsert(e: Entry, s: seq<Entry>, r: nat, c: nat)
    ensures Sum(S.Insert(AtMost, e, s), r, c) == Sum([e], r, c) + Sum(s, r, c)
  {
    SumConcat([e], s, r, c);
    if s != [] && !AtMost(e, s[0]) {
      SumInsert(e, s[1..], r, c);
      SumConcat([s[0]], S.Insert(AtMost, e, s[1..]), r, c);
      SumConcat([s[0]], s[1..], r, c);
      assert [s[0]] + s[1..] == s;
    }
  }

  /** The value of the blocked matrix at (r, c): the sum over the blocks of its block row that stand
      in its block column, block rows being `stride` apart. */
  function BlockedSum(m: Blocked, stride: nat, r: nat, c: nat, lo: nat, hi: nat): (x: real)
    requires Valid(m) && lo <= hi <= Blocks(m) && (stride == m.bsX || stride == m.bsY)
    decreases hi
  {
    if hi == lo then 0.0 else
      SlotInRange(m, hi - 1, r % m.bsX, c % m.bsY);
      BlockedSum(m, stride, r, c, lo, hi - 1) +
      (if m.colIdx[hi - 1] == c / m.bsY then m.buffer[Slot(m, stride, hi - 1, r % m.bsX, c % m.bsY)] else 0.0)
  }

  function BlockedAt(m: Blocked, stride: nat, r: nat, c: nat): (x: real)
    requires Valid(m) && (stride == m.bsX || stride == m.bsY)
  {
    if r / m.bsX < BlockRows(m) then
      RowOfBlocks(m, r / m.bsX);
      BlockedSum(m, stride, r, c, m.rowStart[r / m.bsX], m.rowStart[r / m.bsX + 1])
    else 0.0
  }

  lemma Divided(x: nat, d: nat, q: nat, k: nat)
    requires d > 0 && k < d
    ensures x == W.Times(d, q) + k <==> x / d == q && x % d == k
  {
    W.TimesIs(d, q);
    if x / d == q && x % d == k {
      assert x == x / d * d + x % d;
    }
    if x == q * d + k { W.DivModOf(q, k, d); }
  }

  lemma OfBlockRowNone(m: Blocked, i: nat, j: nat, bi: nat)
    requires Valid(m) && j < Blocks(m) && bi < m.bsX
    ensures OfBlockRow(m, i, j, bi, 0) == []
  {
  }

  lemma OfBlockRowNext(m: Blocked, i: nat, j: nat, bi: nat, n: nat)
    requires Valid(m) && j < Blocks(m) && bi < m.bsX && n < m.bsY
    ensures OfBlockRow(m, i, j, bi, n + 1) == OfBlockRow(m, i, j, bi, n) + [EntryOf(m, i, j, bi, n)]
  {
    hide EntryOf;
  }

  lemma {:induction false} SumOfBlockRow(m: Blocked, i: nat, j: nat, bi: nat, n: nat, r: nat, c: nat)
    requires Valid(m) && j < Blocks(m) && bi < m.bsX && n <= m.bsY
    ensures Sum(OfBlockRow(m, i, j, bi, n), r, c) ==
            if r / m.bsX == i && r % m.bsX == bi && c / m.bsY == m.colIdx[j] && c % m.bsY < n
            then EntryOf(m, i, j, bi, c % m.bsY).val else 0.0
  {
    hide W.Times, EntryOf, Sum, OfBlockRow, BlockRows, BlockSize;
    NoSum(r, c);
    OfBlockRowNone(m, i, j, bi);
    if n > 0 {
      OfBlockRowNext(m, i, j, bi, n - 1);
      SumOfBlockRow(m, i, j, bi, n - 1, r, c);
      Divided(r, m.bsX, i, bi);
      Divided(c, m.bsY, m.colIdx[j], n - 1);
      EntryPlace(m, i, j, bi, n - 1);
      SumSnoc(OfBlockRow(m, i, j, bi, n - 1), EntryOf(m, i, j, bi, n - 1), r, c);
    }
  }

  lemma EntryPlace(m: Blocked, i: nat, j: nat, bi: nat, bj: nat)
    requires Valid(m) && j < Blocks(m) && bi < m.bsX && bj < m.bsY
    ensures EntryOf(m, i, j, bi, bj).row == W.Times(m.bsX, i) + bi
    ensures EntryOf(m, i, j, bi, bj).col == W.Times(m.bsY, m.colIdx[j]) + bj
  {
  }

  lemma SumSnoc(s: seq<Entry>, e: Entry, r: nat, c: nat)
    ensures Sum(s + [e], r, c) == Sum(s, r, c) + if e.row == r && e.col == c then e.val else 0.0
  {
    assert (s + [e])[..|s|] == s;
  }

  lemma {:induction false} SumOfBlock(m: Blocked, i: nat, j: nat, n: nat, r: nat, c: nat)
    requires Valid(m) && j < Blocks(m) && n <= m.bsX
    ensures Sum(OfBlock(m, i, j, n), r, c) ==
            if r / m.bsX == i && r % m.bsX < n && c / m.bsY == m.colIdx[j]
            then EntryOf(m, i, j, r % m.bsX, c % m.bsY).val else 0.0
  {
    hide EntryOf, OfBlockRow;
    if n > 0 {
      SumOfBlock(m, i, j, n - 1, r, c);
      SumOfBlockRow(m, i, j, n - 1, m.bsY, r, c);
      SumConcat(OfBlock(m, i, j, n - 1), OfBlockRow(m, i, j, n - 1, m.bsY), r, c);
    }
  }

  lemma {:induction false} SumOfRowBlocks(m: Blocked, i: nat, j: nat, r: nat, c: nat)
    requires Valid(m) && i < BlockRows(m) && m.rowStart[i] <= j <= m.rowStart[i + 1] <= Blocks(m)
    ensures Sum(OfRowBlocks(m, i, j), r, c) ==
            if r / m.bsX == i then BlockedSum(m, m.bsX, r, c, m.rowStart[i], j) else 0.0
    decreases j
  {
    hide OfBlock, W.Times;
    if j > m.rowStart[i] {
      SumOfRowBlocks(m, i, j - 1, r, c);
      SumOfBlock(m, i, j - 1, m.bsX, r, c);
      SumConcat(OfRowBlocks(m, i, j - 1), OfBlock(m, i, j - 1, m.bsX), r, c);
    }
  }

  lemma {:induction false} SumOfEntries(m: Blocked, n: nat, r: nat, c: nat)
    requires Valid(m) && n <= BlockRows(m)
    ensures Sum(Entries(m, n), r, c) == if r / m.bsX < n then BlockedAt(m, m.bsX, r, c) else 0.0
  {
    hide OfRowBlocks, BlockedSum, W.Times;
    if n > 0 {
      SumOfEntries(m, n - 1, r, c);
      SumOfRowBlocks(m, n - 1, m.rowStart[n], r, c);
      SumConcat(Entries(m, n - 1), OfRowBlocks(m, n - 1, m.rowStart[n]), r, c);
    }
  }

  /** The value of a compressed matrix at (r, c), summed up to place k of its row. */
  function CsrSum(a: CsrMatrix, r: nat, c: nat, lo: nat, hi: nat): (x: real)
    requires lo <= hi <= |a.colIdx| == |a.vals|
  {
    if hi == lo then 0.0 else CsrSum(a, r, c, lo, hi - 1) + (if a.colIdx[hi - 1] == c then a.vals[hi - 1] else 0.0)
  }

  lemma NoSum(r: nat, c: nat)
    ensures Sum([], r, c) == 0.0
  {
  }

  lemma {:induction false} SumOfCsr(s: seq<Entry>, rows: nat, r: nat, c: nat, n: nat)
    requires IsSorted(s) && n <= |s| && r < rows
    ensures Before(s, r) <= Before(s, r + 1) <= |s| && |Compressed(s, rows).colIdx| == |Compressed(s, rows).vals| == |s|
    ensures Sum(s[..n], r, c) ==
            if n <= Before(s, r) then 0.0
            else CsrSum(Compressed(s, rows), r, c, Before(s, r), if n <= Before(s, r + 1) then n else Before(s, r + 1))
  {
    hide Before, IsSorted, InRow, Sum;
    BeforeMono(s, r, r + 1);
    NoSum(r, c);
    if n > 0 {
      SumOfCsr(s, rows, r, c, n - 1);
      InItsRow(s, r, n - 1);
      assert s[..n] == s[..n - 1] + [s[n - 1]];
      SumSnoc(s[..n - 1], s[n - 1], r, c);
    } else {
      assert s[..0] == [];
    }
  }

  /** The value of the result at (r, c) is that of the blocked matrix, as the conversion reads it. */
  lemma ConvertedValue(m: Blocked, r: nat, c: nat)
    requires Valid(m) && r < m.rows
    ensures var a := Converted(m);
            && |a.rowStart| == m.rows + 1 && a.rowStart[r] <= a.rowStart[r + 1] <= |a.colIdx| == |a.vals|
            && CsrSum(a, r, c, a.rowStart[r], a.rowStart[r + 1]) == BlockedAt(m, m.bsX, r, c)
  {
    hide Entries, Sorted, Before, IsSorted, BlockedAt, CsrSum, Sum;
    var tuples := Entries(m, BlockRows(m));
    var entries := Sorted(tuples);
    SortedSorts(tuples);
    SumOfEntries(m, BlockRows(m), r, c);
    NoBlockRow(m, r, c);
    SumSorted(tuples, r, c);
    SumOfCsr(entries, m.rows, r, c, |entries|);
    assert entries[..|entries|] == entries;
    CsrSumNone(Converted(m), r, c, Before(entries, r));
  }

  lemma CsrSumNone(a: CsrMatrix, r: nat, c: nat, k: nat)
    requires k <= |a.colIdx| == |a.vals|
    ensures CsrSum(a, r, c, k, k) == 0.0
  {
  }

  lemma NoBlockRow(m: Blocked, r: nat, c: nat)
    requires Valid(m)
    ensures r / m.bsX >= BlockRows(m) ==> BlockedAt(m, m.bsX, r, c) == 0.0
  {
  }

  /** It is the matrix itself, whose blocks store their rows one after the other, if blocks are square
      or have one row. */
  lemma ConversionKeepsMatrix(m: Blocked, r: nat, c: nat)
    requires Valid(m) && r < m.rows && (m.bsX == m.bsY || m.bsX == 1)
    ensures var a := Converted(m);
            && |a.rowStart| == m.rows + 1 && a.rowStart[r] <= a.rowStart[r + 1] <= |a.colIdx| == |a.vals|
            && CsrSum(a, r, c, a.rowStart[r], a.rowStart[r + 1]) == BlockedAt(m, m.bsY, r, c)
  {
    hide Converted, BlockedSum;
    ConvertedValue(m, r, c);
    if m.bsX == 1 && r / m.bsX < BlockRows(m) {
      assert m.rowStart[r] <= m.rowStart[r + 1] <= Blocks(m);
      OneRowBlocks(m, r, c, m.rowStart[r], m.rowStart[r + 1]);
    }
  }

  lemma {:induction false} OneRowBlocks(m: Blocked, r: nat, c: nat, lo: nat, hi: nat)
    requires Valid(m) && lo <= hi <= Blocks(m) && m.bsX == 1
    ensures BlockedSum(m, m.bsX, r, c, lo, hi) == BlockedSum(m, m.bsY, r, c, lo, hi)
    decreases hi
  {
    hide Valid;
    if hi > lo {
      OneRowBlocks(m, r, c, lo, hi - 1);
      W.TimesOne(m.bsX);
      W.TimesOne(m.bsY);
    }
  }

  // ---------- Block shapes ----------

  /** The last value of a block with more rows than columns is read behind the buffer. */
  lemma ReadBehind(m: Blocked)
    requires Stored(m) && Blocks(m) > 0 && m.bsX > 1 && m.bsX > m.bsY
    ensures Slot(m, m.bsX, Blocks(m) - 1, m.bsX - 1, m.bsY - 1) >= |m.buffer|
  {
    hide W.Times;
    W.TimesAdd(BlockSize(m), Blocks(m) - 1, 1);
    W.TimesOne(BlockSize(m));
    W.TimesMono(m.bsX, m.bsY, m.bsX - 1);
  }

  /** All reads stay inside the buffer exactly if blocks have one row, have no more rows than columns, or there
      are none. */
  lemma ReadsInBounds(m: Blocked)
    requires Stored(m)
    ensures InBounds(m) <==> Valid(m)
  {
    hide Slot, W.Times;
    if Valid(m) {
      forall j: nat, bi: nat, bj: nat | j < Blocks(m) && bi < m.bsX && bj < m.bsY
        ensures Slot(m, m.bsX, j, bi, bj) < |m.buffer| {
        SlotInRange(m, j, bi, bj);
      }
    } else {
      ReadBehind(m);
    }
  }

  /** The conversion gives m's own value at (r, c), blocks storing their rows one after the other. */
  ghost predicate KeepsValue(m: Blocked, r: nat, c: nat)
    requires Valid(m) && r < m.rows
  {
    var a := Converted(m);
    && |a.rowStart| == m.rows + 1 && a.rowStart[r] <= a.rowStart[r + 1] <= |a.colIdx| == |a.vals|
    && CsrSum(a, r, c, a.rowStart[r], a.rowStart[r + 1]) == BlockedAt(m, m.bsY, r, c)
  }

  /** m is read in bounds and converted with all its values. */
  ghost predicate Converts(m: Blocked)
    requires Stored(m)
  {
    InBounds(m) && Valid(m) && forall r: nat, c: nat :: r < m.rows ==> KeepsValue(m, r, c)
  }

  /** A matrix of one block whose values are their places in the buffer. */
  ghost function OneBlock(bsX: nat, bsY: nat): (m: Blocked) {
    Blocked(seq(W.Times(W.Times(bsX, bsY), 1), k requires 0 <= k => k as real), [0, 1], [0], bsX, bsX, bsY)
  }

  lemma OneBlockStored(bsX: nat, bsY: nat)
    requires bsX > 0 && bsY > 0
    ensures Stored(OneBlock(bsX, bsY)) && Blocks(OneBlock(bsX, bsY)) == 1
  {
    hide W.Times;
    W.DivModOf(1, 0, bsX);
  }

  /** With more columns than rows, at least two, that matrix has a wrong value at (1, 0). */
  lemma WrongValue(bsX: nat, bsY: nat)
    requires 1 < bsX < bsY
    ensures Valid(OneBlock(bsX, bsY)) && !KeepsValue(OneBlock(bsX, bsY), 1, 0)
  {
    var m := OneBlock(bsX, bsY);
    OneBlockStored(bsX, bsY);
    TwoReadings(bsX, bsY);
    hide Converted, CsrSum, BlockedAt, W.Times;
    ConvertedValue(m, 1, 0);
  }

  lemma TwoReadings(bsX: nat, bsY: nat)
    requires 1 < bsX < bsY && Stored(OneBlock(bsX, bsY)) && Blocks(OneBlock(bsX, bsY)) == 1
    ensures var m := OneBlock(bsX, bsY); BlockedAt(m, m.bsX, 1, 0) != BlockedAt(m, m.bsY, 1, 0)
  {
    var m := OneBlock(bsX, bsY);
    W.DivModOf(1, 0, bsX);
    W.DivModOf(0, 1, bsX);
    W.DivModOf(0, 0, bsY);
    SlotInRange(m, 0, 1, 0);
    hide W.Times;
    W.TimesOne(BlockSize(m));
    W.TimesOne(bsX);
    W.TimesOne(bsY);
    assert BlockedSum(m, m.bsX, 1, 0, 0, 0) == 0.0 && BlockedSum(m, m.bsY, 1, 0, 0, 0) == 0.0;
    assert BlockedAt(m, m.bsX, 1, 0) == m.buffer[Slot(m, m.bsX, 0, 1, 0)] == bsX as real;
    assert BlockedAt(m, m.bsY, 1, 0) == m.buffer[Slot(m, m.bsY, 0, 1, 0)] == bsY as real;
  }

  /** Every matrix with blocks of a shape is converted correctly exactly if the blocks are square or have one
      row. */
  lemma ShapesConverted(bsX: nat, bsY: nat)
    requires bsX > 0 && bsY > 0
    ensures (forall m: Blocked :: Stored(m) && m.bsX == bsX && m.bsY == bsY ==> Converts(m)) <==> bsX == bsY || bsX == 1
  {
    hide W.Times, Converted, CsrSum, BlockedAt, InBounds, BlockRows;
    if bsX == bsY || bsX == 1 {
      forall m: Blocked | Stored(m) && m.bsX == bsX && m.bsY == bsY ensures Converts(m) {
        ReadsInBounds(m);
        forall r: nat, c: nat | r < m.rows ensures KeepsValue(m, r, c) { ConversionKeepsMatrix(m, r, c); }
      }
    } else {
      OneBlockStored(bsX, bsY);
      ReadsInBounds(OneBlock(bsX, bsY));
      if bsX < bsY { WrongValue(bsX, bsY); }
    }
  }
}
