/** The co-occurrence blocks (lines 198-534): for two families of indicator
    columns, the matrix of how many incidents carry both, the rows whose largest
    count exceeds a threshold, and the ten largest counts. */
module Cooccurrence {
  import opened Cells
  import opened Tables

  /** A cell the encoder wrote: the number 0 or 1. */
  predicate FlagCell(c: Cell) {
    c == Num(0) || c == Num(1)
  }

  predicate FlagColumn(col: seq<Cell>) {
    forall i :: 0 <= i < |col| ==> FlagCell(col[i])
  }

  /** Every listed label is a column of 0/1 cells. */
  predicate FlagColumns(t: Table, names: seq<string>) {
    forall k :: 0 <= k < |names| ==> names[k] in t.cols && FlagColumn(t.cols[names[k]])
  }

  /** `a & b` on two 0/1 cells. */
  function And(a: Cell, b: Cell): nat
    requires FlagCell(a) && FlagCell(b)
  {
    if a == Num(1) && b == Num(1) then 1 else 0
  }

  /** `(a & b).sum()` over the first `n` rows. */
  function AndSum(a: seq<Cell>, b: seq<Cell>, n: nat): (s: nat)
    requires n <= |a| && n <= |b| && FlagColumn(a) && FlagColumn(b)
    ensures s <= n
  {
    if n == 0 then 0 else AndSum(a, b, n - 1) + And(a[n - 1], b[n - 1])
  }

  /** The rows, among the first `n`, where both columns hold 1. */
  function Both(a: seq<Cell>, b: seq<Cell>, n: nat): set<nat>
    requires n <= |a| && n <= |b|
  {
    set i: nat | i < n && a[i] == Num(1) && b[i] == Num(1)
  }

  lemma {:induction false} AndSumCountsBoth(a: seq<Cell>, b: seq<Cell>, n: nat)
    requires n <= |a| && n <= |b| && FlagColumn(a) && FlagColumn(b)
    ensures AndSum(a, b, n) == |Both(a, b, n)|
  {
    if n > 0 {
      AndSumCountsBoth(a, b, n - 1);
      if a[n - 1] == Num(1) && b[n - 1] == Num(1) {
        assert Both(a, b, n) == Both(a, b, n - 1) + {n - 1};
      } else {
        assert Both(a, b, n) == Both(a, b, n - 1);
      }
    }
  }

  lemma {:induction false} AndSumSymmetric(a: seq<Cell>, b: seq<Cell>, n: nat)
    requires n <= |a| && n <= |b| && FlagColumn(a) && FlagColumn(b)
    ensures AndSum(a, b, n) == AndSum(b, a, n)
  {
    if n > 0 {
      AndSumSymmetric(a, b, n - 1);
    }
  }

  /** Line 206: `(df[a] & df[b]).sum()`. */
  function Count(t: Table, a: string, b: string): (c: nat)
    requires t.Valid() && a in t.cols && b in t.cols
    requires FlagColumn(t.cols[a]) && FlagColumn(t.cols[b])
    ensures c <= |t.labels|
  {
    AndSum(t.cols[a], t.cols[b], |t.labels|)
  }

  /** A count is the number of incidents that carry both labels, so it lies
      between 0 and the number of rows, and it does not depend on the order of the
      two labels. */
  lemma CountMeaning(t: Table, a: string, b: string)
    requires t.Valid() && a in t.cols && b in t.cols
    requires FlagColumn(t.cols[a]) && FlagColumn(t.cols[b])
    ensures Count(t, a, b) == |set i: nat | i < |t.labels| && t.cols[a][i] == Num(1) && t.cols[b][i] == Num(1)|
    ensures 0 <= Count(t, a, b) <= |t.labels|
    ensures Count(t, a, b) == Count(t, b, a)
  {
    AndSumCountsBoth(t.cols[a], t.cols[b], |t.labels|);
    AndSumSymmetric(t.cols[a], t.cols[b], |t.labels|);
  }

  /** One row of the occurrence matrix: its label and its counts, one per column. */
  datatype Row = Row(name: string, counts: seq<int>)

  /** `occurrence_matrix`: column labels and rows. */
  datatype Matrix = Matrix(cols: seq<string>, rows: seq<Row>)

  /** Every row has one count per column. */
  predicate Shaped(m: Matrix) {
    forall i :: 0 <= i < |m.rows| ==> |m.rows[i].counts| == |m.cols|
  }

  /** The counts of one row label against every column label. */
  function CountRow(t: Table, a: string, colLabels: seq<string>): (r: Row)
    requires t.Valid() && a in t.cols && FlagColumn(t.cols[a]) && FlagColumns(t, colLabels)
    ensures r.name == a && |r.counts| == |colLabels|
    ensures forall j :: 0 <= j < |colLabels| ==> r.counts[j] == Count(t, a, colLabels[j])
  {
    Row(a, seq(|colLabels|, j requires 0 <= j < |colLabels| => Count(t, a, colLabels[j])))
  }

  /** The occurrence matrix of the row labels against the column labels. */
  function Occurrence(t: Table, rowLabels: seq<string>, colLabels: seq<string>): (m: Matrix)
    requires t.Valid() && FlagColumns(t, rowLabels) && FlagColumns(t, colLabels)
    ensures Shaped(m) && m.cols == colLabels && |m.rows| == |rowLabels|
    ensures forall i :: 0 <= i < |rowLabels| ==> m.rows[i] == CountRow(t, rowLabels[i], colLabels)
  {
    Matrix(colLabels, seq(|rowLabels|, i requires 0 <= i < |rowLabels| => CountRow(t, rowLabels[i], colLabels)))
  }

  /** The matrix built for (B, A), as the block at line 249 does after the one at
      line 200, is the transpose of the one built for (A, B). */
  lemma OccurrenceTranspose(t: Table, rowLabels: seq<string>, colLabels: seq<string>)
    requires t.Valid() && FlagColumns(t, rowLabels) && FlagColumns(t, colLabels)
    ensures forall i, j :: 0 <= i < |rowLabels| && 0 <= j < |colLabels| ==>
      Occurrence(t, colLabels, rowLabels).rows[j].counts[i] == Occurrence(t, rowLabels, colLabels).rows[i].counts[j]
  {
    forall i, j | 0 <= i < |rowLabels| && 0 <= j < |colLabels|
      ensures Occurrence(t, colLabels, rowLabels).rows[j].counts[i] == Occurrence(t, rowLabels, colLabels).rows[i].counts[j]
    {
      CountMeaning(t, rowLabels[i], colLabels[j]);
    }
  }

  /** Lines 204-207 for one row label: every cell of the row written in turn. */
  method FillRow(t: Table, a: string, colLabels: seq<string>, row: Row) returns (r: Row)
    requires t.Valid() && a in t.cols && FlagColumn(t.cols[a]) && FlagColumns(t, colLabels)
    requires row.name == a && |row.counts| == |colLabels|
    ensures r == CountRow(t, a, colLabels)
  {
    r := row;
    for j := 0 to |colLabels|
      invariant r.name == a && |r.counts| == |colLabels|
      invariant forall k :: 0 <= k < j ==> r.counts[k] == Count(t, a, colLabels[k])
    {
      var count := Count(t, a, colLabels[j]);
      r := r.(counts := r.counts[j := count]);
    }
  }

  /** Lines 200-207: a matrix of zeros indexed by the row and column labels, then the count
      of every pair written into its cell. */
  method BuildOccurrence(t: Table, rowLabels: seq<string>, colLabels: seq<string>) returns (m: Matrix)
    requires t.Valid() && FlagColumns(t, rowLabels) && FlagColumns(t, colLabels)
    ensures m == Occurrence(t, rowLabels, colLabels)
  {
    var zeros := seq(|colLabels|, _ => 0);
    m := Matrix(colLabels, seq(|rowLabels|, i requires 0 <= i < |rowLabels| => Row(rowLabels[i], zeros)));
    for i := 0 to |rowLabels|
      invariant m.cols == colLabels && |m.rows| == |rowLabels|
      invariant forall k :: 0 <= k < i ==> m.rows[k] == CountRow(t, rowLabels[k], colLabels)
      invariant forall k :: i <= k < |rowLabels| ==> m.rows[k] == Row(rowLabels[k], zeros)
    {
      var row := FillRow(t, rowLabels[i], colLabels, m.rows[i]);
      m := m.(rows := m.rows[i := row]);
    }
  }

  /** The largest count of a non-empty row: `row.max()`. */
  function Max(counts: seq<int>): (x: int)
    requires counts != []
    ensures forall j :: 0 <= j < |counts| ==> counts[j] <= x
    ensures exists j :: 0 <= j < |counts| && counts[j] == x
  {
    if |counts| == 1 then counts[0]
    else
      var rest := Max(counts[1..]);
      assert forall j :: 1 <= j < |counts| ==> counts[j] == counts[1..][j - 1];
      if counts[0] >= rest then counts[0] else rest
  }

  /** `occurrence_matrix.max(axis=1) > k` for one row: the maximum of a row
      without columns is NaN, which compares false. A row passes exactly when one
      of its counts exceeds the threshold. */
  predicate Keeps(r: Row, k: int)
    ensures Keeps(r, k) <==> exists j :: 0 <= j < |r.counts| && r.counts[j] > k
  {
    r.counts != [] && Max(r.counts) > k
  }

  /** Line 211: the rows that pass the threshold, in order. */
  function Threshold(rows: seq<Row>, k: int): (kept: seq<Row>)
    ensures |kept| <= |rows|
    ensures forall r :: r in kept <==> r in rows && Keeps(r, k)
  {
    if rows == [] then []
    else (if Keeps(rows[0], k) then [rows[0]] else []) + Threshold(rows[1..], k)
  }

  /** The filter keeps the order of the rows: filtering two runs of rows is
      filtering each, one after the other. */
  lemma {:induction false} ThresholdAppend(a: seq<Row>, b: seq<Row>, k: int)
    ensures Threshold(a + b, k) == Threshold(a, k) + Threshold(b, k)
  {
    if a == [] {
      assert a + b == b;
    } else {
      assert (a + b)[0] == a[0];
      assert (a + b)[1..] == a[1..] + b;
      ThresholdAppend(a[1..], b, k);
    }
  }

  /** The thresholded matrix: same columns, only the rows that pass. */
  function Filtered(m: Matrix, k: int): (f: Matrix)
    requires Shaped(m)
    ensures Shaped(f) && f.cols == m.cols
    ensures forall r :: r in f.rows <==> r in m.rows && Keeps(r, k)
  {
    var kept := Threshold(m.rows, k);
    assert forall i :: 0 <= i < |kept| ==> |kept[i].counts| == |m.cols| by {
      forall i | 0 <= i < |kept| ensures |kept[i].counts| == |m.cols| {
        assert kept[i] in m.rows;
      }
    }
    Matrix(m.cols, kept)
  }

  /** One line of `top_occurrences`: row label, column label, count. */
  datatype Entry = Entry(row: string, col: string, count: int)

  /** One row of the matrix, stacked: one entry per column, in column order. */
  function RowEntries(r: Row, cols: seq<string>): (es: seq<Entry>)
    requires |r.counts| == |cols|
    ensures |es| == |cols|
    ensures forall j :: 0 <= j < |cols| ==> es[j] == Entry(r.name, cols[j], r.counts[j])
  {
    seq(|cols|, j requires 0 <= j < |cols| => Entry(r.name, cols[j], r.counts[j]))
  }

  /** `occurrence_matrix.stack().reset_index()` (line 235): the cells row by row. */
  function Stack(rows: seq<Row>, cols: seq<string>): (es: seq<Entry>)
    requires forall i :: 0 <= i < |rows| ==> |rows[i].counts| == |cols|
    ensures |es| == |rows| * |cols|
  {
    if rows == [] then [] else RowEntries(rows[0], cols) + Stack(rows[1..], cols)
  }

  lemma RowMajorBounds(i: nat, j: nat, rows: nat, n: nat)
    requires i < rows && j < n
    ensures i * n + j < rows * n
    ensures i > 0 ==> n + ((i - 1) * n + j) == i * n + j
  {
    assert i * n <= (rows - 1) * n;
  }

  /** The stack is row-major: the entry of cell (i, j) sits at position
      i * |cols| + j. */
  lemma {:induction false} StackIndex(rows: seq<Row>, cols: seq<string>, i: nat, j: nat)
    requires forall i :: 0 <= i < |rows| ==> |rows[i].counts| == |cols|
    requires i < |rows| && j < |cols|
    ensures i * |cols| + j < |Stack(rows, cols)|
    ensures Stack(rows, cols)[i * |cols| + j] == Entry(rows[i].name, cols[j], rows[i].counts[j])
  {
    RowMajorBounds(i, j, |rows|, |cols|);
    if i > 0 {
      StackIndex(rows[1..], cols, i - 1, j);
      assert rows[1..][i - 1] == rows[i];
    }
  }

  /** Every stacked entry is a cell of the matrix. */
  lemma {:induction false} StackMembers(rows: seq<Row>, cols: seq<string>, e: Entry)
    requires forall i :: 0 <= i < |rows| ==> |rows[i].counts| == |cols|
    requires e in Stack(rows, cols)
    ensures exists i, j :: 0 <= i < |rows| && 0 <= j < |cols| && e == Entry(rows[i].name, cols[j], rows[i].counts[j])
  {
    if e in RowEntries(rows[0], cols) {
      var j :| 0 <= j < |cols| && RowEntries(rows[0], cols)[j] == e;
      assert e == Entry(rows[0].name, cols[j], rows[0].counts[j]);
    } else {
      StackMembers(rows[1..], cols, e);
      var i, j :| 0 <= i < |rows| - 1 && 0 <= j < |cols| && e == Entry(rows[1..][i].name, cols[j], rows[1..][i].counts[j]);
      assert rows[1..][i] == rows[i + 1];
    }
  }

  /** Counts never increase along the list. */
  predicate NonIncreasing(es: seq<Entry>) {
    forall i, j :: 0 <= i < j < |es| ==> es[i].count >= es[j].count
  }

  /** `sort_values(by='Count', ascending=False)` (line 239): the same entries,
      largest count first. The sort is not stable, so the order among equal
      counts is left open. */
  predicate IsRanking(es: seq<Entry>, ranked: seq<Entry>) {
    multiset(ranked) == multiset(es) && NonIncreasing(ranked)
  }

  /** `e` placed in a ranked list before the first entry with a smaller count. */
  function Insert(e: Entry, ranked: seq<Entry>): (r: seq<Entry>)
    requires NonIncreasing(ranked)
    ensures multiset(r) == multiset(ranked) + multiset{e}
    ensures NonIncreasing(r)
  {
    if ranked == [] || ranked[0].count <= e.count then [e] + ranked
    else
      var rest := Insert(e, ranked[1..]);
      MultisetCons(ranked);
      assert forall x :: x in rest ==> x.count <= ranked[0].count by {
        forall x | x in rest ensures x.count <= ranked[0].count {
          assert x in multiset(rest);
          if x != e {
            assert x in multiset(ranked[1..]);
          }
        }
      }
      [ranked[0]] + rest
  }

  /** One ranking of the entries: each inserted in turn. */
  function Rank(es: seq<Entry>): (ranked: seq<Entry>)
    ensures IsRanking(es, ranked)
  {
    if es == [] then []
    else
      var rest := Rank(es[..|es| - 1]);
      assert es == es[..|es| - 1] + [es[|es| - 1]];
      Insert(es[|es| - 1], rest)
  }

  lemma MultisetCons<T>(s: seq<T>)
    requires s != []
    ensures multiset(s) == multiset{s[0]} + multiset(s[1..])
  {
    assert s == [s[0]] + s[1..];
  }

  lemma MultisetRemove<T>(s: seq<T>, k: nat)
    requires k < |s|
    ensures multiset(s) == multiset{s[k]} + multiset(s[..k] + s[k + 1..])
  {
    assert s == s[..k] + [s[k]] + s[k + 1..];
  }

  lemma Cancel<T>(x: T, a: multiset<T>, b: multiset<T>)
    requires multiset{x} + a == multiset{x} + b
    ensures a == b
  {
    forall y ensures a[y] == b[y] {
      assert (multiset{x} + a)[y] == (multiset{x} + b)[y];
    }
  }

  /** `f` applied to every element, in order. */
  function Project<T, U>(f: T -> U, xs: seq<T>): (ys: seq<U>)
    ensures |ys| == |xs|
    ensures forall i :: 0 <= i < |xs| ==> ys[i] == f(xs[i])
  {
    seq(|xs|, i requires 0 <= i < |xs| => f(xs[i]))
  }

  /** The multiset of projected values depends only on the multiset of elements. */
  lemma {:induction false} ProjectMultiset<T, U>(f: T -> U, a: seq<T>, b: seq<T>)
    requires multiset(a) == multiset(b)
    ensures multiset(Project(f, a)) == multiset(Project(f, b))
    decreases |a|
  {
    if a != [] {
      assert a[0] in multiset(b);
      var k :| 0 <= k < |b| && b[k] == a[0];
      var rest := b[..k] + b[k + 1..];
      MultisetCons(a);
      MultisetRemove(b, k);
      Cancel(a[0], multiset(a[1..]), multiset(rest));
      ProjectMultiset(f, a[1..], rest);
      var pb := Project(f, b);
      MultisetCons(Project(f, a));
      assert Project(f, a)[1..] == Project(f, a[1..]);
      MultisetRemove(pb, k);
      assert pb[..k] + pb[k + 1..] == Project(f, rest);
    }
  }

  /** The counts of a list, in order. */
  function Counts(es: seq<Entry>): (cs: seq<int>)
    ensures |cs| == |es|
    ensures forall i :: 0 <= i < |es| ==> cs[i] == es[i].count
  {
    Project((e: Entry) => e.count, es)
  }

  /** The first element of a non-increasing list is its largest, so two such
      lists with the same elements start alike. */
  lemma SortedHeads(a: seq<int>, b: seq<int>)
    requires multiset(a) == multiset(b) && a != []
    requires forall i, j :: 0 <= i < j < |a| ==> a[i] >= a[j]
    requires forall i, j :: 0 <= i < j < |b| ==> b[i] >= b[j]
    ensures b != [] && a[0] == b[0]
  {
    assert a[0] in multiset(b);
    var i :| 0 <= i < |b| && b[i] == a[0];
    assert b[0] in multiset(a);
    var j :| 0 <= j < |a| && a[j] == b[0];
    assert a[0] >= a[j] by {
      if j > 0 { assert a[0] >= a[j]; }
    }
    assert b[0] >= b[i] by {
      if i > 0 { assert b[0] >= b[i]; }
    }
  }

  /** A non-increasing list is fixed by its multiset. */
  lemma {:induction false} SortedUnique(a: seq<int>, b: seq<int>)
    requires multiset(a) == multiset(b)
    requires forall i, j :: 0 <= i < j < |a| ==> a[i] >= a[j]
    requires forall i, j :: 0 <= i < j < |b| ==> b[i] >= b[j]
    ensures a == b
    decreases |a|
  {
    if a == [] {
      assert |b| == |multiset(b)| == 0;
    } else {
      SortedHeads(a, b);
      MultisetCons(a);
      MultisetCons(b);
      Cancel(a[0], multiset(a[1..]), multiset(b[1..]));
      SortedUnique(a[1..], b[1..]);
      assert a == [a[0]] + a[1..];
      assert b == [b[0]] + b[1..];
    }
  }

  /** Any two rankings of the same entries list the same counts in the same
      order: only the order among equal counts is open. */
  lemma RankingCounts(es: seq<Entry>, r1: seq<Entry>, r2: seq<Entry>)
    requires IsRanking(es, r1) && IsRanking(es, r2)
    ensures Counts(r1) == Counts(r2)
  {
    ProjectMultiset((e: Entry) => e.count, r1, r2);
    SortedUnique(Counts(r1), Counts(r2));
  }

  /** `head(10)` (line 242): the first ten entries, or all of them. */
  function Head(ranked: seq<Entry>, n: nat): (top: seq<Entry>)
    ensures |top| == if |ranked| < n then |ranked| else n
    ensures top <= ranked
  {
    if |ranked| < n then ranked else ranked[..n]
  }

  lemma MultisetSplit<T>(s: seq<T>, k: nat)
    requires k <= |s|
    ensures multiset(s[..k]) <= multiset(s)
    ensures multiset(s) - multiset(s[..k]) == multiset(s[k..])
  {
    assert s == s[..k] + s[k..];
  }

  /** The head of a ranking holds entries of the input, and nothing it leaves out
      has a larger count than anything it keeps. */
  lemma HeadIsLargest(es: seq<Entry>, ranked: seq<Entry>, n: nat)
    requires IsRanking(es, ranked)
    ensures var top := Head(ranked, n);
      && multiset(top) <= multiset(es)
      && forall e, i :: e in multiset(es) - multiset(top) && 0 <= i < |top| ==> e.count <= top[i].count
  {
    var top := Head(ranked, n);
    MultisetSplit(ranked, |top|);
    assert top == ranked[..|top|];
    forall e: Entry, i | e in multiset(ranked[|top|..]) && 0 <= i < |top| ensures e.count <= top[i].count {
      var j :| |top| <= j < |ranked| && ranked[j] == e;
    }
  }

  /** Lines 200-242 with one ranking: the top ten (row, column, count) entries
      of the thresholded matrix. */
  function TopOccurrences(t: Table, rowLabels: seq<string>, colLabels: seq<string>, k: int): (top: seq<Entry>)
    requires t.Valid() && FlagColumns(t, rowLabels) && FlagColumns(t, colLabels)
    ensures |top| <= 10
  {
    var m := Filtered(Occurrence(t, rowLabels, colLabels), k);
    Head(Rank(Stack(m.rows, m.cols)), 10)
  }

  /** A row that passes the threshold is the count row of one of the row
      labels, and one of its counts exceeds the threshold. */
  lemma KeptRowSound(t: Table, rowLabels: seq<string>, colLabels: seq<string>, k: int, r: Row)
    requires t.Valid() && FlagColumns(t, rowLabels) && FlagColumns(t, colLabels)
    requires r in Filtered(Occurrence(t, rowLabels, colLabels), k).rows
    ensures r.name in rowLabels && r.name in t.cols && FlagColumn(t.cols[r.name])
    ensures r == CountRow(t, r.name, colLabels)
    ensures exists j :: 0 <= j < |colLabels| && Count(t, r.name, colLabels[j]) > k
  {
    var full := Occurrence(t, rowLabels, colLabels);
    assert r in full.rows && Keeps(r, k);
    var i :| 0 <= i < |rowLabels| && full.rows[i] == r;
    assert r == CountRow(t, rowLabels[i], colLabels);
    var j :| 0 <= j < |r.counts| && r.counts[j] > k;
    assert Count(t, r.name, colLabels[j]) > k;
  }

  /** Every reported entry is a real pair: a row label that passes the threshold,
      a column label, and their count. */
  lemma TopOccurrencesSound(t: Table, rowLabels: seq<string>, colLabels: seq<string>, k: int, e: Entry)
    requires t.Valid() && FlagColumns(t, rowLabels) && FlagColumns(t, colLabels)
    requires e in TopOccurrences(t, rowLabels, colLabels, k)
    ensures e.row in rowLabels && e.col in colLabels && e.col in t.cols && e.row in t.cols
    ensures e.count == Count(t, e.row, e.col)
    ensures exists j :: 0 <= j < |colLabels| && Count(t, e.row, colLabels[j]) > k
  {
    var m := Filtered(Occurrence(t, rowLabels, colLabels), k);
    var stacked := Stack(m.rows, m.cols);
    assert e in multiset(Rank(stacked));
    StackMembers(m.rows, m.cols, e);
    var i, j :| 0 <= i < |m.rows| && 0 <= j < |colLabels| && e == Entry(m.rows[i].name, colLabels[j], m.rows[i].counts[j]);
    KeptRowSound(t, rowLabels, colLabels, k, m.rows[i]);
  }

  /** One heatmap block: the row family, the column family and the threshold. */
  datatype Study = Study(rowPrefix: string, colPrefix: string, threshold: int)

  /** The seven blocks of lines 198-533, in order. */
  const Studies: seq<Study> := [
    Study("tech", "issue", 80),
    Study("issue", "tech", 30),
    Study("tech", "sector", 30),
    Study("sector", "issue", 30),
    Study("transp", "issue", 30),
    Study("issue", "transp", 30),
    Study("sector", "transp", 30)
  ]

  /** One block: the two families selected by prefix (lines 192-195), then the
      matrix, the threshold and the top ten. */
  function StudyReport(t: Table, s: Study): (top: seq<Entry>)
    requires t.Valid()
    requires FlagColumns(t, ColumnsWithPrefix(t.names, s.rowPrefix + "_"))
    requires FlagColumns(t, ColumnsWithPrefix(t.names, s.colPrefix + "_"))
    ensures |top| <= 10
    ensures forall e :: e in top ==>
      && s.rowPrefix + "_" <= e.row && s.colPrefix + "_" <= e.col && e.row in t.cols && e.col in t.cols
      && e.count == Count(t, e.row, e.col)
  {
    var rowLabels := ColumnsWithPrefix(t.names, s.rowPrefix + "_");
    var colLabels := ColumnsWithPrefix(t.names, s.colPrefix + "_");
    var top := TopOccurrences(t, rowLabels, colLabels, s.threshold);
    assert forall e :: e in top ==>
      && e.row in rowLabels && e.col in colLabels && e.row in t.cols && e.col in t.cols
      && e.count == Count(t, e.row, e.col) by {
      forall e | e in top
        ensures e.row in rowLabels && e.col in colLabels && e.row in t.cols && e.col in t.cols
        ensures e.count == Count(t, e.row, e.col)
      {
        TopOccurrencesSound(t, rowLabels, colLabels, s.threshold, e);
      }
    }
    top
  }

  /** The second block (lines 249-256) counts the pairs of the first block (lines
      200-207) with the families swapped: its matrix is the transpose of the first. */
  lemma StudiesTransposed(t: Table)
    requires t.Valid()
    requires FlagColumns(t, ColumnsWithPrefix(t.names, "tech_")) && FlagColumns(t, ColumnsWithPrefix(t.names, "issue_"))
    ensures Studies[1].rowPrefix == Studies[0].colPrefix && Studies[1].colPrefix == Studies[0].rowPrefix
    ensures var tech := ColumnsWithPrefix(t.names, "tech_");
      var issue := ColumnsWithPrefix(t.names, "issue_");
      forall i, j :: 0 <= i < |tech| && 0 <= j < |issue| ==>
        Occurrence(t, issue, tech).rows[j].counts[i] == Occurrence(t, tech, issue).rows[i].counts[j]
  {
    OccurrenceTranspose(t, ColumnsWithPrefix(t.names, "tech_"), ColumnsWithPrefix(t.names, "issue_"));
  }
}
