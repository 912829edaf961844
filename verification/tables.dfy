/** The pandas DataFrame operations the pipeline relies on: column assignment,
    column drop, the column-wise outer-join concatenation and prefix selection. */
module Tables {
  import opened Cells
  import opened Tokenizer

  /** A DataFrame as a value: its row labels, its column labels in order, and the
      cells of each column, one per row. */
  datatype Table = Table(labels: seq<int>, names: seq<string>, cols: map<string, seq<Cell>>)
  {
    ghost predicate Valid() {
      && Distinct(labels)
      && Distinct(names)
      && (forall x :: x in cols <==> x in names)
      && (forall x :: x in cols ==> |cols[x]| == |labels|)
    }
  }

  /** `xs` without the elements of `ds`, in order. */
  function Without<T(==,!new)>(xs: seq<T>, ds: set<T>): (r: seq<T>)
    ensures forall x :: x in r <==> x in xs && x !in ds
    ensures |r| <= |xs|
    ensures Distinct(xs) ==> Distinct(r)
  {
    if xs == [] then []
    else
      var rest := Without(xs[1..], ds);
      if xs[0] in ds then rest
      else
        assert xs[0] !in xs[1..] ==> xs[0] !in rest;
        [xs[0]] + rest
  }

  /** Keeping nothing out keeps everything. */
  lemma {:induction false} WithoutOwn<T(!new)>(xs: seq<T>, ds: set<T>)
    requires forall x :: x in xs ==> x in ds
    ensures Without(xs, ds) == []
  {
    if xs != [] {
      WithoutOwn(xs[1..], ds);
    }
  }

  /** `df[name] = col`: an existing column is overwritten where it stands, a new one
      goes last. */
  function SetColumn(t: Table, name: string, col: seq<Cell>): (r: Table)
    requires t.Valid() && |col| == |t.labels|
    ensures r.Valid()
    ensures r.labels == t.labels
    ensures forall x :: x in r.cols <==> x in t.cols || x == name
    ensures r.cols[name] == col
    ensures forall x :: x in t.cols && x != name ==> r.cols[x] == t.cols[x]
  {
    Table(t.labels, if name in t.cols then t.names else t.names + [name], t.cols[name := col])
  }

  /** `df.drop(columns=ds)`: the columns of `ds` removed, the others in order. */
  function DropColumns(t: Table, ds: set<string>): (r: Table)
    requires t.Valid()
    ensures r.Valid()
    ensures r.labels == t.labels
    ensures forall x :: x in r.cols <==> x in t.cols && x !in ds
    ensures forall x :: x in r.cols ==> r.cols[x] == t.cols[x]
  {
    Table(t.labels, Without(t.names, ds), t.cols - ds)
  }

  /** `col.str.lstrip()` on every cell of a column. */
  function LStripAll(col: seq<Cell>): (r: seq<Cell>)
    ensures |r| == |col|
    ensures forall i :: 0 <= i < |col| ==> r[i] == LStripCell(col[i])
  {
    seq(|col|, i requires 0 <= i < |col| => LStripCell(col[i]))
  }

  /** Whether `col.str` raises `AttributeError`. A column read from a file that has
      rows but no text in them is numeric (float when all missing), and only a
      column of text, possibly mixed with other values, has a `.str` accessor. */
  predicate NoStrAccessor(col: seq<Cell>) {
    |col| > 0 && forall i :: 0 <= i < |col| ==> !col[i].Str?
  }

  /** The table after line 24: the named column left-stripped, nothing else changed. */
  function LStripColumn(t: Table, name: string): (r: Table)
    requires t.Valid() && name in t.cols
    ensures r.Valid()
    ensures r.labels == t.labels && r.names == t.names && r.cols.Keys == t.cols.Keys
    ensures r.cols[name] == LStripAll(t.cols[name])
    ensures forall x :: x in t.cols && x != name ==> r.cols[x] == t.cols[x]
  {
    SetColumn(t, name, LStripAll(t.cols[name]))
  }

  /** The position of a label. */
  function IndexOf(xs: seq<int>, lab: int): (k: nat)
    requires lab in xs
    ensures k < |xs| && xs[k] == lab
    ensures forall j :: 0 <= j < k ==> xs[j] != lab
  {
    if xs[0] == lab then 0 else 1 + IndexOf(xs[1..], lab)
  }

  lemma IndexOfDistinct(xs: seq<int>, k: nat)
    requires Distinct(xs) && k < |xs|
    ensures IndexOf(xs, xs[k]) == k
  {
  }

  /** Column `x` of `t` laid out on the given row labels: a label that `t` has
      brings its cell, any other label gets a missing value (what `concat` fills). */
  function Reindex(t: Table, x: string, labels: seq<int>): (col: seq<Cell>)
    requires t.Valid() && x in t.cols
    ensures |col| == |labels|
    ensures forall i :: 0 <= i < |labels| && labels[i] !in t.labels ==> col[i] == Missing
    ensures forall i :: 0 <= i < |labels| && labels[i] in t.labels ==>
      col[i] == t.cols[x][IndexOf(t.labels, labels[i])]
  {
    seq(|labels|, i requires 0 <= i < |labels| =>
      if labels[i] in t.labels then t.cols[x][IndexOf(t.labels, labels[i])] else Missing)
  }

  /** Two lists without repeats and without common elements make one list
      without repeats. */
  lemma DistinctAppend<T>(a: seq<T>, b: seq<T>)
    requires Distinct(a) && Distinct(b)
    requires forall x :: x in b ==> x !in a
    ensures Distinct(a + b)
  {
    var ab := a + b;
    forall i, j | 0 <= i < j < |ab| ensures ab[i] != ab[j] {
      if j < |a| {
        assert ab[i] == a[i] && ab[j] == a[j];
      } else if i < |a| {
        assert ab[i] == a[i] && ab[j] == b[j - |a|];
        assert b[j - |a|] in b;
      } else {
        assert ab[i] == b[i - |a|] && ab[j] == b[j - |a|];
      }
    }
  }

  /** `pd.concat([left, right], axis=1)`: the columns of both side by side, rows
      matched by label (an outer join: the labels of `left`, then those only `right` has). */
  function Concat(left: Table, right: Table): (r: Table)
    requires left.Valid() && right.Valid()
    requires forall x :: x in left.cols ==> x !in right.cols
    ensures r.Valid()
    ensures r.labels == left.labels + Without(right.labels, set l | l in left.labels)
    ensures r.names == left.names + right.names
    ensures forall x :: x in r.cols <==> x in left.cols || x in right.cols
    ensures forall x :: x in left.cols ==> r.cols[x] == Reindex(left, x, r.labels)
    ensures forall x :: x in right.cols ==> r.cols[x] == Reindex(right, x, r.labels)
  {
    var extra := Without(right.labels, set l | l in left.labels);
    var labels := left.labels + extra;
    DistinctAppend(left.labels, extra);
    var cols := map x | x in left.cols.Keys + right.cols.Keys ::
      if x in left.cols then Reindex(left, x, labels) else Reindex(right, x, labels);
    var names := left.names + right.names;
    DistinctAppend(left.names, right.names);
    Table(labels, names, cols)
  }

  /** Laying a column out on its own labels gives it back unchanged. */
  lemma ReindexSame(t: Table, x: string)
    requires t.Valid() && x in t.cols
    ensures Reindex(t, x, t.labels) == t.cols[x]
  {
    var col := Reindex(t, x, t.labels);
    forall k | 0 <= k < |t.labels| ensures col[k] == t.cols[x][k] {
      IndexOfDistinct(t.labels, k);
    }
  }

  /** When both sides carry the same row labels, `concat` lines the rows up one to
      one: the result has those labels, and every column keeps its cells in order. */
  lemma ConcatAligned(left: Table, right: Table)
    requires left.Valid() && right.Valid()
    requires forall x :: x in left.cols ==> x !in right.cols
    requires right.labels == left.labels
    ensures var r := Concat(left, right);
      && r.labels == left.labels
      && (forall x :: x in left.cols ==> r.cols[x] == left.cols[x])
      && (forall x :: x in right.cols ==> r.cols[x] == right.cols[x])
  {
    var r := Concat(left, right);
    WithoutOwn(right.labels, set l | l in left.labels);
    assert r.labels == left.labels;
    forall x | x in left.cols ensures r.cols[x] == left.cols[x] {
      ReindexSame(left, x);
    }
    forall x | x in right.cols ensures r.cols[x] == right.cols[x] {
      ReindexSame(right, x);
    }
  }

  /** A side with neither rows nor columns (an empty encoded block) adds nothing. */
  lemma ConcatNothing(left: Table, right: Table)
    requires left.Valid() && right.Valid()
    requires right.labels == [] && right.cols == map[]
    ensures Concat(left, right) == left
  {
    var r := Concat(left, right);
    FirstIsMember(right.names);
    assert r.labels == left.labels by {
      assert Without(right.labels, set l | l in left.labels) == [];
      assert left.labels + [] == left.labels;
    }
    assert r.names == left.names;
    assert r.cols.Keys == left.cols.Keys;
    forall x | x in left.cols ensures r.cols[x] == left.cols[x] {
      ReindexSame(left, x);
    }
    assert r.cols == left.cols;
  }

  lemma ReindexDroppedRight(right: Table, x: string)
    requires right.Valid() && x in right.cols && right.labels == [0, 1]
    ensures Reindex(right, x, [0, 2, 1]) == [right.cols[x][0], Missing, right.cols[x][1]]
  {
    assert IndexOf(right.labels, 0) == 0 && IndexOf(right.labels, 1) == 1;
    assert 2 !in right.labels;
  }

  lemma ReindexDroppedLeft(left: Table, x: string)
    requires left.Valid() && x in left.cols && left.labels == [0, 2]
    ensures Reindex(left, x, [0, 2, 1]) == [left.cols[x][0], left.cols[x][1], Missing]
  {
    assert IndexOf(left.labels, 0) == 0 && IndexOf(left.labels, 2) == 1;
    assert 1 !in left.labels;
  }

  lemma DroppedLabels(left: seq<int>, right: seq<int>)
    requires left == [0, 2] && right == [0, 1]
    ensures left + Without(right, set l | l in left) == [0, 2, 1]
  {
    var seen := set l | l in left;
    assert seen == {0, 2};
    assert right[1..] == [1];
    assert Without([1], seen) == [1];
  }

  /** When a row was dropped before the encoded block was built (labels 0 and 2 on
      the left, 0 and 1 on the right), `concat` does not line the rows up: the
      result has three rows, the second record's flags land on a row of their own
      (label 1) whose other cells are missing, and the record labelled 2 gets
      missing flags. */
  lemma DroppedRowMisaligns(left: Table, right: Table)
    requires left.Valid() && right.Valid()
    requires forall x :: x in left.cols ==> x !in right.cols
    requires left.labels == [0, 2] && right.labels == [0, 1]
    ensures var r := Concat(left, right);
      && r.labels == [0, 2, 1]
      && (forall x :: x in right.cols ==> r.cols[x] == [right.cols[x][0], Missing, right.cols[x][1]])
      && (forall x :: x in left.cols ==> r.cols[x] == [left.cols[x][0], left.cols[x][1], Missing])
  {
    DroppedLabels(left.labels, right.labels);
    forall x | x in right.cols {
      ReindexDroppedRight(right, x);
    }
    forall x | x in left.cols {
      ReindexDroppedLeft(left, x);
    }
  }

  /** The columns whose label starts with `prefix`, in table order
      (`[col for col in df.columns if col.startswith(prefix)]`). */
  function ColumnsWithPrefix(names: seq<string>, prefix: string): (r: seq<string>)
    ensures forall x :: x in r <==> x in names && prefix <= x
    ensures |r| <= |names|
    ensures Distinct(names) ==> Distinct(r)
  {
    if names == [] then []
    else
      var rest := ColumnsWithPrefix(names[1..], prefix);
      if prefix <= names[0] then
        assert names[0] !in names[1..] ==> names[0] !in rest;
        [names[0]] + rest
      else rest
  }

  /** Selection keeps table order: selecting from two runs of columns is selecting
      from each, one after the other. */
  lemma {:induction false} ColumnsWithPrefixAppend(a: seq<string>, b: seq<string>, prefix: string)
    ensures ColumnsWithPrefix(a + b, prefix) == ColumnsWithPrefix(a, prefix) + ColumnsWithPrefix(b, prefix)
  {
    if a == [] {
      assert a + b == b;
    } else {
      assert (a + b)[0] == a[0];
      assert (a + b)[1..] == a[1..] + b;
      ColumnsWithPrefixAppend(a[1..], b, prefix);
    }
  }

  /** Selecting from columns that all carry the prefix keeps them all, in order;
      selecting from columns that none carries gives nothing. */
  lemma {:induction false} ColumnsWithPrefixAll(names: seq<string>, prefix: string)
    requires forall k :: 0 <= k < |names| ==> prefix <= names[k]
    ensures ColumnsWithPrefix(names, prefix) == names
  {
    if names != [] {
      ColumnsWithPrefixAll(names[1..], prefix);
      assert [names[0]] + names[1..] == names;
    }
  }

  lemma ColumnsWithPrefixNone(names: seq<string>, prefix: string)
    requires forall k :: 0 <= k < |names| ==> !(prefix <= names[k])
    ensures ColumnsWithPrefix(names, prefix) == []
  {
    FirstIsMember(ColumnsWithPrefix(names, prefix));
  }

  /** A DataFrame the pipeline updates in place: `preprocess_column` overwrites the
      raw column of the table it is given (line 24). */
  class Frame {
    var labels: seq<int>
    var names: seq<string>
    var cols: map<string, seq<Cell>>

    function Value(): Table
      reads this
    {
      Table(labels, names, cols)
    }

    ghost predicate Valid()
      reads this
    {
      Value().Valid()
    }

    constructor (t: Table)
      requires t.Valid()
      ensures Valid() && Value() == t
    {
      labels, names, cols := t.labels, t.names, t.cols;
    }

    /** `df[name] = df[name].str.lstrip()`: a missing column raises `KeyError`, a
        column without text raises `AttributeError`, and either leaves the frame as
        it was. */
    method LStripInPlace(name: string) returns (r: Result<()>)
      requires Valid()
      modifies this
      ensures Valid()
      ensures name !in old(cols) ==> r == Err(KeyError(name)) && Value() == old(Value())
      ensures name in old(cols) && NoStrAccessor(old(cols[name])) ==>
        r == Err(AttributeError(name)) && Value() == old(Value())
      ensures name in old(cols) && !NoStrAccessor(old(cols[name])) ==>
        r == Ok(()) && Value() == LStripColumn(old(Value()), name)
    {
      if name !in cols {
        return Err(KeyError(name));
      }
      if NoStrAccessor(cols[name]) {
        return Err(AttributeError(name));
      }
      cols := cols[name := LStripAll(cols[name])];
      r := Ok(());
    }
  }
}
