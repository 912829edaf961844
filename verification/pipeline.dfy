/** `preprocess_column` (lines 22-48) as a whole: left-strip the raw column,
    encode it, merge the indicator columns, and put them beside the other columns. */
module Pipeline {
  import opened Cells
  import opened Tokenizer
  import opened Tables
  import opened Encoding
  import opened Merging

  /** A list of flags as table cells. */
  function NumColumn(xs: seq<int>): (col: seq<Cell>)
    ensures |col| == |xs|
    ensures forall i :: 0 <= i < |xs| ==> col[i] == Num(xs[i])
  {
    seq(|xs|, i requires 0 <= i < |xs| => Num(xs[i]))
  }

  lemma RangeDistinct(n: nat)
    ensures Distinct(Range(n))
  {
  }

  /** The encoded block as a table: it is built from a dict of lists, so its rows
      are labelled 0, 1, ..., rows - 1. */
  function BlockTable(b: Block): (t: Table)
    requires b.Valid()
    ensures t.Valid()
    ensures t.labels == Range(b.rows) && t.names == b.names
    ensures forall x :: x in t.cols <==> x in b.cols
    ensures forall x :: x in b.cols ==> t.cols[x] == NumColumn(b.cols[x])
  {
    RangeDistinct(b.rows);
    Table(Range(b.rows), b.names, map x | x in b.cols :: NumColumn(b.cols[x]))
  }

  /** No column of the table can meet an encoded column: none starts with
      `prefix_` and none is a canonical name of the merge table. Column labels are
      unique here, so a clash could not be represented. */
  predicate NoClash(t: Table, prefix: string, gs: seq<MergeGroup>) {
    forall x :: x in t.cols ==>
      && !(prefix + "_" <= x)
      && forall k :: 0 <= k < |gs| ==> gs[k].canonical != x
  }

  /** `order` lists the vocabulary of the left-stripped raw column, each token
      once: the order in which the set is iterated. */
  predicate IsVocabularyOrder(t: Table, column: string, order: seq<string>)
    requires t.Valid() && column in t.cols
  {
    Distinct(order) && (set x | x in order) == Vocabulary(LStripAll(t.cols[column]))
  }

  /** Lines 24-43: the encoded block after the merge table, or the error that
      stopped it. Line 24 raises first: `KeyError` for a missing raw column,
      `AttributeError` for one without text. */
  function MergedBlock(t: Table, column: string, prefix: string, gs: seq<MergeGroup>, order: seq<string>): (r: Result<Block>)
    requires t.Valid() && WellFormed(gs)
    requires column in t.cols ==> IsVocabularyOrder(t, column, order)
    ensures column !in t.cols ==> r == Err(KeyError(column))
    ensures column in t.cols && NoStrAccessor(t.cols[column]) ==> r == Err(AttributeError(column))
    ensures r.Ok? ==> r.value.Valid()
  {
    if column !in t.cols then Err(KeyError(column))
    else if NoStrAccessor(t.cols[column]) then Err(AttributeError(column))
    else ApplyMerges(EncodedBlock(LStripAll(t.cols[column]), prefix, order), gs)
  }

  /** A merged column is an indicator of the family or one of the canonical names. */
  lemma MergedNames(t: Table, column: string, prefix: string, gs: seq<MergeGroup>, order: seq<string>, x: string)
    requires t.Valid() && WellFormed(gs) && column in t.cols && IsVocabularyOrder(t, column, order)
    requires MergedBlock(t, column, prefix, gs, order).Ok?
    requires x in MergedBlock(t, column, prefix, gs, order).value.cols
    ensures prefix + "_" <= x || exists k :: 0 <= k < |gs| && gs[k].canonical == x
  {
    var b := EncodedBlock(LStripAll(t.cols[column]), prefix, order);
    ApplyMergesKeys(b, gs);
    KeysAfterOnlyAddCanonicals(b.cols.Keys, gs, x);
  }

  /** `preprocess_column(df, column, prefix, gs)` on values: the other columns of
      the left-stripped table, then the merged block, joined on row labels. */
  function Preprocess(t: Table, column: string, prefix: string, gs: seq<MergeGroup>, order: seq<string>): (r: Result<Table>)
    requires t.Valid() && WellFormed(gs) && NoClash(t, prefix, gs)
    requires column in t.cols ==> IsVocabularyOrder(t, column, order)
    ensures r.Err? <==> MergedBlock(t, column, prefix, gs, order).Err?
    ensures r.Err? ==> r.error == MergedBlock(t, column, prefix, gs, order).error
    ensures r.Ok? ==> r.value.Valid()
  {
    match MergedBlock(t, column, prefix, gs, order)
    case Err(e) => Err(e)
    case Ok(merged) =>
      var rest := DropColumns(LStripColumn(t, column), {column});
      assert forall x :: x in rest.cols ==> x !in merged.cols by {
        forall x | x in rest.cols && x in merged.cols ensures false {
          MergedNames(t, column, prefix, gs, order, x);
        }
      }
      Ok(Concat(rest, BlockTable(merged)))
  }

  /** A successful run is the concatenation of the other columns with the merged block. */
  lemma PreprocessOk(t: Table, column: string, prefix: string, gs: seq<MergeGroup>, order: seq<string>)
    requires t.Valid() && WellFormed(gs) && NoClash(t, prefix, gs)
    requires column in t.cols && IsVocabularyOrder(t, column, order)
    requires Preprocess(t, column, prefix, gs, order).Ok?
    ensures MergedBlock(t, column, prefix, gs, order).Ok?
    ensures var merged := MergedBlock(t, column, prefix, gs, order).value;
      && (forall x :: x in merged.cols ==> x !in t.cols)
      && Preprocess(t, column, prefix, gs, order).value ==
         Concat(DropColumns(LStripColumn(t, column), {column}), BlockTable(merged))
  {
    var merged := MergedBlock(t, column, prefix, gs, order).value;
    forall x | x in merged.cols ensures x !in t.cols {
      MergedNames(t, column, prefix, gs, order, x);
    }
  }

  /** The raw column is gone, every other column is kept, and every added column
      is an indicator of the family or a canonical name of the merge table. */
  lemma PreprocessColumns(t: Table, column: string, prefix: string, gs: seq<MergeGroup>, order: seq<string>)
    requires t.Valid() && WellFormed(gs) && NoClash(t, prefix, gs)
    requires column in t.cols && IsVocabularyOrder(t, column, order)
    requires Preprocess(t, column, prefix, gs, order).Ok?
    ensures var r := Preprocess(t, column, prefix, gs, order).value;
      && column !in r.cols
      && (forall x :: x in t.cols && x != column ==> x in r.cols)
      && (forall x :: x in r.cols && x !in t.cols ==>
            prefix + "_" <= x || exists k :: 0 <= k < |gs| && gs[k].canonical == x)
  {
    PreprocessOk(t, column, prefix, gs, order);
    var merged := MergedBlock(t, column, prefix, gs, order).value;
    forall x | x in merged.cols
      ensures prefix + "_" <= x || exists k :: 0 <= k < |gs| && gs[k].canonical == x
    {
      MergedNames(t, column, prefix, gs, order, x);
    }
  }

  /** Before merging, the column `prefix_t` stands for the token `t` alone. */
  function InitialMeaning(prefix: string, vocab: set<string>): (m: Meaning)
    ensures m.Keys == IndicatorNames(prefix, vocab)
    ensures forall t :: t in vocab ==> m[IndicatorName(prefix, t)] == {t}
  {
    map x | x in IndicatorNames(prefix, vocab) :: {TokenOf(prefix, x)}
  }

  /** One cell of the encoded block: 1 exactly when the row has the column's token. */
  lemma EncodedCell(cells: seq<Cell>, prefix: string, order: seq<string>, x: string, i: nat)
    requires RawColumn(cells) && Distinct(order)
    requires x in EncodedBlock(cells, prefix, order).cols && i < |cells|
    ensures x in InitialMeaning(prefix, set t | t in order)
    ensures EncodedBlock(cells, prefix, order).cols[x][i] == 1 <==>
            Mentions(TokenSet(cells[i]), InitialMeaning(prefix, set t | t in order)[x])
  {
    var t :| t in order && x == IndicatorName(prefix, t);
    assert InitialMeaning(prefix, set t | t in order)[x] == {t};
  }

  /** The encoded block is the indicator table of the vocabulary: column
      `prefix_t` is 1 in a row exactly when the row's cell has the token `t`. */
  lemma EncodedIndicates(cells: seq<Cell>, prefix: string, order: seq<string>)
    requires RawColumn(cells) && Distinct(order)
    ensures Indicates(EncodedBlock(cells, prefix, order), InitialMeaning(prefix, set t | t in order), RowTokens(cells))
  {
    var b := EncodedBlock(cells, prefix, order);
    var m := InitialMeaning(prefix, set t | t in order);
    var rows := RowTokens(cells);
    assert b.cols.Keys == m.Keys;
    assert BlockFlags(b) by {
      forall x | x in b.cols ensures AllFlags(b.cols[x]) {
        var t :| t in order && x == IndicatorName(prefix, t);
      }
    }
    forall x, i | x in b.cols && 0 <= i < b.rows
      ensures b.cols[x][i] == 1 <==> Mentions(rows[i], m[x])
    {
      EncodedCell(cells, prefix, order, x, i);
    }
  }

  /** Left-stripping a text-or-missing column leaves its vocabulary unchanged. */
  lemma VocabularyLStrip(cells: seq<Cell>)
    requires RawColumn(cells)
    ensures Vocabulary(LStripAll(cells)) == Vocabulary(cells)
  {
    var stripped := LStripAll(cells);
    forall i | 0 <= i < |cells| ensures RowTokens(stripped)[i] == RowTokens(cells)[i] {
      TokenizeIgnoresLStrip(cells[i]);
    }
    assert RowTokens(stripped) == RowTokens(cells);
  }

  /** A block without columns survives only the empty merge table: the first
      group's first source is absent (every group selects at least one). */
  lemma MergesOfEmpty(b: Block, gs: seq<MergeGroup>)
    requires b.Valid() && WellFormed(gs) && b.cols == map[]
    ensures ApplyMerges(b, gs) == if gs == [] then Ok(b) else Err(KeyError(gs[0].sources[0]))
  {
    if gs != [] {
      assert gs[0].sources[0] !in b.cols;
    }
  }

  /** Left-stripping a text-or-missing column leaves every row's tokens unchanged. */
  lemma RowTokensLStrip(cells: seq<Cell>)
    requires RawColumn(cells)
    ensures RowTokens(LStripAll(cells)) == RowTokens(cells)
  {
    forall i | 0 <= i < |cells| ensures RowTokens(LStripAll(cells))[i] == RowTokens(cells)[i] {
      TokenizeIgnoresLStrip(cells[i]);
    }
  }

  /** The merged block is the indicator table, over the left-stripped column's
      rows, of the meaning the merge table gives the vocabulary's indicator columns. */
  lemma MergedIndicates(t: Table, column: string, prefix: string, gs: seq<MergeGroup>, order: seq<string>)
    requires t.Valid() && WellFormed(gs) && column in t.cols && IsVocabularyOrder(t, column, order)
    requires MergedBlock(t, column, prefix, gs, order).Ok?
    ensures Indicates(MergedBlock(t, column, prefix, gs, order).value,
                      MergedMeaning(InitialMeaning(prefix, Vocabulary(LStripAll(t.cols[column]))), gs),
                      RowTokens(LStripAll(t.cols[column])))
  {
    var cells := LStripAll(t.cols[column]);
    EncodedIndicates(cells, prefix, order);
    MergesSimulate(EncodedBlock(cells, prefix, order), InitialMeaning(prefix, Vocabulary(cells)), RowTokens(cells), gs);
  }

  /** With rows labelled 0..n-1 the outer join lines the blocks up: the result has
      the table's rows, keeps its other columns, and holds every merged column,
      whose length is then the table's. */
  lemma PreprocessShape(t: Table, column: string, prefix: string, gs: seq<MergeGroup>, order: seq<string>)
    requires t.Valid() && WellFormed(gs) && NoClash(t, prefix, gs)
    requires column in t.cols && IsVocabularyOrder(t, column, order) && t.labels == Range(|t.labels|)
    requires Preprocess(t, column, prefix, gs, order).Ok?
    ensures var r := Preprocess(t, column, prefix, gs, order).value;
      var merged := MergedBlock(t, column, prefix, gs, order).value;
      && r.labels == t.labels
      && (forall x :: x in t.cols && x != column ==> x in r.cols && r.cols[x] == t.cols[x])
      && (forall x :: x in r.cols && x !in t.cols ==>
            x in merged.cols && merged.rows == |t.labels| && r.cols[x] == NumColumn(merged.cols[x]))
  {
    var n := |t.labels|;
    var cells := LStripAll(t.cols[column]);
    var b0 := EncodedBlock(cells, prefix, order);
    var merged := MergedBlock(t, column, prefix, gs, order).value;
    PreprocessOk(t, column, prefix, gs, order);
    var rest := DropColumns(LStripColumn(t, column), {column});
    var bt := BlockTable(merged);
    if merged.rows == n {
      ConcatAligned(rest, bt);
    } else {
      assert order == [];
      MergesOfEmpty(b0, gs);
      FirstIsMember(bt.names);
      ConcatNothing(rest, bt);
    }
  }

  /** A cell of an indicator table, read back as a number. */
  lemma IndicatorCell(b: Block, m: Meaning, rows: seq<set<string>>, x: string, i: nat)
    requires Indicates(b, m, rows) && x in b.cols && i < b.rows
    ensures NumColumn(b.cols[x])[i] == if Mentions(rows[i], m[x]) then Num(1) else Num(0)
  {
    assert IsFlag(b.cols[x][i]);
  }

  /** When the table's rows are labelled 0..n-1, the result has the same rows in
      the same order: the kept columns are unchanged, and every new column is, in
      row i, 1 exactly when row i's left-stripped cell has a token the column
      stands for after the merge table, and 0 otherwise. A text cell has the same
      tokens before and after the strip (`TokenizeIgnoresLStrip`); any other cell
      has none. */
  lemma PreprocessAligned(t: Table, column: string, prefix: string, gs: seq<MergeGroup>, order: seq<string>)
    requires t.Valid() && WellFormed(gs) && NoClash(t, prefix, gs)
    requires column in t.cols && IsVocabularyOrder(t, column, order)
    requires t.labels == Range(|t.labels|)
    requires Preprocess(t, column, prefix, gs, order).Ok?
    ensures var r := Preprocess(t, column, prefix, gs, order).value;
      var m := MergedMeaning(InitialMeaning(prefix, Vocabulary(LStripAll(t.cols[column]))), gs);
      && r.labels == t.labels
      && (forall x :: x in t.cols && x != column ==> x in r.cols && r.cols[x] == t.cols[x])
      && (forall x :: x in r.cols && x !in t.cols ==> x in m && |r.cols[x]| == |t.labels|)
      && (forall x, i :: x in r.cols && x !in t.cols && 0 <= i < |t.labels| ==>
            r.cols[x][i] == if Mentions(TokenSet(LStripCell(t.cols[column][i])), m[x]) then Num(1) else Num(0))
  {
    var raw := LStripAll(t.cols[column]);
    var r := Preprocess(t, column, prefix, gs, order).value;
    var merged := MergedBlock(t, column, prefix, gs, order).value;
    var m := MergedMeaning(InitialMeaning(prefix, Vocabulary(raw)), gs);
    var rows := RowTokens(raw);
    PreprocessShape(t, column, prefix, gs, order);
    MergedIndicates(t, column, prefix, gs, order);
    forall x, i | x in r.cols && x !in t.cols && 0 <= i < |t.labels|
      ensures r.cols[x][i] == if Mentions(TokenSet(LStripCell(t.cols[column][i])), m[x]) then Num(1) else Num(0)
    {
      assert rows[i] == TokenSet(LStripCell(t.cols[column][i]));
      IndicatorCell(merged, m, rows, x, i);
    }
  }

  /** Lines 156 and 192-195: the columns selected by `prefix_` after the call are
      exactly the merged block's columns, in the block's order. */
  lemma PrefixSelectsMerged(t: Table, column: string, prefix: string, gs: seq<MergeGroup>, order: seq<string>)
    requires t.Valid() && WellFormed(gs) && NoClash(t, prefix, gs) && CanonicalsPrefixed(gs, prefix)
    requires column in t.cols && IsVocabularyOrder(t, column, order)
    requires Preprocess(t, column, prefix, gs, order).Ok?
    ensures ColumnsWithPrefix(Preprocess(t, column, prefix, gs, order).value.names, prefix + "_") ==
            MergedBlock(t, column, prefix, gs, order).value.names
  {
    PreprocessOk(t, column, prefix, gs, order);
    var merged := MergedBlock(t, column, prefix, gs, order).value;
    var rest := DropColumns(LStripColumn(t, column), {column});
    var r := Preprocess(t, column, prefix, gs, order).value;
    assert r.names == rest.names + merged.names;
    forall k | 0 <= k < |rest.names| ensures !(prefix + "_" <= rest.names[k]) {
      assert rest.names[k] in rest.cols;
    }
    forall k | 0 <= k < |merged.names| ensures prefix + "_" <= merged.names[k] {
      MergedNames(t, column, prefix, gs, order, merged.names[k]);
    }
    ColumnsWithPrefixAppend(rest.names, merged.names, prefix + "_");
    ColumnsWithPrefixNone(rest.names, prefix + "_");
    ColumnsWithPrefixAll(merged.names, prefix + "_");
  }

  /** `preprocess_column(df, column, prefix, gs)` (lines 22-48): left-strips the
      raw column of `df` in place (line 24, which raises `KeyError` when the column
      is missing and `AttributeError` when it holds no text), collects the vocabulary, encodes it in the order the set is
      iterated (`order`), applies the merge table and returns the other columns
      beside the merged block, with the vocabulary. */
  method PreprocessColumn(df: Frame, column: string, prefix: string, gs: seq<MergeGroup>)
    returns (r: Result<Table>, vocab: set<string>, order: seq<string>)
    requires df.Valid() && WellFormed(gs) && NoClash(df.Value(), prefix, gs)
    modifies df
    ensures df.Valid()
    ensures column !in old(df.cols) ==> r == Err(KeyError(column)) && df.Value() == old(df.Value())
    ensures column in old(df.cols) && NoStrAccessor(old(df.cols[column])) ==>
      r == Err(AttributeError(column)) && df.Value() == old(df.Value())
    ensures column in old(df.cols) && !NoStrAccessor(old(df.cols[column])) ==>
      && df.Value() == LStripColumn(old(df.Value()), column)
      && vocab == Vocabulary(LStripAll(old(df.cols[column])))
      && IsVocabularyOrder(old(df.Value()), column, order)
      && r == Preprocess(old(df.Value()), column, prefix, gs, order)
  {
    ghost var t := df.Value();
    var stripped := df.LStripInPlace(column);
    if stripped.Err? {
      return Err(stripped.error), {}, [];
    }
    var encoded;
    vocab, order, encoded := EncodeColumn(df.cols[column], prefix);
    var merged := MergeColumns(encoded, gs);
    assert merged == MergedBlock(t, column, prefix, gs, order);
    match merged {
      case Err(e) =>
        r := Err(e);
      case Ok(b) =>
        var rest := DropColumns(df.Value(), {column});
        forall x | x in rest.cols && x in b.cols ensures false {
          MergedNames(t, column, prefix, gs, order, x);
        }
        r := Ok(Concat(rest, BlockTable(b)));
    }
  }
}
