/** Lines 27-38 of `preprocess_column`: the vocabulary of a raw column and its
    one-hot encoding, one 0/1 column per token. */
module Encoding {
  import opened Cells
  import opened Tokenizer

  /** A raw multi-value column: every cell text or missing. */
  predicate RawColumn(cells: seq<Cell>) {
    forall i :: 0 <= i < |cells| ==> IsRawCell(cells[i])
  }

  /** `f'{prefix}_{item}'`: the label of a token's indicator column. */
  function IndicatorName(prefix: string, token: string): (name: string)
    ensures |name| == |prefix| + 1 + |token|
    ensures prefix + "_" <= name
    ensures name[|prefix| + 1..] == token
  {
    prefix + "_" + token
  }

  /** Different tokens get different indicator columns. */
  lemma IndicatorNameInjective(prefix: string, a: string, b: string)
    ensures IndicatorName(prefix, a) == IndicatorName(prefix, b) <==> a == b
  {
    assert a == IndicatorName(prefix, a)[|prefix| + 1..];
  }

  /** The indicator labels of a set of tokens. */
  function IndicatorNames(prefix: string, tokens: set<string>): set<string> {
    set t | t in tokens :: IndicatorName(prefix, t)
  }

  /** The token set of every row, in row order. */
  function RowTokens(cells: seq<Cell>): (rows: seq<set<string>>)
    requires RawColumn(cells)
    ensures |rows| == |cells|
    ensures forall i :: 0 <= i < |cells| ==> rows[i] == TokenSet(cells[i])
  {
    seq(|cells|, i requires 0 <= i < |cells| => TokenSet(cells[i]))
  }

  /** The union of a list of sets, left to right. */
  function Union<T>(sets: seq<set<T>>): set<T> {
    if sets == [] then {} else Union(sets[..|sets| - 1]) + sets[|sets| - 1]
  }

  /** An element is in the union exactly when one of the sets holds it. */
  lemma {:induction false} UnionMembers<T>(sets: seq<set<T>>, x: T)
    ensures x in Union(sets) <==> exists i :: 0 <= i < |sets| && x in sets[i]
  {
    if sets != [] {
      var n := |sets| - 1;
      var init := sets[..n];
      UnionMembers(init, x);
      assert forall i :: 0 <= i < n ==> init[i] == sets[i];
    }
  }

  lemma ElementsSnoc<T>(xs: seq<T>, j: nat)
    requires j < |xs|
    ensures (set k | 0 <= k < j + 1 :: xs[k]) == (set k | 0 <= k < j :: xs[k]) + {xs[j]}
  {
  }

  /** `unique_set` after line 28: every token of every cell. */
  function Vocabulary(cells: seq<Cell>): (v: set<string>)
    requires RawColumn(cells)
    ensures forall t :: t in v ==> IsToken(t)
  {
    var v := Union(RowTokens(cells));
    assert forall t :: t in v ==> IsToken(t) by {
      forall t | t in v ensures IsToken(t) {
        UnionMembers(RowTokens(cells), t);
      }
    }
    v
  }

  /** A token is in the vocabulary exactly when some row has it. */
  lemma VocabularyMembers(cells: seq<Cell>, t: string)
    requires RawColumn(cells)
    ensures t in Vocabulary(cells) <==> exists i :: 0 <= i < |cells| && t in Tokenize(cells[i])
  {
    UnionMembers(RowTokens(cells), t);
  }

  /** A column of missing cells has no vocabulary, hence no indicator column. */
  lemma VocabularyOfMissing(cells: seq<Cell>)
    requires forall i :: 0 <= i < |cells| ==> cells[i] == Missing
    ensures Vocabulary(cells) == {}
  {
    forall t ensures t !in Vocabulary(cells) {
      VocabularyMembers(cells, t);
    }
  }

  /** Lines 27-28: `unique_set.add(item)` for every token of every row. */
  method CollectVocabulary(cells: seq<Cell>) returns (vocab: set<string>)
    requires RawColumn(cells)
    ensures vocab == Vocabulary(cells)
    ensures forall t :: t in vocab <==> exists i :: 0 <= i < |cells| && t in Tokenize(cells[i])
  {
    ghost var rows := RowTokens(cells);
    vocab := {};
    for i := 0 to |cells|
      invariant vocab == Union(rows[..i])
    {
      var items := Tokenize(cells[i]);
      for j := 0 to |items|
        invariant vocab == Union(rows[..i]) + set k | 0 <= k < j :: items[k]
      {
        ElementsSnoc(items, j);
        vocab := vocab + {items[j]};
      }
      assert rows[..i + 1][..i] == rows[..i];
      assert (set k | 0 <= k < |items| :: items[k]) == rows[i];
    }
    assert rows[..|cells|] == rows;
    forall t ensures t in vocab <==> exists i :: 0 <= i < |cells| && t in Tokenize(cells[i]) {
      VocabularyMembers(cells, t);
    }
  }

  /** The 0/1 list line 35 builds for one token: 1 exactly on the rows whose cell
      has the token. */
  function Flags(cells: seq<Cell>, t: string): (col: seq<int>)
    requires RawColumn(cells)
    ensures |col| == |cells|
    ensures AllFlags(col)
    ensures forall i :: 0 <= i < |cells| ==> (col[i] == 1 <==> t in Tokenize(cells[i]))
  {
    seq(|cells|, i requires 0 <= i < |cells| => if t in Tokenize(cells[i]) then 1 else 0)
  }

  lemma TakeSnoc<T>(xs: seq<T>, i: nat)
    requires i < |xs|
    ensures xs[..i + 1] == xs[..i] + [xs[i]]
  {
  }

  /** `encoded_df` (line 38) and the frame the merge loop updates: a number of
      rows and 0/1 columns. A frame built from an empty dict has no rows. */
  datatype Block = Block(rows: nat, names: seq<string>, cols: map<string, seq<int>>)
  {
    ghost predicate Valid() {
      && Distinct(names)
      && (forall x :: x in cols <==> x in names)
      && (forall x :: x in cols ==> |cols[x]| == rows)
    }
  }

  /** The indicator labels of `order`, in that order. */
  function IndicatorSeq(prefix: string, order: seq<string>): (names: seq<string>)
    requires Distinct(order)
    ensures |names| == |order|
    ensures forall k :: 0 <= k < |order| ==> names[k] == IndicatorName(prefix, order[k])
    ensures Distinct(names)
    ensures forall x :: x in names <==> x in IndicatorNames(prefix, set t | t in order)
  {
    var names := seq(|order|, k requires 0 <= k < |order| => IndicatorName(prefix, order[k]));
    assert Distinct(names) by {
      forall i, j | 0 <= i < j < |names| ensures names[i] != names[j] {
        IndicatorNameInjective(prefix, order[i], order[j]);
      }
    }
    names
  }

  /** The token an indicator label stands for. */
  function TokenOf(prefix: string, name: string): string
    requires |name| > |prefix|
  {
    name[|prefix| + 1..]
  }

  /** `pd.DataFrame(encoding_dict)`: one column per token of `order` (the
      vocabulary in set iteration order), holding that token's flags. */
  function EncodedBlock(cells: seq<Cell>, prefix: string, order: seq<string>): (b: Block)
    requires RawColumn(cells) && Distinct(order)
    ensures b.Valid()
    ensures b.rows == if order == [] then 0 else |cells|
    ensures b.names == IndicatorSeq(prefix, order)
    ensures forall t :: t in order ==> IndicatorName(prefix, t) in b.cols && b.cols[IndicatorName(prefix, t)] == Flags(cells, t)
    ensures forall x :: x in b.cols ==> exists t :: t in order && x == IndicatorName(prefix, t)
  {
    var names := IndicatorSeq(prefix, order);
    var cols := map x | x in IndicatorNames(prefix, set t | t in order) :: Flags(cells, TokenOf(prefix, x));
    Block(if order == [] then 0 else |cells|, names, cols)
  }

  /** Line 29: one empty list per token, keyed by its indicator label; `order` is
      the order in which the set is iterated. */
  method EmptyLists(prefix: string, vocab: set<string>)
    returns (order: seq<string>, enc: map<string, seq<int>>)
    ensures Distinct(order) && forall t :: t in order <==> t in vocab
    ensures enc.Keys == IndicatorNames(prefix, vocab)
    ensures forall t :: t in vocab ==> enc[IndicatorName(prefix, t)] == []
  {
    order, enc := [], map[];
    var rest := vocab;
    while rest != {}
      invariant Distinct(order)
      invariant forall t :: t in order <==> t in vocab && t !in rest
      invariant rest <= vocab
      invariant enc.Keys == IndicatorNames(prefix, vocab - rest)
      invariant forall t :: t in order ==> enc[IndicatorName(prefix, t)] == []
      decreases rest
    {
      var t :| t in rest;
      order := order + [t];
      enc := enc[IndicatorName(prefix, t) := []];
      rest := rest - {t};
    }
  }

  /** Lines 33-35 for one row: `int(item in items)` appended to the list of every
      token, in `order`. */
  method AppendFlags(prefix: string, order: seq<string>, items: seq<string>, enc: map<string, seq<int>>)
    returns (enc': map<string, seq<int>>)
    requires Distinct(order)
    requires forall t :: t in order ==> IndicatorName(prefix, t) in enc
    ensures enc'.Keys == enc.Keys
    ensures forall t :: t in order ==>
      enc'[IndicatorName(prefix, t)] == enc[IndicatorName(prefix, t)] + [if t in items then 1 else 0]
    ensures forall x :: x in enc && (forall t :: t in order ==> x != IndicatorName(prefix, t)) ==> enc'[x] == enc[x]
  {
    enc' := enc;
    for j := 0 to |order|
      invariant enc'.Keys == enc.Keys
      invariant forall k :: 0 <= k < j ==>
        enc'[IndicatorName(prefix, order[k])] == enc[IndicatorName(prefix, order[k])] + [if order[k] in items then 1 else 0]
      invariant forall k :: j <= k < |order| ==> enc'[IndicatorName(prefix, order[k])] == enc[IndicatorName(prefix, order[k])]
      invariant forall x :: x in enc && (forall t :: t in order ==> x != IndicatorName(prefix, t)) ==> enc'[x] == enc[x]
    {
      var item := order[j];
      var key := IndicatorName(prefix, item);
      forall k | 0 <= k < |order| && k != j ensures IndicatorName(prefix, order[k]) != key {
        IndicatorNameInjective(prefix, order[k], item);
      }
      enc' := enc'[key := enc'[key] + [if item in items then 1 else 0]];
    }
    forall t | t in order
      ensures enc'[IndicatorName(prefix, t)] == enc[IndicatorName(prefix, t)] + [if t in items then 1 else 0]
    {
      var k :| 0 <= k < |order| && order[k] == t;
    }
  }

  /** Lines 29-35: the dict of empty lists keyed by indicator label, then, row by
      row, one flag appended to every token's list. */
  method EncodeColumns(cells: seq<Cell>, prefix: string, vocab: set<string>)
    returns (order: seq<string>, enc: map<string, seq<int>>)
    requires RawColumn(cells)
    ensures Distinct(order) && forall t :: t in order <==> t in vocab
    ensures enc.Keys == IndicatorNames(prefix, vocab)
    ensures forall t :: t in vocab ==> enc[IndicatorName(prefix, t)] == Flags(cells, t)
  {
    order, enc := EmptyLists(prefix, vocab);
    for i := 0 to |cells|
      invariant enc.Keys == IndicatorNames(prefix, vocab)
      invariant forall t :: t in order ==> enc[IndicatorName(prefix, t)] == Flags(cells, t)[..i]
    {
      var items := Tokenize(cells[i]);
      enc := AppendFlags(prefix, order, items, enc);
      forall t | t in order ensures enc[IndicatorName(prefix, t)] == Flags(cells, t)[..i + 1] {
        TakeSnoc(Flags(cells, t), i);
      }
    }
    forall t | t in vocab ensures enc[IndicatorName(prefix, t)] == Flags(cells, t) {
      assert Flags(cells, t)[..|cells|] == Flags(cells, t);
    }
  }

  /** The lists `EncodeColumns` fills are the columns of the encoded block. */
  lemma EncodedMatches(cells: seq<Cell>, prefix: string, order: seq<string>, vocab: set<string>, enc: map<string, seq<int>>)
    requires RawColumn(cells) && Distinct(order) && (forall t :: t in order <==> t in vocab)
    requires enc.Keys == IndicatorNames(prefix, vocab)
    requires forall t :: t in vocab ==> enc[IndicatorName(prefix, t)] == Flags(cells, t)
    ensures Block(if order == [] then 0 else |cells|, IndicatorSeq(prefix, order), enc) == EncodedBlock(cells, prefix, order)
  {
    var b := EncodedBlock(cells, prefix, order);
    assert (set t | t in order) == vocab;
    forall x | x in enc ensures enc[x] == b.cols[x] {
      var t :| t in vocab && x == IndicatorName(prefix, t);
    }
  }

  /** Lines 27-38: the vocabulary of the column, the dict of per-token lists
      filled row by row, and the frame built from it, whose columns follow the
      order in which the vocabulary set is iterated. */
  method EncodeColumn(cells: seq<Cell>, prefix: string)
    returns (vocab: set<string>, order: seq<string>, encoded: Block)
    requires RawColumn(cells)
    ensures vocab == Vocabulary(cells)
    ensures Distinct(order) && (set t | t in order) == vocab
    ensures encoded == EncodedBlock(cells, prefix, order)
  {
    vocab := CollectVocabulary(cells);
    var enc;
    order, enc := EncodeColumns(cells, prefix, vocab);
    encoded := Block(if order == [] then 0 else |cells|, IndicatorSeq(prefix, order), enc);
    EncodedMatches(cells, prefix, order, vocab, enc);
  }
}
