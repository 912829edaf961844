/** Lines 41-43 of `preprocess_column`: the merge table applied to the encoded
    block, one group at a time, in table order. */
module Merging {
  import opened Cells
  import opened Encoding
  import Tables

  /** One entry `canonical: [sources, ...]` of a merge table. */
  datatype MergeGroup = MergeGroup(canonical: string, sources: seq<string>)

  /** Every group lists at least one source. */
  predicate WellFormed(gs: seq<MergeGroup>) {
    forall k :: 0 <= k < |gs| ==> gs[k].sources != []
  }

  /** Every canonical name of the merge table starts with `prefix_`. */
  predicate CanonicalsPrefixed(gs: seq<MergeGroup>, prefix: string) {
    forall k :: 0 <= k < |gs| ==> prefix + "_" <= gs[k].canonical
  }

  /** Every column of the block holds only 0/1 flags. */
  predicate BlockFlags(b: Block) {
    forall x :: x in b.cols ==> AllFlags(b.cols[x])
  }

  /** `.max(axis=1)`: the row-wise maximum of a non-empty list of equally long columns. */
  function RowMax(cols: seq<seq<int>>, rows: nat): (m: seq<int>)
    requires cols != []
    requires forall k :: 0 <= k < |cols| ==> |cols[k]| == rows
    ensures |m| == rows
    ensures forall i, k :: 0 <= i < rows && 0 <= k < |cols| ==> cols[k][i] <= m[i]
    ensures forall i :: 0 <= i < rows ==> exists k :: 0 <= k < |cols| && m[i] == cols[k][i]
  {
    if |cols| == 1 then cols[0]
    else
      var rest := RowMax(cols[1..], rows);
      var m := seq(rows, i requires 0 <= i < rows => if cols[0][i] >= rest[i] then cols[0][i] else rest[i]);
      assert forall i, k :: 0 <= i < rows && 1 <= k < |cols| ==> cols[k][i] == cols[1..][k - 1][i];
      assert forall i :: 0 <= i < rows ==> exists k :: 0 <= k < |cols| && m[i] == cols[k][i] by {
        forall i | 0 <= i < rows ensures exists k :: 0 <= k < |cols| && m[i] == cols[k][i] {
          if cols[0][i] < rest[i] {
            var k :| 0 <= k < |cols| - 1 && rest[i] == cols[1..][k][i];
            assert m[i] == cols[k + 1][i];
          }
        }
      }
      m
  }

  /** On 0/1 columns the maximum is the logical OR: a row is 1 exactly when one
      of the columns is 1 there, and the result is again 0/1. */
  lemma RowMaxIsOr(cols: seq<seq<int>>, rows: nat)
    requires cols != []
    requires forall k :: 0 <= k < |cols| ==> |cols[k]| == rows && AllFlags(cols[k])
    ensures AllFlags(RowMax(cols, rows))
    ensures forall i :: 0 <= i < rows ==> (RowMax(cols, rows)[i] == 1 <==> exists k :: 0 <= k < |cols| && cols[k][i] == 1)
  {
    var m := RowMax(cols, rows);
    forall i | 0 <= i < rows ensures IsFlag(m[i]) {
      var k :| 0 <= k < |cols| && m[i] == cols[k][i];
    }
  }

  /** Two lists of columns holding the same columns have the same row-wise maximum,
      whatever their order and however often a column is repeated. */
  lemma RowMaxSameColumns(a: seq<seq<int>>, b: seq<seq<int>>, rows: nat)
    requires a != [] && b != []
    requires forall k :: 0 <= k < |a| ==> |a[k]| == rows
    requires forall k :: 0 <= k < |b| ==> |b[k]| == rows
    requires forall k :: 0 <= k < |a| ==> a[k] in b
    requires forall k :: 0 <= k < |b| ==> b[k] in a
    ensures RowMax(a, rows) == RowMax(b, rows)
  {
    var ma, mb := RowMax(a, rows), RowMax(b, rows);
    forall i | 0 <= i < rows ensures ma[i] == mb[i] {
      var ka :| 0 <= ka < |a| && ma[i] == a[ka][i];
      var kb :| 0 <= kb < |b| && mb[i] == b[kb][i];
      assert a[ka] in b;
      var ja :| 0 <= ja < |b| && b[ja] == a[ka];
      assert b[kb] in a;
      var jb :| 0 <= jb < |a| && a[jb] == b[kb];
      assert ma[i] == b[ja][i] <= mb[i];
      assert mb[i] == a[jb][i] <= ma[i];
    }
  }

  /** `encoded_df[names]`: the listed columns, in the listed order, repeats kept. */
  function Selected(b: Block, names: seq<string>): (cols: seq<seq<int>>)
    requires b.Valid()
    requires forall k :: 0 <= k < |names| ==> names[k] in b.cols
    ensures |cols| == |names|
    ensures forall k :: 0 <= k < |names| ==> cols[k] == b.cols[names[k]] && |cols[k]| == b.rows
  {
    seq(|names|, k requires 0 <= k < |names| => b.cols[names[k]])
  }

  /** The position of the first name that is not a column, or `|names|` when every one is. */
  function FirstAbsent(names: seq<string>, keys: set<string>): (i: nat)
    ensures i <= |names|
    ensures forall k :: 0 <= k < i ==> names[k] in keys
    ensures i < |names| ==> names[i] !in keys
  {
    if names == [] || names[0] !in keys then 0
    else 1 + FirstAbsent(names[1..], keys)
  }

  /** `encoded_df[name] = col` (line 42): an existing column is overwritten where it
      stands, a new one is appended after the others. */
  function Assign(b: Block, name: string, col: seq<int>): (r: Block)
    requires b.Valid() && |col| == b.rows
    ensures r.Valid() && r.rows == b.rows
    ensures forall x :: x in r.cols <==> x in b.cols || x == name
    ensures r.cols[name] == col
    ensures forall x :: x in b.cols && x != name ==> r.cols[x] == b.cols[x]
  {
    Block(b.rows, if name in b.cols then b.names else b.names + [name], b.cols[name := col])
  }

  /** `encoded_df.drop(columns=ds, errors='ignore')` (line 43): the listed columns
      that exist are removed, the others are skipped; the rows stay. */
  function Drop(b: Block, ds: set<string>): (r: Block)
    requires b.Valid()
    ensures r.Valid() && r.rows == b.rows
    ensures forall x :: x in r.cols <==> x in b.cols && x !in ds
    ensures forall x :: x in r.cols ==> r.cols[x] == b.cols[x]
  {
    Block(b.rows, Tables.Without(b.names, ds), b.cols - ds)
  }

  /** One iteration of the merge loop (lines 42-43). Selecting the sources raises
      `KeyError` when one of them is not a column; otherwise the canonical column
      becomes their row-wise maximum, and then every source is dropped, the
      canonical column too when it is one of its own sources. */
  function ApplyGroup(b: Block, g: MergeGroup): (r: Result<Block>)
    requires b.Valid() && g.sources != []
    ensures r.Err? <==> exists k :: 0 <= k < |g.sources| && g.sources[k] !in b.cols
    ensures r.Err? ==> r.error.KeyError? && r.error.name in g.sources && r.error.name !in b.cols
    ensures r.Ok? ==> r.value.Valid() && r.value.rows == b.rows
  {
    var i := FirstAbsent(g.sources, b.cols.Keys);
    if i < |g.sources| then Err(KeyError(g.sources[i]))
    else Ok(Drop(Assign(b, g.canonical, RowMax(Selected(b, g.sources), b.rows)), set x | x in g.sources))
  }

  /** The columns after a group: the old ones plus the canonical one, minus every
      source; the columns the group does not name keep their values. */
  lemma ApplyGroupColumns(b: Block, g: MergeGroup)
    requires b.Valid() && g.sources != [] && ApplyGroup(b, g).Ok?
    ensures ApplyGroup(b, g).value.cols.Keys == KeysAfterGroup(b.cols.Keys, g)
    ensures forall x :: x in ApplyGroup(b, g).value.cols && x != g.canonical ==> ApplyGroup(b, g).value.cols[x] == b.cols[x]
  {
  }

  /** When the canonical column survives, each of its rows is the largest value the
      sources hold in that row. */
  lemma ApplyGroupMax(b: Block, g: MergeGroup)
    requires b.Valid() && g.sources != [] && ApplyGroup(b, g).Ok?
    requires g.canonical in ApplyGroup(b, g).value.cols
    ensures forall i :: 0 <= i < b.rows ==>
      && (forall k :: 0 <= k < |g.sources| ==> b.cols[g.sources[k]][i] <= ApplyGroup(b, g).value.cols[g.canonical][i])
      && (exists k :: 0 <= k < |g.sources| && ApplyGroup(b, g).value.cols[g.canonical][i] == b.cols[g.sources[k]][i])
  {
    var sel := Selected(b, g.sources);
    var col := RowMax(sel, b.rows);
    assert ApplyGroup(b, g).value.cols[g.canonical] == col;
    forall i | 0 <= i < b.rows
      ensures exists k :: 0 <= k < |g.sources| && col[i] == b.cols[g.sources[k]][i]
    {
      var k :| 0 <= k < |sel| && col[i] == sel[k][i];
      assert sel[k] == b.cols[g.sources[k]];
    }
  }

  /** On 0/1 columns the group computes an OR: the block stays 0/1, and a surviving
      canonical column is 1 in a row exactly when one of the sources is. */
  lemma ApplyGroupFlags(b: Block, g: MergeGroup)
    requires b.Valid() && g.sources != [] && ApplyGroup(b, g).Ok? && BlockFlags(b)
    ensures BlockFlags(ApplyGroup(b, g).value)
    ensures g.canonical in ApplyGroup(b, g).value.cols ==>
      forall i :: 0 <= i < b.rows ==>
        (ApplyGroup(b, g).value.cols[g.canonical][i] == 1 <==> exists k :: 0 <= k < |g.sources| && b.cols[g.sources[k]][i] == 1)
  {
    var sel := Selected(b, g.sources);
    RowMaxIsOr(sel, b.rows);
    var r := ApplyGroup(b, g).value;
    ApplyGroupColumns(b, g);
    if g.canonical in r.cols {
      assert r.cols[g.canonical] == RowMax(sel, b.rows);
      forall i | 0 <= i < b.rows
        ensures r.cols[g.canonical][i] == 1 <==> exists k :: 0 <= k < |g.sources| && b.cols[g.sources[k]][i] == 1
      {
        if r.cols[g.canonical][i] == 1 {
          var k :| 0 <= k < |sel| && sel[k][i] == 1;
          assert b.cols[g.sources[k]][i] == 1;
        }
        if exists k :: 0 <= k < |g.sources| && b.cols[g.sources[k]][i] == 1 {
          var k :| 0 <= k < |g.sources| && b.cols[g.sources[k]][i] == 1;
          assert sel[k][i] == 1;
        }
      }
    }
  }

  /** The loop over `merge_rename_operations.items()`: the groups in table order,
      each applied to the result of the previous ones; the first `KeyError` ends it. */
  function ApplyMerges(b: Block, gs: seq<MergeGroup>): (r: Result<Block>)
    requires b.Valid() && WellFormed(gs)
    ensures r.Ok? ==> r.value.Valid() && r.value.rows == b.rows
    decreases |gs|
  {
    if gs == [] then Ok(b)
    else
      match ApplyGroup(b, gs[0])
      case Err(e) => Err(e)
      case Ok(next) => ApplyMerges(next, gs[1..])
  }

  /** A merge table keeps a 0/1 block 0/1. */
  lemma {:induction false} ApplyMergesFlags(b: Block, gs: seq<MergeGroup>)
    requires b.Valid() && WellFormed(gs) && BlockFlags(b)
    requires ApplyMerges(b, gs).Ok?
    ensures BlockFlags(ApplyMerges(b, gs).value)
    decreases |gs|
  {
    if gs != [] {
      ApplyGroupFlags(b, gs[0]);
      ApplyMergesFlags(ApplyGroup(b, gs[0]).value, gs[1..]);
    }
  }

  /** The merge table fails only on a name some group lists as a source and the
      block does not have at that point. */
  lemma {:induction false} ApplyMergesError(b: Block, gs: seq<MergeGroup>)
    requires b.Valid() && WellFormed(gs)
    requires ApplyMerges(b, gs).Err?
    ensures exists k :: 0 <= k < |gs| && ApplyMerges(b, gs).error.name in gs[k].sources
    decreases |gs|
  {
    var e := ApplyMerges(b, gs).error;
    if ApplyGroup(b, gs[0]).Ok? {
      ApplyMergesError(ApplyGroup(b, gs[0]).value, gs[1..]);
      var k :| 0 <= k < |gs| - 1 && e.name in gs[1..][k].sources;
      assert gs[1..][k] == gs[k + 1];
    }
  }

  /** Lines 42-43 for one group: the selection (which raises on an absent
      source), the assignment of the row-wise maximum, then the drop. */
  method MergeGroupStep(encoded: Block, g: MergeGroup) returns (r: Result<Block>)
    requires encoded.Valid() && g.sources != []
    ensures r == ApplyGroup(encoded, g)
  {
    var absent := FirstAbsent(g.sources, encoded.cols.Keys);
    if absent < |g.sources| {
      return Err(KeyError(g.sources[absent]));
    }
    var next := Assign(encoded, g.canonical, RowMax(Selected(encoded, g.sources), encoded.rows));
    next := Drop(next, set x | x in g.sources);
    return Ok(next);
  }

  /** Lines 41-43: `encoded_df` updated group after group, in table order; the
      first `KeyError` ends the loop. */
  method MergeColumns(b: Block, gs: seq<MergeGroup>) returns (r: Result<Block>)
    requires b.Valid() && WellFormed(gs)
    ensures r == ApplyMerges(b, gs)
  {
    var encoded := b;
    for k := 0 to |gs|
      invariant encoded.Valid()
      invariant ApplyMerges(b, gs) == ApplyMerges(encoded, gs[k..])
    {
      assert gs[k..][1..] == gs[k + 1..];
      var step := MergeGroupStep(encoded, gs[k]);
      if step.Err? {
        return step;
      }
      encoded := step.value;
    }
    assert gs[|gs|..] == [];
    return Ok(encoded);
  }

  /** Merge tables compose: running `gs1 + gs2` is running `gs1`, then `gs2` on
      its result, so a later group sees what the earlier ones produced. */
  lemma {:induction false} ApplyMergesAppend(b: Block, gs1: seq<MergeGroup>, gs2: seq<MergeGroup>)
    requires b.Valid() && WellFormed(gs1) && WellFormed(gs2)
    ensures WellFormed(gs1 + gs2)
    ensures ApplyMerges(b, gs1 + gs2) ==
      match ApplyMerges(b, gs1)
      case Err(e) => Err(e)
      case Ok(c) => ApplyMerges(c, gs2)
    decreases |gs1|
  {
    assert WellFormed(gs1 + gs2) by {
      forall k | 0 <= k < |gs1 + gs2| ensures (gs1 + gs2)[k].sources != [] {
        if k >= |gs1| {
          assert (gs1 + gs2)[k] == gs2[k - |gs1|];
        }
      }
    }
    if gs1 == [] {
      assert gs1 + gs2 == gs2;
    } else {
      assert (gs1 + gs2)[0] == gs1[0];
      assert (gs1 + gs2)[1..] == gs1[1..] + gs2;
      match ApplyGroup(b, gs1[0])
      case Err(_) =>
      case Ok(next) =>
        ApplyMergesAppend(next, gs1[1..], gs2);
    }
  }

  /** A source listed twice (as `tech_facial detection` is on line 54), or any
      repeat of a listed source, changes neither the outcome nor the error. */
  lemma RepeatedSourceHarmless(b: Block, canonical: string, sources: seq<string>, extra: seq<string>)
    requires b.Valid() && sources != []
    requires forall x :: x in extra ==> x in sources
    ensures ApplyGroup(b, MergeGroup(canonical, sources + extra)) == ApplyGroup(b, MergeGroup(canonical, sources))
  {
    var all := sources + extra;
    assert forall k :: 0 <= k < |sources| ==> all[k] == sources[k];
    assert forall k :: |sources| <= k < |all| ==> all[k] == extra[k - |sources|];
    assert (set x | x in all) == (set x | x in sources);
    var i := FirstAbsent(sources, b.cols.Keys);
    var j := FirstAbsent(all, b.cols.Keys);
    if i < |sources| {
      assert j == i;
    } else {
      forall k | |sources| <= k < |all| ensures all[k] in b.cols {
        assert extra[k - |sources|] in sources;
      }
      assert j == |all|;
      var a, c := Selected(b, all), Selected(b, sources);
      forall k | 0 <= k < |a| ensures a[k] in c {
        if k < |sources| {
          assert a[k] == c[k];
        } else {
          assert extra[k - |sources|] in sources;
          var k' :| 0 <= k' < |sources| && sources[k'] == extra[k - |sources|];
          assert a[k] == c[k'];
        }
      }
      forall k | 0 <= k < |c| ensures c[k] in a {
        assert a[k] == c[k];
      }
      RowMaxSameColumns(a, c, b.rows);
    }
  }

  /** The column names after one group, as a set: the canonical one added, every
      source removed. */
  function KeysAfterGroup(keys: set<string>, g: MergeGroup): set<string> {
    (keys + {g.canonical}) - set x | x in g.sources
  }

  /** The column names after a whole merge table, group after group. */
  function KeysAfter(keys: set<string>, gs: seq<MergeGroup>): (r: set<string>)
    ensures gs != [] ==> var g := gs[|gs| - 1];
      && (g.canonical in r <==> g.canonical !in g.sources)
      && forall x :: x in g.sources ==> x !in r
    decreases |gs|
  {
    if gs == [] then keys else KeysAfter(KeysAfterGroup(keys, gs[0]), gs[1..])
  }

  /** A successful merge table leaves exactly the columns `KeysAfter` names. */
  lemma {:induction false} ApplyMergesKeys(b: Block, gs: seq<MergeGroup>)
    requires b.Valid() && WellFormed(gs) && ApplyMerges(b, gs).Ok?
    ensures ApplyMerges(b, gs).value.cols.Keys == KeysAfter(b.cols.Keys, gs)
    decreases |gs|
  {
    if gs != [] {
      ApplyGroupColumns(b, gs[0]);
      var next := ApplyGroup(b, gs[0]).value;
      assert next.cols.Keys == KeysAfterGroup(b.cols.Keys, gs[0]);
      ApplyMergesKeys(next, gs[1..]);
    }
  }

  /** A name is present after the groups only if it was there before or is the
      canonical name of one of them. */
  lemma {:induction false} KeysAfterOnlyAddCanonicals(keys: set<string>, gs: seq<MergeGroup>, x: string)
    ensures x in KeysAfter(keys, gs) ==> x in keys || exists k :: 0 <= k < |gs| && gs[k].canonical == x
    decreases |gs|
  {
    if gs != [] {
      KeysAfterOnlyAddCanonicals(KeysAfterGroup(keys, gs[0]), gs[1..], x);
      if x in KeysAfter(keys, gs) && x !in keys && x != gs[0].canonical {
        var k :| 0 <= k < |gs| - 1 && gs[1..][k].canonical == x;
        assert gs[k + 1].canonical == x;
      }
    }
  }

  /** A source of some group is absent after the groups unless a later group
      names it as its canonical column. */
  lemma {:induction false} KeysAfterRemoveSources(keys: set<string>, gs: seq<MergeGroup>, k: nat, x: string)
    requires k < |gs| && x in gs[k].sources
    requires forall j :: k < j < |gs| ==> gs[j].canonical != x
    ensures x !in KeysAfter(keys, gs)
    decreases |gs|
  {
    var next := KeysAfterGroup(keys, gs[0]);
    if k == 0 {
      KeysAfterOnlyAddCanonicals(next, gs[1..], x);
      forall j | 0 <= j < |gs| - 1 ensures gs[1..][j].canonical != x {
        assert gs[1..][j] == gs[j + 1];
      }
    } else {
      assert x in gs[1..][k - 1].sources;
      KeysAfterRemoveSources(next, gs[1..], k - 1, x);
    }
  }

  /** A source of some group is no column of the merged block unless a later
      group writes it again: a canonical name listed among its own sources is gone. */
  lemma MergesRemoveSources(b: Block, gs: seq<MergeGroup>, k: nat, x: string)
    requires b.Valid() && WellFormed(gs) && ApplyMerges(b, gs).Ok?
    requires k < |gs| && x in gs[k].sources
    requires forall j :: k < j < |gs| ==> gs[j].canonical != x
    ensures x !in ApplyMerges(b, gs).value.cols
  {
    ApplyMergesKeys(b, gs);
    KeysAfterRemoveSources(b.cols.Keys, gs, k, x);
  }

  /** What each indicator column stands for: the tokens any one of which, in a
      row's cell, sets the column to 1 in that row. */
  type Meaning = map<string, set<string>>

  /** The tokens the listed columns stand for together; a name that is not a
      column stands for none. */
  function MeaningOf(m: Meaning, names: seq<string>): (tokens: set<string>)
    ensures forall t :: t in tokens <==> exists k :: 0 <= k < |names| && names[k] in m && t in m[names[k]]
  {
    if names == [] then {}
    else
      var rest := MeaningOf(m, names[1..]);
      var tokens := (if names[0] in m then m[names[0]] else {}) + rest;
      assert forall t :: t in rest <==> exists k :: 1 <= k < |names| && names[k] in m && t in m[names[k]] by {
        forall t ensures t in rest <==> exists k :: 1 <= k < |names| && names[k] in m && t in m[names[k]] {
          if t in rest {
            var k :| 0 <= k < |names| - 1 && names[1..][k] in m && t in m[names[1..][k]];
            assert names[k + 1] == names[1..][k];
          }
          if exists k :: 1 <= k < |names| && names[k] in m && t in m[names[k]] {
            var k :| 1 <= k < |names| && names[k] in m && t in m[names[k]];
            assert names[1..][k - 1] == names[k];
          }
        }
      }
      tokens
  }

  /** The meaning after one group: the canonical column stands for everything
      its sources stood for, and the sources are gone. */
  function GroupMeaning(m: Meaning, g: MergeGroup): Meaning {
    m[g.canonical := MeaningOf(m, g.sources)] - set x | x in g.sources
  }

  /** The meaning after a whole merge table. */
  function MergedMeaning(m: Meaning, gs: seq<MergeGroup>): (r: Meaning)
    ensures r.Keys == KeysAfter(m.Keys, gs)
    decreases |gs|
  {
    if gs == [] then m
    else
      assert GroupMeaning(m, gs[0]).Keys == KeysAfterGroup(m.Keys, gs[0]);
      MergedMeaning(GroupMeaning(m, gs[0]), gs[1..])
  }

  /** A row's tokens include one the column stands for. */
  predicate Mentions(tokens: set<string>, meaning: set<string>) {
    !(tokens !! meaning)
  }

  /** The block is the indicator table of `m` over the rows' token sets: its
      columns are the names `m` explains, and each is 1 in a row exactly when the
      row has a token the column stands for. */
  ghost predicate Indicates(b: Block, m: Meaning, rows: seq<set<string>>) {
    && b.Valid()
    && BlockFlags(b)
    && (b.rows == 0 || b.rows == |rows|)
    && b.cols.Keys == m.Keys
    && forall x, i :: x in b.cols && 0 <= i < b.rows ==> (b.cols[x][i] == 1 <==> Mentions(rows[i], m[x]))
  }

  /** One merge group keeps a block an indicator table, for the merged meaning:
      the OR of the sources stands for the union of what they stood for. */
  lemma GroupSimulates(b: Block, m: Meaning, rows: seq<set<string>>, g: MergeGroup)
    requires Indicates(b, m, rows) && g.sources != [] && ApplyGroup(b, g).Ok?
    ensures Indicates(ApplyGroup(b, g).value, GroupMeaning(m, g), rows)
  {
    var r := ApplyGroup(b, g).value;
    var m' := GroupMeaning(m, g);
    ApplyGroupColumns(b, g);
    ApplyGroupFlags(b, g);
    assert r.cols.Keys == m'.Keys;
    forall x, i | x in r.cols && 0 <= i < r.rows
      ensures r.cols[x][i] == 1 <==> Mentions(rows[i], m'[x])
    {
      if x == g.canonical {
        var u := MeaningOf(m, g.sources);
        assert m'[x] == u;
        if r.cols[x][i] == 1 {
          var k :| 0 <= k < |g.sources| && b.cols[g.sources[k]][i] == 1;
          var t :| t in rows[i] && t in m[g.sources[k]];
          assert t in u;
        }
        if Mentions(rows[i], u) {
          var t :| t in rows[i] && t in u;
          var k :| 0 <= k < |g.sources| && g.sources[k] in m && t in m[g.sources[k]];
          assert Mentions(rows[i], m[g.sources[k]]);
          assert b.cols[g.sources[k]][i] == 1;
        }
      }
    }
  }

  /** A successful merge table turns an indicator table for `m` into one for
      `MergedMeaning(m, gs)`. */
  lemma {:induction false} MergesSimulate(b: Block, m: Meaning, rows: seq<set<string>>, gs: seq<MergeGroup>)
    requires Indicates(b, m, rows) && WellFormed(gs) && ApplyMerges(b, gs).Ok?
    ensures Indicates(ApplyMerges(b, gs).value, MergedMeaning(m, gs), rows)
    decreases |gs|
  {
    if gs != [] {
      GroupSimulates(b, m, rows, gs[0]);
      MergesSimulate(ApplyGroup(b, gs[0]).value, GroupMeaning(m, gs[0]), rows, gs[1..]);
    }
  }
}
