/** `clean_split_normalize`: one raw multi-value cell to its list of normalized tokens. */
module Tokenizer {
  import opened Cells
  import opened Strings

  /** What every token satisfies: non-empty, already stripped, already lower-cased,
      and free of the two separators. */
  predicate IsToken(t: string) {
    t != [] && Strip(t) == t && Lower(t) == t && NoDelimiter(t)
  }

  /** One piece that is not blank once stripped becomes a token. */
  lemma PieceToken(piece: string)
    requires NoDelimiter(piece) && Strip(piece) != []
    ensures IsToken(Lower(Strip(piece)))
  {
    var p := Strip(piece);
    StripIdempotent(piece);
    StripOfLower(p);
    LowerIdempotent(p);
    StripNoDelimiter(piece);
    LowerNoDelimiter(p);
  }

  /** The list comprehension over the split pieces: each piece stripped and
      lower-cased, the pieces that are blank after stripping left out. */
  function Normalize(pieces: seq<string>): (tokens: seq<string>)
    requires forall k :: 0 <= k < |pieces| ==> NoDelimiter(pieces[k])
    ensures |tokens| <= |pieces|
  {
    if pieces == [] then []
    else
      var p := Strip(pieces[0]);
      var rest := Normalize(pieces[1..]);
      if p == [] then rest else [Lower(p)] + rest
  }

  lemma {:induction false} NormalizeTokens(pieces: seq<string>)
    requires forall k :: 0 <= k < |pieces| ==> NoDelimiter(pieces[k])
    ensures forall k :: 0 <= k < |Normalize(pieces)| ==> IsToken(Normalize(pieces)[k])
  {
    if pieces != [] {
      NormalizeTokens(pieces[1..]);
      var rest := Normalize(pieces[1..]);
      if Strip(pieces[0]) != [] {
        PieceToken(pieces[0]);
        assert Normalize(pieces) == [Lower(Strip(pieces[0]))] + rest;
      } else {
        assert Normalize(pieces) == rest;
      }
    }
  }

  /** The cells the tokenizer accepts: text or missing (numbers make `re.split` raise). */
  predicate IsRawCell(c: Cell) {
    !c.Num?
  }

  /** `clean_split_normalize(values)`. */
  function Tokenize(c: Cell): (tokens: seq<string>)
    requires IsRawCell(c)
    ensures c.Missing? ==> tokens == []
    ensures c.Str? ==> |tokens| <= |Delimiters(c.s)| + 1
  {
    match c
    case Missing => []
    case Str(s) => Normalize(Split(s))
  }

  /** Every token is non-empty, equal to its own strip and lower-case, and holds
      neither `;` nor `,`. */
  lemma TokenizeTokens(c: Cell)
    requires IsRawCell(c)
    ensures forall k :: 0 <= k < |Tokenize(c)| ==> IsToken(Tokenize(c)[k])
  {
    if c.Str? {
      NormalizeTokens(Split(c.s));
    }
  }

  /** The tokens of a cell, as a set (what the membership test `item in items` sees). */
  function TokenSet(c: Cell): (ts: set<string>)
    requires IsRawCell(c)
    ensures c.Missing? ==> ts == {}
    ensures forall t :: t in ts ==> IsToken(t)
  {
    TokenizeTokens(c);
    set t | t in Tokenize(c)
  }

  lemma {:induction false} NormalizeAppend(a: seq<string>, b: seq<string>)
    requires forall k :: 0 <= k < |a| ==> NoDelimiter(a[k])
    requires forall k :: 0 <= k < |b| ==> NoDelimiter(b[k])
    ensures Normalize(a + b) == Normalize(a) + Normalize(b)
  {
    if a == [] {
      assert a + b == b;
    } else {
      assert (a + b)[1..] == a[1..] + b;
      NormalizeAppend(a[1..], b);
    }
  }

  /** Tokens come out in input order with duplicates kept: the tokens of two
      texts joined by a separator are the tokens of the first, then those of the second. */
  lemma TokenizeAppend(a: string, d: char, b: string)
    requires IsDelimiter(d)
    ensures Tokenize(Str(a + [d] + b)) == Tokenize(Str(a)) + Tokenize(Str(b))
  {
    SplitAppend(a, d, b);
    NormalizeAppend(Split(a), Split(b));
  }

  /** One cell of `df[column].str.lstrip()` (line 24): text loses its leading
      whitespace; anything that is not text comes out missing. */
  function LStripCell(c: Cell): (d: Cell)
    ensures IsRawCell(d)
    ensures c.Str? ==> d.Str? && (d.s == [] || !IsSpace(d.s[0]))
    ensures !c.Str? ==> d == Missing
  {
    match c
    case Str(s) => Str(LStrip(s))
    case _ => Missing
  }

  /** Left-stripping a cell before tokenizing it changes nothing: its leading
      whitespace ends up in the first piece, which `strip` cleans anyway. */
  lemma TokenizeIgnoresLStrip(c: Cell)
    requires IsRawCell(c)
    ensures Tokenize(LStripCell(c)) == Tokenize(c)
  {
    if c.Str? {
      var s := c.s;
      var t := LStrip(s);
      var w := s[..|s| - |t|];
      LStripSuffix(s);
      assert s == w + t;
      var ps := Split(t);
      SplitLeadingSpace(w, t);
      StripIgnoresLeadingSpace(w, ps[0]);
      var qs := [w + ps[0]] + ps[1..];
      assert Split(s) == qs;
      assert qs[1..] == ps[1..];
      assert Strip(qs[0]) == Strip(ps[0]);
      assert Normalize(qs) == Normalize(ps);
    }
  }

  /** Text without a separator gives at most one token: itself, stripped and lower-cased. */
  lemma TokenizeSingle(a: string)
    requires NoDelimiter(a) && Strip(a) != []
    ensures Tokenize(Str(a)) == [Lower(Strip(a))]
  {
    SplitWhole(a);
  }

  /** A cell of only blanks and separators gives no token. */
  lemma {:induction false} NormalizeBlank(pieces: seq<string>)
    requires forall k :: 0 <= k < |pieces| ==> NoDelimiter(pieces[k]) && AllSpace(pieces[k])
    ensures Normalize(pieces) == []
  {
    if pieces != [] {
      NormalizeBlank(pieces[1..]);
      StripEmpty(pieces[0]);
    }
  }

  lemma {:induction false} SplitBlank(s: string)
    requires forall i :: 0 <= i < |s| ==> IsSpace(s[i]) || IsDelimiter(s[i])
    ensures forall k :: 0 <= k < |Split(s)| ==> AllSpace(Split(s)[k])
  {
    if s != [] {
      SplitBlank(s[1..]);
    }
  }

  lemma TokenizeBlank(s: string)
    requires forall i :: 0 <= i < |s| ==> IsSpace(s[i]) || IsDelimiter(s[i])
    ensures Tokenize(Str(s)) == []
  {
    SplitBlank(s);
    NormalizeBlank(Split(s));
  }
}
