/** The string operations the tokenizer is built from: Python's `str.strip`,
    `str.lstrip` and `str.lower`, and `re.split(';|,', s)`. */
module Strings {

  /** The characters Python's `str.strip()` removes when called without arguments
      (those for which `str.isspace()` holds). */
  predicate IsSpace(c: char) {
    || c == ' ' || '\t' <= c <= '\r' || '\U{1C}' <= c <= '\U{1F}'
    || c == '\U{85}' || c == '\U{A0}' || c == '\U{1680}'
    || '\U{2000}' <= c <= '\U{200A}' || c == '\U{2028}' || c == '\U{2029}'
    || c == '\U{202F}' || c == '\U{205F}' || c == '\U{3000}'
  }

  predicate AllSpace(s: string) {
    forall i :: 0 <= i < |s| ==> IsSpace(s[i])
  }

  /** `s.lstrip()`: `s` without its leading whitespace. */
  function LStrip(s: string): (r: string)
    ensures |r| <= |s|
    ensures r == [] || !IsSpace(r[0])
  {
    if s != [] && IsSpace(s[0]) then LStrip(s[1..]) else s
  }

  /** `s.rstrip()`: `s` without its trailing whitespace. */
  function RStrip(s: string): (r: string)
    ensures |r| <= |s|
    ensures r == [] || !IsSpace(r[|r| - 1])
  {
    if s != [] && IsSpace(s[|s| - 1]) then RStrip(s[..|s| - 1]) else s
  }

  /** What `lstrip` removes is whitespace, and what it keeps is a suffix. */
  lemma {:induction false} LStripSuffix(s: string)
    ensures var r := LStrip(s); r == s[|s| - |r|..] && AllSpace(s[..|s| - |r|])
  {
    if s != [] && IsSpace(s[0]) {
      LStripSuffix(s[1..]);
      var r := LStrip(s[1..]);
      assert s[1..][|s| - 1 - |r|..] == s[|s| - |r|..];
      forall i | 0 <= i < |s| - |r| ensures IsSpace(s[i]) {
        if i > 0 { assert s[i] == s[1..][..|s| - 1 - |r|][i - 1]; }
      }
    }
  }

  /** What `rstrip` removes is whitespace, and what it keeps is a prefix. */
  lemma {:induction false} RStripPrefix(s: string)
    ensures var r := RStrip(s); r == s[..|r|] && AllSpace(s[|r|..])
  {
    if s != [] && IsSpace(s[|s| - 1]) {
      var s' := s[..|s| - 1];
      RStripPrefix(s');
      var r := RStrip(s');
      assert s'[..|r|] == s[..|r|];
      forall i | |r| <= i < |s| ensures IsSpace(s[i]) {
        if i < |s| - 1 { assert s[i] == s'[|r|..][i - |r|]; }
      }
    }
  }

  /** A string that neither starts nor ends with whitespace is its own strip. */
  lemma StripFixed(s: string)
    requires s == [] || (!IsSpace(s[0]) && !IsSpace(s[|s| - 1]))
    ensures LStrip(s) == s && RStrip(s) == s
  {
  }

  /** `s.strip()`: `s` without its leading and trailing whitespace. */
  function Strip(s: string): (r: string)
    ensures |r| <= |s|
    ensures r != [] ==> !IsSpace(r[0]) && !IsSpace(r[|r| - 1])
  {
    var l := LStrip(s);
    var r := RStrip(l);
    assert r != [] ==> !IsSpace(r[0]) by {
      if r != [] {
        RStripPrefix(l);
        assert r[0] == l[0];
      }
    }
    r
  }

  /** `strip` gives the empty string exactly when the input is all whitespace. */
  lemma StripEmpty(s: string)
    ensures Strip(s) == [] <==> AllSpace(s)
  {
    var l := LStrip(s);
    LStripSuffix(s);
    RStripPrefix(l);
    if l != [] {
      assert l[0] == s[|s| - |l|];
    }
    if Strip(s) == [] {
      assert s == s[..|s| - |l|] + l;
      assert AllSpace(l[0..]);
    }
  }

  predicate IsUpper(c: char) {
    'A' <= c <= 'Z'
  }

  /** Python's `str.lower()` on one character, for the ASCII letters. */
  function LowerChar(c: char): (d: char)
    ensures !IsUpper(d)
    ensures !IsUpper(c) ==> d == c
    ensures IsUpper(c) ==> d as int == c as int + 32
    ensures IsSpace(d) == IsSpace(c)
  {
    if IsUpper(c) then (c as int + 32) as char else c
  }

  /** `s.lower()`: every upper-case letter replaced by its lower-case form. */
  function Lower(s: string): (r: string)
    ensures |r| == |s|
    ensures forall i :: 0 <= i < |s| ==> !IsUpper(r[i])
    ensures forall i :: 0 <= i < |s| && !IsUpper(s[i]) ==> r[i] == s[i]
  {
    seq(|s|, i requires 0 <= i < |s| => LowerChar(s[i]))
  }

  /** Lower-casing twice is lower-casing once. */
  lemma LowerIdempotent(s: string)
    ensures Lower(Lower(s)) == Lower(s)
  {
  }

  /** Lower-casing leaves whitespace where it was, so it commutes with stripping:
      a stripped string stays stripped once lower-cased. */
  lemma StripOfLower(s: string)
    requires Strip(s) == s
    ensures Strip(Lower(s)) == Lower(s)
  {
    var t := Lower(s);
    if s != [] {
      assert t[0] == LowerChar(s[0]);
      assert t[|t| - 1] == LowerChar(s[|s| - 1]);
      StripFixed(t);
    }
  }

  /** Leading whitespace never reaches the result of `strip`. */
  lemma {:induction false} StripIgnoresLeadingSpace(w: string, s: string)
    requires AllSpace(w)
    ensures Strip(w + s) == Strip(s)
  {
    if w != [] {
      assert (w + s)[1..] == w[1..] + s;
      StripIgnoresLeadingSpace(w[1..], s);
    } else {
      assert w + s == s;
    }
  }

  /** Stripping only removes characters: a string without separators keeps none. */
  lemma StripNoDelimiter(s: string)
    requires NoDelimiter(s)
    ensures NoDelimiter(Strip(s))
  {
    var l := LStrip(s);
    LStripSuffix(s);
    RStripPrefix(l);
    forall i | 0 <= i < |l| ensures !IsDelimiter(l[i]) {
      assert l[i] == s[|s| - |l| + i];
    }
    var r := RStrip(l);
    forall i | 0 <= i < |r| ensures !IsDelimiter(r[i]) {
      assert r[i] == l[i];
    }
    assert Strip(s) == r;
  }

  /** Lower-casing never produces a separator. */
  lemma LowerNoDelimiter(s: string)
    requires NoDelimiter(s)
    ensures NoDelimiter(Lower(s))
  {
    var r := Lower(s);
    forall i | 0 <= i < |s| ensures !IsDelimiter(r[i]) {
      assert r[i] == LowerChar(s[i]);
    }
  }

  /** Stripping twice is stripping once. */
  lemma StripIdempotent(s: string)
    ensures Strip(Strip(s)) == Strip(s)
  {
    StripFixed(Strip(s));
  }

  /** The two field separators `re.split(';|,', ...)` splits on. */
  predicate IsDelimiter(c: char) {
    c == ';' || c == ','
  }

  predicate NoDelimiter(s: string) {
    forall i :: 0 <= i < |s| ==> !IsDelimiter(s[i])
  }

  /** The separators of `s`, in the order they occur. */
  function Delimiters(s: string): (ds: string)
    ensures |ds| <= |s|
    ensures forall i :: 0 <= i < |ds| ==> IsDelimiter(ds[i])
  {
    if s == [] then []
    else (if IsDelimiter(s[0]) then [s[0]] else []) + Delimiters(s[1..])
  }

  /** `re.split(';|,', s)`: the pieces of `s` between separators, empty pieces kept. */
  function Split(s: string): (pieces: seq<string>)
    ensures |pieces| == |Delimiters(s)| + 1
    ensures forall k :: 0 <= k < |pieces| ==> NoDelimiter(pieces[k])
  {
    if s == [] then [[]]
    else
      var rest := Split(s[1..]);
      if IsDelimiter(s[0]) then [[]] + rest
      else [[s[0]] + rest[0]] + rest[1..]
  }

  lemma SpaceIsNoDelimiter(c: char)
    requires IsSpace(c)
    ensures !IsDelimiter(c)
  {
  }

  /** Text without a separator is one piece. */
  lemma {:induction false} SplitWhole(s: string)
    requires NoDelimiter(s)
    ensures Split(s) == [s]
  {
    if s != [] {
      SplitWhole(s[1..]);
      assert [s[0]] + s[1..] == s;
    }
  }

  /** Pieces glued back together with the given separators between them. */
  function Join(pieces: seq<string>, seps: string): string
    requires |pieces| == |seps| + 1
  {
    if seps == [] then pieces[0]
    else pieces[0] + [seps[0]] + Join(pieces[1..], seps[1..])
  }

  lemma JoinFirstChar(c: char, pieces: seq<string>, seps: string)
    requires |pieces| == |seps| + 1
    ensures Join([[c] + pieces[0]] + pieces[1..], seps) == [c] + Join(pieces, seps)
  {
    var qs := [[c] + pieces[0]] + pieces[1..];
    assert qs[0] == [c] + pieces[0] && qs[1..] == pieces[1..];
  }

  /** Splitting loses nothing: the pieces and the separators rebuild the input. */
  lemma {:induction false} SplitJoin(s: string)
    ensures Join(Split(s), Delimiters(s)) == s
  {
    if s != [] {
      SplitJoin(s[1..]);
      var rest := Split(s[1..]);
      assert s == [s[0]] + s[1..];
      if IsDelimiter(s[0]) {
        assert Split(s) == [[]] + rest;
        assert Delimiters(s) == [s[0]] + Delimiters(s[1..]);
      } else {
        assert Split(s) == [[s[0]] + rest[0]] + rest[1..];
        assert Delimiters(s) == Delimiters(s[1..]);
        JoinFirstChar(s[0], rest, Delimiters(s[1..]));
      }
    }
  }

  lemma ExtendFirst<T>(c: T, xs: seq<seq<T>>, ys: seq<seq<T>>)
    requires xs != []
    ensures [[c] + (xs + ys)[0]] + (xs + ys)[1..] == ([[c] + xs[0]] + xs[1..]) + ys
  {
    assert (xs + ys)[0] == xs[0];
    assert (xs + ys)[1..] == xs[1..] + ys;
  }

  /** Splitting at a separator splits the two sides independently, in order. */
  lemma {:induction false} SplitAppend(a: string, d: char, b: string)
    requires IsDelimiter(d)
    ensures Split(a + [d] + b) == Split(a) + Split(b)
  {
    if a == [] {
      assert a + [d] + b == [d] + b;
      assert ([d] + b)[1..] == b;
    } else {
      var s := a + [d] + b;
      assert s[0] == a[0];
      assert s[1..] == a[1..] + [d] + b;
      SplitAppend(a[1..], d, b);
      var x, y := Split(a[1..]), Split(b);
      if IsDelimiter(a[0]) {
        assert Split(s) == [[]] + (x + y);
      } else {
        assert Split(s) == [[a[0]] + (x + y)[0]] + (x + y)[1..];
        ExtendFirst(a[0], x, y);
      }
    }
  }

  /** Leading whitespace (which holds no separator) stays in the first piece. */
  lemma {:induction false} SplitLeadingSpace(w: string, s: string)
    requires AllSpace(w)
    ensures Split(w + s) == [w + Split(s)[0]] + Split(s)[1..]
  {
    if w != [] {
      assert (w + s)[1..] == w[1..] + s;
      SplitLeadingSpace(w[1..], s);
      SpaceIsNoDelimiter(w[0]);
      assert [w[0]] + (w[1..] + Split(s)[0]) == w + Split(s)[0];
    } else {
      assert w + s == s;
      assert w + Split(s)[0] == Split(s)[0];
      assert Split(s) == [Split(s)[0]] + Split(s)[1..];
    }
  }
}
