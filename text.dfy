/**
 * The Python string built-ins the core relies on: `str.isspace`, `str.strip`,
 * `str.split()` without a separator, and `str.join`.
 */
module Text {

  /** A character that Python's `str.isspace()` accepts: the code points used
      by `str.strip()` and `str.split()` without arguments. */
  predicate IsSpace(c: char) {
    || ('\t' <= c <= '\r')               // tab, line feed, vertical tab, form feed, carriage return
    || ('\U{1C}' <= c <= '\U{1F}')       // file, group, record and unit separators
    || c == ' '
    || c == '\U{85}'                     // next line
    || c == '\U{A0}'                     // no-break space
    || c == '\U{1680}'
    || ('\U{2000}' <= c <= '\U{200A}')
    || c == '\U{2028}' || c == '\U{2029}'
    || c == '\U{202F}' || c == '\U{205F}' || c == '\U{3000}'
  }

  predicate NoSpace(s: string) {
    forall i :: 0 <= i < |s| ==> !IsSpace(s[i])
  }

  predicate AllSpace(s: string) {
    forall i :: 0 <= i < |s| ==> IsSpace(s[i])
  }

  /** A token as `str.split()` produces it: non-empty and free of whitespace. */
  predicate IsToken(t: string) {
    t != [] && NoSpace(t)
  }

  predicate AllTokens(ts: seq<string>) {
    forall i :: 0 <= i < |ts| ==> IsToken(ts[i])
  }

  /** `str.lstrip()`: drops the leading whitespace. */
  function TrimStart(s: string): (r: string)
    ensures |r| <= |s| && r == s[|s| - |r|..]
    ensures AllSpace(s[..|s| - |r|])
    ensures r == [] || !IsSpace(r[0])
  {
    if s != [] && IsSpace(s[0]) then TrimStart(s[1..]) else s
  }

  /** `str.rstrip()`: drops the trailing whitespace. */
  function TrimEnd(s: string): (r: string)
    ensures |r| <= |s| && r == s[..|r|]
    ensures AllSpace(s[|r|..])
    ensures r == [] || !IsSpace(r[|r| - 1])
  {
    if s != [] && IsSpace(s[|s| - 1]) then
      var r := TrimEnd(s[..|s| - 1]);
      assert s[|r|..] == s[..|s| - 1][|r|..] + [s[|s| - 1]];
      r
    else s
  }

  /** `str.strip()`. */
  function Strip(s: string): string {
    TrimEnd(TrimStart(s))
  }

  /** The maximal run of non-whitespace characters at the start of `s`. */
  function Word(s: string): (w: string)
    ensures |w| <= |s| && w == s[..|w|] && NoSpace(w)
    ensures |w| == |s| || IsSpace(s[|w|])
  {
    if s == [] || IsSpace(s[0]) then [] else [s[0]] + Word(s[1..])
  }

  /** `str.split()` without a separator: the maximal runs of non-whitespace
      characters, in order; runs of whitespace of any length separate them. */
  function Split(s: string): (ts: seq<string>)
    ensures AllTokens(ts)
    decreases |s|
  {
    if s == [] then []
    else if IsSpace(s[0]) then Split(s[1..])
    else
      var w := Word(s);
      [w] + Split(s[|w|..])
  }

  /** `sep.join(ts)`. */
  function Join(ts: seq<string>, sep: string): string {
    if |ts| == 0 then ""
    else if |ts| == 1 then ts[0]
    else ts[0] + sep + Join(ts[1..], sep)
  }

  // ---------------------------------------------------------------------
  // str.split() is characterised by three facts: a whitespace-free word
  // splits to itself, blank text to nothing, and a whitespace character
  // cuts the text into two independently split halves.
  // ---------------------------------------------------------------------

  lemma {:induction false} WordBeforeSpace(a: string, c: char, b: string)
    requires IsSpace(c)
    ensures Word(a + [c] + b) == Word(a)
    decreases |a|
  {
    if a == [] {
      assert (a + [c] + b)[0] == c;
    } else {
      assert (a + [c] + b)[0] == a[0];
      assert (a + [c] + b)[1..] == a[1..] + [c] + b;
      if !IsSpace(a[0]) {
        WordBeforeSpace(a[1..], c, b);
      }
    }
  }

  lemma {:induction false} SplitAtSpace(a: string, c: char, b: string)
    requires IsSpace(c)
    ensures Split(a + [c] + b) == Split(a) + Split(b)
    decreases |a|
  {
    var s := a + [c] + b;
    if a == [] {
      assert s[0] == c && s[1..] == b;
    } else if IsSpace(a[0]) {
      assert s[0] == a[0] && s[1..] == a[1..] + [c] + b;
      SplitAtSpace(a[1..], c, b);
    } else {
      assert s[0] == a[0];
      WordBeforeSpace(a, c, b);
      var w := Word(a);
      assert s[|w|..] == a[|w|..] + [c] + b;
      SplitAtSpace(a[|w|..], c, b);
    }
  }

  lemma {:induction false} SplitOfToken(t: string)
    requires IsToken(t)
    ensures Split(t) == [t]
  {
    var w := Word(t);
    assert |w| == |t| && w == t;
    assert t[|w|..] == [] && Split([]) == [];
  }

  lemma {:induction false} SplitOfBlank(s: string)
    requires AllSpace(s)
    ensures Split(s) == []
    decreases |s|
  {
    if s != [] {
      SplitOfBlank(s[1..]);
    }
  }

  /** Leading whitespace does not change the split. */
  lemma {:induction false} SplitTrimStart(s: string)
    ensures Split(TrimStart(s)) == Split(s)
    decreases |s|
  {
    if s != [] && IsSpace(s[0]) {
      SplitTrimStart(s[1..]);
    }
  }

  /** Trailing whitespace does not change the split. */
  lemma {:induction false} SplitTrimEnd(s: string)
    ensures Split(TrimEnd(s)) == Split(s)
    decreases |s|
  {
    if s != [] && IsSpace(s[|s| - 1]) {
      var p, c := s[..|s| - 1], s[|s| - 1];
      SplitTrimEnd(p);
      assert p + [c] + [] == s;
      SplitAtSpace(p, c, []);
      assert Split([]) == [];
    }
  }

  /** Stripping a line before splitting it changes nothing. */
  lemma SplitStrip(s: string)
    ensures Split(Strip(s)) == Split(s)
  {
    SplitTrimEnd(TrimStart(s));
    SplitTrimStart(s);
  }

  /** A line is empty after `strip()` exactly when it is all whitespace. */
  lemma StripEmptyIffBlank(s: string)
    ensures Strip(s) == [] <==> AllSpace(s)
  {
  }

  /** Splitting the single-space join of tokens gives the tokens back. */
  lemma {:induction false} SplitJoin(ts: seq<string>)
    requires AllTokens(ts)
    ensures Split(Join(ts, " ")) == ts
    decreases |ts|
  {
    if |ts| == 1 {
      SplitOfToken(ts[0]);
    } else if |ts| > 1 {
      assert ts[0] + " " + Join(ts[1..], " ") == ts[0] + [' '] + Join(ts[1..], " ");
      SplitAtSpace(ts[0], ' ', Join(ts[1..], " "));
      SplitOfToken(ts[0]);
      SplitJoin(ts[1..]);
    }
  }

  /** The single-space join of tokens holds no whitespace besides the separators. */
  lemma {:induction false} JoinSpaces(ts: seq<string>, c: char)
    requires AllTokens(ts)
    requires IsSpace(c) && c != ' '
    ensures c !in Join(ts, " ")
    decreases |ts|
  {
    if |ts| == 1 {
      assert forall i :: 0 <= i < |ts[0]| ==> ts[0][i] != c;
    } else if |ts| > 1 {
      assert forall i :: 0 <= i < |ts[0]| ==> ts[0][i] != c;
      JoinSpaces(ts[1..], c);
    }
  }
}
