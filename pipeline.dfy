/**
 * The single-resolution run of `main.py`: tokens of the input lines, the
 * Counter of their n-grams, and the lines of the TSV output; and what that
 * output says about the input.
 */
module Pipeline {
  import opened Wrappers
  import opened Text
  import opened Tokenizer
  import opened NGrams
  import opened Counting
  import opened Serializer

  /** The entries of the table for window size n, in the order they are
      written. */
  function Table(tokens: seq<string>, n: nat): seq<Entry>
    requires n >= 1
  {
    TableOf(Windows(tokens, n))
  }

  /** The counter of the windows `ws`, listed by `most_common()`. */
  function TableOf(ws: seq<NGram>): seq<Entry> {
    SumOfCounts(ws);
    MostCommon(Items(FirstSeen(ws), Tally(ws)))
  }

  /** The output lines for the input lines and n, or the error raised. */
  function NGramTsv(lines: seq<string>, n: int): Result<seq<string>> {
    if n <= 0 then Err(NonPositiveN) else Ok(Render(Table(Tokenize(lines), n)))
  }

  /** `read_tokens_from_file`, then `count_ngrams`, then `write_ngrams_to_tsv`. */
  method RunSingleResolution(lines: seq<string>, n: int) returns (r: Result<seq<string>>)
    ensures r == NGramTsv(lines, n)
    ensures n <= 0 ==> r == Err(NonPositiveN)
  {
    var tokens := ReadTokens(lines);
    var counted := CountNGrams(tokens, n);
    if counted.Err? {
      return Err(counted.error);
    }
    SumOfCounts(Windows(tokens, n));
    var out := WriteNGramsToTsv(counted.value);
    return Ok(out);
  }

  lemma WindowsAreTokens(tokens: seq<string>, n: nat)
    requires n >= 1 && AllTokens(tokens)
    ensures forall w :: w in Windows(tokens, n) ==> AllTokens(w)
  {
    var ws := Windows(tokens, n);
    forall w | w in ws
      ensures AllTokens(w)
    {
      var i :| 0 <= i < |ws| && ws[i] == w;
      assert forall j :: 0 <= j < |w| ==> w[j] == tokens[i + j];
    }
  }

  /** The counter's items: one per distinct window, each with the number
      of windows equal to it. */
  lemma ItemsOfWindows(ws: seq<NGram>)
    ensures forall k :: k in FirstSeen(ws) ==> k in Tally(ws)
    ensures |Items(FirstSeen(ws), Tally(ws))| == |FirstSeen(ws)|
    ensures forall p :: 0 <= p < |Items(FirstSeen(ws), Tally(ws))| ==>
              && Items(FirstSeen(ws), Tally(ws))[p].ngram in ws
              && Items(FirstSeen(ws), Tally(ws))[p].count == multiset(ws)[Items(FirstSeen(ws), Tally(ws))[p].ngram] >= 1
    ensures DistinctNGrams(Items(FirstSeen(ws), Tally(ws)))
  {
    SumOfCounts(ws);
    TallyCounts(ws);
    FirstSeenOrder(ws);
  }

  predicate DistinctNGrams(es: seq<Entry>) {
    forall i, j :: 0 <= i < j < |es| ==> es[i].ngram != es[j].ngram
  }

  /** A permutation of entries with distinct n-grams has distinct n-grams. */
  lemma PermutationOfDistinct(t: seq<Entry>, items: seq<Entry>)
    requires multiset(t) == multiset(items) && DistinctNGrams(items)
    ensures |t| == |items|
    ensures forall i :: 0 <= i < |t| ==> t[i] in items
    ensures DistinctNGrams(t)
  {
    assert |t| == |items| by {
      assert |multiset(t)| == |multiset(items)|;
    }
    forall i | 0 <= i < |t|
      ensures t[i] in items
    {
      assert t[i] in multiset(items);
    }
    forall i, j | 0 <= i < j < |t|
      ensures t[i].ngram != t[j].ngram
    {
      if t[i].ngram == t[j].ngram {
        var p, q := FirstIndex(items, t[i]), FirstIndex(items, t[j]);
        assert t[i] == t[j];
        Twice(t, i, j);
        DistinctOnce(items, p);
        assert false;
      }
    }
  }

  lemma Twice(t: seq<Entry>, i: nat, j: nat)
    requires i < j < |t| && t[i] == t[j]
    ensures multiset(t)[t[i]] >= 2
  {
    assert t == t[..i] + [t[i]] + t[i + 1..j] + [t[j]] + t[j + 1..];
  }

  lemma DistinctOnce(s: seq<Entry>, p: nat)
    requires p < |s| && DistinctNGrams(s)
    ensures multiset(s)[s[p]] == 1
  {
    assert s == s[..p] + [s[p]] + s[p + 1..];
    assert s[p] !in s[..p];
    assert s[p] !in s[p + 1..];
  }

  /** Every entry of the table of `ws` is one of the windows, with the
      number of windows equal to it as count; the n-grams are distinct and
      there is one entry per distinct window. */
  lemma TableOfEntries(ws: seq<NGram>)
    ensures |TableOf(ws)| == |FirstSeen(ws)|
    ensures forall i :: 0 <= i < |TableOf(ws)| ==>
              TableOf(ws)[i].ngram in ws && TableOf(ws)[i].count == multiset(ws)[TableOf(ws)[i].ngram] >= 1
    ensures DistinctNGrams(TableOf(ws))
  {
    ItemsOfWindows(ws);
    var items := Items(FirstSeen(ws), Tally(ws));
    var t := TableOf(ws);
    PermutationOfDistinct(t, items);
    forall i | 0 <= i < |t|
      ensures t[i].ngram in ws && t[i].count == multiset(ws)[t[i].ngram] >= 1
    {
      var p := FirstIndex(items, t[i]);
      assert items[p] == t[i];
    }
  }

  /** The same for the table of the tokens, whose n-grams have length n. */
  lemma TableEntries(tokens: seq<string>, n: nat)
    requires n >= 1
    ensures |Table(tokens, n)| == |FirstSeen(Windows(tokens, n))|
    ensures forall i :: 0 <= i < |Table(tokens, n)| ==>
              && Table(tokens, n)[i].ngram in Windows(tokens, n)
              && |Table(tokens, n)[i].ngram| == n
              && Table(tokens, n)[i].count == multiset(Windows(tokens, n))[Table(tokens, n)[i].ngram] >= 1
    ensures DistinctNGrams(Table(tokens, n))
  {
    TableOfEntries(Windows(tokens, n));
    WindowLengths(tokens, n);
  }

  lemma WindowLengths(tokens: seq<string>, n: nat)
    requires n >= 1
    ensures forall w :: w in Windows(tokens, n) ==> |w| == n
  {
    var ws := Windows(tokens, n);
    forall w | w in ws
      ensures |w| == n
    {
      var k :| 0 <= k < |ws| && ws[k] == w;
    }
  }

  /** Entries are listed by non-increasing count, and entries with equal
      counts in the order their n-grams first occur among the windows. */
  lemma TableOfOrder(ws: seq<NGram>, i: nat, j: nat)
    requires i < j < |TableOf(ws)|
    ensures TableOf(ws)[i].count >= TableOf(ws)[j].count
    ensures TableOf(ws)[i].ngram in ws && TableOf(ws)[j].ngram in ws
    ensures TableOf(ws)[i].count == TableOf(ws)[j].count ==>
              FirstIndex(ws, TableOf(ws)[i].ngram) < FirstIndex(ws, TableOf(ws)[j].ngram)
  {
    TableOfEntries(ws);
    ItemsOfWindows(ws);
    FirstSeenOrder(ws);
    var order := FirstSeen(ws);
    var items := Items(order, Tally(ws));
    var t := TableOf(ws);
    if t[i].count == t[j].count {
      assert NoDuplicates(items) by {
        assert DistinctNGrams(items);
      }
      TiesKeepInsertionOrder(items, i, j);
      var p, q := FirstIndex(items, t[i]), FirstIndex(items, t[j]);
      assert t[i].ngram == order[p] && t[j].ngram == order[q];
    }
  }

  /** Lines are written by non-increasing count, and lines with equal
      counts in the order their n-grams first occur in the token stream. */
  lemma TableOrder(tokens: seq<string>, n: nat, i: nat, j: nat)
    requires n >= 1 && i < j < |Table(tokens, n)|
    ensures Table(tokens, n)[i].count >= Table(tokens, n)[j].count
    ensures Table(tokens, n)[i].ngram in Windows(tokens, n)
    ensures Table(tokens, n)[j].ngram in Windows(tokens, n)
    ensures Table(tokens, n)[i].count == Table(tokens, n)[j].count ==>
              (FirstIndex(Windows(tokens, n), Table(tokens, n)[i].ngram)
               < FirstIndex(Windows(tokens, n), Table(tokens, n)[j].ngram))
  {
    TableOfOrder(Windows(tokens, n), i, j);
  }

  /** Each output line reads back as the entry written on it. */
  lemma LinesReadBack(lines: seq<string>, n: nat)
    requires n >= 1
    ensures NGramTsv(lines, n).Ok?
    ensures |NGramTsv(lines, n).value| == |Table(Tokenize(lines), n)|
    ensures forall i :: 0 <= i < |NGramTsv(lines, n).value| ==>
              ParseLine(NGramTsv(lines, n).value[i]) == Some(Table(Tokenize(lines), n)[i])
  {
    var tokens := Tokenize(lines);
    var t := Table(tokens, n);
    TableEntries(tokens, n);
    WindowsAreTokens(tokens, n);
    forall i | 0 <= i < |t|
      ensures ParseLine(FormatLine(t[i])) == Some(t[i])
    {
      ParseFormatLine(t[i]);
    }
  }

  /** The sum of the counts column. */
  function CountColumnSum(out: seq<string>): nat {
    if out == [] then 0
    else
      var last := ParseLine(out[|out| - 1]);
      CountColumnSum(out[..|out| - 1]) + (if last.Some? then last.value.count else 0)
  }

  lemma {:induction false} CountColumnOfTable(t: seq<Entry>)
    requires forall i :: 0 <= i < |t| ==> ParseLine(FormatLine(t[i])) == Some(t[i])
    ensures CountColumnSum(Render(t)) == SumEntries(t)
    decreases |t|
  {
    if t != [] {
      var p := t[..|t| - 1];
      CountColumnOfTable(p);
      assert Render(t)[..|p|] == Render(p);
    }
  }

  /** Reading the output back and adding up its count column gives the
      number of windows, max(0, len(tokens) - n + 1). */
  lemma CountColumnIsWindowCount(lines: seq<string>, n: nat)
    requires n >= 1
    ensures NGramTsv(lines, n).Ok?
    ensures CountColumnSum(NGramTsv(lines, n).value) == WindowCount(|Tokenize(lines)|, n)
  {
    var tokens := Tokenize(lines);
    var ws := Windows(tokens, n);
    LinesReadBack(lines, n);
    var t := Table(tokens, n);
    forall i | 0 <= i < |t|
      ensures ParseLine(FormatLine(t[i])) == Some(t[i])
    {
      assert Render(t)[i] == FormatLine(t[i]);
    }
    CountColumnOfTable(t);
    SumOfCounts(ws);
    CountsConserveWindows(tokens, n);
    MostCommonSum(Items(FirstSeen(ws), Tally(ws)));
    ItemsSum(FirstSeen(ws), Tally(ws));
  }

  /** For unigrams the count column adds up to the number of tokens. */
  lemma UnigramCountsAreTokenCount(lines: seq<string>)
    ensures NGramTsv(lines, 1).Ok?
    ensures CountColumnSum(NGramTsv(lines, 1).value) == |Tokenize(lines)|
  {
    CountColumnIsWindowCount(lines, 1);
  }
}
