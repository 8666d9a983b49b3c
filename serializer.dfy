/**
 * The output side of `write_ngrams_to_tsv`: the order `Counter.most_common()`
 * lists the entries in, and the text of each output line. The file itself is
 * the sequence of lines the method writes.
 */
module Serializer {
  import opened Wrappers
  import opened Text
  import opened NGrams
  import opened Counting

  /** One `(ngram, count)` pair of `Counter.items()`. */
  datatype Entry = Entry(ngram: NGram, count: nat)

  /** `counter.items()`: the entries in the dictionary's insertion order. */
  function Items(order: seq<NGram>, counts: map<NGram, nat>): (es: seq<Entry>)
    requires forall k :: k in order ==> k in counts
    ensures |es| == |order|
    ensures forall i :: 0 <= i < |es| ==> es[i] == Entry(order[i], counts[order[i]])
  {
    if order == [] then []
    else
      var last := order[|order| - 1];
      Items(order[..|order| - 1], counts) + [Entry(last, counts[last])]
  }

  /** The sum of the counts of `es`. */
  function SumEntries(es: seq<Entry>): nat {
    if es == [] then 0 else SumEntries(es[..|es| - 1]) + es[|es| - 1].count
  }

  // ---------------------------------------------------------------------
  // most_common(): sorted(items, key=count, reverse=True), a stable sort.
  // ---------------------------------------------------------------------

  predicate NonIncreasing(es: seq<Entry>) {
    forall i, j :: 0 <= i < j < |es| ==> es[i].count >= es[j].count
  }

  /** The entries with count `c`, in their order in `es`. */
  function WithCount(es: seq<Entry>, c: nat): seq<Entry> {
    if es == [] then [] else Keep(es[0], c) + WithCount(es[1..], c)
  }

  function Keep(e: Entry, c: nat): seq<Entry> {
    if e.count == c then [e] else []
  }

  /** Places `e` before the first entry whose count is not larger than its own. */
  function Insert(e: Entry, s: seq<Entry>): (r: seq<Entry>)
    requires NonIncreasing(s)
    ensures NonIncreasing(r)
    ensures multiset(r) == multiset(s) + multiset{e}
    ensures |r| == |s| + 1
    ensures r[0] == e || (s != [] && r[0] == s[0])
  {
    if s == [] || e.count >= s[0].count then
      ConsSorted(e, s);
      [e] + s
    else
      var rest := Insert(e, s[1..]);
      InsertPastHead(e, s, rest);
      [s[0]] + rest
  }

  /** Inserting past the head of a sorted list, then putting the head back,
      keeps it sorted and adds exactly the inserted entry. */
  lemma InsertPastHead(e: Entry, s: seq<Entry>, rest: seq<Entry>)
    requires s != [] && NonIncreasing(s) && e.count < s[0].count
    requires rest != [] && NonIncreasing(rest)
    requires multiset(rest) == multiset(s[1..]) + multiset{e}
    requires rest[0] == e || (|s| > 1 && rest[0] == s[1])
    ensures NonIncreasing([s[0]] + rest)
    ensures multiset([s[0]] + rest) == multiset(s) + multiset{e}
  {
    ConsSorted(s[0], rest);
    assert s == [s[0]] + s[1..];
  }

  /** An entry at least as frequent as the head of a sorted list can go first. */
  lemma ConsSorted(x: Entry, s: seq<Entry>)
    requires NonIncreasing(s) && (s == [] || x.count >= s[0].count)
    ensures NonIncreasing([x] + s)
  {
    forall i, j | 0 <= i < j < |s| + 1
      ensures ([x] + s)[i].count >= ([x] + s)[j].count
    {
      if i == 0 {
        assert s[0].count >= s[j - 1].count;
      }
    }
  }

  /** `Counter.most_common()`: the entries by descending count; an insertion
      sort that places each entry before the equal ones after it. */
  function MostCommon(es: seq<Entry>): (r: seq<Entry>)
    ensures NonIncreasing(r)
    ensures multiset(r) == multiset(es)
  {
    if es == [] then []
    else
      assert es == [es[0]] + es[1..];
      Insert(es[0], MostCommon(es[1..]))
  }

  lemma WithCountCons(x: Entry, s: seq<Entry>, c: nat)
    ensures WithCount([x] + s, c) == Keep(x, c) + WithCount(s, c)
  {
    assert ([x] + s)[1..] == s;
  }

  lemma {:induction false} InsertWithCount(e: Entry, s: seq<Entry>, c: nat)
    requires NonIncreasing(s)
    ensures WithCount(Insert(e, s), c) == WithCount([e] + s, c)
    decreases |s|
  {
    if s != [] && e.count < s[0].count {
      var x, s' := s[0], s[1..];
      assert s == [x] + s';
      InsertWithCount(e, s', c);
      PassOver(e, x, s', Insert(e, s'), c);
    }
  }

  /** An entry moved past one of a different count leaves the entries of
      each count in their order. */
  lemma PassOver(e: Entry, x: Entry, s: seq<Entry>, rest: seq<Entry>, c: nat)
    requires e.count != x.count
    requires WithCount(rest, c) == WithCount([e] + s, c)
    ensures WithCount([x] + rest, c) == WithCount([e] + ([x] + s), c)
  {
    calc {
      WithCount([x] + rest, c);
      { WithCountCons(x, rest, c); }
      Keep(x, c) + WithCount(rest, c);
      { WithCountCons(e, s, c); }
      Keep(x, c) + (Keep(e, c) + WithCount(s, c));
      { assert Keep(x, c) == [] || Keep(e, c) == []; }
      Keep(e, c) + (Keep(x, c) + WithCount(s, c));
      { WithCountCons(x, s, c); }
      Keep(e, c) + WithCount([x] + s, c);
      { WithCountCons(e, [x] + s, c); }
      WithCount([e] + ([x] + s), c);
    }
  }

  /** Stability: for every count, the entries with that count come out of
      `most_common()` in the order they went in. */
  lemma {:induction false} MostCommonStable(es: seq<Entry>, c: nat)
    ensures WithCount(MostCommon(es), c) == WithCount(es, c)
    decreases |es|
  {
    if es != [] {
      MostCommonStable(es[1..], c);
      InsertWithCount(es[0], MostCommon(es[1..]), c);
      assert ([es[0]] + MostCommon(es[1..]))[1..] == MostCommon(es[1..]);
    }
  }

  lemma {:induction false} SumEntriesCons(e: Entry, s: seq<Entry>)
    ensures SumEntries([e] + s) == e.count + SumEntries(s)
    decreases |s|
  {
    if s != [] {
      var s' := s[..|s| - 1];
      assert ([e] + s)[..|s|] == [e] + s';
      SumEntriesCons(e, s');
    }
  }

  lemma {:induction false} InsertSum(e: Entry, s: seq<Entry>)
    requires NonIncreasing(s)
    ensures SumEntries(Insert(e, s)) == e.count + SumEntries(s)
    decreases |s|
  {
    if s == [] || e.count >= s[0].count {
      SumEntriesCons(e, s);
    } else {
      InsertSum(e, s[1..]);
      SumEntriesCons(s[0], Insert(e, s[1..]));
      SumEntriesCons(s[0], s[1..]);
      assert [s[0]] + s[1..] == s;
    }
  }

  /** `most_common()` loses no count: the counts it lists add up to the
      counts of the items. */
  lemma {:induction false} MostCommonSum(es: seq<Entry>)
    ensures SumEntries(MostCommon(es)) == SumEntries(es)
    decreases |es|
  {
    if es != [] {
      MostCommonSum(es[1..]);
      InsertSum(es[0], MostCommon(es[1..]));
      SumEntriesCons(es[0], es[1..]);
      assert [es[0]] + es[1..] == es;
    }
  }

  /** The items of a counter carry the counter's counts. */
  lemma {:induction false} ItemsSum(order: seq<NGram>, counts: map<NGram, nat>)
    requires forall k :: k in order ==> k in counts
    ensures SumEntries(Items(order, counts)) == SumCounts(order, counts)
    decreases |order|
  {
    if order != [] {
      var p := order[..|order| - 1];
      ItemsSum(p, counts);
      assert Items(order, counts)[..|p|] == Items(p, counts);
    }
  }

  // ---------------------------------------------------------------------
  // Relative order within one count, stated position by position.
  // ---------------------------------------------------------------------

  lemma WithCountHead(a: seq<Entry>, b: seq<Entry>, c: nat)
    requires a != []
    ensures WithCount(a + b, c) == Keep(a[0], c) + WithCount(a[1..] + b, c)
  {
    assert (a + b)[0] == a[0] && (a + b)[1..] == a[1..] + b;
  }

  lemma {:induction false} WithCountAppend(a: seq<Entry>, b: seq<Entry>, c: nat)
    ensures WithCount(a + b, c) == WithCount(a, c) + WithCount(b, c)
    decreases |a|
  {
    if a != [] {
      var k, u, v := Keep(a[0], c), WithCount(a[1..], c), WithCount(b, c);
      assert WithCount(a, c) == k + u;
      WithCountHead(a, b, c);
      WithCountAppend(a[1..], b, c);
      assert k + (u + v) == (k + u) + v;
    } else {
      assert a + b == b;
    }
  }

  lemma {:induction false} WithCountElements(es: seq<Entry>, c: nat)
    ensures forall x :: x in WithCount(es, c) ==> x in es
    decreases |es|
  {
    if es != [] {
      WithCountElements(es[1..], c);
    }
  }

  lemma {:induction false} WithCountDistinct(es: seq<Entry>, c: nat)
    requires NoDuplicates(es)
    ensures NoDuplicates(WithCount(es, c))
    decreases |es|
  {
    if es != [] {
      WithCountDistinct(es[1..], c);
      WithCountElements(es[1..], c);
      assert es[0] !in es[1..];
    }
  }

  /** The place of `es[p]` among the entries of its count. */
  function Rank(es: seq<Entry>, p: nat): nat
    requires p < |es|
  {
    |WithCount(es[..p], es[p].count)|
  }

  lemma RankAt(es: seq<Entry>, p: nat)
    requires p < |es|
    ensures Rank(es, p) < |WithCount(es, es[p].count)|
    ensures WithCount(es, es[p].count)[Rank(es, p)] == es[p]
  {
    var c := es[p].count;
    assert es == es[..p] + es[p..];
    WithCountAppend(es[..p], es[p..], c);
    assert es[p..][0] == es[p];
  }

  lemma RankOrder(es: seq<Entry>, p: nat, q: nat)
    requires p < q < |es| && es[p].count == es[q].count
    ensures Rank(es, p) < Rank(es, q)
  {
    var c := es[p].count;
    assert es[..q] == es[..p] + es[p..q];
    WithCountAppend(es[..p], es[p..q], c);
    assert es[p..q][0] == es[p];
  }

  /** Among distinct entries, an entry's place within its count determines
      its position. */
  lemma RankIdentifies(es: seq<Entry>, p: nat, k: nat)
    requires p < |es|
    requires NoDuplicates(WithCount(es, es[p].count))
    requires k < |WithCount(es, es[p].count)| && WithCount(es, es[p].count)[k] == es[p]
    ensures Rank(es, p) == k
  {
    RankAt(es, p);
  }

  /** If `r` lists the entries of every count in the order `es` does, then
      two entries of `r` with equal counts stand in `es` in the same order. */
  lemma SameOrderWithinCount(es: seq<Entry>, r: seq<Entry>, i: nat, j: nat)
    requires NoDuplicates(es)
    requires i < j < |r| && r[i].count == r[j].count
    requires WithCount(r, r[i].count) == WithCount(es, r[i].count)
    requires r[i] in es && r[j] in es
    ensures FirstIndex(es, r[i]) < FirstIndex(es, r[j])
  {
    WithCountDistinct(es, r[i].count);
    RankAt(r, i);
    RankAt(r, j);
    RankOrder(r, i, j);
    var pi, pj := FirstIndex(es, r[i]), FirstIndex(es, r[j]);
    RankIdentifies(es, pi, Rank(r, i));
    RankIdentifies(es, pj, Rank(r, j));
    if pj < pi {
      RankOrder(es, pj, pi);
    }
  }

  /** Ties come out of `most_common()` in insertion order: of two output
      entries with equal counts, the earlier one was inserted earlier. */
  lemma TiesKeepInsertionOrder(es: seq<Entry>, i: nat, j: nat)
    requires NoDuplicates(es)
    requires i < j < |MostCommon(es)|
    requires MostCommon(es)[i].count == MostCommon(es)[j].count
    ensures MostCommon(es)[i] in es && MostCommon(es)[j] in es
    ensures FirstIndex(es, MostCommon(es)[i]) < FirstIndex(es, MostCommon(es)[j])
  {
    var r := MostCommon(es);
    assert r[i] in multiset(es) && r[j] in multiset(es);
    MostCommonStable(es, r[i].count);
    SameOrderWithinCount(es, r, i, j);
  }

  // ---------------------------------------------------------------------
  // Line format: tokens joined by " ", a tab, the decimal count, "\n".
  // ---------------------------------------------------------------------

  predicate IsDigit(c: char) {
    '0' <= c <= '9'
  }

  predicate AllDigits(s: string) {
    forall i :: 0 <= i < |s| ==> IsDigit(s[i])
  }

  function DigitChar(d: nat): (c: char)
    requires d < 10
  {
    ('0' as int + d) as char
  }

  /** `str(count)`: decimal digits, without leading zeros. */
  function Decimal(n: nat): (s: string)
    ensures s != [] && AllDigits(s)
    ensures s[0] == '0' ==> n == 0
  {
    if n < 10 then [DigitChar(n)] else Decimal(n / 10) + [DigitChar(n % 10)]
  }

  /** The number a string of decimal digits denotes. */
  function DecimalValue(s: string): nat
    requires AllDigits(s)
  {
    if s == [] then 0
    else DecimalValue(s[..|s| - 1]) * 10 + (s[|s| - 1] as int - '0' as int)
  }

  lemma {:induction false} DecimalRoundTrip(n: nat)
    ensures DecimalValue(Decimal(n)) == n
  {
    if n >= 10 {
      DecimalRoundTrip(n / 10);
      var s := Decimal(n);
      assert s[..|s| - 1] == Decimal(n / 10);
    }
  }

  /** The line `write_ngrams_to_tsv` writes for one entry. */
  function FormatLine(e: Entry): string {
    Join(e.ngram, " ") + "\t" + Decimal(e.count) + "\n"
  }

  /** The lines for a sequence of entries, one each, in order. */
  function Render(es: seq<Entry>): (lines: seq<string>)
    ensures |lines| == |es|
    ensures forall i :: 0 <= i < |es| ==> lines[i] == FormatLine(es[i])
  {
    if es == [] then [] else Render(es[..|es| - 1]) + [FormatLine(es[|es| - 1])]
  }

  /** Rendering one more entry appends its line. */
  lemma RenderStep(es: seq<Entry>, i: nat)
    requires i < |es|
    ensures Render(es[..i + 1]) == Render(es[..i]) + [FormatLine(es[i])]
  {
    assert es[..i + 1][..i] == es[..i];
  }

  /** `write_ngrams_to_tsv` after `open`: one formatted line per entry of
      `most_common()`. */
  method WriteNGramsToTsv(counter: Counter) returns (lines: seq<string>)
    requires counter.Valid()
    ensures lines == Render(MostCommon(Items(counter.order, counter.counts)))
  {
    var sorted := MostCommon(Items(counter.order, counter.counts));
    lines := [];
    for i := 0 to |sorted|
      invariant lines == Render(sorted[..i])
    {
      RenderStep(sorted, i);
      var ngramStr := Join(sorted[i].ngram, " ");
      lines := lines + [ngramStr + "\t" + Decimal(sorted[i].count) + "\n"];
    }
    assert sorted[..|sorted|] == sorted;
  }

  // ---------------------------------------------------------------------
  // Reading a line back: the inverse of FormatLine.
  // ---------------------------------------------------------------------

  /** The text before the first tab and the text after it. */
  function SplitAtTab(s: string): Option<(string, string)> {
    if s == [] then None
    else if s[0] == '\t' then Some(([], s[1..]))
    else match SplitAtTab(s[1..])
      case None => None
      case Some(halves) => Some(([s[0]] + halves.0, halves.1))
  }

  /** Parses one output line: n-gram text, tab, decimal count, newline. */
  function ParseLine(line: string): Option<Entry> {
    if line == [] || line[|line| - 1] != '\n' then None
    else match SplitAtTab(line[..|line| - 1])
      case None => None
      case Some(halves) =>
        if halves.1 != [] && AllDigits(halves.1)
        then Some(Entry(Split(halves.0), DecimalValue(halves.1)))
        else None
  }

  lemma {:induction false} SplitAtFirstTab(a: string, b: string)
    requires '\t' !in a
    ensures SplitAtTab(a + "\t" + b) == Some((a, b))
    decreases |a|
  {
    if a == [] {
      assert a + "\t" + b == ['\t'] + b;
    } else {
      assert (a + "\t" + b)[1..] == a[1..] + "\t" + b;
      SplitAtFirstTab(a[1..], b);
      assert [a[0]] + a[1..] == a;
    }
  }

  /** Every line written reads back as the entry it was written for, provided
      the n-gram's tokens are tokens in the sense of `str.split()`. */
  lemma ParseFormatLine(e: Entry)
    requires AllTokens(e.ngram)
    ensures ParseLine(FormatLine(e)) == Some(e)
  {
    var text, digits := Join(e.ngram, " "), Decimal(e.count);
    var line := FormatLine(e);
    assert line[..|line| - 1] == text + "\t" + digits;
    JoinSpaces(e.ngram, '\t');
    SplitAtFirstTab(text, digits);
    SplitJoin(e.ngram);
    DecimalRoundTrip(e.count);
  }

  /** The table {("a","b"): 3, ("c","d"): 3, ("e","f"): 1}, with ("e","f")
      inserted first and ("a","b") before ("c","d"), is listed by
      `most_common()` as ("a","b"), ("c","d"), ("e","f"). */
  lemma ExampleOrder()
    ensures MostCommon([Entry(["e", "f"], 1), Entry(["a", "b"], 3), Entry(["c", "d"], 3)])
         == [Entry(["a", "b"], 3), Entry(["c", "d"], 3), Entry(["e", "f"], 1)]
  {
    var ef, ab, cd := Entry(["e", "f"], 1), Entry(["a", "b"], 3), Entry(["c", "d"], 3);
    assert MostCommon([cd]) == [cd];
    assert [ab, cd][1..] == [cd];
    assert MostCommon([ab, cd]) == [ab, cd];
    assert [ef, ab, cd][1..] == [ab, cd];
    assert [cd][1..] == [];
    assert Insert(ef, [cd]) == [cd, ef];
    assert Insert(ef, [ab, cd]) == [ab, cd, ef];
  }

  /** ... and is written as the lines "a b\t3", "c d\t3", "e f\t1". */
  lemma ExampleLines()
    ensures Render([Entry(["a", "b"], 3), Entry(["c", "d"], 3), Entry(["e", "f"], 1)])
         == ["a b\t3\n", "c d\t3\n", "e f\t1\n"]
  {
    var ab, cd, ef := Entry(["a", "b"], 3), Entry(["c", "d"], 3), Entry(["e", "f"], 1);
    assert FormatLine(ab) == "a b\t3\n" by {
      assert Decimal(3) == "3" && Join(["a", "b"], " ") == "a b";
    }
    assert FormatLine(cd) == "c d\t3\n" by {
      assert Decimal(3) == "3" && Join(["c", "d"], " ") == "c d";
    }
    assert FormatLine(ef) == "e f\t1\n" by {
      assert Decimal(1) == "1" && Join(["e", "f"], " ") == "e f";
    }
  }
}
