/**
 * Line-based whitespace tokenization, as `read_tokens_from_file` does it once
 * the file has been opened: the file is given as the sequence of its lines.
 */
module Tokenizer {
  import opened Text

  /** The token sequence of a text: the whitespace-split tokens of every line,
      concatenated in file order with nothing between lines. */
  function Tokenize(lines: seq<string>): (tokens: seq<string>)
    ensures AllTokens(tokens)
  {
    if lines == [] then []
    else Tokenize(lines[..|lines| - 1]) + Split(lines[|lines| - 1])
  }

  /** `read_tokens_from_file` after `open`: strip each line, skip the lines
      that are then empty, and extend the token list with the line's split. */
  method ReadTokens(lines: seq<string>) returns (tokens: seq<string>)
    ensures tokens == Tokenize(lines)
    ensures AllTokens(tokens)
  {
    tokens := [];
    for i := 0 to |lines|
      invariant tokens == Tokenize(lines[..i])
    {
      assert lines[..i + 1][..i] == lines[..i];
      var line := Strip(lines[i]);
      SplitStrip(lines[i]);
      if line == [] {
        StripEmptyIffBlank(lines[i]);
        SplitOfBlank(lines[i]);
        continue;
      }
      tokens := tokens + Split(line);
    }
    assert lines[..|lines|] == lines;
  }

  /** Tokenizing two stretches of lines one after the other is tokenizing
      their concatenation: the join between them adds no token. */
  lemma {:induction false} TokenizeAppend(a: seq<string>, b: seq<string>)
    ensures Tokenize(a + b) == Tokenize(a) + Tokenize(b)
    decreases |b|
  {
    if b == [] {
      assert a + b == a;
    } else {
      var ab, b', last := a + b, b[..|b| - 1], b[|b| - 1];
      assert ab[..|ab| - 1] == a + b' && ab[|ab| - 1] == last;
      assert Tokenize(ab) == Tokenize(a + b') + Split(last);
      assert Tokenize(b) == Tokenize(b') + Split(last);
      TokenizeAppend(a, b');
    }
  }

  /** A line that is blank (empty after stripping) contributes no token,
      wherever it stands. */
  lemma BlankLineContributesNothing(before: seq<string>, line: string, after: seq<string>)
    requires Strip(line) == []
    ensures Tokenize(before + [line] + after) == Tokenize(before + after)
  {
    assert Split(line) == [] by {
      StripEmptyIffBlank(line);
      SplitOfBlank(line);
    }
    calc {
      Tokenize(before + [line] + after);
      { LineContributesItsSplit(before, line, after); }
      Tokenize(before) + Split(line) + Tokenize(after);
      { assert Tokenize(before) + [] == Tokenize(before); }
      Tokenize(before) + Tokenize(after);
      { TokenizeAppend(before, after); }
      Tokenize(before + after);
    }
  }

  /** A line that is not blank contributes exactly its whitespace-split tokens. */
  lemma LineContributesItsSplit(before: seq<string>, line: string, after: seq<string>)
    ensures Tokenize(before + [line] + after)
         == Tokenize(before) + Split(line) + Tokenize(after)
  {
    TokenizeAppend(before + [line], after);
    TokenizeAppend(before, [line]);
    assert [line][..0] == [];
    assert Tokenize([line]) == Tokenize([]) + Split(line);
  }

  /** `str.split()` keeps punctuation attached to the word before it. */
  lemma ExampleSplit()
    ensures Split("hi, you") == ["hi,", "you"]
  {
    assert Split("hi,") == ["hi,"] by { SplitOfToken("hi,"); }
    assert Split("you") == ["you"] by { SplitOfToken("you"); }
    assert "hi, you" == "hi," + [' '] + "you";
    SplitAtSpace("hi,", ' ', "you");
  }
}
