/**
 * Sliding windows over a token sequence, as `generate_ngrams` yields them.
 */
module NGrams {
  import opened Wrappers

  /** An n-gram: the tuple of the tokens of one window. */
  type NGram = seq<string>

  /** `len(tokens) - n + 1` clamped at zero, which is the length of
      `range(len(tokens) - n + 1)`. */
  function WindowCount(length: nat, n: nat): nat {
    if length >= n then length - n + 1 else 0
  }

  /** The windows of length `n`, defined as the first `n` tokens followed by
      the windows of the tokens after the first. There are
      max(0, len(tokens) - n + 1) of them, the i-th is `tokens[i:i + n]`,
      and so each has length exactly n. */
  function Windows(tokens: seq<string>, n: nat): (ws: seq<NGram>)
    requires n >= 1
    ensures |ws| == WindowCount(|tokens|, n)
    ensures forall i :: 0 <= i < |ws| ==> i + n <= |tokens| && ws[i] == tokens[i..i + n]
    decreases |tokens|
  {
    if |tokens| < n then []
    else
      var rest := Windows(tokens[1..], n);
      assert forall i :: 0 <= i < |rest| ==> rest[i] == tokens[i + 1..i + 1 + n];
      [tokens[..n]] + rest
  }

  /** Consecutive windows overlap in n - 1 tokens. */
  lemma WindowsOverlap(tokens: seq<string>, n: nat, i: nat)
    requires n >= 1 && i + 1 < |Windows(tokens, n)|
    ensures Windows(tokens, n)[i][1..] == Windows(tokens, n)[i + 1][..n - 1]
  {
  }

  /** `generate_ngrams`: for n < 1 it raises ValueError before producing any
      window and whatever the tokens; otherwise it yields `tokens[i:i + n]`
      for each i in `range(len(tokens) - n + 1)`. */
  method GenerateNGrams(tokens: seq<string>, n: int) returns (r: Result<seq<NGram>>)
    ensures n <= 0 <==> r.Err?
    ensures r.Err? ==> r.error == NonPositiveN
    ensures r.Ok? ==> r.value == Windows(tokens, n)
    ensures r.Ok? ==> |r.value| == WindowCount(|tokens|, n)
    ensures r.Ok? ==> forall i :: 0 <= i < |r.value| ==> r.value[i] == tokens[i..i + n]
  {
    if n <= 0 {
      return Err(NonPositiveN);
    }
    var windows: seq<NGram> := [];
    var stop := |tokens| - n + 1;
    var i := 0;
    while i < stop
      invariant i == 0 || 0 < i <= stop
      invariant |windows| == i
      invariant forall j :: 0 <= j < i ==> windows[j] == tokens[j..j + n]
    {
      windows := windows + [tokens[i..i + n]];
      i := i + 1;
    }
    return Ok(windows);
  }
}
