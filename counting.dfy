/**
 * Frequency aggregation, as `count_ngrams` does it with a `collections.Counter`:
 * a dictionary from n-gram to count whose keys keep their first-insertion order.
 */
module Counting {
  import opened Wrappers
  import opened NGrams

  predicate NoDuplicates<T(==)>(s: seq<T>) {
    forall i, j :: 0 <= i < j < |s| ==> s[i] != s[j]
  }

  /** The count a Counter reports for `key`: missing keys count zero. */
  function CountOf(counts: map<NGram, nat>, key: NGram): nat {
    if key in counts then counts[key] else 0
  }

  /** The counts after `counter[key] += 1`. */
  function Bumped(counts: map<NGram, nat>, key: NGram): map<NGram, nat> {
    counts[key := CountOf(counts, key) + 1]
  }

  /** The key order after `counter[key] += 1`: a new key goes last. */
  function Recorded(order: seq<NGram>, key: NGram): seq<NGram> {
    if key in order then order else order + [key]
  }

  /** The counts after `counter[w] += 1` for every window w, in order. */
  function Tally(ws: seq<NGram>): map<NGram, nat> {
    if ws == [] then map[] else Bumped(Tally(ws[..|ws| - 1]), ws[|ws| - 1])
  }

  /** The keys of that Counter in dictionary order: each distinct window, at
      the place where it first occurs. */
  function FirstSeen(ws: seq<NGram>): seq<NGram> {
    if ws == [] then [] else Recorded(FirstSeen(ws[..|ws| - 1]), ws[|ws| - 1])
  }

  /** The position of the first occurrence of `key` in `ws`. */
  function FirstIndex<T(==)>(ws: seq<T>, key: T): (i: nat)
    requires key in ws
    ensures i < |ws| && ws[i] == key && key !in ws[..i]
  {
    if ws[0] == key then 0 else 1 + FirstIndex(ws[1..], key)
  }

  /** The sum of the counts of `keys`. */
  function SumCounts(keys: seq<NGram>, counts: map<NGram, nat>): nat
    requires forall k :: k in keys ==> k in counts
  {
    if keys == [] then 0
    else SumCounts(keys[..|keys| - 1], counts) + counts[keys[|keys| - 1]]
  }

  /** A `collections.Counter` keyed by n-grams. `counts` is the dictionary and
      `order` its keys in insertion order, which the dictionary keeps. */
  class Counter {
    var counts: map<NGram, nat>
    var order: seq<NGram>

    /** Every key is listed once in `order`, and every stored count is
        positive, because keys are only created by an increment. */
    ghost predicate Valid()
      reads this
    {
      && NoDuplicates(order)
      && (forall k :: k in counts <==> k in order)
      && (forall k :: k in counts ==> counts[k] >= 1)
    }

    /** `Counter()`: an empty counter. */
    constructor ()
      ensures Valid()
      ensures counts == map[] && order == []
    {
      counts := map[];
      order := [];
    }

    /** `counter[key] += 1`: reads 0 for a missing key, stores one more, and
        a key stored for the first time goes to the end of the order. */
    method Increment(key: NGram)
      requires Valid()
      modifies this
      ensures Valid()
      ensures counts == Bumped(old(counts), key)
      ensures order == Recorded(old(order), key)
    {
      var current := if key in counts then counts[key] else 0;
      if key !in counts {
        order := order + [key];
      }
      counts := counts[key := current + 1];
    }
  }

  /** `count_ngrams`: one increment per window of `generate_ngrams(tokens, n)`,
      whose ValueError for n < 1 propagates. */
  method CountNGrams(tokens: seq<string>, n: int) returns (r: Result<Counter>)
    ensures n <= 0 <==> r.Err?
    ensures r.Err? ==> r.error == NonPositiveN
    ensures r.Ok? ==> fresh(r.value) && r.value.Valid()
    ensures r.Ok? ==> r.value.counts == Tally(Windows(tokens, n))
    ensures r.Ok? ==> r.value.order == FirstSeen(Windows(tokens, n))
  {
    var generated := GenerateNGrams(tokens, n);
    if generated.Err? {
      return Err(generated.error);
    }
    var ws := generated.value;
    var counter := new Counter();
    for i := 0 to |ws|
      invariant counter.Valid()
      invariant counter.counts == Tally(ws[..i])
      invariant counter.order == FirstSeen(ws[..i])
    {
      IncrementStep(ws, i);
      counter.Increment(ws[i]);
    }
    assert ws[..|ws|] == ws;
    return Ok(counter);
  }

  /** Counting one more window is one more increment. */
  lemma IncrementStep(ws: seq<NGram>, i: nat)
    requires i < |ws|
    ensures Tally(ws[..i + 1]) == Bumped(Tally(ws[..i]), ws[i])
    ensures FirstSeen(ws[..i + 1]) == Recorded(FirstSeen(ws[..i]), ws[i])
  {
    assert ws[..i + 1][..i] == ws[..i];
  }

  // ---------------------------------------------------------------------
  // What the Counter holds, independently of how it was built.
  // ---------------------------------------------------------------------

  /** The keys are exactly the windows; each count is the number of windows
      equal to its key, hence at least one. */
  lemma {:induction false} TallyCounts(ws: seq<NGram>)
    ensures forall k :: k in Tally(ws) <==> k in ws
    ensures forall k :: k in Tally(ws) ==> Tally(ws)[k] == multiset(ws)[k] >= 1
    decreases |ws|
  {
    if ws != [] {
      var p, w := ws[..|ws| - 1], ws[|ws| - 1];
      TallyCounts(p);
      assert ws == p + [w];
      assert multiset(ws) == multiset(p) + multiset{w};
    }
  }

  /** The keys of the counts are exactly the windows. */
  lemma {:induction false} TallyKeys(ws: seq<NGram>)
    ensures forall k :: k in Tally(ws) <==> k in ws
    decreases |ws|
  {
    if ws != [] {
      var p, w := ws[..|ws| - 1], ws[|ws| - 1];
      TallyKeys(p);
      assert ws == p + [w];
    }
  }

  /** The key order lists every distinct window, each once. */
  lemma {:induction false} FirstSeenKeys(ws: seq<NGram>)
    ensures NoDuplicates(FirstSeen(ws))
    ensures forall k :: k in FirstSeen(ws) <==> k in ws
    decreases |ws|
  {
    if ws != [] {
      var p, w := ws[..|ws| - 1], ws[|ws| - 1];
      FirstSeenKeys(p);
      assert ws == p + [w];
    }
  }

  /** The key order lists every distinct window exactly once, ordered by
      where each first occurs. */
  lemma {:induction false} FirstSeenOrder(ws: seq<NGram>)
    ensures NoDuplicates(FirstSeen(ws))
    ensures forall k :: k in FirstSeen(ws) <==> k in ws
    ensures forall i, j :: 0 <= i < j < |FirstSeen(ws)| ==>
              FirstIndex(ws, FirstSeen(ws)[i]) < FirstIndex(ws, FirstSeen(ws)[j])
    decreases |ws|
  {
    FirstSeenKeys(ws);
    if ws != [] {
      var p, w := ws[..|ws| - 1], ws[|ws| - 1];
      FirstSeenOrder(p);
      assert ws == p + [w];
      forall k | k in p
        ensures FirstIndex(ws, k) == FirstIndex(p, k)
      {
        FirstIndexExtend(p, w, k);
      }
      if w !in p {
        assert FirstIndex(ws, w) == |p| by {
          assert ws[..|p|] == p;
        }
      }
    }
  }

  lemma {:induction false} FirstIndexExtend<T>(p: seq<T>, w: T, k: T)
    requires k in p
    ensures FirstIndex(p + [w], k) == FirstIndex(p, k)
    decreases |p|
  {
    if p[0] != k {
      assert (p + [w])[1..] == p[1..] + [w];
      FirstIndexExtend(p[1..], w, k);
    }
  }

  lemma {:induction false} SumCountsIgnores(keys: seq<NGram>, counts: map<NGram, nat>, key: NGram, v: nat)
    requires forall k :: k in keys ==> k in counts
    requires key !in keys
    ensures SumCounts(keys, counts[key := v]) == SumCounts(keys, counts)
    decreases |keys|
  {
    if keys != [] {
      SumCountsIgnores(keys[..|keys| - 1], counts, key, v);
    }
  }

  lemma {:induction false} SumCountsBump(keys: seq<NGram>, counts: map<NGram, nat>, key: NGram)
    requires forall k :: k in keys ==> k in counts
    requires NoDuplicates(keys) && key in keys
    ensures SumCounts(keys, counts[key := counts[key] + 1]) == SumCounts(keys, counts) + 1
    decreases |keys|
  {
    var p, last := keys[..|keys| - 1], keys[|keys| - 1];
    if last == key {
      assert key !in p;
      SumCountsIgnores(p, counts, key, counts[key] + 1);
    } else {
      assert key in p by {
        assert keys == p + [last];
      }
      SumCountsBump(p, counts, key);
    }
  }

  /** Conservation: the counts of the distinct windows add up to the number
      of windows. */
  lemma {:induction false} SumOfCounts(ws: seq<NGram>)
    ensures forall k :: k in FirstSeen(ws) ==> k in Tally(ws)
    ensures SumCounts(FirstSeen(ws), Tally(ws)) == |ws|
    decreases |ws|
  {
    if ws != [] {
      var p, w := ws[..|ws| - 1], ws[|ws| - 1];
      SumOfCounts(p);
      TallyKeys(p);
      FirstSeenKeys(p);
      SumCountsIncrement(FirstSeen(p), Tally(p), w);
    }
  }

  /** One increment adds one to the sum of the counts over the key order. */
  lemma SumCountsIncrement(order: seq<NGram>, counts: map<NGram, nat>, key: NGram)
    requires NoDuplicates(order)
    requires forall k :: k in counts <==> k in order
    ensures forall k :: k in Recorded(order, key) ==> k in Bumped(counts, key)
    ensures SumCounts(Recorded(order, key), Bumped(counts, key)) == SumCounts(order, counts) + 1
  {
    if key in order {
      SumCountsBump(order, counts, key);
    } else {
      SumCountsIgnores(order, counts, key, 1);
      assert (order + [key])[..|order|] == order;
    }
  }

  /** The Counter of `count_ngrams(tokens, n)` in terms of the tokens: its
      counts sum to max(0, len(tokens) - n + 1), and it is empty when n
      exceeds the number of tokens. */
  lemma CountsConserveWindows(tokens: seq<string>, n: nat)
    requires n >= 1
    ensures forall k :: k in FirstSeen(Windows(tokens, n)) ==> k in Tally(Windows(tokens, n))
    ensures SumCounts(FirstSeen(Windows(tokens, n)), Tally(Windows(tokens, n)))
         == WindowCount(|tokens|, n)
    ensures n > |tokens| ==> Tally(Windows(tokens, n)) == map[] && FirstSeen(Windows(tokens, n)) == []
  {
    SumOfCounts(Windows(tokens, n));
  }
}
