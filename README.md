# N-gram frequency pipeline in Dafny

A model of `ngram_core.py`, a small text-statistics tool. It reads a text file line by line and splits it into tokens. It forms every contiguous window of `n` tokens (an n-gram), counts each distinct n-gram with a `collections.Counter`, and writes one tab-separated line per n-gram, most frequent first.

| module (file) | models |
|---|---|
| `Text` (text.dfy) | the Python string built-ins used: `str.isspace`, `str.strip`, `str.split()` without a separator, `" ".join` |
| `Tokenizer` (tokenizer.dfy) | `read_tokens_from_file` once the file is open: the input is the sequence of its lines |
| `NGrams` (ngrams.dfy) | `generate_ngrams` |
| `Counting` (counting.dfy) | `count_ngrams` and the `Counter` it fills: a class holding the dictionary (`counts`) and its insertion order (`order`) |
| `Serializer` (serializer.dfy) | `write_ngrams_to_tsv`: the order of `Counter.most_common()` and the text of each line; the file is the sequence of lines written |
| `Pipeline` (pipeline.dfy) | the single-resolution run in `main.py` (tokenize, count, write) and what its output says about its input |
| `Wrappers` (wrappers.dfy) | `Option`, `Result`, and the `ValueError` raised for `n < 1` |

Each imperative function of the source is a method with a loop. Each method is proved equal to a reference function (`ReadTokens` to `Tokenize`, `GenerateNGrams` to `Windows`, `CountNGrams` to `Tally`/`FirstSeen`, `WriteNGramsToTsv` to `Render` of `MostCommon`). The properties are then proved about those functions as lemmas.

Where the description of the system and the code disagree, the model follows the code:

- The tokenizer splits on whitespace only (`line.split()`, `ngram_core.py:13`). Punctuation stays attached to the word before it, so `"hi, you"` gives `["hi,", "you"]` (see `Tokenizer.ExampleSplit`). It does not split words from punctuation as a regular-expression tokenizer would.
- `generate_ngrams` is a Python generator, so its `ValueError` is raised at the first step of the iteration rather than at the call. Either way it comes before any window, and `count_ngrams` starts iterating at once. The model returns the error eagerly.

Whitespace is the set of code points for which Python's `str.isspace()` is true (`Text.IsSpace`), because `strip()` and `split()` use that set.

## Model

| member | source | states |
|---|---|---|
| Text.TrimStart | ngram_core.py:10 | the result is a suffix of the line, everything dropped is whitespace, and the result does not start with whitespace |
| Text.TrimEnd | ngram_core.py:10 | the result is a prefix of the line, everything dropped is whitespace, and the result does not end with whitespace |
| Text.Split | ngram_core.py:13 | every token `str.split()` returns is non-empty and contains no whitespace |
| Text.SplitAtSpace | ngram_core.py:13 | a whitespace character cuts the text into two halves that split independently: split(a + c + b) == split(a) + split(b) |
| Text.SplitOfToken | ngram_core.py:13 | a non-empty whitespace-free string splits to itself alone |
| Text.SplitOfBlank | ngram_core.py:11-13 | an all-whitespace string splits to no token |
| Text.SplitTrimStart | ngram_core.py:10-13 | leading whitespace does not change the split |
| Text.SplitTrimEnd | ngram_core.py:10-13 | trailing whitespace does not change the split |
| Text.SplitStrip | ngram_core.py:10-13 | splitting the stripped line gives the same tokens as splitting the raw line |
| Text.StripEmptyIffBlank | ngram_core.py:10-11 | a line is empty after `strip()` exactly when it consists of whitespace only |
| Text.SplitJoin | ngram_core.py:37 | splitting the single-space join of tokens gives back exactly those tokens |
| Text.JoinSpaces | ngram_core.py:37-38 | the single-space join of tokens contains no tab or newline, so the tab written after it is the first on the line |
| Tokenizer.Tokenize | ngram_core.py:9-14 | every token of the text is non-empty and whitespace-free |
| Tokenizer.ReadTokens | ngram_core.py:5-14 | the loop that strips each line, skips blank ones and extends the list with `split()` returns exactly the in-order concatenation of the splits of all lines |
| Tokenizer.TokenizeAppend | ngram_core.py:9-14 | tokenizing two runs of lines in sequence is the concatenation of their tokens; no separator token is added between lines |
| Tokenizer.BlankLineContributesNothing | ngram_core.py:11-12 | a line that is empty after stripping contributes no token wherever it stands |
| Tokenizer.LineContributesItsSplit | ngram_core.py:13 | a line contributes exactly its whitespace-split tokens, in place |
| Tokenizer.ExampleSplit | ngram_core.py:13 | `"hi, you"` tokenizes to `"hi,"` and `"you"`: punctuation is not split off |
| NGrams.Windows | ngram_core.py:21-22 | there are max(0, len(tokens) - n + 1) windows, and the i-th is `tokens[i:i+n]` |
| NGrams.WindowsOverlap | ngram_core.py:21-22 | consecutive windows share n - 1 tokens |
| NGrams.GenerateNGrams | ngram_core.py:17-22 | n <= 0 gives ValueError("n must be >= 1") for every token list, the empty one included; otherwise the result lists max(0, len - n + 1) windows in left-to-right order, the i-th equal to `tokens[i:i+n]` |
| Counting.Counter.constructor | ngram_core.py:27 | a fresh Counter is empty and valid |
| Counting.Counter.Increment | ngram_core.py:29 | `counter[key] += 1` reads 0 for a missing key and stores one more; a new key goes to the end of the insertion order; validity (distinct keys, positive counts) is kept |
| Counting.CountNGrams | ngram_core.py:25-30 | the error for n <= 0 propagates; otherwise the new Counter's counts and key order are those of one increment per generated window, in order |
| Counting.TallyCounts | ngram_core.py:28-29 | the keys are exactly the windows; each count is the number of windows equal to its key, so at least 1; other keys are absent |
| Counting.FirstSeenOrder | ngram_core.py:28-29 | the insertion order lists each distinct window once, ordered by its first occurrence among the windows |
| Counting.SumOfCounts | ngram_core.py:27-29 | the counts of all keys add up to the number of windows |
| Counting.CountsConserveWindows | ngram_core.py:21-29 | for `count_ngrams(tokens, n)` the counts add up to max(0, len(tokens) - n + 1), and the Counter is empty when n exceeds the number of tokens |
| Serializer.Items | ngram_core.py:36 | `items()` pairs every key, in insertion order, with its count |
| Serializer.Insert | ngram_core.py:36 | inserting an entry keeps the list sorted by descending count and adds exactly that entry |
| Serializer.MostCommon | ngram_core.py:36 | `most_common()` lists exactly the items (a permutation) by non-increasing count |
| Serializer.MostCommonStable | ngram_core.py:36 | the sort is stable: for every count value, the entries with that count come out in their insertion order |
| Serializer.TiesKeepInsertionOrder | ngram_core.py:36 | of two listed entries with equal counts, the earlier one was inserted into the Counter first |
| Serializer.MostCommonSum | ngram_core.py:36 | the listed counts add up to the counts of the items |
| Serializer.ItemsSum | ngram_core.py:36 | the items carry the counter's counts |
| Serializer.Decimal | ngram_core.py:38 | the count is written as decimal digits, with no leading zero |
| Serializer.DecimalRoundTrip | ngram_core.py:38 | the written digits denote the count |
| Serializer.Render | ngram_core.py:36-38 | one line per entry, in order, each the entry's formatted line |
| Serializer.WriteNGramsToTsv | ngram_core.py:33-38 | the lines written are the formatted lines of `most_common()`, one per entry and in its order |
| Serializer.ParseFormatLine | ngram_core.py:37-38 | a written line (tokens joined by " ", tab, decimal count, newline) reads back as exactly its n-gram and count |
| Serializer.ExampleOrder | ngram_core.py:36 | {("a","b"): 3, ("c","d"): 3, ("e","f"): 1}, with ("e","f") inserted first, is listed as ("a","b"), ("c","d"), ("e","f") |
| Serializer.ExampleLines | ngram_core.py:37-38 | those entries are written as `a b\t3`, `c d\t3`, `e f\t1`, each ending in a newline |
| Pipeline.RunSingleResolution | main.py:39-41 | tokenizing, counting and writing in sequence gives the output of the composed reference functions, and the error for n <= 0 |
| Pipeline.ItemsOfWindows | ngram_core.py:28-36 | the items form one entry per distinct window, with distinct n-grams and counts equal to the number of occurrences |
| Pipeline.TableOfEntries | ngram_core.py:28-36 | every listed entry is a window with its occurrence count; the n-grams are distinct; there is one entry per distinct window |
| Pipeline.WindowLengths | ngram_core.py:21-22 | every generated window holds exactly n tokens |
| Pipeline.TableEntries | ngram_core.py:21-38 | the same for the tokens' table, and every n-gram written has exactly n tokens |
| Pipeline.TableOfOrder | ngram_core.py:28-36 | entries are listed by non-increasing count, with ties in the order of first occurrence among the windows |
| Pipeline.TableOrder | ngram_core.py:21-38 | output lines are ordered by non-increasing count, with ties in the order of the n-gram's first occurrence in the token stream |
| Pipeline.WindowsAreTokens | ngram_core.py:13-22 | every window of tokenizer output consists of non-empty, whitespace-free tokens |
| Pipeline.LinesReadBack | ngram_core.py:33-38 | for n >= 1 every output line parses back to the n-gram and count it was written for |
| Pipeline.CountColumnIsWindowCount | ngram_core.py:21-38 | reading the output back and adding up its count column gives max(0, len(tokens) - n + 1) |
| Pipeline.UnigramCountsAreTokenCount | ngram_core.py:5-38 | for n = 1 the count column of the output adds up to the number of tokens of the input |

## Left out

- Opening, reading and writing files (`open` at ngram_core.py:8 and ngram_core.py:35): operating-system I/O. The input is the sequence of the file's lines and the output is the sequence of lines written. Overwrite semantics of the `"w"` mode are not modelled.
- Line splitting of the text file (Python's universal newlines) is part of the file read: each given line is used as it is, and a trailing newline is whitespace that `strip()` removes.
- UTF-8 decoding errors: they come from the runtime, not from the repository's logic.
- The argparse entry points and the `is_file` checks (main.py, tokenize_main.py): thin adapters with filesystem queries. `Pipeline.RunSingleResolution` models only the three core calls of main.py:39-41.
- `write_ngrams_up_to`, imported at tokenize_main.py:4, is not part of this model: `ngram_core.py` does not define it, so there is no code to model for it, nor for per-size file names and the marker files. The same holds for the regular-expression tokenizer.
- GenerateNGrams: the Python generator is lazy and single-pass, and it raises its `ValueError` at the first step of iteration. The model computes all windows at once and returns the error at the call, before any window in both cases.
- `ParseLine`, `SplitAtTab`, `DecimalValue` and `CountColumnSum` are not in the source. They are the reader used to state the round trip of the written lines.
