# TypeSprint core, modelled in Dafny

TypeSprint is a terminal typing-speed test. This project models its three
pure-logic components and proves properties about them:

- **The typing engine** (`typing_engine.py`, modules `TypingEngine` and `Text`). A
  session holds the target text, the typed input and optional start and end
  timestamps. It has two guarded mutators: append one character, and backspace.
  Every statistic is derived from the current state: the per-character
  correct/incorrect/pending display, accuracy, error count, final and live words
  per minute, elapsed time and the per-word report. Clock readings are passed in
  as `now`. As in the source, a timestamp of `0.0` counts as unset (Python
  truthiness). Python's `str.split()` is modelled by `Text.Words`: split on runs
  of whitespace (the characters Python's `str.isspace` accepts) and drop empty
  tokens.
- **The leaderboard** (`leaderboard.py`, module `Leaderboard`). Adding a score
  appends it, stable-sorts the whole list by descending wpm and keeps the first
  50. The top-N query can first filter by exact category. The sort is insertion
  sort. Its specification, `IsStableSort`, says: sorted, and every group of
  equal wpm keeps its order from the input. `StableSortIsUnique` shows this
  determines the output, so `AddScore` is the first 50 of *the* stable sort,
  whatever order the stored list had.
- **The quote source** (`quotes.py`, module `Quotes`). It buckets quotes into
  short / medium / long / very_long by declared length, and holds the built-in
  fallback table. `get_random_quote` falls back to medium. `get_quote_count`
  counts one bucket or all of them. The random draw is an explicit index
  `choice`, reduced modulo the bucket size; `EveryQuoteCanBeDrawn` shows every
  member of the bucket can come out.

The session, score and quote records are immutable datatypes. The mutators
return the next value. Ratios are Dafny `real`s.

Five of the seven built-in fallback quotes declare lengths that are not their
text lengths; the two proverbs are the exceptions. The Hamlet passage is
stored as very_long with declared length 614, but its text has 595 characters (`Quotes.FallbackVeryLongTextIsLongSized`). Bucketing
uses the declared length, so the table is consistent as written
(`Quotes.FallbackIsWellBucketed`).

Three behaviours of the source that the model keeps:
- A zero timestamp counts as unset.
- `get_live_wpm` checks only the start time.
- An empty-string category filter means "no filter" in both `get_top_scores`
  and `get_quote_count`.

## Model

| member | source | states |
|---|---|---|
| `TypingEngine.Create` | typing_engine.py:7-11 | a new session has the given target, empty input, and no start or end time |
| `TypingEngine.Start` | typing_engine.py:15-17 | `start()` overwrites the start time with `now` and changes nothing else |
| `TypingEngine.End` | typing_engine.py:19-21 | `end()` overwrites the end time with `now` and changes nothing else |
| `TypingEngine.AddCharacter` | typing_engine.py:23-26 | appends exactly `c` while the input is shorter than the target; otherwise the session is unchanged; the length invariant is preserved; target and timestamps untouched |
| `TypingEngine.RemoveCharacter` | typing_engine.py:28-31 | on non-empty input, the result plus the dropped last character is the old input; a no-op on empty input; target and timestamps untouched; invariant preserved |
| `TypingEngine.IsComplete` | typing_engine.py:33-35 | a session is complete exactly when every further keystroke is ignored |
| `TypingEngine.AddWhenComplete` | typing_engine.py:23-35 | on a complete session, typing changes nothing and the session stays complete |
| `TypingEngine.RemoveUndoesAdd` | typing_engine.py:23-31 | backspace after an accepted keystroke restores the previous session |
| `TypingEngine.AddUndoesRemove` | typing_engine.py:23-31 | retyping the erased last character restores the session |
| `TypingEngine.Replay` | typing_engine.py:15-31 | any stream of keystrokes, backspaces, starts and ends keeps the target and the invariant input length <= target length |
| `TypingEngine.ReachableIsValid` | typing_engine.py:7-31 | every session reachable from a fresh one satisfies the length invariant |
| `TypingEngine.Classify` | typing_engine.py:37-49 | one pair per target position, carrying the target character; status correct/incorrect by comparing with the typed character where one exists, pending beyond the input |
| `TypingEngine.CharStatus` | typing_engine.py:37-49 | length equals the target length; pair i holds target[i]; for typed positions the status is correct iff the characters are equal and never pending; pending for every untyped position |
| `TypingEngine.MatchCount` | typing_engine.py:69-70 | matching positions are at most the shorter length, and reach it exactly when the two prefixes of that length are equal |
| `TypingEngine.CorrectChars` | typing_engine.py:69-70 | correct characters are at most the input and the target length; under the invariant, every typed character is correct iff the input is a prefix of the target |
| `TypingEngine.MismatchCount` | typing_engine.py:75-76 | mismatches plus matches cover exactly the compared positions |
| `TypingEngine.Errors` | typing_engine.py:73-77 | errors are at most the input length; under the invariant, errors + correct characters = input length; zero errors means the input is a prefix of the target |
| `TypingEngine.Accuracy` | typing_engine.py:64-71 | 0 on empty input; otherwise accuracy x input length = 100 x correct characters; always within [0, 100]; under the invariant and non-empty input, exactly 100 iff the input is a prefix of the target |
| `TypingEngine.CountsMatchStatus` | typing_engine.py:37-77 | incorrect entries of the display = mismatch count, correct entries = match count, pending entries = target length minus typed length |
| `TypingEngine.ErrorsAreIncorrectEntries` | typing_engine.py:37-77 | the error count equals the number of incorrect entries in the character status, and correct characters the number of correct entries |
| `TypingEngine.Rate` | typing_engine.py:56-62 | never negative; 0 for non-positive elapsed time; otherwise the rate over the elapsed seconds accounts for exactly the word count (rate x seconds = 60 x words) |
| `TypingEngine.Wpm` | typing_engine.py:51-62 | 0 unless both timestamps are set (non-zero); 0 when end <= start; otherwise rate x (end - start) = 60 x the whitespace-token count of the input; never negative |
| `TypingEngine.LiveWpm` | typing_engine.py:118-129 | the same rate measured to `now`: 0 without a start time or when now <= start, otherwise rate x (now - start) = 60 x token count |
| `TypingEngine.ElapsedTime` | typing_engine.py:111-116 | 0 when the start is unset; otherwise end - start when the end is set, and now - start when it is not |
| `TypingEngine.LiveWpmIsWpmEndedNow` | typing_engine.py:118-129 | the live rate at a non-zero `now` equals the final rate of the session ended at `now` |
| `TypingEngine.WpmOverElapsed` | typing_engine.py:51-62 | for a finished session, the final rate times the reported elapsed time is 60 x the word count |
| `TypingEngine.WordAccuracy` | typing_engine.py:90-92 | per-word accuracy is 0 for an empty target word; otherwise accuracy x target-word length = 100 x the positions where typed and target word agree; it lies in [0, 100] and is 100 for an exact retype |
| `TypingEngine.Entry` | typing_engine.py:88-106 | the entry for target token i names that token; with a user token i, it carries that token, is correct iff the two tokens are equal, and its accuracy is the per-word accuracy of the two tokens; without one, it is an empty miss with accuracy 0; accuracy always lies in [0, 100] |
| `TypingEngine.WordHistory` | typing_engine.py:79-109 | one entry per target token in order; beyond the typed tokens: typed "", accuracy 0, not correct; otherwise typed is the user token, correct iff the tokens are equal, and the accuracy is the per-word accuracy of the two tokens; accuracy in [0, 100], and correct implies accuracy 100 |
| `Text.TokenLength` | typing_engine.py:60 | the leading whitespace-free run: all its characters are non-space and it ends at whitespace or the end of the text |
| `Text.Words` | typing_engine.py:81-82 | every token of `split()` is non-empty and whitespace-free |
| `Text.WordsKeepEveryLetter` | typing_engine.py:81-82 | concatenating the tokens gives exactly the non-whitespace characters of the text |
| `Text.NoWordsIffBlank` | typing_engine.py:60 | a text has no tokens iff it consists only of whitespace |
| `Text.WordsOfJoin` | typing_engine.py:81-82 | splitting a single-space join of tokens gives those tokens back |
| `Text.WordsAfterBlank` | typing_engine.py:81-82 | leading whitespace of any kind and length produces no token |
| `Text.WordsBeforeBlank` | typing_engine.py:81-82 | trailing whitespace of any kind and length produces no token |
| `Text.WordsSplitAtBlank` | typing_engine.py:81-82 | tokens are the maximal whitespace-free runs: a non-empty run of whitespace splits a text into exactly the tokens before it followed by the tokens after it |
| `EngineScenarios.PerfectWord` | typing_engine.py:37-77 | "cat" typed for "cat": accuracy 100, no errors, all three correct |
| `EngineScenarios.OneTypo` | typing_engine.py:37-77 | "cot" typed for "cat": accuracy 200/3, one error, status correct/incorrect/correct |
| `EngineScenarios.HalfMinute` | typing_engine.py:51-62 | two typed tokens over 30 seconds give 4 words per minute |
| `EngineScenarios.StoppedEarly` | typing_engine.py:79-109 | "a b" typed for "a b c": two exact entries at 100 and a missed third entry |
| `EngineScenarios.TabSeparated` | typing_engine.py:60 | a tab separates tokens and does not split one: "ab\tc" is the two tokens "ab" and "c" |
| `EngineScenarios.TypingPastTheEnd` | typing_engine.py:23-35 | typing into a finished "cat" session changes nothing and it stays complete |
| `Leaderboard.WithWpm` | leaderboard.py:42 | the group of entries with a given wpm: exactly the entries of the list with that wpm |
| `Leaderboard.Insert` | leaderboard.py:42 | inserting adds exactly one entry: length +1, and the multiset gains exactly the new entry |
| `Leaderboard.InsertKeepsSorted` | leaderboard.py:42 | inserting into a list sorted by descending wpm keeps it sorted |
| `Leaderboard.InsertIsStable` | leaderboard.py:42 | insertion leaves every group of equal wpm in its order, with the new entry placed ahead of its own group |
| `Leaderboard.SortByWpm` | leaderboard.py:42 | the result is a permutation of the input, sorted non-increasing by wpm, with equal-wpm entries in input order |
| `Leaderboard.StableSortIsUnique` | leaderboard.py:42 | two sorted lists with the same equal-wpm groups are equal, so the stable descending sort of a list is unique |
| `Leaderboard.Take` | leaderboard.py:43 | the slice `[:n]`: a prefix of the list, of length n or the whole list when it is shorter |
| `Leaderboard.AddScore` | leaderboard.py:32-43 | the new list is sorted by descending wpm, has length min(old + 1, 50), holds only old entries and the new one, and keeps all of them (the new one included) when fewer than 50 were stored |
| `Leaderboard.AddScoreIsStableSortPrefix` | leaderboard.py:41-43 | whatever the prior order, the new list is the first 50 of any stable descending-wpm sort of old ++ [new] |
| `Leaderboard.WithCategory` | leaderboard.py:49 | the filter keeps exactly the entries whose category equals the requested one |
| `Leaderboard.WithCategoryKeepsSorted` | leaderboard.py:48-50 | filtering a sorted list by category keeps it sorted |
| `Leaderboard.TopScores` | leaderboard.py:46-51 | at most `limit` entries; with a non-empty filter, a prefix of the order-preserving category filter, all of that category, of length min(limit, matches); with no or an empty filter, a prefix of the list of length min(limit, size); sorted when the list is |
| `Quotes.Parse` | quotes.py:20-25 | a key that parses names its category |
| `Quotes.ParseName` | quotes.py:20-25 | each category is found again under its own key |
| `Quotes.CategoryOf` | quotes.py:42-49 | the bucket of a declared length lies in that bucket's range (<=100, 101-300, 301-600, >600) |
| `Quotes.CategoryOfIsTheOnlyFit` | quotes.py:42-49 | a length fits a category's range iff that is the category it is bucketed into, so each quote fits exactly one |
| `Quotes.Thresholds` | quotes.py:42-49 | 100 is short and 101 medium, 300 medium and 301 long, 600 long and 601 very_long |
| `Quotes.Bucket` | quotes.py:93 | the lookup succeeds exactly for the four category keys and returns that category's list |
| `Quotes.FromRaw` | quotes.py:35-40 | a file record keeps its text; it takes its declared length or, when none is declared, the text length; a missing source reads "Unknown" and a missing id is 0 |
| `Quotes.Place` | quotes.py:42-49 | a quote is appended to the end of the bucket of its declared length, and every other bucket is unchanged |
| `Quotes.Categorize` | quotes.py:34-49 | loading from empty buckets leaves no quote outside the bucket of its declared length |
| `Quotes.InCategory` | quotes.py:42-49 | a bucket's filter holds exactly the quotes whose declared length falls in that category |
| `Quotes.CategorizeIsFilter` | quotes.py:34-49 | after loading, each bucket is the in-order list of the input quotes of that category |
| `Quotes.CategorizeKeepsEveryQuote` | quotes.py:34-49 | the four buckets together hold the input quotes, each exactly once |
| `Quotes.CategorizeGrouped` | quotes.py:34-49 | loading quotes already grouped by bucket, in bucket order, gives those groups back |
| `Quotes.Fallback` | quotes.py:58-78 | the built-in table: three short, two medium, one long and one very long quote, with the source's texts, sources and declared lengths |
| `Quotes.FallbackIsWellBucketed` | quotes.py:58-78 | every fallback quote's declared length lies in the range of the bucket it is stored in |
| `Quotes.FallbackIsCategorized` | quotes.py:58-78 | the fallback table equals what loading its own quotes would produce |
| `Quotes.FallbackVeryLongTextIsLongSized` | quotes.py:72-74 | the very long fallback passage declares 614 characters but has 595, a long-sized text |
| `Quotes.LoadQuotes` | quotes.py:28-56 | a missing file or invalid JSON gives the fallback table; a file that was read gives, for each category, exactly the file's records of that category in file order; every quote is in its range and the buckets hold as many quotes as the file |
| `Quotes.ResolveCategory` | quotes.py:82-83 | the requested category when it is known and non-empty, medium otherwise |
| `Quotes.RandomQuote` | quotes.py:80-88 | a member of the requested list when it is known and non-empty; otherwise a member of medium, or the "No quotes available" sentinel when medium is empty |
| `Quotes.NoQuotes` | quotes.py:85-86 | the sentinel returned when even the medium bucket is empty: "No quotes available", source "System", declared length 21, id 0 |
| `Quotes.EveryQuoteCanBeDrawn` | quotes.py:88 | every member of the resolved list is returned for some draw |
| `Quotes.QuoteCount` | quotes.py:90-94 | for a non-empty key: the bucket size for a known category and 0 for an unknown one; for no key or "": the number of quotes held in all buckets |
| `Quotes.TotalCountIsLoaded` | quotes.py:90-94 | after loading, the total count equals the number of input quotes |

## Left out

- The user interface, the `readchar` key loop, menus and console output (`main.py`). The start-once timer discipline (`main.py:218-220`) belongs to the caller; `Start` and `End` are plain overwrites, as in the engine.
- File I/O and exceptions. Quote-file reading and JSON parsing (`quotes.py:30-56`) are an `Option` input. `None` stands for the two failures the source catches: a missing file (`FileNotFoundError`) and invalid JSON (`JSONDecodeError`). Every other failure propagates out of the loader in the source and is not modelled: a file that cannot be opened for another reason (`PermissionError`, `IsADirectoryError`), a file that is not valid UTF-8 (`UnicodeDecodeError`, from the read at `quotes.py:31`), a JSON document that is not an object, a record without `text` (`KeyError`), and a `length` that is JSON `null` or a string (the comparison at `quotes.py:42` raises `TypeError`). A `source` or `id` stored as JSON `null` is kept as `None` by `.get` in the source rather than replaced by "Unknown" or 0; `RawQuote` has no way to say "present but null", so the model reads a null `source` or `id` as absent. Score-file loading and saving (`leaderboard.py:14-30`) is not modelled: the list is passed in and returned.
- The wall clock and `datetime.now()`. `time.time()` becomes the `now` parameter. The score timestamp is an opaque string field.
- Floating point: `round(wpm, 2)`, `round(accuracy, 2)` and the per-word `round(accuracy, 1)` (`leaderboard.py:36-37`, `typing_engine.py:97`). The model uses exact reals, so it has no NaN, infinity or rounding error.
- `Leaderboard.AddScore`: the wpm and accuracy are stored unrounded, because float rounding is not modelled.
- `TypingEngine.WordHistory`: accuracies are the unrounded ratios, because float rounding is not modelled.
- `TypingEngine.Entry`: the accuracy of a typed token is the unrounded ratio, not `round(accuracy, 1)` (`typing_engine.py:97`), because float rounding is not modelled.
- `random.choice`. It becomes the `choice` index. That the draw is uniform is not modelled.
- The module-level `quote_manager` singleton and the `get_random_quote` wrapper that forwards to it (`quotes.py:96-100`).
- The unused `errors` and `word_stats` fields and the dead `char_index` counter (`typing_engine.py:12-13`, `typing_engine.py:85`, `typing_engine.py:107`).
- `add_character` takes a Python string. The caller only passes single printable keys (`main.py:217-221`), so the model takes one `char`.
- `Leaderboard.TopScores`: `limit` is a natural number. The negative-limit slicing of Python (`scores[:-1]`) is not modelled.
- Default arguments: `limit=10` of `get_top_scores` (`leaderboard.py:46`) and `category="medium"` of `get_random_quote` (`quotes.py:80`). The model's functions take every argument explicitly; a caller relying on a default passes 10 or "medium".
