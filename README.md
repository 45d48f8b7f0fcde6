# praat_formants_python, modelled in Dafny

`praat_formants_python` extracts formant tracks (time, F1, F2, F3) from an
audio file by running the external `praat` program on a fixed analysis
script. It parses praat's tab-separated standard output into a table, keeps
the tables in a process-wide memo dictionary keyed by
`(filename, maxformant, winlen, preemph)`, and offers two lookups over a
table: the frame at a time point and the frames of a time interval, both
found by binary search on the time column.

This project models the logic around the praat call:

- `text.dfy` (module `Text`): the Python 2 string operations the parser uses,
  `str.split(sep)` and `str.rstrip()`, with `Join` as the inverse of `Split`.
- `table.dfy` (module `FormantTable`): rows, tables, the cache key and the
  error kinds, and the parser from praat's output to a table. A value that
  does not convert to a number is `None` (NaN).
- `bisect.dfy` (module `Bisect`): `bisect_left` and `bisect_right` as binary
  search loops, proved against the functions `LeftIndex` and `RightIndex`
  (first element at least / greater than the key).
- `queries.dfy` (module `Queries`): `formants_at_time` and
  `formants_at_interval` on a given table, as functions, with lemmas on which
  frames they return.
- `formants.dfy` (module `Formants`): the memo dictionary as the `entries`
  field of a `FormantCache` object, with `file2formants`,
  `clear_formant_cache` and the two lookups as methods that update it.

Running praat is a parameter `praat: Key -> Completed` giving the exit
status, stdout and stderr of the run. The numeric conversion `float(s)` is
a parameter `parseNum: string -> Option<real>`, `None` standing for a
`ValueError` or a NaN. A warning is an output flag (`Answer.warned`), and an
exception is the `Err` case of a `Result`.

The interval query raises only when the table is empty (on a table whose
rows have equal length): numpy cannot take the time column `[:, 0]` of the
empty one-dimensional array, and a Python slice never raises, whatever its
bounds. The model states exactly that (`Queries.AtInterval`).

## Model

| member | source | states |
|---|---|---|
| `Text.Split` | praat_formants_python/_formants.py:98-99 | `s.split(sep)` has one piece more than `s` has separators, and no piece contains the separator |
| `Text.JoinSplit` | praat_formants_python/_formants.py:98-99 | joining the pieces of a split with the separator gives back the string |
| `Text.SplitJoin` | praat_formants_python/_formants.py:98-99 | splitting a join of separator-free pieces gives back exactly those pieces |
| `Text.RStrip` | praat_formants_python/_formants.py:98 | `rstrip()` keeps a prefix that does not end in whitespace and removes only whitespace |
| `Text.RStripPadding` | praat_formants_python/_formants.py:98 | trailing whitespace after a line that does not end in whitespace is removed, and nothing else |
| `FormantTable.Fields` | praat_formants_python/_formants.py:98 | `line.rstrip().split('\t')` gives at least one field, no field holds a tab, and joining the fields with tabs gives back the right-stripped line |
| `FormantTable.ParsedRowUndefined` | praat_formants_python/_formants.py:87-91 | a parsed row holds an undefined value (what `np.isnan` detects) exactly when one of its first four fields fails to convert |
| `FormantTable.TableHasUndefinedAppend` | praat_formants_python/_formants.py:152 | the NaN test on a table holds for two parts put together exactly when it holds for one of them |
| `FormantTable.ParseRow` | praat_formants_python/_formants.py:87-91 | a row has between one and four entries, as many as the stripped line has tab fields up to four, and entry j is the conversion of field j; a field that does not convert is undefined rather than an error |
| `FormantTable.ParseRowOfFields` | praat_formants_python/_formants.py:98 | a line made of tab-separated fields plus trailing whitespace parses to the conversions of its first four fields, in order |
| `FormantTable.BodyLines` | praat_formants_python/_formants.py:99 | dropping the header and the segment after the last newline leaves one line fewer than there are newlines (none if there is no newline) |
| `FormantTable.ParseOutput` | praat_formants_python/_formants.py:104-105 | the table has one row fewer than the output has newlines (none without a newline), each row of one to four entries |
| `FormantTable.ParseOutputOfLines` | praat_formants_python/_formants.py:98-99 | a header, then k lines each followed by a newline, then any newline-free tail parses to k rows, row i being the parse of line i; header and tail are both dropped |
| `Bisect.LeftIndex` | praat_formants_python/_formants.py:126 | the insertion point of `bisect_left`: all elements before it are less than the key, the one at it is not |
| `Bisect.RightIndex` | praat_formants_python/_formants.py:148 | the insertion point of `bisect_right`: all elements before it are at most the key, the one at it is greater |
| `Bisect.LeftIndexSplits` | praat_formants_python/_formants.py:147 | on sorted times every element from the left insertion point on is at least the key |
| `Bisect.RightIndexSplits` | praat_formants_python/_formants.py:148 | on sorted times every element from the right insertion point on is greater than the key |
| `Bisect.LeftIndexUnique` | praat_formants_python/_formants.py:126 | any index with "less before, not less at" is the left insertion point |
| `Bisect.RightIndexUnique` | praat_formants_python/_formants.py:148 | any index with "at most before, greater at" is the right insertion point |
| `Bisect.BisectLeft` | praat_formants_python/_formants.py:147 | the binary search returns the index that splits sorted times into "less than the key" and "at least the key" |
| `Bisect.BisectRight` | praat_formants_python/_formants.py:148 | the binary search returns the index that splits sorted times into "at most the key" and "greater than the key" |
| `Queries.AtTime` | praat_formants_python/_formants.py:125-131 | the point query fails with the out-of-range error exactly when every frame is earlier than t (including the empty table), and warns exactly when the returned formants hold an undefined value |
| `Queries.AtTimeFindsFirstAtOrAfter` | praat_formants_python/_formants.py:126 | the point query returns the first frame at or after t, without its time column |
| `Queries.AtTimeExactMatch` | praat_formants_python/_formants.py:126 | with strictly increasing times, a query at a frame's own time returns that frame's formants |
| `Queries.AtInterval` | praat_formants_python/_formants.py:146-154 | the interval query fails only on the empty table, and warns exactly when the returned frames hold an undefined value |
| `Queries.InsertionPointsBracket` | praat_formants_python/_formants.py:147-148 | frames before `bisect_left(start)` are earlier than start, frames from `bisect_right(end)` on are later than end, those between lie in the interval |
| `Queries.AtIntervalIsWithin` | praat_formants_python/_formants.py:147-149 | the interval query returns exactly the frames with start ≤ time ≤ end, in table order, time column kept, as one contiguous slice beginning at the first frame not earlier than start |
| `Queries.AtIntervalEmptyWhenReversed` | praat_formants_python/_formants.py:147-149 | when start is after end the interval query returns no frames and does not warn |
| `Queries.WithinAppend` | praat_formants_python/_formants.py:149 | selecting the frames of an interval distributes over concatenation of tables |
| `Formants.Extract` | praat_formants_python/_formants.py:62-65 | a fresh extraction fails exactly when praat exits with a non-zero status, the error carrying praat's stderr; otherwise the table has one row fewer than praat's output has newlines (none without a newline) |
| `Formants.FormantCache.constructor` | praat_formants_python/_formants.py:68 | the cache starts empty |
| `Formants.FormantCache.File2Formants` | praat_formants_python/_formants.py:93-105 | memoized hit: stored table returned, praat not run, cache unchanged; memoized miss: praat run, the parsed table stored under the key and no other entry changed, nothing stored if praat fails; not memoized: praat run, cache neither read nor changed, result is the parse of the fresh run |
| `Formants.FormantCache.Clear` | praat_formants_python/_formants.py:108-112 | afterwards the cache is empty |
| `Formants.FormantCache.FormantsAtTime` | praat_formants_python/_formants.py:115-131 | the result is the point query on the table `file2formants` obtains (or praat's error), and the cache changes as in `file2formants` |
| `Formants.FormantCache.FormantsAtInterval` | praat_formants_python/_formants.py:134-154 | the result is the interval query on the table `file2formants` obtains (or praat's error), and the cache changes as in `file2formants` |
| `Formants.RepeatedCallHits` | praat_formants_python/_formants.py:93-100 | for any filename, maxformant, winlen and preemph: after a successful memoized call, a second memoized call with the same arguments does not run praat and returns the same table |
| `Formants.ClearForcesRerun` | praat_formants_python/_formants.py:108-112 | after clearing, a memoized call for any key runs praat and returns a fresh extraction |

## Left out

- Launching praat (`run_praat`): the subprocess, its pipes and the text of its arguments are I/O; the model keeps only the exit-status branch, a non-zero status raising `PraatError` with praat's stderr.
- `Formants.Extract`: raises `PraatError` carrying praat's stderr on a non-zero exit status. The code calls `stderr.readlines()` on a Python 2 string, which raises `AttributeError`, so `PraatError` is never actually constructed; the model gives the error the code evidently means to raise.
- Writing the praat script (`make_script`): a temporary file with fixed text, created once per process; it holds no logic the model could state.
- The numeric conversion `float(s)`: a parameter of the model. Infinite values and the arithmetic of NaN are not modelled; a time is a `real` compared with `<` and `<=`.
- numpy's array shaping: rows of unequal length make numpy build a one-dimensional object array on which both queries fail; the model slices each row as it is and relies on praat writing rows of equal length.
- Table identity: a cache hit returns the very same numpy array object in Python; the model returns an equal value.
- The `warnings` module: a warning is the boolean `Answer.warned`, issued once per query call.
- Concurrent use of the cache from several threads.
