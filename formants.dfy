/**
 * The memoized extraction `file2formants`, the cache reset
 * `clear_formant_cache` and the two lookups that go through them. The
 * process-wide dictionary `_fmt_cache` is the field of a `FormantCache`
 * object; running praat is a function parameter.
 */
module Formants {
  import opened Wrappers
  import opened FormantTable
  import opened Bisect
  import opened Queries
  import opened Text

  /** How a praat run ended: its exit status and what it wrote to stdout and stderr. */
  datatype Completed = Completed(returncode: int, stdout: string, stderr: string)

  /** praat run on the analysis script with the four arguments of the key. */
  type Praat = Key -> Completed

  const DefaultMaxFormant: real := 5500.0
  const DefaultWinLen: real := 0.025
  const DefaultPreEmph: real := 50.0

  /**
   * A fresh extraction: run praat and parse its output. A non-zero exit
   * status raises `PraatError` with praat's stderr, and nothing is parsed.
   */
  function Extract(key: Key, praat: Praat, parseNum: NumberParser): (r: Result<Table, Error>)
    ensures r.Err? <==> praat(key).returncode != 0
    ensures r.Err? ==> r.error == PraatError(praat(key).stderr)
    ensures r.Ok? ==> |r.value| == if Occurrences(praat(key).stdout, '\n') == 0 then 0
                                   else Occurrences(praat(key).stdout, '\n') - 1
  {
    var done := praat(key);
    if done.returncode != 0 then Err(PraatError(done.stderr))
    else Ok(ParseOutput(done.stdout, parseNum))
  }

  class FormantCache {
    /** `_fmt_cache`: the extracted tables, by key. */
    var entries: map<Key, Table>

    constructor ()
      ensures entries == map[]
    {
      entries := map[];
    }

    /**
     * The table a call of `file2formants` with these arguments obtains: the
     * stored one when memoizing and the key is present, a fresh extraction
     * otherwise.
     */
    function Served(key: Key, memoize: bool, praat: Praat, parseNum: NumberParser): Result<Table, Error>
      reads this
    {
      if memoize && key in entries then Ok(entries[key]) else Extract(key, praat, parseNum)
    }

    /**
     * `file2formants`. When memoizing, a stored key is answered from the cache
     * without running praat and without changing the cache; a missing key
     * runs praat and, if praat succeeds, stores the parsed table under that
     * key and under no other. Without memoizing the cache is neither read nor
     * changed and the result is a fresh extraction. `ranPraat` tells whether
     * praat was run.
     */
    method File2Formants(filename: string, praat: Praat, parseNum: NumberParser,
                         maxformant: real := DefaultMaxFormant, winlen: real := DefaultWinLen,
                         preemph: real := DefaultPreEmph, memoize: bool := true)
      returns (r: Result<Table, Error>, ranPraat: bool)
      modifies this
      ensures var key := Key(filename, maxformant, winlen, preemph);
        && (ranPraat <==> !memoize || key !in old(entries))
        && (!ranPraat ==> r == Ok(old(entries)[key]))
        && (ranPraat ==> r == Extract(key, praat, parseNum))
        && entries == if memoize && ranPraat && r.Ok? then old(entries)[key := r.value] else old(entries)
    {
      var key := Key(filename, maxformant, winlen, preemph);
      if memoize {
        if key !in entries {
          ranPraat := true;
          r := Extract(key, praat, parseNum);
          if r.Err? {
            return;
          }
          entries := entries[key := r.value];
        } else {
          ranPraat := false;
        }
        r := Ok(entries[key]);
      } else {
        ranPraat := true;
        r := Extract(key, praat, parseNum);
      }
    }

    /** `clear_formant_cache`: forget every stored table. */
    method Clear()
      modifies this
      ensures entries == map[]
    {
      entries := map[];
    }

    /**
     * `formants_at_time`: obtain the table as `file2formants` does, then
     * answer with the formants of the first frame at or after `time`.
     */
    method FormantsAtTime(filename: string, time: real, praat: Praat, parseNum: NumberParser,
                          maxformant: real := DefaultMaxFormant, winlen: real := DefaultWinLen,
                          preemph: real := DefaultPreEmph, memoize: bool := true)
      returns (r: Result<Answer<Row>, Error>)
      requires var served := Served(Key(filename, maxformant, winlen, preemph), memoize, praat, parseNum);
        served.Ok? ==> TimeSorted(served.value)
      modifies this
      ensures var key := Key(filename, maxformant, winlen, preemph);
        var served := old(Served(key, memoize, praat, parseNum));
        && r == (if served.Err? then Err(served.error) else AtTime(served.value, time))
        && entries == if memoize && key !in old(entries) && served.Ok? then old(entries)[key := served.value] else old(entries)
    {
      var table, ranPraat := File2Formants(filename, praat, parseNum, maxformant, winlen, preemph, memoize);
      if table.Err? {
        return Err(table.error);
      }
      var frames := table.value;
      var i := BisectLeft(Times(frames), time);
      if i == |frames| {
        r := Err(TimeOutOfRange);
      } else {
        var formants := frames[i][1..];
        r := Ok(Answer(formants, HasUndefined(formants)));
      }
    }

    /**
     * `formants_at_interval`: obtain the table as `file2formants` does, then
     * answer with the frames from `bisect_left(start)` up to `bisect_right(end)`.
     */
    method FormantsAtInterval(filename: string, start: real, end: real, praat: Praat, parseNum: NumberParser,
                              maxformant: real := DefaultMaxFormant, winlen: real := DefaultWinLen,
                              preemph: real := DefaultPreEmph, memoize: bool := true)
      returns (r: Result<Answer<Table>, Error>)
      requires var served := Served(Key(filename, maxformant, winlen, preemph), memoize, praat, parseNum);
        served.Ok? ==> TimeSorted(served.value)
      modifies this
      ensures var key := Key(filename, maxformant, winlen, preemph);
        var served := old(Served(key, memoize, praat, parseNum));
        && r == (if served.Err? then Err(served.error) else AtInterval(served.value, start, end))
        && entries == if memoize && key !in old(entries) && served.Ok? then old(entries)[key := served.value] else old(entries)
    {
      var table, ranPraat := File2Formants(filename, praat, parseNum, maxformant, winlen, preemph, memoize);
      if table.Err? {
        return Err(table.error);
      }
      var frames := table.value;
      if |frames| == 0 {
        return Err(TimeOutOfRange);
      }
      var times := Times(frames);
      var lo := BisectLeft(times, start);
      var hi := BisectRight(times, end);
      var selected := if lo <= hi then frames[lo..hi] else [];
      r := Ok(Answer(selected, TableHasUndefined(selected)));
    }
  }

  /**
   * Two memoized calls with the same arguments: when the first succeeds, the
   * second does not run praat and returns the same table.
   */
  method RepeatedCallHits(cache: FormantCache, filename: string, praat: Praat, parseNum: NumberParser,
                          maxformant: real, winlen: real, preemph: real)
    returns (first: Result<Table, Error>, second: Result<Table, Error>, ranAgain: bool)
    modifies cache
    ensures first.Ok? ==> !ranAgain && second == first
  {
    var ran;
    first, ran := cache.File2Formants(filename, praat, parseNum, maxformant, winlen, preemph, true);
    second, ranAgain := cache.File2Formants(filename, praat, parseNum, maxformant, winlen, preemph, true);
  }

  /** After the cache is cleared, a memoized call for any key runs praat again. */
  method ClearForcesRerun(cache: FormantCache, filename: string, praat: Praat, parseNum: NumberParser,
                          maxformant: real, winlen: real, preemph: real)
    returns (r: Result<Table, Error>, ranPraat: bool)
    modifies cache
    ensures ranPraat && r == Extract(Key(filename, maxformant, winlen, preemph), praat, parseNum)
  {
    cache.Clear();
    r, ranPraat := cache.File2Formants(filename, praat, parseNum, maxformant, winlen, preemph, true);
  }
}
