/**
 * The formant table and the parser that builds it from praat's standard
 * output: the header line and the empty segment after the final newline are
 * dropped, every other line is right-stripped and split on tabs, and its
 * first four fields are converted to numbers, a field that does not convert
 * becoming undefined (NaN).
 */
module FormantTable {
  import opened Wrappers
  import opened Text

  /** One table entry: `None` is an undefined value (NaN). */
  type Value = Option<real>

  /** One analysis frame: time, f1, f2, f3 (fewer entries if the line has fewer fields). */
  type Row = seq<Value>

  type Table = seq<Row>

  /**
   * The numeric conversion `float(s)`, with `None` when it raises
   * `ValueError` (or yields NaN). It is a parameter of the model.
   */
  type NumberParser = string -> Option<real>

  /** How many fields of a line are kept. */
  const FieldsKept := 4

  /** The cache key `(filename, maxformant, winlen, preemph)`. */
  datatype Key = Key(filename: string, maxformant: real, winlen: real, preemph: real)

  /** The errors raised to callers: `PraatError(stderr)` and the `ValueError` of the queries. */
  datatype Error = PraatError(stderr: string) | TimeOutOfRange

  /** True if some entry of the row is undefined: `np.any(np.isnan(row))`. */
  predicate HasUndefined(row: Row)
  {
    exists j :: 0 <= j < |row| && row[j].None?
  }

  /** True if some entry of some row is undefined. */
  predicate TableHasUndefined(table: Table)
  {
    exists i :: 0 <= i < |table| && HasUndefined(table[i])
  }

  /** The fields of one output line: `line.rstrip().split('\t')`. */
  function Fields(line: string): (fields: seq<string>)
    ensures |fields| >= 1
    ensures forall j :: 0 <= j < |fields| ==> '\t' !in fields[j]
    ensures Join(fields, '\t') == RStrip(line)
  {
    JoinSplit(RStrip(line), '\t');
    Split(RStrip(line), '\t')
  }

  /**
   * One table row: the first four fields of the line, each converted;
   * a field that does not convert is undefined instead of an error.
   */
  function ParseRow(line: string, parseNum: NumberParser): (row: Row)
    ensures 1 <= |row| <= FieldsKept
    ensures |row| == if |Fields(line)| < FieldsKept then |Fields(line)| else FieldsKept
    ensures forall j :: 0 <= j < |row| ==> row[j] == parseNum(Fields(line)[j])
  {
    var fields := Fields(line);
    var kept := if |fields| < FieldsKept then fields else fields[..FieldsKept];
    seq(|kept|, j requires 0 <= j < |kept| => parseNum(kept[j]))
  }

  /** The lines between the header and the final newline: `out.split('\n')[1:-1]`. */
  function BodyLines(out: string): (lines: seq<string>)
    ensures |lines| == if Occurrences(out, '\n') == 0 then 0 else Occurrences(out, '\n') - 1
  {
    var segments := Split(out, '\n');
    if |segments| < 2 then [] else segments[1..|segments| - 1]
  }

  /**
   * The whole table: one row per line of the body. With a header followed by
   * k newline-terminated lines there are k rows; without any newline, none.
   */
  function ParseOutput(out: string, parseNum: NumberParser): (table: Table)
    ensures |table| == if Occurrences(out, '\n') == 0 then 0 else Occurrences(out, '\n') - 1
    ensures forall i :: 0 <= i < |table| ==> 1 <= |table[i]| <= FieldsKept
  {
    var lines := BodyLines(out);
    seq(|lines|, i requires 0 <= i < |lines| => ParseRow(lines[i], parseNum))
  }

  /**
   * A parsed row holds an undefined value exactly when one of the (at most
   * four) kept fields fails to convert.
   */
  lemma ParsedRowUndefined(line: string, parseNum: NumberParser)
    ensures HasUndefined(ParseRow(line, parseNum)) <==>
      exists j :: 0 <= j < |Fields(line)| && j < FieldsKept && parseNum(Fields(line)[j]) == None
  {
  }

  /** A table made of two parts holds an undefined value exactly when one of the parts does. */
  lemma TableHasUndefinedAppend(a: Table, b: Table)
    ensures TableHasUndefined(a + b) <==> TableHasUndefined(a) || TableHasUndefined(b)
  {
    var ab := a + b;
    if TableHasUndefined(ab) {
      var i :| 0 <= i < |ab| && HasUndefined(ab[i]);
      if i < |a| {
        assert ab[i] == a[i];
      } else {
        assert ab[i] == b[i - |a|];
      }
    }
    if TableHasUndefined(a) {
      var i :| 0 <= i < |a| && HasUndefined(a[i]);
      assert ab[i] == a[i];
    }
    if TableHasUndefined(b) {
      var i :| 0 <= i < |b| && HasUndefined(b[i]);
      assert ab[|a| + i] == b[i];
    }
  }

  /**
   * A line made of tab-separated fields, followed by trailing whitespace,
   * parses to the conversion of its first four fields, in order.
   */
  lemma ParseRowOfFields(fields: seq<string>, pad: string, parseNum: NumberParser)
    requires |fields| >= 1
    requires forall j :: 0 <= j < |fields| ==> '\t' !in fields[j]
    requires var last := fields[|fields| - 1]; |last| > 0 && !IsSpace(last[|last| - 1])
    requires forall i :: 0 <= i < |pad| ==> IsSpace(pad[i])
    ensures var row := ParseRow(Join(fields, '\t') + pad, parseNum);
      && |row| == (if |fields| < FieldsKept then |fields| else FieldsKept)
      && forall j :: 0 <= j < |row| ==> row[j] == parseNum(fields[j])
  {
    JoinEndsWithLast(fields, '\t');
    RStripPadding(Join(fields, '\t'), pad);
    SplitJoin(fields, '\t');
  }

  /** A join ends with the last piece. */
  lemma {:induction false} JoinEndsWithLast(pieces: seq<string>, sep: char)
    requires |pieces| >= 1
    ensures var s := Join(pieces, sep); var last := pieces[|pieces| - 1];
      |s| >= |last| && s[|s| - |last|..] == last
    decreases |pieces|
  {
    if |pieces| > 1 {
      JoinEndsWithLast(pieces[1..], sep);
    }
  }

  /**
   * praat's output, a header line, then lines each followed by a newline,
   * then whatever comes after the last newline (normally nothing), parses to
   * one row per line, in order: the header and the tail are both dropped.
   */
  lemma ParseOutputOfLines(header: string, lines: seq<string>, tail: string, parseNum: NumberParser)
    requires '\n' !in header
    requires forall i :: 0 <= i < |lines| ==> '\n' !in lines[i]
    requires '\n' !in tail
    ensures var table := ParseOutput(Join([header] + lines + [tail], '\n'), parseNum);
      && |table| == |lines|
      && forall i :: 0 <= i < |lines| ==> table[i] == ParseRow(lines[i], parseNum)
  {
    var segments := [header] + lines + [tail];
    forall i | 0 <= i < |segments| ensures '\n' !in segments[i] {
      if 0 < i < |segments| - 1 { assert segments[i] == lines[i - 1]; }
    }
    SplitJoin(segments, '\n');
    assert segments[1..|segments| - 1] == lines;
  }
}
