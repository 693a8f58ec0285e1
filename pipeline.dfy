/**
 * `main`: pick the text column, walk the table in slices of ten rows, send
 * each slice's messages through `process_batch`, add one column per
 * criterion to the slice and append it to the output table. The output
 * file is an append-only sequence of lines; only the first slice writes the
 * header.
 */
module Pipeline {
  import opened Wrappers
  import opened Text
  import opened Json
  import opened Rubric
  import opened Parse
  import opened Batch

  /** `batch_size` in `main`. */
  const BatchSize: nat := 10

  /** `process_batch`'s default delimiter, the one `main` uses. */
  const Delimiter: string := "-----"

  /** The column names `select_text_column` looks for, in order of preference. */
  const PreferredColumns: seq<string> := ["message", "conversation", "chat", "text"]

  /** The index of the first of `preferred` that is one of `columns`. */
  function FirstPresent(preferred: seq<string>, columns: seq<string>): (r: Option<nat>)
    ensures r.Some? ==> r.value < |preferred| && preferred[r.value] in columns
    ensures r.Some? ==> forall j :: 0 <= j < r.value ==> preferred[j] !in columns
    ensures r.None? ==> forall j :: 0 <= j < |preferred| ==> preferred[j] !in columns
  {
    if preferred == [] then None
    else if preferred[0] in columns then Some(0)
    else
      match FirstPresent(preferred[1..], columns)
      case None => None
      case Some(j) => Some(j + 1)
  }

  /**
   * `select_text_column`: the first preferred name that is a column,
   * otherwise the first column; `None` stands for the `IndexError` of
   * `df.columns[0]` on a table without columns.
   */
  function SelectTextColumn(columns: seq<string>): (r: Option<string>)
    ensures r.None? <==> columns == []
    ensures forall j ::
      (0 <= j < |PreferredColumns| && PreferredColumns[j] in columns
       && forall i :: 0 <= i < j ==> PreferredColumns[i] !in columns)
      ==> r == Some(PreferredColumns[j])
    ensures columns != [] && (forall p :: p in PreferredColumns ==> p !in columns) ==> r == Some(columns[0])
    ensures r.Some? ==> r.value in columns
  {
    match FirstPresent(PreferredColumns, columns)
    case Some(j) => Some(PreferredColumns[j])
    case None => if columns == [] then None else Some(columns[0])
  }

  function Min(a: int, b: int): int {
    if a <= b then a else b
  }

  /** `range(start, total, batch_size)`: the start index of each remaining slice. */
  function BatchStarts(start: nat, total: nat): (r: seq<nat>)
    ensures forall k :: 0 <= k < |r| ==> start <= r[k] < total
    decreases total - start
  {
    if start >= total then [] else [start] + BatchStarts(start + BatchSize, total)
  }

  /** `end_idx = min(start_idx + batch_size, total)`. */
  function BatchEnd(start: nat, total: nat): nat {
    Min(start + BatchSize, total)
  }

  /** The `k`-th start from `start` on is `start + k * batch_size`, and there are as many as the ceiling division says. */
  lemma {:induction false} BatchStartsAt(start: nat, total: nat)
    ensures |BatchStarts(start, total)| == if start >= total then 0 else (total - start + BatchSize - 1) / BatchSize
    ensures forall k :: 0 <= k < |BatchStarts(start, total)| ==> BatchStarts(start, total)[k] == start + k * BatchSize
    decreases total - start
  {
    if start < total {
      var rest := BatchStarts(start + BatchSize, total);
      BatchStartsAt(start + BatchSize, total);
      forall k | 0 <= k < |BatchStarts(start, total)| ensures BatchStarts(start, total)[k] == start + k * BatchSize {
        if k > 0 {
          assert BatchStarts(start, total)[k] == rest[k - 1];
        }
      }
    }
  }

  /** `range(0, total, batch_size)` is empty exactly when `total` is zero, and otherwise starts at zero. */
  lemma StartsFirst(total: nat)
    ensures |BatchStarts(0, total)| == 0 <==> total == 0
    ensures total > 0 ==> BatchStarts(0, total)[0] == 0
  {
  }

  /** After the start `s` of slice `k`, the next start is `s + batch_size`, if that is still below `total`. */
  lemma StartsNext(total: nat, k: nat)
    requires k < |BatchStarts(0, total)|
    ensures k + 1 < |BatchStarts(0, total)| <==> BatchStarts(0, total)[k] + BatchSize < total
    ensures k + 1 < |BatchStarts(0, total)| ==> BatchStarts(0, total)[k + 1] == BatchStarts(0, total)[k] + BatchSize
  {
    BatchStartsAt(0, total);
  }

  /**
   * The slices of `main`'s loop partition `[0, total)`: `0, 10, 20, ...`,
   * one slice per started group of ten rows, each slice ending where the
   * next one starts, every slice but the last exactly ten rows long, and the
   * last one non-empty and ending at `total`.
   */
  lemma SlicesPartition(total: nat)
    ensures var starts := BatchStarts(0, total);
      && |starts| == (total + BatchSize - 1) / BatchSize
      && (starts == [] <==> total == 0)
      && (forall k :: 0 <= k < |starts| ==> starts[k] == k * BatchSize && starts[k] < BatchEnd(starts[k], total))
      && (forall k :: 0 <= k < |starts| - 1 ==>
            BatchEnd(starts[k], total) == starts[k + 1] && BatchEnd(starts[k], total) - starts[k] == BatchSize)
      && (starts != [] ==> BatchEnd(starts[|starts| - 1], total) == total)
  {
    BatchStartsAt(0, total);
  }

  /** Each slice of `[0, total)` starts where the one before it ends, from row 0 to `total`. */
  lemma StartsChain(total: nat)
    ensures var starts := BatchStarts(0, total);
      && (total > 0 ==> starts != [] && starts[0] == 0 && BatchEnd(starts[|starts| - 1], total) == total)
      && forall k, j :: 0 <= k && j == k + 1 && j < |starts| ==> starts[j] == BatchEnd(starts[k], total)
  {
    SlicesPartition(total);
  }

  /** A cell of a table: text read from the input file, or a judgment value under a criterion column. */
  datatype Cell = Field(text: string) | Mark(value: Value)

  /** A `pandas` table: the column names and, per row, its cells. */
  datatype Table = Table(columns: seq<string>, rows: seq<seq<Cell>>)

  /** Every row has one cell per column. */
  predicate Shaped(t: Table) {
    forall i :: 0 <= i < |t.rows| ==> |t.rows[i]| == |t.columns|
  }

  predicate Distinct(xs: seq<string>) {
    forall i, j :: 0 <= i < j < |xs| ==> xs[i] != xs[j]
  }

  /** The position of the first occurrence of `x`. */
  function IndexOf(xs: seq<string>, x: string): (r: nat)
    requires x in xs
    ensures r < |xs| && xs[r] == x
    ensures forall j :: 0 <= j < r ==> xs[j] != x
  {
    if xs[0] == x then 0 else 1 + IndexOf(xs[1..], x)
  }

  /**
   * `batch_df[name] = values`: an existing column is overwritten where it
   * stands, a new one is added as the last column.
   */
  function SetColumn(t: Table, name: string, values: seq<Cell>): (r: Table)
    requires Shaped(t) && |values| == |t.rows|
    ensures Shaped(r) && |r.rows| == |t.rows|
    ensures r.columns == if name in t.columns then t.columns else t.columns + [name]
  {
    if name in t.columns then
      var j := IndexOf(t.columns, name);
      Table(t.columns, seq(|t.rows|, i requires 0 <= i < |t.rows| => t.rows[i][j := values[i]]))
    else
      Table(t.columns + [name], seq(|t.rows|, i requires 0 <= i < |t.rows| => t.rows[i] + [values[i]]))
  }

  /** `res.get(item, "")` on a judgment that is a dict. */
  function Get(fields: map<string, Value>, item: string): Value {
    if item in fields then fields[item] else EmptyMark
  }

  /**
   * `[res.get(item, "") for res in batch_results]`, left to right; `None`
   * for the `AttributeError` that `.get` raises on a judgment that is not a
   * dict.
   */
  function CriterionColumn(results: seq<Value>, item: string): (r: Option<seq<Cell>>)
    ensures r.None? <==> exists k :: 0 <= k < |results| && !results[k].Object?
    ensures r.Some? ==> |r.value| == |results|
    ensures r.Some? ==> forall k :: 0 <= k < |results| ==> r.value[k] == Mark(Get(results[k].fields, item))
  {
    if results == [] then Some([])
    else if !results[0].Object? then None
    else
      match CriterionColumn(results[1..], item)
      case None => assert forall k :: 0 <= k < |results| - 1 ==> results[1..][k] == results[k + 1]; None
      case Some(rest) => Some([Mark(Get(results[0].fields, item))] + rest)
  }

  /**
   * The column names after adding `names` one at a time, each only if it is
   * not already a column: the original columns keep their places, every
   * added name becomes a column, and the columns added on the right are
   * added names.
   */
  function AddNames(columns: seq<string>, names: seq<string>): (r: seq<string>)
    ensures |columns| <= |r| && r[..|columns|] == columns
    ensures forall j :: |columns| <= j < |r| ==> r[j] in names
    ensures forall x :: x in names ==> x in r
    decreases |names|
  {
    if names == [] then columns
    else
      var n := |names| - 1;
      var c := AddNames(columns, names[..n]);
      var name := names[n];
      assert forall x :: x in names[..n] ==> x in names;
      assert forall x :: x in names ==> x in names[..n] || x == name;
      if name in c then c
      else
        assert (c + [name])[..|columns|] == c[..|columns|];
        c + [name]
  }

  /**
   * The names of `names` that are new, read left to right: each one not in
   * `present` and not seen earlier in `names`, once, in the order it comes.
   */
  function NewNames(present: seq<string>, names: seq<string>): seq<string>
    decreases |names|
  {
    if names == [] then []
    else if names[0] in present then NewNames(present, names[1..])
    else [names[0]] + NewNames(present + [names[0]], names[1..])
  }

  /** Adding two lists of names is adding the first, then the second. */
  lemma {:induction false} AddNamesAppend(columns: seq<string>, a: seq<string>, b: seq<string>)
    ensures AddNames(columns, a + b) == AddNames(AddNames(columns, a), b)
    decreases |b|
  {
    if b == [] {
      assert a + b == a;
    } else {
      var n := |b| - 1;
      assert (a + b)[..|a + b| - 1] == a + b[..n] && (a + b)[|a + b| - 1] == b[n];
      AddNamesAppend(columns, a, b[..n]);
    }
  }

  /** Adding one name adds it at the end unless it is already a column. */
  lemma AddNamesOne(columns: seq<string>, x: string)
    ensures AddNames(columns, [x]) == if x in columns then columns else columns + [x]
  {
    assert [x][..0] == [];
  }

  /**
   * pandas appends each column assigned for the first time after the ones
   * before it, so the columns are the original ones followed by the new
   * names in the order they are assigned.
   */
  lemma {:induction false} AddNamesOrder(columns: seq<string>, names: seq<string>)
    ensures AddNames(columns, names) == columns + NewNames(columns, names)
    decreases |names|
  {
    if names == [] {
      assert columns + [] == columns;
    } else {
      var x := names[0];
      var rest := names[1..];
      var c := AddNames(columns, [x]);
      assert names == [x] + rest;
      AddNamesAppend(columns, [x], rest);
      AddNamesOne(columns, x);
      AddNamesOrder(c, rest);
      NewNamesCons(columns, x, rest, c);
    }
  }

  /** The new names of `[x] + rest` are `x` when it is new, then the new names of `rest` after it. */
  lemma NewNamesCons(columns: seq<string>, x: string, rest: seq<string>, c: seq<string>)
    requires c == if x in columns then columns else columns + [x]
    ensures columns + NewNames(columns, [x] + rest) == c + NewNames(c, rest)
  {
    var names := [x] + rest;
    assert names[0] == x && names[1..] == rest;
    if x !in columns {
      assert columns + ([x] + NewNames(c, rest)) == c + NewNames(c, rest);
    }
  }

  /** Adding names to distinct columns, each only if it is not yet a column, repeats no name. */
  lemma {:induction false} AddNamesShape(columns: seq<string>, names: seq<string>)
    requires Distinct(columns)
    ensures Distinct(AddNames(columns, names))
    decreases |names|
  {
    if names != [] {
      AddNamesShape(columns, names[..|names| - 1]);
    }
  }

  /**
   * The slice table after `batch_df[item] = [res.get(item, "") ...]` for
   * each of `names` in order; `None` once an assignment raises.
   */
  function AddCriteria(t: Table, names: seq<string>, results: seq<Value>): (r: Option<Table>)
    requires Shaped(t) && |results| == |t.rows|
    ensures r.Some? ==> Shaped(r.value) && |r.value.rows| == |t.rows| && r.value.columns == AddNames(t.columns, names)
    decreases |names|
  {
    if names == [] then Some(t)
    else
      match AddCriteria(t, names[..|names| - 1], results)
      case None => None
      case Some(u) =>
        match CriterionColumn(results, names[|names| - 1])
        case None => None
        case Some(values) => Some(SetColumn(u, names[|names| - 1], values))
  }

  /** The first assignment raises exactly when some judgment is not a dict; with no judgment a non-dict, none raises. */
  lemma {:induction false} AddCriteriaRaises(t: Table, names: seq<string>, results: seq<Value>)
    requires Shaped(t) && |results| == |t.rows|
    ensures AddCriteria(t, names, results).None? <==>
      names != [] && exists k :: 0 <= k < |results| && !results[k].Object?
    decreases |names|
  {
    if names != [] {
      AddCriteriaRaises(t, names[..|names| - 1], results);
    }
  }

  /** After `batch_df[name] = values` on distinct columns, the column called `name` holds `values` and every other cell is unchanged. */
  lemma SetColumnCells(u: Table, name: string, values: seq<Cell>)
    requires Shaped(u) && |values| == |u.rows| && Distinct(u.columns)
    ensures var r := SetColumn(u, name, values);
      forall i, j :: 0 <= i < |u.rows| && 0 <= j < |r.columns| ==>
        r.rows[i][j] == if r.columns[j] == name then values[i] else u.rows[i][j]
  {
  }

  /**
   * `batch_df[name] = values`, for the last of `names`, with judgment `i`'s
   * value for `name` in row `i`: what held under the earlier names still
   * holds, and now holds under `name` too.
   */
  lemma SetColumnMarks(u: Table, names: seq<string>, values: seq<Cell>, results: seq<Value>)
    requires Shaped(u) && |values| == |u.rows| && Distinct(u.columns) && |results| == |u.rows| && names != []
    requires forall k :: 0 <= k < |results| ==> results[k].Object? && values[k] == Mark(Get(results[k].fields, names[|names| - 1]))
    requires forall i, j :: 0 <= i < |u.rows| && 0 <= j < |u.columns| && u.columns[j] in names[..|names| - 1] ==>
      u.rows[i][j] == Mark(Get(results[i].fields, u.columns[j]))
    ensures var r := SetColumn(u, names[|names| - 1], values);
      forall i, j :: 0 <= i < |u.rows| && 0 <= j < |r.columns| && r.columns[j] in names ==>
        r.rows[i][j] == Mark(Get(results[i].fields, r.columns[j]))
  {
    var n := |names| - 1;
    var name := names[n];
    var r := SetColumn(u, name, values);
    SetColumnCells(u, name, values);
    assert names == names[..n] + [name];
    forall i, j | 0 <= i < |u.rows| && 0 <= j < |r.columns| && r.columns[j] in names
      ensures r.rows[i][j] == Mark(Get(results[i].fields, r.columns[j]))
    {
      var c := r.columns[j];
      var row := r.rows[i];
      assert row[j] == if c == name then values[i] else u.rows[i][j];
      if c != name {
        assert j < |u.columns| && c == u.columns[j];
        assert c in names[..n];
      }
    }
  }

  /**
   * Under a column named by one of `names`, once all judgments are dicts,
   * row `i` holds judgment `i`'s value for it (`""` when absent).
   */
  lemma {:induction false} AddCriteriaMarks(t: Table, names: seq<string>, results: seq<Value>)
    requires Shaped(t) && |results| == |t.rows| && Distinct(t.columns)
    requires forall k :: 0 <= k < |results| ==> results[k].Object?
    ensures AddCriteria(t, names, results).Some?
    ensures var r := AddCriteria(t, names, results).value;
      forall i, j :: 0 <= i < |t.rows| && 0 <= j < |r.columns| && r.columns[j] in names ==>
        r.rows[i][j] == Mark(Get(results[i].fields, r.columns[j]))
    decreases |names|
  {
    AddCriteriaRaises(t, names, results);
    if names != [] {
      var n := |names| - 1;
      var name := names[n];
      AddCriteriaMarks(t, names[..n], results);
      AddNamesShape(t.columns, names[..n]);
      var u := AddCriteria(t, names[..n], results).value;
      var values := CriterionColumn(results, name).value;
      SetColumnMarks(u, names, values, results);
    }
  }

  /** A column of the slice that none of `names` calls is left as it was. */
  lemma {:induction false} AddCriteriaKeeps(t: Table, names: seq<string>, results: seq<Value>)
    requires Shaped(t) && |results| == |t.rows| && Distinct(t.columns)
    requires AddCriteria(t, names, results).Some?
    ensures var r := AddCriteria(t, names, results).value;
      forall i, j :: 0 <= i < |t.rows| && 0 <= j < |t.columns| && t.columns[j] !in names ==>
        r.rows[i][j] == t.rows[i][j]
    decreases |names|
  {
    if names != [] {
      var n := |names| - 1;
      var name := names[n];
      AddCriteriaKeeps(t, names[..n], results);
      AddNamesShape(t.columns, names[..n]);
      var u := AddCriteria(t, names[..n], results).value;
      var values := CriterionColumn(results, name).value;
      SetColumnCells(u, name, values);
      var r := SetColumn(u, name, values);
      assert AddCriteria(t, names, results).value == r;
      forall i, j | 0 <= i < |t.rows| && 0 <= j < |t.columns| && t.columns[j] !in names
        ensures r.rows[i][j] == t.rows[i][j]
      {
        assert u.columns[..|t.columns|][j] == t.columns[j];
        forall m | 0 <= m < n ensures names[..n][m] != t.columns[j] {
          assert names[..n][m] == names[m];
        }
      }
    }
  }

  /** `batch_df` loop: `batch_df[item] = [res.get(item, "") for res in batch_results]` for each criterion in order. */
  method AddCriterionColumns(slice: Table, results: seq<Value>) returns (merged: Option<Table>)
    requires Shaped(slice) && |results| == |slice.rows|
    ensures merged == AddCriteria(slice, Criteria, results)
  {
    var table := slice;
    for i := 0 to |Criteria|
      invariant AddCriteria(slice, Criteria[..i], results) == Some(table)
    {
      assert Criteria[..i + 1][..i] == Criteria[..i];
      var values := CriterionColumn(results, Criteria[i]);
      if values.None? {
        return None;
      }
      table := SetColumn(table, Criteria[i], values.value);
    }
    assert Criteria[..|Criteria|] == Criteria;
    return Some(table);
  }

  /** A line of the output file: the header, or one row. */
  datatype Line = Header(names: seq<string>) | Record(cells: seq<Cell>)

  /** How `main` ends. */
  datatype RunOutcome =
    | Completed
    | MissingApiKey              // the `ValueError` for an unset `GEMINI_API_KEY`
    | NoColumns                  // the `IndexError` of `df.columns[0]`
    | NonDictJudgment(start: nat) // the `AttributeError` of `res.get` in the slice starting at `start`

  /** The input rows as `pandas` cells. */
  function InputTable(columns: seq<string>, rows: seq<seq<string>>): Table {
    Table(columns, seq(|rows|, i requires 0 <= i < |rows| => seq(|rows[i]|, j requires 0 <= j < |rows[i]| => Field(rows[i][j]))))
  }

  /** Every input row has one cell per column, as in a `pandas` table. */
  predicate Rectangular(columns: seq<string>, rows: seq<seq<string>>) {
    forall i :: 0 <= i < |rows| ==> |rows[i]| == |columns|
  }

  /** `[str(d).strip() for d in batch[text_col].tolist()]` */
  function Messages(rows: seq<seq<string>>, col: nat): (r: seq<string>)
    requires forall i :: 0 <= i < |rows| ==> col < |rows[i]|
    ensures |r| == |rows|
    ensures forall i :: 0 <= i < |rows| ==> r[i] == Strip(rows[i][col])
  {
    seq(|rows|, i requires 0 <= i < |rows| => Strip(rows[i][col]))
  }

  /**
   * The slice after the criterion loop, cell by cell: raising exactly when
   * some judgment is not a dict; otherwise the original columns first, then
   * the criteria that were not yet columns, a criterion's cell holding the
   * judgment's value for it (`""` when absent) and every other cell the
   * text read from the input.
   */
  lemma MergedCells(columns: seq<string>, rows: seq<seq<string>>, results: seq<Value>)
    requires Rectangular(columns, rows) && Distinct(columns) && |results| == |rows|
    ensures AddCriteria(InputTable(columns, rows), Criteria, results).None? <==>
      exists k :: 0 <= k < |results| && !results[k].Object?
    ensures var r := AddCriteria(InputTable(columns, rows), Criteria, results);
      r.Some? ==>
        && r.value.columns == AddNames(columns, Criteria)
        && r.value.columns[..|columns|] == columns
        && |r.value.rows| == |rows|
        && (forall i :: 0 <= i < |rows| ==> |r.value.rows[i]| == |r.value.columns|)
        && (forall i, j :: 0 <= i < |rows| && 0 <= j < |columns| ==>
             r.value.rows[i][j] == if columns[j] in Criteria then Mark(Get(results[i].fields, columns[j])) else Field(rows[i][j]))
        && (forall i, j :: 0 <= i < |rows| && |columns| <= j < |r.value.columns| ==>
             r.value.columns[j] in Criteria && r.value.rows[i][j] == Mark(Get(results[i].fields, r.value.columns[j])))
  {
    var t := InputTable(columns, rows);
    InputTableShaped(columns, rows);
    AddCriteriaRaises(t, Criteria, results);
    AddNamesShape(columns, Criteria);
    var r := AddCriteria(t, Criteria, results);
    if r.Some? {
      AddCriteriaMarks(t, Criteria, results);
      AddCriteriaKeeps(t, Criteria, results);
      var u := r.value;
      forall i, j | 0 <= i < |rows| && 0 <= j < |columns|
        ensures u.rows[i][j] == if columns[j] in Criteria then Mark(Get(results[i].fields, columns[j])) else Field(rows[i][j])
      {
        assert u.columns[j] == u.columns[..|columns|][j];
        assert t.rows[i][j] == Field(rows[i][j]);
      }
    }
  }

  /** The judgments `process_batch` returns for the slice starting at `start`; `complete(start)` answers that slice's call. */
  function SliceJudgments(rows: seq<seq<string>>, col: nat, start: nat, complete: nat -> Completion, decode: Decoder): (r: seq<Value>)
    requires start <= |rows| && forall i :: 0 <= i < |rows| ==> col < |rows[i]|
    ensures |r| == BatchEnd(start, |rows|) - start
  {
    ProcessBatchSpec(Messages(rows[start..BatchEnd(start, |rows|)], col), Delimiter, complete(start), decode)
  }

  /** `batch_df` for the slice starting at `start` once the criterion columns are added; `None` when `res.get` raises. */
  function SliceOutput(columns: seq<string>, rows: seq<seq<string>>, col: nat, start: nat, complete: nat -> Completion, decode: Decoder): Option<Table>
    requires Rectangular(columns, rows) && col < |columns| && start <= |rows|
  {
    AddCriteria(InputTable(columns, rows[start..BatchEnd(start, |rows|)]), Criteria, SliceJudgments(rows, col, start, complete, decode))
  }

  /** One line per row. */
  function Records(rows: seq<seq<Cell>>): (r: seq<Line>)
    ensures |r| == |rows| && forall i :: 0 <= i < |rows| ==> r[i] == Record(rows[i])
  {
    seq(|rows|, i requires 0 <= i < |rows| => Record(rows[i]))
  }

  /**
   * Every judgment `process_batch` gives a slice that is a dict has every
   * criterion as a key, so `res.get(item, "")` never falls back on its
   * default.
   */
  lemma SliceJudgmentsComplete(rows: seq<seq<string>>, col: nat, start: nat, complete: nat -> Completion, decode: Decoder)
    requires start <= |rows| && forall i :: 0 <= i < |rows| ==> col < |rows[i]|
    ensures var js := SliceJudgments(rows, col, start, complete, decode);
      forall k, c :: 0 <= k < |js| && js[k].Object? && c in Criteria ==>
        c in js[k].fields && Get(js[k].fields, c) == js[k].fields[c]
  {
    ResponseParserJudgesCompletely(decode);
  }

  /** `batch_df.to_csv(...)`: the header only for the first slice, then one line per row. */
  function Written(t: Table, first: bool): seq<Line> {
    (if first then [Header(t.columns)] else []) + Records(t.rows)
  }

  /** Where `main`'s loop stands: still running, or stopped by an `AttributeError` in the slice starting at `start`. */
  datatype RunState =
    | Running(file: seq<Line>, printed: seq<nat>)
    | Stopped(start: nat, file: seq<Line>, printed: seq<nat>)

  /**
   * One pass of `main`'s loop for the slice starting at `start` whose table
   * with the criterion columns is `output`: append it to the file and print
   * its end, or stop where `res.get` raised. A stopped loop stays stopped.
   */
  function Step(state: RunState, start: nat, output: Option<Table>, total: nat): RunState {
    match state
    case Stopped(s, f, p) => Stopped(s, f, p)
    case Running(f, p) =>
      match output
      case None => Stopped(start, f, p)
      case Some(t) => Running(f + Written(t, start == 0), p + [BatchEnd(start, total)])
  }

  /**
   * The loop over the slices starting at `starts`, whose tables with the
   * criterion columns are `outputs` (`None` where `res.get` raises), from an
   * empty output file and no progress lines.
   */
  function Loop(starts: seq<nat>, outputs: seq<Option<Table>>, total: nat): RunState
    requires |outputs| == |starts|
    decreases |starts|
  {
    if starts == [] then Running([], [])
    else
      var n := |starts| - 1;
      Step(Loop(starts[..n], outputs[..n], total), starts[n], outputs[n], total)
  }

  /** The loop over the first `k + 1` slices is one more pass after the loop over the first `k`. */
  lemma LoopStep(starts: seq<nat>, outputs: seq<Option<Table>>, total: nat, k: nat)
    requires |outputs| == |starts| && k < |starts|
    ensures Loop(starts[..k + 1], outputs[..k + 1], total) == Step(Loop(starts[..k], outputs[..k], total), starts[k], outputs[k], total)
  {
    assert starts[..k + 1][..k] == starts[..k];
    assert outputs[..k + 1][..k] == outputs[..k];
  }

  /** Once the loop has stopped, later slices change nothing. */
  lemma {:induction false} StoppedStays(starts: seq<nat>, outputs: seq<Option<Table>>, total: nat, m: nat)
    requires |outputs| == |starts| && m <= |starts|
    requires Loop(starts[..m], outputs[..m], total).Stopped?
    ensures Loop(starts, outputs, total) == Loop(starts[..m], outputs[..m], total)
    decreases |starts|
  {
    if m < |starts| {
      var n := |starts| - 1;
      assert starts[..n][..m] == starts[..m];
      assert outputs[..n][..m] == outputs[..m];
      StoppedStays(starts[..n], outputs[..n], total, m);
    } else {
      assert starts[..m] == starts;
      assert outputs[..m] == outputs;
    }
  }

  /** A loop that runs to the end prints one progress line per slice, giving the slice's end. */
  lemma {:induction false} LoopPrinted(starts: seq<nat>, outputs: seq<Option<Table>>, total: nat)
    requires |outputs| == |starts|
    requires Loop(starts, outputs, total).Running?
    ensures var p := Loop(starts, outputs, total).printed;
      |p| == |starts| && forall k :: 0 <= k < |starts| ==> p[k] == BatchEnd(starts[k], total)
    decreases |starts|
  {
    if starts != [] {
      var n := |starts| - 1;
      LoopPrinted(starts[..n], outputs[..n], total);
      var p := Loop(starts, outputs, total).printed;
      forall k | 0 <= k < n ensures p[k] == BatchEnd(starts[k], total) {
        assert starts[..n][k] == starts[k];
      }
    }
  }

  /** The rows of the slice tables, in order. */
  function AllRows(outputs: seq<Option<Table>>): seq<seq<Cell>>
    decreases |outputs|
  {
    if outputs == [] then []
    else
      var n := |outputs| - 1;
      AllRows(outputs[..n]) + (if outputs[n].Some? then outputs[n].value.rows else [])
  }

  lemma RecordsAppend(a: seq<seq<Cell>>, b: seq<seq<Cell>>)
    ensures Records(a + b) == Records(a) + Records(b)
  {
  }

  /**
   * A loop that runs to the end, with the first slice starting at row 0 and
   * no later one, writes the first table's header, then the rows of every
   * slice in order, one line each.
   */
  lemma {:induction false} LoopFile(starts: seq<nat>, outputs: seq<Option<Table>>, total: nat)
    requires |outputs| == |starts| && |starts| > 0
    requires starts[0] == 0 && forall k :: 0 < k < |starts| ==> starts[k] > 0
    requires Loop(starts, outputs, total).Running?
    ensures outputs[0].Some?
    ensures Loop(starts, outputs, total).file == [Header(outputs[0].value.columns)] + Records(AllRows(outputs))
    decreases |starts|
  {
    assert starts[..|starts|] == starts && outputs[..|starts|] == outputs;
    LoopPrefixRunning(starts, outputs, total, |starts|);
    var n := |starts| - 1;
    var t := outputs[n].value;
    if n == 0 {
      assert AllRows(outputs) == AllRows(outputs[..0]) + t.rows;
    } else {
      LoopFile(starts[..n], outputs[..n], total);
      assert outputs[..n][0] == outputs[0];
      StepFile(Loop(starts[..n], outputs[..n], total), starts[n], outputs[n], total, Header(outputs[0].value.columns), AllRows(outputs[..n]));
    }
  }

  /** A pass after the first that meets its table appends that table's rows to the file. */
  lemma StepFile(state: RunState, start: nat, output: Option<Table>, total: nat, header: Line, rows: seq<seq<Cell>>)
    requires state.Running? && output.Some? && start > 0
    requires state.file == [header] + Records(rows)
    ensures Step(state, start, output, total).file == [header] + Records(rows + output.value.rows)
  {
    RecordsAppend(rows, output.value.rows);
  }

  /** Slices that each start where the one before ends, from row 0, have as many rows together as the last one's end. */
  lemma {:induction false} AllRowsLength(starts: seq<nat>, outputs: seq<Option<Table>>)
    requires |outputs| == |starts| && |starts| > 0 && starts[0] == 0
    requires forall k :: 0 <= k < |starts| ==> outputs[k].Some?
    requires forall k, j :: 0 <= k && j == k + 1 && j < |starts| ==> starts[j] == starts[k] + |outputs[k].value.rows|
    ensures |AllRows(outputs)| == starts[|starts| - 1] + |outputs[|starts| - 1].value.rows|
    decreases |starts|
  {
    var n := |starts| - 1;
    if n > 0 {
      AllRowsLength(starts[..n], outputs[..n]);
      assert starts[..n][n - 1] == starts[n - 1] && outputs[..n][n - 1] == outputs[n - 1];
    }
  }

  lemma SliceOfFront<T>(a: seq<T>, b: seq<T>, i: nat, j: nat)
    requires i <= j <= |a|
    ensures (a + b)[i..j] == a[i..j]
  {
  }

  lemma SliceOfBack<T>(a: seq<T>, b: seq<T>)
    ensures (a + b)[|a|..|a| + |b|] == b
  {
  }

  /** The rows of slice `k` are the rows of all rows from `starts[k]` on. */
  lemma {:induction false} AllRowsSlice(starts: seq<nat>, outputs: seq<Option<Table>>, k: nat)
    requires |outputs| == |starts| && |starts| > 0 && starts[0] == 0
    requires forall k :: 0 <= k < |starts| ==> outputs[k].Some?
    requires forall k, j :: 0 <= k && j == k + 1 && j < |starts| ==> starts[j] == starts[k] + |outputs[k].value.rows|
    requires k < |starts|
    ensures starts[k] + |outputs[k].value.rows| <= |AllRows(outputs)|
    ensures AllRows(outputs)[starts[k]..starts[k] + |outputs[k].value.rows|] == outputs[k].value.rows
    decreases |starts|
  {
    var n := |starts| - 1;
    var before := AllRows(outputs[..n]);
    var t := outputs[n].value;
    assert AllRows(outputs) == before + t.rows;
    if k < n {
      AllRowsSlice(starts[..n], outputs[..n], k);
      assert starts[..n][k] == starts[k] && outputs[..n][k] == outputs[k];
      SliceOfFront(before, t.rows, starts[k], starts[k] + |outputs[k].value.rows|);
    } else {
      if n > 0 {
        AllRowsLength(starts[..n], outputs[..n]);
        assert starts[..n][n - 1] == starts[n - 1] && outputs[..n][n - 1] == outputs[n - 1];
      }
      SliceOfBack(before, t.rows);
    }
  }

  /**
   * When every slice met its table and each slice starts where the one
   * before it ends, all rows of slice `k` are all rows from `starts[k]`
   * on, and all rows end with the last slice.
   */
  lemma AllRowsAt(starts: seq<nat>, outputs: seq<Option<Table>>)
    requires |outputs| == |starts| && |starts| > 0 && starts[0] == 0
    requires forall k :: 0 <= k < |starts| ==> outputs[k].Some?
    requires forall k, j :: 0 <= k && j == k + 1 && j < |starts| ==> starts[j] == starts[k] + |outputs[k].value.rows|
    ensures |AllRows(outputs)| == starts[|starts| - 1] + |outputs[|starts| - 1].value.rows|
    ensures forall k :: 0 <= k < |starts| ==>
      && starts[k] + |outputs[k].value.rows| <= |AllRows(outputs)|
      && AllRows(outputs)[starts[k]..starts[k] + |outputs[k].value.rows|] == outputs[k].value.rows
  {
    AllRowsLength(starts, outputs);
    forall k | 0 <= k < |starts|
      ensures && starts[k] + |outputs[k].value.rows| <= |AllRows(outputs)|
              && AllRows(outputs)[starts[k]..starts[k] + |outputs[k].value.rows|] == outputs[k].value.rows
    {
      AllRowsSlice(starts, outputs, k);
    }
  }

  /**
   * A loop that stopped did so at the first slice whose table could not be
   * built; its file and progress lines are those of the loop over the
   * slices before it.
   */
  lemma {:induction false} LoopStopped(starts: seq<nat>, outputs: seq<Option<Table>>, total: nat)
    requires |outputs| == |starts|
    requires Loop(starts, outputs, total).Stopped?
    ensures var st := Loop(starts, outputs, total);
      var m := |st.printed|;
      && m < |starts| && outputs[m].None? && starts[m] == st.start
      && (forall k :: 0 <= k < m ==> outputs[k].Some?)
      && Loop(starts[..m], outputs[..m], total) == Running(st.file, st.printed)
    decreases |starts|
  {
    var n := |starts| - 1;
    var prev := Loop(starts[..n], outputs[..n], total);
    if prev.Stopped? {
      LoopStopped(starts[..n], outputs[..n], total);
      var m := |prev.printed|;
      assert starts[..n][..m] == starts[..m] && outputs[..n][..m] == outputs[..m];
      assert outputs[m] == outputs[..n][m];
      forall k | 0 <= k < m ensures outputs[k].Some? {
        assert outputs[..n][k] == outputs[k];
      }
    } else {
      LoopPrinted(starts[..n], outputs[..n], total);
      LoopPrefixRunning(starts, outputs, total, n);
    }
  }

  /** When the loop over the first `m` slices runs to the end, every one of them met its table. */
  lemma {:induction false} LoopPrefixRunning(starts: seq<nat>, outputs: seq<Option<Table>>, total: nat, m: nat)
    requires |outputs| == |starts| && m <= |starts|
    requires Loop(starts[..m], outputs[..m], total).Running?
    ensures forall k :: 0 <= k < m ==> outputs[k].Some?
    decreases m
  {
    if m > 0 {
      LoopStep(starts, outputs, total, m - 1);
      LoopPrefixRunning(starts, outputs, total, m - 1);
    }
  }

  /** The output of every slice of the table, in order. */
  function SliceOutputs(columns: seq<string>, rows: seq<seq<string>>, col: nat, complete: nat -> Completion, decode: Decoder): (r: seq<Option<Table>>)
    requires Rectangular(columns, rows) && col < |columns|
    ensures |r| == |BatchStarts(0, |rows|)|
  {
    var starts := BatchStarts(0, |rows|);
    seq(|starts|, k requires 0 <= k < |starts| => SliceOutput(columns, rows, col, starts[k], complete, decode))
  }

  /**
   * What `main` produces: the outcome, the output file's lines and the
   * `end_idx` of each "Processed" line. A missing API key or a table
   * without columns stops it before any output.
   */
  function RunSpec(columns: seq<string>, rows: seq<seq<string>>, hasApiKey: bool, complete: nat -> Completion, decode: Decoder): (RunOutcome, seq<Line>, seq<nat>)
    requires Rectangular(columns, rows)
  {
    if !hasApiKey then (MissingApiKey, [], [])
    else
      match SelectTextColumn(columns)
      case None => (NoColumns, [], [])
      case Some(name) =>
        var col := IndexOf(columns, name);
        match Loop(BatchStarts(0, |rows|), SliceOutputs(columns, rows, col, complete, decode), |rows|)
        case Running(f, p) => (Completed, f, p)
        case Stopped(s, f, p) => (NonDictJudgment(s), f, p)
  }

  /** The input table's rows all have one cell per column. */
  lemma InputTableShaped(columns: seq<string>, rows: seq<seq<string>>)
    requires Rectangular(columns, rows)
    ensures Shaped(InputTable(columns, rows)) && |InputTable(columns, rows).rows| == |rows|
  {
  }

  /** One pass of `main`'s loop body up to the merge: the slice, its messages, `process_batch`, the criterion columns. */
  method ProcessSlice(columns: seq<string>, rows: seq<seq<string>>, col: nat, start: nat, complete: nat -> Completion, decode: Decoder)
    returns (merged: Option<Table>)
    requires Rectangular(columns, rows) && col < |columns| && start <= |rows|
    ensures merged == SliceOutput(columns, rows, col, start, complete, decode)
  {
    var batch := rows[start..BatchEnd(start, |rows|)];
    assert Rectangular(columns, batch) by {
      forall i | 0 <= i < |batch| ensures |batch[i]| == |columns| {
        assert batch[i] == rows[start + i];
      }
    }
    InputTableShaped(columns, batch);
    var messages := Messages(batch, col);
    var results := ProcessBatch(complete(start), decode, messages, Delimiter);
    merged := AddCriterionColumns(InputTable(columns, batch), results);
  }

  /** The output of slice `k` is that of the slice starting at its start. */
  lemma SliceOutputsAt(columns: seq<string>, rows: seq<seq<string>>, col: nat, complete: nat -> Completion, decode: Decoder, k: nat)
    requires Rectangular(columns, rows) && col < |columns| && k < |BatchStarts(0, |rows|)|
    ensures SliceOutputs(columns, rows, col, complete, decode)[k] == SliceOutput(columns, rows, col, BatchStarts(0, |rows|)[k], complete, decode)
  {
  }

  /**
   * One more step of a loop still running after `k` slices: it is still
   * running after `k + 1`, or it has stopped for good.
   */
  lemma LoopAdvance(starts: seq<nat>, outputs: seq<Option<Table>>, total: nat, k: nat, file: seq<Line>, printed: seq<nat>)
    requires |outputs| == |starts| && k < |starts|
    requires Loop(starts[..k], outputs[..k], total) == Running(file, printed)
    ensures var st := Step(Running(file, printed), starts[k], outputs[k], total);
      && (st.Running? ==> Loop(starts[..k + 1], outputs[..k + 1], total) == st)
      && (st.Stopped? ==> Loop(starts, outputs, total) == st)
  {
    LoopStep(starts, outputs, total, k);
    if Step(Running(file, printed), starts[k], outputs[k], total).Stopped? {
      StoppedStays(starts, outputs, total, k + 1);
    }
  }

  /** One pass of `main`'s loop: process the slice starting at `start`, then write it and print its end, or stop. */
  method Pass(columns: seq<string>, rows: seq<seq<string>>, col: nat, start: nat, complete: nat -> Completion, decode: Decoder,
              file: seq<Line>, printed: seq<nat>)
    returns (state: RunState)
    requires Rectangular(columns, rows) && col < |columns| && start <= |rows|
    ensures state == Step(Running(file, printed), start, SliceOutput(columns, rows, col, start, complete, decode), |rows|)
  {
    var end := BatchEnd(start, |rows|);
    var merged := ProcessSlice(columns, rows, col, start, complete, decode);
    if merged.None? {
      return Stopped(start, file, printed);
    }
    return Running(file + Written(merged.value, start == 0), printed + [end]);
  }

  /** `main`'s loop over the slices of the table, with `col` the text column. */
  method RunSlices(columns: seq<string>, rows: seq<seq<string>>, col: nat, complete: nat -> Completion, decode: Decoder)
    returns (state: RunState)
    requires Rectangular(columns, rows) && col < |columns|
    ensures state == Loop(BatchStarts(0, |rows|), SliceOutputs(columns, rows, col, complete, decode), |rows|)
  {
    var file: seq<Line>, printed: seq<nat> := [], [];
    var total := |rows|;
    ghost var starts := BatchStarts(0, total);
    ghost var outputs := SliceOutputs(columns, rows, col, complete, decode);
    StartsFirst(total);
    var start := 0;
    ghost var k := 0;
    while start < total
      invariant k <= |starts|
      invariant k < |starts| <==> start < total
      invariant k < |starts| ==> starts[k] == start
      invariant Loop(starts[..k], outputs[..k], total) == Running(file, printed)
      decreases total - start
    {
      var state := Pass(columns, rows, col, start, complete, decode, file, printed);
      StartsNext(total, k);
      SliceOutputsAt(columns, rows, col, complete, decode, k);
      LoopAdvance(starts, outputs, total, k, file, printed);
      if state.Stopped? {
        return state;
      }
      file, printed := state.file, state.printed;
      start := start + BatchSize;
      k := k + 1;
    }
    assert outputs[..k] == outputs;
    assert starts[..k] == starts;
    return Running(file, printed);
  }

  /** `main` after the argument check and the CSV read: the table is `columns` and `rows`. */
  method Run(columns: seq<string>, rows: seq<seq<string>>, hasApiKey: bool, complete: nat -> Completion, decode: Decoder)
    returns (outcome: RunOutcome, file: seq<Line>, printed: seq<nat>)
    requires Rectangular(columns, rows)
    ensures (outcome, file, printed) == RunSpec(columns, rows, hasApiKey, complete, decode)
  {
    if !hasApiKey {
      return MissingApiKey, [], [];
    }
    var textCol := SelectTextColumn(columns);
    if textCol.None? {
      return NoColumns, [], [];
    }
    var col := IndexOf(columns, textCol.value);
    var state := RunSlices(columns, rows, col, complete, decode);
    match state
    case Running(f, p) => return Completed, f, p;
    case Stopped(s, f, p) => return NonDictJudgment(s), f, p;
  }

  /** The text column `main` uses: the position of the name `select_text_column` gives. */
  function TextColumn(columns: seq<string>): (r: nat)
    requires columns != []
    ensures r < |columns| && columns[r] == SelectTextColumn(columns).value
  {
    IndexOf(columns, SelectTextColumn(columns).value)
  }

  /** The rows of a slice of a table have one cell per column too. */
  lemma SliceRectangular(columns: seq<string>, rows: seq<seq<string>>, start: nat, end: nat)
    requires Rectangular(columns, rows) && start <= end <= |rows|
    ensures Rectangular(columns, rows[start..end])
  {
    forall i | 0 <= i < end - start ensures |rows[start..end][i]| == |columns| {
      assert rows[start..end][i] == rows[start + i];
    }
  }

  /** A slice's table, when it can be built, has the slice's rows and the columns with the criteria added. */
  lemma SliceOutputShape(columns: seq<string>, rows: seq<seq<string>>, col: nat, start: nat, complete: nat -> Completion, decode: Decoder)
    requires Rectangular(columns, rows) && col < |columns| && start <= |rows|
    ensures var r := SliceOutput(columns, rows, col, start, complete, decode);
      r.Some? ==> r.value.columns == AddNames(columns, Criteria) && |r.value.rows| == BatchEnd(start, |rows|) - start
  {
    SliceRectangular(columns, rows, start, BatchEnd(start, |rows|));
    InputTableShaped(columns, rows[start..BatchEnd(start, |rows|)]);
  }

  /**
   * A loop over slices beginning with the one at row 0 that runs to the
   * end: every slice met its table, one progress line per slice gives its
   * end; nothing is written when there are no slices, and otherwise the
   * first table's header, then every row of every slice, in order.
   */
  lemma LoopCompleted(starts: seq<nat>, outputs: seq<Option<Table>>, total: nat)
    requires |outputs| == |starts| && Loop(starts, outputs, total).Running?
    requires starts != [] ==> starts[0] == 0 && forall k :: 0 < k < |starts| ==> starts[k] > 0
    ensures var st := Loop(starts, outputs, total);
      && (forall k :: 0 <= k < |outputs| ==> outputs[k].Some?)
      && |st.printed| == |starts|
      && (forall k :: 0 <= k < |starts| ==> st.printed[k] == BatchEnd(starts[k], total))
      && (starts == [] ==> st.file == [])
      && (starts != [] ==> st.file == [Header(outputs[0].value.columns)] + Records(AllRows(outputs)))
  {
    LoopPrinted(starts, outputs, total);
    assert starts[..|starts|] == starts && outputs[..|starts|] == outputs;
    LoopPrefixRunning(starts, outputs, total, |starts|);
    if starts != [] {
      LoopFile(starts, outputs, total);
    }
  }

  /**
   * A run that completes had an API key and a text column, built every
   * slice's table and printed one progress line per slice with its end; it
   * wrote nothing for an empty table, and otherwise the header with the
   * criterion columns added, then every row of every slice, in order.
   */
  lemma RunCompleted(columns: seq<string>, rows: seq<seq<string>>, hasApiKey: bool, complete: nat -> Completion, decode: Decoder)
    requires Rectangular(columns, rows)
    requires RunSpec(columns, rows, hasApiKey, complete, decode).0 == Completed
    ensures hasApiKey && columns != []
    ensures var run := RunSpec(columns, rows, hasApiKey, complete, decode);
      var starts := BatchStarts(0, |rows|);
      var outputs := SliceOutputs(columns, rows, TextColumn(columns), complete, decode);
      && (forall k :: 0 <= k < |outputs| ==> outputs[k].Some?)
      && |run.2| == |starts|
      && (forall k :: 0 <= k < |starts| ==> run.2[k] == BatchEnd(starts[k], |rows|))
      && (rows == [] ==> run.1 == [])
      && (rows != [] ==> run.1 == [Header(AddNames(columns, Criteria))] + Records(AllRows(outputs)))
  {
    var col := TextColumn(columns);
    var starts := BatchStarts(0, |rows|);
    var outputs := SliceOutputs(columns, rows, col, complete, decode);
    SlicesPartition(|rows|);
    LoopCompleted(starts, outputs, |rows|);
    if rows != [] {
      SliceOutputShape(columns, rows, col, 0, complete, decode);
    }
  }

  /** With an API key and columns, `main` runs the loop over every slice from row 0 and reports how it ended. */
  lemma RunSpecLoop(columns: seq<string>, rows: seq<seq<string>>, hasApiKey: bool, complete: nat -> Completion, decode: Decoder)
    requires Rectangular(columns, rows) && hasApiKey && columns != []
    ensures var st := Loop(BatchStarts(0, |rows|), SliceOutputs(columns, rows, TextColumn(columns), complete, decode), |rows|);
      RunSpec(columns, rows, hasApiKey, complete, decode)
        == (if st.Running? then Completed else NonDictJudgment(st.start), st.file, st.printed)
  {
  }

  /** A slice's table cannot be built exactly when one of its judgments is not a dict. */
  lemma SliceOutputRaises(columns: seq<string>, rows: seq<seq<string>>, col: nat, start: nat, complete: nat -> Completion, decode: Decoder)
    requires Rectangular(columns, rows) && col < |columns| && start <= |rows|
    ensures var js := SliceJudgments(rows, col, start, complete, decode);
      SliceOutput(columns, rows, col, start, complete, decode).None? <==> exists i :: 0 <= i < |js| && !js[i].Object?
  {
    var end := BatchEnd(start, |rows|);
    SliceRectangular(columns, rows, start, end);
    InputTableShaped(columns, rows[start..end]);
    AddCriteriaRaises(InputTable(columns, rows[start..end]), Criteria, SliceJudgments(rows, col, start, complete, decode));
  }

  /**
   * A loop over slices beginning with the one at row 0 that stops: it
   * stopped at the first slice whose table could not be built, after one
   * progress line per earlier slice; nothing is written when that is the
   * first slice, and otherwise the first table's header, then every row of
   * the earlier slices, in order.
   */
  lemma LoopHalted(starts: seq<nat>, outputs: seq<Option<Table>>, total: nat, header: seq<string>)
    requires |outputs| == |starts| && Loop(starts, outputs, total).Stopped?
    requires starts != [] ==> starts[0] == 0 && forall k :: 0 < k < |starts| ==> starts[k] > 0
    requires starts != [] && outputs[0].Some? ==> outputs[0].value.columns == header
    ensures var st := Loop(starts, outputs, total);
      var m := |st.printed|;
      && m < |starts| && starts[m] == st.start && outputs[m].None?
      && (forall k :: 0 <= k < m ==> outputs[k].Some? && st.printed[k] == BatchEnd(starts[k], total))
      && (m == 0 ==> st.file == [])
      && (m > 0 ==> st.file == [Header(header)] + Records(AllRows(outputs[..m])))
  {
    var st := Loop(starts, outputs, total);
    LoopStopped(starts, outputs, total);
    var m := |st.printed|;
    LoopCompleted(starts[..m], outputs[..m], total);
    if m > 0 {
      assert outputs[..m][0] == outputs[0];
    }
  }

  /**
   * A run that stops had an API key and a text column, and stopped at the
   * first slice that has a judgment that is not a dict, after one progress
   * line per earlier slice; it wrote nothing when that is the slice at row
   * 0, and otherwise the header with the criterion columns added, then every
   * row of the earlier slices, in order.
   */
  lemma RunStopped(columns: seq<string>, rows: seq<seq<string>>, hasApiKey: bool, complete: nat -> Completion, decode: Decoder)
    requires Rectangular(columns, rows)
    requires RunSpec(columns, rows, hasApiKey, complete, decode).0.NonDictJudgment?
    ensures hasApiKey && columns != []
    ensures var run := RunSpec(columns, rows, hasApiKey, complete, decode);
      var start := run.0.start;
      && start < |rows|
      && var js := SliceJudgments(rows, TextColumn(columns), start, complete, decode);
         exists i :: 0 <= i < |js| && !js[i].Object?
    ensures var run := RunSpec(columns, rows, hasApiKey, complete, decode);
      var starts := BatchStarts(0, |rows|);
      var outputs := SliceOutputs(columns, rows, TextColumn(columns), complete, decode);
      var m := |run.2|;
      && m < |starts| && starts[m] == run.0.start && outputs[m].None?
      && (forall k :: 0 <= k < m ==> outputs[k].Some? && run.2[k] == BatchEnd(starts[k], |rows|))
      && (m == 0 ==> run.1 == [])
      && (m > 0 ==> run.1 == [Header(AddNames(columns, Criteria))] + Records(AllRows(outputs[..m])))
  {
    var run := RunSpec(columns, rows, hasApiKey, complete, decode);
    var start, file, printed := run.0.start, run.1, run.2;
    var col := TextColumn(columns);
    var starts := BatchStarts(0, |rows|);
    var outputs := SliceOutputs(columns, rows, col, complete, decode);
    RunSpecLoop(columns, rows, hasApiKey, complete, decode);
    assert Loop(starts, outputs, |rows|) == Stopped(start, file, printed);
    SlicesPartition(|rows|);
    SliceOutputShape(columns, rows, col, 0, complete, decode);
    LoopHalted(starts, outputs, |rows|, AddNames(columns, Criteria));
    SliceOutputRaises(columns, rows, col, start, complete, decode);
  }

  /**
   * Tables of as many rows as their slices of `[0, total)`, put end to end,
   * have `total` rows, the rows of slice `k` landing from `starts[k]` to
   * its end.
   */
  lemma SlicedRows(outputs: seq<Option<Table>>, total: nat)
    requires |outputs| == |BatchStarts(0, total)| && total > 0
    requires forall k :: 0 <= k < |outputs| ==> outputs[k].Some?
    requires var starts := BatchStarts(0, total);
      forall k :: 0 <= k < |starts| ==> |outputs[k].value.rows| == BatchEnd(starts[k], total) - starts[k]
    ensures |AllRows(outputs)| == total
    ensures var starts := BatchStarts(0, total);
      forall k :: 0 <= k < |starts| ==> AllRows(outputs)[starts[k]..BatchEnd(starts[k], total)] == outputs[k].value.rows
  {
    var starts := BatchStarts(0, total);
    StartsChain(total);
    AllRowsAt(starts, outputs);
  }

  /**
   * When every slice of a non-empty table has its table, the rows written
   * are exactly as many as the input rows, and the rows written from the
   * start of each slice to its end are that slice's table.
   */
  lemma CompletedRows(columns: seq<string>, rows: seq<seq<string>>, col: nat, complete: nat -> Completion, decode: Decoder)
    requires Rectangular(columns, rows) && col < |columns| && rows != []
    requires var outputs := SliceOutputs(columns, rows, col, complete, decode);
      forall k :: 0 <= k < |outputs| ==> outputs[k].Some?
    ensures |AllRows(SliceOutputs(columns, rows, col, complete, decode))| == |rows|
    ensures var starts := BatchStarts(0, |rows|);
      var outputs := SliceOutputs(columns, rows, col, complete, decode);
      forall k :: 0 <= k < |starts| ==> AllRows(outputs)[starts[k]..BatchEnd(starts[k], |rows|)] == outputs[k].value.rows
  {
    var starts := BatchStarts(0, |rows|);
    var outputs := SliceOutputs(columns, rows, col, complete, decode);
    forall k | 0 <= k < |starts|
      ensures |outputs[k].value.rows| == BatchEnd(starts[k], |rows|) - starts[k]
    {
      SliceOutputShape(columns, rows, col, starts[k], complete, decode);
    }
    SlicedRows(outputs, |rows|);
  }

  /**
   * `MergedCells` for the rows `start` to `end` of the input table, as
   * `SliceOutput` merges them: row `i` of the result is input row
   * `start + i` with the criterion columns filled in.
   */
  lemma MergedRange(columns: seq<string>, rows: seq<seq<string>>, start: nat, end: nat, results: seq<Value>)
    requires Rectangular(columns, rows) && start <= end <= |rows| && Distinct(columns) && |results| == end - start
    ensures Rectangular(columns, rows[start..end])
    ensures var r := AddCriteria(InputTable(columns, rows[start..end]), Criteria, results);
      r.Some? ==>
        forall i, j :: 0 <= i < |results| && 0 <= j < |columns| ==>
          r.value.rows[i][j] == if columns[j] in Criteria then Mark(Get(results[i].fields, columns[j])) else Field(rows[start + i][j])
    ensures var r := AddCriteria(InputTable(columns, rows[start..end]), Criteria, results);
      r.Some? ==>
        forall i, j :: 0 <= i < |results| && |columns| <= j < |r.value.columns| ==>
          r.value.columns[j] in Criteria && r.value.rows[i][j] == Mark(Get(results[i].fields, r.value.columns[j]))
  {
    var slice := rows[start..end];
    SliceRectangular(columns, rows, start, end);
    assert |slice| == |results|;
    MergedCells(columns, slice, results);
    var r := AddCriteria(InputTable(columns, slice), Criteria, results);
    if r.Some? {
      var u := r.value;
      ShiftCells(columns, rows, start, end, slice, results, u);
    }
  }

  /** Cells of a table merged from rows `start` to `end`, indexed from the input table. */
  lemma ShiftCells(columns: seq<string>, rows: seq<seq<string>>, start: nat, end: nat, slice: seq<seq<string>>, results: seq<Value>, u: Table)
    requires start <= end <= |rows| && slice == rows[start..end]
    requires |results| == end - start
    requires |u.rows| == |results|
    requires forall k :: 0 <= k < |results| ==> results[k].Object?
    requires forall i :: start <= i < end ==> |rows[i]| == |columns|
    requires forall i :: 0 <= i < |results| ==> |columns| <= |u.rows[i]|
    requires forall i, j :: 0 <= i < |results| && 0 <= j < |columns| ==>
      u.rows[i][j] == if columns[j] in Criteria then Mark(Get(results[i].fields, columns[j])) else Field(slice[i][j])
    ensures forall i, j :: 0 <= i < |results| && 0 <= j < |columns| ==>
      u.rows[i][j] == if columns[j] in Criteria then Mark(Get(results[i].fields, columns[j])) else Field(rows[start + i][j])
  {
    forall i, j | 0 <= i < |results| && 0 <= j < |columns|
      ensures u.rows[i][j] == if columns[j] in Criteria then Mark(Get(results[i].fields, columns[j])) else Field(rows[start + i][j])
    {
      assert slice[i] == rows[start + i];
    }
  }
}
