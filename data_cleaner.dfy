/**
 * `DataCleaner` (question2 data processing): the table stages of the cleaning
 * pipeline — price conversion, keep-first deduplication, missing-value handling
 * and text preprocessing — and the processing statistics they record.
 */
module DataCleaning {
  import opened Wrappers
  import opened Tables
  import TextCleaning
  import PriceConversion

  // ---------------------------------------------------------------------------
  // Keep-first deduplication
  // ---------------------------------------------------------------------------

  /**
   * The positions whose key does not occur earlier, in increasing order: the
   * rows `drop_duplicates(keep='first')` keeps.
   */
  function FirstIndices<K(==)>(keys: seq<K>): (r: seq<nat>)
    ensures |r| <= |keys|
    ensures forall k :: 0 <= k < |r| ==> r[k] < |keys|
    decreases |keys|
  {
    if keys == [] then []
    else
      var n := |keys| - 1;
      var p := FirstIndices(keys[..n]);
      if keys[n] in keys[..n] then p else p + [n]
  }

  predicate Increasing(s: seq<nat>) {
    forall a, b :: 0 <= a < b < |s| ==> s[a] < s[b]
  }

  /** The kept positions are increasing. */
  lemma {:induction false} FirstIndicesIncreasing<K>(keys: seq<K>)
    ensures Increasing(FirstIndices(keys))
    decreases |keys|
  {
    if keys != [] {
      var n := |keys| - 1;
      var p := FirstIndices(keys[..n]);
      FirstIndicesIncreasing(keys[..n]);
      if keys[n] !in keys[..n] {
        var r := p + [n];
        assert FirstIndices(keys) == r;
        forall a, b | 0 <= a < b < |r| ensures r[a] < r[b] {
          if b < |p| {
            assert r[a] == p[a] && r[b] == p[b];
            assert p[a] < p[b];
          } else {
            assert r[b] == n;
            assert r[a] == p[a] < |keys[..n]| == n;
          }
        }
      }
    }
  }

  /** A position is kept iff its key does not occur earlier. */
  lemma {:induction false} FirstIndicesKept<K>(keys: seq<K>, i: nat)
    requires i < |keys|
    ensures i in FirstIndices(keys) <==> keys[i] !in keys[..i]
    decreases |keys|
  {
    var n := |keys| - 1;
    var p := FirstIndices(keys[..n]);
    assert n !in p;
    if i < n {
      FirstIndicesKept(keys[..n], i);
      assert keys[..n][..i] == keys[..i];
    }
  }

  /** Every position has a first occurrence of its key at or before it. */
  lemma {:induction false} FirstOccurrence<K>(keys: seq<K>, i: nat) returns (j: nat)
    requires i < |keys|
    ensures j <= i && keys[j] == keys[i] && keys[j] !in keys[..j]
    decreases i
  {
    if keys[i] !in keys[..i] {
      j := i;
    } else {
      var j' :| 0 <= j' < i && keys[..i][j'] == keys[i];
      j := FirstOccurrence(keys, j');
    }
  }

  /** The cells of `row` in the key columns (a missing key counts as missing). */
  function Key(row: Row, subset: seq<string>): seq<Cell> {
    seq(|subset|, j requires 0 <= j < |subset| =>
      if subset[j] in row then row[subset[j]] else Missing)
  }

  function Keys(rows: seq<Row>, subset: seq<string>): (r: seq<seq<Cell>>)
    ensures |r| == |rows| && forall i :: 0 <= i < |rows| ==> r[i] == Key(rows[i], subset)
  {
    seq(|rows|, i requires 0 <= i < |rows| => Key(rows[i], subset))
  }

  /** `df.drop_duplicates(subset=subset, keep='first')` on the rows. */
  function DropDuplicates(rows: seq<Row>, subset: seq<string>): (r: seq<Row>)
    ensures |r| <= |rows|
    ensures var idx := FirstIndices(Keys(rows, subset));
      |idx| == |r| && forall k :: 0 <= k < |r| ==> r[k] == rows[idx[k]]
  {
    var idx := FirstIndices(Keys(rows, subset));
    seq(|idx|, k requires 0 <= k < |idx| => rows[idx[k]])
  }

  /**
   * Keep-first deduplication keeps the rows in their original order, no two kept
   * rows share a key, and every key of the input is still present.
   */
  lemma {:induction false} DropDuplicatesSpec(rows: seq<Row>, subset: seq<string>)
    ensures var r := DropDuplicates(rows, subset);
      var idx := FirstIndices(Keys(rows, subset));
      Increasing(idx) &&
      (forall a, b :: 0 <= a < b < |r| ==> Key(r[a], subset) != Key(r[b], subset)) &&
      (forall i :: 0 <= i < |rows| ==> exists k :: 0 <= k < |r| && Key(r[k], subset) == Key(rows[i], subset))
  {
    var keys := Keys(rows, subset);
    var idx := FirstIndices(keys);
    var r := DropDuplicates(rows, subset);
    FirstIndicesIncreasing(keys);
    forall a, b | 0 <= a < b < |r| ensures Key(r[a], subset) != Key(r[b], subset) {
      FirstIndicesKept(keys, idx[b]);
      assert idx[b] in idx;
      assert keys[..idx[b]][idx[a]] == keys[idx[a]];
    }
    forall i | 0 <= i < |rows|
      ensures exists k :: 0 <= k < |r| && Key(r[k], subset) == Key(rows[i], subset)
    {
      var j := FirstOccurrence(keys, i);
      FirstIndicesKept(keys, j);
      var k :| 0 <= k < |idx| && idx[k] == j;
      assert Key(r[k], subset) == keys[j];
    }
  }

  // ---------------------------------------------------------------------------
  // Missing values
  // ---------------------------------------------------------------------------

  /** `fillna(value)` on one cell of a row. */
  function FillCell(row: Row, name: string, value: Cell): Row {
    if name in row && row[name] == Missing then row[name := value] else row
  }

  /** `fillna(value)` on one column. */
  function FillOne(rows: seq<Row>, name: string, value: Cell): (r: seq<Row>)
    ensures |r| == |rows| && forall i :: 0 <= i < |rows| ==> r[i] == FillCell(rows[i], name, value)
  {
    seq(|rows|, i requires 0 <= i < |rows| => FillCell(rows[i], name, value))
  }

  /** A column the pass of `kind` fills: right kind and not excluded. */
  predicate Fills(c: Column, kind: ColumnKind, exclude: seq<string>) {
    c.kind == kind && c.name !in exclude
  }

  /**
   * One fill pass: for each column of `kind` not in `exclude`, left to right,
   * `df[col] = df[col].fillna(value)`.
   */
  function FillKind(rows: seq<Row>, cols: seq<Column>, kind: ColumnKind, value: Cell,
                    exclude: seq<string>): (r: seq<Row>)
    ensures |r| == |rows|
    decreases |cols|
  {
    if cols == [] then rows
    else
      var n := |cols| - 1;
      var prev := FillKind(rows, cols[..n], kind, value, exclude);
      if Fills(cols[n], kind, exclude) then FillOne(prev, cols[n].name, value) else prev
  }

  lemma {:induction false} FillKindKeys(rows: seq<Row>, cols: seq<Column>, kind: ColumnKind, value: Cell,
                                        exclude: seq<string>, i: nat)
    requires i < |rows|
    ensures FillKind(rows, cols, kind, value, exclude)[i].Keys == rows[i].Keys
    decreases |cols|
  {
    if cols != [] {
      FillKindKeys(rows, cols[..|cols| - 1], kind, value, exclude, i);
    }
  }

  /**
   * A fill pass keeps every row's columns and present values, replaces the missing
   * cells of the columns it fills by `value`, and leaves the other columns alone.
   */
  lemma {:induction false} FillKindSpec(rows: seq<Row>, cols: seq<Column>, kind: ColumnKind, value: Cell,
                                        exclude: seq<string>, i: nat, k: string)
    requires i < |rows| && k in rows[i]
    ensures var r := FillKind(rows, cols, kind, value, exclude);
      r[i].Keys == rows[i].Keys &&
      (rows[i][k] != Missing ==> r[i][k] == rows[i][k]) &&
      ((exists c :: c in cols && c.name == k && Fills(c, kind, exclude)) ==>
        r[i][k] == (if rows[i][k] == Missing then value else rows[i][k])) &&
      ((forall c :: c in cols && c.name == k ==> !Fills(c, kind, exclude)) ==> r[i][k] == rows[i][k])
    decreases |cols|
  {
    if cols != [] {
      var n := |cols| - 1;
      FillKindSpec(rows, cols[..n], kind, value, exclude, i, k);
      assert forall c :: c in cols ==> c in cols[..n] || c == cols[n];
    }
  }

  /** Every required column of the row holds a value. */
  predicate RequiredPresent(row: Row, required: seq<string>) {
    forall c :: c in required && c in row ==> row[c] != Missing
  }

  /** The first required column the table lacks, if any. */
  function MissingColumn(t: Table, required: seq<string>): (r: Option<string>)
    ensures r.Some? ==> r.value in required && !HasColumn(t, r.value)
    ensures r.None? ==> forall c :: c in required ==> HasColumn(t, c)
  {
    if required == [] then None
    else if !HasColumn(t, required[0]) then Some(required[0])
    else MissingColumn(t, required[1..])
  }

  /**
   * `handle_missing_values`: fill numeric columns with `numFill`, fill `object`
   * columns outside `required` with `catFill`, then drop the rows that still miss
   * a required value (`KeyError` when a required column does not exist).
   */
  function HandleMissing(t: Table, numFill: real, catFill: string, required: seq<string>): Result<Table> {
    match MissingColumn(t, required)
    case Some(c) => Err(KeyError(c))
    case None => Ok(Table(t.columns, FilterRows(Filled(t, numFill, catFill, required), row => RequiredPresent(row, required))))
  }

  /** The rows after both fill passes: numeric columns first, then the non-required `object` columns. */
  function Filled(t: Table, numFill: real, catFill: string, required: seq<string>): (r: seq<Row>)
    ensures |r| == |t.rows|
  {
    FillKind(FillKind(t.rows, t.columns, Numeric, Num(numFill), []), t.columns, Object, Text(catFill), required)
  }

  /**
   * A row survives `dropna(subset=required)` after filling: each required cell
   * either held a value already or lies in a numeric column, which the first
   * pass fills (the second pass leaves required columns alone).
   */
  predicate SurvivesFilling(t: Table, row: Row, required: seq<string>) {
    forall c :: c in required && c in row ==>
      row[c] != Missing || exists col :: col in t.columns && col.name == c && col.kind == Numeric
  }

  // ---------------------------------------------------------------------------
  // Price conversion over the rows
  // ---------------------------------------------------------------------------

  /** `row[col]`, missing for a row without the column. */
  function CellOf(row: Row, col: string): Cell {
    if col in row then row[col] else Missing
  }

  function PriceOf(row: Row): Cell {
    CellOf(row, "price")
  }

  /** `convert_price` applied to the price cell of one row. */
  function ConvertRow(row: Row): Row {
    row["price" := PriceConversion.ConvertPrice(PriceOf(row)).cell]
  }

  /** Whether `convert_price` counts the price of one row as converted. */
  predicate Counted(row: Row) {
    PriceConversion.ConvertPrice(PriceOf(row)).converted
  }

  /** `df['price'].apply(convert_price)`. */
  function ConvertRows(rows: seq<Row>): (r: seq<Row>)
    ensures |r| == |rows| && forall i :: 0 <= i < |rows| ==> r[i] == ConvertRow(rows[i])
  {
    seq(|rows|, i requires 0 <= i < |rows| => ConvertRow(rows[i]))
  }

  /** Rows rewritten one by one by `convert_price` are the converted rows. */
  lemma ConvertedRows(rows: seq<Row>, out: seq<Row>)
    requires |out| == |rows| && forall k :: 0 <= k < |rows| ==> out[k] == ConvertRow(rows[k])
    ensures out == ConvertRows(rows)
  {
  }

  lemma ConvertPricesWith(t: Table, rows: seq<Row>)
    requires HasColumn(t, "price") && rows == ConvertRows(t.rows)
    ensures ConvertPrices(t) == Table(WithKind(t.columns, "price", rows), rows)
  {
  }

  /** How many of `rows` pass `p`. */
  function CountRows(rows: seq<Row>, p: Row -> bool): (n: nat)
    ensures n <= |rows|
    decreases |rows|
  {
    if rows == [] then 0
    else
      var n := |rows| - 1;
      CountRows(rows[..n], p) + if p(rows[n]) then 1 else 0
  }

  /** How many rows of `rows` `convert_price` counted as converted. */
  function ConvertedCount(rows: seq<Row>): (n: nat)
    ensures n <= |rows|
  {
    CountRows(rows, Counted)
  }

  /**
   * The row loop of `convert_prices_to_usd`: every row is rewritten by `f` and
   * those passing `p` are counted as converted.
   */
  method MapAndCount(rows: seq<Row>, f: Row -> Row, p: Row -> bool) returns (out: seq<Row>, count: nat)
    ensures |out| == |rows| && forall k :: 0 <= k < |rows| ==> out[k] == f(rows[k])
    ensures count == CountRows(rows, p)
  {
    out := [];
    count := 0;
    for i := 0 to |rows|
      invariant |out| == i && forall k :: 0 <= k < i ==> out[k] == f(rows[k])
      invariant count == CountRows(rows[..i], p)
    {
      assert rows[..i + 1][..i] == rows[..i];
      out := out + [f(rows[i])];
      if p(rows[i]) {
        count := count + 1;
      }
    }
    assert rows[..|rows|] == rows;
  }

  /**
   * The dtype pandas gives the price column after `apply`: numeric when every
   * value is a number or missing, `object` otherwise; an empty column keeps its dtype.
   */
  function ConvertedKind(before: ColumnKind, rows: seq<Row>): ColumnKind {
    if rows == [] then before
    else if forall i :: 0 <= i < |rows| ==> !PriceOf(rows[i]).Text? then Numeric
    else Object
  }

  function WithKind(cols: seq<Column>, name: string, rows: seq<Row>): (r: seq<Column>)
    ensures Names(r) == Names(cols)
  {
    var r := seq(|cols|, i requires 0 <= i < |cols| =>
      if cols[i].name == name then Column(name, ConvertedKind(cols[i].kind, rows)) else cols[i]);
    assert Names(r) == Names(cols);
    r
  }

  /** `convert_prices_to_usd` as a table function. */
  function ConvertPrices(t: Table): (r: Table)
    ensures |r.rows| == |t.rows| && Names(r.columns) == Names(t.columns)
    ensures !HasColumn(t, "price") ==> r == t
  {
    if !HasColumn(t, "price") then t
    else
      var rows := ConvertRows(t.rows);
      Table(WithKind(t.columns, "price", rows), rows)
  }

  // ---------------------------------------------------------------------------
  // Text preprocessing
  // ---------------------------------------------------------------------------

  predicate OccursAt(s: string, p: string, i: nat) {
    i + |p| <= |s| && s[i..i + |p|] == p
  }

  /** `p in s` on strings. */
  predicate Contains(s: string, p: string) {
    exists i :: 0 <= i <= |s| - |p| && OccursAt(s, p, i)
  }

  /** Feature columns are extracted for columns whose name mentions a title or a text. */
  predicate HasFeatures(col: string) {
    Contains(TextCleaning.Lower(col), "title") || Contains(TextCleaning.Lower(col), "text")
  }

  /** `','.join(items)`. */
  function JoinComma(items: seq<string>): string {
    if items == [] then []
    else if |items| == 1 then items[0]
    else items[0] + "," + JoinComma(items[1..])
  }

  /** `x[:n]`. */
  function Take(xs: seq<string>, n: nat): (r: seq<string>)
    ensures |r| <= n && |r| <= |xs| && r == xs[..|r|]
    ensures |xs| <= n ==> r == xs
  {
    if |xs| <= n then xs else xs[..n]
  }

  /** The cells of one column, top to bottom. */
  function ColumnCells(t: Table, col: string): (r: seq<Cell>)
    ensures |r| == |t.rows|
    ensures forall i :: 0 <= i < |t.rows| && col in t.rows[i] ==> r[i] == t.rows[i][col]
  {
    seq(|t.rows|, i requires 0 <= i < |t.rows| => CellOf(t.rows[i], col))
  }

  function HashtagCell(c: Cell): Cell { Text(JoinComma(TextCleaning.ExtractHashtags(TextOf(c)))) }
  function MentionCell(c: Cell): Cell { Text(JoinComma(TextCleaning.ExtractMentions(TextOf(c)))) }
  function KeywordCell(c: Cell): Cell { Text(JoinComma(Take(TextCleaning.ExtractKeywords(TextOf(c), 3), 5))) }
  function CleanCell(c: Cell): Cell { Text(TextCleaning.CleanText(TextOf(c))) }

  function MapCells(cells: seq<Cell>, f: Cell -> Cell): (r: seq<Cell>)
    ensures |r| == |cells| && forall i :: 0 <= i < |cells| ==> r[i] == f(cells[i])
  {
    seq(|cells|, i requires 0 <= i < |cells| => f(cells[i]))
  }

  /**
   * One iteration of the first loop of `preprocess_text_columns`: clean the column
   * and, for a title or text column, add the hashtag, mention and keyword columns
   * computed from the original text.
   */
  function PreprocessColumn(t: Table, col: string): (r: Table)
    ensures |r.rows| == |t.rows|
  {
    if !HasColumn(t, col) then t
    else
      var orig := ColumnCells(t, col);
      var cleaned := SetColumn(t, col, MapCells(orig, CleanCell));
      if !HasFeatures(col) then cleaned
      else
        var t2 := SetColumn(cleaned, col + "_hashtags", MapCells(orig, HashtagCell));
        var t3 := SetColumn(t2, col + "_mentions", MapCells(orig, MentionCell));
        SetColumn(t3, col + "_keywords", MapCells(orig, KeywordCell))
  }

  function PreprocessAll(t: Table, cols: seq<string>): (r: Table)
    ensures |r.rows| == |t.rows|
    decreases |cols|
  {
    if cols == [] then t
    else PreprocessColumn(PreprocessAll(t, cols[..|cols| - 1]), cols[|cols| - 1])
  }

  /** `df[df[col] != '']` (`KeyError` when the column does not exist). */
  function DropEmpty(t: Table, col: string): (r: Result<Table>)
    ensures r.Err? <==> !HasColumn(t, col)
    ensures r.Ok? ==> (r.value.columns == t.columns &&
      forall row :: row in r.value.rows <==> row in t.rows && CellOf(row, col) != Text(""))
  {
    if !HasColumn(t, col) then Err(KeyError(col))
    else Ok(Table(t.columns, FilterRows(t.rows, row => CellOf(row, col) != Text(""))))
  }

  /** The second loop of `preprocess_text_columns`, over the required text columns. */
  function DropEmptyAll(t: Table, cols: seq<string>, required: seq<string>): Result<Table>
    decreases |cols|
  {
    if cols == [] then Ok(t)
    else
      var n := |cols| - 1;
      match DropEmptyAll(t, cols[..n], required)
      case Err(e) => Err(e)
      case Ok(t1) => if cols[n] in required then DropEmpty(t1, cols[n]) else Ok(t1)
  }

  function Preprocess(t: Table, cols: seq<string>, required: seq<string>): Result<Table> {
    DropEmptyAll(PreprocessAll(t, cols), cols, required)
  }

  /** The first loop of `preprocess_text_columns`: each column in turn is cleaned. */
  method PreprocessLoop(t: Table, cols: seq<string>) returns (cur: Table)
    ensures cur == PreprocessAll(t, cols)
  {
    cur := t;
    for i := 0 to |cols|
      invariant cur == PreprocessAll(t, cols[..i])
    {
      assert cols[..i + 1][..i] == cols[..i];
      cur := PreprocessColumn(cur, cols[i]);
    }
    assert cols[..|cols|] == cols;
  }

  /**
   * The second loop of `preprocess_text_columns`: rows with an empty text are
   * dropped for each required column in turn; a missing one raises `KeyError`.
   */
  method DropEmptyLoop(t: Table, cols: seq<string>, required: seq<string>) returns (r: Result<Table>)
    ensures r == DropEmptyAll(t, cols, required)
  {
    var acc := t;
    for i := 0 to |cols|
      invariant DropEmptyAll(t, cols[..i], required) == Ok(acc)
    {
      assert cols[..i + 1][..i] == cols[..i];
      if cols[i] in required {
        var step := DropEmpty(acc, cols[i]);
        if step.Err? {
          DropEmptyAllStops(t, cols, i + 1, required);
          return step;
        }
        acc := step.value;
      }
    }
    assert cols[..|cols|] == cols;
    r := Ok(acc);
  }

  // ---------------------------------------------------------------------------
  // The cleaner object
  // ---------------------------------------------------------------------------

  datatype CurrencyStats = CurrencyStats(convertedPrices: nat, assumedUsd: nat)

  /** `processing_stats`: each entry is absent until its stage has run. */
  datatype ProcessingStats = ProcessingStats(
    initialRows: Option<nat>,
    duplicatesRemoved: Option<nat>,
    missingHandled: Option<nat>,
    currencyConversion: Option<CurrencyStats>)

  const NoStats := ProcessingStats(None, None, None, None)

  /** `process_pipeline` as a table function, stage by stage. */
  function Pipeline(t: Table, textColumns: seq<string>, numFill: real, catFill: string,
                    required: seq<string>): Result<Table> {
    var cols := if textColumns == [] then ["title", "category"] else textColumns;
    var converted := ConvertPrices(t);
    if !HasColumn(converted, "title") then Err(KeyError("title"))
    else
      var deduped := Table(converted.columns, DropDuplicates(converted.rows, ["title"]));
      match HandleMissing(deduped, numFill, catFill, required)
      case Err(e) => Err(e)
      case Ok(filled) => Preprocess(filled, cols, required)
  }

  class DataCleaner {
    const numericalFill: real
    const categoricalFill: string
    const requiredColumns: seq<string>
    var stats: ProcessingStats

    /** `required_columns or ['title']`: an empty list means the default. */
    constructor(numericalFill: real, categoricalFill: string, requiredColumns: seq<string>)
      ensures this.numericalFill == numericalFill && this.categoricalFill == categoricalFill
      ensures this.requiredColumns == if requiredColumns == [] then ["title"] else requiredColumns
      ensures stats == NoStats
    {
      this.numericalFill := numericalFill;
      this.categoricalFill := categoricalFill;
      this.requiredColumns := if requiredColumns == [] then ["title"] else requiredColumns;
      stats := NoStats;
    }

    /** `remove_duplicates`: `subset or ['title']`; records the number of rows removed. */
    method RemoveDuplicates(t: Table, subset: seq<string>) returns (r: Result<Table>)
      modifies this
      ensures var keys := if subset == [] then ["title"] else subset;
        match MissingColumn(t, keys)
        case Some(c) => r == Err(KeyError(c)) && stats == old(stats)
        case None => (r == Ok(Table(t.columns, DropDuplicates(t.rows, keys))) &&
          stats == old(stats).(duplicatesRemoved := Some(|t.rows| - |r.value.rows|)))
    {
      var keys := if subset == [] then ["title"] else subset;
      var absent := MissingColumn(t, keys);
      if absent.Some? {
        return Err(KeyError(absent.value));
      }
      var rows := DropDuplicates(t.rows, keys);
      stats := stats.(duplicatesRemoved := Some(|t.rows| - |rows|));
      r := Ok(Table(t.columns, rows));
    }

    /** `handle_missing_values`, column loop by column loop. */
    method HandleMissingValues(t: Table) returns (r: Result<Table>)
      modifies this
      ensures r == HandleMissing(t, numericalFill, categoricalFill, requiredColumns)
      ensures r.Ok? ==> stats == old(stats).(missingHandled := Some(|t.rows| - |r.value.rows|))
      ensures r.Err? ==> stats == old(stats)
    {
      var rows := t.rows;
      for i := 0 to |t.columns|
        invariant rows == FillKind(t.rows, t.columns[..i], Numeric, Num(numericalFill), [])
      {
        assert t.columns[..i + 1][..i] == t.columns[..i];
        if t.columns[i].kind == Numeric {
          rows := FillOne(rows, t.columns[i].name, Num(numericalFill));
        }
      }
      assert t.columns[..|t.columns|] == t.columns;
      var numeric := rows;
      for i := 0 to |t.columns|
        invariant rows == FillKind(numeric, t.columns[..i], Object, Text(categoricalFill), requiredColumns)
      {
        assert t.columns[..i + 1][..i] == t.columns[..i];
        if t.columns[i].kind == Object && t.columns[i].name !in requiredColumns {
          rows := FillOne(rows, t.columns[i].name, Text(categoricalFill));
        }
      }
      var absent := MissingColumn(t, requiredColumns);
      if absent.Some? {
        return Err(KeyError(absent.value));
      }
      var kept := FilterRows(rows, row => RequiredPresent(row, requiredColumns));
      stats := stats.(missingHandled := Some(|rows| - |kept|));
      r := Ok(Table(t.columns, kept));
    }

    /** `convert_prices_to_usd`: the row loop with its `converted_count`. */
    method ConvertPricesToUsd(t: Table) returns (r: Table)
      modifies this
      ensures r == ConvertPrices(t)
      ensures !HasColumn(t, "price") ==> stats == old(stats)
      ensures HasColumn(t, "price") ==> stats == old(stats).(currencyConversion :=
        Some(CurrencyStats(ConvertedCount(t.rows), |t.rows| - ConvertedCount(t.rows))))
    {
      if !HasColumn(t, "price") {
        return t;
      }
      var rows, converted := MapAndCount(t.rows, ConvertRow, Counted);
      ConvertedRows(t.rows, rows);
      assert converted == ConvertedCount(t.rows) <= |t.rows|;
      ConvertPricesWith(t, rows);
      stats := stats.(currencyConversion := Some(CurrencyStats(converted, |t.rows| - converted)));
      r := Table(WithKind(t.columns, "price", rows), rows);
    }

    /** `preprocess_text_columns`: the cleaning loop, then the empty-text loop. */
    method PreprocessTextColumns(t: Table, textColumns: seq<string>) returns (r: Result<Table>)
      ensures r == Preprocess(t, textColumns, requiredColumns)
    {
      var cleaned := PreprocessLoop(t, textColumns);
      r := DropEmptyLoop(cleaned, textColumns, requiredColumns);
    }

    /**
     * `process_pipeline` on an already loaded table: convert prices, deduplicate on
     * the title, handle missing values, preprocess the text columns
     * (`['title', 'category']` when none are given).
     */
    method ProcessPipeline(t: Table, textColumns: seq<string>) returns (r: Result<Table>)
      modifies this
      ensures r == Pipeline(t, textColumns, numericalFill, categoricalFill, requiredColumns)
      ensures stats.initialRows == Some(|t.rows|)
      ensures r.Ok? ==> (stats.duplicatesRemoved.Some? && stats.missingHandled.Some? &&
        stats.duplicatesRemoved.value + stats.missingHandled.value + |r.value.rows| <= |t.rows|)
    {
      var cols := if textColumns == [] then ["title", "category"] else textColumns;
      stats := stats.(initialRows := Some(|t.rows|));
      var converted := ConvertPricesToUsd(t);
      var deduped := RemoveDuplicates(converted, []);
      if deduped.Err? {
        return deduped;
      }
      var filled := HandleMissingValues(deduped.value);
      if filled.Err? {
        return filled;
      }
      r := PreprocessTextColumns(filled.value, cols);
      PreprocessShrinks(filled.value, cols, requiredColumns);
    }
  }

  // ---------------------------------------------------------------------------
  // Properties
  // ---------------------------------------------------------------------------

  /** Preprocessing never adds rows. */
  lemma {:induction false} PreprocessShrinks(t: Table, cols: seq<string>, required: seq<string>)
    ensures var r := Preprocess(t, cols, required); r.Ok? ==> |r.value.rows| <= |t.rows|
  {
    DropEmptyAllShrinks(PreprocessAll(t, cols), cols, required);
  }

  /** The first failing column decides the outcome: later columns are not looked at. */
  lemma {:induction false} DropEmptyAllStops(t: Table, cols: seq<string>, i: nat, required: seq<string>)
    requires i <= |cols| && DropEmptyAll(t, cols[..i], required).Err?
    ensures DropEmptyAll(t, cols, required) == DropEmptyAll(t, cols[..i], required)
    decreases |cols|
  {
    if i < |cols| {
      var n := |cols| - 1;
      assert cols[..n][..i] == cols[..i];
      DropEmptyAllStops(t, cols[..n], i, required);
    } else {
      assert cols[..i] == cols;
    }
  }

  lemma {:induction false} DropEmptyAllShrinks(t: Table, cols: seq<string>, required: seq<string>)
    ensures var r := DropEmptyAll(t, cols, required); r.Ok? ==> |r.value.rows| <= |t.rows|
    decreases |cols|
  {
    if cols != [] {
      DropEmptyAllShrinks(t, cols[..|cols| - 1], required);
    }
  }

  /**
   * After `handle_missing_values`: every kept row comes from an input row whose
   * present values it keeps, and no numeric cell, no non-required `object` cell and
   * no required cell is missing. `HandleMissingKeeps` gives the other direction.
   */
  lemma {:induction false} HandleMissingSpec(t: Table, numFill: real, catFill: string, required: seq<string>)
    ensures var r := HandleMissing(t, numFill, catFill, required);
      r.Ok? ==> forall row :: row in r.value.rows ==>
        RequiredPresent(row, required) &&
        (forall c :: c in t.columns && c.name in row && (c.kind == Numeric || c.kind == Object) ==>
          row[c.name] != Missing) &&
        exists i :: 0 <= i < |t.rows| && row.Keys == t.rows[i].Keys &&
          (forall k :: k in t.rows[i] && t.rows[i][k] != Missing ==> row[k] == t.rows[i][k])
  {
    var numeric := FillKind(t.rows, t.columns, Numeric, Num(numFill), []);
    var filled := Filled(t, numFill, catFill, required);
    var r := HandleMissing(t, numFill, catFill, required);
    if r.Ok? {
      forall row | row in r.value.rows
        ensures (forall c :: c in t.columns && c.name in row && (c.kind == Numeric || c.kind == Object) ==>
          row[c.name] != Missing)
        ensures exists i :: (0 <= i < |t.rows| && row.Keys == t.rows[i].Keys &&
          forall k :: k in t.rows[i] && t.rows[i][k] != Missing ==> row[k] == t.rows[i][k])
      {
        assert row in filled && RequiredPresent(row, required);
        var i :| 0 <= i < |filled| && filled[i] == row;
        forall k | k in t.rows[i]
          ensures k in row && (t.rows[i][k] != Missing ==> row[k] == t.rows[i][k])
          ensures (exists c :: c in t.columns && c.name == k && c.kind == Numeric) ==> row[k] != Missing
          ensures (exists c :: c in t.columns && c.name == k && c.kind == Object && k !in required) ==>
            row[k] != Missing
        {
          FillKindSpec(t.rows, t.columns, Numeric, Num(numFill), [], i, k);
          FillKindSpec(numeric, t.columns, Object, Text(catFill), required, i, k);
        }
        FillKindKeys(t.rows, t.columns, Numeric, Num(numFill), [], i);
        FillKindKeys(numeric, t.columns, Object, Text(catFill), required, i);
        forall c | c in t.columns && c.name in row && (c.kind == Numeric || c.kind == Object)
          ensures row[c.name] != Missing
        {
          if c.kind == Object && c.name in required {
            assert c.name in required && c.name in row;
          }
        }
      }
    }
  }

  /** A row's required cells hold values after filling exactly when the row survives filling. */
  lemma FilledRequired(t: Table, numFill: real, catFill: string, required: seq<string>, i: nat)
    requires i < |t.rows|
    ensures var row := Filled(t, numFill, catFill, required)[i];
      row.Keys == t.rows[i].Keys &&
      (RequiredPresent(row, required) <==> SurvivesFilling(t, t.rows[i], required))
  {
    var numeric := FillKind(t.rows, t.columns, Numeric, Num(numFill), []);
    var row := Filled(t, numFill, catFill, required)[i];
    FillKindKeys(t.rows, t.columns, Numeric, Num(numFill), [], i);
    FillKindKeys(numeric, t.columns, Object, Text(catFill), required, i);
    forall c | c in required && c in t.rows[i]
      ensures row[c] != Missing <==>
        t.rows[i][c] != Missing || exists col :: col in t.columns && col.name == c && col.kind == Numeric
    {
      FillKindSpec(t.rows, t.columns, Numeric, Num(numFill), [], i, c);
      FillKindSpec(numeric, t.columns, Object, Text(catFill), required, i, c);
      assert forall col :: col in t.columns && col.name == c ==> !Fills(col, Object, required);
      assert (exists col :: col in t.columns && col.name == c && col.kind == Numeric) <==>
        (exists col :: col in t.columns && col.name == c && Fills(col, Numeric, []));
    }
  }

  /**
   * The other direction of `handle_missing_values`: the kept rows are the filled
   * rows that survive, in input order, so every input row that survives filling
   * is kept, filled, and every other row is dropped.
   */
  lemma HandleMissingKeeps(t: Table, numFill: real, catFill: string, required: seq<string>, i: nat)
    requires i < |t.rows|
    ensures var r := HandleMissing(t, numFill, catFill, required);
      var filled := Filled(t, numFill, catFill, required);
      r.Ok? ==>
        && r.value.rows == FilterRows(filled, row => RequiredPresent(row, required))
        && (SurvivesFilling(t, t.rows[i], required) ==> filled[i] in r.value.rows)
        && (!SurvivesFilling(t, t.rows[i], required) ==> filled[i] !in r.value.rows)
  {
    FilledRequired(t, numFill, catFill, required, i);
  }

  /**
   * Price conversion rewrites only the price cell of each row, to what
   * `convert_price` makes of it; and `assumed_usd` is rows minus converted.
   */
  lemma {:induction false} ConvertPricesSpec(t: Table, i: nat)
    requires HasColumn(t, "price") && i < |t.rows|
    ensures var r := ConvertPrices(t);
      var c := PriceConversion.ConvertPrice(PriceOf(t.rows[i]));
      r.rows[i]["price"] == c.cell &&
      (forall k :: k in t.rows[i] && k != "price" ==> k in r.rows[i] && r.rows[i][k] == t.rows[i][k]) &&
      (PriceOf(t.rows[i]) == Missing ==> r.rows[i]["price"] == Missing) &&
      (c.converted ==> r.rows[i]["price"].Num? && PriceConversion.IsCents(r.rows[i]["price"].value))
  {
  }

  /** The feature-column names of one text column are pairwise different and new. */
  lemma {:induction false} FeatureNamesDiffer(col: string)
    ensures col + "_hashtags" != col && col + "_mentions" != col && col + "_keywords" != col
    ensures col + "_hashtags" != col + "_mentions" && col + "_hashtags" != col + "_keywords"
    ensures col + "_mentions" != col + "_keywords"
  {
    assert (col + "_hashtags")[|col| + 1] == 'h';
    assert (col + "_mentions")[|col| + 1] == 'm';
    assert (col + "_keywords")[|col| + 1] == 'k';
  }

  /** Preprocessing a column replaces its text by the cleaned text, in place. */
  lemma {:induction false} PreprocessCleans(t: Table, col: string, i: nat)
    requires HasColumn(t, col) && i < |t.rows|
    ensures PreprocessColumn(t, col).rows[i][col] == Text(TextCleaning.CleanText(TextOf(CellOf(t.rows[i], col))))
  {
    var orig := ColumnCells(t, col);
    var cleaned := SetColumn(t, col, MapCells(orig, CleanCell));
    assert cleaned.rows[i][col] == CleanCell(orig[i]);
    if HasFeatures(col) {
      FeatureNamesDiffer(col);
      var t2 := SetColumn(cleaned, col + "_hashtags", MapCells(orig, HashtagCell));
      var t3 := SetColumn(t2, col + "_mentions", MapCells(orig, MentionCell));
      SetColumnKeeps(cleaned, col + "_hashtags", MapCells(orig, HashtagCell), col, i);
      SetColumnKeeps(t2, col + "_mentions", MapCells(orig, MentionCell), col, i);
      SetColumnKeeps(t3, col + "_keywords", MapCells(orig, KeywordCell), col, i);
    }
  }

  /** Setting one column leaves every other cell of a row as it was. */
  lemma SetColumnKeeps(t: Table, name: string, values: seq<Cell>, other: string, i: nat)
    requires |values| == |t.rows| && i < |t.rows| && other != name && other in t.rows[i]
    ensures other in SetColumn(t, name, values).rows[i]
    ensures SetColumn(t, name, values).rows[i][other] == t.rows[i][other]
  {
  }

  /**
   * A title or text column gets hashtag, mention and keyword columns computed from
   * the original, uncleaned text; the keyword column holds at most five keywords.
   */
  lemma {:induction false} PreprocessFeatures(t: Table, col: string, i: nat)
    requires HasColumn(t, col) && HasFeatures(col) && i < |t.rows|
    ensures var r := PreprocessColumn(t, col);
      var orig := TextOf(CellOf(t.rows[i], col));
      r.rows[i][col + "_hashtags"] == Text(JoinComma(TextCleaning.ExtractHashtags(orig))) &&
      r.rows[i][col + "_mentions"] == Text(JoinComma(TextCleaning.ExtractMentions(orig))) &&
      r.rows[i][col + "_keywords"] == Text(JoinComma(Take(TextCleaning.ExtractKeywords(orig, 3), 5)))
  {
    FeatureNamesDiffer(col);
    var orig := ColumnCells(t, col);
    var cleaned := SetColumn(t, col, MapCells(orig, CleanCell));
    var t2 := SetColumn(cleaned, col + "_hashtags", MapCells(orig, HashtagCell));
    var t3 := SetColumn(t2, col + "_mentions", MapCells(orig, MentionCell));
    var r := SetColumn(t3, col + "_keywords", MapCells(orig, KeywordCell));
    assert r == PreprocessColumn(t, col);
    assert t2.rows[i][col + "_hashtags"] == HashtagCell(orig[i]);
    assert t3.rows[i][col + "_mentions"] == MentionCell(orig[i]);
    assert r.rows[i][col + "_keywords"] == KeywordCell(orig[i]);
  }

  /** Any other column gets no new column. */
  lemma {:induction false} PreprocessNoFeatures(t: Table, col: string)
    requires !HasFeatures(col)
    ensures Names(PreprocessColumn(t, col).columns) == Names(t.columns)
  {
  }

  /** Only a column whose name contains "title" or "text" yields feature columns. */
  lemma FeatureColumnsByName()
    ensures HasFeatures("title") && HasFeatures("book_text")
    ensures !HasFeatures("category")
  {
    assert OccursAt(TextCleaning.Lower("title"), "title", 0);
    assert OccursAt(TextCleaning.Lower("book_text"), "text", 5);
    var l := "category";
    TextCleaning.LowerUnchanged(l);
    forall i | 0 <= i <= |l| - 5 ensures !OccursAt(l, "title", i) {
      assert l[i..i + 5][0] != 't' || l[i..i + 5][1] != 'i';
    }
    forall i | 0 <= i <= |l| - 4 ensures !OccursAt(l, "text", i) {
      assert l[i..i + 4][0] != 't' || l[i..i + 4][1] != 'e' || l[i..i + 4][2] != 'x';
    }
  }

  /**
   * The empty-text filter keeps a subset of the rows in which every required text
   * column is non-empty, and fails exactly when a required text column is absent.
   */
  lemma {:induction false} DropEmptyAllSpec(t: Table, cols: seq<string>, required: seq<string>)
    ensures var r := DropEmptyAll(t, cols, required);
      (r.Err? <==> exists c :: c in cols && c in required && !HasColumn(t, c)) &&
      (r.Ok? ==> (r.value.columns == t.columns &&
        forall row :: row in r.value.rows ==> (row in t.rows &&
          forall c :: c in cols && c in required ==> CellOf(row, c) != Text(""))))
    decreases |cols|
  {
    if cols != [] {
      var n := |cols| - 1;
      DropEmptyAllSpec(t, cols[..n], required);
      assert forall c :: c in cols <==> c in cols[..n] || c == cols[n];
    }
  }
}
