/**
 * The tabular data the cleaner works on: a pandas DataFrame as a list of declared
 * columns and a list of rows, each row a map from column name to cell.
 */
module Tables {
  import opened Wrappers

  /** One cell: missing (`NaN`/`None`), a number, or a string. */
  datatype Cell = Missing | Num(value: real) | Text(text: string)

  /** The dtype families the cleaner distinguishes: `float64`/`int64`, `object`,
      and everything else. */
  datatype ColumnKind = Numeric | Object | OtherKind

  datatype Column = Column(name: string, kind: ColumnKind)

  type Row = map<string, Cell>

  datatype Table = Table(columns: seq<Column>, rows: seq<Row>)

  function Names(columns: seq<Column>): (r: seq<string>)
    ensures |r| == |columns|
    ensures forall i :: 0 <= i < |columns| ==> r[i] == columns[i].name
  {
    seq(|columns|, i requires 0 <= i < |columns| => columns[i].name)
  }

  predicate HasColumn(t: Table, name: string) {
    name in Names(t.columns)
  }

  /** Column names are distinct and every row has a cell for exactly the columns. */
  ghost predicate WellFormed(t: Table) {
    (forall i, j :: 0 <= i < j < |t.columns| ==> t.columns[i].name != t.columns[j].name) &&
    forall r :: r in t.rows ==> r.Keys == set c | c in t.columns :: c.name
  }

  /** The string inside a cell, as Python's `isinstance(x, str)` sees it. */
  function TextOf(c: Cell): Option<string> {
    if c.Text? then Some(c.text) else None
  }

  /** The row-selection `df[mask]`: the rows that satisfy `keep`, in order. */
  function FilterRows(rows: seq<Row>, keep: Row -> bool): (r: seq<Row>)
    ensures |r| <= |rows|
    ensures forall row :: row in r <==> row in rows && keep(row)
  {
    if rows == [] then []
    else if keep(rows[0]) then [rows[0]] + FilterRows(rows[1..], keep)
    else FilterRows(rows[1..], keep)
  }

  lemma RowsConsAssoc(x: Row, a: seq<Row>, b: seq<Row>)
    ensures [x] + (a + b) == ([x] + a) + b
  {
  }

  /** One step of the row selection. */
  lemma FilterRowsCons(row: Row, rest: seq<Row>, keep: Row -> bool)
    ensures FilterRows([row] + rest, keep) ==
      if keep(row) then [row] + FilterRows(rest, keep) else FilterRows(rest, keep)
  {
    assert ([row] + rest)[1..] == rest;
  }

  /**
   * The row selection keeps the order of the rows: selecting from a
   * concatenation concatenates the selections.
   */
  lemma {:induction false} FilterRowsAppend(a: seq<Row>, b: seq<Row>, keep: Row -> bool)
    ensures FilterRows(a + b, keep) == FilterRows(a, keep) + FilterRows(b, keep)
    decreases |a|
  {
    if a == [] {
      assert a + b == b;
    } else {
      var x, t := a[0], a[1..];
      assert a == [x] + t;
      assert a + b == [x] + (t + b);
      FilterRowsCons(x, t + b, keep);
      FilterRowsCons(x, t, keep);
      FilterRowsAppend(t, b, keep);
      RowsConsAssoc(x, FilterRows(t, keep), FilterRows(b, keep));
    }
  }

  /**
   * `df[name] = values`: overwrites the column if it exists (its dtype becomes
   * `object`), otherwise appends it.
   */
  function SetColumn(t: Table, name: string, values: seq<Cell>): (r: Table)
    requires |values| == |t.rows|
    ensures |r.rows| == |t.rows|
    ensures forall i :: 0 <= i < |t.rows| ==> r.rows[i] == t.rows[i][name := values[i]]
    ensures HasColumn(r, name)
    ensures forall n :: HasColumn(t, n) ==> HasColumn(r, n)
    ensures HasColumn(t, name) ==> Names(r.columns) == Names(t.columns)
    ensures !HasColumn(t, name) ==> Names(r.columns) == Names(t.columns) + [name]
  {
    var cols := if HasColumn(t, name)
      then seq(|t.columns|, i requires 0 <= i < |t.columns| =>
             if t.columns[i].name == name then Column(name, Object) else t.columns[i])
      else t.columns + [Column(name, Object)];
    assert HasColumn(t, name) ==> Names(cols) == Names(t.columns);
    assert !HasColumn(t, name) ==> Names(cols) == Names(t.columns) + [name];
    Table(cols, seq(|t.rows|, i requires 0 <= i < |t.rows| => t.rows[i][name := values[i]]))
  }
}
