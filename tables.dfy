/** The pandas DataFrames of the program, reduced to what the templating
    uses: an ordered list of column labels, one sequence of string cells per
    column, and a row count. `Table` is the value; `Frame` is the object the
    program updates in place (the on-screen table and the output tables). */
module Tables {
  import opened Wrappers

  /** The exceptions pandas raises on the operations modelled here. */
  datatype Error =
    | KeyError(column: string)                  // `df[name]` on a missing column
    | LengthMismatch(rows: nat, values: nat)    // `df[name] = values`, wrong length
    | RowMismatch(columns: nat, values: nat)    // `df.loc[n] = values`, wrong width

  predicate Distinct(columns: seq<string>)
  {
    forall i, j :: 0 <= i < j < |columns| ==> columns[i] != columns[j]
  }

  /** `n` empty cells. They stand for the NaN pandas puts in columns that a
      row-growing assignment does not cover; `to_excel` writes both blank. */
  function Blanks(n: nat): (b: seq<string>)
    ensures |b| == n && forall i :: 0 <= i < n ==> b[i] == ""
  {
    seq(n, _ => "")
  }

  datatype Table = Table(columns: seq<string>, cells: map<string, seq<string>>, rows: nat)
  {
    /** Column labels are distinct, each has a cell sequence, and every cell
        sequence is exactly `rows` long. */
    predicate Valid()
    {
      Distinct(columns)
      && (forall c :: c in cells ==> c in columns)
      && (forall i :: 0 <= i < |columns| ==> columns[i] in cells)
      && (forall c :: c in cells ==> |cells[c]| == rows)
    }
  }

  /** `pd.DataFrame(columns=schema)`: the columns, no row. */
  function Empty(schema: seq<string>): (t: Table)
    requires Distinct(schema)
    ensures t.Valid() && t.columns == schema && t.rows == 0
    ensures forall c :: c in t.cells ==> t.cells[c] == []
  {
    Table(schema, map c | c in schema :: [], 0)
  }

  lemma EmptyKeys(schema: seq<string>)
    requires Distinct(schema)
    ensures Empty(schema).cells.Keys == set c | c in schema
  {
  }

  /** The column list after assigning `name`: unchanged for a known
      column, one more at the end for a new one. */
  function ColumnsWith(t: Table, name: string): (columns: seq<string>)
    requires t.Valid()
    ensures Distinct(columns)
    ensures forall c :: c in columns <==> c in t.cells || c == name
    ensures |columns| == |t.columns| + (if name in t.cells then 0 else 1)
  {
    if name in t.cells then t.columns else t.columns + [name]
  }

  /** Assigning keeps the existing labels where they were; a new label goes
      after all of them. */
  lemma ColumnsWithOrder(t: Table, name: string)
    requires t.Valid()
    ensures ColumnsWith(t, name)[..|t.columns|] == t.columns
    ensures name !in t.cells ==> ColumnsWith(t, name)[|t.columns|] == name
  {
  }

  /** `t[name] = values`. A value list of the table's length replaces (or
      appends) the column. On a table with no row, a longer list first
      grows the table to that many rows, the other columns blank. Any other
      length is a mismatch and the table is left as it was. */
  function AssignColumn(t: Table, name: string, values: seq<string>): (r: Result<Table, Error>)
    requires t.Valid()
    ensures r.Ok? <==> (|values| == t.rows || t.rows == 0)
    ensures r.Err? ==> r.error == LengthMismatch(t.rows, |values|)
    ensures r.Ok? ==> r.value.Valid() && r.value.rows == |values|
    ensures r.Ok? ==> r.value.columns == ColumnsWith(t, name)
    ensures r.Ok? ==> name in r.value.cells && r.value.cells[name] == values
    ensures r.Ok? ==> forall c :: c in t.cells && c != name ==>
                        r.value.cells[c] == (if t.rows == |values| then t.cells[c] else Blanks(|values|))
  {
    var columns := ColumnsWith(t, name);
    if |values| == t.rows then
      var u := Table(columns, t.cells[name := values], t.rows);
      assert u.Valid();
      Ok(u)
    else if t.rows == 0 then
      var u := Table(columns, map c | c in columns :: if c == name then values else Blanks(|values|), |values|);
      assert u.Valid();
      Ok(u)
    else
      Err(LengthMismatch(t.rows, |values|))
  }

  /** The position of a column label in the column list. */
  function IndexOf(columns: seq<string>, c: string): (k: nat)
    requires c in columns
    ensures k < |columns| && columns[k] == c
    ensures Distinct(columns) ==> forall j :: 0 <= j < |columns| && columns[j] == c ==> j == k
  {
    if columns[0] == c then 0 else 1 + IndexOf(columns[1..], c)
  }

  /** `t.loc[len(t)] = values`: one more row at the end, `values[k]` under
      the k-th column. A list of another width is refused. */
  function AddRow(t: Table, values: seq<string>): (r: Result<Table, Error>)
    requires t.Valid()
    ensures r.Ok? <==> |values| == |t.columns|
    ensures r.Err? ==> r.error == RowMismatch(|t.columns|, |values|)
    ensures r.Ok? ==> r.value.Valid() && r.value.columns == t.columns && r.value.rows == t.rows + 1
    ensures r.Ok? ==> forall k :: 0 <= k < |t.columns| ==>
                        r.value.cells[t.columns[k]] == t.cells[t.columns[k]] + [values[k]]
  {
    if |values| == |t.columns| then
      var cells := map c | c in t.cells :: t.cells[c] + [values[IndexOf(t.columns, c)]];
      var u := Table(t.columns, cells, t.rows + 1);
      assert u.Valid();
      Ok(u)
    else
      Err(RowMismatch(|t.columns|, |values|))
  }

  /** Appending never disturbs the rows already there. */
  lemma AppendRowKeepsRows(t: Table, values: seq<string>, c: string, i: nat)
    requires t.Valid() && |values| == |t.columns| && c in t.cells && i < t.rows
    ensures AddRow(t, values).value.cells[c][i] == t.cells[c][i]
    ensures AddRow(t, values).value.cells[c][t.rows] in values
  {
    var k :| 0 <= k < |t.columns| && t.columns[k] == c;
    assert AddRow(t, values).value.cells[t.columns[k]] == t.cells[c] + [values[k]];
  }

  /** A DataFrame the program holds and updates in place. */
  class Frame {
    var columns: seq<string>
    var cells: map<string, seq<string>>
    var rows: nat

    function Value(): Table
      reads this
    {
      Table(columns, cells, rows)
    }

    predicate Valid()
      reads this
    {
      Value().Valid()
    }

    /** `EMPTY_DATAFRAME.copy(deep=True)`: a fresh frame with the schema. */
    constructor (schema: seq<string>)
      requires Distinct(schema)
      ensures Valid() && Value() == Empty(schema)
    {
      columns := schema;
      cells := map c | c in schema :: [];
      rows := 0;
    }

    /** `self[name] = values`, raising as pandas does on a length mismatch. */
    method SetColumn(name: string, values: seq<string>) returns (outcome: Outcome<Error>)
      requires Valid()
      modifies this
      ensures Valid()
      ensures outcome == ToOutcome(AssignColumn(old(Value()), name, values))
      ensures var r := AssignColumn(old(Value()), name, values);
              Value() == if r.Ok? then r.value else old(Value())
    {
      var r := AssignColumn(Value(), name, values);
      if r.Ok? {
        var u := r.value;
        columns, cells, rows := u.columns, u.cells, u.rows;
        assert Value() == u;
      }
      outcome := ToOutcome(r);
    }

    /** `self.loc[len(self)] = values`. */
    method AppendRow(values: seq<string>) returns (outcome: Outcome<Error>)
      requires Valid()
      modifies this
      ensures Valid()
      ensures outcome == ToOutcome(AddRow(old(Value()), values))
      ensures var r := AddRow(old(Value()), values);
              Value() == if r.Ok? then r.value else old(Value())
    {
      var r := AddRow(Value(), values);
      if r.Ok? {
        columns, cells, rows := r.value.columns, r.value.cells, r.value.rows;
      }
      outcome := ToOutcome(r);
    }
  }
}
