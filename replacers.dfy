/** The templating step that fills an output table from the on-screen
    record table. A `ColumnReplacer` names one output column and a template
    such as `{차량번호}, {비고}까지`; applied to a source table it renders the
    template once per source row and stores the results as that column. A
    mapping is a sequence of replacers applied one after another. */
module Replacers {
  import opened Wrappers
  import opened Text
  import opened Tables

  /** `re.sub(pattern, replacement, text)` for the optional extra pattern of a
      replacer: a full regular expression, left uninterpreted. */
  type RegexSub = (string, string, string) -> string

  /** The position of the first name that is not a key, or `|names|`: where
      the lookup loop raises its `KeyError`, if anywhere. */
  function FirstMissing(names: seq<string>, keys: set<string>): (k: nat)
    ensures k <= |names|
    ensures forall j :: 0 <= j < k ==> names[j] in keys
    ensures k < |names| ==> names[k] !in keys
  {
    if names == [] then 0
    else if names[0] !in keys then 0
    else 1 + FirstMissing(names[1..], keys)
  }

  datatype ColumnReplacer = ColumnReplacer(
    targetColumn: string,
    template: string,
    extraPattern: string := "",
    extraValue: string := "")
  {
    /** The lookups the template needs all succeed on `keys`. */
    predicate PlaceholdersIn(keys: set<string>)
    {
      forall k :: 0 <= k < |Placeholders(template)| ==> Placeholders(template)[k] in keys
    }

    /** One placeholder step on one entry: every `{name}` becomes `value`
        (an empty value deletes it), then the extra pattern, when set,
        rewrites the entry. */
    function Step(entry: string, name: string, value: string, rx: RegexSub): string
    {
      var e := ReplaceAll(entry, Brace(name), value);
      if extraPattern != "" then rx(extraPattern, extraValue, e) else e
    }

    /** Row `i`'s entry after the placeholders `names` are processed in
        order, starting from the template. */
    function Fill(names: seq<string>, data: Table, i: nat, rx: RegexSub): string
      requires data.Valid() && i < data.rows
      requires forall k :: 0 <= k < |names| ==> names[k] in data.cells
      decreases |names|
    {
      if names == [] then template
      else
        var last := names[|names| - 1];
        Step(Fill(names[..|names| - 1], data, i, rx), last, data.cells[last][i], rx)
    }

    /** Processing one more placeholder is one more step. */
    lemma FillStep(names: seq<string>, j: nat, data: Table, i: nat, rx: RegexSub)
      requires data.Valid() && i < data.rows
      requires j < |names| && forall k :: 0 <= k <= j ==> names[k] in data.cells
      ensures Fill(names[..j + 1], data, i, rx)
              == Step(Fill(names[..j], data, i, rx), names[j], data.cells[names[j]][i], rx)
    {
      assert names[..j + 1][..j] == names[..j];
    }

    /** The rendered entry for source row `i`. */
    function Entry(data: Table, i: nat, rx: RegexSub): string
      requires data.Valid() && i < data.rows && PlaceholdersIn(data.cells.Keys)
    {
      Fill(Placeholders(template), data, i, rx)
    }

    /** The column the replacer renders: one entry per source row, in row
        order, or the `KeyError` of the first placeholder the source lacks. */
    function Render(data: Table, rx: RegexSub): (r: Result<seq<string>, Error>)
      requires data.Valid()
      ensures r.Ok? <==> PlaceholdersIn(data.cells.Keys)
      ensures r.Err? ==> r.error.KeyError? && r.error.column !in data.cells
                         && r.error.column in Placeholders(template)
      ensures r.Ok? ==> |r.value| == data.rows
      ensures r.Ok? ==> forall i :: 0 <= i < data.rows ==> r.value[i] == Entry(data, i, rx)
    {
      var names := Placeholders(template);
      var k := FirstMissing(names, data.cells.Keys);
      if k < |names| then Err(KeyError(names[k]))
      else Ok(seq(data.rows, i requires 0 <= i < data.rows && data.Valid() => Entry(data, i, rx)))
    }

    /** `replace(target, data)` on values: an empty template leaves the target
        as it is; otherwise the rendered column is assigned to the target
        column, and only that column changes (apart from the blanks pandas
        adds when the assignment gives a row-less target its rows). */
    function Apply(target: Table, data: Table, rx: RegexSub): (r: Result<Table, Error>)
      requires target.Valid() && data.Valid()
      ensures template == "" ==> r == Ok(target)
      ensures template != "" ==>
                (r.Ok? <==> PlaceholdersIn(data.cells.Keys) && (target.rows == data.rows || target.rows == 0))
      ensures r.Ok? ==> r.value.Valid()
      ensures r.Ok? && template != "" ==>
                r.value.columns == ColumnsWith(target, targetColumn)
                && r.value.rows == data.rows
                && r.value.cells[targetColumn] == Render(data, rx).value
                && forall c :: c in target.cells && c != targetColumn ==>
                     r.value.cells[c] == (if target.rows == data.rows then target.cells[c] else Blanks(data.rows))
    {
      if template == "" then Ok(target)
      else
        match Render(data, rx)
        case Err(e) => Err(e)
        case Ok(values) => AssignColumn(target, targetColumn, values)
    }

    /** One placeholder step on every entry of `replaced`, row by row, with
        the value of row `i` taken from `column`. */
    method StepRows(replaced: array<string>, name: string, column: seq<string>, rx: RegexSub)
      requires |column| == replaced.Length
      modifies replaced
      ensures forall m :: 0 <= m < replaced.Length ==>
                replaced[m] == Step(old(replaced[m]), name, column[m], rx)
    {
      var i := 0;
      while i < replaced.Length
        invariant 0 <= i <= replaced.Length
        invariant forall m :: 0 <= m < i ==> replaced[m] == Step(old(replaced[m]), name, column[m], rx)
        invariant forall m :: i <= m < replaced.Length ==> replaced[m] == old(replaced[m])
      {
        var value := column[i];
        if value != "" {
          replaced[i] := ReplaceAll(replaced[i], Brace(name), value);
        } else {
          replaced[i] := ReplaceAll(replaced[i], Brace(name), "");
        }
        if extraPattern != "" {
          replaced[i] := rx(extraPattern, extraValue, replaced[i]);
        }
        i := i + 1;
      }
    }

    /** The rendering loop of `replace`: one copy of the template per source
        row in a fresh list, rewritten in place placeholder by placeholder
        and row by row. A placeholder the source lacks raises `KeyError`. */
    method RenderRows(data: Frame, rx: RegexSub) returns (r: Result<seq<string>, Error>)
      requires data.Valid()
      ensures r == Render(data.Value(), rx)
    {
      var names := Placeholders(template);
      var n := data.rows;
      var replaced := new string[n](_ => template);
      ghost var d := data.Value();
      var j := 0;
      while j < |names|
        modifies replaced
        invariant 0 <= j <= |names|
        invariant forall k :: 0 <= k < j ==> names[k] in d.cells
        invariant forall i :: 0 <= i < n ==> replaced[i] == Fill(names[..j], d, i, rx)
      {
        var name := names[j];
        if name !in data.cells {
          assert FirstMissing(names, d.cells.Keys) == j;
          return Err(KeyError(name));
        }
        var column := data.cells[name];
        StepRows(replaced, name, column, rx);
        forall m | 0 <= m < n ensures replaced[m] == Fill(names[..j + 1], d, m, rx) {
          FillStep(names, j, d, m, rx);
        }
        j := j + 1;
      }
      assert names[..|names|] == names;
      var out := replaced[..];
      assert forall i :: 0 <= i < n ==> out[i] == Entry(d, i, rx);
      assert out == Render(d, rx).value;
      r := Ok(out);
    }

    /** `ColumnReplacer.replace(target_df, data_df)`: with a template, renders
        the column and assigns it to the target column. */
    method Replace(target: Frame, data: Frame, rx: RegexSub) returns (outcome: Outcome<Error>)
      requires target.Valid() && data.Valid()
      modifies target
      ensures target.Valid()
      ensures outcome == ToOutcome(Apply(old(target.Value()), old(data.Value()), rx))
      ensures var r := Apply(old(target.Value()), old(data.Value()), rx);
              target.Value() == if r.Ok? then r.value else old(target.Value())
    {
      if template == "" {
        outcome := Pass;
        return;
      }
      var rendered := RenderRows(data, rx);
      if rendered.Err? {
        outcome := Fail(rendered.error);
        return;
      }
      outcome := target.SetColumn(targetColumn, rendered.value);
    }
  }

  /** What running a mapping leaves behind: the target as it stands, and
      whether a replacer raised (the ones after it are not run). */
  datatype Progress = Progress(table: Table, outcome: Outcome<Error>)

  /** The loop of `save_to_postmoa_excel`: the replacers of `rs` applied one
      after another to the same target, stopping at the first that raises. */
  function Run(rs: seq<ColumnReplacer>, target: Table, data: Table, rx: RegexSub): (p: Progress)
    requires target.Valid() && data.Valid()
    ensures p.table.Valid()
    decreases |rs|
  {
    if rs == [] then Progress(target, Pass)
    else
      var before := Run(rs[..|rs| - 1], target, data, rx);
      if before.outcome.Fail? then before
      else
        var r := rs[|rs| - 1].Apply(before.table, data, rx);
        if r.Ok? then Progress(r.value, Pass) else Progress(before.table, Fail(r.error))
  }

  /** Once a replacer has raised, the rest of the mapping changes nothing. */
  lemma {:induction false} RunStops(rs: seq<ColumnReplacer>, k: nat, target: Table, data: Table, rx: RegexSub)
    requires target.Valid() && data.Valid()
    requires k <= |rs| && Run(rs[..k], target, data, rx).outcome.Fail?
    ensures Run(rs, target, data, rx) == Run(rs[..k], target, data, rx)
    decreases |rs|
  {
    if k < |rs| {
      var pre := rs[..|rs| - 1];
      assert pre[..k] == rs[..k];
      RunStops(pre, k, target, data, rx);
    } else {
      assert rs[..k] == rs;
    }
  }

  /** The run of one more replacer, when the ones before it went through. */
  lemma RunPrefix(rs: seq<ColumnReplacer>, k: nat, target: Table, data: Table, rx: RegexSub)
    requires target.Valid() && data.Valid() && k < |rs|
    requires Run(rs[..k], target, data, rx).outcome == Pass
    ensures var t := Run(rs[..k], target, data, rx).table;
            Run(rs[..k + 1], target, data, rx)
            == var r := rs[k].Apply(t, data, rx);
               if r.Ok? then Progress(r.value, Pass) else Progress(t, Fail(r.error))
  {
    assert rs[..k + 1][..k] == rs[..k];
  }

  /** `save_to_postmoa_excel` (and the envelope path): applies each replacer
      with a template, in order, to the fresh target frame. */
  method ApplyMapping(rs: seq<ColumnReplacer>, target: Frame, data: Frame, rx: RegexSub)
    returns (outcome: Outcome<Error>)
    requires target.Valid() && data.Valid() && target != data
    modifies target
    ensures target.Valid()
    ensures outcome == Run(rs, old(target.Value()), data.Value(), rx).outcome
    ensures target.Value() == Run(rs, old(target.Value()), data.Value(), rx).table
  {
    ghost var t0, d := target.Value(), data.Value();
    var k := 0;
    while k < |rs|
      invariant 0 <= k <= |rs|
      invariant target.Valid() && data.Value() == d
      invariant Run(rs[..k], t0, d, rx) == Progress(target.Value(), Pass)
    {
      ghost var before := target.Value();
      RunPrefix(rs, k, t0, d, rx);
      if rs[k].template != "" {
        outcome := rs[k].Replace(target, data, rx);
        if outcome.Fail? {
          assert Run(rs[..k + 1], t0, d, rx).outcome.Fail?;
          RunStops(rs, k + 1, t0, d, rx);
          return;
        }
        assert target.Value() == rs[k].Apply(before, d, rx).value;
      }
      assert Run(rs[..k + 1], t0, d, rx) == Progress(target.Value(), Pass);
      k := k + 1;
    }
    assert rs[..|rs|] == rs;
    outcome := Pass;
  }

  // ---------------------------------------------------------------------------
  // What a replacer renders
  // ---------------------------------------------------------------------------

  /** `n` copies of `text`. */
  function Repeat(text: string, n: nat): (s: seq<string>)
    ensures |s| == n && forall i :: 0 <= i < n ==> s[i] == text
  {
    seq(n, _ => text)
  }

  /** A template without placeholders is copied verbatim into every row, and
      the extra pattern is never applied to it. */
  lemma RenderConstant(cr: ColumnReplacer, data: Table, rx: RegexSub)
    requires data.Valid() && Placeholders(cr.template) == []
    ensures cr.Render(data, rx) == Ok(Repeat(cr.template, data.rows))
  {
    var r := cr.Render(data, rx);
    assert r.Ok?;
    forall i | 0 <= i < data.rows ensures r.value[i] == cr.template {
      assert cr.Entry(data, i, rx) == cr.Fill([], data, i, rx);
    }
    assert r.value == Repeat(cr.template, data.rows);
  }

  /** A template `{name}` without extra pattern copies the source column. */
  lemma RenderField(cr: ColumnReplacer, name: string, data: Table, rx: RegexSub)
    requires data.Valid() && IsWord(name) && name in data.cells
    requires cr.template == Brace(name) && cr.extraPattern == ""
    ensures cr.Render(data, rx) == Ok(data.cells[name])
  {
    PlaceholdersLeading(name, "");
    assert Brace(name) + "" == Brace(name);
    assert Placeholders(cr.template) == [name];
    var r := cr.Render(data, rx);
    forall i | 0 <= i < data.rows ensures r.value[i] == data.cells[name][i] {
      var v := data.cells[name][i];
      ReplaceLeading(Brace(name), "", v);
      assert v + "" == v;
      assert [name][..0] == [];
      assert cr.Fill([name], data, i, rx) == v;
    }
    assert r.value == data.cells[name];
  }

  // ---------------------------------------------------------------------------
  // What a mapping produces from a fresh target
  // ---------------------------------------------------------------------------

  /** Some replacer of `rs` has a template, so the target takes the source's
      row count. */
  predicate Active(rs: seq<ColumnReplacer>)
  {
    exists k :: 0 <= k < |rs| && rs[k].template != ""
  }

  /** Some replacer of `rs` with a template writes column `c`. */
  predicate Writes(rs: seq<ColumnReplacer>, c: string)
  {
    exists k :: 0 <= k < |rs| && rs[k].template != "" && rs[k].targetColumn == c
  }

  /** A mapping fit for a target with columns `targets` and a source with
      columns `sources`: every target column exists, no two replacers write
      the same column, and every placeholder names a source column. */
  predicate FitsSchemas(rs: seq<ColumnReplacer>, targets: set<string>, sources: set<string>)
  {
    (forall k :: 0 <= k < |rs| ==> rs[k].targetColumn in targets && rs[k].PlaceholdersIn(sources))
    && (forall j, k :: 0 <= j < k < |rs| ==> rs[j].targetColumn != rs[k].targetColumn)
  }

  /** What a fitting mapping `rs` leaves in a target that had no row and the
      columns `columns`: those columns, the source's rows once some replacer
      has a template, each written column as its replacer renders it, and
      every other column blank. */
  predicate Projected(rs: seq<ColumnReplacer>, columns: seq<string>, data: Table, rx: RegexSub, t: Table)
    requires data.Valid()
  {
    t.Valid() && t.columns == columns
    && t.rows == (if Active(rs) then data.rows else 0)
    && (forall k :: 0 <= k < |rs| && rs[k].template != "" && rs[k].PlaceholdersIn(data.cells.Keys) ==>
          rs[k].targetColumn in t.cells && t.cells[rs[k].targetColumn] == rs[k].Render(data, rx).value)
    && (forall c :: c in t.cells && !Writes(rs, c) ==> t.cells[c] == Blanks(t.rows))
  }

  /** One more replacer with a template, writing a column no earlier one
      writes, keeps the projection. */
  lemma ProjectStep(pre: seq<ColumnReplacer>, last: ColumnReplacer, columns: seq<string>,
                    data: Table, rx: RegexSub, t: Table)
    requires data.Valid() && Projected(pre, columns, data, rx, t)
    requires last.template != "" && last.targetColumn in t.cells && last.PlaceholdersIn(data.cells.Keys)
    requires forall k :: 0 <= k < |pre| ==> pre[k].targetColumn != last.targetColumn
    ensures last.Apply(t, data, rx).Ok?
    ensures Projected(pre + [last], columns, data, rx, last.Apply(t, data, rx).value)
  {
    var rs := pre + [last];
    var u := last.Apply(t, data, rx).value;
    assert forall k :: 0 <= k < |pre| ==> rs[k] == pre[k];
    assert rs[|pre|] == last;
    assert Active(rs);
    assert u.columns == columns;
    forall c | c in u.cells && !Writes(rs, c) ensures u.cells[c] == Blanks(u.rows) {
      assert !Writes(pre, c);
    }
    forall k | 0 <= k < |rs| && rs[k].template != "" && rs[k].PlaceholdersIn(data.cells.Keys)
      ensures u.cells[rs[k].targetColumn] == rs[k].Render(data, rx).value
    {
      if k < |pre| {
        assert Active(pre);
      }
    }
  }

  /** A replacer with an empty template keeps the projection. */
  lemma ProjectSkip(pre: seq<ColumnReplacer>, last: ColumnReplacer, columns: seq<string>,
                    data: Table, rx: RegexSub, t: Table)
    requires data.Valid() && Projected(pre, columns, data, rx, t) && last.template == ""
    ensures Projected(pre + [last], columns, data, rx, t)
  {
    var rs := pre + [last];
    assert forall k :: 0 <= k < |pre| ==> rs[k] == pre[k];
    assert Active(rs) == Active(pre) by {
      if Active(rs) {
        var k :| 0 <= k < |rs| && rs[k].template != "";
        assert k < |pre|;
      }
    }
    forall c | c in t.cells && !Writes(rs, c) ensures !Writes(pre, c) {
    }
  }

  /** A fitting mapping run on a row-less target never raises, keeps the
      target's columns, gives it the source's rows, fills every written
      column with what its replacer renders and leaves the others blank. */
  lemma {:induction false} RunProjects(rs: seq<ColumnReplacer>, target: Table, data: Table, rx: RegexSub)
    requires target.Valid() && data.Valid() && target.rows == 0
    requires FitsSchemas(rs, target.cells.Keys, data.cells.Keys)
    ensures Run(rs, target, data, rx).outcome == Pass
    ensures Projected(rs, target.columns, data, rx, Run(rs, target, data, rx).table)
    decreases |rs|
  {
    if rs == [] {
      assert !Active(rs);
    } else {
      var n := |rs| - 1;
      var pre, last := rs[..n], rs[n];
      assert rs == pre + [last];
      assert forall k :: 0 <= k < n ==> pre[k] == rs[k];
      assert FitsSchemas(pre, target.cells.Keys, data.cells.Keys);
      RunProjects(pre, target, data, rx);
      var p := Run(pre, target, data, rx);
      if last.template != "" {
        ProjectStep(pre, last, target.columns, data, rx, p.table);
      } else {
        ProjectSkip(pre, last, target.columns, data, rx, p.table);
      }
    }
  }

  /** A replacer with an empty template does nothing, wherever it stands in
      a mapping. */
  lemma EmptyTemplateIsNoOp(rs: seq<ColumnReplacer>, cr: ColumnReplacer, target: Table, data: Table, rx: RegexSub)
    requires target.Valid() && data.Valid() && cr.template == ""
    ensures Run(rs + [cr], target, data, rx) == Run(rs, target, data, rx)
  {
    RunLast(rs, cr, target, data, rx);
    var before := Run(rs, target, data, rx);
    assert cr.Apply(before.table, data, rx) == Ok(before.table);
  }

  /** Running a mapping with one more replacer at the end. */
  lemma RunLast(rs: seq<ColumnReplacer>, cr: ColumnReplacer, target: Table, data: Table, rx: RegexSub)
    requires target.Valid() && data.Valid()
    ensures var before := Run(rs, target, data, rx);
            Run(rs + [cr], target, data, rx)
            == if before.outcome.Fail? then before
               else var r := cr.Apply(before.table, data, rx);
                    if r.Ok? then Progress(r.value, Pass) else Progress(before.table, Fail(r.error))
  {
    var rs' := rs + [cr];
    assert rs'[..|rs'| - 1] == rs && rs'[|rs'| - 1] == cr;
  }
}
