/** The fixed layouts of the program and the four mappings that project the
    on-screen record table onto them: three Postmoa bulk-mail spreadsheets
    (normal, registered, selective registered mail) and the windowed
    envelope sheet. */
module Mappings {
  import opened Wrappers
  import opened Text
  import opened Tables
  import opened Replacers

  // ---------------------------------------------------------------------------
  // Schemas
  // ---------------------------------------------------------------------------

  /** The columns of the on-screen record table: name, zip code, address,
      title, vehicle number, and the remark column that holds the due date. */
  const Name: string := "이름"
  const Zip: string := "우편번호"
  const Address: string := "주소"
  const Title: string := "제목"
  const Vehicle: string := "차량번호"
  const Remark: string := "비고"

  const SourceColumns: seq<string> := [Name, Zip, Address, Title, Vehicle, Remark]

  const NormalMailColumns: seq<string> :=
    ["규격*", "중량*", "통수*", "수취인*", "우편번호*", "기본주소*", "상세주소", "휴대폰", "문서번호", "문서제목", "비고"]

  const RegisteredMailColumns: seq<string> :=
    ["수수료*", "환부*", "규격*", "중량", "수취인*", "우편번호*", "기본주소*", "상세주소", "휴대폰", "문서번호", "문서제목", "비고"]

  const SelectiveRegisteredMailColumns: seq<string> :=
    ["수수료*", "규격*", "중량", "수취인*", "우편번호*", "기본주소*", "상세주소", "휴대폰", "문서번호", "문서제목", "비고"]

  /** The envelope sheet reuses the record table's layout. */
  const EnvelopeColumns: seq<string> := SourceColumns

  // ---------------------------------------------------------------------------
  // Mappings
  // ---------------------------------------------------------------------------

  /** The remark template `{차량번호}, {비고}까지`: the vehicle number, then
      the due date followed by `까지` ("until"). */
  const RemarkTemplate: string := Brace(Vehicle) + ", " + Brace(Remark) + "까지"

  const NormalMail: seq<ColumnReplacer> := [
    ColumnReplacer("수취인*", Brace(Name)),
    ColumnReplacer("우편번호*", Brace(Zip)),
    ColumnReplacer("기본주소*", Brace(Address)),
    ColumnReplacer("문서제목", Brace(Title)),
    ColumnReplacer("비고", RemarkTemplate),
    ColumnReplacer("규격*", "규격"),
    ColumnReplacer("통수*", "1"),
    ColumnReplacer("중량*", "25")
  ]

  const RegisteredMail: seq<ColumnReplacer> := [
    ColumnReplacer("수취인*", Brace(Name)),
    ColumnReplacer("우편번호*", Brace(Zip)),
    ColumnReplacer("기본주소*", Brace(Address)),
    ColumnReplacer("문서제목", Brace(Title)),
    ColumnReplacer("비고", RemarkTemplate),
    ColumnReplacer("규격*", "규격"),
    ColumnReplacer("중량", "25"),
    ColumnReplacer("수수료*", "보통"),
    ColumnReplacer("환부*", "환부불능")
  ]

  const SelectiveRegisteredMail: seq<ColumnReplacer> := [
    ColumnReplacer("수수료*", "보통"),
    ColumnReplacer("규격*", "규격"),
    ColumnReplacer("중량", "25"),
    ColumnReplacer("수취인*", Brace(Name)),
    ColumnReplacer("우편번호*", Brace(Zip)),
    ColumnReplacer("기본주소*", Brace(Address)),
    ColumnReplacer("문서제목", Brace(Title)),
    ColumnReplacer("비고", RemarkTemplate)
  ]

  const Envelope: seq<ColumnReplacer> := [
    ColumnReplacer(Title, Brace(Title)),
    ColumnReplacer(Zip, Brace(Zip)),
    ColumnReplacer(Address, Brace(Address)),
    ColumnReplacer(Name, Brace(Name)),
    ColumnReplacer(Remark, RemarkTemplate)
  ]

  // ---------------------------------------------------------------------------
  // The templates' placeholders
  // ---------------------------------------------------------------------------

  /** `{name}` has the one placeholder `name`. */
  lemma FieldPlaceholder(name: string)
    requires IsWord(name)
    ensures Placeholders(Brace(name)) == [name]
  {
    PlaceholdersLeading(name, "");
    assert Brace(name) + "" == Brace(name);
  }

  lemma SourceColumnsAreWords()
    ensures IsWord(Name) && IsWord(Zip) && IsWord(Address) && IsWord(Title)
    ensures IsWord(Vehicle) && IsWord(Remark)
  {
  }

  /** The remark template reads the vehicle number, then the remark. */
  lemma RemarkPlaceholders()
    ensures Placeholders(RemarkTemplate) == [Vehicle, Remark]
  {
    SourceColumnsAreWords();
    var tail := Brace(Remark) + "까지";
    assert RemarkTemplate == Brace(Vehicle) + (", " + tail);
    PlaceholdersLeading(Vehicle, ", " + tail);
    PlaceholdersSkip(", ", tail);
    PlaceholdersLeading(Remark, "까지");
    PlaceholdersNone("까지");
  }

  /** The constant templates have no placeholder. */
  lemma ConstantTemplates()
    ensures Placeholders("규격") == [] && Placeholders("1") == [] && Placeholders("25") == []
    ensures Placeholders("보통") == [] && Placeholders("환부불능") == []
  {
    PlaceholdersNone("규격");
    PlaceholdersNone("1");
    PlaceholdersNone("25");
    PlaceholdersNone("보통");
    PlaceholdersNone("환부불능");
  }

  /** The templates the four mappings use. */
  predicate KnownTemplate(t: string)
  {
    t == Brace(Name) || t == Brace(Zip) || t == Brace(Address) || t == Brace(Title)
    || t == RemarkTemplate || t == "규격" || t == "1" || t == "25" || t == "보통" || t == "환부불능"
  }

  /** Every placeholder of those templates is a column of the record table. */
  lemma TemplatePlaceholders(t: string)
    requires KnownTemplate(t)
    ensures forall k :: 0 <= k < |Placeholders(t)| ==> Placeholders(t)[k] in SourceColumns
  {
    SourceColumnsAreWords();
    FieldPlaceholder(Name);
    FieldPlaceholder(Zip);
    FieldPlaceholder(Address);
    FieldPlaceholder(Title);
    RemarkPlaceholders();
    ConstantTemplates();
  }

  // ---------------------------------------------------------------------------
  // Well-formedness of the four mappings
  // ---------------------------------------------------------------------------

  lemma SchemasDistinct()
    ensures Distinct(SourceColumns) && Distinct(NormalMailColumns)
    ensures Distinct(RegisteredMailColumns) && Distinct(SelectiveRegisteredMailColumns)
  {
  }

  /** The cell keys of the record table, whatever rows it holds. */
  predicate HasSourceColumns(src: Table)
  {
    src.Valid() && forall c :: c in SourceColumns ==> c in src.cells
  }

  /** The mapping writes only columns of its layout, never the same column
      twice, and reads only columns of the record table. */
  lemma NormalMailFits(src: Table)
    requires HasSourceColumns(src)
    ensures FitsSchemas(NormalMail, (set c | c in NormalMailColumns), src.cells.Keys)
  {
    forall k | 0 <= k < |NormalMail|
      ensures NormalMail[k].targetColumn in NormalMailColumns
      ensures NormalMail[k].PlaceholdersIn(src.cells.Keys)
    {
      TemplatePlaceholders(NormalMail[k].template);
    }
  }

  lemma RegisteredMailFits(src: Table)
    requires HasSourceColumns(src)
    ensures FitsSchemas(RegisteredMail, (set c | c in RegisteredMailColumns), src.cells.Keys)
  {
    forall k | 0 <= k < |RegisteredMail|
      ensures RegisteredMail[k].targetColumn in RegisteredMailColumns
      ensures RegisteredMail[k].PlaceholdersIn(src.cells.Keys)
    {
      TemplatePlaceholders(RegisteredMail[k].template);
    }
  }

  lemma SelectiveRegisteredMailFits(src: Table)
    requires HasSourceColumns(src)
    ensures FitsSchemas(SelectiveRegisteredMail, (set c | c in SelectiveRegisteredMailColumns), src.cells.Keys)
  {
    forall k | 0 <= k < |SelectiveRegisteredMail|
      ensures SelectiveRegisteredMail[k].targetColumn in SelectiveRegisteredMailColumns
      ensures SelectiveRegisteredMail[k].PlaceholdersIn(src.cells.Keys)
    {
      TemplatePlaceholders(SelectiveRegisteredMail[k].template);
    }
  }

  lemma EnvelopeFits(src: Table)
    requires HasSourceColumns(src)
    ensures FitsSchemas(Envelope, (set c | c in EnvelopeColumns), src.cells.Keys)
  {
    forall k | 0 <= k < |Envelope|
      ensures Envelope[k].targetColumn in EnvelopeColumns
      ensures Envelope[k].PlaceholdersIn(src.cells.Keys)
    {
      TemplatePlaceholders(Envelope[k].template);
    }
  }

  // ---------------------------------------------------------------------------
  // What each layout receives
  // ---------------------------------------------------------------------------

  predicate NoOpenBrace(s: string)
  {
    forall i :: 0 <= i < |s| ==> s[i] != '{'
  }

  /** `{차량번호}` does not occur in what follows it in the remark template. */
  lemma RemarkTailFree()
    ensures !Occurs(Brace(Remark) + "까지", Brace(Vehicle))
  {
    var tail, p := Brace(Remark) + "까지", Brace(Vehicle);
    assert |tail| == |p| == 6;
    assert tail[1] != p[1];
    forall j | OccursAt(tail, p, j) ensures false {
    }
  }

  /** The remark for vehicle number `v` and due date `d`: the template with
      `{차량번호}` substituted, then `{비고}`. */
  function RemarkText(v: string, d: string): string
  {
    ReplaceAll(ReplaceAll(RemarkTemplate, Brace(Vehicle), v), Brace(Remark), d)
  }

  /** The two substitution steps of the remark template. */
  lemma RemarkEntry(v: string, d: string)
    requires NoOpenBrace(v)
    ensures RemarkText(v, d) == v + ", " + d + "까지"
  {
    var tail := Brace(Remark) + "까지";
    assert RemarkTemplate == Brace(Vehicle) + (", " + tail);
    ReplaceLeading(Brace(Vehicle), ", " + tail, v);
    ReplaceSkip(", ", tail, Brace(Vehicle), v);
    RemarkTailFree();
    ReplaceAbsent(tail, Brace(Vehicle), v);
    assert ReplaceAll(RemarkTemplate, Brace(Vehicle), v) == (v + ", ") + tail;
    ReplaceSkip(v + ", ", tail, Brace(Remark), d);
    ReplaceLeading(Brace(Remark), "까지", d);
    assert ReplaceAll("까지", Brace(Remark), d) == "까지";
  }

  /** The remark column holds, row by row, the remark for that row's
      vehicle number and due date, which reads `<vehicle number>, <due
      date>까지` when the vehicle number holds no `{` that the second step
      could take for the start of `{비고}`. */
  lemma RenderRemark(cr: ColumnReplacer, data: Table, rx: RegexSub)
    requires data.Valid() && Vehicle in data.cells && Remark in data.cells
    requires cr.template == RemarkTemplate && cr.extraPattern == ""
    ensures cr.Render(data, rx).Ok?
    ensures forall i :: 0 <= i < data.rows ==>
              cr.Render(data, rx).value[i] == RemarkText(data.cells[Vehicle][i], data.cells[Remark][i])
    ensures forall i :: 0 <= i < data.rows && NoOpenBrace(data.cells[Vehicle][i]) ==>
              cr.Render(data, rx).value[i] == data.cells[Vehicle][i] + ", " + data.cells[Remark][i] + "까지"
  {
    RemarkPlaceholders();
    var names := [Vehicle, Remark];
    assert names[..1] == [Vehicle] && [Vehicle][..0] == [];
    forall i | 0 <= i < data.rows
      ensures cr.Render(data, rx).value[i] == RemarkText(data.cells[Vehicle][i], data.cells[Remark][i])
    {
      var v, d := data.cells[Vehicle][i], data.cells[Remark][i];
      assert cr.Fill([], data, i, rx) == RemarkTemplate;
      assert cr.Fill([Vehicle], data, i, rx) == cr.Step(RemarkTemplate, Vehicle, v, rx);
      assert cr.Fill(names, data, i, rx) == cr.Step(cr.Step(RemarkTemplate, Vehicle, v, rx), Remark, d, rx);
    }
    forall i | 0 <= i < data.rows && NoOpenBrace(data.cells[Vehicle][i])
      ensures RemarkText(data.cells[Vehicle][i], data.cells[Remark][i])
              == data.cells[Vehicle][i] + ", " + data.cells[Remark][i] + "까지"
    {
      RemarkEntry(data.cells[Vehicle][i], data.cells[Remark][i]);
    }
  }

  /** A column no replacer of the mapping writes. */
  predicate Unwritten(rs: seq<ColumnReplacer>, c: string)
  {
    forall k :: 0 <= k < |rs| ==> rs[k].targetColumn != c
  }

  /** The columns the three Postmoa layouts share: recipient, zip code, base
      address and document title copied from the record table, the remark
      composed from vehicle number and due date, and the fixed size `규격`. */
  predicate PostalFields(t: Table, src: Table)
    requires HasSourceColumns(src)
  {
    t.Valid() && t.rows == src.rows
    && "수취인*" in t.cells && t.cells["수취인*"] == src.cells[Name]
    && "우편번호*" in t.cells && t.cells["우편번호*"] == src.cells[Zip]
    && "기본주소*" in t.cells && t.cells["기본주소*"] == src.cells[Address]
    && "문서제목" in t.cells && t.cells["문서제목"] == src.cells[Title]
    && "규격*" in t.cells && t.cells["규격*"] == Repeat("규격", src.rows)
    && "비고" in t.cells
    && (forall i :: 0 <= i < src.rows ==>
          t.cells["비고"][i] == RemarkText(src.cells[Vehicle][i], src.cells[Remark][i]))
    && (forall i :: 0 <= i < src.rows && NoOpenBrace(src.cells[Vehicle][i]) ==>
          t.cells["비고"][i] == src.cells[Vehicle][i] + ", " + src.cells[Remark][i] + "까지")
    && "상세주소" in t.cells && t.cells["상세주소"] == Blanks(src.rows)
    && "휴대폰" in t.cells && t.cells["휴대폰"] == Blanks(src.rows)
    && "문서번호" in t.cells && t.cells["문서번호"] == Blanks(src.rows)
  }

  /** `cr` is one of the replacers of `rs`. */
  predicate Includes(rs: seq<ColumnReplacer>, cr: ColumnReplacer)
  {
    exists k :: 0 <= k < |rs| && rs[k] == cr
  }

  /** A fitting mapping run on an empty layout never raises and leaves the
      layout projected. */
  lemma MappingProjects(rs: seq<ColumnReplacer>, columns: seq<string>, src: Table, rx: RegexSub)
    requires Distinct(columns) && src.Valid()
    requires FitsSchemas(rs, (set c | c in columns), src.cells.Keys)
    ensures Run(rs, Empty(columns), src, rx).outcome == Pass
    ensures Projected(rs, columns, src, rx, Run(rs, Empty(columns), src, rx).table)
  {
    EmptyKeys(columns);
    RunProjects(rs, Empty(columns), src, rx);
  }

  /** A column a mapping copies from the record table. */
  lemma CopiedColumn(rs: seq<ColumnReplacer>, columns: seq<string>, src: Table, rx: RegexSub, t: Table,
                     c: string, name: string)
    requires HasSourceColumns(src) && Projected(rs, columns, src, rx, t)
    requires Includes(rs, ColumnReplacer(c, Brace(name))) && name in SourceColumns
    ensures c in t.cells && t.cells[c] == src.cells[name]
  {
    var k :| 0 <= k < |rs| && rs[k] == ColumnReplacer(c, Brace(name));
    SourceColumnsAreWords();
    FieldPlaceholder(name);
    RenderField(rs[k], name, src, rx);
  }

  /** The remark column of a mapping. */
  lemma RemarkColumn(rs: seq<ColumnReplacer>, columns: seq<string>, src: Table, rx: RegexSub, t: Table, c: string)
    requires HasSourceColumns(src) && Projected(rs, columns, src, rx, t)
    requires Includes(rs, ColumnReplacer(c, RemarkTemplate))
    ensures c in t.cells
    ensures forall i :: 0 <= i < src.rows ==>
              t.cells[c][i] == RemarkText(src.cells[Vehicle][i], src.cells[Remark][i])
    ensures forall i :: 0 <= i < src.rows && NoOpenBrace(src.cells[Vehicle][i]) ==>
              t.cells[c][i] == src.cells[Vehicle][i] + ", " + src.cells[Remark][i] + "까지"
  {
    var k :| 0 <= k < |rs| && rs[k] == ColumnReplacer(c, RemarkTemplate);
    RemarkPlaceholders();
    RenderRemark(rs[k], src, rx);
  }

  /** A column a mapping fills with a constant. */
  lemma ConstantColumn(rs: seq<ColumnReplacer>, columns: seq<string>, src: Table, rx: RegexSub, t: Table,
                       c: string, text: string)
    requires HasSourceColumns(src) && Projected(rs, columns, src, rx, t)
    requires Includes(rs, ColumnReplacer(c, text)) && text != "" && Placeholders(text) == []
    ensures c in t.cells && t.cells[c] == Repeat(text, src.rows)
  {
    var k :| 0 <= k < |rs| && rs[k] == ColumnReplacer(c, text);
    assert Active(rs);
    RenderConstant(rs[k], src, rx);
  }

  /** A column no replacer of a mapping writes stays blank. */
  lemma BlankColumn(rs: seq<ColumnReplacer>, columns: seq<string>, src: Table, rx: RegexSub, t: Table, c: string)
    requires HasSourceColumns(src) && Projected(rs, columns, src, rx, t)
    requires Active(rs) && c in columns && Unwritten(rs, c)
    ensures c in t.cells && t.cells[c] == Blanks(src.rows)
  {
  }

  /** The replacers the three Postmoa mappings share, and the columns none of
      them writes. */
  predicate PostalLayout(rs: seq<ColumnReplacer>)
  {
    Includes(rs, ColumnReplacer("수취인*", Brace(Name)))
    && Includes(rs, ColumnReplacer("우편번호*", Brace(Zip)))
    && Includes(rs, ColumnReplacer("기본주소*", Brace(Address)))
    && Includes(rs, ColumnReplacer("문서제목", Brace(Title)))
    && Includes(rs, ColumnReplacer("비고", RemarkTemplate))
    && Includes(rs, ColumnReplacer("규격*", "규격"))
    && Unwritten(rs, "상세주소") && Unwritten(rs, "휴대폰") && Unwritten(rs, "문서번호")
  }

  /** A mapping with the shared replacers, projected onto a layout with the
      blank columns, yields the shared postal columns. */
  lemma PostalFieldsFrom(rs: seq<ColumnReplacer>, columns: seq<string>, src: Table, rx: RegexSub, t: Table)
    requires HasSourceColumns(src) && Projected(rs, columns, src, rx, t) && PostalLayout(rs)
    requires "상세주소" in columns && "휴대폰" in columns && "문서번호" in columns
    ensures PostalFields(t, src)
  {
    var k :| 0 <= k < |rs| && rs[k] == ColumnReplacer("규격*", "규격");
    assert Active(rs);
    ConstantTemplates();
    CopiedColumn(rs, columns, src, rx, t, "수취인*", Name);
    CopiedColumn(rs, columns, src, rx, t, "우편번호*", Zip);
    CopiedColumn(rs, columns, src, rx, t, "기본주소*", Address);
    CopiedColumn(rs, columns, src, rx, t, "문서제목", Title);
    RemarkColumn(rs, columns, src, rx, t, "비고");
    ConstantColumn(rs, columns, src, rx, t, "규격*", "규격");
    BlankColumn(rs, columns, src, rx, t, "상세주소");
    BlankColumn(rs, columns, src, rx, t, "휴대폰");
    BlankColumn(rs, columns, src, rx, t, "문서번호");
  }

  // ---------------------------------------------------------------------------
  // The four output tables
  // ---------------------------------------------------------------------------

  /** The columns of the layout the normal-mail mapping leaves blank. */
  lemma NormalMailBlanks()
    ensures Unwritten(NormalMail, "상세주소") && Unwritten(NormalMail, "휴대폰") && Unwritten(NormalMail, "문서번호")
  {
  }

  lemma NormalMailLayout()
    ensures |NormalMail| == 8 && PostalLayout(NormalMail)
    ensures Includes(NormalMail, ColumnReplacer("통수*", "1")) && Includes(NormalMail, ColumnReplacer("중량*", "25"))
  {
    NormalMailBlanks();
    assert NormalMail[0] == ColumnReplacer("수취인*", Brace(Name));
    assert NormalMail[1] == ColumnReplacer("우편번호*", Brace(Zip));
    assert NormalMail[2] == ColumnReplacer("기본주소*", Brace(Address));
    assert NormalMail[3] == ColumnReplacer("문서제목", Brace(Title));
    assert NormalMail[4] == ColumnReplacer("비고", RemarkTemplate);
    assert NormalMail[5] == ColumnReplacer("규격*", "규격");
    assert NormalMail[6] == ColumnReplacer("통수*", "1");
    assert NormalMail[7] == ColumnReplacer("중량*", "25");
  }

  /** The normal-mail sheet: the shared postal columns, one piece per
      recipient, weight 25 grams. */
  predicate NormalMailSheet(t: Table, src: Table)
    requires HasSourceColumns(src)
  {
    t.columns == NormalMailColumns && PostalFields(t, src)
    && "통수*" in t.cells && t.cells["통수*"] == Repeat("1", src.rows)
    && "중량*" in t.cells && t.cells["중량*"] == Repeat("25", src.rows)
  }

  /** The normal-mail mapping, run on the empty normal-mail layout, never
      raises and yields the normal-mail sheet. */
  lemma NormalMailOutput(src: Table, rx: RegexSub)
    requires HasSourceColumns(src)
    ensures var p := Run(NormalMail, Empty(NormalMailColumns), src, rx);
            p.outcome == Pass && NormalMailSheet(p.table, src)
  {
    var rs, columns := NormalMail, NormalMailColumns;
    SchemasDistinct();
    NormalMailFits(src);
    MappingProjects(rs, columns, src, rx);
    var t := Run(rs, Empty(columns), src, rx).table;
    NormalMailLayout();
    PostalFieldsFrom(rs, columns, src, rx, t);
    ConstantTemplates();
    ConstantColumn(rs, columns, src, rx, t, "통수*", "1");
    ConstantColumn(rs, columns, src, rx, t, "중량*", "25");
  }

  /** The columns of the layout the registered-mail mapping leaves blank. */
  lemma RegisteredMailBlanks()
    ensures Unwritten(RegisteredMail, "상세주소") && Unwritten(RegisteredMail, "휴대폰") && Unwritten(RegisteredMail, "문서번호")
  {
  }

  lemma RegisteredMailLayout()
    ensures |RegisteredMail| == 9 && PostalLayout(RegisteredMail)
    ensures Includes(RegisteredMail, ColumnReplacer("중량", "25"))
    ensures Includes(RegisteredMail, ColumnReplacer("수수료*", "보통"))
    ensures Includes(RegisteredMail, ColumnReplacer("환부*", "환부불능"))
  {
    RegisteredMailBlanks();
    assert RegisteredMail[0] == ColumnReplacer("수취인*", Brace(Name));
    assert RegisteredMail[1] == ColumnReplacer("우편번호*", Brace(Zip));
    assert RegisteredMail[2] == ColumnReplacer("기본주소*", Brace(Address));
    assert RegisteredMail[3] == ColumnReplacer("문서제목", Brace(Title));
    assert RegisteredMail[4] == ColumnReplacer("비고", RemarkTemplate);
    assert RegisteredMail[5] == ColumnReplacer("규격*", "규격");
    assert RegisteredMail[6] == ColumnReplacer("중량", "25");
    assert RegisteredMail[7] == ColumnReplacer("수수료*", "보통");
    assert RegisteredMail[8] == ColumnReplacer("환부*", "환부불능");
  }

  /** The registered-mail sheet: the shared postal columns, weight 25 grams,
      ordinary fee and no return to sender. */
  predicate RegisteredMailSheet(t: Table, src: Table)
    requires HasSourceColumns(src)
  {
    t.columns == RegisteredMailColumns && PostalFields(t, src)
    && "중량" in t.cells && t.cells["중량"] == Repeat("25", src.rows)
    && "수수료*" in t.cells && t.cells["수수료*"] == Repeat("보통", src.rows)
    && "환부*" in t.cells && t.cells["환부*"] == Repeat("환부불능", src.rows)
  }

  /** The registered-mail mapping, run on the empty registered-mail layout,
      never raises and yields the registered-mail sheet. */
  lemma RegisteredMailOutput(src: Table, rx: RegexSub)
    requires HasSourceColumns(src)
    ensures var p := Run(RegisteredMail, Empty(RegisteredMailColumns), src, rx);
            p.outcome == Pass && RegisteredMailSheet(p.table, src)
  {
    var rs, columns := RegisteredMail, RegisteredMailColumns;
    SchemasDistinct();
    RegisteredMailFits(src);
    MappingProjects(rs, columns, src, rx);
    var t := Run(rs, Empty(columns), src, rx).table;
    RegisteredMailLayout();
    PostalFieldsFrom(rs, columns, src, rx, t);
    ConstantTemplates();
    ConstantColumn(rs, columns, src, rx, t, "중량", "25");
    ConstantColumn(rs, columns, src, rx, t, "수수료*", "보통");
    ConstantColumn(rs, columns, src, rx, t, "환부*", "환부불능");
  }

  /** The columns of the layout the selective-registered-mail mapping leaves blank. */
  lemma SelectiveRegisteredMailBlanks()
    ensures Unwritten(SelectiveRegisteredMail, "상세주소") && Unwritten(SelectiveRegisteredMail, "휴대폰") && Unwritten(SelectiveRegisteredMail, "문서번호")
  {
  }

  lemma SelectiveRegisteredMailLayout()
    ensures |SelectiveRegisteredMail| == 8 && PostalLayout(SelectiveRegisteredMail)
    ensures Includes(SelectiveRegisteredMail, ColumnReplacer("수수료*", "보통"))
    ensures Includes(SelectiveRegisteredMail, ColumnReplacer("중량", "25"))
  {
    SelectiveRegisteredMailBlanks();
    assert SelectiveRegisteredMail[0] == ColumnReplacer("수수료*", "보통");
    assert SelectiveRegisteredMail[1] == ColumnReplacer("규격*", "규격");
    assert SelectiveRegisteredMail[2] == ColumnReplacer("중량", "25");
    assert SelectiveRegisteredMail[3] == ColumnReplacer("수취인*", Brace(Name));
    assert SelectiveRegisteredMail[4] == ColumnReplacer("우편번호*", Brace(Zip));
    assert SelectiveRegisteredMail[5] == ColumnReplacer("기본주소*", Brace(Address));
    assert SelectiveRegisteredMail[6] == ColumnReplacer("문서제목", Brace(Title));
    assert SelectiveRegisteredMail[7] == ColumnReplacer("비고", RemarkTemplate);
  }

  /** The selective-registered-mail sheet: the shared postal columns, weight
      25 grams and ordinary fee. */
  predicate SelectiveRegisteredMailSheet(t: Table, src: Table)
    requires HasSourceColumns(src)
  {
    t.columns == SelectiveRegisteredMailColumns && PostalFields(t, src)
    && "수수료*" in t.cells && t.cells["수수료*"] == Repeat("보통", src.rows)
    && "중량" in t.cells && t.cells["중량"] == Repeat("25", src.rows)
  }

  /** The selective-registered-mail mapping, run on its empty layout, never
      raises and yields the selective-registered-mail sheet. */
  lemma SelectiveRegisteredMailOutput(src: Table, rx: RegexSub)
    requires HasSourceColumns(src)
    ensures var p := Run(SelectiveRegisteredMail, Empty(SelectiveRegisteredMailColumns), src, rx);
            p.outcome == Pass && SelectiveRegisteredMailSheet(p.table, src)
  {
    var rs, columns := SelectiveRegisteredMail, SelectiveRegisteredMailColumns;
    SchemasDistinct();
    SelectiveRegisteredMailFits(src);
    MappingProjects(rs, columns, src, rx);
    var t := Run(rs, Empty(columns), src, rx).table;
    SelectiveRegisteredMailLayout();
    PostalFieldsFrom(rs, columns, src, rx, t);
    ConstantTemplates();
    ConstantColumn(rs, columns, src, rx, t, "수수료*", "보통");
    ConstantColumn(rs, columns, src, rx, t, "중량", "25");
  }

  lemma EnvelopeLayout()
    ensures |Envelope| == 5
    ensures Includes(Envelope, ColumnReplacer(Title, Brace(Title)))
    ensures Includes(Envelope, ColumnReplacer(Zip, Brace(Zip)))
    ensures Includes(Envelope, ColumnReplacer(Address, Brace(Address)))
    ensures Includes(Envelope, ColumnReplacer(Name, Brace(Name)))
    ensures Includes(Envelope, ColumnReplacer(Remark, RemarkTemplate))
    ensures Active(Envelope) && Unwritten(Envelope, Vehicle)
  {
    assert Envelope[0] == ColumnReplacer(Title, Brace(Title));
    assert Envelope[1] == ColumnReplacer(Zip, Brace(Zip));
    assert Envelope[2] == ColumnReplacer(Address, Brace(Address));
    assert Envelope[3] == ColumnReplacer(Name, Brace(Name));
    assert Envelope[4] == ColumnReplacer(Remark, RemarkTemplate);
  }

  /** The envelope table: title, zip code, address and name copied, the
      remark composed as on the Postmoa sheets, the vehicle number blank. */
  predicate EnvelopeSheet(t: Table, src: Table)
    requires HasSourceColumns(src)
  {
    t.Valid() && t.columns == EnvelopeColumns && t.rows == src.rows
    && Title in t.cells && t.cells[Title] == src.cells[Title]
    && Zip in t.cells && t.cells[Zip] == src.cells[Zip]
    && Address in t.cells && t.cells[Address] == src.cells[Address]
    && Name in t.cells && t.cells[Name] == src.cells[Name]
    && Remark in t.cells
    && (forall i :: 0 <= i < src.rows ==>
          t.cells[Remark][i] == RemarkText(src.cells[Vehicle][i], src.cells[Remark][i]))
    && (forall i :: 0 <= i < src.rows && NoOpenBrace(src.cells[Vehicle][i]) ==>
          t.cells[Remark][i] == src.cells[Vehicle][i] + ", " + src.cells[Remark][i] + "까지")
    && Vehicle in t.cells && t.cells[Vehicle] == Blanks(src.rows)
  }

  /** The envelope mapping, run on an empty copy of the record layout, never
      raises and yields the envelope table. */
  lemma EnvelopeOutput(src: Table, rx: RegexSub)
    requires HasSourceColumns(src)
    ensures var p := Run(Envelope, Empty(EnvelopeColumns), src, rx);
            p.outcome == Pass && EnvelopeSheet(p.table, src)
  {
    var rs, columns := Envelope, EnvelopeColumns;
    SchemasDistinct();
    EnvelopeFits(src);
    MappingProjects(rs, columns, src, rx);
    var t := Run(rs, Empty(columns), src, rx).table;
    EnvelopeLayout();
    CopiedColumn(rs, columns, src, rx, t, Title, Title);
    CopiedColumn(rs, columns, src, rx, t, Zip, Zip);
    CopiedColumn(rs, columns, src, rx, t, Address, Address);
    CopiedColumn(rs, columns, src, rx, t, Name, Name);
    RemarkColumn(rs, columns, src, rx, t, Remark);
    BlankColumn(rs, columns, src, rx, t, Vehicle);
  }
}
