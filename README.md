# file-to-postmoa: the templating core, modelled in Dafny

file-to-postmoa reads Korean administrative notices from PDF files into an
on-screen record table (name, zip code, address, title, vehicle number, due
date). From that table it writes three bulk-mail spreadsheets for the Postmoa
service (normal, registered and selective registered mail) and an address
sheet for windowed envelopes.

Each output column is filled by a *column replacer*. A replacer names a
target column and holds a template such as `{차량번호}, {비고}까지`. For
every source row it substitutes each `{column}` placeholder with that row's
cell. It then assigns the rendered list to the target column.

This project models:
- the replacer and the loop that applies a mapping;
- the four fixed mappings and their empty layouts;
- the normalisation of an extracted field;
- the append of a record to the on-screen table;
- the paragraph-preserving body wrapper.

It proves that each mapping produces the sheet it is meant to.

Modules:

- `Wrappers` (`wrappers.dfy`): `Option`, `Result` and `Outcome`.
- `Text` (`text.dfy`):
  - the `{(\w+)}` placeholder scan;
  - literal `re.sub`;
  - `str.strip`, `str.replace(c, '')` and `str.split`.
- `Tables` (`tables.dfy`):
  - the DataFrame operations used here, as values (`Table`): the empty
    layout, column assignment with pandas' length rules, and row append;
  - as the mutable object `Frame`.
- `Replacers` (`replacers.dfy`):
  - the `ColumnReplacer` datatype;
  - its specification functions `Render` and `Apply`, and the in-place
    method `Replace`;
  - the mapping loop `ApplyMapping` against its specification `Run`;
  - the general results about fresh targets: `RunProjects` and the
    no-op property.
- `Mappings` (`mappings.dfy`): the schemas, the four mapping tables, and
  the per-sheet results.
- `Extraction` (`extraction.dfy`): field normalisation, the `Record` and
  its row, and `AddRecord`.
- `BodyWrapping` (`body_wrapper.dfy`): `BodyWrapper.wrap` as the method
  `Wrap`, against the function `Wrapped`.

The standard one-paragraph wrapper (`TextWrapper.wrap`) and the optional
extra-pattern `re.sub` are full regular-expression and text-layout engines.
Both are function-typed parameters (`BaseWrap`, `RegexSub`). Most properties
hold for every choice of them. The exceptions name their premise:
- `WrapUnbroken` assumes the wrapper keeps each non-empty line of that text
  whole;
- `WrapNoNewline` assumes it adds no newline to a newline-free paragraph;
- `RenderField`, `RenderRemark`, `RemarkColumn` and the per-sheet results
  apply to replacers without an extra pattern, which is every replacer of
  the four mappings.

The constants of `mappings.dfy` are the program's tables, value for value:
- the empty layouts `SourceColumns` (main_window.py:45-46),
  `NormalMailColumns` (main_window.py:37-38), `RegisteredMailColumns`
  (main_window.py:39-40), `SelectiveRegisteredMailColumns`
  (main_window.py:41-42) and `EnvelopeColumns`, a fresh copy of the
  record layout (main_window.py:382-384);
- the mappings `NormalMail` (main_window.py:113-122), `RegisteredMail`
  (main_window.py:123-133), `SelectiveRegisteredMail`
  (main_window.py:134-143) and `Envelope` (main_window.py:145-151);
- the remark template `RemarkTemplate` (main_window.py:118).

What each constant holds is stated by the `…Layout`, `…Fits` and
`SchemasDistinct` lemmas below.

## Model

| member | source | states |
|---|---|---|
| Text.Placeholders | main_window.py:88-89 | every name the `{(\w+)}` scan reports is a non-empty run of word characters |
| Text.PlaceholdersOccur | main_window.py:88-89 | every reported name stands as `{name}` somewhere in the template |
| Text.PlaceholdersLeading | main_window.py:88-89 | a template that opens with `{w}` reports `w` first, then the names of the rest |
| Text.PlaceholdersSkip | main_window.py:88-89 | text without `{` contributes no name, so the names are those of what follows |
| Text.PlaceholdersNone | main_window.py:88-89 | a template without `{` has no placeholder, so no lookup is made |
| Text.ReplaceAbsent | main_window.py:101-103 | substituting a placeholder that does not occur leaves the entry unchanged |
| Text.ReplaceSelf | main_window.py:101 | substituting a placeholder by itself leaves the entry unchanged |
| Text.ReplaceLeading | main_window.py:101-103 | an occurrence at the front is replaced and the scan resumes right after it |
| Text.ReplaceSkip | main_window.py:101-103 | text free of the pattern's first character is copied through unchanged |
| Text.ReplaceAll | main_window.py:101-103 | every occurrence of the placeholder, scanned left to right, becomes the value; a value no longer than the placeholder never lengthens the entry, and an empty value only deletes characters |
| Text.Strip | main_window.py:174 | `strip` never lengthens, and its result has no whitespace at either end |
| Text.StripLeftSlice | main_window.py:174 | `lstrip` drops a whitespace prefix and keeps the rest, which does not start with whitespace |
| Text.StripRightSlice | main_window.py:174 | `rstrip` drops a whitespace suffix and keeps the rest, which does not end with whitespace |
| Text.StripSlice | main_window.py:174 | `strip` keeps one contiguous slice of the input, and everything cut on both sides is whitespace |
| Text.StripUnpadded | main_window.py:174 | stripping text that has no edge whitespace is the identity |
| Text.RemoveChar | main_window.py:174 | `replace('\n', '')` never lengthens, and no newline survives |
| Text.RemoveCharConcat | main_window.py:174 | removal distributes over concatenation |
| Text.RemoveCharAbsent | main_window.py:174 | removal from text without the character is the identity |
| Text.RemoveCharKeepsEnds | main_window.py:174 | the first and last characters survive when they are not the removed one |
| Text.Split | main_window.py:52 | `split('\n')` gives at least one paragraph |
| Text.SplitPiecesFree | main_window.py:52 | no paragraph of `split('\n')` holds a newline |
| Text.JoinSplit | main_window.py:52 | joining the paragraphs with `'\n'` gives the text back |
| Text.SplitConcat | main_window.py:52 | splitting `a + '\n' + b` is splitting `a` and `b` and concatenating the results |
| Tables.Empty | main_window.py:37-46 | an empty layout is a valid table with exactly the schema's columns, no row and empty cells |
| Tables.ColumnsWith | main_window.py:109 | assigning a column keeps the labels distinct and adds only the assigned label, and only when it is new |
| Tables.ColumnsWithOrder | main_window.py:109 | the existing labels keep their places, and a new label goes after all of them |
| Tables.AssignColumn | main_window.py:109 | `df[name] = values` succeeds iff the length matches or the frame has no row, and otherwise raises the length mismatch; on success the column is the values and the other columns are unchanged, or blank when a row-less frame grows |
| Tables.AddRow | main_window.py:351 | `df.loc[len(df)] = values` succeeds iff the width matches; on success there is one more row and each column ends with its value |
| Tables.AppendRowKeepsRows | main_window.py:351 | appending a row leaves every earlier row as it was |
| Tables.Frame.SetColumn | main_window.py:109 | the frame's new value and the outcome are the column assignment's, and a failed assignment leaves the frame as it was |
| Tables.Frame.AppendRow | main_window.py:351 | the frame's new value and the outcome are the row append's, and a failed append leaves the frame as it was |
| Tables.Frame.constructor | main_window.py:374-384 | `EMPTY_DATAFRAME.copy(deep=True)` is a fresh frame holding the empty layout |
| Replacers.FirstMissing | main_window.py:96-98 | the placeholders before the first missing source column are all present, so that is where `KeyError` is raised |
| Replacers.ColumnReplacer.Step | main_window.py:101-107 | definition of one substitution step on one entry (the placeholder, then the extra pattern when set); its effect is stated by `FillStep`, `RenderField` and `RenderRemark` |
| Replacers.ColumnReplacer.Fill | main_window.py:96-107 | definition of row `i`'s entry after the given placeholders, in order; its effect is stated by `FillStep` and `Render` |
| Replacers.ColumnReplacer.Entry | main_window.py:99-107 | definition of row `i`'s finished entry; `Render` states that the rendered list is these entries |
| Replacers.ColumnReplacer.FillStep | main_window.py:96-107 | processing one more placeholder is one more substitution step on every entry, followed by the extra pattern when one is set |
| Replacers.ColumnReplacer.Render | main_window.py:87-107 | the rendering fails iff some placeholder names a column the source lacks, with `KeyError` for that column; otherwise it has one entry per source row, each the template filled from that row |
| Replacers.ColumnReplacer.Apply | main_window.py:87-109 | an empty template leaves the target unchanged; otherwise it succeeds iff the lookups succeed and the lengths fit; on success the target column is the rendered list, the target has the source's row count, and every other column is unchanged or blank |
| Replacers.ColumnReplacer.StepRows | main_window.py:98-107 | each entry of the list becomes one substitution step (then the extra pattern) applied to it, with its own row's value |
| Replacers.ColumnReplacer.RenderRows | main_window.py:88-107 | the in-place rendering loop returns exactly `Render`: the `KeyError` of the first placeholder the source lacks, or one filled entry per source row |
| Replacers.ColumnReplacer.Replace | main_window.py:77-109 | the replacer leaves the target exactly as `Apply` specifies and raises exactly when `Apply` fails; a failure leaves the target untouched |
| Replacers.Run | main_window.py:390-392 | running a mapping always leaves a valid target |
| Replacers.RunStops | main_window.py:390-392 | once a replacer has raised, the rest of the mapping changes nothing |
| Replacers.RunPrefix | main_window.py:390-392 | running one more replacer after a clean prefix applies that replacer to the prefix's result |
| Replacers.ApplyMapping | main_window.py:390-392 | the loop leaves the target and the outcome exactly as `Run` specifies; this also covers the envelope loop at main_window.py:519-521 |
| Replacers.RenderConstant | main_window.py:92-95 | a template without placeholders is copied verbatim into every row, and the extra pattern never touches it |
| Replacers.RenderField | main_window.py:96-103 | a template `{name}` copies the source column `name` unchanged, empty cells included |
| Replacers.ProjectStep | main_window.py:390-392 | a replacer with a template that writes a fresh column of the layout keeps the projection invariant |
| Replacers.ProjectSkip | main_window.py:391 | a replacer with an empty template keeps the projection invariant |
| Replacers.RunProjects | main_window.py:390-392 | a fitting mapping on a row-less target never raises; it keeps the layout, gives it the source's rows, fills each written column with what its replacer renders, and leaves every other column blank |
| Replacers.EmptyTemplateIsNoOp | main_window.py:87 | a replacer with an empty template is a no-op wherever it stands in a mapping |
| Mappings.FieldPlaceholder | main_window.py:113-151 | a field template `{name}` has exactly the placeholder `name` |
| Mappings.SourceColumnsAreWords | main_window.py:45-46 | every record column label is a `\w+` word, so a `{label}` template is recognised |
| Mappings.RemarkPlaceholders | main_window.py:118 | the remark template reads the vehicle number, then the remark column |
| Mappings.ConstantTemplates | main_window.py:119-121 | the constant templates `규격`, `1`, `25`, `보통` and `환부불능` have no placeholder |
| Mappings.TemplatePlaceholders | main_window.py:113-151 | every placeholder of every template in the four mappings is a column of the record table |
| Mappings.SchemasDistinct | main_window.py:37-46 | the four layouts have distinct column labels |
| Mappings.NormalMailFits | main_window.py:113-122 | the normal-mail mapping writes only its layout's columns, writes none twice, and reads only record columns |
| Mappings.RegisteredMailFits | main_window.py:123-133 | likewise for the registered-mail mapping and layout |
| Mappings.SelectiveRegisteredMailFits | main_window.py:134-143 | likewise for the selective-registered-mail mapping and layout |
| Mappings.EnvelopeFits | main_window.py:145-151 | likewise for the envelope mapping on the record layout |
| Mappings.RemarkTailFree | main_window.py:118 | `{차량번호}` does not occur again after its position in the remark template |
| Mappings.RemarkText | main_window.py:101-103 | definition of the filled remark template for one vehicle number and due date: `{차량번호}` substituted, then `{비고}`; `RemarkEntry` states its closed form |
| Mappings.RemarkEntry | main_window.py:101-103 | filling the remark template gives `<vehicle>, <due>까지` when the vehicle value holds no `{` |
| Mappings.RenderRemark | main_window.py:118 | every row of the remark column is the remark template filled from that row, and reads as the row's vehicle number, `, `, due date and `까지` when the vehicle number holds no `{` (every extracted vehicle number is made of word characters, main_window.py:157) |
| Mappings.MappingProjects | main_window.py:386-392 | a fitting mapping on an empty layout never raises and leaves the layout projected |
| Mappings.CopiedColumn | main_window.py:114-117 | a column the mapping fills from `{name}` equals the record column `name` |
| Mappings.RemarkColumn | main_window.py:118 | the column the mapping fills from the remark template is the filled template in every row, in closed form for vehicle numbers without `{` |
| Mappings.ConstantColumn | main_window.py:119-121 | a column the mapping fills from a constant holds that constant in every row |
| Mappings.BlankColumn | main_window.py:37-42 | a layout column no replacer writes is blank in every row |
| Mappings.PostalFieldsFrom | main_window.py:113-143 | a mapping with the shared postal replacers yields the shared postal columns: recipient, zip code, address, title, remark and size, with the detail address, mobile phone and document number blank; every remark is the filled template, in closed form for vehicle numbers without `{` |
| Mappings.NormalMailLayout | main_window.py:113-122 | the normal-mail mapping has eight replacers: the shared postal replacers plus piece count `1` and weight `25` |
| Mappings.RegisteredMailLayout | main_window.py:123-133 | the registered-mail mapping has nine replacers: the shared postal replacers plus weight `25`, fee `보통` and no-return `환부불능` |
| Mappings.SelectiveRegisteredMailLayout | main_window.py:134-143 | the selective-registered-mail mapping has eight replacers: the shared postal replacers plus fee `보통` and weight `25` |
| Mappings.EnvelopeLayout | main_window.py:145-151 | the envelope mapping has five replacers; it copies title, zip code, address and name, composes the remark, and never writes the vehicle number |
| Mappings.NormalMailOutput | main_window.py:374-375 | from any record table, the normal-mail run never raises and yields the normal-mail sheet |
| Mappings.RegisteredMailOutput | main_window.py:376-377 | from any record table, the registered-mail run never raises and yields the registered-mail sheet |
| Mappings.SelectiveRegisteredMailOutput | main_window.py:378-380 | from any record table, the selective-registered-mail run never raises and yields its sheet |
| Mappings.EnvelopeOutput | main_window.py:517-521 | from any record table, the envelope run never raises: name, zip code, address and title are copied, the remark is the filled template in every row (in closed form for vehicle numbers without `{`), and the vehicle number is blank |
| Extraction.Normalise | main_window.py:169-175 | no match gives `''`; the result never holds a newline and has no whitespace at either end |
| Extraction.NormaliseMatch | main_window.py:174 | a match is reduced to the slice `strip` keeps, losing only its newlines, and what is cut off on both sides is whitespace |
| Extraction.NormaliseIdempotent | main_window.py:174 | normalising a normalised field changes nothing |
| Extraction.NormaliseClean | main_window.py:174 | a field without edge whitespace or newline passes through unchanged |
| Extraction.RecordOf | main_window.py:343-348 | every cell of the record's row is clean (no newline, no edge whitespace), and a search without a match leaves its field empty |
| Extraction.RecordOfClean | main_window.py:343-348 | matches that are already clean are recorded exactly as found |
| Extraction.RecordOfIdempotent | main_window.py:343-348 | extracting again from an extracted record's fields gives the same record |
| Extraction.RecordRow | main_window.py:351 | the appended row has one cell per column of the record layout |
| Extraction.RecordAppended | main_window.py:351 | appending a record to the record table succeeds and adds exactly one row; the fields fall under name, zip code, address, title, vehicle number and remark, in that order, and no earlier row changes |
| Extraction.AddRecord | main_window.py:351 | the on-screen table becomes that append, which never fails |
| BodyWrapping.Piece | main_window.py:55-58 | definition of one paragraph's lines: a blank line when empty, the standard wrapping otherwise; `Wrap`, `WrapEmpty` and `WrapSingle` state its use |
| BodyWrapping.WrapAll | main_window.py:54-58 | definition of the lines of a run of paragraphs, one after another; `WrapAllConcat` states how it composes |
| BodyWrapping.Wrapped | main_window.py:51-60 | definition of `BodyWrapper.wrap`'s result; `Wrap` is proved to return it, and the lemmas below state its properties |
| BodyWrapping.Wrap | main_window.py:51-60 | the loop returns exactly `Wrapped(text)`: each paragraph's lines in order, with one blank line for each empty paragraph |
| BodyWrapping.WrapAllConcat | main_window.py:54-58 | the lines of two runs of paragraphs are the lines of each, concatenated |
| BodyWrapping.WrapEmpty | main_window.py:52-58 | an empty body gives exactly one blank line |
| BodyWrapping.WrapSingle | main_window.py:52-58 | a body without a newline gives what its one paragraph gives |
| BodyWrapping.WrapLines | main_window.py:52-58 | `a + '\n' + b` wraps as `a` followed by `b`, so each line is wrapped on its own |
| BodyWrapping.WrapUnbroken | main_window.py:51-60 | when the standard wrapper keeps each non-empty line of this text whole, the output is the text's lines, and joining them with newlines gives the text back |
| BodyWrapping.WrapAllUnbroken | main_window.py:54-58 | when the standard wrapper keeps each non-empty paragraph of the run whole, the paragraphs come back unchanged |
| BodyWrapping.WrapNoNewline | main_window.py:51-60 | no output line holds a newline, provided the standard wrapper adds none to a newline-free paragraph |
| BodyWrapping.WrapAllNoNewline | main_window.py:54-58 | the same, for any run of newline-free paragraphs |

## Left out

- The Qt window, dialogs, table view and message boxes: user interface, not logic.
- PDF text extraction (main_window.py:161-167), the six field expressions (main_window.py:153-158) and the search with its `AttributeError` fallback (main_window.py:169-172): a search result enters the model as an `Option<string>`.
- Writing files (`to_excel`, the Excel COM conversion to `.xls`, reportlab drawing), dates and timestamps in file names: I/O and the clock.
- The `any(self.data)` guard of the save paths: it tests column labels, which the record table always has, so the model always runs the mapping loop.
- `ColumnReplacer.__iter__`: no part of the modelled behaviour uses it.
- The standard `TextWrapper.wrap` and the extra-pattern `re.sub`: these are uninterpreted parameters; the model does not say how a paragraph is broken or what the pattern rewrites.
- Cells that are not strings (NaN, numbers): every cell is a string, and the NaN pandas puts in the columns a growing assignment does not cover is the empty string (`Blanks`), as `to_excel` writes it.
- `re.sub` replacement escapes: cell values are substituted literally, which matches Python when they hold no backslash.
- Text.IsWordChar: `\w` covers ASCII letters, digits and `_`, Latin-1 letters, Hangul and CJK ideographs, not every Unicode letter and digit. It is exact for every template of the four mappings.
- Placeholders made only of digits (`{1}`): Python's `re` reads them as a repetition and raises. The model substitutes them literally. No template of the program has one.
- Replacers.ApplyMapping: requires the target frame and the record frame to be different objects, which the program guarantees by passing a fresh copy of a layout.
- Mappings.MappingProjects: a fitting mapping is one where no two replacers write the same column. This holds for all four tables; a mapping with repeats is not described by the projection.
