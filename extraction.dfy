/** What becomes of one PDF notice: each field is the first group of a
    regular-expression search over the notice's text, normalised, and the six
    fields are appended as one row of the on-screen record table. The search
    itself is not modelled: its result is an optional string. */
module Extraction {
  import opened Wrappers
  import opened Text
  import opened Tables
  import opened Mappings

  /** The tail of `extract_pattern_from_pdf`: no match gives `''`; a match
      is stripped and then loses every newline. */
  function Normalise(m: Option<string>): (r: string)
    ensures m.None? ==> r == ""
    ensures '\n' !in r
    ensures Unpadded(r)
  {
    match m
    case None => ""
    case Some(s) =>
      var t := Strip(s);
      var r := RemoveChar(t, '\n');
      assert Unpadded(r) by {
        if r != [] {
          RemoveCharKeepsEnds(t, '\n');
        }
      }
      r
  }

  /** A match is cut down to the slice `strip` keeps, with only its newlines
      deleted. */
  lemma NormaliseMatch(s: string)
    ensures var i, t := |s| - |StripLeft(s)|, Strip(s);
            Normalise(Some(s)) == RemoveChar(s[i..i + |t|], '\n')
            && AllSpace(s[..i]) && AllSpace(s[i + |t|..])
  {
    StripSlice(s);
  }

  /** Normalising a normalised field changes nothing. */
  lemma NormaliseIdempotent(m: Option<string>)
    ensures Normalise(Some(Normalise(m))) == Normalise(m)
  {
    var r := Normalise(m);
    StripUnpadded(r);
    RemoveCharAbsent(r, '\n');
  }

  /** A field that is already clean passes through unchanged. */
  lemma NormaliseClean(s: string)
    requires Unpadded(s) && '\n' !in s
    ensures Normalise(Some(s)) == s
  {
    StripUnpadded(s);
    RemoveCharAbsent(s, '\n');
  }

  /** One notice, read field by field. */
  datatype Record = Record(name: string, zipcode: string, address: string,
                           title: string, vehicle: string, due: string)

  /** The six searches' results, normalised: name, zip code, address,
      title, vehicle number, due date. Every cell of the row it gives is
      clean, and a search without a match leaves its cell empty. */
  function RecordOf(name: Option<string>, zipcode: Option<string>, address: Option<string>,
                    title: Option<string>, vehicle: Option<string>, due: Option<string>): (rec: Record)
    ensures |RecordRow(rec)| == |SourceColumns|
    ensures forall k :: 0 <= k < |RecordRow(rec)| ==> Clean(RecordRow(rec)[k])
    ensures name.None? ==> rec.name == ""
    ensures zipcode.None? ==> rec.zipcode == ""
    ensures address.None? ==> rec.address == ""
    ensures title.None? ==> rec.title == ""
    ensures vehicle.None? ==> rec.vehicle == ""
    ensures due.None? ==> rec.due == ""
  {
    Record(Normalise(name), Normalise(zipcode), Normalise(address),
           Normalise(title), Normalise(vehicle), Normalise(due))
  }

  /** A cell as normalisation leaves it: no newline, no edge whitespace. */
  predicate Clean(s: string)
  {
    '\n' !in s && Unpadded(s)
  }

  /** Matches that are already clean are recorded as they are. */
  lemma RecordOfClean(name: string, zipcode: string, address: string,
                      title: string, vehicle: string, due: string)
    requires Clean(name) && Clean(zipcode) && Clean(address)
    requires Clean(title) && Clean(vehicle) && Clean(due)
    ensures RecordOf(Some(name), Some(zipcode), Some(address), Some(title), Some(vehicle), Some(due))
            == Record(name, zipcode, address, title, vehicle, due)
  {
    NormaliseClean(name);
    NormaliseClean(zipcode);
    NormaliseClean(address);
    NormaliseClean(title);
    NormaliseClean(vehicle);
    NormaliseClean(due);
  }

  /** Extracting again from the cells of an extracted record changes
      nothing. */
  lemma RecordOfIdempotent(name: Option<string>, zipcode: Option<string>, address: Option<string>,
                           title: Option<string>, vehicle: Option<string>, due: Option<string>)
    ensures var rec := RecordOf(name, zipcode, address, title, vehicle, due);
            RecordOf(Some(rec.name), Some(rec.zipcode), Some(rec.address),
                     Some(rec.title), Some(rec.vehicle), Some(rec.due)) == rec
  {
    var rec := RecordOf(name, zipcode, address, title, vehicle, due);
    var row := RecordRow(rec);
    assert Clean(row[0]) && Clean(row[1]) && Clean(row[2]);
    assert Clean(row[3]) && Clean(row[4]) && Clean(row[5]);
    RecordOfClean(rec.name, rec.zipcode, rec.address, rec.title, rec.vehicle, rec.due);
  }

  /** The row `[name, zipcode, address, title, bike_number, due_date]`, one
      cell per column of the record layout, in its order. */
  function RecordRow(rec: Record): (row: seq<string>)
    ensures |row| == |SourceColumns|
  {
    [rec.name, rec.zipcode, rec.address, rec.title, rec.vehicle, rec.due]
  }

  /** A table with the record layout. */
  predicate RecordTable(t: Table)
  {
    t.Valid() && t.columns == SourceColumns
  }

  /** Appending a record to a table with the record layout succeeds, adds
      exactly one row at the end, puts each field under its column, the due
      date under `비고`, and leaves the earlier rows as they were. */
  lemma RecordAppended(t: Table, rec: Record)
    requires RecordTable(t)
    ensures var r := AddRow(t, RecordRow(rec));
            r.Ok? && RecordTable(r.value) && r.value.rows == t.rows + 1
            && (forall c :: c in SourceColumns ==> c in r.value.cells)
            && r.value.cells[Name] == t.cells[Name] + [rec.name]
            && r.value.cells[Zip] == t.cells[Zip] + [rec.zipcode]
            && r.value.cells[Address] == t.cells[Address] + [rec.address]
            && r.value.cells[Title] == t.cells[Title] + [rec.title]
            && r.value.cells[Vehicle] == t.cells[Vehicle] + [rec.vehicle]
            && r.value.cells[Remark] == t.cells[Remark] + [rec.due]
  {
    AppendSix(t, RecordRow(rec));
    assert t.columns[0] == Name && t.columns[1] == Zip && t.columns[2] == Address;
    assert t.columns[3] == Title && t.columns[4] == Vehicle && t.columns[5] == Remark;
  }

  lemma AppendSix(t: Table, values: seq<string>)
    requires t.Valid() && |t.columns| == 6 && |values| == 6
    ensures var r := AddRow(t, values);
            r.Ok? && r.value.columns == t.columns && r.value.rows == t.rows + 1
            && r.value.cells[t.columns[0]] == t.cells[t.columns[0]] + [values[0]]
            && r.value.cells[t.columns[1]] == t.cells[t.columns[1]] + [values[1]]
            && r.value.cells[t.columns[2]] == t.cells[t.columns[2]] + [values[2]]
            && r.value.cells[t.columns[3]] == t.cells[t.columns[3]] + [values[3]]
            && r.value.cells[t.columns[4]] == t.cells[t.columns[4]] + [values[4]]
            && r.value.cells[t.columns[5]] == t.cells[t.columns[5]] + [values[5]]
  {
  }

  /** `self.data.loc[len(self.data)] = [name, zipcode, address, title,
      bike_number, due_date]`: the notice becomes the last row of the
      on-screen table. */
  method AddRecord(data: Frame, rec: Record) returns (outcome: Outcome<Error>)
    requires data.Valid() && data.columns == SourceColumns
    modifies data
    ensures data.Valid() && data.columns == SourceColumns
    ensures outcome == Pass
    ensures data.Value() == AddRow(old(data.Value()), RecordRow(rec)).value
  {
    RecordAppended(data.Value(), rec);
    outcome := data.AppendRow(RecordRow(rec));
  }
}
