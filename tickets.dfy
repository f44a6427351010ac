/** The ticket table and the import pipeline that turns an uploaded table into it
    (mapper.py, lines 31-37). */
module Tickets {
  import opened Wrappers

  /** The two values the page ever writes into the `status` column. */
  datatype Status = Pending | Completed

  /** One row of the stored table: the columns Ticket, lat, lon, Notes and status.
      `id` is the Ticket cell as text, the form in which every comparison uses it. */
  datatype Ticket = Ticket(id: string, lat: real, lon: real, notes: string, status: Status)

  /** One row of an uploaded table, read by position. `id` is column 0 as text;
      `lat` and `lon` are columns 1 and 2 after numeric coercion (None where the
      cell is empty or does not coerce to a number); `note` is column 3 (None
      where the cell is empty or the column does not exist). */
  datatype UploadRow = UploadRow(id: string, lat: Option<real>, lon: Option<real>, note: Option<string>)

  /** An uploaded table: its number of columns and its rows. */
  datatype Upload = Upload(columns: nat, rows: seq<UploadRow>)

  /** Renaming the first three columns fails on a table with fewer than three. */
  datatype ImportError = TooFewColumns

  /** The placeholder for a missing note. */
  const NoNotes: string := "No notes."

  /** A row survives the drop of rows with a missing coordinate. */
  predicate Coercible(r: UploadRow) {
    r.lat.Some? && r.lon.Some?
  }

  /** The Notes cell of a row: column 3 with missing cells filled, or the
      placeholder everywhere when the table has no column 3. */
  function NoteOf(r: UploadRow, hasNotes: bool): string {
    if hasNotes then r.note.GetOr(NoNotes) else NoNotes
  }

  /** The stored form of a surviving row. */
  function Normalised(r: UploadRow, hasNotes: bool): Ticket
    requires Coercible(r)
  {
    Ticket(r.id, r.lat.value, r.lon.value, NoteOf(r, hasNotes), Pending)
  }

  /** The table the pipeline produces from `rows`. */
  function Imported(rows: seq<UploadRow>, hasNotes: bool): (ts: seq<Ticket>)
    ensures |ts| <= |rows|
    ensures forall k :: 0 <= k < |ts| ==> ts[k].status == Pending
    ensures !hasNotes ==> forall k :: 0 <= k < |ts| ==> ts[k].notes == NoNotes
  {
    if rows == [] then []
    else
      var last := rows[|rows| - 1];
      Imported(rows[..|rows| - 1], hasNotes)
        + (if Coercible(last) then [Normalised(last, hasNotes)] else [])
  }

  /** The positions, in ascending order, of the rows that survive the import;
      an independent description of the selection `Imported` makes. */
  function Kept(rows: seq<UploadRow>): seq<nat>
  {
    if rows == [] then []
    else Kept(rows[..|rows| - 1]) + (if Coercible(rows[|rows| - 1]) then [|rows| - 1] else [])
  }

  /** The import keeps exactly the rows whose coordinates both coerce, in their
      original order, and stores each of them normalised. */
  lemma {:induction false} ImportKeepsExactlyCoercibleRows(rows: seq<UploadRow>, hasNotes: bool)
    ensures |Imported(rows, hasNotes)| == |Kept(rows)|
    ensures forall k :: 0 <= k < |Kept(rows)| ==>
              Kept(rows)[k] < |rows| && Coercible(rows[Kept(rows)[k]])
              && Imported(rows, hasNotes)[k] == Normalised(rows[Kept(rows)[k]], hasNotes)
    ensures forall k, l :: 0 <= k < l < |Kept(rows)| ==> Kept(rows)[k] < Kept(rows)[l]
    ensures forall i :: 0 <= i < |rows| && Coercible(rows[i]) ==> i in Kept(rows)
  {
    if rows != [] {
      var init := rows[..|rows| - 1];
      ImportKeepsExactlyCoercibleRows(init, hasNotes);
      forall i | 0 <= i < |init| ensures rows[i] == init[i] { }
    }
  }

  /** A row that comes out of the import carries its own coordinates and the
      note it brought, or the placeholder when it brought none. */
  lemma NotesOfImportedRows(rows: seq<UploadRow>, hasNotes: bool, k: nat)
    requires k < |Kept(rows)|
    ensures |Imported(rows, hasNotes)| == |Kept(rows)| && Kept(rows)[k] < |rows|
    ensures var r := rows[Kept(rows)[k]]; var t := Imported(rows, hasNotes)[k];
            t.id == r.id && Some(t.lat) == r.lat && Some(t.lon) == r.lon
            && t.notes == (if hasNotes && r.note.Some? then r.note.value else NoNotes)
  {
    ImportKeepsExactlyCoercibleRows(rows, hasNotes);
  }

  /** The import pipeline: rename columns 0-2, fill the Notes column, coerce the
      coordinates, drop rows missing one, and mark every survivor Pending. */
  method ImportTable(u: Upload) returns (r: Result<seq<Ticket>, ImportError>)
    ensures r.Failure? <==> u.columns < 3
    ensures r.Success? ==> r.value == Imported(u.rows, u.columns >= 4)
  {
    if u.columns < 3 {
      return Failure(TooFewColumns);
    }
    var hasNotes := u.columns >= 4;
    var table: seq<Ticket> := [];
    var i := 0;
    while i < |u.rows|
      invariant 0 <= i <= |u.rows|
      invariant table == Imported(u.rows[..i], hasNotes)
    {
      var row := u.rows[i];
      assert u.rows[..i + 1][..i] == u.rows[..i];
      if row.lat.Some? && row.lon.Some? {
        table := table + [Ticket(row.id, row.lat.value, row.lon.value, NoteOf(row, hasNotes), Pending)];
      }
      i := i + 1;
    }
    assert u.rows[..i] == u.rows;
    return Success(table);
  }
}
