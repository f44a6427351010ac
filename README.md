# Field-ticket mapper: session model

A Dafny model of the ticket-session logic inside the single Streamlit page
`mapper.py` (version 10.0) of a field-ticket mapping tool. A field worker uploads
a table of tickets (id, latitude, longitude, optional notes). The page keeps the
imported table for the session and mirrors it into a log file. It draws one
marker per ticket, coloured by selection and status. The worker selects a ticket
from a dropdown or by clicking its marker, and can mark the selected ticket
complete. A reset button deletes the log and clears the session.

Modules:

- `Wrappers` (`wrappers.dfy`): `Option` and `Result`.
- `Tickets` (`tickets.dfy`): the table, and the import pipeline. Column 0 becomes
  the id and columns 1-2 the coordinates. Column 3, if present, becomes the
  notes, with missing cells filled with `"No notes."`. Rows without both
  coordinates are dropped, and every survivor is `Pending`. `ImportTable` is the
  pipeline as a loop. It is proved equal to the specification `Imported`, and
  the lemmas about `Imported` state what is kept, in what order and with what
  fields.
- `Labels` (`labels.dfy`): the popup label `"ID:<id>"` and its decoding. Python's
  `str.split` is modelled on one separator, with its join round trip.
- `Markers` (`markers.dfy`): the marker colour.
- `Selection` (`selection.dfy`): the dropdown entries, the first-match lookup
  and the details block.
- `Store` (`store.dfy`): "Mark as complete" as a function on the table, with
  its pointwise effect, idempotence and its effect on the markers.
- `Page` (`page.dfy`): class `Session`, holding the session's table
  (`store`), the selection (`selectedId`) and the log file (`savedLog`). Its
  methods are the page's events. `Valid()` states that the log always equals
  a held table, and that nothing is selected before a table is held.

The model follows what `mapper.py` does, in particular:

- a click always selects; there is no toggle-off;
- a status is only `Pending` or `Completed`; there is no "Inaccessible" status
  and no block transition;
- the selection colour wins over the status colour;
- an import in which no row survives is accepted rather than reported;
- marking complete keeps the selection;
- a popup without a colon raises an error rather than being ignored.

Coordinates are `real` values that have already been through numeric coercion:
`None` means the cell did not coerce. Ticket ids are the text form of column 0,
which is the form every comparison in `mapper.py` uses.

## Model

| member | source | states |
|---|---|---|
| `Tickets.ImportTable` | mapper.py:31-37 | Fails exactly when the table has fewer than three columns; otherwise returns the table the import specification gives, with notes taken from column 3 exactly when a fourth column exists |
| `Tickets.Imported` | mapper.py:33-37 | The imported table is no longer than the upload; every row is `Pending`; without a column 3 every note is `"No notes."` |
| `Tickets.ImportKeepsExactlyCoercibleRows` | mapper.py:34-36 | The import keeps exactly the rows whose two coordinates both coerce, in their original order: the k-th stored ticket is the normalised k-th surviving row, surviving positions ascend, and every coercible row survives |
| `Tickets.NotesOfImportedRows` | mapper.py:33-37 | A stored ticket keeps its row's id and coordinates; its note is column 3's cell when that column exists and the cell is present, otherwise `"No notes."` |
| `Labels.Split` | mapper.py:65 | Python `split` on one separator yields at least one piece and no piece contains the separator |
| `Labels.JoinSplit` | mapper.py:65 | Joining the pieces of `split` with the separator gives back the original text |
| `Labels.SplitIsSingleIff` | mapper.py:65 | `split` yields a single piece exactly when the text has no separator |
| `Labels.SplitAtFirst` | mapper.py:65 | The first piece of `p + sep + q`, for `p` free of the separator, is `p`, and the rest is the split of `q` |
| `Labels.EncodeLabel` | mapper.py:59 | The popup of ticket `id` is `ID:` followed by `id` unchanged, so it always holds a colon |
| `Labels.DecodeLabel` | mapper.py:65 | `popup.split(":")[1]` fails (IndexError) exactly when the popup has no colon; a decoded id never contains a colon |
| `Labels.DecodeEncodeAsWritten` | mapper.py:59-65 | Decoding the label `"ID:" + id` returns `id` exactly when `id` has no colon; otherwise it returns the prefix of `id` before its first colon |
| `Labels.ColonIdIsTruncated` | mapper.py:59-65 | The label of ticket `A:1` decodes to `A` |
| `Labels.DecodeLabelFixed` | mapper.py:65 | The intended decoding, the text after the first colon, fails exactly when the popup has no colon |
| `Labels.DecodeEncodeFixed` | mapper.py:59-65 | The intended decoding recovers every id from its label |
| `Markers.MarkerColourAsWritten` | mapper.py:57-58 | As written: orange exactly when the printed selection (`None` when absent) equals the id, whatever the status; otherwise green exactly when `Completed`, blue exactly when `Pending` |
| `Markers.NoneTicketHighlighted` | mapper.py:57-58 | As written, with nothing selected, a ticket whose id is the text `None` gets the orange marker |
| `Markers.MarkerColour` | mapper.py:57-58 | Orange exactly when the ticket is the selected one, whatever its status; otherwise green exactly when it is `Completed`, and blue exactly when it is `Pending` |
| `Markers.AsWrittenAgreesExceptForNone` | mapper.py:57-58 | The as-written colour and the intended one differ exactly for a ticket with id `None` while nothing is selected |
| `Selection.Ids` | mapper.py:47 | The ticket ids as text, one per row, in store order |
| `Selection.DropdownOptions` | mapper.py:47 | The dropdown entries are the sentinel followed by every ticket id in store order |
| `Selection.Picked` | mapper.py:50-51 | The sentinel entry leaves the selection as it was; any other entry becomes the selection |
| `Selection.FindFirst` | mapper.py:71 | Returns the position of a row with the id, with no earlier row having it; returns none exactly when no row has it |
| `Selection.SelectedDetails` | mapper.py:69-71 | No details for an absent or empty selection; the lookup fails (`.iloc[0]` on no rows) exactly when a non-empty selection matches no row; otherwise the first row with the selected id is shown |
| `Selection.PickedTicketIsFound` | mapper.py:47-51 | Choosing a real entry sets the selection to it, and the details lookup then finds a ticket (for a non-empty id) |
| `Selection.ClickOnColonIdFails` | mapper.py:59-71 | As written, clicking the marker of ticket `A:1` selects `A`, and the details lookup fails |
| `Selection.ClickShowsClickedTicket` | mapper.py:59-71 | With the intended decoding, clicking any ticket's marker selects its id and shows a ticket with that id |
| `Store.MarkCompleted` | mapper.py:84 | The update keeps the number of rows |
| `Store.MarkCompletedAt` | mapper.py:84 | Every row whose id matches becomes `Completed` with its other fields unchanged; every other row is unchanged |
| `Store.MarkCompletedIdempotent` | mapper.py:84 | Marking the same id complete twice gives the same table as marking it once |
| `Store.MarkCompletedKeepsOptions` | mapper.py:84 | Marking complete leaves the dropdown entries unchanged |
| `Store.CompletingSelectedKeepsColours` | mapper.py:84 | While the completed ticket stays selected, no marker changes colour |
| `Store.CompletedShowsGreenWhenNotSelected` | mapper.py:84 | Once the selection is elsewhere, a completed ticket's marker is green |
| `Page.ClickOutcomeOf` | mapper.py:64-65 | An empty popup is no click; a popup without a colon is malformed; otherwise the decoded id is selected |
| `Page.Session.constructor` | mapper.py:23-24 | A new session holds no table and no selection, and the log file is whatever exists on disk |
| `Page.Session.Restore` | mapper.py:23-26 | When no table is held and the log exists, the log becomes the session's table; nothing else changes |
| `Page.Session.Upload` | mapper.py:29-40 | Upload succeeds exactly with at least three columns; the held table and the log then both equal the import of the upload; on failure nothing changes |
| `Page.Session.Pick` | mapper.py:47-51 | The sentinel leaves the selection alone; any other entry becomes the selection; table and log unchanged |
| `Page.Session.Click` | mapper.py:64-65 | A decodable popup replaces the selection (no toggle-off); an empty or malformed popup leaves it; table and log unchanged |
| `Page.Session.Pass` | mapper.py:47-65 | In one pass the dropdown is applied before the click, so a decodable click wins |
| `Page.Session.MarkComplete` | mapper.py:83-85 | The held table becomes the mark-complete update for the selected id, the log is rewritten with it, and the selection stays |
| `Page.Session.Reset` | mapper.py:17-19 | The log is deleted and both the table and the selection are cleared |

## Left out

- Streamlit widgets, page layout, sidebar text and the `st.rerun`/`st.stop` control flow: user-interface plumbing. Only the order of the dropdown and the click within one pass is modelled (`Page.Session.Pass`).
- The folium map, `st_folium` and marker drawing (mapper.py:54-62): an external rendering library. Only the colour and the popup label are modelled.
- CSV reading and writing and `os.remove`: file I/O. The log file is an abstract snapshot (`savedLog`) that equals the table written to it, and restoring it reads it back unchanged. The CSV round trip through text (float formatting, type inference of the id column) is not modelled.
- Numeric coercion with `pd.to_numeric` and the text form of column 0 (`astype(str)`): library semantics. The upload arrives with coordinates already coerced to `Option<real>` and ids already as text.
- Columns beyond the first four, which the page carries along into the log: they play no part in any decision as long as their headers differ from `Ticket`, `lat` and `lon`.
- Header names of the uploaded table: `Tickets.Upload` carries no headers, so a table in which a later column is headed `Ticket`, `lat` or `lon` is imported by `Tickets.ImportTable`, where the page's positional rename (mapper.py:32) creates a duplicate column name. With a duplicate `lat` or `lon`, the coercion at mapper.py:34-35 raises and the upload fails; with a duplicate `Ticket`, the id comparisons at mapper.py:47, 71 and 84 act on two columns. The model does not capture either.
- The map centre from `mean()` (mapper.py:54) and the navigation link built from the coordinates (mapper.py:76): floating-point arithmetic and formatting.
- The photo uploader (mapper.py:80): a widget whose files the page never stores.
- Page.Session.Upload: requires that no table is held and no log exists, because the page offers the uploader only then (a log is restored first).
- Page.Session.MarkComplete: requires that the details of the selection are shown, because the button is drawn only inside that block.
- Page.Session.Click: uses the intended decoding from the findings below, not the as-written one. A malformed popup is reported as an outcome that changes nothing, where the page raises IndexError.

## Findings

| source | as written | input that shows it | evidently intended | confidence | as-written member | corrected member |
|---|---|---|---|---|---|---|
| mapper.py:65 | The id is taken as `popup.split(":")[1]`, the text between the first and second colon | A ticket with id `A:1`: clicking its marker selects `A`, and the details lookup at line 71 then raises IndexError, or shows another ticket named `A` | The whole text after the first colon, `split(":", 1)[1]` | medium, not executed: needs an id containing a colon | `Labels.DecodeLabel` (`Labels.ColonIdIsTruncated`, `Selection.ClickOnColonIdFails`) | `Labels.DecodeLabelFixed` (`Labels.DecodeEncodeFixed`, `Selection.ClickShowsClickedTicket`) |
| mapper.py:57 | A ticket counts as selected when `str(selected_id)` equals its id, and an absent selection prints as `None` | A ticket with id `None` while nothing is selected is drawn orange | Highlight only when a selection exists and equals the id | low, not executed: recent pandas reads a bare `None` cell as missing, so the id must arrive as that text some other way | `Markers.MarkerColourAsWritten` (`Markers.NoneTicketHighlighted`) | `Markers.MarkerColour` (`Markers.AsWrittenAgreesExceptForNone`) |
