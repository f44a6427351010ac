/** The page's session state and the events that change it: restoring the
    saved log, uploading a table, the dropdown, a map click, "Mark as
    complete" and the reset button (mapper.py, lines 17-51, 64-65, 83-85). */
module Page {
  import opened Wrappers
  import opened Tickets
  import opened Labels
  import opened Selection
  import opened Store

  /** What a map click does to the selection. `Malformed` stands for a popup
      with no colon, on which the decoding raises IndexError. */
  datatype ClickOutcome = NoClick | Selected(id: string) | Malformed

  /** The outcome of the popup text the map reports; an empty text means no
      marker was clicked. */
  function ClickOutcomeOf(popup: string): (o: ClickOutcome)
    ensures o.NoClick? <==> popup == ""
    ensures o.Malformed? <==> popup != "" && ':' !in popup
    ensures o.Selected? ==> DecodeLabelFixed(popup) == Some(o.id)
  {
    if popup == "" then NoClick
    else
      match DecodeLabelFixed(popup)
      case None => Malformed
      case Some(id) => Selected(id)
  }

  class Session {
    /** The table held for the session; None before any import or restore. */
    var store: Option<seq<Ticket>>
    /** The selected ticket id; None when nothing has been selected. */
    var selectedId: Option<string>
    /** The saved log file; None when it does not exist. */
    var savedLog: Option<seq<Ticket>>

    /** Every change to the table is saved at once, and nothing is selected
        before a table is loaded. */
    ghost predicate Valid()
      reads this
    {
      && (store.Some? ==> savedLog == store)
      && (store.None? ==> selectedId.None?)
    }

    /** A new browser session, with the log file left by an earlier one (if any). */
    constructor (saved: Option<seq<Ticket>>)
      ensures Valid()
      ensures store.None? && selectedId.None? && savedLog == saved
    {
      store := None;
      selectedId := None;
      savedLog := saved;
    }

    /** Loading the saved log when no table is held yet. */
    method Restore() returns (restored: bool)
      requires Valid()
      modifies this
      ensures Valid()
      ensures restored <==> old(store).None? && old(savedLog).Some?
      ensures store == (if restored then old(savedLog) else old(store))
      ensures selectedId == old(selectedId) && savedLog == old(savedLog)
    {
      restored := store.None? && savedLog.Some?;
      if restored {
        store := savedLog;
      }
    }

    /** Importing an uploaded table and saving it; offered only when no table
        is held and no log exists. */
    method Upload(u: Upload) returns (ok: bool)
      requires Valid() && store.None? && savedLog.None?
      modifies this
      ensures Valid()
      ensures ok <==> u.columns >= 3
      ensures ok ==> store == Some(Imported(u.rows, u.columns >= 4)) && savedLog == store
      ensures !ok ==> store == old(store) && savedLog == old(savedLog)
      ensures selectedId == old(selectedId)
    {
      var r := ImportTable(u);
      match r
      case Failure(_) =>
        ok := false;
      case Success(table) =>
        ok := true;
        store := Some(table);
        savedLog := store;
    }

    /** The dropdown shows `choice`, one of its entries. */
    method Pick(choice: string)
      requires Valid() && store.Some? && choice in DropdownOptions(store.value)
      modifies this
      ensures Valid()
      ensures selectedId == Picked(choice, old(selectedId))
      ensures store == old(store) && savedLog == old(savedLog)
    {
      if choice != Sentinel {
        selectedId := Some(choice);
      }
    }

    /** The map reports the popup of the last clicked marker; a decodable
        popup always replaces the selection (there is no toggle-off). */
    method Click(popup: string) returns (outcome: ClickOutcome)
      requires Valid() && store.Some?
      modifies this
      ensures Valid()
      ensures outcome == ClickOutcomeOf(popup)
      ensures selectedId == (if outcome.Selected? then Some(outcome.id) else old(selectedId))
      ensures store == old(store) && savedLog == old(savedLog)
    {
      outcome := ClickOutcomeOf(popup);
      if outcome.Selected? {
        selectedId := Some(outcome.id);
      }
    }

    /** One pass of the page: the dropdown is applied first, then the click,
        so a click wins over the dropdown in the same pass. */
    method Pass(choice: string, popup: string) returns (outcome: ClickOutcome)
      requires Valid() && store.Some? && choice in DropdownOptions(store.value)
      modifies this
      ensures Valid()
      ensures outcome == ClickOutcomeOf(popup)
      ensures selectedId == (if outcome.Selected? then Some(outcome.id)
                             else Picked(choice, old(selectedId)))
      ensures store == old(store) && savedLog == old(savedLog)
    {
      Pick(choice);
      outcome := Click(popup);
    }

    /** "Mark as complete": set Completed on every row whose id is the
        selection, in place, and save the table. The button exists only while
        the details of the selected ticket are shown. */
    method MarkComplete()
      requires Valid() && store.Some? && SelectedDetails(store.value, selectedId).Shown?
      modifies this
      ensures Valid()
      ensures store == Some(MarkCompleted(old(store).value, old(selectedId).value))
      ensures savedLog == store && selectedId == old(selectedId)
    {
      var id := selectedId.value;
      var rows := store.value;
      ghost var before := rows;
      var i := 0;
      while i < |rows|
        invariant 0 <= i <= |rows| == |before|
        invariant forall k :: 0 <= k < i ==> rows[k] == CompleteIfMatches(before[k], id)
        invariant forall k :: i <= k < |rows| ==> rows[k] == before[k]
      {
        if rows[i].id == id {
          rows := rows[i := rows[i].(status := Completed)];
        }
        i := i + 1;
      }
      forall k | 0 <= k < |rows| ensures rows[k] == MarkCompleted(before, id)[k] {
        MarkCompletedAt(before, id, k);
      }
      assert rows == MarkCompleted(before, id);
      store := Some(rows);
      savedLog := store;
    }

    /** The reset button: delete the log and clear the whole session. */
    method Reset()
      modifies this
      ensures Valid()
      ensures store.None? && selectedId.None? && savedLog.None?
    {
      savedLog := None;
      store := None;
      selectedId := None;
    }
  }
}
