/** The colour of a ticket's map marker (mapper.py, lines 56-58). */
module Markers {
  import opened Wrappers
  import opened Tickets

  datatype Colour = Orange | Green | Blue

  /** `str(selected_id)`: an absent selection prints as the text "None". */
  function SelectionText(sel: Option<string>): string {
    match sel
    case None => "None"
    case Some(s) => s
  }

  /** The marker colour as written: the ticket counts as selected when the
      printed selection equals its id. */
  function MarkerColourAsWritten(t: Ticket, sel: Option<string>): (c: Colour)
    ensures c == Orange <==> SelectionText(sel) == t.id
    ensures c == Green <==> SelectionText(sel) != t.id && t.status == Completed
    ensures c == Blue <==> SelectionText(sel) != t.id && t.status == Pending
  {
    if SelectionText(sel) == t.id then Orange
    else
      match t.status
      case Completed => Green
      case Pending => Blue
  }

  /** With nothing selected, the as-written rule highlights a ticket whose id
      is the text "None". */
  lemma NoneTicketHighlighted(t: Ticket)
    requires t.id == "None"
    ensures MarkerColourAsWritten(t, None) == Orange
  {
  }

  /** The evidently intended rule: a ticket is highlighted exactly when it is
      the selected one, and selection takes priority over status. */
  function MarkerColour(t: Ticket, sel: Option<string>): (c: Colour)
    ensures c == Orange <==> sel == Some(t.id)
    ensures c == Green <==> sel != Some(t.id) && t.status == Completed
    ensures c == Blue <==> sel != Some(t.id) && t.status == Pending
  {
    if sel == Some(t.id) then Orange
    else
      match t.status
      case Completed => Green
      case Pending => Blue
  }

  /** The two rules differ only for the ticket named "None" while nothing is
      selected. */
  lemma AsWrittenAgreesExceptForNone(t: Ticket, sel: Option<string>)
    ensures MarkerColourAsWritten(t, sel) != MarkerColour(t, sel) <==> sel.None? && t.id == "None"
  {
  }

  /** The colours of all markers, in store order. */
  function MarkerColours(ts: seq<Ticket>, sel: Option<string>): seq<Colour> {
    seq(|ts|, k requires 0 <= k < |ts| => MarkerColour(ts[k], sel))
  }
}
