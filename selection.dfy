/** The selection: the ticket dropdown (mapper.py, lines 47-51) and the
    details lookup of the selected ticket (lines 69-71). */
module Selection {
  import opened Wrappers
  import opened Tickets
  import opened Labels

  /** The first dropdown entry, which stands for "no choice". */
  const Sentinel: string := "--- Select a Ticket ---"

  /** The ids of the tickets, as text, in store order. */
  function Ids(ts: seq<Ticket>): (ids: seq<string>)
    ensures |ids| == |ts|
    ensures forall k :: 0 <= k < |ts| ==> ids[k] == ts[k].id
  {
    if ts == [] then [] else [ts[0].id] + Ids(ts[1..])
  }

  /** The dropdown entries: the sentinel, then every ticket id in store order. */
  function DropdownOptions(ts: seq<Ticket>): (opts: seq<string>)
    ensures |opts| == |ts| + 1 && opts[0] == Sentinel
    ensures forall k :: 0 <= k < |ts| ==> opts[k + 1] == ts[k].id
  {
    [Sentinel] + Ids(ts)
  }

  /** The selection after the dropdown shows `choice`: the sentinel leaves it
      alone, any other entry replaces it. */
  function Picked(choice: string, sel: Option<string>): (r: Option<string>)
    ensures choice == Sentinel ==> r == sel
    ensures choice != Sentinel ==> r == Some(choice)
  {
    if choice == Sentinel then sel else Some(choice)
  }

  /** The position of the first ticket whose id is `id`. */
  function FindFirst(ts: seq<Ticket>, id: string): (r: Option<nat>)
    ensures r.Some? ==> r.value < |ts| && ts[r.value].id == id
                        && forall j :: 0 <= j < r.value ==> ts[j].id != id
    ensures r.None? ==> forall j :: 0 <= j < |ts| ==> ts[j].id != id
  {
    if ts == [] then None
    else if ts[0].id == id then Some(0)
    else
      match FindFirst(ts[1..], id)
      case None => None
      case Some(k) => Some(k + 1)
  }

  /** What the sidebar shows for the current selection. `LookupFails` stands
      for the IndexError `.iloc[0]` raises when no row has the selected id. */
  datatype Details = NothingSelected | Shown(ticket: Ticket) | LookupFails

  /** The details block: shown only for a non-empty selection, and then for
      the first ticket whose id equals it. */
  function SelectedDetails(ts: seq<Ticket>, sel: Option<string>): (d: Details)
    ensures d.NothingSelected? <==> sel.None? || sel.value == ""
    ensures d.LookupFails? <==>
              sel.Some? && sel.value != "" && forall j :: 0 <= j < |ts| ==> ts[j].id != sel.value
    ensures d.Shown? ==>
              sel.Some? && d.ticket.id == sel.value
              && exists k :: 0 <= k < |ts| && ts[k] == d.ticket
                             && forall j :: 0 <= j < k ==> ts[j].id != sel.value
  {
    if sel.None? || sel.value == "" then NothingSelected
    else
      match FindFirst(ts, sel.value)
      case None => LookupFails
      case Some(k) => Shown(ts[k])
  }

  /** Choosing a ticket from the dropdown always selects a ticket the details
      lookup finds, unless the chosen id is empty. */
  lemma PickedTicketIsFound(ts: seq<Ticket>, choice: string, sel: Option<string>)
    requires choice in DropdownOptions(ts) && choice != Sentinel
    ensures Picked(choice, sel) == Some(choice)
    ensures choice != "" ==> SelectedDetails(ts, Picked(choice, sel)).Shown?
  {
  }

  /** With the as-written decoding, clicking the marker of a ticket whose id
      holds a colon selects an id no ticket has, and the lookup fails. */
  lemma ClickOnColonIdFails()
    ensures var ts := [Ticket("A:1", 0.0, 0.0, NoNotes, Pending)];
            SelectedDetails(ts, DecodeLabel(EncodeLabel(ts[0].id))) == LookupFails
  {
    ColonIdIsTruncated();
    assert "A" != "A:1";
  }

  /** With the intended decoding, clicking the marker of any ticket with a
      non-empty id shows that ticket's details. */
  lemma ClickShowsClickedTicket(ts: seq<Ticket>, k: nat)
    requires k < |ts| && ts[k].id != ""
    ensures DecodeLabelFixed(EncodeLabel(ts[k].id)) == Some(ts[k].id)
    ensures var d := SelectedDetails(ts, DecodeLabelFixed(EncodeLabel(ts[k].id)));
            d.Shown? && d.ticket.id == ts[k].id
  {
  }
}
