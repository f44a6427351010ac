/** "Mark as complete" on the stored table (mapper.py, lines 83-84). */
module Store {
  import opened Wrappers
  import opened Tickets
  import opened Markers
  import opened Selection

  /** One row after the update: Completed when its id matches. */
  function CompleteIfMatches(t: Ticket, id: string): Ticket {
    if t.id == id then t.(status := Completed) else t
  }

  /** The table after setting status to Completed on every row whose id is `id`. */
  function MarkCompleted(ts: seq<Ticket>, id: string): (r: seq<Ticket>)
    ensures |r| == |ts|
  {
    if ts == [] then [] else [CompleteIfMatches(ts[0], id)] + MarkCompleted(ts[1..], id)
  }

  /** Every matching row becomes Completed; every other row, and every other
      field of a matching row, stays as it was. */
  lemma {:induction false} MarkCompletedAt(ts: seq<Ticket>, id: string, k: nat)
    requires k < |ts|
    ensures |MarkCompleted(ts, id)| == |ts|
    ensures MarkCompleted(ts, id)[k] == if ts[k].id == id then ts[k].(status := Completed) else ts[k]
  {
    if k > 0 {
      MarkCompletedAt(ts[1..], id, k - 1);
    }
  }

  /** Marking the same id complete twice gives the table marking it once gives. */
  lemma {:induction false} MarkCompletedIdempotent(ts: seq<Ticket>, id: string)
    ensures MarkCompleted(MarkCompleted(ts, id), id) == MarkCompleted(ts, id)
  {
    if ts != [] {
      MarkCompletedIdempotent(ts[1..], id);
    }
  }

  /** The update keeps the ids, so the dropdown entries stay the same. */
  lemma MarkCompletedKeepsOptions(ts: seq<Ticket>, id: string)
    ensures DropdownOptions(MarkCompleted(ts, id)) == DropdownOptions(ts)
  {
  }

  /** Completing the selected ticket changes no marker colour while it stays
      selected: its marker is orange before and after. */
  lemma CompletingSelectedKeepsColours(ts: seq<Ticket>, id: string)
    ensures MarkerColours(MarkCompleted(ts, id), Some(id)) == MarkerColours(ts, Some(id))
  {
    forall k | 0 <= k < |ts|
      ensures MarkerColour(MarkCompleted(ts, id)[k], Some(id)) == MarkerColour(ts[k], Some(id))
    {
      MarkCompletedAt(ts, id, k);
    }
  }

  /** Once the selection is elsewhere, every completed row shows green. */
  lemma CompletedShowsGreenWhenNotSelected(ts: seq<Ticket>, id: string, sel: Option<string>, k: nat)
    requires k < |ts| && ts[k].id == id && sel != Some(id)
    ensures MarkerColour(MarkCompleted(ts, id)[k], sel) == Green
  {
    MarkCompletedAt(ts, id, k);
  }
}
