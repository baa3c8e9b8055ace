/** The notebook view (src/components/Notebook.tsx): a case-insensitive search over the notes
    of every destination, the destination selected for writing, the notes listed for it, and
    the note form. */
module Notebook {
  import opened Types
  import opened Seqs
  import opened Text
  import opened Drafts

  /** `n.content.toLowerCase().includes(q)` for an already lower-cased query. */
  function Matches(q: string): Note -> bool { (n: Note) => Contains(Lower(n.content), q) }

  function KeepMatching(q: string): Destination -> Destination {
    (d: Destination) => d.(notes := Filter(d.notes, Matches(q)))
  }

  /** `filtered`: every destination, with only the notes that match the query. */
  function FilterNotes(ds: seq<Destination>, query: string): (r: seq<Destination>)
    ensures |r| == |ds|
    ensures forall i | 0 <= i < |ds| :: r[i].id == ds[i].id && |r[i].notes| <= |ds[i].notes|
  {
    MapSeq(ds, KeepMatching(Lower(query)))
  }

  /** The search keeps every destination, its id and its place; only the notes shrink,
      and the notes kept stay in their order. */
  lemma FilterNotesShape(ds: seq<Destination>, query: string)
    ensures |FilterNotes(ds, query)| == |ds|
    ensures forall i | 0 <= i < |ds| ::
      FilterNotes(ds, query)[i] == ds[i].(notes := FilterNotes(ds, query)[i].notes)
    ensures forall i | 0 <= i < |ds| :: IsSubseq(FilterNotes(ds, query)[i].notes, ds[i].notes)
    ensures forall i, n | 0 <= i < |ds| ::
      multiset(FilterNotes(ds, query)[i].notes)[n] == (if Contains(Lower(n.content), Lower(query)) then multiset(ds[i].notes)[n] else 0)
  {
    forall i | 0 <= i < |ds| {
      FilterMultiset(ds[i].notes, Matches(Lower(query)));
    }
  }

  /** A note survives exactly when its lower-cased content contains the lower-cased query. */
  lemma FilterNotesMembers(ds: seq<Destination>, query: string)
    ensures forall i, n | 0 <= i < |ds| ::
      n in FilterNotes(ds, query)[i].notes <==> n in ds[i].notes && Contains(Lower(n.content), Lower(query))
  {
  }

  /** An empty query keeps every note. */
  lemma EmptyQueryKeepsAll(ds: seq<Destination>)
    ensures FilterNotes(ds, "") == ds
  {
    var r := FilterNotes(ds, "");
    forall i | 0 <= i < |ds| ensures r[i] == ds[i] {
      forall n | n in ds[i].notes ensures Matches("")(n) {
        ContainsEmpty(Lower(n.content));
      }
      FilterKeepsAll(ds[i].notes, Matches(""));
    }
  }

  /** The case of the query does not matter. */
  lemma QueryCaseInsensitive(ds: seq<Destination>, query: string)
    ensures FilterNotes(ds, Lower(query)) == FilterNotes(ds, query)
  {
    LowerIdempotent(query);
  }

  /** Position i holds the first destination with that id. */
  predicate FirstWithId(ds: seq<Destination>, id: string, i: int) {
    0 <= i < |ds| && ds[i].id == id && forall j | 0 <= j < i :: ds[j].id != id
  }

  /** `destinations.find((d) => d.id === selectedDestId) || null`. */
  function FindDestination(ds: seq<Destination>, selected: Option<string>): (r: Option<Destination>)
    ensures selected.None? ==> r.None?
    ensures r.None? && selected.Some? ==> forall i | 0 <= i < |ds| :: ds[i].id != selected.value
    ensures r.Some? ==> selected.Some? && exists i :: FirstWithId(ds, selected.value, i) && ds[i] == r.value
  {
    if selected.None? || ds == [] then None
    else if ds[0].id == selected.value then
      assert FirstWithId(ds, selected.value, 0);
      Some(ds[0])
    else
      var r := FindDestination(ds[1..], selected);
      if r.Some? then
        var i :| FirstWithId(ds[1..], selected.value, i) && ds[1..][i] == r.value;
        assert FirstWithId(ds, selected.value, i + 1);
        r
      else
        r
  }

  /** The search narrows the selected destination down to its matching notes: looking the
      selection up in `filtered` finds the filtered version of what the plain lookup finds. */
  lemma {:induction false} FindFiltered(ds: seq<Destination>, selected: Option<string>, query: string)
    ensures FindDestination(FilterNotes(ds, query), selected) ==
      match FindDestination(ds, selected)
      case None => None
      case Some(d) => Some(KeepMatching(Lower(query))(d))
  {
    if selected.Some? && ds != [] {
      var f := FilterNotes(ds, query);
      assert f[1..] == FilterNotes(ds[1..], query);
      FindFiltered(ds[1..], selected, query);
    }
  }

  /** The notes list under the editor as written: the notes of the selected destination,
      whatever the query. */
  function NotesShownAsWritten(ds: seq<Destination>, selected: Option<string>, query: string): (r: seq<Note>)
    ensures FindDestination(ds, selected).None? ==> r == []
    ensures FindDestination(ds, selected).Some? ==> r == FindDestination(ds, selected).value.notes
  {
    match FindDestination(ds, selected)
    case None => []
    case Some(d) => d.notes
  }

  /** As written, the query has no effect on the notes listed. */
  lemma QueryIgnoredAsWritten(ds: seq<Destination>, selected: Option<string>, q1: string, q2: string)
    ensures NotesShownAsWritten(ds, selected, q1) == NotesShownAsWritten(ds, selected, q2)
  {
  }

  /** A note of the selected destination that does not contain the query is still listed. */
  lemma NonMatchingNoteShownAsWritten()
    ensures var n := Note("n1", "beach day", None, [], "2024-05-01T10:00:00Z");
      var ds := [Destination("d1", "Lisbon, Portugal", 38.7, -9.1, Visited, [n])];
      && !Contains(Lower(n.content), Lower("zoo"))
      && n in NotesShownAsWritten(ds, Some("d1"), "zoo")
  {
    var n := Note("n1", "beach day", None, [], "2024-05-01T10:00:00Z");
    var ds := [Destination("d1", "Lisbon, Portugal", 38.7, -9.1, Visited, [n])];
    assert FindDestination(ds, Some("d1")) == Some(ds[0]);
    BeachDayLacksZoo();
  }

  /** "beach day" does not include "zoo", in either case. */
  lemma BeachDayLacksZoo()
    ensures !Contains(Lower("beach day"), Lower("zoo"))
  {
    LowerKeepsLowerCase("beach day");
    LowerKeepsLowerCase("zoo");
    assert 'z' !in "beach day";
    ContainsFirstChar("beach day", "zoo");
  }

  /** The notes list as the search box evidently intends it: the selected destination's
      notes that contain the query, case-insensitively, in their order. */
  function NotesShown(ds: seq<Destination>, selected: Option<string>, query: string): (r: seq<Note>)
    ensures IsSubseq(r, NotesShownAsWritten(ds, selected, query))
    ensures forall n :: n in r <==>
      n in NotesShownAsWritten(ds, selected, query) && Contains(Lower(n.content), Lower(query))
  {
    FindFiltered(ds, selected, query);
    match FindDestination(FilterNotes(ds, query), selected)
    case None => []
    case Some(d) => d.notes
  }

  /** With an empty query every note of the selected destination is listed, as written. */
  lemma EmptyQueryShowsAll(ds: seq<Destination>, selected: Option<string>)
    ensures NotesShown(ds, selected, "") == NotesShownAsWritten(ds, selected, "")
  {
    EmptyQueryKeepsAll(ds);
  }

  /** The notebook's state cells. */
  class NotebookForm {
    var query: string
    var selectedDestId: Option<string>
    var content: string
    var imageUrl: string
    var moods: seq<string>

    constructor (destinations: seq<Destination>)
      ensures query == "" && content == "" && imageUrl == "" && moods == []
      ensures selectedDestId == InitialSelection(destinations)
    {
      query := "";
      selectedDestId := InitialSelection(destinations);
      content := "";
      imageUrl := "";
      moods := [];
    }

    /** `filtered`: the destinations with their notes narrowed to the query. The view
        computes it but never renders it. */
    function Filtered(destinations: seq<Destination>): (r: seq<Destination>)
      reads this
      ensures |r| == |destinations|
      ensures forall i | 0 <= i < |r| :: r[i].id == destinations[i].id
      ensures forall i, n | 0 <= i < |r| && n in r[i].notes :: Contains(Lower(n.content), Lower(query))
    {
      FilterNotes(destinations, query)
    }

    /** `selectedDestination`: the destination the editor writes to, if any. */
    function SelectedDestination(destinations: seq<Destination>): (r: Option<Destination>)
      reads this
      ensures r.Some? ==> r.value in destinations && selectedDestId == Some(r.value.id)
      ensures r.None? ==> selectedDestId.None? || forall d | d in destinations :: d.id != selectedDestId.value
    {
      FindDestination(destinations, selectedDestId)
    }

    /** The notes listed under the editor, narrowed by the query. */
    function ShownNotes(destinations: seq<Destination>): (r: seq<Note>)
      reads this
      ensures forall n | n in r :: Contains(Lower(n.content), Lower(query))
      ensures SelectedDestination(destinations).None? ==> r == []
      ensures SelectedDestination(destinations).Some? ==> IsSubseq(r, SelectedDestination(destinations).value.notes)
    {
      NotesShown(destinations, selectedDestId, query)
    }

    method SetQuery(q: string)
      modifies this
      ensures query == q
      ensures selectedDestId == old(selectedDestId) && content == old(content)
      ensures imageUrl == old(imageUrl) && moods == old(moods)
    {
      query := q;
    }

    /** A click on a destination in the sidebar. */
    method SelectDestination(id: string)
      modifies this
      ensures selectedDestId == Some(id)
      ensures query == old(query) && content == old(content)
      ensures imageUrl == old(imageUrl) && moods == old(moods)
    {
      selectedDestId := Some(id);
    }

    method SetContent(c: string)
      modifies this
      ensures content == c
      ensures query == old(query) && selectedDestId == old(selectedDestId)
      ensures imageUrl == old(imageUrl) && moods == old(moods)
    {
      content := c;
    }

    method SetImageUrl(u: string)
      modifies this
      ensures imageUrl == u
      ensures query == old(query) && selectedDestId == old(selectedDestId)
      ensures content == old(content) && moods == old(moods)
    {
      imageUrl := u;
    }

    /** toggleMood. */
    method ToggleMood(m: string)
      modifies this
      ensures moods == Toggle(old(moods), m)
      ensures query == old(query) && selectedDestId == old(selectedDestId)
      ensures content == old(content) && imageUrl == old(imageUrl)
    {
      moods := Toggle(moods, m);
    }

    /** The Clear button. */
    method Clear()
      modifies this
      ensures content == "" && imageUrl == "" && moods == []
      ensures query == old(query) && selectedDestId == old(selectedDestId)
    {
      content, imageUrl, moods := "", "", [];
    }

    /** handleSave: without a selected destination or with blank content nothing happens;
        otherwise the draft is handed on and the form is cleared. */
    method HandleSave(destinations: seq<Destination>) returns (sent: Option<NoteDraft>)
      modifies this`content, this`imageUrl, this`moods
      ensures sent.None? <==> FindDestination(destinations, old(selectedDestId)).None? || IsBlank(old(content))
      ensures sent.Some? ==> sent == Draft(old(content), old(moods), old(imageUrl))
      ensures sent.Some? ==> content == "" && imageUrl == "" && moods == []
      ensures sent.None? ==> content == old(content) && imageUrl == old(imageUrl) && moods == old(moods)
      ensures query == old(query) && selectedDestId == old(selectedDestId)
    {
      var draft := Draft(content, moods, imageUrl);
      if FindDestination(destinations, selectedDestId).None? || draft.None? {
        return None;
      }
      sent := draft;
      content, imageUrl, moods := "", "", [];
    }
  }
}
