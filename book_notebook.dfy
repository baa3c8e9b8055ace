/** The book view (src/components/BookNotebook.tsx): every note as a page, tagged with its
    destination's name, a page index moved by Prev and Next, and the note form. */
module BookNotebook {
  import opened Types
  import opened Seqs
  import opened Text
  import opened Drafts
  import opened Store

  /** A note with the name of the destination it belongs to. */
  datatype Page = Page(note: Note, destName: string)

  function ToPage(destName: string): Note -> Page { (n: Note) => Page(n, destName) }
  function PageNote(p: Page): Note { p.note }

  function PagesOf(d: Destination): seq<Page> { MapSeq(d.notes, ToPage(d.name)) }

  /** `destinations.flatMap((d) => d.notes.map((n) => ({ ...n, destName: d.name })))`. */
  function Pages(ds: seq<Destination>): (r: seq<Page>)
    ensures |r| == |AllNotes(ds)|
  {
    if ds == [] then [] else PagesOf(ds[0]) + Pages(ds[1..])
  }

  /** The pages are the notes of all destinations, in destination order, one page per note. */
  lemma {:induction false} PagesAreNotes(ds: seq<Destination>)
    ensures MapSeq(Pages(ds), PageNote) == AllNotes(ds)
  {
    if ds != [] {
      PagesAreNotes(ds[1..]);
      MapConcat(PagesOf(ds[0]), Pages(ds[1..]), PageNote);
      assert MapSeq(PagesOf(ds[0]), PageNote) == ds[0].notes;
    }
  }

  /** Note k of destination i is the page after the pages of the destinations before it,
      and it carries that destination's name. */
  lemma {:induction false} PageOwner(ds: seq<Destination>, i: nat, k: nat)
    requires i < |ds| && k < |ds[i].notes|
    ensures |AllNotes(ds[..i])| + k < |Pages(ds)|
    ensures Pages(ds)[|AllNotes(ds[..i])| + k] == Page(ds[i].notes[k], ds[i].name)
  {
    var head := PagesOf(ds[0]);
    var rest := Pages(ds[1..]);
    assert Pages(ds) == head + rest;
    if i == 0 {
      assert ds[..0] == [];
      assert head[k] == Page(ds[0].notes[k], ds[0].name);
    } else {
      var before := ds[1..][..i - 1];
      PageOwner(ds[1..], i - 1, k);
      assert ds[1..][i - 1] == ds[i];
      assert ds[..i] == [ds[0]] + before;
      AllNotesConcat([ds[0]], before);
      assert AllNotes([ds[0]]) == ds[0].notes + AllNotes([]);
      var j := |AllNotes(before)| + k;
      assert j < |rest| && rest[j] == Page(ds[i].notes[k], ds[i].name);
      assert |AllNotes(ds[..i])| + k == |head| + j;
      assert (head + rest)[|head| + j] == rest[j];
    }
  }

  // ----- page index -----

  /** `Math.max(0, i - 1)`. */
  function PrevIndex(i: int): (r: int)
    ensures r >= 0 && r >= i - 1
    ensures r == i - 1 || r == 0
  {
    if i - 1 < 0 then 0 else i - 1
  }

  /** `Math.min(pages.length - 1, i + 1)`. */
  function NextIndex(pageCount: nat, i: int): (r: int)
    ensures r <= pageCount - 1 && r <= i + 1
    ensures r == pageCount - 1 || r == i + 1
  {
    if pageCount - 1 < i + 1 then pageCount - 1 else i + 1
  }

  /** From a page that exists, both buttons land on a page that exists, one step away at most. */
  lemma IndexInRange(pageCount: nat, i: int)
    requires 0 <= i < pageCount
    ensures 0 <= PrevIndex(i) < pageCount && i - 1 <= PrevIndex(i) <= i
    ensures 0 <= NextIndex(pageCount, i) < pageCount && i <= NextIndex(pageCount, i) <= i + 1
  {
  }

  /** `disabled={pageIndex === 0}` and `disabled={pageIndex >= pages.length - 1}`: on a page
      that exists, a button moves the index exactly when it is enabled. */
  lemma ButtonsMoveWhenEnabled(pageCount: nat, i: int)
    requires 0 <= i < pageCount
    ensures PrevIndex(i) != i <==> !(i == 0)
    ensures NextIndex(pageCount, i) != i <==> !(i >= pageCount - 1)
  {
  }

  /** `pages.length ? pageIndex + 1 : 0`, shown over `pages.length`. */
  function PageCounter(pageCount: nat, i: int): (r: int)
    ensures pageCount == 0 ==> r == 0
    ensures pageCount > 0 ==> r == i + 1
  {
    if pageCount > 0 then i + 1 else 0
  }

  /** The book's state cells. */
  class BookState {
    var pageIndex: int
    var content: string
    var imageUrl: string
    var moods: seq<string>
    var selectedDestId: Option<string>

    constructor (destinations: seq<Destination>)
      ensures pageIndex == 0 && content == "" && imageUrl == "" && moods == []
      ensures selectedDestId == InitialSelection(destinations)
    {
      pageIndex := 0;
      content := "";
      imageUrl := "";
      moods := [];
      selectedDestId := InitialSelection(destinations);
    }

    /** prev. */
    method Prev()
      modifies this`pageIndex
      ensures pageIndex == PrevIndex(old(pageIndex))
      ensures pageIndex >= 0
    {
      pageIndex := PrevIndex(pageIndex);
    }

    /** next, over the pages of the given destinations. */
    method Next(destinations: seq<Destination>)
      modifies this`pageIndex
      ensures pageIndex == NextIndex(|Pages(destinations)|, old(pageIndex))
      ensures pageIndex < |Pages(destinations)|
    {
      pageIndex := NextIndex(|Pages(destinations)|, pageIndex);
    }

    /** The destination picker. */
    method SelectDestination(id: string)
      modifies this`selectedDestId
      ensures selectedDestId == Some(id)
    {
      selectedDestId := Some(id);
    }

    method SetContent(c: string)
      modifies this`content
      ensures content == c
    {
      content := c;
    }

    method SetImageUrl(u: string)
      modifies this`imageUrl
      ensures imageUrl == u
    {
      imageUrl := u;
    }

    /** The inline mood toggle. */
    method ToggleMood(m: string)
      modifies this`moods
      ensures moods == Toggle(old(moods), m)
    {
      moods := Toggle(moods, m);
    }

    /** The Clear button. */
    method Clear()
      modifies this`content, this`imageUrl, this`moods
      ensures content == "" && imageUrl == "" && moods == []
    {
      content, imageUrl, moods := "", "", [];
    }

    /** save: nothing happens unless a non-empty destination id is selected and the content
        is not blank; otherwise the draft (without the destination id) is handed on and the
        form is cleared. */
    method Save() returns (sent: Option<NoteDraft>)
      modifies this`content, this`imageUrl, this`moods
      ensures sent.None? <==> old(selectedDestId).None? || old(selectedDestId).value == "" || IsBlank(old(content))
      ensures sent.Some? ==> sent == Draft(old(content), old(moods), old(imageUrl))
      ensures sent.Some? ==> content == "" && imageUrl == "" && moods == []
      ensures sent.None? ==> content == old(content) && imageUrl == old(imageUrl) && moods == old(moods)
    {
      if selectedDestId.None? || selectedDestId.value == "" || IsBlank(content) {
        return None;
      }
      sent := Draft(content, moods, imageUrl);
      content, imageUrl, moods := "", "", [];
    }
  }
}
