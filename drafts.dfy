/** What the three note forms (src/components/DestinationCard.tsx, Notebook.tsx and
    BookNotebook.tsx) share: the mood options, the mood-chip toggle, and the note a save
    hands to `onAddNote`. */
module Drafts {
  import opened Types
  import opened Seqs
  import opened Text

  /** The mood chips every form offers, in display order. */
  const MoodOptions: seq<string> := ["Nature", "Culture", "Food", "Adventure", "Romance", "Relaxing"]

  function Other(m: string): string -> bool { (x: string) => x != m }

  /** `prev.includes(m) ? prev.filter((x) => x !== m) : [...prev, m]`. */
  function Toggle(moods: seq<string>, m: string): (r: seq<string>)
    ensures m in r <==> m !in moods
    ensures forall x | x != m :: x in r <==> x in moods
  {
    if m in moods then Filter(moods, Other(m)) else moods + [m]
  }

  /** A present mood is removed everywhere and the rest keep their order; an absent mood
      goes at the end. */
  lemma ToggleShape(moods: seq<string>, m: string)
    ensures m in moods ==> IsSubseq(Toggle(moods, m), moods) && |Toggle(moods, m)| < |moods|
    ensures m !in moods ==> Toggle(moods, m) == moods + [m]
    ensures m in moods ==> forall x :: multiset(Toggle(moods, m))[x] == if x == m then 0 else multiset(moods)[x]
  {
    if m in moods {
      FilterShrinks(moods, Other(m), m);
      FilterMultiset(moods, Other(m));
    }
  }

  /** Toggling an absent mood twice gives back the list. */
  lemma ToggleTwice(moods: seq<string>, m: string)
    requires m !in moods
    ensures Toggle(Toggle(moods, m), m) == moods
  {
    var t := moods + [m];
    FilterConcat(moods, [m], Other(m));
    FilterCons(m, [], Other(m));
    assert forall x :: x in moods ==> Other(m)(x);
    FilterKeepsAll(moods, Other(m));
    assert [m] + [] == [m];
  }

  /** A selection without repeats stays without repeats, and a selection of offered moods
      stays within the offered moods. */
  lemma ToggleKeeps(moods: seq<string>, m: string, options: seq<string>)
    ensures Distinct(moods) ==> Distinct(Toggle(moods, m))
    ensures (forall x | x in moods :: x in options) && m in options ==>
      forall x | x in Toggle(moods, m) :: x in options
  {
    if m in moods {
      if Distinct(moods) {
        SubseqDistinct(Filter(moods, Other(m)), moods);
      }
    } else {
      DistinctConcat(moods, [m]);
    }
  }

  /** The note a form hands to `onAddNote`. */
  datatype NoteDraft = NoteDraft(content: string, moodTags: seq<string>, imageUrl: Option<string>)

  /** `imageUrl.trim() || null`. */
  function TrimOrNull(imageUrl: string): (r: Option<string>)
    ensures r == None <==> IsBlank(imageUrl)
    ensures r.Some? ==> r.value == Trim(imageUrl) && r.value != ""
  {
    var t := Trim(imageUrl);
    if t == "" then None else Some(t)
  }

  /** The call a save makes, or none when the content is blank: the content goes as typed,
      the image trimmed or null. */
  function Draft(content: string, moods: seq<string>, imageUrl: string): (r: Option<NoteDraft>)
    ensures r == None <==> IsBlank(content)
    ensures r.Some? ==> r.value == NoteDraft(content, moods, TrimOrNull(imageUrl))
  {
    if IsBlank(content) then None else Some(NoteDraft(content, moods, TrimOrNull(imageUrl)))
  }

  /** Whitespace-only content never makes a note. */
  lemma DraftOfWhitespace(content: string, moods: seq<string>, imageUrl: string)
    requires forall i | 0 <= i < |content| :: IsWhitespace(content[i])
    ensures Draft(content, moods, imageUrl) == None
  {
    BlankIffAllWhitespace(content);
  }

  /** Content with a visible character always makes a note, and an image URL of spaces
      goes as null. */
  lemma DraftOfText(content: string, moods: seq<string>, imageUrl: string, i: nat)
    requires i < |content| && !IsWhitespace(content[i])
    ensures Draft(content, moods, imageUrl).Some?
    ensures (forall k | 0 <= k < |imageUrl| :: IsWhitespace(imageUrl[k])) ==>
      Draft(content, moods, imageUrl).value.imageUrl == None
  {
    BlankIffAllWhitespace(content);
    BlankIffAllWhitespace(imageUrl);
  }

  /** `destinations[0]?.id || null`: the first destination's id, unless there is none or
      it is the empty string. */
  function InitialSelection(ds: seq<Destination>): (r: Option<string>)
    ensures r.Some? <==> ds != [] && ds[0].id != ""
    ensures r.Some? ==> r.value == ds[0].id
  {
    if ds != [] && ds[0].id != "" then Some(ds[0].id) else None
  }
}
