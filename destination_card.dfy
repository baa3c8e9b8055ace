/** The note form on a destination's card (src/components/DestinationCard.tsx): five state
    cells changed by the form's buttons. */
module DestinationCard {
  import opened Types
  import opened Seqs
  import opened Text
  import opened Drafts

  class NoteForm {
    var isAddingNote: bool
    var noteContent: string
    var selectedMoods: seq<string>
    var imageUrl: string
    var rating: nat

    /** The rating is 0 (none chosen) or one of the five stars. */
    ghost predicate Valid()
      reads this
    {
      rating <= 5
    }

    constructor ()
      ensures Valid()
      ensures !isAddingNote && noteContent == "" && selectedMoods == [] && imageUrl == "" && rating == 0
    {
      isAddingNote := false;
      noteContent := "";
      selectedMoods := [];
      imageUrl := "";
      rating := 0;
    }

    /** The "Add Note" button. */
    method OpenForm()
      modifies this`isAddingNote
      ensures isAddingNote
    {
      isAddingNote := true;
    }

    method SetContent(c: string)
      modifies this`noteContent
      ensures noteContent == c
    {
      noteContent := c;
    }

    method SetImageUrl(u: string)
      modifies this`imageUrl
      ensures imageUrl == u
    {
      imageUrl := u;
    }

    /** Star button n of the five. */
    method SetRating(n: nat)
      requires Valid() && 1 <= n <= 5
      modifies this`rating
      ensures Valid() && rating == n
    {
      rating := n;
    }

    /** toggleMood. */
    method ToggleMood(m: string)
      modifies this`selectedMoods
      ensures selectedMoods == Toggle(old(selectedMoods), m)
    {
      selectedMoods := Toggle(selectedMoods, m);
    }

    /** handleSubmitNote: blank content changes nothing and sends nothing; otherwise the
        draft is handed on (the rating is not part of it) and all five cells are reset. */
    method SubmitNote() returns (sent: Option<NoteDraft>)
      requires Valid()
      modifies this`noteContent, this`selectedMoods, this`imageUrl, this`rating, this`isAddingNote
      ensures Valid()
      ensures sent.None? <==> IsBlank(old(noteContent))
      ensures sent == Draft(old(noteContent), old(selectedMoods), old(imageUrl))
      ensures sent.Some? ==>
        noteContent == "" && selectedMoods == [] && imageUrl == "" && rating == 0 && !isAddingNote
      ensures sent.None? ==>
        noteContent == old(noteContent) && selectedMoods == old(selectedMoods) &&
        imageUrl == old(imageUrl) && rating == old(rating) && isAddingNote == old(isAddingNote)
    {
      sent := Draft(noteContent, selectedMoods, imageUrl);
      if sent.None? {
        return;
      }
      noteContent, selectedMoods, imageUrl, rating, isAddingNote := "", [], "", 0, false;
    }

    /** The Cancel button: closes the form and empties the text and the moods, but keeps
        the image URL and the rating. */
    method Cancel()
      requires Valid()
      modifies this`isAddingNote, this`noteContent, this`selectedMoods
      ensures Valid()
      ensures !isAddingNote && noteContent == "" && selectedMoods == []
      ensures imageUrl == old(imageUrl) && rating == old(rating)
    {
      isAddingNote, noteContent, selectedMoods := false, "", [];
    }
  }
}
