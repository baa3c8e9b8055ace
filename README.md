# Journey map: a verified model of the journal core

The journey map is a browser travel journal. The user keeps a list of **destinations**: a
name, coordinates, a category (dream, visited or planning) and the destination's **notes**,
newest first. Each note has text, an optional image URL, mood tags and a creation timestamp.
The whole list lives in one `localStorage` entry. This project models in Dafny:

* the store hook that loads, saves and edits the list (`Store`);
* the trip metrics: route length and destinations per country (`Geo`), built on a model of
  the JavaScript `Map` used as an insertion-ordered counter (`Tally`);
* the analytics panel: mood tags per day, sorted by day, and destinations per category
  (`Analytics`);
* the three note forms: the card's form (`DestinationCard`), the notebook with its search
  box (`Notebook`) and the paged book (`BookNotebook`), with what they share (`Drafts`).
  src/App.tsx renders the book but not the notebook;
* the shaping of a reverse-geocoding answer (`Geocoding`).

`Types` holds the entities. `Seqs` holds the generic facts about `filter`, `map` and
subsequences. `Text` models the string operations the code uses: `trim`, `toLowerCase`,
`includes`, `split`, `join` and `<`.

What changes state in place is a class with `modifies` clauses:
* the store's list, loading flag and storage;
* the counting `Map`;
* each form's state cells.

Every mutation states its new state in terms of a pure function. The lemmas about those
functions carry the promises: ids stay unique, deletes cascade, a delete undoes an add, and
the counts add up.

Inputs the code takes from its environment are parameters:
* fresh ids (`crypto.randomUUID`);
* timestamps (`new Date().toISOString()`);
* the great-circle distance;
* the result of the geocoding `fetch`.

Storage maps a key to the stored list; the model treats JSON serialisation as the identity.

Where the code's own annotations or comments read otherwise, the model follows the code.

* src/lib/geocoding.ts:20 annotates `city` as `string | undefined`. The value is the first
  truthy one of `city`, `town` and `village`, else the `hamlet` value as it is, because
  JavaScript's `||` returns its last operand. So an empty `hamlet` string comes back as `""`,
  which the annotation allows but does not suggest. `state` (line 21) behaves the same way
  with `county`.
* The comment at src/lib/geo.ts:31 speaks of the first word after a comma. The code at
  lines 34-35 files a destination under the whole trimmed last comma-separated segment of
  its name, and so does the model.

## Model

| member | source | states |
|---|---|---|
| Store.WithoutDestination | src/hooks/useDestinations.ts:67 | the result is a subsequence of the list holding exactly the destinations whose id differs; an absent id changes nothing |
| Store.UpdateNotes | src/hooks/useDestinations.ts:92-99 | same length; each destination with the id gets its notes transformed, every other one is kept as it is |
| Store.NewNote | src/hooks/useDestinations.ts:76-89 | the note carries the given id, content and timestamp; omitted moods become [], an omitted image becomes null |
| Store.WithNote | src/hooks/useDestinations.ts:91-99 | same length; the destinations with the id get the note in front of their notes; the others are unchanged |
| Store.WithoutNote | src/hooks/useDestinations.ts:113-121 | same length; only notes change, only for the named destination, and none with the note id remains there |
| Store.UpdateKeepsDestIds | src/hooks/useDestinations.ts:92-99 | editing notes never changes the destination ids or their order |
| Store.DeleteUndoesAdd | src/hooks/useDestinations.ts:52-69 | deleting a destination just added under a fresh id gives back the previous list |
| Store.AddDestinationKeepsUnique | src/hooks/useDestinations.ts:43-56 | a new note-less destination under a fresh id keeps destination and note ids unique |
| Store.WithoutDestinationMultiset | src/hooks/useDestinations.ts:67 | the delete keeps every copy of each other destination and no copy of a destination with the id |
| Store.WithoutDestinationNotes | src/hooks/useDestinations.ts:67 | the notes left after a destination delete are a subsequence of the notes before |
| Store.DeleteDestinationKeepsUnique | src/hooks/useDestinations.ts:64-70 | deleting a destination keeps all ids unique |
| Store.DeleteDestinationCascades | src/hooks/useDestinations.ts:64-70 | after the delete the id is gone and, with unique ids, no note of that destination remains anywhere |
| Store.AddNoteToMissingDestination | src/hooks/useDestinations.ts:92-99 | adding a note for an id no destination has leaves the list unchanged |
| Store.AddNoteIds | src/hooks/useDestinations.ts:91-99 | after adding a note every note id is an old one or the new one |
| Store.AddNoteCount | src/hooks/useDestinations.ts:91-99 | with distinct destination ids the data set gains exactly one note if the destination exists, none otherwise |
| Store.AddNoteKeepsUnique | src/hooks/useDestinations.ts:83-99 | with unique ids and a fresh note id, adding a note keeps all ids unique |
| Store.HeadNoteIds | src/hooks/useDestinations.ts:96 | adding to the first destination, whose id occurs nowhere else, puts the new note id in front of all note ids |
| Store.DeleteNoteUndoesAddNote | src/hooks/useDestinations.ts:91-121 | deleting a note just added under a fresh id gives back the previous data set |
| Store.DeleteMissingNote | src/hooks/useDestinations.ts:114-121 | deleting a note id the destination does not hold changes nothing |
| Store.DeleteNoteEffect | src/hooks/useDestinations.ts:114-121 | same length and ids; other destinations untouched; the named one keeps, in order, exactly its notes with another id, each with all its copies |
| Store.WithoutNoteNotes | src/hooks/useDestinations.ts:118 | the notes left after a note delete are a subsequence of the notes before |
| Store.DeleteNoteKeepsUnique | src/hooks/useDestinations.ts:111-124 | deleting a note keeps all ids unique |
| Store.DestinationStore.constructor | src/hooks/useDestinations.ts:7-8 | the hook starts with an empty list, loading, over the given storage |
| Store.DestinationStore.LoadDestinations | src/hooks/useDestinations.ts:14-26 | a stored list under the key is adopted and matches storage; without one the list is kept; loading ends either way |
| Store.DestinationStore.SaveDestinations | src/hooks/useDestinations.ts:28-34 | storage is overwritten under the one key and nowhere else |
| Store.DestinationStore.AddDestination | src/hooks/useDestinations.ts:36-62 | the new destination, with no notes, goes in front; storage is rewritten to match; unique ids stay unique for a fresh id |
| Store.DestinationStore.DeleteDestination | src/hooks/useDestinations.ts:64-74 | the list becomes the filtered list; storage matches; unique ids stay unique |
| Store.DestinationStore.AddNote | src/hooks/useDestinations.ts:76-109 | the returned note is built with the defaults and prepended to the named destination's notes; storage matches; unique ids stay unique for a fresh id |
| Store.DestinationStore.DeleteNote | src/hooks/useDestinations.ts:111-128 | the named destination loses the notes with that id; storage matches; unique ids stay unique |
| Store.ReloadSeesLatestWrite | src/hooks/useDestinations.ts:14-56 | after adding a destination, a fresh hook over the storage loads exactly the new list, the new destination first |
| Tally.FirstOccurrences | src/lib/geo.ts:38 | the keys of a Map, each listed, and nothing else |
| Tally.FirstOccurrencesDistinct | src/lib/geo.ts:38 | a Map lists each key once |
| Tally.FirstOccurrencesLength | src/lib/geo.ts:38 | a Map holds no more keys than were set |
| Tally.FirstOccurrencesOrder | src/lib/geo.ts:38 | a Map lists its keys in the order they were first set |
| Tally.TotalsShape | src/lib/geo.ts:32-38 | the entries list each key of the history once, in first-occurrence order, with its total weight |
| Tally.SumTotals | src/lib/geo.ts:32-38 | counting loses and invents no weight: the entries sum to the weights added |
| Tally.UnitWeights | src/lib/geo.ts:36 | with every step adding 1, a key's total is the number of times it was counted |
| Tally.Pairs | src/lib/geo.ts:38 | the entries pair each key, in key order, with its stored value |
| Tally.CountStep | src/lib/geo.ts:36 | one step setting k to its old value (or 0) plus w keeps the Map's order and values in line with the history plus that step |
| Tally.Counter.constructor | src/lib/geo.ts:32 | a new Map is empty and has counted nothing |
| Tally.Counter.Add | src/lib/geo.ts:36 | the value under the key grows by the weight; a new key goes last, a known key keeps its place |
| Tally.Counter.Entries | src/lib/geo.ts:38 | `Array.from(map.entries())` is the totals of everything counted so far |
| Geo.PathLength | src/lib/geo.ts:18-28 | 0 for fewer than two destinations; the one leg for two |
| Geo.PathLengthAppend | src/lib/geo.ts:21-26 | one more destination adds exactly the leg from the previous last one |
| Geo.PathLengthNonNegative | src/lib/geo.ts:18-28 | with no negative leg the route length is not negative |
| Geo.TotalDistanceKm | src/lib/geo.ts:18-28 | the loop's sum is the route length over consecutive pairs, and 0 for fewer than two destinations |
| Geo.CountryKey | src/lib/geo.ts:34-35 | the country key is never empty |
| Geo.CountryKeyNoComma | src/lib/geo.ts:34-35 | a name without a comma is filed under its trimmed text, or "Unknown" |
| Geo.CountryKeyAfterLastComma | src/lib/geo.ts:34-35 | a name is filed under the trimmed text after its last comma, or "Unknown" |
| Geo.CountryKeyUnknown | src/lib/geo.ts:35 | an empty name or a trailing comma files the destination under "Unknown" |
| Geo.CountriesVisited | src/lib/geo.ts:30-40 | the breakdown is the counted per-country entries and the count is its length |
| Geo.Breakdown | src/lib/geo.ts:32-38 | no more entries than destinations |
| Geo.BreakdownCountries | src/lib/geo.ts:32-39 | each country of the list appears once and no other appears, in first-seen order |
| Geo.BreakdownCounts | src/lib/geo.ts:33-37 | each country's count is the number of destinations filed under it |
| Geo.BreakdownSum | src/lib/geo.ts:33-39 | the counts add up to the number of destinations |
| Geo.BreakdownOrder | src/lib/geo.ts:38 | a country first seen earlier comes earlier in the breakdown |
| Analytics.DayKey | src/components/AnalyticsPanel.tsx:29 | the day is the prefix of the timestamp of length min(10, length) |
| Analytics.SortByKey | src/components/AnalyticsPanel.tsx:34 | the sort by day keeps the length and is a permutation of the day totals; entries under distinct days come out strictly ascending by day |
| Analytics.SortSum | src/components/AnalyticsPanel.tsx:34 | sorting keeps the total score |
| Analytics.MoodWeights | src/components/AnalyticsPanel.tsx:30 | the count under a day is the tags on that day's notes |
| Analytics.MoodSum | src/components/AnalyticsPanel.tsx:30 | the counting steps add up to all tags of the notes |
| Analytics.MoodTimeline | src/components/AnalyticsPanel.tsx:25-36 | the nested loops yield the timeline: strictly ascending days, each scored with its notes' tags, summing to all tags |
| Analytics.Timeline | src/components/AnalyticsPanel.tsx:25-36 | no more points than notes |
| Analytics.TimelineAscending | src/components/AnalyticsPanel.tsx:33-35 | timeline days are strictly ascending, so each appears once |
| Analytics.TimelineScores | src/components/AnalyticsPanel.tsx:26-35 | each point's score is the number of tags on that day's notes |
| Analytics.TimelineDays | src/components/AnalyticsPanel.tsx:27-33 | a day is on the timeline iff some note of some destination has it, tags or not |
| Analytics.TimelineTotal | src/components/AnalyticsPanel.tsx:25-36 | the scores add up to the tags on all notes |
| Analytics.PieData | src/components/AnalyticsPanel.tsx:38-46 | three slices: Dream, Planning, Visited with their counts and colours |
| Analytics.CategoryCount | src/components/AnalyticsPanel.tsx:40 | no more than the destinations, and 0 when none has the category |
| Analytics.PieTotal | src/components/AnalyticsPanel.tsx:39-40 | the three category counts add up to the number of destinations |
| Text.Trim | src/components/Notebook.tsx:38 | the trimmed text is no longer and neither starts nor ends with white space |
| Text.TrimInfix | src/components/DestinationCard.tsx:44 | trim removes exactly a white-space prefix and a white-space suffix |
| Text.IsBlank | src/components/DestinationCard.tsx:44 | `!s.trim()` holds iff the leading white space runs to the end of the string |
| Text.BlankIffAllWhitespace | src/components/DestinationCard.tsx:44 | `!s.trim()` holds iff every character is white space |
| Text.TrimIdempotent | src/components/DestinationCard.tsx:45 | trimming twice is trimming once |
| Text.LowerIdempotent | src/components/Notebook.tsx:20 | lower-casing keeps the length, leaves no upper-case ASCII letter and is idempotent |
| Text.Lower | src/components/Notebook.tsx:20 | same length; each upper-case ASCII letter becomes its lower-case letter; every other character is kept |
| Text.Contains | src/components/Notebook.tsx:23 | a string includes only what is no longer than it, and includes each of its prefixes |
| Text.ContainsAt | src/components/Notebook.tsx:23 | `includes` holds exactly when the text is a prefix of some suffix of the string |
| Text.ContainsFirstChar | src/components/Notebook.tsx:23 | a string that includes a non-empty text holds that text's first character |
| Text.ContainsEmpty | src/components/Notebook.tsx:23 | every string includes the empty string |
| Text.Split | src/lib/geo.ts:34 | a split has at least one part and no part holds the separator |
| Text.Join | src/lib/geocoding.ts:28 | no parts join to ""; otherwise the text starts with the first part |
| Text.JoinSplit | src/lib/geo.ts:34 | joining split parts with the separator gives the string back |
| Text.LastPartIsSuffix | src/lib/geo.ts:34-35 | the last part is the text after the last separator |
| Text.LexLess | src/components/AnalyticsPanel.tsx:34 | string `<` is irreflexive, and a proper prefix comes first |
| Text.LexTransitive | src/components/AnalyticsPanel.tsx:34 | string `<` is transitive |
| Text.LexTotal | src/components/AnalyticsPanel.tsx:34 | two different strings are ordered one way or the other |
| Text.LexAsymmetric | src/components/AnalyticsPanel.tsx:34 | string `<` never holds both ways |
| Drafts.Toggle | src/components/DestinationCard.tsx:54-58 | the mood's membership flips and every other mood's membership is kept |
| Drafts.ToggleShape | src/components/DestinationCard.tsx:54-58 | a present mood is removed with every copy, the rest keep their order and their copies; an absent mood is appended |
| Drafts.ToggleTwice | src/components/DestinationCard.tsx:54-58 | toggling an absent mood twice restores the selection |
| Drafts.ToggleKeeps | src/components/DestinationCard.tsx:27 | a selection without repeats, drawn from the options, stays so |
| Drafts.TrimOrNull | src/components/DestinationCard.tsx:45 | the image is null iff the URL is blank, else the trimmed URL |
| Drafts.Draft | src/components/DestinationCard.tsx:44-45 | no call iff the content is blank; else the untrimmed content, the moods and the trimmed-or-null image |
| Drafts.DraftOfWhitespace | src/components/DestinationCard.tsx:44 | white-space-only content never makes a note |
| Drafts.DraftOfText | src/components/DestinationCard.tsx:44-45 | content with a visible character makes a note; a white-space image goes as null |
| Drafts.InitialSelection | src/components/Notebook.tsx:14 | the first destination's id unless there is none or it is empty |
| Notebook.FilterNotes | src/components/Notebook.tsx:19-25 | one destination per destination, with the same id and no more notes |
| Notebook.FilterNotesShape | src/components/Notebook.tsx:19-25 | the search keeps every destination in place; only notes shrink, in order; each note keeps all its copies if it matches and none otherwise |
| Notebook.FilterNotesMembers | src/components/Notebook.tsx:23 | a note survives iff its lower-cased content includes the lower-cased query |
| Notebook.EmptyQueryKeepsAll | src/components/Notebook.tsx:20-24 | an empty query shows every note |
| Notebook.QueryCaseInsensitive | src/components/Notebook.tsx:20 | the query's case does not matter |
| Notebook.FindDestination | src/components/Notebook.tsx:27 | null without a selection or a match; otherwise the first destination with that id |
| Notebook.FindFiltered | src/components/Notebook.tsx:19-27 | looking the selection up in `filtered` finds the filtered version of the destination the plain lookup finds |
| Notebook.NotesShownAsWritten | src/components/Notebook.tsx:124-125 | the notes listed are all notes of the selected destination, none without a selection |
| Notebook.QueryIgnoredAsWritten | src/components/Notebook.tsx:19-25 | as written, the notes listed do not depend on the query |
| Notebook.NonMatchingNoteShownAsWritten | src/components/Notebook.tsx:125 | a note "beach day" is listed under the query "zoo" although it does not contain it |
| Notebook.NotesShown | src/components/Notebook.tsx:19-25 | corrected list: a subsequence of the selected destination's notes, holding exactly those that contain the query, case-insensitively |
| Notebook.EmptyQueryShowsAll | src/components/Notebook.tsx:20-24 | with an empty query the corrected list is the list as written |
| Notebook.NotebookForm.constructor | src/components/Notebook.tsx:13-17 | empty query and form, the initial selection |
| Notebook.NotebookForm.Filtered | src/components/Notebook.tsx:19-25 | every destination, with the same id, and only notes that contain the current query |
| Notebook.NotebookForm.SelectedDestination | src/components/Notebook.tsx:27 | a destination of the list carrying the selected id, or null when nothing is selected or no destination has that id |
| Notebook.NotebookForm.ShownNotes | src/components/Notebook.tsx:122-125 | the notes listed (corrected) contain the query and come, in order, from the selected destination; none without one |
| Notebook.NotebookForm.SetQuery | src/components/Notebook.tsx:55 | only the query changes |
| Notebook.NotebookForm.SelectDestination | src/components/Notebook.tsx:67 | only the selection changes |
| Notebook.NotebookForm.SetContent | src/components/Notebook.tsx:93 | only the content changes |
| Notebook.NotebookForm.SetImageUrl | src/components/Notebook.tsx:102 | only the image URL changes |
| Notebook.NotebookForm.ToggleMood | src/components/Notebook.tsx:35 | only the moods change, by the toggle |
| Notebook.NotebookForm.Clear | src/components/Notebook.tsx:87 | content, image and moods are emptied; query and selection kept |
| Notebook.NotebookForm.HandleSave | src/components/Notebook.tsx:37-43 | nothing sent and nothing changed iff no destination is found or the content is blank; else the draft is sent and the form cleared |
| BookNotebook.Pages | src/components/BookNotebook.tsx:19-22 | one page per note of the data set |
| BookNotebook.PagesAreNotes | src/components/BookNotebook.tsx:19-22 | the pages are all notes of all destinations in order, one page each |
| BookNotebook.PageOwner | src/components/BookNotebook.tsx:20 | note k of destination i is the page after the earlier destinations' pages and carries that destination's name |
| BookNotebook.PrevIndex | src/components/BookNotebook.tsx:26 | `Math.max(0, i - 1)`: never negative, at least i - 1, and one of the two |
| BookNotebook.NextIndex | src/components/BookNotebook.tsx:27 | `Math.min(n - 1, i + 1)`: at most both, and one of the two |
| BookNotebook.IndexInRange | src/components/BookNotebook.tsx:26-27 | from an existing page both buttons land on an existing page at most one step away |
| BookNotebook.ButtonsMoveWhenEnabled | src/components/BookNotebook.tsx:46-48 | on an existing page a button moves the index iff it is not disabled |
| BookNotebook.PageCounter | src/components/BookNotebook.tsx:47 | 0 without pages, else the index plus one |
| BookNotebook.BookState.constructor | src/components/BookNotebook.tsx:13-17 | first page, empty form, the initial selection |
| BookNotebook.BookState.Prev | src/components/BookNotebook.tsx:26 | the index becomes max(0, i - 1) |
| BookNotebook.BookState.Next | src/components/BookNotebook.tsx:27 | the index becomes min(pages - 1, i + 1) |
| BookNotebook.BookState.SelectDestination | src/components/BookNotebook.tsx:75 | the selection becomes the picked id |
| BookNotebook.BookState.SetContent | src/components/BookNotebook.tsx:69 | the content becomes the typed text |
| BookNotebook.BookState.SetImageUrl | src/components/BookNotebook.tsx:81 | the image URL becomes the typed text |
| BookNotebook.BookState.ToggleMood | src/components/BookNotebook.tsx:84 | the moods change by the toggle |
| BookNotebook.BookState.Clear | src/components/BookNotebook.tsx:89 | content, image and moods are emptied |
| BookNotebook.BookState.Save | src/components/BookNotebook.tsx:29-33 | nothing sent and nothing changed iff the selection is null or empty or the content blank; else the draft is sent and the form cleared |
| DestinationCard.NoteForm.constructor | src/components/DestinationCard.tsx:37-41 | closed form, empty fields, rating 0 |
| DestinationCard.NoteForm.OpenForm | src/components/DestinationCard.tsx:287 | the form opens |
| DestinationCard.NoteForm.SetContent | src/components/DestinationCard.tsx:197 | the content becomes the typed text |
| DestinationCard.NoteForm.SetImageUrl | src/components/DestinationCard.tsx:209 | the image URL becomes the typed text |
| DestinationCard.NoteForm.SetRating | src/components/DestinationCard.tsx:219-223 | the rating becomes the star picked, 1 to 5, so it stays 0..5 |
| DestinationCard.NoteForm.ToggleMood | src/components/DestinationCard.tsx:54-58 | the moods change by the toggle |
| DestinationCard.NoteForm.SubmitNote | src/components/DestinationCard.tsx:43-52 | blank content sends nothing and changes nothing; else the draft, without the rating, is sent and all five cells reset |
| DestinationCard.NoteForm.Cancel | src/components/DestinationCard.tsx:267-271 | the form closes and content and moods empty; image URL and rating are kept |
| Geocoding.Or | src/lib/geocoding.ts:20-21 | JavaScript `or` on strings: truthy iff either operand is; the left operand when it is truthy, else the right operand as it is |
| Geocoding.Present | src/lib/geocoding.ts:23 | `filter(Boolean)` yields no empty value, no more values than given, and a value exactly when some given value is truthy and equal to it |
| Geocoding.PresentOne | src/lib/geocoding.ts:23 | one value is kept iff it is truthy |
| Geocoding.PresentConcat | src/lib/geocoding.ts:23 | the filter keeps order: filtering a concatenation concatenates the filtered parts |
| Geocoding.PresentOfThree | src/lib/geocoding.ts:23 | filtering city, state and country takes each in turn, in that order |
| Geocoding.Formatted | src/lib/geocoding.ts:23-28 | the label joins with ", " the truthy ones of city, state and country, in that order |
| Geocoding.ShapeAddress | src/lib/geocoding.ts:19-29 | city is one of city, town, village, hamlet; state is one of state, region, county; country is as given; the label is built from those three |
| Geocoding.ReverseGeocode | src/lib/geocoding.ts:8-34 | null iff the request threw, the status is not OK, or the body is not JSON or is null; a missing address is read as an empty record |
| Geocoding.CityFallback | src/lib/geocoding.ts:20 | city is the first truthy of city, town, village, else hamlet as it is; truthy iff one of the four is |
| Geocoding.StateFallback | src/lib/geocoding.ts:21-22 | state is the first truthy of state, region, else county as it is; country is taken as it is |
| Geocoding.FormattedEmpty | src/lib/geocoding.ts:23-28 | the label is empty iff none of city, state, country is truthy |
| Geocoding.FormattedAll | src/lib/geocoding.ts:23-28 | with all three truthy the label is "city, state, country" |
| Geocoding.FormattedSingle | src/lib/geocoding.ts:23-28 | with exactly one truthy value the label is that value |
| Geocoding.FormattedPair | src/lib/geocoding.ts:23-28 | with exactly two truthy values the label is those two joined by ", ", in city, state, country order |
| Geocoding.MissingAddress | src/lib/geocoding.ts:19-29 | an OK answer without an address gives an empty result, not null |

## Findings

| source | as written | input that shows it | evidently intended | confidence | as-written member | corrected member |
|---|---|---|---|---|---|---|
| src/components/Notebook.tsx:19-25, 64, 125 | `filtered` is computed from the query but never read: the sidebar maps `destinations` and the notes list maps `selectedDestination.notes`, so typing a query changes nothing on screen | a selected destination whose one note reads "beach day", with the query "zoo": the note is still listed | the notes list shows only the selected destination's notes that contain the query | high; not executed | Notebook.NotesShownAsWritten, Notebook.QueryIgnoredAsWritten, Notebook.NonMatchingNoteShownAsWritten | Notebook.NotesShown, Notebook.NotebookForm.ShownNotes |

## Left out

- The great-circle distance (`haversineKm`, `deg2rad`, src/lib/geo.ts:4-16) is floating-point trigonometry. The route length takes the distance function as a parameter.
- Coordinates and distances are `real`, not IEEE doubles, so rounding is not modelled.
- `JSON.stringify`/`JSON.parse` are taken as the identity, and a stored value is always a well-formed list. So the `catch` paths of the store (a corrupt entry, a full quota) are not modelled, and neither is a stored empty string, which the code treats as absent.
- Store.DestinationStore.AddDestination, Store.DestinationStore.AddNote: the `catch` branches that return null cannot be reached in the model, since id generation and the date are inputs.
- React's asynchronous state updates and re-renders are not modelled. Each hook call updates the list at once, and the forms read the current list passed in.
- A note's `mood_tags` is always a list. The `?.` guard for a missing list (src/components/AnalyticsPanel.tsx:30) is not modelled.
- Category values outside dream, visited and planning (src/components/AnalyticsPanel.tsx:40) cannot arise in the model.
- Text.LowerChar: `toLowerCase` is modelled on ASCII letters only; other scripts keep their case.
- Text.LexLess: string `<` compares code points, not UTF-16 code units. The two orders differ only for characters beyond the Basic Multilingual Plane.
- Analytics.DayKey: `slice(0, 10)` counts UTF-16 code units, the model counts characters. ISO timestamps hold only ASCII, where the two agree.
- Analytics.SortByKey: the sort is an insertion sort, not the engine's algorithm. The days being sorted are distinct, so every correct sort gives the same result.
- Geocoding.ReverseGeocode: building the request URL, the `fetch` itself and the logging are inputs or omitted. Only address fields that are strings or missing are modelled; a body whose address fields hold some other JSON value is not. A truthy `address` that is not an object reads as an empty record, which the model covers as an empty address.
- BookNotebook.BookState.Next: the disabled state of the buttons is stated as a lemma (BookNotebook.ButtonsMoveWhenEnabled) rather than as a precondition, because the handler itself does not check it.
- Rendering, animation, themes, the map, charts, audio, the App shell, the destination modal and the remote database client are presentation or external.
