/** The local destination store (src/hooks/useDestinations.ts): one in-memory list of
    destinations with their notes, written in full under one storage key after every change. */
module Store {
  import opened Types
  import opened Seqs

  /** The single key the whole list is stored under. */
  const StorageKey: string := "journey_map_data"

  function DestId(d: Destination): string { d.id }
  function NoteId(n: Note): string { n.id }

  /** Every note of the data set, destination by destination. */
  function AllNotes(ds: seq<Destination>): seq<Note> {
    if ds == [] then [] else ds[0].notes + AllNotes(ds[1..])
  }

  function DestIds(ds: seq<Destination>): seq<string> { MapSeq(ds, DestId) }
  function NoteIds(ds: seq<Destination>): seq<string> { MapSeq(AllNotes(ds), NoteId) }

  /** Destination ids are unique, and note ids are unique across the whole data set. */
  ghost predicate UniqueIds(ds: seq<Destination>) {
    Distinct(DestIds(ds)) && Distinct(NoteIds(ds))
  }

  /** The callbacks the store passes to filter and map. */
  function OtherDestination(id: string): Destination -> bool { (d: Destination) => d.id != id }
  function OtherNote(noteId: string): Note -> bool { (m: Note) => m.id != noteId }
  function PrependNote(n: Note): seq<Note> -> seq<Note> { (ns: seq<Note>) => [n] + ns }
  function DropNote(noteId: string): seq<Note> -> seq<Note> { (ns: seq<Note>) => Filter(ns, OtherNote(noteId)) }

  /** `prev.filter((d) => d.id !== id)`. */
  function WithoutDestination(ds: seq<Destination>, id: string): (r: seq<Destination>)
    ensures IsSubseq(r, ds)
    ensures forall d | d in r :: d in ds && d.id != id
    ensures forall d | d in ds && d.id != id :: d in r
    ensures id !in DestIds(ds) ==> r == ds
  {
    if id !in DestIds(ds) then
      assert forall d | d in ds :: OtherDestination(id)(d) by {
        forall d | d in ds ensures OtherDestination(id)(d) { DestIdListed(ds, d); }
      }
      FilterKeepsAll(ds, OtherDestination(id));
      Filter(ds, OtherDestination(id))
    else Filter(ds, OtherDestination(id))
  }

  /** The delete keeps every copy of each other destination and drops every copy of the
      deleted one, so the result does not depend on ids being unique. */
  lemma WithoutDestinationMultiset(ds: seq<Destination>, id: string)
    ensures forall d :: multiset(WithoutDestination(ds, id))[d] == if d.id != id then multiset(ds)[d] else 0
  {
    FilterMultiset(ds, OtherDestination(id));
  }

  /** `prev.map((dest) => dest.id === id ? { ...dest, notes: f(dest.notes) } : dest)`:
      the destinations with that id get their notes replaced by f of them; every other
      destination, and the order, stay as they were. */
  function UpdateNotes(ds: seq<Destination>, id: string, f: seq<Note> -> seq<Note>): (r: seq<Destination>)
    ensures |r| == |ds|
    ensures forall i :: 0 <= i < |ds| ==>
      r[i] == if ds[i].id == id then ds[i].(notes := f(ds[i].notes)) else ds[i]
  {
    if ds == [] then []
    else [if ds[0].id == id then ds[0].(notes := f(ds[0].notes)) else ds[0]] + UpdateNotes(ds[1..], id, f)
  }

  /** addNote's update: the note goes in front of the notes of the destination(s) with that id. */
  function WithNote(ds: seq<Destination>, destId: string, n: Note): (r: seq<Destination>)
    ensures |r| == |ds|
    ensures forall i | 0 <= i < |ds| :: ds[i].id != destId ==> r[i] == ds[i]
    ensures forall i | 0 <= i < |ds| :: ds[i].id == destId ==> r[i] == ds[i].(notes := [n] + ds[i].notes)
  {
    UpdateNotes(ds, destId, PrependNote(n))
  }

  /** deleteNote's update: the notes with that id are dropped from the destination(s) with
      destId. */
  function WithoutNote(ds: seq<Destination>, destId: string, noteId: string): (r: seq<Destination>)
    ensures |r| == |ds|
    ensures forall i | 0 <= i < |ds| :: ds[i].id != destId ==> r[i] == ds[i]
    ensures forall i | 0 <= i < |ds| :: r[i].(notes := ds[i].notes) == ds[i]
    ensures forall i, m | 0 <= i < |ds| && ds[i].id == destId && m in r[i].notes :: m.id != noteId
  {
    UpdateNotes(ds, destId, DropNote(noteId))
  }

  /** The note addNote builds: an omitted mood list is [], an omitted image is null. */
  function NewNote(id: string, content: string, moodTags: Option<seq<string>>,
                   imageUrl: Option<Option<string>>, createdAt: string): (n: Note)
    ensures n.id == id && n.content == content && n.createdAt == createdAt
    ensures moodTags.None? ==> n.moodTags == []
    ensures moodTags.Some? ==> n.moodTags == moodTags.value
    ensures imageUrl.None? ==> n.imageUrl == None
    ensures imageUrl.Some? ==> n.imageUrl == imageUrl.value
  {
    Note(id, content,
         match imageUrl case None => None case Some(u) => u,
         match moodTags case None => [] case Some(t) => t,
         createdAt)
  }

  // ----- helper facts about ids and the flattened notes -----

  lemma DestIdListed(ds: seq<Destination>, d: Destination)
    requires d in ds
    ensures d.id in DestIds(ds)
  {
    var i :| 0 <= i < |ds| && ds[i] == d;
    assert DestIds(ds)[i] == d.id;
  }

  lemma {:induction false} NoteListed(ds: seq<Destination>, i: nat, n: Note)
    requires i < |ds| && n in ds[i].notes
    ensures n in AllNotes(ds) && n.id in NoteIds(ds)
  {
    if i > 0 {
      assert ds[1..][i - 1] == ds[i];
      NoteListed(ds[1..], i - 1, n);
    }
    assert n in AllNotes(ds);
    var k :| 0 <= k < |AllNotes(ds)| && AllNotes(ds)[k] == n;
    assert NoteIds(ds)[k] == n.id;
  }

  /** Flattening distributes over concatenation. */
  lemma {:induction false} AllNotesConcat(a: seq<Destination>, b: seq<Destination>)
    ensures AllNotes(a + b) == AllNotes(a) + AllNotes(b)
  {
    if a == [] {
      assert a + b == b;
    } else {
      assert (a + b)[0] == a[0] && (a + b)[1..] == a[1..] + b;
      AllNotesConcat(a[1..], b);
    }
  }

  /** The notes of a prefix one destination longer. */
  lemma AllNotesSnoc(ds: seq<Destination>, i: nat)
    requires i < |ds|
    ensures AllNotes(ds[..i + 1]) == AllNotes(ds[..i]) + ds[i].notes
  {
    assert ds[..i + 1] == ds[..i] + [ds[i]];
    AllNotesConcat(ds[..i], [ds[i]]);
    assert AllNotes([ds[i]]) == ds[i].notes + AllNotes([]);
  }

  lemma IdsSplit(ds: seq<Destination>)
    requires ds != []
    ensures DestIds(ds) == [ds[0].id] + DestIds(ds[1..])
    ensures NoteIds(ds) == MapSeq(ds[0].notes, NoteId) + NoteIds(ds[1..])
  {
    MapConcat([ds[0]], ds[1..], DestId);
    assert ds == [ds[0]] + ds[1..];
    MapConcat(ds[0].notes, AllNotes(ds[1..]), NoteId);
  }

  lemma UniqueTail(ds: seq<Destination>)
    requires ds != [] && UniqueIds(ds)
    ensures UniqueIds(ds[1..])
    ensures ds[0].id !in DestIds(ds[1..])
    ensures Distinct(MapSeq(ds[0].notes, NoteId))
    ensures forall x :: x in MapSeq(ds[0].notes, NoteId) ==> x !in NoteIds(ds[1..])
  {
    IdsSplit(ds);
    DistinctConcat([ds[0].id], DestIds(ds[1..]));
    DistinctConcat(MapSeq(ds[0].notes, NoteId), NoteIds(ds[1..]));
  }

  /** Updating notes never changes the destination ids or their order. */
  lemma UpdateKeepsDestIds(ds: seq<Destination>, id: string, f: seq<Note> -> seq<Note>)
    ensures DestIds(UpdateNotes(ds, id, f)) == DestIds(ds)
  {
  }

  // ----- properties of the store's list operations -----

  /** Deleting a destination just added, under a fresh id, gives back the list before. */
  lemma DeleteUndoesAdd(ds: seq<Destination>, d: Destination)
    requires d.id !in DestIds(ds)
    ensures WithoutDestination([d] + ds, d.id) == ds
  {
    FilterCons(d, ds, OtherDestination(d.id));
    assert !OtherDestination(d.id)(d);
    assert Filter([d] + ds, OtherDestination(d.id)) == Filter(ds, OtherDestination(d.id));
    assert Filter(ds, OtherDestination(d.id)) == WithoutDestination(ds, d.id);
    assert WithoutDestination(ds, d.id) == ds;
    assert WithoutDestination([d] + ds, d.id) == Filter([d] + ds, OtherDestination(d.id));
  }

  /** A new destination, with no notes, under a fresh id keeps every id unique. */
  lemma AddDestinationKeepsUnique(ds: seq<Destination>, d: Destination)
    requires UniqueIds(ds) && d.id !in DestIds(ds) && d.notes == []
    ensures UniqueIds([d] + ds)
  {
    var s := [d] + ds;
    assert s[0] == d && s[1..] == ds;
    IdsSplit(s);
    assert MapSeq(d.notes, NoteId) == [];
    assert NoteIds(s) == NoteIds(ds);
    DistinctConcat([d.id], DestIds(ds));
  }

  /** The notes left after deleting destinations are a subsequence of the notes before. */
  lemma {:induction false} WithoutDestinationNotes(ds: seq<Destination>, id: string)
    ensures IsSubseq(AllNotes(WithoutDestination(ds, id)), AllNotes(ds))
  {
    var keep := OtherDestination(id);
    if ds == [] {
      SubseqEmpty(AllNotes(ds));
    } else {
      WithoutDestinationNotes(ds[1..], id);
      var rest := WithoutDestination(ds[1..], id);
      assert rest == Filter(ds[1..], keep);
      if keep(ds[0]) {
        assert WithoutDestination(ds, id) == [ds[0]] + rest;
        assert ([ds[0]] + rest)[1..] == rest;
        SubseqRefl(ds[0].notes);
        SubseqConcat(ds[0].notes, ds[0].notes, AllNotes(rest), AllNotes(ds[1..]));
      } else {
        assert WithoutDestination(ds, id) == rest;
        SubseqDropFront(AllNotes(rest), AllNotes(ds[1..]), ds[0].notes);
      }
    }
  }

  /** Deleting a destination keeps every id unique. */
  lemma DeleteDestinationKeepsUnique(ds: seq<Destination>, id: string)
    requires UniqueIds(ds)
    ensures UniqueIds(WithoutDestination(ds, id))
  {
    var r := WithoutDestination(ds, id);
    SubseqMap(r, ds, DestId);
    SubseqDistinct(DestIds(r), DestIds(ds));
    WithoutDestinationNotes(ds, id);
    SubseqMap(AllNotes(r), AllNotes(ds), NoteId);
    SubseqDistinct(NoteIds(r), NoteIds(ds));
  }

  /** A note of the first destination, when that destination is the one deleted. */
  lemma CascadeFirst(ds: seq<Destination>, id: string, n: Note)
    requires ds != [] && UniqueIds(ds) && ds[0].id == id && n in ds[0].notes
    ensures n.id !in NoteIds(WithoutDestination(ds, id))
  {
    UniqueTail(ds);
    var rest := WithoutDestination(ds[1..], id);
    assert WithoutDestination(ds, id) == rest;
    WithoutDestinationNotes(ds[1..], id);
    SubseqMap(AllNotes(rest), AllNotes(ds[1..]), NoteId);
    SubseqMembers(NoteIds(rest), NoteIds(ds[1..]));
    var j :| 0 <= j < |ds[0].notes| && ds[0].notes[j] == n;
    assert MapSeq(ds[0].notes, NoteId)[j] == n.id;
  }

  /** A note of a later destination that is deleted, once the rest is known to lose it. */
  lemma CascadeLater(ds: seq<Destination>, id: string, i: nat, n: Note)
    requires 0 < i < |ds| && UniqueIds(ds) && ds[i].id == id && n in ds[i].notes
    requires n.id !in NoteIds(WithoutDestination(ds[1..], id))
    ensures n.id !in NoteIds(WithoutDestination(ds, id))
  {
    UniqueTail(ds);
    var rest := WithoutDestination(ds[1..], id);
    assert ds[1..][i - 1] == ds[i];
    assert ds[0].id != id by {
      DestIdListed(ds[1..], ds[i]);
    }
    var r := WithoutDestination(ds, id);
    assert r == [ds[0]] + rest;
    assert ([ds[0]] + rest)[1..] == rest;
    IdsSplit(r);
    NoteListed(ds[1..], i - 1, n);
  }

  /** Deleting a destination deletes its notes: with unique ids, no note of a destination
      with that id is left anywhere in the data set. */
  lemma {:induction false} DeleteDestinationCascades(ds: seq<Destination>, id: string)
    requires UniqueIds(ds)
    ensures id !in DestIds(WithoutDestination(ds, id))
    ensures forall i, n | 0 <= i < |ds| && ds[i].id == id && n in ds[i].notes ::
      n.id !in NoteIds(WithoutDestination(ds, id))
  {
    var r := WithoutDestination(ds, id);
    forall k | 0 <= k < |r| ensures DestIds(r)[k] != id {
      assert r[k] in r;
    }
    if ds != [] {
      UniqueTail(ds);
      DeleteDestinationCascades(ds[1..], id);
      forall i, n | 0 <= i < |ds| && ds[i].id == id && n in ds[i].notes
        ensures n.id !in NoteIds(r)
      {
        if i == 0 {
          CascadeFirst(ds, id, n);
        } else {
          assert ds[1..][i - 1] == ds[i];
          CascadeLater(ds, id, i, n);
        }
      }
    }
  }

  /** Adding a note for an id no destination has changes nothing. */
  lemma {:induction false} AddNoteToMissingDestination(ds: seq<Destination>, destId: string, n: Note)
    requires destId !in DestIds(ds)
    ensures WithNote(ds, destId, n) == ds
  {
    forall i | 0 <= i < |ds| ensures ds[i].id != destId {
      assert DestIds(ds)[i] == ds[i].id;
    }
  }

  /** The ids in the data set after adding a note are those before, plus the new one. */
  lemma {:induction false} AddNoteIds(ds: seq<Destination>, destId: string, n: Note)
    ensures forall x | x in NoteIds(WithNote(ds, destId, n)) :: x in NoteIds(ds) || x == n.id
  {
    if ds != [] {
      var r := WithNote(ds, destId, n);
      AddNoteIds(ds[1..], destId, n);
      assert r[1..] == WithNote(ds[1..], destId, n);
      IdsSplit(r);
      IdsSplit(ds);
      if ds[0].id == destId {
        MapConcat([n], ds[0].notes, NoteId);
      }
    }
  }

  lemma WithNoteCons(ds: seq<Destination>, destId: string, n: Note)
    requires ds != []
    ensures WithNote(ds, destId, n)[1..] == WithNote(ds[1..], destId, n)
    ensures WithNote(ds, destId, n)[0].notes == if ds[0].id == destId then [n] + ds[0].notes else ds[0].notes
  {
  }

  /** With distinct destination ids, adding a note adds exactly one note to the data set
      when some destination has the id, and none otherwise. */
  lemma {:induction false} AddNoteCount(ds: seq<Destination>, destId: string, n: Note)
    requires Distinct(DestIds(ds))
    ensures |AllNotes(WithNote(ds, destId, n))| == |AllNotes(ds)| + (if destId in DestIds(ds) then 1 else 0)
  {
    if ds != [] {
      var r := WithNote(ds, destId, n);
      WithNoteCons(ds, destId, n);
      IdsSplit(ds);
      DistinctConcat([ds[0].id], DestIds(ds[1..]));
      if ds[0].id == destId {
        AddNoteToMissingDestination(ds[1..], destId, n);
      } else {
        AddNoteCount(ds[1..], destId, n);
      }
    }
  }

  /** With unique ids and a fresh note id, adding a note keeps every id unique. */
  lemma {:induction false} AddNoteKeepsUnique(ds: seq<Destination>, destId: string, n: Note)
    requires UniqueIds(ds) && n.id !in NoteIds(ds)
    ensures UniqueIds(WithNote(ds, destId, n))
  {
    UpdateKeepsDestIds(ds, destId, PrependNote(n));
    if ds != [] {
      if ds[0].id == destId {
        AddNoteAtHead(ds, destId, n);
      } else {
        IdsSplit(ds);
        UniqueTail(ds);
        AddNoteKeepsUnique(ds[1..], destId, n);
        AddNoteBehindHead(ds, destId, n);
      }
    }
  }

  lemma {:induction false} AddNoteAtHead(ds: seq<Destination>, destId: string, n: Note)
    requires UniqueIds(ds) && n.id !in NoteIds(ds)
    requires ds != [] && ds[0].id == destId
    ensures Distinct(NoteIds(WithNote(ds, destId, n)))
  {
    UniqueTail(ds);
    HeadNoteIds(ds, destId, n);
    DistinctConcat([n.id], NoteIds(ds));
  }

  /** Adding to the first destination, whose id occurs nowhere else, puts the new id in front. */
  lemma {:induction false} HeadNoteIds(ds: seq<Destination>, destId: string, n: Note)
    requires ds != [] && ds[0].id == destId && destId !in DestIds(ds[1..])
    ensures NoteIds(WithNote(ds, destId, n)) == [n.id] + NoteIds(ds)
  {
    var r := WithNote(ds, destId, n);
    WithNoteCons(ds, destId, n);
    AddNoteToMissingDestination(ds[1..], destId, n);
    var rest := AllNotes(ds[1..]);
    assert AllNotes(r) == r[0].notes + AllNotes(r[1..]);
    assert AllNotes(r) == ([n] + ds[0].notes) + rest;
    assert AllNotes(ds) == ds[0].notes + rest;
    assert AllNotes(r) == [n] + AllNotes(ds);
    MapConcat([n], AllNotes(ds), NoteId);
  }

  lemma {:induction false} AddNoteBehindHead(ds: seq<Destination>, destId: string, n: Note)
    requires UniqueIds(ds) && n.id !in NoteIds(ds)
    requires ds != [] && ds[0].id != destId
    requires Distinct(NoteIds(WithNote(ds[1..], destId, n)))
    ensures Distinct(NoteIds(WithNote(ds, destId, n)))
  {
    var r := WithNote(ds, destId, n);
    UniqueTail(ds);
    IdsSplit(ds);
    IdsSplit(r);
    WithNoteCons(ds, destId, n);
    var front := MapSeq(ds[0].notes, NoteId);
    var tail := WithNote(ds[1..], destId, n);
    AddNoteIds(ds[1..], destId, n);
    assert n.id !in front;
    assert NoteIds(r) == front + NoteIds(tail);
    DistinctConcat(front, NoteIds(tail));
  }

  /** Deleting a note just added, under a fresh id, gives back the data set before. */
  lemma {:induction false} DeleteNoteUndoesAddNote(ds: seq<Destination>, destId: string, n: Note)
    requires n.id !in NoteIds(ds)
    ensures WithoutNote(WithNote(ds, destId, n), destId, n.id) == ds
  {
    var r := WithoutNote(WithNote(ds, destId, n), destId, n.id);
    var drop := OtherNote(n.id);
    forall i | 0 <= i < |ds| ensures r[i] == ds[i] {
      if ds[i].id == destId {
        forall m | m in ds[i].notes ensures drop(m) {
          NoteListed(ds, i, m);
        }
        FilterKeepsAll(ds[i].notes, drop);
        assert ([n] + ds[i].notes)[1..] == ds[i].notes;
        assert Filter([n] + ds[i].notes, drop) == ds[i].notes;
      }
    }
  }

  /** Deleting a note the destination does not hold changes nothing. */
  lemma DeleteMissingNote(ds: seq<Destination>, destId: string, noteId: string)
    requires forall i, m | 0 <= i < |ds| && ds[i].id == destId && m in ds[i].notes :: m.id != noteId
    ensures WithoutNote(ds, destId, noteId) == ds
  {
    var r := WithoutNote(ds, destId, noteId);
    forall i | 0 <= i < |ds| ensures r[i] == ds[i] {
      if ds[i].id == destId {
        FilterKeepsAll(ds[i].notes, OtherNote(noteId));
      }
    }
  }

  /** deleteNote only shrinks the named destination's notes, keeping their order, and drops
      every note with that id from it; every other destination is untouched. */
  lemma DeleteNoteEffect(ds: seq<Destination>, destId: string, noteId: string)
    ensures |WithoutNote(ds, destId, noteId)| == |ds|
    ensures DestIds(WithoutNote(ds, destId, noteId)) == DestIds(ds)
    ensures forall i | 0 <= i < |ds| && ds[i].id != destId :: WithoutNote(ds, destId, noteId)[i] == ds[i]
    ensures forall i | 0 <= i < |ds| && ds[i].id == destId ::
      var r := WithoutNote(ds, destId, noteId)[i];
      && r.(notes := ds[i].notes) == ds[i]
      && IsSubseq(r.notes, ds[i].notes)
      && (forall m | m in r.notes :: m.id != noteId)
      && (forall m | m in ds[i].notes && m.id != noteId :: m in r.notes)
    ensures forall i, m | 0 <= i < |ds| && ds[i].id == destId ::
      multiset(WithoutNote(ds, destId, noteId)[i].notes)[m] == (if m.id != noteId then multiset(ds[i].notes)[m] else 0)
  {
    UpdateKeepsDestIds(ds, destId, DropNote(noteId));
    forall i | 0 <= i < |ds| && ds[i].id == destId {
      FilterMultiset(ds[i].notes, OtherNote(noteId));
    }
  }

  /** The notes left after deleting a note are a subsequence of the notes before. */
  lemma {:induction false} WithoutNoteNotes(ds: seq<Destination>, destId: string, noteId: string)
    ensures IsSubseq(AllNotes(WithoutNote(ds, destId, noteId)), AllNotes(ds))
  {
    var r := WithoutNote(ds, destId, noteId);
    if ds == [] {
      SubseqEmpty(AllNotes(ds));
    } else {
      WithoutNoteNotes(ds[1..], destId, noteId);
      assert r[1..] == WithoutNote(ds[1..], destId, noteId);
      if ds[0].id == destId {
        assert IsSubseq(r[0].notes, ds[0].notes);
      } else {
        SubseqRefl(ds[0].notes);
      }
      SubseqConcat(r[0].notes, ds[0].notes, AllNotes(r[1..]), AllNotes(ds[1..]));
    }
  }

  /** Deleting a note keeps every id unique. */
  lemma DeleteNoteKeepsUnique(ds: seq<Destination>, destId: string, noteId: string)
    requires UniqueIds(ds)
    ensures UniqueIds(WithoutNote(ds, destId, noteId))
  {
    var r := WithoutNote(ds, destId, noteId);
    UpdateKeepsDestIds(ds, destId, DropNote(noteId));
    WithoutNoteNotes(ds, destId, noteId);
    SubseqMap(AllNotes(r), AllNotes(ds), NoteId);
    SubseqDistinct(NoteIds(r), NoteIds(ds));
  }

  /** The state held by useDestinations: the list, the loading flag, and the browser's
      storage (serialisation is the identity). */
  class DestinationStore {
    var destinations: seq<Destination>
    var loading: bool
    var storage: map<string, seq<Destination>>

    /** The storage holds exactly the in-memory list. */
    ghost predicate Synced()
      reads this
    {
      StorageKey in storage && storage[StorageKey] == destinations
    }

    /** The hook's initial state: an empty list, still loading. */
    constructor (stored: map<string, seq<Destination>>)
      ensures destinations == [] && loading && storage == stored
    {
      destinations := [];
      loading := true;
      storage := stored;
    }

    /** loadDestinations: take the stored list if there is one; loading ends either way. */
    method LoadDestinations()
      modifies this
      ensures !loading && storage == old(storage)
      ensures StorageKey in storage ==> destinations == storage[StorageKey] && Synced()
      ensures StorageKey !in storage ==> destinations == old(destinations)
    {
      if StorageKey in storage {
        destinations := storage[StorageKey];
      }
      loading := false;
    }

    /** saveDestinations: overwrite the one key with the given list. */
    method SaveDestinations(dests: seq<Destination>)
      modifies this`storage
      ensures storage == old(storage)[StorageKey := dests]
    {
      storage := storage[StorageKey := dests];
    }

    /** addDestination: the new destination, with no notes, goes in front. */
    method AddDestination(id: string, name: string, latitude: real, longitude: real, category: Category)
      returns (d: Destination)
      modifies this
      ensures d == Destination(id, name, latitude, longitude, category, [])
      ensures destinations == [d] + old(destinations)
      ensures storage == old(storage)[StorageKey := destinations] && Synced()
      ensures loading == old(loading)
      ensures old(UniqueIds(destinations)) && id !in old(DestIds(destinations)) ==> UniqueIds(destinations)
    {
      d := Destination(id, name, latitude, longitude, category, []);
      if UniqueIds(destinations) && id !in DestIds(destinations) {
        AddDestinationKeepsUnique(destinations, d);
      }
      destinations := [d] + destinations;
      SaveDestinations(destinations);
    }

    /** deleteDestination: every destination with that id, and so its notes, goes. */
    method DeleteDestination(id: string)
      modifies this
      ensures destinations == WithoutDestination(old(destinations), id)
      ensures storage == old(storage)[StorageKey := destinations] && Synced()
      ensures loading == old(loading)
      ensures old(UniqueIds(destinations)) ==> UniqueIds(destinations)
    {
      if UniqueIds(destinations) {
        DeleteDestinationKeepsUnique(destinations, id);
      }
      destinations := WithoutDestination(destinations, id);
      SaveDestinations(destinations);
    }

    /** addNote: build the note (defaults for omitted arguments) and put it in front of
        the matching destination's notes; the note is returned even when none matches. */
    method AddNote(destinationId: string, id: string, content: string,
                   moodTags: Option<seq<string>>, imageUrl: Option<Option<string>>, createdAt: string)
      returns (n: Note)
      modifies this
      ensures n == NewNote(id, content, moodTags, imageUrl, createdAt)
      ensures destinations == WithNote(old(destinations), destinationId, n)
      ensures storage == old(storage)[StorageKey := destinations] && Synced()
      ensures loading == old(loading)
      ensures old(UniqueIds(destinations)) && id !in old(NoteIds(destinations)) ==> UniqueIds(destinations)
    {
      n := NewNote(id, content, moodTags, imageUrl, createdAt);
      if UniqueIds(destinations) && id !in NoteIds(destinations) {
        AddNoteKeepsUnique(destinations, destinationId, n);
      }
      destinations := WithNote(destinations, destinationId, n);
      SaveDestinations(destinations);
    }

    /** deleteNote: drop the notes with that id from the named destination. */
    method DeleteNote(destinationId: string, noteId: string)
      modifies this
      ensures destinations == WithoutNote(old(destinations), destinationId, noteId)
      ensures storage == old(storage)[StorageKey := destinations] && Synced()
      ensures loading == old(loading)
      ensures old(UniqueIds(destinations)) ==> UniqueIds(destinations)
    {
      if UniqueIds(destinations) {
        DeleteNoteKeepsUnique(destinations, destinationId, noteId);
      }
      destinations := WithoutNote(destinations, destinationId, noteId);
      SaveDestinations(destinations);
    }
  }

  /** What the store promises across a reload: whatever a mutation wrote is what a fresh
      hook over the same storage loads. */
  method ReloadSeesLatestWrite(s: DestinationStore, id: string, name: string, latitude: real,
                               longitude: real, category: Category)
    returns (d: Destination, reloaded: DestinationStore)
    modifies s
    ensures fresh(reloaded) && !reloaded.loading
    ensures reloaded.destinations == s.destinations == [d] + old(s.destinations)
  {
    d := s.AddDestination(id, name, latitude, longitude, category);
    reloaded := new DestinationStore(s.storage);
    reloaded.LoadDestinations();
  }
}
