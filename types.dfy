/** The journal's entities: a destination owns its notes, newest first. */
module Types {

  /** `T | null` in the TypeScript types. */
  datatype Option<+T> = None | Some(value: T)

  datatype Category = Dream | Visited | Planning

  datatype Note = Note(
    id: string,
    content: string,
    imageUrl: Option<string>,
    moodTags: seq<string>,
    createdAt: string)

  /** Coordinates are carried as given; nothing in the model computes with them. */
  datatype Destination = Destination(
    id: string,
    name: string,
    latitude: real,
    longitude: real,
    category: Category,
    notes: seq<Note>)
}
