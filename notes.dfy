/** The values the two components exchange: notes as the REST API returns
    them, and the three views of the note collection. */
module Notes {

  datatype Option<T> = None | Some(value: T)

  /** A note as a JSON object. `id` is the server-assigned `_id`, absent on a
      draft that was never saved; `tags` may be absent on a note the server
      stored without them; an absent `isFavorite` or `isTrashed` reads as false,
      which is how JavaScript treats `undefined` in the tests made on them.
      `createdAt` stands for every field that the client passes through
      without looking at it. */
  datatype Note = Note(
    id: Option<string>,
    title: string,
    content: string,
    tags: Option<seq<string>>,
    isFavorite: bool,
    isTrashed: bool,
    createdAt: Option<string>)

  /** JavaScript truthiness of an optional string: present and non-empty. */
  predicate Truthy(s: Option<string>) {
    s.Some? && s.value != ""
  }

  /** `if (note._id)`: the note has been persisted. */
  predicate HasId(n: Note) {
    Truthy(n.id)
  }

  /** The active filter of the collection. */
  datatype View = All | Favorites | Trash
}
