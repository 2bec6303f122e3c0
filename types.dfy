/** The records the note store keeps (src/types.ts) and the shapes of the
    handlers' requests and replies. Timestamps are plain integers (milliseconds,
    as `Date.getTime()` gives them). */
module Types {
  import opened Wrappers

  datatype Tag = Tag(id: int, name: string)

  /** `tags` is a snapshot of the tag records taken when the note was written. */
  datatype Note = Note(id: int, title: string, content: string, tags: seq<Tag>, createdAt: int)

  datatype Comment = Comment(id: int, noteId: int, text: string, author: string, createdAt: int, likes: int)

  /** The body of PATCH /notes/:id: every field may be left out. */
  datatype NotePatch = NotePatch(title: Option<string>, content: Option<string>, tagIds: Option<seq<int>>)

  /** The body of POST /tags, which that handler sends back as its reply. */
  datatype TagBody = TagBody(name: string)

  /** What a handler replies. `Ok` is a 200 reply with a payload, `Created` a 201
      one; `NotFound` (404) and `BadRequest` (400) carry the message sent; `Info`
      is a 200 reply whose body is only a message. */
  datatype Reply<T> =
    | Ok(value: T)
    | Created(value: T)
    | NotFound(message: string)
    | BadRequest(message: string)
    | Info(message: string)

  const NOTE_NOT_FOUND := "Note not found"
  const COMMENT_NOT_FOUND := "Comment not found"
  const NOT_FOUND := "Not found"
  const NO_COMMENTS := "No comments"
  const Q_REQUIRED := "Query parameter q is required"
  const TAGS_REQUIRED := "Query parameter required"
  const BY_REQUIRED := "Query parameter required 'by'"
}
