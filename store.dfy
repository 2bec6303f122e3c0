/** The note store of src/route.ts: the three module-level arrays `tags`, `notes`
    and `comments`, and one method per request handler. Handlers that change the
    arrays (push, splice, field assignment) change the fields here; the others
    only read them. */
module NoteStore {
  import opened Wrappers
  import opened Types
  import opened Seqs
  import opened Queries

  class Store {
    var tags: seq<Tag>
    var notes: seq<Note>
    var comments: seq<Comment>

    /** Tags are only ever appended with id = length + 1, so a tag's id is its
        position plus one, and tag ids are unique; hence a note, whose tags are
        resolved from the tag list, never carries two tags with the same id.
        Likes never go below zero. Note and comment ids, in contrast, may
        repeat once something was deleted. */
    ghost predicate Valid()
      reads this
    {
      && (forall i :: 0 <= i < |tags| ==> tags[i].id == i + 1)
      && (forall k :: 0 <= k < |notes| ==> DistinctTagIds(notes[k].tags))
      && (forall j :: 0 <= j < |comments| ==> comments[j].likes >= 0)
    }


    /** The seed data: three tags, two notes, no comments; `now` stands for `new Date()`. */
    constructor (now: int)
      ensures Valid()
      ensures tags == [Tag(1, "work"), Tag(2, "personal"), Tag(3, "urgent")]
      ensures notes == [Note(1, "Finish report", "Complete report by Friday", ResolveTags(tags, [1, 3]), now),
                        Note(2, "Buy groceries", "Milk, bread, eggs", ResolveTags(tags, [2]), now)]
      ensures comments == []
    {
      var work, personal, urgent := Tag(1, "work"), Tag(2, "personal"), Tag(3, "urgent");
      tags := [work, personal, urgent];
      notes := [Note(1, "Finish report", "Complete report by Friday", [work, urgent], now),
                Note(2, "Buy groceries", "Milk, bread, eggs", [personal], now)];
      comments := [];
      new;
      SeedTagsResolve(work, personal, urgent);
    }

    /** GET /notes. */
    method ListNotes() returns (r: Reply<seq<Note>>)
      ensures r == Ok(notes)
    {
      r := Ok(notes);
    }

    /** GET /notes/:id: the first note with that id, or 404. */
    method GetNote(id: int) returns (r: Reply<Note>)
      ensures NoteIndex(notes, id).None? ==> r == NotFound(NOTE_NOT_FOUND)
      ensures NoteIndex(notes, id).Some? ==> r == Ok(notes[NoteIndex(notes, id).value])
    {
      match NoteIndex(notes, id)
      case None => r := NotFound(NOTE_NOT_FOUND);
      case Some(i) => r := Ok(notes[i]);
    }

    /** POST /notes: appends a note with id = number of notes + 1 and the resolved tags. */
    method CreateNote(title: string, content: string, tagIds: seq<int>, now: int) returns (r: Reply<Note>)
      requires Valid()
      modifies this
      ensures Valid()
      ensures tags == old(tags) && comments == old(comments)
      ensures notes == old(notes) + [Note(|old(notes)| + 1, title, content, ResolveTags(tags, tagIds), now)]
      ensures r == Created(notes[|notes| - 1])
    {
      var note := Note(|notes| + 1, title, content, ResolveTags(tags, tagIds), now);
      ResolveTagsOnePerId(tags, tagIds);
      notes := notes + [note];
      r := Created(note);
    }

    /** PATCH /notes/:id: 404 with nothing changed, or the first note with that id
        gets the supplied fields and is sent back; every other note is untouched. */
    method PatchNote(id: int, patch: NotePatch) returns (r: Reply<Note>)
      requires Valid()
      modifies this
      ensures Valid()
      ensures tags == old(tags) && comments == old(comments)
      ensures NoteIndex(old(notes), id).None? ==> r == NotFound(NOTE_NOT_FOUND) && notes == old(notes)
      ensures NoteIndex(old(notes), id).Some? ==>
        var i := NoteIndex(old(notes), id).value;
        && notes == old(notes)[i := ApplyPatch(old(notes)[i], patch, tags)]
        && r == Ok(notes[i])
    {
      match NoteIndex(notes, id)
      case None => r := NotFound(NOTE_NOT_FOUND);
      case Some(i) =>
        var patched := ApplyPatch(notes[i], patch, tags);
        if patch.tagIds.Some? {
          ResolveTagsOnePerId(tags, patch.tagIds.value);
        }
        notes := notes[i := patched];
        r := Ok(patched);
    }

    /** DELETE /notes/:id: 404 with nothing changed, or the first note with that id
        is spliced out and sent back as a one-element array. */
    method DeleteNote(id: int) returns (r: Reply<seq<Note>>)
      requires Valid()
      modifies this
      ensures Valid()
      ensures tags == old(tags) && comments == old(comments)
      ensures NoteIndex(old(notes), id).None? ==> r == NotFound(NOTE_NOT_FOUND) && notes == old(notes)
      ensures NoteIndex(old(notes), id).Some? ==>
        var i := NoteIndex(old(notes), id).value;
        r == Ok([old(notes)[i]]) && notes == RemoveAt(old(notes), i)
    {
      match NoteIndex(notes, id)
      case None => r := NotFound(NOTE_NOT_FOUND);
      case Some(i) =>
        r := Ok([notes[i]]);
        notes := RemoveAt(notes, i);
    }

    /** GET /tags. */
    method ListTags() returns (r: Reply<seq<Tag>>)
      ensures r == Ok(tags)
    {
      r := Ok(tags);
    }

    /** POST /tags: appends a tag with id = number of tags + 1, but replies with
        the request body, not with the stored tag. */
    method CreateTag(name: string) returns (r: Reply<TagBody>)
      requires Valid()
      modifies this
      ensures Valid()
      ensures notes == old(notes) && comments == old(comments)
      ensures tags == old(tags) + [Tag(|old(tags)| + 1, name)]
      ensures r == Ok(TagBody(name))
    {
      tags := tags + [Tag(|tags| + 1, name)];
      r := Ok(TagBody(name));
    }

    /** POST /notes/:id/comments: 404 with nothing changed, or a comment with
        id = number of ALL comments + 1 and no likes is appended. */
    method AddComment(noteId: int, text: string, author: string, now: int) returns (r: Reply<Comment>)
      requires Valid()
      modifies this
      ensures Valid()
      ensures tags == old(tags) && notes == old(notes)
      ensures NoteIndex(notes, noteId).None? ==> r == NotFound(NOTE_NOT_FOUND) && comments == old(comments)
      ensures NoteIndex(notes, noteId).Some? ==>
        && comments == old(comments) + [Comment(|old(comments)| + 1, noteId, text, author, now, 0)]
        && r == Created(comments[|comments| - 1])
    {
      match NoteIndex(notes, noteId)
      case None => r := NotFound(NOTE_NOT_FOUND);
      case Some(i) =>
        var comment := Comment(|comments| + 1, notes[i].id, text, author, now, 0);
        comments := comments + [comment];
        r := Created(comment);
    }

    /** GET /notes/:id/comments: a missing note gives a 200 "No comments" message
        (not a 404); otherwise the note's comments in insertion order. */
    method ListComments(noteId: int) returns (r: Reply<seq<Comment>>)
      ensures NoteIndex(notes, noteId).None? ==> r == Info(NO_COMMENTS)
      ensures NoteIndex(notes, noteId).Some? ==> r == Ok(CommentsOf(comments, noteId))
    {
      if NoteIndex(notes, noteId).None? {
        r := Info(NO_COMMENTS);
      } else {
        r := Ok(CommentsOf(comments, noteId));
      }
    }

    /** DELETE /notes/:noteId/comments/:commentId: 404 "Note not found", 404
        "Comment not found", or the first comment matching both ids is spliced
        out and sent back as a one-element array. */
    method DeleteComment(noteId: int, commentId: int) returns (r: Reply<seq<Comment>>)
      requires Valid()
      modifies this
      ensures Valid()
      ensures tags == old(tags) && notes == old(notes)
      ensures NoteIndex(notes, noteId).None? ==> r == NotFound(NOTE_NOT_FOUND) && comments == old(comments)
      ensures NoteIndex(notes, noteId).Some? && CommentIndex(old(comments), noteId, commentId).None? ==>
        r == NotFound(COMMENT_NOT_FOUND) && comments == old(comments)
      ensures NoteIndex(notes, noteId).Some? && CommentIndex(old(comments), noteId, commentId).Some? ==>
        var j := CommentIndex(old(comments), noteId, commentId).value;
        r == Ok([old(comments)[j]]) && comments == RemoveAt(old(comments), j)
    {
      if NoteIndex(notes, noteId).None? {
        r := NotFound(NOTE_NOT_FOUND);
        return;
      }
      match CommentIndex(comments, noteId, commentId)
      case None => r := NotFound(COMMENT_NOT_FOUND);
      case Some(j) =>
        r := Ok([comments[j]]);
        comments := RemoveAt(comments, j);
    }

    /** POST /notes/:noteId/comments/:commentId/like: 404 if the note is missing,
        a 200 "Not found" message if the comment is, else one more like. */
    method LikeComment(noteId: int, commentId: int) returns (r: Reply<Comment>)
      requires Valid()
      modifies this
      ensures Valid()
      ensures tags == old(tags) && notes == old(notes)
      ensures NoteIndex(notes, noteId).None? ==> r == NotFound(NOTE_NOT_FOUND) && comments == old(comments)
      ensures NoteIndex(notes, noteId).Some? && CommentIndex(old(comments), noteId, commentId).None? ==>
        r == Info(NOT_FOUND) && comments == old(comments)
      ensures NoteIndex(notes, noteId).Some? && CommentIndex(old(comments), noteId, commentId).Some? ==>
        var j := CommentIndex(old(comments), noteId, commentId).value;
        comments == old(comments)[j := Like(old(comments)[j])] && r == Ok(comments[j])
    {
      if NoteIndex(notes, noteId).None? {
        r := NotFound(NOTE_NOT_FOUND);
        return;
      }
      match CommentIndex(comments, noteId, commentId)
      case None => r := Info(NOT_FOUND);
      case Some(j) =>
        var liked := Like(comments[j]);
        comments := comments[j := liked];
        r := Ok(liked);
    }

    /** POST /notes/:noteId/comments/:commentId/unlike: as for like, but one like
        fewer, and none fewer at zero. */
    method UnlikeComment(noteId: int, commentId: int) returns (r: Reply<Comment>)
      requires Valid()
      modifies this
      ensures Valid()
      ensures tags == old(tags) && notes == old(notes)
      ensures NoteIndex(notes, noteId).None? ==> r == NotFound(NOTE_NOT_FOUND) && comments == old(comments)
      ensures NoteIndex(notes, noteId).Some? && CommentIndex(old(comments), noteId, commentId).None? ==>
        r == Info(NOT_FOUND) && comments == old(comments)
      ensures NoteIndex(notes, noteId).Some? && CommentIndex(old(comments), noteId, commentId).Some? ==>
        var j := CommentIndex(old(comments), noteId, commentId).value;
        comments == old(comments)[j := Unlike(old(comments)[j])] && r == Ok(comments[j])
    {
      if NoteIndex(notes, noteId).None? {
        r := NotFound(NOTE_NOT_FOUND);
        return;
      }
      match CommentIndex(comments, noteId, commentId)
      case None => r := Info(NOT_FOUND);
      case Some(j) =>
        var unliked := Unlike(comments[j]);
        comments := comments[j := unliked];
        r := Ok(unliked);
    }

    /** GET /notes/search?q=. */
    method SearchNotes(q: Option<string>) returns (r: Reply<seq<Note>>)
      ensures r == Search(notes, q)
    {
      r := Search(notes, q);
    }

    /** GET /notes/filter?tags=. */
    method FilterNotes(param: Option<string>) returns (r: Reply<seq<Note>>)
      ensures r == FilterByTags(notes, param)
    {
      r := FilterByTags(notes, param);
    }

    /** GET /notes/sort?by=&order=; `cmp` stands for `String.prototype.localeCompare`. */
    method SortNotes(byParam: Option<string>, order: Option<string>, cmp: (string, string) -> int) returns (r: Reply<seq<Note>>)
      ensures r == SortBy(notes, byParam, order, cmp)
    {
      r := SortBy(notes, byParam, order, cmp);
    }
  }
}
