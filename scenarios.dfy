/** Request sequences against a freshly seeded store, checked by the verifier
    from the handlers' contracts alone. */
module Scenarios {
  import opened Wrappers
  import opened Types
  import opened Queries
  import opened NoteStore

  /** Comment on note 1, like it, unlike it twice: the count goes 0, 1, 0, 0. */
  method CommentLikeScenario(now: int)
  {
    var store := new Store(now);
    assert NoteIndex(store.notes, 1) == Some(0);
    var added := store.AddComment(1, "nice", "bob", now);
    var c0 := Comment(1, 1, "nice", "bob", now, 0);
    assert added == Created(c0) && store.comments == [c0];
    LikeThenUnlikeTwice(store, c0);
  }

  method LikeThenUnlikeTwice(store: Store, c0: Comment)
    requires store.Valid() && NoteIndex(store.notes, 1) == Some(0)
    requires c0.id == 1 && c0.noteId == 1 && c0.likes == 0 && store.comments == [c0]
    modifies store
  {
    assert CommentIndex(store.comments, 1, 1) == Some(0);
    var liked := store.LikeComment(1, 1);
    assert liked == Ok(c0.(likes := 1)) && store.comments == [c0.(likes := 1)];
    assert CommentIndex(store.comments, 1, 1) == Some(0);
    var unliked := store.UnlikeComment(1, 1);
    assert unliked == Ok(c0) && store.comments == [c0];
    unliked := store.UnlikeComment(1, 1);
    assert unliked == Ok(c0);
  }

  /** Liking comment 1 under the wrong note is a 200 "Not found", with no change. */
  method LikeUnderOtherNoteScenario(now: int)
  {
    var store := new Store(now);
    assert NoteIndex(store.notes, 1) == Some(0);
    var added := store.AddComment(1, "nice", "bob", now);
    assert store.comments == [Comment(1, 1, "nice", "bob", now, 0)];
    assert store.notes[1].id == 2 && store.comments[0].noteId == 1;
    assert NoteIndex(store.notes, 2).Some? && CommentIndex(store.comments, 2, 1).None?;
    var elsewhere := store.LikeComment(2, 1);
    assert elsewhere == Info(NOT_FOUND);
  }

  /** Liking under a note that does not exist is a 404. */
  method LikeUnderMissingNoteScenario(now: int)
  {
    var store := new Store(now);
    assert NoteIndex(store.notes, 7).None?;
    var missing := store.LikeComment(7, 1);
    assert missing == NotFound(NOTE_NOT_FOUND);
  }

  /** Deleting note 1 twice: the first call sends the note back, the second is a 404. */
  method DeleteTwiceScenario(now: int)
  {
    var store := new Store(now);
    var note1 := store.notes[0];
    var first := store.DeleteNote(1);
    assert first == Ok([note1]);
    var second := store.DeleteNote(1);
    assert second == NotFound(NOTE_NOT_FOUND);
  }

  /** Ids come from the array length: after deleting note 1, a new note gets id 2,
      which note "Buy groceries" already has, and GET /notes/2 finds the older one. */
  method IdReuseScenario(now: int, later: int)
  {
    var store := new Store(now);
    var note2 := store.notes[1];
    var deleted := store.DeleteNote(1);
    assert store.notes == [note2];
    var created := store.CreateNote("Call mom", "Sunday", [], later);
    assert created.value.id == note2.id == 2;
    var got := store.GetNote(2);
    assert got == Ok(note2);
  }

  /** A patch without fields sends the note back unchanged. */
  method EmptyPatchScenario(now: int)
  {
    var store := new Store(now);
    var before := store.notes[1];
    var patched := store.PatchNote(2, NotePatch(None, None, None));
    assert patched == Ok(before);
    assert store.notes[1] == before;
  }
}
