/** The computations inside the handlers of src/route.ts that read the
    collections without changing them: lookups by id, tag resolution, the
    comment list of a note, and the search, filter and sort queries. */
module Queries {
  import opened Wrappers
  import opened Types
  import opened Seqs
  import opened Text
  import opened Sorting

  // ------------------------------------------------------------------ lookups

  function HasId(id: int): Note -> bool {
    (n: Note) => n.id == id
  }

  /** `notes.find(n => n.id === id)` and `notes.findIndex(...)`: ids need not be
      unique, so this is the position of the FIRST note carrying `id`. */
  function NoteIndex(notes: seq<Note>, id: int): (r: Option<nat>)
    ensures r.Some? ==> r.value < |notes| && notes[r.value].id == id
    ensures r.Some? ==> forall j :: 0 <= j < r.value ==> notes[j].id != id
    ensures r.None? <==> forall j :: 0 <= j < |notes| ==> notes[j].id != id
  {
    FirstIndex(notes, HasId(id))
  }

  function IsComment(noteId: int, commentId: int): Comment -> bool {
    (c: Comment) => c.id == commentId && c.noteId == noteId
  }

  /** The first comment that has id `commentId` AND belongs to note `noteId`. */
  function CommentIndex(comments: seq<Comment>, noteId: int, commentId: int): (r: Option<nat>)
    ensures r.Some? ==> r.value < |comments| && comments[r.value].id == commentId && comments[r.value].noteId == noteId
    ensures r.Some? ==> forall j :: 0 <= j < r.value ==> !(comments[j].id == commentId && comments[j].noteId == noteId)
    ensures r.None? <==> forall j :: 0 <= j < |comments| ==> !(comments[j].id == commentId && comments[j].noteId == noteId)
  {
    FirstIndex(comments, IsComment(noteId, commentId))
  }

  /** Removing the first note with `id` when no other note shares it leaves no
      note with `id`: a second DELETE of the same id finds nothing. */
  lemma {:induction false} RemoveOnlyNoteWithId(notes: seq<Note>, id: int)
    requires NoteIndex(notes, id).Some?
    requires forall i, j :: 0 <= i < j < |notes| && notes[i].id == id ==> notes[j].id != id
    ensures NoteIndex(RemoveAt(notes, NoteIndex(notes, id).value), id).None?
  {
    var k := NoteIndex(notes, id).value;
    var rest := RemoveAt(notes, k);
    forall j | 0 <= j < |rest|
      ensures rest[j].id != id
    {
      if j >= k {
        assert rest[j] == notes[j + 1];
      }
    }
  }

  // ------------------------------------------------------------------ tags

  function IdIn(ids: seq<int>): Tag -> bool {
    (t: Tag) => t.id in ids
  }

  /** `tags.filter(t => tagIds.includes(t.id))`: the existing tags whose id was
      asked for, in the order of the tag collection; unknown ids are dropped. */
  function ResolveTags(tags: seq<Tag>, ids: seq<int>): (r: seq<Tag>)
    ensures forall i :: 0 <= i < |r| ==> r[i] in tags && r[i].id in ids
    ensures forall i :: 0 <= i < |tags| && tags[i].id in ids ==> tags[i] in r
    ensures IsSubsequence(r, tags)
  {
    Filter(tags, IdIn(ids))
  }

  /** The tags of the two seed notes are those resolved from ids [1, 3] and [2]. */
  lemma SeedTagsResolve(work: Tag, personal: Tag, urgent: Tag)
    requires work.id == 1 && personal.id == 2 && urgent.id == 3
    ensures ResolveTags([work, personal, urgent], [1, 3]) == [work, urgent]
    ensures ResolveTags([work, personal, urgent], [2]) == [personal]
  {
    var tags := [work, personal, urgent];
    assert tags[1..] == [personal, urgent] && tags[1..][1..] == [urgent] && tags[1..][1..][1..] == [];
    var first, second := IdIn([1, 3]), IdIn([2]);
    assert Filter(tags[1..][1..], first) == [urgent] && Filter(tags[1..][1..], second) == [];
    assert Filter(tags[1..], first) == [urgent] && Filter(tags[1..], second) == [personal];
  }

  /** Only the SET of requested ids matters: not their order, not repetitions. */
  lemma {:induction false} ResolveTagsIgnoresCallerOrder(tags: seq<Tag>, ids1: seq<int>, ids2: seq<int>)
    requires forall id :: id in ids1 <==> id in ids2
    ensures ResolveTags(tags, ids1) == ResolveTags(tags, ids2)
  {
    FilterCongruent(tags, IdIn(ids1), IdIn(ids2));
  }

  /** No two tags of the list share an id. */
  ghost predicate DistinctTagIds(tags: seq<Tag>) {
    forall i, j :: 0 <= i < j < |tags| ==> tags[i].id != tags[j].id
  }

  /** When every tag id is unique, each requested, existing id contributes exactly one tag. */
  lemma {:induction false} ResolveTagsOnePerId(tags: seq<Tag>, ids: seq<int>)
    requires DistinctTagIds(tags)
    ensures DistinctTagIds(ResolveTags(tags, ids))
  {
    if tags != [] {
      ResolveTagsOnePerId(tags[1..], ids);
      var rest := ResolveTags(tags[1..], ids);
      if tags[0].id in ids {
        assert ResolveTags(tags, ids) == [tags[0]] + rest;
        forall j | 0 <= j < |rest|
          ensures rest[j].id != tags[0].id
        {
          var m :| 0 <= m < |tags[1..]| && tags[1..][m] == rest[j];
          assert tags[m + 1] == rest[j];
        }
      }
    }
  }

  // ------------------------------------------------------------------ patch

  /** The writes PATCH /notes/:id performs on the note it found: each supplied
      field replaces the old one; `tagIds` goes through tag resolution. */
  function ApplyPatch(n: Note, patch: NotePatch, tags: seq<Tag>): (r: Note)
    ensures r.id == n.id && r.createdAt == n.createdAt
  {
    n.(title := patch.title.GetOr(n.title),
       content := patch.content.GetOr(n.content),
       tags := match patch.tagIds
               case Some(ids) => ResolveTags(tags, ids)
               case None => n.tags)
  }

  /** A patch with no fields leaves the note as it was. */
  lemma EmptyPatchIsIdentity(n: Note, tags: seq<Tag>)
    ensures ApplyPatch(n, NotePatch(None, None, None), tags) == n
  {
  }

  /** Sending the same patch twice has the effect of sending it once. */
  lemma PatchIdempotent(n: Note, patch: NotePatch, tags: seq<Tag>)
    ensures ApplyPatch(ApplyPatch(n, patch, tags), patch, tags) == ApplyPatch(n, patch, tags)
  {
  }

  // ------------------------------------------------------------------ comments of a note

  function OnNote(noteId: int): Comment -> bool {
    (c: Comment) => c.noteId == noteId
  }

  /** `comments.filter(c => c.noteId === noteId)`. */
  function CommentsOf(comments: seq<Comment>, noteId: int): (r: seq<Comment>)
    ensures forall i :: 0 <= i < |r| ==> r[i] in comments && r[i].noteId == noteId
    ensures forall i :: 0 <= i < |comments| && comments[i].noteId == noteId ==> comments[i] in r
    ensures IsSubsequence(r, comments)
    ensures forall c :: multiset(r)[c] == if c.noteId == noteId then multiset(comments)[c] else 0
  {
    assert forall c :: multiset(Filter(comments, OnNote(noteId)))[c] == if c.noteId == noteId then multiset(comments)[c] else 0 by {
      forall c ensures multiset(Filter(comments, OnNote(noteId)))[c] == if c.noteId == noteId then multiset(comments)[c] else 0 {
        FilterCount(comments, OnNote(noteId), c);
      }
    }
    Filter(comments, OnNote(noteId))
  }

  // ------------------------------------------------------------------ likes

  /** `findComment.likes += 1`. */
  function Like(c: Comment): (r: Comment)
    ensures r.likes == c.likes + 1 && r.(likes := c.likes) == c
  {
    c.(likes := c.likes + 1)
  }

  /** `if (findComment.likes > 0) findComment.likes -= 1`: never goes below 0. */
  function Unlike(c: Comment): (r: Comment)
    ensures c.likes >= 0 ==> r.likes >= 0
    ensures c.likes > 0 ==> r.likes == c.likes - 1
    ensures c.likes <= 0 ==> r == c
    ensures r.(likes := c.likes) == c
  {
    if c.likes > 0 then c.(likes := c.likes - 1) else c
  }

  /** Unliking a comment nobody likes changes nothing. */
  lemma UnlikeAtZero(c: Comment)
    requires c.likes == 0
    ensures Unlike(c) == c
  {
  }

  /** Unlike undoes like. */
  lemma UnlikeUndoesLike(c: Comment)
    requires c.likes >= 0
    ensures Unlike(Like(c)) == c
  {
  }

  // ------------------------------------------------------------------ search

  /** The note's lowercased title or lowercased content includes `keyword`. */
  predicate Mentions(n: Note, keyword: string)
    ensures Lower(keyword) == keyword && (Contains(n.title, keyword) || Contains(n.content, keyword)) ==> Mentions(n, keyword)
    ensures Mentions(n, keyword) ==> |keyword| <= |n.title| || |keyword| <= |n.content|
  {
    assert Contains(n.title, keyword) ==> Contains(Lower(n.title), Lower(keyword)) by {
      if Contains(n.title, keyword) { ContainsLower(n.title, keyword); }
    }
    assert Contains(n.content, keyword) ==> Contains(Lower(n.content), Lower(keyword)) by {
      if Contains(n.content, keyword) { ContainsLower(n.content, keyword); }
    }
    Contains(Lower(n.title), keyword) || Contains(Lower(n.content), keyword)
  }

  function MentionsKeyword(keyword: string): Note -> bool {
    (n: Note) => Mentions(n, keyword)
  }

  /** GET /notes/search?q=: a missing or empty `q` is a bad request; otherwise the
      notes, in collection order, whose title or content contains `q` ignoring case. */
  function Search(notes: seq<Note>, q: Option<string>): (r: Reply<seq<Note>>)
    ensures q.None? || q.value == [] ==> r == BadRequest(Q_REQUIRED)
    ensures q.Some? && q.value != [] ==> r.Ok?
    ensures r.Ok? ==> IsSubsequence(r.value, notes)
    ensures r.Ok? ==> forall i :: 0 <= i < |r.value| ==> Mentions(r.value[i], Lower(q.value))
    ensures r.Ok? ==> forall i :: 0 <= i < |notes| && Mentions(notes[i], Lower(q.value)) ==> notes[i] in r.value
    ensures r.Ok? ==> forall n :: multiset(r.value)[n] == if Mentions(n, Lower(q.value)) then multiset(notes)[n] else 0
  {
    if q.None? || q.value == [] then BadRequest(Q_REQUIRED)
    else
      var keyword := Lower(q.value);
      assert forall n :: multiset(Filter(notes, MentionsKeyword(keyword)))[n] == if Mentions(n, keyword) then multiset(notes)[n] else 0 by {
        forall n ensures multiset(Filter(notes, MentionsKeyword(keyword)))[n] == if Mentions(n, keyword) then multiset(notes)[n] else 0 {
          FilterCount(notes, MentionsKeyword(keyword), n);
        }
      }
      Ok(Filter(notes, MentionsKeyword(keyword)))
  }

  /** A note whose title or content contains `q` verbatim is always found. */
  lemma SearchFindsExactMatches(notes: seq<Note>, q: string, i: nat)
    requires q != [] && i < |notes|
    requires Contains(notes[i].title, q) || Contains(notes[i].content, q)
    ensures notes[i] in Search(notes, Some(q)).value
  {
    if Contains(notes[i].title, q) {
      ContainsLower(notes[i].title, q);
    } else {
      ContainsLower(notes[i].content, q);
    }
  }

  /** Searching for a longer keyword can only narrow the result: what a keyword
      containing `q1` finds is a subsequence of what `q1` finds. */
  lemma SearchNarrows(notes: seq<Note>, q1: string, q2: string)
    requires q1 != [] && Contains(Lower(q2), Lower(q1))
    ensures q2 != []
    ensures IsSubsequence(Search(notes, Some(q2)).value, Search(notes, Some(q1)).value)
  {
    var k1, k2 := Lower(q1), Lower(q2);
    forall n | n in notes && MentionsKeyword(k2)(n)
      ensures MentionsKeyword(k1)(n)
    {
      if Contains(Lower(n.title), k2) {
        ContainsTransitive(Lower(n.title), k2, k1);
      } else {
        ContainsTransitive(Lower(n.content), k2, k1);
      }
    }
    FilterMonotone(notes, MentionsKeyword(k2), MentionsKeyword(k1));
  }

  // ------------------------------------------------------------------ filter by tags

  /** `t.trim().toLowerCase()`: no capital letter and no white space at either end remain. */
  function Normalize(s: string): (r: string)
    ensures forall i :: 0 <= i < |r| ==> !IsUpper(r[i])
    ensures r == [] || (!IsSpace(r[0]) && !IsSpace(r[|r| - 1]))
  {
    var t := Trim(s);
    assert t == [] || (!IsSpace(LowerChar(t[0])) && !IsSpace(LowerChar(t[|t| - 1]))) by {
      if t != [] {
        LowerKeepsSpace(t[0]);
        LowerKeepsSpace(t[|t| - 1]);
      }
    }
    Lower(t)
  }

  lemma NormalizeIdempotent(s: string)
    ensures Normalize(Normalize(s)) == Normalize(s)
  {
    var r := Normalize(s);
    TrimIdempotent(s);
    assert Trim(r) == r;
  }

  /** `tags.split(",").map(t => t.trim().toLowerCase())`. */
  function RequestedNames(param: string): (r: seq<string>)
    ensures |r| >= 1
  {
    var parts := Split(param, ',');
    seq(|parts|, i requires 0 <= i < |parts| => Normalize(parts[i]))
  }

  /** Some tag on the note has this name once trimmed and lowercased; so only an
      already normalized name can match. */
  predicate CarriesTag(n: Note, name: string)
    ensures CarriesTag(n, name) ==> n.tags != [] && Normalize(name) == name
  {
    assert forall t :: t in n.tags ==> Normalize(Normalize(t.name)) == Normalize(t.name) by {
      forall t | t in n.tags
        ensures Normalize(Normalize(t.name)) == Normalize(t.name)
      {
        NormalizeIdempotent(t.name);
      }
    }
    exists t :: t in n.tags && Normalize(t.name) == name
  }

  /** The note carries every requested name; a note without tags carries no non-empty request. */
  predicate CarriesAll(n: Note, names: seq<string>)
    ensures names == [] ==> CarriesAll(n, names)
    ensures CarriesAll(n, names) && names != [] ==> n.tags != []
  {
    assert names != [] ==> names[0] in names;
    forall name :: name in names ==> CarriesTag(n, name)
  }

  function CarriesAllOf(names: seq<string>): Note -> bool {
    (n: Note) => CarriesAll(n, names)
  }

  /** GET /notes/filter?tags=: a missing or empty parameter is a bad request;
      otherwise the notes, in collection order, that carry EVERY requested name. */
  function FilterByTags(notes: seq<Note>, param: Option<string>): (r: Reply<seq<Note>>)
    ensures param.None? || param.value == [] ==> r == BadRequest(TAGS_REQUIRED)
    ensures param.Some? && param.value != [] ==> r.Ok?
    ensures r.Ok? ==> IsSubsequence(r.value, notes)
    ensures r.Ok? ==> forall i :: 0 <= i < |r.value| ==> CarriesAll(r.value[i], RequestedNames(param.value))
    ensures r.Ok? ==> forall i :: 0 <= i < |notes| && CarriesAll(notes[i], RequestedNames(param.value)) ==> notes[i] in r.value
    ensures r.Ok? ==> forall n :: multiset(r.value)[n] == if CarriesAll(n, RequestedNames(param.value)) then multiset(notes)[n] else 0
  {
    if param.None? || param.value == [] then BadRequest(TAGS_REQUIRED)
    else
      var names := RequestedNames(param.value);
      assert forall n :: multiset(Filter(notes, CarriesAllOf(names)))[n] == if CarriesAll(n, names) then multiset(notes)[n] else 0 by {
        forall n ensures multiset(Filter(notes, CarriesAllOf(names)))[n] == if CarriesAll(n, names) then multiset(notes)[n] else 0 {
          FilterCount(notes, CarriesAllOf(names), n);
        }
      }
      Ok(Filter(notes, CarriesAllOf(names)))
  }

  lemma RequestedNamesAppend(x: string, y: string)
    ensures RequestedNames(x + [','] + y) == RequestedNames(x) + RequestedNames(y)
  {
    SplitAppend(x, y, ',');
  }

  /** AND semantics: filtering by "x,y" is filtering by x and then by y. */
  lemma FilterByTagsConjunction(notes: seq<Note>, x: string, y: string)
    requires x != [] && y != []
    ensures FilterByTags(FilterByTags(notes, Some(x)).value, Some(y)) == FilterByTags(notes, Some(x + [','] + y))
  {
    var nx, ny := RequestedNames(x), RequestedNames(y);
    RequestedNamesAppend(x, y);
    FilterFilter(notes, CarriesAllOf(nx), CarriesAllOf(ny), CarriesAllOf(nx + ny));
  }

  /** A requested name that no note carries empties the result; it is not an error. */
  lemma UnknownTagGivesEmpty(notes: seq<Note>, param: string, name: string)
    requires param != [] && name in RequestedNames(param)
    requires forall i :: 0 <= i < |notes| ==> !CarriesTag(notes[i], name)
    ensures FilterByTags(notes, Some(param)) == Ok([])
  {
    var r := FilterByTags(notes, Some(param)).value;
    if r != [] {
      assert false;
    }
  }

  // ------------------------------------------------------------------ sort

  datatype SortField = ByTitle | ByCreatedAt

  /** The `by` query parameter: only "title" and "createdAt" are accepted. */
  function ParseField(byParam: Option<string>): (r: Option<SortField>)
    ensures r == Some(ByTitle) <==> byParam == Some("title")
    ensures r == Some(ByCreatedAt) <==> byParam == Some("createdAt")
  {
    if byParam == Some("title") then Some(ByTitle)
    else if byParam == Some("createdAt") then Some(ByCreatedAt)
    else None
  }

  /** What ECMAScript asks of a comparator, for `localeCompare`: the sign flips
      when the arguments are swapped, and "not after" is transitive. */
  ghost predicate ConsistentComparator(cmp: (string, string) -> int) {
    && (forall a, b :: cmp(a, b) < 0 <==> cmp(b, a) > 0)
    && (forall a, b, c :: cmp(a, b) <= 0 && cmp(b, c) <= 0 ==> cmp(a, c) <= 0)
  }

  /** The comparator handed to `sort`, read as "a may stay before b". Titles are
      compared by `cmp` (standing for `localeCompare`), timestamps by difference. */
  function NoteOrder(field: SortField, cmp: (string, string) -> int): (r: (Note, Note) -> bool)
    ensures field == ByCreatedAt ==> forall a, b :: r(a, b) <==> a.createdAt <= b.createdAt
    ensures field == ByTitle ==> forall a: Note, b: Note :: a.title == b.title ==> (r(a, b) <==> r(b, a))
  {
    match field
    case ByTitle => (a: Note, b: Note) => cmp(a.title, b.title) <= 0
    case ByCreatedAt => (a: Note, b: Note) => a.createdAt - b.createdAt <= 0
  }

  lemma NoteOrderIsTotalPreorder(field: SortField, cmp: (string, string) -> int)
    requires ConsistentComparator(cmp)
    ensures TotalPreorder(NoteOrder(field, cmp))
  {
    var le := NoteOrder(field, cmp);
    forall a: Note, b: Note
      ensures le(a, b) || le(b, a)
    {
      if field == ByTitle {
        assert cmp(a.title, b.title) < 0 <==> cmp(b.title, a.title) > 0;
      }
    }
    forall a: Note, b: Note, c: Note | le(a, b) && le(b, c)
      ensures le(a, c)
    {
      if field == ByTitle {
        assert cmp(a.title, b.title) <= 0 && cmp(b.title, c.title) <= 0;
      }
    }
  }

  /** GET /notes/sort?by=&order=: an unknown or missing `by` is a bad request;
      otherwise a reordering of the notes, sorted by the key and reversed when
      `order` is exactly "desc". The collection itself is only read. */
  function SortBy(notes: seq<Note>, byParam: Option<string>, order: Option<string>, cmp: (string, string) -> int): (r: Reply<seq<Note>>)
    ensures ParseField(byParam).None? ==> r == BadRequest(BY_REQUIRED)
    ensures ParseField(byParam).Some? ==> r.Ok? && multiset(r.value) == multiset(notes)
  {
    match ParseField(byParam)
    case None => BadRequest(BY_REQUIRED)
    case Some(field) =>
      var ascending := StableSort(notes, NoteOrder(field, cmp));
      Ok(if order == Some("desc") then Reverse(ascending) else ascending)
  }

  /** Every `order` other than "desc" sorts ascending. */
  lemma SortDefaultsToAscending(notes: seq<Note>, byParam: Option<string>, order: Option<string>, cmp: (string, string) -> int)
    requires order != Some("desc")
    ensures SortBy(notes, byParam, order, cmp) == SortBy(notes, byParam, Some("asc"), cmp)
  {
  }

  /** "desc" is exactly the ascending answer reversed. */
  lemma SortDescendingIsReversedAscending(notes: seq<Note>, byParam: Option<string>, cmp: (string, string) -> int)
    requires ParseField(byParam).Some?
    ensures SortBy(notes, byParam, Some("desc"), cmp).value == Reverse(SortBy(notes, byParam, Some("asc"), cmp).value)
  {
  }

  /** The ascending answer is sorted by the key and stable: notes with equal keys
      keep their collection order. */
  lemma SortAscendingIsStable(notes: seq<Note>, byParam: Option<string>, order: Option<string>, cmp: (string, string) -> int)
    requires ConsistentComparator(cmp) && ParseField(byParam).Some? && order != Some("desc")
    ensures var le := NoteOrder(ParseField(byParam).value, cmp);
      && SortedBy(SortBy(notes, byParam, order, cmp).value, le)
      && forall k :: Ties(SortBy(notes, byParam, order, cmp).value, k, le) == Ties(notes, k, le)
  {
    var le := NoteOrder(ParseField(byParam).value, cmp);
    NoteOrderIsTotalPreorder(ParseField(byParam).value, cmp);
    StableSortSorted(notes, le);
    forall k
      ensures Ties(StableSort(notes, le), k, le) == Ties(notes, k, le)
    {
      StableSortKeepsTies(notes, k, le);
    }
  }

  /** Any stable sort of the notes by the key, however computed, is the ascending answer. */
  lemma SortAscendingIsUnique(notes: seq<Note>, byParam: Option<string>, cmp: (string, string) -> int, r: seq<Note>)
    requires ConsistentComparator(cmp) && ParseField(byParam).Some?
    requires SortedBy(r, NoteOrder(ParseField(byParam).value, cmp))
    requires forall k :: Ties(r, k, NoteOrder(ParseField(byParam).value, cmp)) == Ties(notes, k, NoteOrder(ParseField(byParam).value, cmp))
    ensures SortBy(notes, byParam, Some("asc"), cmp) == Ok(r)
  {
    NoteOrderIsTotalPreorder(ParseField(byParam).value, cmp);
    StableSortUnique(notes, r, NoteOrder(ParseField(byParam).value, cmp));
  }

  /** The descending answer runs from the largest key down, and notes with equal
      keys appear in the reverse of their collection order. */
  lemma SortDescendingOrder(notes: seq<Note>, byParam: Option<string>, cmp: (string, string) -> int)
    requires ConsistentComparator(cmp) && ParseField(byParam).Some?
    ensures var le := NoteOrder(ParseField(byParam).value, cmp);
      var r := SortBy(notes, byParam, Some("desc"), cmp).value;
      && (forall i, j :: 0 <= i < j < |r| ==> le(r[j], r[i]))
      && forall k :: Ties(r, k, le) == Reverse(Ties(notes, k, le))
  {
    var le := NoteOrder(ParseField(byParam).value, cmp);
    NoteOrderIsTotalPreorder(ParseField(byParam).value, cmp);
    StableSortSorted(notes, le);
    forall k
      ensures Ties(Reverse(StableSort(notes, le)), k, le) == Reverse(Ties(notes, k, le))
    {
      ReverseTies(notes, k, le);
    }
  }
}
