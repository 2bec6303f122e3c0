# Note store model

A Dafny model of the in-memory note service of the Task-Notes-Tags API: three
collections (`tags`, `notes`, `comments`) and the Fastify request handlers in
`src/route.ts` that read and change them, with the record shapes of
`src/types.ts`.

Layout, one module per concern:

- `wrappers.dfy` — `Option`.
- `seqs.dfy` — `Seqs`: the array methods the handlers use (`filter`,
  `find`/`findIndex`, `splice(i, 1)`, `reverse`) as generic functions, with
  lemmas about filtering.
- `text.dfy` — `Text`: `toLowerCase` (ASCII), `trim` (the ECMAScript
  white-space set), `split` on one character with its inverse `Join`, and
  `includes` as `Contains`.
- `sorting.dfy` — `Sorting`: `Array.prototype.sort` as a stable insertion sort,
  with the proof that ANY sorted, tie-preserving reordering equals it, so the
  engine's actual sorting algorithm does not matter.
- `types.dfy` — `Types`: `Tag`, `Note`, `Comment`, the PATCH body, the POST
  /tags body and the `Reply` datatype (`Ok` = 200 with payload, `Created` = 201,
  `NotFound` = 404, `BadRequest` = 400, `Info` = 200 with only a message).
- `queries.dfy` — `Queries`: the read-only logic of the handlers (lookups,
  tag resolution, comment list, search, tag filter, sort) as functions, and the
  lemmas about them.
- `store.dfy` — `NoteStore.Store`: a class whose fields are the three
  collections, with one method per handler. Mutating handlers (`push`,
  `splice`, field assignment) are methods with `modifies this` whose
  postconditions give the whole new state; read-only handlers return a value
  tied to the functions of `Queries`. `Valid()` keeps three invariants: tag ids
  are positions plus one (hence unique), no note carries two tags with the
  same id, and no comment has negative likes.
- `scenarios.dfy` — request sequences against the seeded store (comment, like,
  unlike; delete twice; id reuse after a delete; empty patch), checked from the
  handlers' contracts.

Behaviour kept as the code has it:

- Ids are the collection length plus one, so after a delete a new note can get
  the id of a live note; every lookup then takes the first match
  (`IdReuseScenario`). So note and comment ids can repeat, and every lookup
  takes the first match; id uniqueness is not an invariant of the store.
- Not-found replies differ by handler: 404 for notes and for comment deletion,
  a 200 message "No comments" for the list of a missing note, a 200 "Not found"
  for like/unlike of a missing comment.
- POST /tags replies with the request body `{name}`, not the stored tag.
- The search and the tag filter both test `!q` / `!tags`, which also rejects an
  empty string; the model answers `BadRequest` for `Some("")` in both, so
  `!tags` (src/route.ts:289) makes an empty `tags=` a 400 just like a missing one.
- Descending sort is the ascending stable sort reversed, so notes with equal
  keys come out in reverse collection order (`SortDescendingOrder`).

## Model

| member | source | states |
|---|---|---|
| `Seqs.Filter` | src/route.ts:58 | the result holds exactly the elements satisfying the predicate and is a subsequence of the input |
| `Seqs.FirstIndex` | src/route.ts:109 | `findIndex`: the position of the first element satisfying the predicate; none exactly when no element does |
| `Seqs.RemoveAt` | src/route.ts:115 | `splice(i, 1)`: one element fewer, the others in their order, the multiset loses exactly `s[i]` |
| `Seqs.Reverse` | src/route.ts:327 | element `i` of the result is element `n-1-i` of the input; same multiset |
| `Seqs.FilterCount` | src/route.ts:58 | filtering keeps every copy of a selected value and no copy of a rejected one |
| `Seqs.FilterAppend` | src/route.ts:278-282 | filtering distributes over concatenation |
| `Seqs.FilterCongruent` | src/route.ts:58 | two predicates that agree on the elements filter alike |
| `Seqs.FilterFilter` | src/route.ts:295-299 | filtering by p and then q equals filtering by their conjunction |
| `Seqs.FilterMonotone` | src/route.ts:278-282 | a stronger predicate keeps a subsequence of what a weaker one keeps |
| `Seqs.FilterReverse` | src/route.ts:326-328 | filtering commutes with reversal |
| `Text.LowerChar` | src/route.ts:276 | the result is never an ASCII capital; capitals move to their small letter, other characters are kept |
| `Text.Lower` | src/route.ts:276 | same length, each character lowercased |
| `Text.LowerIdempotent` | src/route.ts:276 | lowercasing twice is lowercasing once |
| `Text.LowerSlice` | src/route.ts:280-281 | lowercasing commutes with slicing |
| `Text.Contains` | src/route.ts:280-281 | `includes`: an occurring string is no longer than the text; the empty string and the text itself always occur |
| `Text.ContainsTransitive` | src/route.ts:280-281 | `includes` is transitive |
| `Text.ContainsLower` | src/route.ts:280-281 | a verbatim occurrence survives lowercasing both sides |
| `Text.LowerKeepsSpace` | src/route.ts:293 | lowercasing neither creates nor removes white space |
| `Text.TrimStart` | src/route.ts:293 | removes exactly the leading white space: the result is a suffix, the dropped prefix is all white space, the result does not start with white space |
| `Text.TrimEnd` | src/route.ts:293 | removes exactly the trailing white space, symmetrically |
| `Text.Trim` | src/route.ts:293 | the result is a slice of the input with only white space outside it and no white space at either of its ends |
| `Text.TrimIdempotent` | src/route.ts:297 | trimming twice is trimming once |
| `Text.Split` | src/route.ts:293 | at least one piece, no piece contains the separator, joining the pieces gives the input back |
| `Text.SplitAppend` | src/route.ts:293 | splitting `x + "," + y` is splitting `x` followed by splitting `y` |
| `Text.SplitPiece` | src/route.ts:293 | a string without separator splits into itself |
| `Text.SplitJoin` | src/route.ts:293 | splitting undoes joining for separator-free pieces |
| `Sorting.Insert` | src/route.ts:316 | inserting adds exactly one element to the multiset |
| `Sorting.StableSort` | src/route.ts:316-324 | the sorted copy is a permutation of the input |
| `Sorting.InsertSorted` | src/route.ts:316-324 | inserting into a sorted sequence keeps it sorted |
| `Sorting.StableSortSorted` | src/route.ts:316-324 | the output is sorted under a total preorder |
| `Sorting.InsertTies` | src/route.ts:316-324 | insertion places an element after nothing it is tied with |
| `Sorting.StableSortKeepsTies` | src/route.ts:316-324 | stability: for every key, the tied elements keep their input order |
| `Sorting.TiedWithSelf` | src/route.ts:316-324 | under a total preorder an element is tied with itself |
| `Sorting.TiesDetermine` | src/route.ts:316-324 | two sorted sequences with the same tied runs are equal |
| `Sorting.StableSortUnique` | src/route.ts:316-324 | every sorted, tie-preserving reordering of the input is the output of the stable sort |
| `Sorting.ReverseTies` | src/route.ts:326-328 | after the reverse, each tied run is in reverse input order |
| `Queries.NoteIndex` | src/route.ts:40 | `notes.find(n => n.id === id)`: the first note with the id; none exactly when no note has it |
| `Queries.RemoveOnlyNoteWithId` | src/route.ts:109-117 | deleting the only note with an id leaves none with it, so a second delete is a 404 |
| `Queries.CommentIndex` | src/route.ts:202-204 | the first comment matching both the comment id and the note id; none exactly when no comment matches both |
| `Queries.ResolveTags` | src/route.ts:58 | exactly the existing tags whose id was requested, in tag-collection order; unknown ids are dropped |
| `Queries.ResolveTagsIgnoresCallerOrder` | src/route.ts:58 | only the set of requested ids matters, not their order or repetition |
| `Queries.SeedTagsResolve` | src/route.ts:16-23 | the seed notes' tags `[tags[0], tags[2]]` and `[tags[1]]` are exactly the tags resolved from ids [1, 3] and [2] |
| `Queries.ResolveTagsOnePerId` | src/route.ts:58 | with unique tag ids, the resolved tags have unique ids |
| `Queries.ApplyPatch` | src/route.ts:91-99 | a patch never changes the note's id or creation time |
| `Queries.EmptyPatchIsIdentity` | src/route.ts:91-101 | a patch without fields returns the note unchanged |
| `Queries.PatchIdempotent` | src/route.ts:91-99 | applying the same patch twice equals applying it once |
| `Queries.Like` | src/route.ts:235 | likes rise by exactly one, nothing else changes |
| `Queries.Unlike` | src/route.ts:260-262 | likes fall by one when above zero, and the comment is returned unchanged otherwise; likes never go negative, nothing else changes |
| `Queries.UnlikeAtZero` | src/route.ts:260-262 | unlike at zero likes is a no-op |
| `Queries.UnlikeUndoesLike` | src/route.ts:235 | unlike after like restores the comment |
| `Queries.CommentsOf` | src/route.ts:184 | exactly the comments of the note, in insertion order, each value as often as in the collection |
| `Queries.Mentions` | src/route.ts:279-281 | a lowercase keyword occurring verbatim in the title or content is mentioned; a mentioned keyword fits in the title or the content |
| `Queries.Search` | src/route.ts:270-284 | missing or empty `q` is a 400; otherwise exactly the notes whose lowercased title or content contains lowercased `q`, in collection order, each note as often as in the collection |
| `Queries.SearchFindsExactMatches` | src/route.ts:278-282 | a verbatim occurrence in title or content is always found |
| `Queries.SearchNarrows` | src/route.ts:278-282 | a keyword containing `q1` finds a subsequence of what `q1` finds |
| `Queries.Normalize` | src/route.ts:293-297 | `trim().toLowerCase()` leaves no capital letter and no white space at either end |
| `Queries.NormalizeIdempotent` | src/route.ts:293-297 | normalizing twice is normalizing once |
| `Queries.CarriesTag` | src/route.ts:297 | a note carrying a name has tags, and the name is already normalized, so a requested name never matches a tag only up to case or spaces on the request side |
| `Queries.CarriesAll` | src/route.ts:296-298 | `every`: the empty request is carried by every note; a note without tags carries no non-empty request |
| `Queries.RequestedNames` | src/route.ts:293 | the comma split gives at least one requested name |
| `Queries.FilterByTags` | src/route.ts:289-302 | missing or empty parameter is a 400; otherwise exactly the notes carrying every requested trimmed, lowercased name, in collection order, each note as often as in the collection |
| `Queries.RequestedNamesAppend` | src/route.ts:293 | the names of `x + "," + y` are the names of `x` followed by those of `y` |
| `Queries.FilterByTagsConjunction` | src/route.ts:295-299 | AND semantics: filtering by "x,y" equals filtering by x and then by y |
| `Queries.UnknownTagGivesEmpty` | src/route.ts:295-299 | a requested name no note carries gives an empty array, not an error |
| `Queries.ParseField` | src/route.ts:308 | only "title" and "createdAt" select a sort key |
| `Queries.NoteOrder` | src/route.ts:316-324 | the `createdAt` comparator (a difference of timestamps) keeps `a` before `b` exactly when `a` is not later; under the title comparator, notes with equal titles are ordered alike both ways |
| `Queries.NoteOrderIsTotalPreorder` | src/route.ts:316-324 | with a consistent `localeCompare`, the sort comparator is a total preorder |
| `Queries.SortBy` | src/route.ts:308-330 | invalid or missing `by` is a 400; otherwise a permutation of the notes |
| `Queries.SortDefaultsToAscending` | src/route.ts:314 | any `order` other than "desc" sorts ascending |
| `Queries.SortDescendingIsReversedAscending` | src/route.ts:326-328 | "desc" is exactly the ascending answer reversed |
| `Queries.SortAscendingIsStable` | src/route.ts:316-324 | the ascending answer is sorted by the key and keeps equal-key notes in collection order |
| `Queries.SortAscendingIsUnique` | src/route.ts:316-324 | any stable sort of the notes by the key equals the ascending answer |
| `Queries.SortDescendingOrder` | src/route.ts:316-328 | the descending answer runs from the largest key down, equal keys in reverse collection order |
| `NoteStore.Store.constructor` | src/route.ts:5-28 | the seed: tags work, personal, urgent with ids 1-3, two notes whose tags are those resolved from ids [1, 3] and [2], no comments |
| `NoteStore.Store.ListNotes` | src/route.ts:31-33 | replies with all notes in insertion order |
| `NoteStore.Store.GetNote` | src/route.ts:35-47 | the first note with the id, or a 404 "Note not found" |
| `NoteStore.Store.CreateNote` | src/route.ts:58-70 | appends a note with id = number of notes + 1 and the resolved tags, changes nothing else, replies 201 with it; the new note carries no tag id twice |
| `NoteStore.Store.PatchNote` | src/route.ts:78-101 | 404 with no change, or only the first note with the id is replaced by its patched version and sent back |
| `NoteStore.Store.DeleteNote` | src/route.ts:109-117 | 404 with no change, or exactly the first note with the id is removed, the rest keep their order, and it is sent back as a one-element array |
| `NoteStore.Store.ListTags` | src/route.ts:120-122 | replies with all tags in insertion order |
| `NoteStore.Store.CreateTag` | src/route.ts:131-138 | appends a tag with id = number of tags + 1 and replies with the request body |
| `NoteStore.Store.AddComment` | src/route.ts:146-170 | 404 with no change, or appends a comment with id = number of all comments + 1, the note's id and zero likes, and replies 201 with it |
| `NoteStore.Store.ListComments` | src/route.ts:178-186 | a missing note gives a 200 "No comments"; otherwise the note's comments in insertion order |
| `NoteStore.Store.DeleteComment` | src/route.ts:197-212 | 404 "Note not found" or "Comment not found" with no change, or exactly the first comment matching both ids is removed and sent back |
| `NoteStore.Store.LikeComment` | src/route.ts:222-237 | 404 for a missing note, 200 "Not found" for a missing comment, both without change; else that comment alone gets one more like |
| `NoteStore.Store.UnlikeComment` | src/route.ts:247-264 | as like, with one like fewer and none fewer at zero; likes stay non-negative |
| `NoteStore.Store.SearchNotes` | src/route.ts:267-285 | replies with the search over the current notes |
| `NoteStore.Store.FilterNotes` | src/route.ts:287-303 | replies with the tag filter over the current notes |
| `NoteStore.Store.SortNotes` | src/route.ts:305-331 | replies with the sort of the current notes and leaves the collection as it was |

## Left out

- `src/server.ts` (Fastify construction, plugin registration, listening on port 3333): start-up I/O.
- Request and reply plumbing: status codes are `Reply` variants; `Number(id)` parsing, NaN and non-integer ids are not modelled, ids are `int` inputs.
- Body validation with zod: bodies arrive typed, so the validation-error replies of a malformed body are not modelled (no handler changes state before parsing the body, so those replies change nothing).
- Query parameters given more than once, which Fastify hands over as arrays, are not modelled: each parameter is an optional string.
- `new Date()` and `getTime()`: time is an integer `now` argument; both seed notes share one `now`.
- `localeCompare` is the parameter `cmp`; its locale rules are not modelled, and the sort lemmas assume only that it is a consistent comparator (`ConsistentComparator`).
- `Text.Lower`: does not model Unicode `toLowerCase`, only ASCII capitals, because full case mapping is a foreign table.
- JavaScript strings are UTF-16 code-unit sequences; the model's strings are sequences of Unicode scalar values.
- Numbers are unbounded integers; the loss of precision of JavaScript numbers above 2^53 (ids, likes) is not modelled.
- The `console.log` of the filter results.
- Object aliasing: stored notes share tag objects with `tags`, and replies share objects with the collections; no handler mutates a tag and every reply is modelled as the value at reply time, so value copies are used.
