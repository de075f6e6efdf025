# DocumentManager, modelled in Dafny

A model of the in-memory document repository `com.kizerov.DocumentManager`:
a single map from document identifier to document, with

- **save** (upsert): assigns a generated identifier when the document has
  none, updates an existing entry's title, content and author in place
  (its identifier and creation time stay), or inserts the document, and
  returns what is now stored;
- **findById**: exact-key lookup returning an optional document;
- **search**: the union of independent, optional criteria (title prefixes,
  content substrings, author identifiers, created strictly after a lower
  bound, created strictly before an upper bound), accumulated in a set, so
  that each document appears once.

Files and modules:

- `wrappers.dfy` (`Wrappers`): `Option`.
- `records.dfy` (`Records`): the `Author`, `Document` and `SearchRequest`
  records as datatypes, and `NoCriteria`, the request whose every field is null.
- `criteria.dfy` (`Criteria`): the per-criterion tests (`StartsWith`,
  `Contains`, equality of author ids, strict `<`/`>` on creation times), the
  declarative predicate `Matches(req, d)` and the sets `Matching(db, req)`,
  `ByTitle`, `ByContent`, `ByAuthor`, `ByCreated`.
- `store.dfy` (`Store`): the store invariant `Consistent` (every key is
  non-empty and is the id of the document under it), the pure upsert rule
  `Upsert`, and the class `DocumentManager` with the field `documentsDB`
  and the methods `Save`, `Search` and the `AddMatches*` helpers, which
  loop over the request's lists and over the stored values and are proved
  against `Criteria`.
- `search_properties.dfy`, `store_properties.dfy`: lemmas relating several
  calls or requests, and a client method that uses only the contracts.

Modelling choices:

- A null and an empty document id take the same branch of
  `ensureDocumentId`; the model writes both as the empty string.
- The identifier generator is the parameter `freshId` of `Save`; it is
  required non-empty only when it is used. The code does not check that the
  generated id is free, and neither does the model: when it collides with a
  key, the update path is taken, as in the code. When it is free, `Upsert`
  states that exactly that key is added.
- Creation times are integers compared only with strict `<` and `>`.
- The result of `search` is a sequence without repetitions whose elements are
  exactly the matching stored documents; its order is left open.
- Deduplication in the code is by the records' structural equality (a
  `HashSet` of values), not by identifier. The model follows the code; under
  the store invariant the two coincide (`OneResultPerMatchingKey`).
- The two date-bound passes of `addMatchesByCreatedDateRange` are written
  in the code as their own filter-and-add streams over the stored values;
  the model runs them through `AddMatches`, which is that same pipeline.
- The two date bounds are separate passes that are ORed, as the code does.
  A consequence proved here: a lower bound below the upper bound selects
  every stored document (`OverlappingBoundsSelectEverything`).

## Model

| member | source | states |
|---|---|---|
| `Store.EnsureDocumentId` | TestTask/src/main/java/com/kizerov/DocumentManager.java:54-59 | the id afterwards is non-empty; a present id is kept, an absent one becomes the generated id; no other field changes |
| `Store.UpdateDocument` | TestTask/src/main/java/com/kizerov/DocumentManager.java:67-71 | the updated entry keeps its id and created, and takes title, content and author from the new document |
| `Store.Upsert` | TestTask/src/main/java/com/kizerov/DocumentManager.java:36-45 | only the entry under the assigned key changes and it is the returned document; an existing entry keeps id and created and takes the new title, content, author; a new key receives the given document with its assigned id; a free generated id adds exactly one key; stored ids and creation times are never overwritten; the key/id invariant is preserved |
| `Store.DocumentManager.constructor` | TestTask/src/main/java/com/kizerov/DocumentManager.java:27 | the store starts empty and satisfies its invariant |
| `Store.DocumentManager.Save` | TestTask/src/main/java/com/kizerov/DocumentManager.java:36-45 | the new store and the result are those of `Upsert` on the old store; looking up the assigned id right after yields the saved document |
| `Store.DocumentManager.FindById` | TestTask/src/main/java/com/kizerov/DocumentManager.java:177-180 | returns a document exactly when the id is a key, and then the one stored under it; otherwise none, without failing |
| `Store.DocumentManager.AddMatches` | TestTask/src/main/java/com/kizerov/DocumentManager.java:128-133 | the result is the given set plus every stored document that passes the test |
| `Store.DocumentManager.AddMatchesByTitlePrefixes` | TestTask/src/main/java/com/kizerov/DocumentManager.java:97-103 | adds exactly the stored documents whose title starts with some listed prefix; nothing when the list is null |
| `Store.DocumentManager.AddMatchesByContent` | TestTask/src/main/java/com/kizerov/DocumentManager.java:112-118 | adds exactly the stored documents whose content contains some listed string; nothing when the list is null |
| `Store.DocumentManager.AddMatchesByAuthorIds` | TestTask/src/main/java/com/kizerov/DocumentManager.java:142-148 | adds exactly the stored documents whose author id is listed; nothing when the list is null |
| `Store.DocumentManager.AddMatchesByCreatedDateRange` | TestTask/src/main/java/com/kizerov/DocumentManager.java:157-169 | adds exactly the stored documents created strictly after the lower bound or strictly before the upper bound, each bound only when present |
| `Store.ToList` | TestTask/src/main/java/com/kizerov/DocumentManager.java:87 | the list holds exactly the set's elements, each once |
| `Store.DocumentManager.Search` | TestTask/src/main/java/com/kizerov/DocumentManager.java:79-88 | a document is in the result iff it is stored and satisfies at least one active criterion; no document appears twice |
| `Criteria.MatchingIsUnion` | TestTask/src/main/java/com/kizerov/DocumentManager.java:79-88 | what a request selects is the union of what its title, content, author and date parts select |
| `Criteria.AnyTitlePrefixAppend` | TestTask/src/main/java/com/kizerov/DocumentManager.java:99-101 | some prefix of a concatenated list matches iff some prefix of either part does |
| `Criteria.AnyContentAppend` | TestTask/src/main/java/com/kizerov/DocumentManager.java:114-116 | some string of a concatenated list occurs iff some string of either part does |
| `Criteria.AnyAuthorAppend` | TestTask/src/main/java/com/kizerov/DocumentManager.java:144-146 | some id of a concatenated list is the author's iff some id of either part is |
| `SearchProperties.NoCriteriaFindsNothing` | TestTask/src/main/java/com/kizerov/DocumentManager.java:79-88 | a request with every field null selects nothing, whatever is stored |
| `SearchProperties.EmptyListAddsNothing` | TestTask/src/main/java/com/kizerov/DocumentManager.java:98-100 | an empty list selects exactly what a null field would |
| `SearchProperties.DateBoundsAreOred` | TestTask/src/main/java/com/kizerov/DocumentManager.java:157-168 | with both bounds set, a document matches iff it is after the lower bound or before the upper bound |
| `SearchProperties.DateBoundsExample` | TestTask/src/main/java/com/kizerov/DocumentManager.java:157-168 | a document created at 100 matches `from = 50`, does not match `to = 10`, and matches both set together |
| `SearchProperties.OverlappingBoundsSelectEverything` | TestTask/src/main/java/com/kizerov/DocumentManager.java:157-168 | a lower bound below the upper bound selects every stored document |
| `SearchProperties.AppendedListsUnite` | TestTask/src/main/java/com/kizerov/DocumentManager.java:97-148 | splitting any list criterion in two splits the result into the union of the two results |
| `SearchProperties.MoreCriteriaNeverFewerResults` | TestTask/src/main/java/com/kizerov/DocumentManager.java:79-88 | adding criteria values or loosening a bound never removes a result |
| `SearchProperties.OneResultPerMatchingKey` | TestTask/src/main/java/com/kizerov/DocumentManager.java:80-87 | under the key/id invariant the result has exactly one document per matching key |
| `SearchProperties.KeysToDocumentsIsInjective` | TestTask/src/main/java/com/kizerov/DocumentManager.java:27 | under the key/id invariant distinct keys hold distinct documents |
| `SearchProperties.UnionOfCriteriaExample` | TestTask/src/main/java/com/kizerov/DocumentManager.java:82-83 | a "Report" document and a "budget" document are both found by `titlePrefixes = ["Rep"]` with `containsContents = ["budget"]`, though each meets only one |
| `StoreProperties.ResaveIsNoOp` | TestTask/src/main/java/com/kizerov/DocumentManager.java:36-45 | saving the document that save returned leaves store and result unchanged |
| `StoreProperties.GeneratedIdIsUnique` | TestTask/src/main/java/com/kizerov/DocumentManager.java:54-59 | a free generated id is the result's id and the key of no other document |

## Left out

- Identifier generation (`UUID.randomUUID`): replaced by the `freshId` parameter; randomness and the probability of a collision are not modelled.
- Null fields: an active criterion meeting a null title, content, author, author id or creation time throws `NullPointerException` in the code; here all document fields are non-null by type, so those failures are not modelled. Likewise a null element of a request list, and a null document passed to `save`.
- Reference aliasing: the code stores the caller's object and `ensureDocumentId` sets the id on it, so later changes by the caller show in the store; the model passes documents as values.
- The Lombok accessors, builders and generated `equals`/`hashCode`: the records are datatypes with structural equality.
- `Instant` itself: timestamps are integers.
- The order of the search result (`new ArrayList<>(HashSet)`): left unspecified.
- Concurrency: the code does no locking; the model is sequential.
