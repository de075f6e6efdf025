/** The document store: the upsert rule, point lookup and the search that
    accumulates matches into a set, as the `DocumentManager` class has them. */
module Store {
  import opened Wrappers
  import opened Records
  import opened Criteria

  /** The store's invariant: every key is non-empty and is the identifier of
      the document stored under it. */
  predicate Consistent(db: map<string, Document>) {
    forall k :: k in db ==> k != "" && db[k].id == k
  }

  /** No element occurs twice. */
  predicate Distinct<T(==)>(xs: seq<T>) {
    forall i, j :: 0 <= i < j < |xs| ==> xs[i] != xs[j]
  }

  /** The document with its identifier assigned: an absent (empty) identifier
      is replaced by the generated `freshId`; nothing else changes. */
  function EnsureDocumentId(d: Document, freshId: string): (r: Document)
    requires d.id == "" ==> freshId != ""
    ensures r.id != ""
    ensures d.id != "" ==> r.id == d.id
    ensures d.id == "" ==> r.id == freshId
    ensures r.(id := d.id) == d
  {
    if d.id == "" then d.(id := freshId) else d
  }

  /** The stored document after an update: title, content and author come
      from the new document, identifier and creation time stay. */
  function UpdateDocument(existing: Document, d: Document): (r: Document)
    ensures r.id == existing.id && r.created == existing.created
    ensures r.title == d.title && r.content == d.content && r.author == d.author
  {
    existing.(title := d.title, content := d.content, author := d.author)
  }

  /** The store and the returned document after saving `d`; `freshId` is what
      the identifier generator yields when `d` has no identifier. */
  function Upsert(db: map<string, Document>, d: Document, freshId: string): (r: (map<string, Document>, Document))
    requires d.id == "" ==> freshId != ""
    // only the entry under the assigned key changes, and it is what is returned
    ensures var key := EnsureDocumentId(d, freshId).id;
      r.0 == db[key := r.1]
    // an existing entry is updated in place: id and created are kept
    ensures var key := EnsureDocumentId(d, freshId).id;
      key in db ==>
        && r.1.id == db[key].id && r.1.created == db[key].created
        && r.1.title == d.title && r.1.content == d.content && r.1.author == d.author
    // a new key receives the given document, with its assigned id
    ensures var key := EnsureDocumentId(d, freshId).id;
      key !in db ==> r.1 == d.(id := key)
    // a generated id that is not yet a key adds exactly that key
    ensures d.id == "" && freshId !in db ==>
      r.0.Keys == db.Keys + {freshId} && r.1 == d.(id := freshId)
    // identifiers and creation times already stored are never overwritten
    ensures forall k :: k in db ==> k in r.0 && r.0[k].id == db[k].id && r.0[k].created == db[k].created
    ensures Consistent(db) ==> Consistent(r.0) && r.1.id == EnsureDocumentId(d, freshId).id
  {
    var doc := EnsureDocumentId(d, freshId);
    var stored := if doc.id in db then UpdateDocument(db[doc.id], doc) else doc;
    (db[doc.id := stored], stored)
  }

  /** The elements of a set, each once, in unspecified order
      (`new ArrayList<>(searchResults)`). */
  method ToList(s: set<Document>) returns (xs: seq<Document>)
    ensures forall d :: d in xs <==> d in s
    ensures Distinct(xs)
    ensures |xs| == |s|
  {
    xs := [];
    var rest := s;
    while rest != {}
      invariant rest <= s
      invariant forall d :: d in xs <==> d in s - rest
      invariant Distinct(xs)
      invariant |xs| + |rest| == |s|
      decreases rest
    {
      var d :| d in rest;
      xs := xs + [d];
      rest := rest - {d};
    }
  }

  class DocumentManager {
    var documentsDB: map<string, Document>

    ghost predicate Valid()
      reads this
    {
      Consistent(documentsDB)
    }

    constructor ()
      ensures Valid() && documentsDB == map[]
    {
      documentsDB := map[];
    }

    /** The document stored under exactly `id`, if any. */
    function FindById(id: string): (r: Option<Document>)
      reads this
      ensures r.Some? <==> id in documentsDB
      ensures r.Some? ==> r.value == documentsDB[id]
    {
      if id in documentsDB then Some(documentsDB[id]) else None
    }

    /** Upsert; `freshId` is the identifier generator's output, consulted only
        when the document has none. */
    method Save(document: Document, freshId: string) returns (saved: Document)
      requires document.id == "" ==> freshId != ""
      modifies this
      ensures (documentsDB, saved) == Upsert(old(documentsDB), document, freshId)
      ensures FindById(EnsureDocumentId(document, freshId).id) == Some(saved)
      ensures old(Valid()) ==> Valid() && FindById(saved.id) == Some(saved)
    {
      var doc := EnsureDocumentId(document, freshId);
      var documentId := doc.id;
      match FindById(documentId) {
        case Some(existingDocument) =>
          documentsDB := documentsDB[documentId := UpdateDocument(existingDocument, doc)];
        case None =>
          documentsDB := documentsDB[documentId := doc];
      }
      saved := documentsDB[documentId];
    }

    /** Adds every stored document that passes `test`. */
    method AddMatches(results: set<Document>, test: Document -> bool) returns (r: set<Document>)
      ensures r == results + Selected(documentsDB, test)
    {
      r := results;
      var remaining := documentsDB.Values;
      while remaining != {}
        invariant remaining <= documentsDB.Values
        invariant r == results + set x | x in documentsDB.Values - remaining && test(x)
        decreases remaining
      {
        var d :| d in remaining;
        if test(d) {
          r := r + {d};
        }
        remaining := remaining - {d};
      }
    }

    method AddMatchesByTitlePrefixes(request: SearchRequest, results: set<Document>) returns (r: set<Document>)
      ensures r == results + ByTitle(documentsDB, request)
    {
      r := results;
      if request.titlePrefixes.Some? {
        var prefixes := request.titlePrefixes.value;
        for i := 0 to |prefixes|
          invariant r == results + set d | d in documentsDB.Values && AnyTitlePrefix(d, prefixes[..i])
        {
          var titlePrefix := prefixes[i];
          r := AddMatches(r, (d: Document) => StartsWith(d.title, titlePrefix));
          assert prefixes[..i + 1] == prefixes[..i] + [titlePrefix];
          forall d | d in documentsDB.Values
            ensures AnyTitlePrefix(d, prefixes[..i + 1]) <==> AnyTitlePrefix(d, prefixes[..i]) || StartsWith(d.title, titlePrefix)
          {
            AnyTitlePrefixAppend(d, prefixes[..i], [titlePrefix]);
          }
        }
        assert prefixes[..|prefixes|] == prefixes;
      }
    }

    method AddMatchesByContent(request: SearchRequest, results: set<Document>) returns (r: set<Document>)
      ensures r == results + ByContent(documentsDB, request)
    {
      r := results;
      if request.containsContents.Some? {
        var contents := request.containsContents.value;
        for i := 0 to |contents|
          invariant r == results + set d | d in documentsDB.Values && AnyContent(d, contents[..i])
        {
          var content := contents[i];
          r := AddMatches(r, (d: Document) => Contains(d.content, content));
          assert contents[..i + 1] == contents[..i] + [content];
          forall d | d in documentsDB.Values
            ensures AnyContent(d, contents[..i + 1]) <==> AnyContent(d, contents[..i]) || Contains(d.content, content)
          {
            AnyContentAppend(d, contents[..i], [content]);
          }
        }
        assert contents[..|contents|] == contents;
      }
    }

    method AddMatchesByAuthorIds(request: SearchRequest, results: set<Document>) returns (r: set<Document>)
      ensures r == results + ByAuthor(documentsDB, request)
    {
      r := results;
      if request.authorIds.Some? {
        var authorIds := request.authorIds.value;
        for i := 0 to |authorIds|
          invariant r == results + set d | d in documentsDB.Values && AnyAuthor(d, authorIds[..i])
        {
          var authorId := authorIds[i];
          r := AddMatches(r, (d: Document) => d.author.id == authorId);
          assert authorIds[..i + 1] == authorIds[..i] + [authorId];
          forall d | d in documentsDB.Values
            ensures AnyAuthor(d, authorIds[..i + 1]) <==> AnyAuthor(d, authorIds[..i]) || d.author.id == authorId
          {
            AnyAuthorAppend(d, authorIds[..i], [authorId]);
          }
        }
        assert authorIds[..|authorIds|] == authorIds;
      }
    }

    /** The two bounds are separate passes: each adds what it alone admits. */
    method AddMatchesByCreatedDateRange(request: SearchRequest, results: set<Document>) returns (r: set<Document>)
      ensures r == results + ByCreated(documentsDB, request)
    {
      r := results;
      if request.createdFrom.Some? {
        var from := request.createdFrom.value;
        r := AddMatches(r, (d: Document) => d.created > from);
      }
      if request.createdTo.Some? {
        var to := request.createdTo.value;
        r := AddMatches(r, (d: Document) => d.created < to);
      }
    }

    /** The stored documents that satisfy at least one active criterion,
        each once; the store is left as it was. */
    method Search(request: SearchRequest) returns (found: seq<Document>)
      ensures forall d :: d in found <==> d in documentsDB.Values && Matches(request, d)
      ensures Distinct(found)
      ensures |found| == |Matching(documentsDB, request)|
    {
      var searchResults: set<Document> := {};
      searchResults := AddMatchesByTitlePrefixes(request, searchResults);
      searchResults := AddMatchesByContent(request, searchResults);
      searchResults := AddMatchesByAuthorIds(request, searchResults);
      searchResults := AddMatchesByCreatedDateRange(request, searchResults);
      MatchingIsUnion(documentsDB, request);
      found := ToList(searchResults);
    }
  }
}
