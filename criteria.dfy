/** The per-criterion tests of a search, and the declarative statement of
    which documents a request selects. */
module Criteria {
  import opened Wrappers
  import opened Records

  /** `prefix` is a prefix of `s` (Java's `String.startsWith`). */
  predicate StartsWith(s: string, prefix: string) {
    prefix <= s
  }

  /** `sub` occurs in `s` at some offset (Java's `String.contains`). */
  predicate Contains(s: string, sub: string) {
    exists i :: 0 <= i <= |s| - |sub| && sub <= s[i..]
  }

  /** Some prefix of the list starts the title. */
  predicate AnyTitlePrefix(d: Document, prefixes: seq<string>) {
    exists j :: 0 <= j < |prefixes| && StartsWith(d.title, prefixes[j])
  }

  /** Some string of the list occurs in the content. */
  predicate AnyContent(d: Document, contents: seq<string>) {
    exists j :: 0 <= j < |contents| && Contains(d.content, contents[j])
  }

  /** Some identifier of the list is the author's. */
  predicate AnyAuthor(d: Document, authorIds: seq<string>) {
    exists j :: 0 <= j < |authorIds| && d.author.id == authorIds[j]
  }

  predicate TitleMatches(d: Document, prefixes: Option<seq<string>>) {
    prefixes.Some? && AnyTitlePrefix(d, prefixes.value)
  }

  predicate ContentMatches(d: Document, contents: Option<seq<string>>) {
    contents.Some? && AnyContent(d, contents.value)
  }

  predicate AuthorMatches(d: Document, authorIds: Option<seq<string>>) {
    authorIds.Some? && AnyAuthor(d, authorIds.value)
  }

  /** Strictly later than the lower bound (`Instant.isAfter`). */
  predicate CreatedAfter(d: Document, from: Option<int>) {
    from.Some? && d.created > from.value
  }

  /** Strictly earlier than the upper bound (`Instant.isBefore`). */
  predicate CreatedBefore(d: Document, to: Option<int>) {
    to.Some? && d.created < to.value
  }

  /** A document is selected when it satisfies at least one active
      criterion: the criteria are ORed, the two date bounds included. */
  predicate Matches(req: SearchRequest, d: Document) {
    || TitleMatches(d, req.titlePrefixes)
    || ContentMatches(d, req.containsContents)
    || AuthorMatches(d, req.authorIds)
    || CreatedAfter(d, req.createdFrom)
    || CreatedBefore(d, req.createdTo)
  }

  /** The stored documents that a single test selects. */
  function Selected(db: map<string, Document>, test: Document -> bool): set<Document> {
    set d | d in db.Values && test(d)
  }

  /** The stored documents a request selects. */
  function Matching(db: map<string, Document>, req: SearchRequest): set<Document> {
    set d | d in db.Values && Matches(req, d)
  }

  /** The stored documents each part of a request selects on its own. */
  function ByTitle(db: map<string, Document>, req: SearchRequest): set<Document> {
    set d | d in db.Values && TitleMatches(d, req.titlePrefixes)
  }

  function ByContent(db: map<string, Document>, req: SearchRequest): set<Document> {
    set d | d in db.Values && ContentMatches(d, req.containsContents)
  }

  function ByAuthor(db: map<string, Document>, req: SearchRequest): set<Document> {
    set d | d in db.Values && AuthorMatches(d, req.authorIds)
  }

  function ByCreated(db: map<string, Document>, req: SearchRequest): set<Document> {
    set d | d in db.Values && (CreatedAfter(d, req.createdFrom) || CreatedBefore(d, req.createdTo))
  }

  /** What a request selects is the union of what its parts select. */
  lemma MatchingIsUnion(db: map<string, Document>, req: SearchRequest)
    ensures Matching(db, req) == ByTitle(db, req) + ByContent(db, req) + ByAuthor(db, req) + ByCreated(db, req)
  {
  }

  lemma AnyTitlePrefixAppend(d: Document, a: seq<string>, b: seq<string>)
    ensures AnyTitlePrefix(d, a + b) <==> AnyTitlePrefix(d, a) || AnyTitlePrefix(d, b)
  {
    if AnyTitlePrefix(d, a + b) {
      var j :| 0 <= j < |a + b| && StartsWith(d.title, (a + b)[j]);
      if j >= |a| {
        assert StartsWith(d.title, b[j - |a|]);
      }
    }
    if AnyTitlePrefix(d, a) {
      var j :| 0 <= j < |a| && StartsWith(d.title, a[j]);
      assert (a + b)[j] == a[j];
      assert StartsWith(d.title, (a + b)[j]);
    }
    if AnyTitlePrefix(d, b) {
      var j :| 0 <= j < |b| && StartsWith(d.title, b[j]);
      assert (a + b)[|a| + j] == b[j];
      assert StartsWith(d.title, (a + b)[|a| + j]);
    }
  }

  lemma AnyContentAppend(d: Document, a: seq<string>, b: seq<string>)
    ensures AnyContent(d, a + b) <==> AnyContent(d, a) || AnyContent(d, b)
  {
    if AnyContent(d, a + b) {
      var j :| 0 <= j < |a + b| && Contains(d.content, (a + b)[j]);
      if j >= |a| {
        assert Contains(d.content, b[j - |a|]);
      }
    }
    if AnyContent(d, a) {
      var j :| 0 <= j < |a| && Contains(d.content, a[j]);
      assert (a + b)[j] == a[j];
      assert Contains(d.content, (a + b)[j]);
    }
    if AnyContent(d, b) {
      var j :| 0 <= j < |b| && Contains(d.content, b[j]);
      assert (a + b)[|a| + j] == b[j];
      assert Contains(d.content, (a + b)[|a| + j]);
    }
  }

  lemma AnyAuthorAppend(d: Document, a: seq<string>, b: seq<string>)
    ensures AnyAuthor(d, a + b) <==> AnyAuthor(d, a) || AnyAuthor(d, b)
  {
    if AnyAuthor(d, a + b) {
      var j :| 0 <= j < |a + b| && d.author.id == (a + b)[j];
      if j >= |a| {
        assert d.author.id == b[j - |a|];
      }
    }
    if AnyAuthor(d, a) {
      var j :| 0 <= j < |a| && d.author.id == a[j];
      assert (a + b)[j] == a[j];
      assert d.author.id == (a + b)[j];
    }
    if AnyAuthor(d, b) {
      var j :| 0 <= j < |b| && d.author.id == b[j];
      assert (a + b)[|a| + j] == b[j];
      assert d.author.id == (a + b)[|a| + j];
    }
  }
}
