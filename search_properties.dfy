/** What the search rule implies: union semantics, independent date bounds,
    inactive and empty criteria, growth with more criteria, one result per key. */
module SearchProperties {
  import opened Wrappers
  import opened Records
  import opened Criteria
  import opened Store

  /** A request with every field null selects nothing, whatever is stored. */
  lemma NoCriteriaFindsNothing(db: map<string, Document>)
    ensures Matching(db, NoCriteria) == {}
  {
  }

  /** An empty list is a present criterion that selects nothing: it selects
      exactly what the null field would. */
  lemma EmptyListAddsNothing(req: SearchRequest, d: Document)
    ensures Matches(req.(titlePrefixes := Some([])), d) <==> Matches(req.(titlePrefixes := None), d)
    ensures Matches(req.(containsContents := Some([])), d) <==> Matches(req.(containsContents := None), d)
    ensures Matches(req.(authorIds := Some([])), d) <==> Matches(req.(authorIds := None), d)
  {
  }

  /** The two date bounds are ORed, not intersected. */
  lemma DateBoundsAreOred(d: Document, from: int, to: int)
    ensures Matches(NoCriteria.(createdFrom := Some(from), createdTo := Some(to)), d)
        <==> d.created > from || d.created < to
  {
  }

  /** The document created at 100 against the bounds 50 and 10. */
  lemma DateBoundsExample(d: Document)
    requires d.created == 100
    ensures Matches(NoCriteria.(createdFrom := Some(50)), d)
    ensures !Matches(NoCriteria.(createdTo := Some(10)), d)
    ensures Matches(NoCriteria.(createdFrom := Some(50), createdTo := Some(10)), d)
  {
  }

  /** Consequently, bounds that overlap as a range would select every stored document. */
  lemma OverlappingBoundsSelectEverything(db: map<string, Document>, from: int, to: int)
    requires from < to
    ensures Matching(db, NoCriteria.(createdFrom := Some(from), createdTo := Some(to))) == db.Values
  {
  }

  /** Splitting a criterion's list in two splits the result into a union. */
  lemma {:induction false} AppendedListsUnite(db: map<string, Document>, req: SearchRequest, a: seq<string>, b: seq<string>)
    ensures Matching(db, req.(titlePrefixes := Some(a + b)))
         == Matching(db, req.(titlePrefixes := Some(a))) + Matching(db, req.(titlePrefixes := Some(b)))
    ensures Matching(db, req.(containsContents := Some(a + b)))
         == Matching(db, req.(containsContents := Some(a))) + Matching(db, req.(containsContents := Some(b)))
    ensures Matching(db, req.(authorIds := Some(a + b)))
         == Matching(db, req.(authorIds := Some(a))) + Matching(db, req.(authorIds := Some(b)))
  {
    forall d | d in db.Values
      ensures AnyTitlePrefix(d, a + b) <==> AnyTitlePrefix(d, a) || AnyTitlePrefix(d, b)
      ensures AnyContent(d, a + b) <==> AnyContent(d, a) || AnyContent(d, b)
      ensures AnyAuthor(d, a + b) <==> AnyAuthor(d, a) || AnyAuthor(d, b)
    {
      AnyTitlePrefixAppend(d, a, b);
      AnyContentAppend(d, a, b);
      AnyAuthorAppend(d, a, b);
    }
  }

  /** Every value of `a`, if present, is also a value of `b`. */
  predicate ListWidens(a: Option<seq<string>>, b: Option<seq<string>>) {
    a.Some? ==> b.Some? && forall x :: x in a.value ==> x in b.value
  }

  /** `wider` has every criterion of `req`, and date bounds at least as loose. */
  predicate Widens(req: SearchRequest, wider: SearchRequest) {
    && ListWidens(req.titlePrefixes, wider.titlePrefixes)
    && ListWidens(req.containsContents, wider.containsContents)
    && ListWidens(req.authorIds, wider.authorIds)
    && (req.createdFrom.Some? ==> wider.createdFrom.Some? && wider.createdFrom.value <= req.createdFrom.value)
    && (req.createdTo.Some? ==> wider.createdTo.Some? && wider.createdTo.value >= req.createdTo.value)
  }

  /** Supplying more criteria never removes a result. */
  lemma MoreCriteriaNeverFewerResults(db: map<string, Document>, req: SearchRequest, wider: SearchRequest)
    requires Widens(req, wider)
    ensures Matching(db, req) <= Matching(db, wider)
  {
    forall d | d in db.Values && Matches(req, d)
      ensures Matches(wider, d)
    {
      if TitleMatches(d, req.titlePrefixes) {
        var ps, ws := req.titlePrefixes.value, wider.titlePrefixes.value;
        var j :| 0 <= j < |ps| && StartsWith(d.title, ps[j]);
        assert ps[j] in ws;
        var k :| 0 <= k < |ws| && ws[k] == ps[j];
        assert StartsWith(d.title, ws[k]);
      } else if ContentMatches(d, req.containsContents) {
        var cs, ws := req.containsContents.value, wider.containsContents.value;
        var j :| 0 <= j < |cs| && Contains(d.content, cs[j]);
        assert cs[j] in ws;
        var k :| 0 <= k < |ws| && ws[k] == cs[j];
        assert Contains(d.content, ws[k]);
      } else if AuthorMatches(d, req.authorIds) {
        var ids, ws := req.authorIds.value, wider.authorIds.value;
        var j :| 0 <= j < |ids| && d.author.id == ids[j];
        assert ids[j] in ws;
        var k :| 0 <= k < |ws| && ws[k] == ids[j];
        assert d.author.id == ws[k];
      }
    }
  }

  /** Under the store's invariant distinct keys hold distinct documents. */
  lemma {:induction false} KeysToDocumentsIsInjective(db: map<string, Document>, keys: set<string>)
    requires Consistent(db) && keys <= db.Keys
    ensures |set k | k in keys :: db[k]| == |keys|
    decreases keys
  {
    if keys != {} {
      var k :| k in keys;
      var rest := keys - {k};
      KeysToDocumentsIsInjective(db, rest);
      assert (set x | x in keys :: db[x]) == (set x | x in rest :: db[x]) + {db[k]};
      assert db[k] !in (set x | x in rest :: db[x]);
    }
  }

  /** The result set deduplicates by identity: it has one document per
      matching key. */
  lemma OneResultPerMatchingKey(db: map<string, Document>, req: SearchRequest)
    requires Consistent(db)
    ensures |Matching(db, req)| == |set k | k in db && Matches(req, db[k])|
  {
    var keys := set k | k in db && Matches(req, db[k]);
    assert Matching(db, req) == set k | k in keys :: db[k];
    KeysToDocumentsIsInjective(db, keys);
  }

  const ReportDoc := Document("a", "Report", "Q3 sales", Author("u1", "Ann"), 1)
  const BudgetDoc := Document("b", "Notes", "the budget", Author("u2", "Bob"), 2)
  const TitleOrContent := NoCriteria.(titlePrefixes := Some(["Rep"]), containsContents := Some(["budget"]))

  lemma ExampleDocumentsMeetOneCriterionEach()
    ensures TitleMatches(ReportDoc, TitleOrContent.titlePrefixes) && !Contains(ReportDoc.content, "budget")
    ensures ContentMatches(BudgetDoc, TitleOrContent.containsContents) && !StartsWith(BudgetDoc.title, "Rep")
  {
    assert StartsWith(ReportDoc.title, TitleOrContent.titlePrefixes.value[0]);
    assert "budget" <= BudgetDoc.content[4..];
    assert Contains(BudgetDoc.content, TitleOrContent.containsContents.value[0]);
    assert BudgetDoc.title[0] != "Rep"[0];
    forall i | 0 <= i <= |ReportDoc.content| - |"budget"|
      ensures !("budget" <= ReportDoc.content[i..])
    {
      assert ReportDoc.content[i..][0] != 'b';
    }
  }

  /** Two documents each matching only one of two criteria are both found. */
  lemma UnionOfCriteriaExample()
    ensures !Contains(ReportDoc.content, "budget") && !StartsWith(BudgetDoc.title, "Rep")
    ensures Matching(map["a" := ReportDoc, "b" := BudgetDoc], TitleOrContent) == {ReportDoc, BudgetDoc}
  {
    ExampleDocumentsMeetOneCriterionEach();
    var db := map["a" := ReportDoc, "b" := BudgetDoc];
    assert db["a"] == ReportDoc && db["b"] == BudgetDoc;
    assert db.Values == {ReportDoc, BudgetDoc};
  }
}
