/** Properties of the upsert rule across calls, and what a caller of the
    store can conclude from the operations' contracts alone. */
module StoreProperties {
  import opened Wrappers
  import opened Records
  import opened Criteria
  import opened Store

  /** Saving the document that `save` returned changes nothing. */
  lemma ResaveIsNoOp(db: map<string, Document>, d: Document, freshId: string, otherId: string)
    requires Consistent(db)
    requires d.id == "" ==> freshId != ""
    ensures var r := Upsert(db, d, freshId);
      Upsert(r.0, r.1, otherId) == r
  {
    var r := Upsert(db, d, freshId);
    assert EnsureDocumentId(r.1, otherId) == r.1;
    assert UpdateDocument(r.0[r.1.id], r.1) == r.1;
    assert r.0[r.1.id := r.1] == r.0;
  }

  /** A generated identifier that is not yet a key names exactly one stored document. */
  lemma GeneratedIdIsUnique(db: map<string, Document>, d: Document, freshId: string)
    requires Consistent(db)
    requires d.id == "" && freshId != "" && freshId !in db
    ensures var r := Upsert(db, d, freshId);
      && r.1.id == freshId
      && forall k :: k in r.0 && r.0[k].id == freshId ==> k == freshId
  {
  }

  /** A caller's view: insert with a generated id, update under that id,
      look up, and search by two criteria that the same document meets. */
  method SaveFindSearchScenario()
  {
    var manager := new DocumentManager();
    var first := manager.Save(Document("", "Report", "draft", Author("u1", "Ann"), 10), "id-1");
    assert first.id == "id-1" && first.created == 10;
    var second := manager.Save(Document("id-1", "Report v2", "final", Author("u2", "Bob"), 99), "id-2");
    assert second.id == "id-1" && second.created == 10 && second.title == "Report v2";
    assert manager.FindById("id-1") == Some(second);
    assert manager.FindById("nonexistent") == None;
    assert manager.documentsDB == map["id-1" := second];
    var request := NoCriteria.(titlePrefixes := Some(["Rep"]), authorIds := Some(["u2"]));
    var found := manager.Search(request);
    assert manager.documentsDB.Values == {second};
    assert StartsWith(second.title, ["Rep"][0]);
    assert Matching(manager.documentsDB, request) == {second};
    assert second in found;
    assert |found| == 1;
  }
}
