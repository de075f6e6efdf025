/** The three records nested in `DocumentManager`: plain values with
    structural equality, as the generated `equals` of the Java records gives. */
module Records {
  import opened Wrappers

  datatype Author = Author(id: string, name: string)

  /** A stored or to-be-stored document. An empty `id` stands for both the
      null and the empty identifier: the store treats the two alike.
      `created` is an instant on an integer time line. */
  datatype Document = Document(
    id: string,
    title: string,
    content: string,
    author: Author,
    created: int)

  /** A search request: every field may be absent (null). */
  datatype SearchRequest = SearchRequest(
    titlePrefixes: Option<seq<string>>,
    containsContents: Option<seq<string>>,
    authorIds: Option<seq<string>>,
    createdFrom: Option<int>,
    createdTo: Option<int>)

  /** The request whose every field is null. */
  const NoCriteria := SearchRequest(None, None, None, None, None)
}
