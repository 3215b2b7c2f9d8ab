/** The lunr index, seen only through `index.search(query)`: an opaque,
    deterministic function from a query string to the refs of the matching
    documents in relevance order, which throws on query text lunr's parser
    rejects. */
module Lunr {
  import opened Wrappers

  /** lunr's `QueryParseError`. */
  datatype QueryError = QueryParseError(message: string)

  datatype SearchIndex = SearchIndex(search: string -> Result<seq<string>, QueryError>)
}
