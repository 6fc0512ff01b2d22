/** The search engine as the repository layer sees it: the requests it is
    sent, the replies it gives, and the (count, error) pair every write
    operation returns. The client, the HTTP transport and response body
    decoding are replaced by the abstract `Response`. */
module Engine {
  import opened Wrappers
  import opened Fields

  /** A request addressed to one index (a search to a list of indices). */
  datatype Request =
    | CreateDoc(index: string, givenId: Option<string>, body: Document)
    | UpdateDoc(index: string, documentId: string, body: Document)
    | IndexDoc(index: string, documentId: string, body: Document)
    | DeleteDoc(index: string, documentId: string)
    | ExistsDoc(index: string, documentId: string)
    | GetDoc(index: string, documentId: string)
    | SearchDocs(indices: seq<string>, query: Document)

  /** What a request yields: a transport failure (req.Do returned an error),
      an error status from the engine (res.IsError()), a body that does not
      decode, or a decoded reply of type B. */
  datatype Response<B> =
    | TransportError(message: string)
    | EngineError
    | Undecodable(message: string)
    | Ok(body: B)

  /** The reply to a get: the hit envelope's _id, _version and _source. */
  datatype GetReply = GetReply(id: string, version: nat, source: Document)

  /** One element of hits.hits in a search reply. */
  type Hit = GetReply

  /** The (int64, error) pair of the write operations. */
  datatype Outcome = Outcome(count: int, err: Option<Error>)

  const NotExists: Error := "document ID not exists in the index"
  const ResponseError: Error := "response error"

  /** The outcome signal every write keeps: an error comes with -1, and a
      result without error is a non-negative count. */
  predicate Signalled(o: Outcome) {
    && (o.err.Some? <==> o.count < 0)
    && (o.count < 0 ==> o.count == -1)
  }

  /** The {"doc": ...} wrapper of update, patch and save bodies. */
  function DocBody(doc: Document): (body: Document)
    ensures body.Keys == {"doc"} && body["doc"] == Obj(doc)
  {
    map["doc" := Obj(doc)]
  }
}
