/** elasticsearch.go of the repository layer: the tag lookups over a struct
    type, the existence probe, and the two read paths that graft the hit
    envelope's _id (and _version) back into the stored document. */
module Elasticsearch {
  import opened Wrappers
  import opened Fields
  import opened Engine

  // ---------------------------------------------------------------------
  // Tag lookups (elasticsearch.go:15-73)

  /** The scan of findBsonField from position i on. */
  function FindBsonFrom(shape: seq<Field>, bsonName: string, i: nat): (r: (int, string, string))
    requires i <= |shape|
    ensures r.0 == -1 ==> (r.1 == "" && r.2 == "" &&
      forall j :: i <= j < |shape| ==> !HasMarker(shape[j].bson, bsonName))
    ensures r.0 != -1 ==> (i <= r.0 < |shape| && HasMarker(shape[r.0].bson, bsonName) &&
      (forall j :: i <= j < r.0 ==> !HasMarker(shape[j].bson, bsonName)) &&
      r.1 == shape[r.0].name && r.2 == JsonNameOr(shape[r.0]))
    decreases |shape| - i
  {
    if i == |shape| then (-1, "", "")
    else if HasMarker(shape[i].bson, bsonName) then (i, shape[i].name, JsonNameOr(shape[i]))
    else FindBsonFrom(shape, bsonName, i + 1)
  }

  /** findBsonField: the first field whose bson tag has a component that
      trims to `bsonName`, with its Go name and json name; (-1, "", "")
      when there is none. */
  function FindBsonField(shape: seq<Field>, bsonName: string): (r: (int, string, string))
    ensures r.0 == -1 ==> (r.1 == "" && r.2 == "" &&
      forall j :: 0 <= j < |shape| ==> !HasMarker(shape[j].bson, bsonName))
    ensures r.0 != -1 ==> (0 <= r.0 < |shape| && HasMarker(shape[r.0].bson, bsonName) &&
      (forall j :: 0 <= j < r.0 ==> !HasMarker(shape[j].bson, bsonName)) &&
      r.1 == shape[r.0].name && r.2 == JsonNameOr(shape[r.0]))
  {
    FindBsonFrom(shape, bsonName, 0)
  }

  /** FindIdField: the field tagged bson:"_id". */
  function FindIdField(shape: seq<Field>): (r: (int, string, string))
    ensures r.0 == -1 <==> forall j :: 0 <= j < |shape| ==> !HasMarker(shape[j].bson, "_id")
    ensures r.0 != -1 ==> (0 <= r.0 < |shape| && HasMarker(shape[r.0].bson, "_id") &&
      (forall j :: 0 <= j < r.0 ==> !HasMarker(shape[j].bson, "_id")) &&
      r.2 == JsonNameOr(shape[r.0]))
  {
    FindBsonField(shape, "_id")
  }

  function FindNameFrom(shape: seq<Field>, fieldName: string, i: nat): (r: (int, string))
    requires i <= |shape|
    ensures r.0 == -1 ==> r.1 == fieldName && forall j :: i <= j < |shape| ==> shape[j].name != fieldName
    ensures r.0 != -1 ==> (i <= r.0 < |shape| && shape[r.0].name == fieldName &&
      (forall j :: i <= j < r.0 ==> shape[j].name != fieldName) && r.1 == JsonNameOr(shape[r.0]))
    decreases |shape| - i
  {
    if i == |shape| then (-1, fieldName)
    else if shape[i].name == fieldName then
      (i, if shape[i].json.Some? then TagName(shape[i].json.value) else fieldName)
    else FindNameFrom(shape, fieldName, i + 1)
  }

  /** FindFieldByName: the first field with exactly that Go name and its
      json name (the name itself when there is no json tag); (-1, fieldName)
      when there is none. */
  function FindFieldByName(shape: seq<Field>, fieldName: string): (r: (int, string))
    ensures r.0 == -1 ==> r.1 == fieldName && forall j :: 0 <= j < |shape| ==> shape[j].name != fieldName
    ensures r.0 != -1 ==> (0 <= r.0 < |shape| && shape[r.0].name == fieldName &&
      (forall j :: 0 <= j < r.0 ==> shape[j].name != fieldName) && r.1 == JsonNameOr(shape[r.0]))
  {
    FindNameFrom(shape, fieldName, 0)
  }

  /** A field FindFieldByJson accepts: it has a json tag whose first
      component is the key. */
  predicate JsonMatches(f: Field, key: string) {
    f.json.Some? && TagName(f.json.value) == key
  }

  function FindJsonFrom(shape: seq<Field>, key: string, i: nat): (r: (int, string))
    requires i <= |shape|
    ensures r.0 == -1 ==> r.1 == key && forall j :: i <= j < |shape| ==> !JsonMatches(shape[j], key)
    ensures r.0 != -1 ==> (i <= r.0 < |shape| && JsonMatches(shape[r.0], key) &&
      (forall j :: i <= j < r.0 ==> !JsonMatches(shape[j], key)) && r.1 == shape[r.0].name)
    decreases |shape| - i
  {
    if i == |shape| then (-1, key)
    else if shape[i].json.Some? && TagName(shape[i].json.value) == key then (i, shape[i].name)
    else FindJsonFrom(shape, key, i + 1)
  }

  /** FindFieldByJson: the first field whose json tag names the key, with
      its Go name; a field without a json tag never matches, even when its
      Go name equals the key. (-1, key) when there is none. */
  function FindFieldByJson(shape: seq<Field>, key: string): (r: (int, string))
    ensures r.0 == -1 ==> r.1 == key && forall j :: 0 <= j < |shape| ==> !JsonMatches(shape[j], key)
    ensures r.0 != -1 ==> (0 <= r.0 < |shape| && JsonMatches(shape[r.0], key) &&
      (forall j :: 0 <= j < r.0 ==> !JsonMatches(shape[j], key)) && r.1 == shape[r.0].name)
  {
    FindJsonFrom(shape, key, 0)
  }

  /** FindFieldByIndex: the Go name and json name at a position; ("", "")
      past the last field, and an empty json name for a field without a
      json tag. */
  function FindFieldByIndex(shape: seq<Field>, fieldIndex: nat): (r: (string, string))
    ensures fieldIndex >= |shape| ==> r == ("", "")
    ensures fieldIndex < |shape| ==> r.0 == shape[fieldIndex].name
    ensures fieldIndex < |shape| && shape[fieldIndex].json.None? ==> r.1 == ""
    ensures fieldIndex < |shape| && shape[fieldIndex].json.Some? ==> JsonMatches(shape[fieldIndex], r.1)
  {
    if fieldIndex < |shape| then
      var f := shape[fieldIndex];
      (f.name, if f.json.Some? then TagName(f.json.value) else "")
    else ("", "")
  }

  /** Looking a field up by json name and then by position gives back the
      same field's names. */
  lemma ByJsonThenByIndex(shape: seq<Field>, key: string)
    requires FindFieldByJson(shape, key).0 != -1
    ensures FindFieldByIndex(shape, FindFieldByJson(shape, key).0 as nat) == (FindFieldByJson(shape, key).1, key)
  {
  }

  /** Looking a field up by name and then by position gives back the name,
      and the same json name when the field has a json tag. */
  lemma ByNameThenByIndex(shape: seq<Field>, name: string)
    requires FindFieldByName(shape, name).0 != -1
    ensures var (i, json) := FindFieldByName(shape, name);
      FindFieldByIndex(shape, i as nat).0 == name &&
      (shape[i].json.Some? ==> FindFieldByIndex(shape, i as nat).1 == json)
  {
  }

  // ---------------------------------------------------------------------
  // Exist (elasticsearch.go:75-96)

  /** Exist: the found flag of the reply; any failure reads as not found,
      with an error ("response error" for an engine error). */
  function Exist(index: string, documentId: string, resp: Response<bool>): (r: (Request, bool, Option<Error>))
    ensures r.0 == ExistsDoc(index, documentId)
    ensures r.1 <==> resp == Ok(true)
    ensures r.2.None? <==> resp.Ok?
    ensures resp.EngineError? ==> r.2 == Some(ResponseError)
    ensures resp.TransportError? || resp.Undecodable? ==> r.2 == Some(resp.message)
  {
    var req := ExistsDoc(index, documentId);
    match resp
    case TransportError(msg) => (req, false, Some(msg))
    case EngineError => (req, false, Some(ResponseError))
    case Undecodable(msg) => (req, false, Some(msg))
    case Ok(found) => (req, found, None)
  }

  /** The reply to the document-exists call, which is a HEAD request: a
      status line and never a body. */
  datatype HeadReply = HeadFailed(message: string) | HeadStatus(code: int)

  /** The decoding error of an empty body. */
  const EmptyBodyError: Error := "EOF"

  /** What Exist as written reads from a HEAD reply: a status above 299 is
      an error status, and any other reply has an empty body, which does
      not decode. */
  function HeadAsResponse(reply: HeadReply): (resp: Response<bool>)
    ensures resp.TransportError? <==> reply.HeadFailed?
    ensures resp.EngineError? <==> reply.HeadStatus? && reply.code > 299
    ensures !resp.Ok?
  {
    match reply
    case HeadFailed(msg) => TransportError(msg)
    case HeadStatus(code) => if code > 299 then EngineError else Undecodable(EmptyBodyError)
  }

  /** Exist as written never says found: the document that is there (200)
      gives the empty body's decoding error, the one that is not (404) gives
      "response error". */
  lemma ExistNeverFound(index: string, documentId: string, reply: HeadReply)
    ensures !Exist(index, documentId, HeadAsResponse(reply)).1
    ensures Exist(index, documentId, HeadAsResponse(HeadStatus(200))).2 == Some(EmptyBodyError)
    ensures Exist(index, documentId, HeadAsResponse(HeadStatus(404))).2 == Some(ResponseError)
  {
  }

  /** Exist as evidently intended for a HEAD call: the status decides; 404
      is "not found" without error, any other error status is "response
      error". */
  function ExistCorrected(index: string, documentId: string, reply: HeadReply): (r: (Request, bool, Option<Error>))
    ensures r.0 == ExistsDoc(index, documentId)
    ensures r.1 <==> reply.HeadStatus? && 200 <= reply.code <= 299
    ensures r.2.None? <==> reply.HeadStatus? && (200 <= reply.code <= 299 || reply.code == 404)
    ensures reply.HeadFailed? ==> r.2 == Some(reply.message)
    ensures reply.HeadStatus? && reply.code > 299 && reply.code != 404 ==> r.2 == Some(ResponseError)
    ensures reply.HeadFailed? || (reply.HeadStatus? && reply.code > 299 && reply.code != 404) ==>
      r.2 == Exist(index, documentId, HeadAsResponse(reply)).2
  {
    var req := ExistsDoc(index, documentId);
    match reply
    case HeadFailed(msg) => (req, false, Some(msg))
    case HeadStatus(code) =>
      if 200 <= code <= 299 then (req, true, None)
      else if code == 404 then (req, false, None)
      else (req, false, Some(ResponseError))
  }

  // ---------------------------------------------------------------------
  // FindOne and FindOneWithVersion (elasticsearch.go:97-129)

  /** The grafting step: the envelope's _id under idJson and its _version
      under versionJson, each only when that name is non-empty. */
  function Graft(source: Document, idJson: string, id: string, versionJson: string, version: nat): (d: Document)
    ensures d.Keys == source.Keys + (if idJson == "" then {} else {idJson}) + (if versionJson == "" then {} else {versionJson})
    ensures versionJson != "" ==> d[versionJson] == Num(version)
    ensures idJson != "" && idJson != versionJson ==> d[idJson] == Str(id)
    ensures forall k :: k in source && k != idJson && k != versionJson ==> d[k] == source[k]
  {
    var withId := if |idJson| > 0 then source[idJson := Str(id)] else source;
    if |versionJson| > 0 then withId[versionJson := Num(version)] else withId
  }

  /** What a lookup reports: found, an error, and the decoded record, which
      is there exactly when found. */
  datatype Lookup<T> = Lookup(found: bool, err: Option<Error>, value: Option<T>)
  {
    /** What a repository's Load makes of a lookup: the record when found
        without error, otherwise nothing and the lookup's error. */
    function Answer(): (a: (Option<T>, Option<Error>))
      requires found <==> value.Some?
      ensures a.0.Some? <==> found && err.None?
      ensures a.0.Some? ==> a.0 == value && a.1.None?
      ensures a.0.None? ==> a.1 == err
    {
      if !found || err.Some? then (None, err) else (value, None)
    }
  }

  /** FindOneWithVersion as written. When the body does not decode, the
      error returned is the outer `err` of the request, which is nil there,
      so the failure is reported as "not found, no error". */
  function FindOneWithVersion<T>(index: string, documentId: string, idJson: string, versionJson: string,
                                 resp: Response<GetReply>, decode: Document -> Result<T>): (r: (Request, Lookup<T>))
    ensures r.0 == GetDoc(index, documentId)
    ensures r.1.found <==> r.1.value.Some?
    ensures r.1.found ==> (r.1.err.None? && resp.Ok? &&
      decode(Graft(resp.body.source, idJson, resp.body.id, versionJson, resp.body.version)) == Success(r.1.value.value))
    ensures resp.Ok? ==> (
      var decoded := decode(Graft(resp.body.source, idJson, resp.body.id, versionJson, resp.body.version));
      && (r.1.found <==> decoded.Success?)
      && (decoded.Failure? ==> r.1.err == Some(decoded.error)))
    ensures resp.TransportError? ==> r.1 == Lookup(false, Some(resp.message), None)
    ensures resp.EngineError? ==> r.1 == Lookup(false, Some(ResponseError), None)
    ensures resp.Undecodable? ==> r.1 == Lookup(false, None, None)
  {
    var req := GetDoc(index, documentId);
    match resp
    case TransportError(msg) => (req, Lookup(false, Some(msg), None))
    case EngineError => (req, Lookup(false, Some(ResponseError), None))
    case Undecodable(_) => (req, Lookup(false, None, None))
    case Ok(reply) =>
      match decode(Graft(reply.source, idJson, reply.id, versionJson, reply.version))
      case Failure(e) => (req, Lookup(false, Some(e), None))
      case Success(v) => (req, Lookup(true, None, Some(v)))
  }

  /** FindOneWithVersion with the body's decode error returned, as its
      author evidently meant: every lookup that does not find reports why. */
  function FindOneWithVersionCorrected<T>(index: string, documentId: string, idJson: string, versionJson: string,
                                          resp: Response<GetReply>, decode: Document -> Result<T>): (r: (Request, Lookup<T>))
    ensures r.0 == GetDoc(index, documentId)
    ensures r.1.found <==> r.1.value.Some?
    ensures r.1.found <==> r.1.err.None?
    ensures r.1.found ==> (resp.Ok? &&
      decode(Graft(resp.body.source, idJson, resp.body.id, versionJson, resp.body.version)) == Success(r.1.value.value))
    ensures resp.Ok? ==> (
      var decoded := decode(Graft(resp.body.source, idJson, resp.body.id, versionJson, resp.body.version));
      && (r.1.found <==> decoded.Success?)
      && (decoded.Failure? ==> r.1.err == Some(decoded.error)))
    ensures resp.TransportError? ==> r.1.err == Some(resp.message)
    ensures resp.EngineError? ==> r.1.err == Some(ResponseError)
    ensures resp.Undecodable? ==> r.1.err == Some(resp.message)
    ensures !resp.Undecodable? ==> r == FindOneWithVersion(index, documentId, idJson, versionJson, resp, decode)
  {
    match resp
    case Undecodable(msg) => (GetDoc(index, documentId), Lookup(false, Some(msg), None))
    case _ => FindOneWithVersion(index, documentId, idJson, versionJson, resp, decode)
  }

  /** The input that shows the swallowed decode error: a reply whose body
      does not decode yields "not found" with no error as written, and the
      decode error once corrected. */
  lemma DecodeErrorSwallowed<T>(index: string, documentId: string, idJson: string, decode: Document -> Result<T>)
    ensures FindOneWithVersion(index, documentId, idJson, "", Undecodable("unexpected EOF"), decode).1 == Lookup(false, None, None)
    ensures FindOneWithVersionCorrected(index, documentId, idJson, "", Undecodable("unexpected EOF"), decode).1 ==
      Lookup(false, Some("unexpected EOF"), None)
  {
  }

  /** FindOne: FindOneWithVersion without a version field, as written, so
      an undecodable body is still "not found, no error". */
  function FindOne<T>(index: string, documentId: string, idJson: string,
                      resp: Response<GetReply>, decode: Document -> Result<T>): (r: (Request, Lookup<T>))
    ensures r.0 == GetDoc(index, documentId)
    ensures r.1.found <==> r.1.value.Some?
    ensures r.1.found ==> (r.1.err.None? && resp.Ok? &&
      decode(Graft(resp.body.source, idJson, resp.body.id, "", 0)) == Success(r.1.value.value))
    ensures resp.Ok? ==> (
      var decoded := decode(Graft(resp.body.source, idJson, resp.body.id, "", 0));
      && (r.1.found <==> decoded.Success?)
      && (decoded.Failure? ==> r.1.err == Some(decoded.error)))
    ensures resp.TransportError? ==> r.1 == Lookup(false, Some(resp.message), None)
    ensures resp.EngineError? ==> r.1 == Lookup(false, Some(ResponseError), None)
    ensures resp.Undecodable? ==> r.1 == Lookup(false, None, None)
  {
    FindOneWithVersion(index, documentId, idJson, "", resp, decode)
  }

  /** FindOne over the corrected lookup: found exactly when there is no
      error. */
  function FindOneCorrected<T>(index: string, documentId: string, idJson: string,
                               resp: Response<GetReply>, decode: Document -> Result<T>): (r: (Request, Lookup<T>))
    ensures r.0 == GetDoc(index, documentId)
    ensures r.1.found <==> r.1.value.Some?
    ensures r.1.found <==> r.1.err.None?
    ensures r.1.found ==> (resp.Ok? && decode(Graft(resp.body.source, idJson, resp.body.id, "", 0)) == Success(r.1.value.value))
    ensures resp.Ok? ==> (r.1.found <==> decode(Graft(resp.body.source, idJson, resp.body.id, "", 0)).Success?)
    ensures resp.Undecodable? ==> r.1.err == Some(resp.message)
    ensures !resp.Undecodable? ==> r == FindOne(index, documentId, idJson, resp, decode)
  {
    FindOneWithVersionCorrected(index, documentId, idJson, "", resp, decode)
  }

  // ---------------------------------------------------------------------
  // Find and FindWithVersion (elasticsearch.go:130-170)

  /** A hit's source with its _id under idJson, when idJson is non-empty. */
  function WithId(source: Document, idJson: string, id: string): (d: Document)
    ensures d == Graft(source, idJson, id, "", 0)
  {
    if |idJson| > 0 then source[idJson := Str(id)] else source
  }

  /** The documents FindWithVersion decodes, one per hit in hit order.
      As written, the version is stored into the hit envelope, which is
      then dropped, so versionJson has no effect on them. */
  method HitDocuments(hits: seq<Hit>, idJson: string, versionJson: string) returns (listResults: seq<Document>)
    ensures |listResults| == |hits|
    ensures forall k :: 0 <= k < |hits| ==> listResults[k] == WithId(hits[k].source, idJson, hits[k].id)
  {
    listResults := [];
    var i := 0;
    while i < |hits|
      invariant 0 <= i <= |hits|
      invariant |listResults| == i
      invariant forall k :: 0 <= k < i ==> listResults[k] == WithId(hits[k].source, idJson, hits[k].id)
    {
      var hit := hits[i];
      var envelope: Document := map["_id" := Str(hit.id), "_version" := Num(hit.version), "_source" := Obj(hit.source)];
      var rs := hit.source;
      if |idJson| > 0 {
        rs := rs[idJson := Str(hit.id)];
      }
      if |versionJson| > 0 {
        envelope := envelope[versionJson := envelope["_version"]];
      }
      listResults := listResults + [rs];
      i := i + 1;
    }
  }

  /** The document of a hit as evidently intended: _id and _version both
      grafted into the source, as FindOneWithVersion does. */
  function HitDocumentCorrected(hit: Hit, idJson: string, versionJson: string): (d: Document)
    ensures versionJson != "" ==> versionJson in d && d[versionJson] == Num(hit.version)
    ensures idJson != "" && idJson != versionJson ==> idJson in d && d[idJson] == Str(hit.id)
    ensures versionJson == "" ==> d == WithId(hit.source, idJson, hit.id)
  {
    Graft(hit.source, idJson, hit.id, versionJson, hit.version)
  }

  /** The input that shows the lost version: a hit whose source has no
      "version" key keeps none as written, while the corrected document
      carries _version under it. */
  lemma VersionNotGrafted()
    ensures "version" !in WithId(map[], "id", "a")
    ensures HitDocumentCorrected(GetReply("a", 3, map[]), "id", "version")["version"] == Num(3)
  {
  }

  /** FindWithVersion: a search over the given indices whose hits, grafted,
      are decoded into the result; an engine error is "response error". */
  method FindWithVersion<T>(indices: seq<string>, query: Document, idJson: string, versionJson: string,
                            resp: Response<seq<Hit>>, decode: seq<Document> -> Result<T>)
    returns (req: Request, result: Result<T>)
    ensures req == SearchDocs(indices, query)
    ensures resp.TransportError? ==> result == Failure(resp.message)
    ensures resp.EngineError? ==> result == Failure(ResponseError)
    ensures resp.Undecodable? ==> result == Failure(resp.message)
    ensures resp.Ok? ==> result == decode(seq(|resp.body|, k requires 0 <= k < |resp.body| =>
      WithId(resp.body[k].source, idJson, resp.body[k].id)))
  {
    req := SearchDocs(indices, query);
    match resp {
      case TransportError(msg) => result := Failure(msg);
      case EngineError => result := Failure(ResponseError);
      case Undecodable(msg) => result := Failure(msg);
      case Ok(hits) =>
        var listResults := HitDocuments(hits, idJson, versionJson);
        assert listResults == seq(|hits|, k requires 0 <= k < |hits| => WithId(hits[k].source, idJson, hits[k].id));
        result := decode(listResults);
    }
  }

  /** The documents as evidently intended: the version is grafted into
      each hit's source, beside the id. */
  method HitDocumentsCorrected(hits: seq<Hit>, idJson: string, versionJson: string) returns (listResults: seq<Document>)
    ensures |listResults| == |hits|
    ensures forall k :: 0 <= k < |hits| ==> listResults[k] == HitDocumentCorrected(hits[k], idJson, versionJson)
  {
    listResults := [];
    var i := 0;
    while i < |hits|
      invariant 0 <= i <= |hits|
      invariant |listResults| == i
      invariant forall k :: 0 <= k < i ==> listResults[k] == HitDocumentCorrected(hits[k], idJson, versionJson)
    {
      var hit := hits[i];
      var rs := hit.source;
      if |idJson| > 0 {
        rs := rs[idJson := Str(hit.id)];
      }
      if |versionJson| > 0 {
        rs := rs[versionJson := Num(hit.version)];
      }
      listResults := listResults + [rs];
      i := i + 1;
    }
  }

  /** FindWithVersion with the version grafted into every result. */
  method FindWithVersionCorrected<T>(indices: seq<string>, query: Document, idJson: string, versionJson: string,
                                     resp: Response<seq<Hit>>, decode: seq<Document> -> Result<T>)
    returns (req: Request, result: Result<T>)
    ensures req == SearchDocs(indices, query)
    ensures resp.TransportError? ==> result == Failure(resp.message)
    ensures resp.EngineError? ==> result == Failure(ResponseError)
    ensures resp.Undecodable? ==> result == Failure(resp.message)
    ensures resp.Ok? ==> result == decode(seq(|resp.body|, k requires 0 <= k < |resp.body| =>
      HitDocumentCorrected(resp.body[k], idJson, versionJson)))
  {
    req := SearchDocs(indices, query);
    match resp {
      case TransportError(msg) => result := Failure(msg);
      case EngineError => result := Failure(ResponseError);
      case Undecodable(msg) => result := Failure(msg);
      case Ok(hits) =>
        var listResults := HitDocumentsCorrected(hits, idJson, versionJson);
        assert listResults == seq(|hits|, k requires 0 <= k < |hits| => HitDocumentCorrected(hits[k], idJson, versionJson));
        result := decode(listResults);
    }
  }

  /** Find: FindWithVersion without a version field; with no version name
      the written and the corrected code agree. */
  method Find<T>(indices: seq<string>, query: Document, idJson: string,
                 resp: Response<seq<Hit>>, decode: seq<Document> -> Result<T>)
    returns (req: Request, result: Result<T>)
    ensures req == SearchDocs(indices, query)
    ensures resp.Ok? ==> result == decode(seq(|resp.body|, k requires 0 <= k < |resp.body| =>
      WithId(resp.body[k].source, idJson, resp.body[k].id)))
    ensures resp.TransportError? ==> result == Failure(resp.message)
    ensures resp.EngineError? ==> result == Failure(ResponseError)
    ensures resp.Undecodable? ==> result == Failure(resp.message)
  {
    req, result := FindWithVersionCorrected(indices, query, idJson, "", resp, decode);
    if resp.Ok? {
      assert seq(|resp.body|, k requires 0 <= k < |resp.body| => HitDocumentCorrected(resp.body[k], idJson, "")) ==
        seq(|resp.body|, k requires 0 <= k < |resp.body| => WithId(resp.body[k].source, idJson, resp.body[k].id));
    }
  }
}
