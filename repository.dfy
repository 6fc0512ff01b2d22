/** repository/repository.go: the generic repository over one index, set
    up once from a struct type and then used for every read and write. */
module Repo {
  import opened Wrappers
  import opened Fields
  import opened Engine
  import opened Write
  import Elasticsearch

  /** The reflect.Type a repository is instantiated with: a struct with its
      fields, or some other kind. */
  datatype TypeDesc = StructType(name: string, fields: seq<Field>) | OtherType(name: string)

  /** Repository[T]. Its fields are set by the constructor and never
      changed afterwards, so it is a value. */
  datatype Repository = Repository(
    index: string,
    shape: seq<Field>,
    idIndex: nat,
    idJson: string,
    versionIndex: int,
    versionJson: string,
    fieldMap: seq<FieldMap>)
  {
    /** What the constructor establishes: the id is a string field, the
        version name is empty unless the version field exists, and the field
        map is the one of the struct type (so every entry is a position of
        the struct). */
    predicate Valid() {
      && idIndex < |shape|
      && shape[idIndex].typeName == "string"
      && (versionIndex < 0 ==> versionJson == "")
      && (versionIndex >= 0 ==> versionIndex < |shape| && versionJson == JsonNameOr(shape[versionIndex]))
      && fieldMap == FieldMapOf(shape)
      && forall k :: 0 <= k < |fieldMap| ==> fieldMap[k].index < |shape|
    }

    /** The id of a struct value: its string at the id position. */
    function IdOf(model: Record): (id: string)
      requires Valid() && Conforms(shape, model)
      ensures model[idIndex] == ValueField(Str(id))
    {
      model[idIndex].v.s
    }

    /** Create: the body built from the field map, the id as document id. */
    function Create(model: Record, resp: Response<nat>): (r: (Request, Outcome))
      requires Valid() && Conforms(shape, model)
      ensures r.0 == CreateDoc(index, if IdOf(model) == "" then None else Some(IdOf(model)), BodyOf(model, fieldMap))
      ensures r.1 == CreateOutcome(resp)
    {
      Write.Create(index, BodyOf(model, fieldMap), IdOf(model), resp)
    }

    /** Update: the body built from the field map, under the model's id. */
    function Update(model: Record, resp: Response<nat>): (r: (Request, Outcome))
      requires Valid() && Conforms(shape, model)
      ensures r.0 == UpdateDoc(index, IdOf(model), DocBody(BodyOf(model, fieldMap)))
      ensures r.1 == ShardsOutcome(resp)
    {
      Write.Update(index, BodyOf(model, fieldMap), IdOf(model), resp)
    }

    /** Save: a model with an empty id is created (the engine picks the
        id); otherwise it is indexed under its id. */
    function Save(model: Record, resp: Response<nat>): (r: (Request, Outcome))
      requires Valid() && Conforms(shape, model)
      ensures IdOf(model) == "" ==> r == (CreateDoc(index, None, BodyOf(model, fieldMap)), CreateOutcome(resp))
      ensures IdOf(model) != "" ==> r == (IndexDoc(index, IdOf(model), DocBody(BodyOf(model, fieldMap))), ShardsOutcome(resp))
    {
      if |IdOf(model)| == 0 then Create(model, resp)
      else Write.Save(index, BodyOf(model, fieldMap), IdOf(model), resp)
    }

    /** Delete: the document with that id in the repository's index. */
    function Delete(id: string, resp: Response<nat>): (r: (Request, Outcome))
      ensures r.0 == DeleteDoc(index, id)
      ensures r.1 == ShardsOutcome(resp)
    {
      Write.Delete(index, id, resp)
    }

    function Exist(id: string, resp: Response<bool>): (r: (Request, bool, Option<Error>))
      ensures r.0 == ExistsDoc(index, id)
      ensures r.1 <==> resp == Ok(true)
      ensures r.2.None? <==> resp.Ok?
    {
      Elasticsearch.Exist(index, id, resp)
    }

    /** Patch: the generic patch, keyed by the id's json name. */
    method Patch(data: DocumentRef, resp: Response<nat>) returns (sent: Option<Request>, out: Outcome)
      modifies data
      ensures data.entries == old(data.entries)
      ensures Signalled(out)
      ensures sent.Some? <==> idJson in old(data.entries) && old(data.entries)[idJson].Str?
      ensures sent.Some? ==> sent.value == UpdateDoc(index, old(data.entries)[idJson].s, DocBody(old(data.entries) - {idJson}))
      ensures idJson !in old(data.entries) ==> out == Outcome(-1, Some(MissingIdError(idJson)))
      ensures idJson in old(data.entries) && !old(data.entries)[idJson].Str? ==> out == Outcome(-1, Some(Write.IdNotStringError(idJson)))
      ensures sent.Some? ==> out == ShardsOutcome(resp)
    {
      sent, out := Write.Patch(index, data, idJson, resp);
    }

    /** Load: the record when it is found, nothing otherwise, with the
        lookup's error; the id and version are grafted in before decoding.
        As written, a body that does not decode gives neither a record nor
        an error. */
    function Load<T>(id: string, resp: Response<GetReply>, decode: Document -> Result<T>): (r: (Request, Option<T>, Option<Error>))
      ensures r.0 == GetDoc(index, id)
      ensures r.1.Some? ==> r.2.None?
      ensures resp.Ok? ==> (
        var decoded := decode(Elasticsearch.Graft(resp.body.source, idJson, resp.body.id, versionJson, resp.body.version));
        && (r.1.Some? <==> decoded.Success?)
        && (decoded.Success? ==> r.1 == Some(decoded.value))
        && (decoded.Failure? ==> r.2 == Some(decoded.error)))
      ensures resp.TransportError? ==> r.1.None? && r.2 == Some(resp.message)
      ensures resp.EngineError? ==> r.1.None? && r.2 == Some(ResponseError)
      ensures resp.Undecodable? ==> r.1.None? && r.2.None?
    {
      var (req, lookup) := Elasticsearch.FindOneWithVersion(index, id, idJson, versionJson, resp, decode);
      (req, lookup.Answer().0, lookup.Answer().1)
    }

    /** Load over the corrected lookup: a record exactly when there is no
        error. */
    function LoadCorrected<T>(id: string, resp: Response<GetReply>, decode: Document -> Result<T>): (r: (Request, Option<T>, Option<Error>))
      ensures r.0 == GetDoc(index, id)
      ensures r.1.Some? <==> r.2.None?
      ensures resp.Ok? ==> (
        var decoded := decode(Elasticsearch.Graft(resp.body.source, idJson, resp.body.id, versionJson, resp.body.version));
        && (r.1.Some? <==> decoded.Success?)
        && (decoded.Success? ==> r.1 == Some(decoded.value)))
      ensures resp.EngineError? ==> r.2 == Some(ResponseError)
      ensures resp.Undecodable? ==> r.2 == Some(resp.message)
      ensures !resp.Undecodable? ==> r == Load(id, resp, decode)
    {
      var (req, lookup) := Elasticsearch.FindOneWithVersionCorrected(index, id, idJson, versionJson, resp, decode);
      (req, lookup.Answer().0, lookup.Answer().1)
    }

    /** All as written: a search with an empty query over the fixed index
        list ["users"], whatever index the repository was built for. */
    method All<T>(resp: Response<seq<Hit>>, decode: seq<Document> -> Result<T>) returns (req: Request, objs: Result<T>)
      ensures req == SearchDocs(["users"], map[])
      ensures resp.Ok? ==> objs == decode(seq(|resp.body|, k requires 0 <= k < |resp.body| =>
        Elasticsearch.WithId(resp.body[k].source, idJson, resp.body[k].id)))
      ensures resp.TransportError? ==> objs == Failure(resp.message)
      ensures resp.EngineError? ==> objs == Failure(ResponseError)
      ensures resp.Undecodable? ==> objs == Failure(resp.message)
    {
      req, objs := Elasticsearch.Find(["users"], map[], idJson, resp, decode);
    }

    /** All as evidently intended: the search goes to the repository's own
        index. */
    method AllCorrected<T>(resp: Response<seq<Hit>>, decode: seq<Document> -> Result<T>) returns (req: Request, objs: Result<T>)
      ensures req == SearchDocs([index], map[])
      ensures resp.Ok? ==> objs == decode(seq(|resp.body|, k requires 0 <= k < |resp.body| =>
        Elasticsearch.WithId(resp.body[k].source, idJson, resp.body[k].id)))
      ensures resp.TransportError? ==> objs == Failure(resp.message)
      ensures resp.EngineError? ==> objs == Failure(ResponseError)
      ensures resp.Undecodable? ==> objs == Failure(resp.message)
    {
      req, objs := Elasticsearch.Find([index], map[], idJson, resp, decode);
    }
  }

  function NotStructError(): Error { "T must be a struct" }

  function NoIdTagError(typeName: string): Error {
    typeName + " struct requires id field which has bson tag '_id'"
  }

  function NoIdNameError(typeName: string, idFieldName: string): Error {
    typeName + " struct requires id field which id name is '" + idFieldName + "'"
  }

  function IdNotStringError(fieldName: string, typeName: string): Error {
    fieldName + " type of " + typeName + " struct must be string"
  }

  /** The id position and json name the constructor picks: the field
      tagged bson:"_id" when no id name is given, else the field of that
      Go name. */
  function IdLookup(shape: seq<Field>, idFieldName: string): (r: (int, string))
    ensures r.0 < |shape|
    ensures idFieldName == "" && r.0 >= 0 ==> HasMarker(shape[r.0].bson, "_id") && r.1 == JsonNameOr(shape[r.0])
    ensures idFieldName != "" && r.0 >= 0 ==> shape[r.0].name == idFieldName && r.1 == JsonNameOr(shape[r.0])
  {
    if |idFieldName| == 0 then
      var (i, _, json) := Elasticsearch.FindIdField(shape);
      (i, json)
    else Elasticsearch.FindFieldByName(shape, idFieldName)
  }

  /** NewRepositoryWithIdName; each panic of the constructor is a Failure
      carrying the panic message. */
  function NewRepositoryWithIdName(index: string, t: TypeDesc, idFieldName: string, versionName: string): (r: Result<Repository>)
    ensures t.OtherType? ==> r == Failure(NotStructError())
    ensures t.StructType? && IdLookup(t.fields, idFieldName).0 < 0 ==>
      r == Failure(if idFieldName == "" then NoIdTagError(t.name) else NoIdNameError(t.name, idFieldName))
    ensures (t.StructType? && IdLookup(t.fields, idFieldName).0 >= 0 &&
             t.fields[IdLookup(t.fields, idFieldName).0].typeName != "string") ==>
      r == Failure(IdNotStringError(t.fields[IdLookup(t.fields, idFieldName).0].name, t.name))
    ensures r.Success? <==>
      t.StructType? && IdLookup(t.fields, idFieldName).0 >= 0 &&
      t.fields[IdLookup(t.fields, idFieldName).0].typeName == "string"
    ensures r.Success? ==> (
      && r.value.Valid()
      && r.value.index == index && r.value.shape == t.fields
      && r.value.idIndex as int == IdLookup(t.fields, idFieldName).0
      && r.value.idJson == IdLookup(t.fields, idFieldName).1
      && (r.value.versionIndex >= 0 <==> exists j :: 0 <= j < |t.fields| && t.fields[j].name == versionName)
      && (r.value.versionIndex >= 0 ==> t.fields[r.value.versionIndex].name == versionName))
  {
    match t
    case OtherType(_) => Failure(NotStructError())
    case StructType(name, shape) =>
      var (idIndex, idJson) := IdLookup(shape, idFieldName);
      if idIndex < 0 then
        Failure(if |idFieldName| == 0 then NoIdTagError(name) else NoIdNameError(name, idFieldName))
      else if shape[idIndex].typeName != "string" then
        Failure(IdNotStringError(shape[idIndex].name, name))
      else
        var (versionIndex, versionJson0) := Elasticsearch.FindFieldByName(shape, versionName);
        var versionJson := if versionIndex < 0 then "" else versionJson0;
        FieldMapOfEntries(shape);
        Success(Repository(index, shape, idIndex as nat, idJson, versionIndex, versionJson, FieldMapOf(shape)))
  }

  function NewRepository(index: string, t: TypeDesc): (r: Result<Repository>)
    ensures r.Success? ==> (r.value.Valid() && r.value.index == index &&
      HasMarker(r.value.shape[r.value.idIndex].bson, "_id"))
  {
    NewRepositoryWithIdName(index, t, "", "")
  }

  function NewRepositoryWithVersion(index: string, t: TypeDesc, versionName: string): (r: Result<Repository>)
    ensures r.Success? ==> r.value.Valid() && HasMarker(r.value.shape[r.value.idIndex].bson, "_id")
    ensures r.Success? && r.value.versionIndex >= 0 ==> r.value.shape[r.value.versionIndex].name == versionName
  {
    NewRepositoryWithIdName(index, t, "", versionName)
  }

  /** A struct with two fields tagged bson:"_id" is not refused: the first
      of them becomes the id. */
  lemma FirstIdFieldWins(index: string, name: string, shape: seq<Field>, i: nat, j: nat, versionName: string)
    requires i < j < |shape|
    requires HasMarker(shape[i].bson, "_id") && HasMarker(shape[j].bson, "_id")
    requires forall k :: 0 <= k < i ==> !HasMarker(shape[k].bson, "_id")
    requires shape[i].typeName == "string"
    ensures NewRepositoryWithIdName(index, StructType(name, shape), "", versionName).Success?
    ensures NewRepositoryWithIdName(index, StructType(name, shape), "", versionName).value.idIndex == i
  {
    var (k, _, _) := Elasticsearch.FindIdField(shape);
    assert k == i as int;
  }

  /** When the id field is mapped and no other mapped field shares its wire
      key, the body a repository sends never carries the id: it travels
      only as the document id. */
  lemma IdKeptOutOfBody(repo: Repository, model: Record)
    requires repo.Valid() && Conforms(repo.shape, model)
    requires HasMarker(repo.shape[repo.idIndex].bson, "_id") && Mapped(repo.shape[repo.idIndex])
    requires forall j :: 0 <= j < |repo.shape| && j != repo.idIndex as int && Mapped(repo.shape[j]) ==>
      TagName(repo.shape[j].json.value) != TagName(repo.shape[repo.idIndex].json.value)
    ensures TagName(repo.shape[repo.idIndex].json.value) !in BodyOf(model, repo.fieldMap)
  {
    var shape, fms := repo.shape, repo.fieldMap;
    var k := FieldMapOfComplete(shape, repo.idIndex);
    FieldMapOfEntries(shape);
    FieldMapOfOrdered(shape);
    forall j | 0 <= j < |fms| && j != k
      ensures fms[j].json != fms[k].json
    {
      assert fms[j].index != fms[k].index;
    }
    IdNeverWritten(model, fms, k);
  }
}
