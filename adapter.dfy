/** internal/user/repository/adapter/adapter.go: the hand-written user
    repository over the "users" index. */
module Adapter {
  import opened Wrappers
  import opened Fields
  import opened Engine
  import opened Write
  import Elasticsearch

  /** UserAdapter, with the User struct type it is written for and the
      position of that struct's Id field. */
  datatype UserAdapter = UserAdapter(
    index: string,
    shape: seq<Field>,
    idIndex: int,
    idJson: string,
    fieldMap: seq<FieldMap>,
    userId: nat)
  {
    /** The adapter serves "users"; its User type has a string field Id;
        the field map is the one of the User type. */
    predicate Valid() {
      && index == "users"
      && userId < |shape| && shape[userId].name == "Id" && shape[userId].typeName == "string"
      && fieldMap == FieldMapOf(shape)
      && forall k :: 0 <= k < |fieldMap| ==> fieldMap[k].index < |shape|
    }

    /** user.Id */
    function IdOf(user: Record): (id: string)
      requires Valid() && Conforms(shape, user)
      ensures user[userId] == ValueField(Str(id))
    {
      user[userId].v.s
    }

    /** All: an empty query over "users". */
    method All<T>(resp: Response<seq<Hit>>, decode: seq<Document> -> Result<T>) returns (req: Request, users: Result<T>)
      requires Valid()
      ensures req == SearchDocs([index], map[])
      ensures resp.Ok? ==> users == decode(seq(|resp.body|, k requires 0 <= k < |resp.body| =>
        Elasticsearch.WithId(resp.body[k].source, idJson, resp.body[k].id)))
      ensures resp.TransportError? ==> users == Failure(resp.message)
      ensures resp.EngineError? ==> users == Failure(ResponseError)
      ensures resp.Undecodable? ==> users == Failure(resp.message)
    {
      req, users := Elasticsearch.Find(["users"], map[], idJson, resp, decode);
    }

    /** Load: the user when found, nothing and the error otherwise. Through
        FindOne as written, a body that does not decode gives neither a user
        nor an error. */
    function Load<T>(id: string, resp: Response<GetReply>, decode: Document -> Result<T>): (r: (Request, Option<T>, Option<Error>))
      ensures r.0 == GetDoc(index, id)
      ensures r.1.Some? ==> r.2.None?
      ensures resp.Ok? ==> (
        var decoded := decode(Elasticsearch.Graft(resp.body.source, idJson, resp.body.id, "", 0));
        && (r.1.Some? <==> decoded.Success?)
        && (decoded.Success? ==> r.1 == Some(decoded.value))
        && (decoded.Failure? ==> r.2 == Some(decoded.error)))
      ensures resp.TransportError? ==> r.1.None? && r.2 == Some(resp.message)
      ensures resp.EngineError? ==> r.1.None? && r.2 == Some(ResponseError)
      ensures resp.Undecodable? ==> r.1.None? && r.2.None?
    {
      var (req, lookup) := Elasticsearch.FindOne(index, id, idJson, resp, decode);
      (req, lookup.Answer().0, lookup.Answer().1)
    }

    /** Load over the corrected FindOne: a user exactly when there is no
        error. */
    function LoadCorrected<T>(id: string, resp: Response<GetReply>, decode: Document -> Result<T>): (r: (Request, Option<T>, Option<Error>))
      ensures r.0 == GetDoc(index, id)
      ensures r.1.Some? <==> r.2.None?
      ensures resp.Ok? ==> (
        var decoded := decode(Elasticsearch.Graft(resp.body.source, idJson, resp.body.id, "", 0));
        && (r.1.Some? <==> decoded.Success?)
        && (decoded.Success? ==> r.1 == Some(decoded.value)))
      ensures resp.EngineError? ==> r.2 == Some(ResponseError)
      ensures resp.Undecodable? ==> r.2 == Some(resp.message)
      ensures !resp.Undecodable? ==> r == Load(id, resp, decode)
    {
      var (req, lookup) := Elasticsearch.FindOneCorrected(index, id, idJson, resp, decode);
      (req, lookup.Answer().0, lookup.Answer().1)
    }

    /** Create: the user's Id is passed on as it is, so an empty Id lets
        the engine choose one. */
    function Create(user: Record, resp: Response<nat>): (r: (Request, Outcome))
      requires Valid() && Conforms(shape, user)
      ensures r.0 == CreateDoc(index, if IdOf(user) == "" then None else Some(IdOf(user)), BodyOf(user, fieldMap))
      ensures r.1 == CreateOutcome(resp)
    {
      Write.Create(index, BodyOf(user, fieldMap), IdOf(user), resp)
    }

    /** Update: refused without a request when the Id is empty. */
    function Update(user: Record, resp: Response<nat>): (r: (Option<Request>, Outcome))
      requires Valid() && Conforms(shape, user)
      ensures IdOf(user) == "" ==> r == (None, Outcome(-1, Some(MissingUserIdError)))
      ensures IdOf(user) != "" ==> r == (Some(UpdateDoc(index, IdOf(user), DocBody(BodyOf(user, fieldMap)))), ShardsOutcome(resp))
      ensures Signalled(r.1)
      ensures r.1.err.None? <==> IdOf(user) != "" && resp.Ok?
    {
      if |IdOf(user)| == 0 then (None, Outcome(-1, Some(MissingUserIdError)))
      else
        var (req, out) := Write.Update(index, BodyOf(user, fieldMap), IdOf(user), resp);
        (Some(req), out)
    }

    /** Save: indexed under the Id as it is, with no empty-Id guard. */
    function Save(user: Record, resp: Response<nat>): (r: (Request, Outcome))
      requires Valid() && Conforms(shape, user)
      ensures r.0 == IndexDoc(index, IdOf(user), DocBody(BodyOf(user, fieldMap)))
      ensures r.1 == ShardsOutcome(resp)
    {
      Write.Save(index, BodyOf(user, fieldMap), IdOf(user), resp)
    }

    /** Patch: the generic patch, keyed by the json name of the field
        tagged bson:"_id"; the caller's map ends as it began. */
    method Patch(user: DocumentRef, resp: Response<nat>) returns (sent: Option<Request>, out: Outcome)
      modifies user
      ensures user.entries == old(user.entries)
      ensures Signalled(out)
      ensures sent.Some? <==> idJson in old(user.entries) && old(user.entries)[idJson].Str?
      ensures sent.Some? ==> sent.value == UpdateDoc(index, old(user.entries)[idJson].s, DocBody(old(user.entries) - {idJson}))
      ensures idJson !in old(user.entries) ==> out == Outcome(-1, Some(MissingIdError(idJson)))
      ensures idJson in old(user.entries) && !old(user.entries)[idJson].Str? ==> out == Outcome(-1, Some(IdNotStringError(idJson)))
      ensures sent.Some? ==> out == ShardsOutcome(resp)
    {
      sent, out := Write.Patch(index, user, idJson, resp);
    }

    /** Delete: the user with that id in "users". */
    function Delete(id: string, resp: Response<nat>): (r: (Request, Outcome))
      ensures r.0 == DeleteDoc(index, id)
      ensures r.1 == ShardsOutcome(resp)
    {
      Write.Delete(index, id, resp)
    }
  }

  const MissingUserIdError: Error := "require Id Field 'Id' of User struct for update"

  /** NewUserRepository: index "users", the id found by its bson tag (the
      position is -1 and the json name empty when the User type has none),
      and the field map of the User type. The Go compiler guarantees the
      string field Id. */
  function NewUserRepository(shape: seq<Field>): (a: UserAdapter)
    requires Elasticsearch.FindFieldByName(shape, "Id").0 >= 0
    requires shape[Elasticsearch.FindFieldByName(shape, "Id").0].typeName == "string"
    ensures a.Valid() && a.shape == shape
    ensures a.idIndex == Elasticsearch.FindIdField(shape).0 && a.idJson == Elasticsearch.FindIdField(shape).2
    ensures a.idIndex < 0 ==> a.idJson == ""
  {
    var (idIndex, _, idJson) := Elasticsearch.FindIdField(shape);
    FieldMapOfEntries(shape);
    UserAdapter("users", shape, idIndex, idJson, FieldMapOf(shape), Elasticsearch.FindFieldByName(shape, "Id").0 as nat)
  }
}
