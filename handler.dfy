/** internal/user/handler/handler.go: the HTTP handler of users. Each
    operation is its decision procedure: from the decoded request and the
    answers of the validator and the service, the status and body written
    back, which user was validated and what the service was called with.
    The user service, the validator and the request codecs are not part of
    this model; they are function parameters. */
module Handler {
  import opened Wrappers
  import opened Fields
  import opened Engine

  const StatusOK := 200
  const StatusCreated := 201
  const StatusBadRequest := 400
  const StatusNotFound := 404
  const StatusConflict := 409
  const StatusUnprocessableEntity := 422
  const StatusInternalServerError := 500

  const InternalServerError: string := "Internal Server Error"
  const IdEmpty: string := "Id cannot be empty"
  const IdMismatch: string := "Id not match"

  /** A validation error of the validator. */
  datatype ErrorMessage = ErrorMessage(field: string, code: string, param: string, message: string)

  /** What is written back: plain error text (http.Error) or a JSON body. */
  datatype Payload =
    | Text(message: string)
    | NullBody
    | UserBody(user: Record)
    | UsersBody(users: seq<Record>)
    | CountBody(count: int)
    | ErrorsBody(errors: seq<ErrorMessage>)
    | MapBody(doc: Document)

  datatype Reply = Reply(status: int, body: Payload)

  /** One handled request: the reply, the user handed to the validator and
      the input the service was called with (None when not called). */
  datatype Step<S> = Step(reply: Reply, validated: Option<Record>, served: Option<S>)

  /** What the service's Load answers: a user or nil, and an error. */
  datatype LoadAnswer = LoadAnswer(user: Option<Record>, err: Option<Error>)

  /** UserHandler over the User struct type, whose string field Id sits at
      position userId. */
  datatype UserHandler = UserHandler(shape: seq<Field>, userId: nat)
  {
    predicate Valid() {
      userId < |shape| && shape[userId].name == "Id" && shape[userId].typeName == "string"
    }

    /** user.Id */
    function IdOf(user: Record): (id: string)
      requires Valid() && Conforms(shape, user)
      ensures user[userId] == ValueField(Str(id))
    {
      user[userId].v.s
    }

    /** The id check shared by Update and Patch: a user without Id takes
        the path's id; a user with a different Id is refused. */
    function WithPathId(user: Record, id: string): (r: Result<Record>)
      requires Valid() && Conforms(shape, user)
      ensures r.Failure? <==> IdOf(user) != "" && IdOf(user) != id
      ensures r.Failure? ==> r.error == IdMismatch
      ensures r.Success? ==> (Conforms(shape, r.value) && IdOf(r.value) == id &&
        |r.value| == |user| && forall k :: 0 <= k < |user| && k != userId ==> r.value[k] == user[k])
    {
      if |IdOf(user)| == 0 then Success(user[userId := ValueField(Str(id))])
      else if id != IdOf(user) then Failure(IdMismatch)
      else Success(user)
    }

    /** All: the users, or 500 with the error text. */
    function All(answer: Result<seq<Record>>): (r: Reply)
      ensures r.status == StatusOK <==> answer.Success?
      ensures answer.Success? ==> r.body == UsersBody(answer.value)
      ensures answer.Failure? ==> r == Reply(StatusInternalServerError, Text(answer.error))
    {
      match answer
      case Failure(e) => Reply(StatusInternalServerError, Text(e))
      case Success(users) => Reply(StatusOK, UsersBody(users))
    }

    /** Load: 400 for an empty id; 500 when the service errs; 404 for nil;
        200 with the user. */
    function Load(id: string, load: string -> LoadAnswer): (s: Step<string>)
      ensures s.validated.None?
      ensures s.served.Some? <==> id != ""
      ensures s.served.Some? ==> s.served.value == id
      ensures id == "" ==> s.reply == Reply(StatusBadRequest, Text(IdEmpty))
      ensures s.reply.status == StatusNotFound <==> id != "" && load(id) == LoadAnswer(None, None)
      ensures s.reply.status == StatusOK <==> id != "" && load(id).err.None? && load(id).user.Some?
      ensures s.reply.status == StatusOK ==> s.reply.body == UserBody(load(id).user.value)
      ensures s.reply.status == StatusNotFound ==> s.reply.body == NullBody
      ensures id != "" && load(id).err.Some? ==> s.reply == Reply(StatusInternalServerError, Text(load(id).err.value))
    {
      if |id| == 0 then Step(Reply(StatusBadRequest, Text(IdEmpty)), None, None)
      else
        var answer := load(id);
        if answer.err.Some? then Step(Reply(StatusInternalServerError, Text(answer.err.value)), None, Some(id))
        else if answer.user.None? then Step(Reply(StatusNotFound, NullBody), None, Some(id))
        else Step(Reply(StatusOK, UserBody(answer.user.value)), None, Some(id))
    }

    /** The validator's verdict, shared by Create, Update and Patch: an
        error is a 500 with the generic text, a non-empty list of messages a
        422 with the list, and an empty list lets the request through. */
    function Validation(verdict: Result<seq<ErrorMessage>>): (r: Option<Reply>)
      ensures r.None? <==> verdict == Success([])
      ensures verdict.Failure? ==> r == Some(Reply(StatusInternalServerError, Text(InternalServerError)))
      ensures verdict.Success? && verdict.value != [] ==> r == Some(Reply(StatusUnprocessableEntity, ErrorsBody(verdict.value)))
    {
      match verdict
      case Failure(_) => Some(Reply(StatusInternalServerError, Text(InternalServerError)))
      case Success(errors) =>
        if |errors| > 0 then Some(Reply(StatusUnprocessableEntity, ErrorsBody(errors))) else None
    }

    /** Create: 400 when the body does not decode; then validation; then the
        service: 500 on error, 201 with the user for a positive count, 409
        with the count otherwise. */
    function Create(decoded: Result<Record>, validate: Record -> Result<seq<ErrorMessage>>, create: Record -> Outcome)
      : (s: Step<Record>)
      ensures decoded.Failure? ==> s == Step(Reply(StatusBadRequest, Text(decoded.error)), None, None)
      ensures decoded.Success? ==> s.validated == Some(decoded.value)
      ensures s.served.Some? <==> decoded.Success? && validate(decoded.value) == Success([])
      ensures s.served.Some? ==> s.served.value == decoded.value
      ensures s.reply.status == StatusCreated <==>
        s.served.Some? && create(s.served.value).err.None? && create(s.served.value).count > 0
      ensures s.validated.Some? && s.served.None? ==> Some(s.reply) == Validation(validate(s.validated.value))
      ensures s.served.Some? && create(s.served.value).err.Some? ==>
        s.reply == Reply(StatusInternalServerError, Text(InternalServerError))
      ensures s.reply.status == StatusCreated <==>
        s.served.Some? && create(s.served.value).err.None? && create(s.served.value).count > 0
      ensures s.reply.status == StatusCreated ==> s.reply.body == UserBody(decoded.value)
      ensures s.reply.status == StatusConflict <==>
        s.served.Some? && create(s.served.value).err.None? && create(s.served.value).count <= 0
      ensures s.reply.status == StatusConflict ==> s.reply.body == CountBody(create(s.served.value).count)
    {
      match decoded
      case Failure(er1) => Step(Reply(StatusBadRequest, Text(er1)), None, None)
      case Success(user) =>
        var refused := Validation(validate(user));
        if refused.Some? then Step(refused.value, Some(user), None)
        else
          var res := create(user);
          if res.err.Some? then Step(Reply(StatusInternalServerError, Text(InternalServerError)), Some(user), Some(user))
          else if res.count > 0 then Step(Reply(StatusCreated, UserBody(user)), Some(user), Some(user))
          else Step(Reply(StatusConflict, CountBody(res.count)), Some(user), Some(user))
    }

    /** The status a write's count maps to once it succeeded: 200 for a
        positive count, 404 for zero, 409 for a negative one. */
    function CountStatus(count: int): (status: int)
      ensures status == StatusOK <==> count > 0
      ensures status == StatusNotFound <==> count == 0
      ensures status == StatusConflict <==> count < 0
    {
      if count > 0 then StatusOK else if count == 0 then StatusNotFound else StatusConflict
    }

    /** Update: 400 when the body does not decode, the path id is empty or
        the body's Id differs; then validation of the user carrying the path
        id; then the service: 500 with its error text, or the status of the
        count. */
    function Update(decoded: Result<Record>, id: string, validate: Record -> Result<seq<ErrorMessage>>, update: Record -> Outcome)
      : (s: Step<Record>)
      requires Valid()
      requires decoded.Success? ==> Conforms(shape, decoded.value)
      ensures decoded.Failure? ==> s == Step(Reply(StatusBadRequest, Text(decoded.error)), None, None)
      ensures decoded.Success? && id == "" ==> s == Step(Reply(StatusBadRequest, Text(IdEmpty)), None, None)
      ensures decoded.Success? && id != "" && WithPathId(decoded.value, id).Failure? ==>
        s == Step(Reply(StatusBadRequest, Text(IdMismatch)), None, None)
      ensures decoded.Success? && id != "" && WithPathId(decoded.value, id).Success? ==>
        s.validated == Some(WithPathId(decoded.value, id).value)
      ensures s.validated.Some? ==> Conforms(shape, s.validated.value) && IdOf(s.validated.value) == id
      ensures s.validated.Some? && s.served.None? ==> Some(s.reply) == Validation(validate(s.validated.value))
      ensures s.served.Some? <==> s.validated.Some? && validate(s.validated.value) == Success([])
      ensures s.served.Some? ==> s.served == s.validated
      ensures s.served.Some? && update(s.served.value).err.Some? ==>
        s.reply == Reply(StatusInternalServerError, Text(update(s.served.value).err.value))
      ensures s.served.Some? && update(s.served.value).err.None? ==>
        s.reply == Reply(CountStatus(update(s.served.value).count),
                         if update(s.served.value).count > 0 then UserBody(s.served.value)
                         else CountBody(update(s.served.value).count))
    {
      match decoded
      case Failure(er1) => Step(Reply(StatusBadRequest, Text(er1)), None, None)
      case Success(body) =>
        if |id| == 0 then Step(Reply(StatusBadRequest, Text(IdEmpty)), None, None)
        else match WithPathId(body, id)
          case Failure(e) => Step(Reply(StatusBadRequest, Text(e)), None, None)
          case Success(user) =>
            var refused := Validation(validate(user));
            if refused.Some? then Step(refused.value, Some(user), None)
            else
              var res := update(user);
              if res.err.Some? then Step(Reply(StatusInternalServerError, Text(res.err.value)), Some(user), Some(user))
              else if res.count > 0 then Step(Reply(StatusOK, UserBody(user)), Some(user), Some(user))
              else Step(Reply(CountStatus(res.count), CountBody(res.count)), Some(user), Some(user))
    }

    /** Patch: 400 for an empty path id; 500 when the request cannot be read
        into a map and a user; 400 when the user's Id differs; 500 when the
        map cannot be rebuilt as JSON; then validation; then the service
        gets the JSON map: 500 on error, or the status of the count, with
        the map as body on 200. */
    function Patch(id: string, built: Result<(Document, Record)>, toJsonMap: (Record, Document) -> Result<Document>,
                   validate: Record -> Result<seq<ErrorMessage>>, patch: Document -> Outcome)
      : (s: Step<Document>)
      requires Valid()
      requires built.Success? ==> Conforms(shape, built.value.1)
      ensures id == "" ==> s == Step(Reply(StatusBadRequest, Text(IdEmpty)), None, None)
      ensures id != "" && built.Failure? ==> s == Step(Reply(StatusInternalServerError, Text(built.error)), None, None)
      ensures id != "" && built.Success? && WithPathId(built.value.1, id).Failure? ==>
        s == Step(Reply(StatusBadRequest, Text(IdMismatch)), None, None)
      ensures id != "" && built.Success? && WithPathId(built.value.1, id).Success? ==> (
        var user := WithPathId(built.value.1, id).value;
        && (toJsonMap(user, built.value.0).Failure? ==>
              s == Step(Reply(StatusInternalServerError, Text(toJsonMap(user, built.value.0).error)), None, None))
        && (toJsonMap(user, built.value.0).Success? ==> s.validated == Some(user)))
      ensures s.validated.Some? && s.served.None? ==> Some(s.reply) == Validation(validate(s.validated.value))
      ensures s.validated.Some? ==> (
        && built.Success? && WithPathId(built.value.1, id) == Success(s.validated.value)
        && IdOf(s.validated.value) == id
        && toJsonMap(s.validated.value, built.value.0).Success?)
      ensures s.served.Some? <==> s.validated.Some? && validate(s.validated.value) == Success([])
      ensures s.served.Some? ==> s.served.value == toJsonMap(s.validated.value, built.value.0).value
      ensures s.served.Some? && patch(s.served.value).err.Some? ==>
        s.reply == Reply(StatusInternalServerError, Text(InternalServerError))
      ensures s.served.Some? && patch(s.served.value).err.None? ==>
        s.reply == Reply(CountStatus(patch(s.served.value).count),
                         if patch(s.served.value).count > 0 then MapBody(s.served.value)
                         else CountBody(patch(s.served.value).count))
      ensures s.reply.status == StatusOK ==> s.served.Some? && s.reply.body == MapBody(s.served.value)
    {
      if |id| == 0 then Step(Reply(StatusBadRequest, Text(IdEmpty)), None, None)
      else match built
        case Failure(er1) => Step(Reply(StatusInternalServerError, Text(er1)), None, None)
        case Success((body, decoded)) =>
          match WithPathId(decoded, id)
          case Failure(e) => Step(Reply(StatusBadRequest, Text(e)), None, None)
          case Success(user) =>
            match toJsonMap(user, body)
            case Failure(er2) => Step(Reply(StatusInternalServerError, Text(er2)), None, None)
            case Success(jsonUser) =>
              var refused := Validation(validate(user));
              if refused.Some? then Step(refused.value, Some(user), None)
              else
                var res := patch(jsonUser);
                if res.err.Some? then Step(Reply(StatusInternalServerError, Text(InternalServerError)), Some(user), Some(jsonUser))
                else if res.count > 0 then Step(Reply(StatusOK, MapBody(jsonUser)), Some(user), Some(jsonUser))
                else Step(Reply(CountStatus(res.count), CountBody(res.count)), Some(user), Some(jsonUser))
    }

    /** Delete: 400 for an empty id; 500 with the error text; 200 with the
        count when positive, 404 with it otherwise. */
    function Delete(id: string, delete: string -> Outcome): (s: Step<string>)
      ensures s.validated.None?
      ensures s.served.Some? <==> id != ""
      ensures s.served.Some? ==> s.served.value == id
      ensures id == "" ==> s.reply == Reply(StatusBadRequest, Text(IdEmpty))
      ensures id != "" && delete(id).err.Some? ==> s.reply == Reply(StatusInternalServerError, Text(delete(id).err.value))
      ensures id != "" && delete(id).err.None? ==>
        s.reply == Reply(if delete(id).count > 0 then StatusOK else StatusNotFound, CountBody(delete(id).count))
    {
      if |id| == 0 then Step(Reply(StatusBadRequest, Text(IdEmpty)), None, None)
      else
        var res := delete(id);
        if res.err.Some? then Step(Reply(StatusInternalServerError, Text(res.err.value)), None, Some(id))
        else if res.count > 0 then Step(Reply(StatusOK, CountBody(res.count)), None, Some(id))
        else Step(Reply(StatusNotFound, CountBody(res.count)), None, Some(id))
    }
  }

  // ---------------------------------------------------------------------
  // IsFound and isNil (handler.go:209-224)

  /** The reflect kinds isNil distinguishes. */
  datatype Kind = Pointer | Map | Array | Chan | Slice | Func | Scalar

  /** A dynamic value in an interface{}: the nil interface, or a value of
      some kind; `nilRef` is whether it is the nil reference of its kind. */
  datatype Dynamic = NilInterface | Dynamic(kind: Kind, nilRef: bool)

  const ArrayIsNilPanic: string := "reflect: call of reflect.Value.IsNil on array Value"

  /** isNil as written: arrays are listed among the kinds asked IsNil,
      which panics for an array; the panic is a Failure here. */
  function IsNilAsWritten(i: Dynamic): (r: Result<bool>)
    ensures r.Failure? <==> i.Dynamic? && i.kind == Array
    ensures r.Failure? ==> r.error == ArrayIsNilPanic
  {
    match i
    case NilInterface => Success(true)
    case Dynamic(kind, nilRef) =>
      if kind in {Pointer, Map, Array, Chan, Slice} then
        if kind == Array then Failure(ArrayIsNilPanic) else Success(nilRef)
      else Success(false)
  }

  /** isNil as evidently intended: an array is a value and never nil. */
  function IsNil(i: Dynamic): (b: bool)
    ensures b <==> i.NilInterface? || (i.kind in {Pointer, Map, Chan, Slice} && i.nilRef)
    ensures IsNilAsWritten(i).Success? ==> IsNilAsWritten(i).value == b
  {
    match i
    case NilInterface => true
    case Dynamic(kind, nilRef) => kind in {Pointer, Map, Chan, Slice} && nilRef
  }

  /** The input that shows the panic: any array value. */
  lemma ArrayPanics()
    ensures IsNilAsWritten(Dynamic(Array, false)).Failure?
    ensures !IsNil(Dynamic(Array, false))
  {
  }

  /** IsFound as written: 404 for nil, 200 otherwise, and the panic of
      isNil for an array. */
  function IsFound(res: Dynamic): (r: Result<int>)
    ensures r.Failure? <==> IsNilAsWritten(res).Failure?
    ensures r.Failure? ==> r.error == ArrayIsNilPanic
    ensures r.Success? ==> (r.value == StatusNotFound <==> IsNilAsWritten(res).value)
    ensures r.Success? ==> (r.value == StatusOK <==> !IsNilAsWritten(res).value)
  {
    match IsNilAsWritten(res)
    case Failure(e) => Failure(e)
    case Success(isNil) => Success(if isNil then StatusNotFound else StatusOK)
  }

  /** IsFound over the corrected isNil: 404 for nil, 200 otherwise, never a
      panic; it agrees with the written code wherever that does not panic. */
  function IsFoundCorrected(res: Dynamic): (status: int)
    ensures status == StatusNotFound <==> IsNil(res)
    ensures status == StatusOK <==> !IsNil(res)
    ensures IsFound(res).Success? ==> IsFound(res).value == status
  {
    if IsNil(res) then StatusNotFound else StatusOK
  }

  // ---------------------------------------------------------------------
  // MakeMap (handler.go:225-237)

  /** The key of the log map: the first option when non-empty, else
      "request". */
  function LogKey(opts: seq<string>): (key: string)
    ensures key != ""
    ensures |opts| > 0 && opts[0] != "" ==> key == opts[0]
    ensures (|opts| == 0 || opts[0] == "") ==> key == "request"
  {
    if |opts| > 0 && |opts[0]| > 0 then opts[0] else "request"
  }

  /** MakeMap: the marshalled request under the key, or an empty map when
      it does not marshal. */
  function MakeMap(marshalled: Result<string>, opts: seq<string>): (m: Document)
    ensures marshalled.Failure? ==> m == map[]
    ensures marshalled.Success? ==> m.Keys == {LogKey(opts)} && m[LogKey(opts)] == Str(marshalled.value)
  {
    match marshalled
    case Failure(_) => map[]
    case Success(b) => map[LogKey(opts) := Str(b)]
  }
}
