/** How engine replies surface as HTTP statuses once the handler's service
    passes the repository's outcome through unchanged. The user service is
    not part of this model; these lemmas take it to be that pass-through. */
module Signals {
  import opened Wrappers
  import opened Fields
  import opened Engine
  import opened Handler
  import Write
  import Elasticsearch

  /** A user that passed validation is created: 201 exactly when the
      engine acknowledged with a positive version, 409 exactly when it
      rejected the document (or reported version 0), 500 otherwise. */
  lemma CreateStatuses(h: UserHandler, user: Record, validate: Record -> Result<seq<ErrorMessage>>, resp: Response<nat>)
    requires validate(user) == Success([])
    ensures var s := h.Create(Success(user), validate, u => Write.CreateOutcome(resp));
      && (s.reply.status == StatusCreated <==> resp.Ok? && resp.body > 0)
      && (s.reply.status == StatusConflict <==> resp.EngineError? || resp == Ok(0))
      && (s.reply.status == StatusInternalServerError <==> resp.TransportError? || resp.Undecodable?)
  {
    var s := h.Create(Success(user), validate, u => Write.CreateOutcome(resp));
    assert s.served == Some(user);
    var o := Write.CreateOutcome(resp);
    if o.err.None? {
      assert s.reply.status == StatusCreated || s.reply.status == StatusConflict;
    } else {
      assert s.reply == Reply(StatusInternalServerError, Text(InternalServerError));
    }
  }

  /** Whenever the service keeps the outcome signal (an error exactly when
      the count is negative), Update never answers 409. */
  lemma UpdateNeverConflicts(h: UserHandler, decoded: Result<Record>, id: string,
                             validate: Record -> Result<seq<ErrorMessage>>, update: Record -> Outcome)
    requires h.Valid()
    requires decoded.Success? ==> Conforms(h.shape, decoded.value)
    requires forall u :: Signalled(update(u))
    ensures h.Update(decoded, id, validate, update).reply.status != StatusConflict
  {
    var s := h.Update(decoded, id, validate, update);
    if s.served.Some? {
      var o := update(s.served.value);
      assert Signalled(o);
      if o.err.None? {
        assert o.count >= 0;
      }
    } else if s.validated.Some? {
      assert validate(s.validated.value) != Success([]);
    }
  }

  /** The same holds for Patch. */
  lemma PatchNeverConflicts(h: UserHandler, id: string, built: Result<(Document, Record)>,
                            toJsonMap: (Record, Document) -> Result<Document>,
                            validate: Record -> Result<seq<ErrorMessage>>, patch: Document -> Outcome)
    requires h.Valid()
    requires built.Success? ==> Conforms(h.shape, built.value.1)
    requires forall d :: Signalled(patch(d))
    ensures h.Patch(id, built, toJsonMap, validate, patch).reply.status != StatusConflict
  {
    var s := h.Patch(id, built, toJsonMap, validate, patch);
    if s.served.Some? {
      var o := patch(s.served.value);
      assert Signalled(o);
      if o.err.None? {
        assert o.count >= 0;
      }
    } else if s.validated.Some? {
      assert validate(s.validated.value) != Success([]);
    }
  }

  /** Updating a document the engine does not have is a 500 carrying
      "document ID not exists in the index", not a 404: the write layer
      reports every engine error as an error. */
  lemma MissingDocumentUpdate(h: UserHandler, user: Record, id: string, validate: Record -> Result<seq<ErrorMessage>>)
    requires h.Valid() && Conforms(h.shape, user)
    requires h.WithPathId(user, id).Success? && id != ""
    requires validate(h.WithPathId(user, id).value) == Success([])
    ensures h.Update(Success(user), id, validate, u => Write.ShardsOutcome(EngineError)).reply ==
      Reply(StatusInternalServerError, Text(NotExists))
  {
    var s := h.Update(Success(user), id, validate, u => Write.ShardsOutcome(EngineError));
    assert s.validated == Some(h.WithPathId(user, id).value);
    assert s.served.Some?;
  }

  /** Deleting: 200 exactly for a positive acknowledgement, 404 exactly
      for an acknowledgement of zero shards, 500 for every failure,
      including a document the engine does not have. */
  lemma DeleteStatuses(h: UserHandler, id: string, resp: Response<nat>)
    requires id != ""
    ensures var s := h.Delete(id, i => Write.ShardsOutcome(resp));
      && (s.reply.status == StatusOK <==> resp.Ok? && resp.body > 0)
      && (s.reply.status == StatusNotFound <==> resp == Ok(0))
      && (s.reply.status == StatusInternalServerError <==> !resp.Ok?)
  {
    var o := Write.ShardsOutcome(resp);
    assert o.err.None? <==> resp.Ok?;
  }

  /** The handler's answer to Load when the service passes on what the
      repository's Load makes of a lookup. */
  function LoadAnswerOf(lookup: Elasticsearch.Lookup<Record>): LoadAnswer
    requires lookup.found <==> lookup.value.Some?
  {
    LoadAnswer(lookup.Answer().0, lookup.Answer().1)
  }

  /** With the corrected lookup, Load never answers 404: a document the
      engine does not have is an engine error, so a 500; only a found and
      decoded user gets past. */
  lemma LoadNeverNotFound(h: UserHandler, id: string, idJson: string, resp: Response<GetReply>, decode: Document -> Result<Record>)
    ensures h.Load(id, i => LoadAnswerOf(Elasticsearch.FindOneCorrected("users", i, idJson, resp, decode).1)).reply.status != StatusNotFound
  {
    if id != "" {
      var lookup := Elasticsearch.FindOneCorrected("users", id, idJson, resp, decode).1;
      assert lookup.found <==> lookup.err.None?;
      assert LoadAnswerOf(lookup) != LoadAnswer(None, None);
    }
  }

  /** As written, Load answers 404 exactly for a reply whose body does not
      decode: the swallowed decode error reads as "no such user". */
  lemma LoadNotFoundAsWritten(h: UserHandler, id: string, idJson: string, resp: Response<GetReply>, decode: Document -> Result<Record>)
    requires id != ""
    ensures h.Load(id, i => LoadAnswerOf(Elasticsearch.FindOne("users", i, idJson, resp, decode).1)).reply.status == StatusNotFound
      <==> resp.Undecodable?
  {
    var lookup := Elasticsearch.FindOne("users", id, idJson, resp, decode).1;
    if resp.Undecodable? {
      assert lookup == Elasticsearch.Lookup(false, None, None);
    } else {
      assert lookup.found || lookup.err.Some?;
      assert LoadAnswerOf(lookup) != LoadAnswer(None, None);
    }
  }
}
