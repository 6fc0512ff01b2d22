/** write.go of the repository layer: the field map built from a struct
    type, the document built from a struct value, the outcome of each write
    request, the in-place id handling of Patch and the batch delete. */
module Write {
  import opened Wrappers
  import opened Fields
  import opened Engine
  import Text

  // ---------------------------------------------------------------------
  // FieldMap and BuildMap (write.go:17-56)

  /** One mapped field: its position in the struct, its wire key, whether
      its json tag says omitempty and whether its bson tag says _id. */
  datatype FieldMap = FieldMap(index: nat, json: string, omitEmpty: bool, id: bool)

  /** BuildMap keeps a field only when it has a json tag other than "-". */
  predicate Mapped(f: Field) {
    f.json.Some? && f.json.value != "-"
  }

  /** The entry BuildMap makes for the mapped field at position i. */
  function Entry(f: Field, i: nat): FieldMap
    requires Mapped(f)
  {
    FieldMap(i, TagName(f.json.value), HasMarker(f.json.value, "omitempty"), HasMarker(f.bson, "_id"))
  }

  /** The field map of a struct type, by its fields in order. */
  function FieldMapOf(shape: seq<Field>): seq<FieldMap>
    decreases |shape|
  {
    if |shape| == 0 then []
    else
      var init := FieldMapOf(shape[..|shape| - 1]);
      var last := shape[|shape| - 1];
      if Mapped(last) then init + [Entry(last, |shape| - 1)] else init
  }

  /** Every entry of the field map is the entry of a mapped field. */
  lemma {:induction false} FieldMapOfEntries(shape: seq<Field>)
    ensures forall k :: 0 <= k < |FieldMapOf(shape)| ==>
      var fm := FieldMapOf(shape)[k];
      fm.index < |shape| && Mapped(shape[fm.index]) && fm == Entry(shape[fm.index], fm.index)
    decreases |shape|
  {
    if |shape| > 0 {
      var init := shape[..|shape| - 1];
      FieldMapOfEntries(init);
      forall k | 0 <= k < |FieldMapOf(init)|
        ensures shape[FieldMapOf(init)[k].index] == init[FieldMapOf(init)[k].index]
      {
      }
    }
  }

  /** The field map keeps the struct's field order: positions strictly
      increase. */
  lemma {:induction false} FieldMapOfOrdered(shape: seq<Field>)
    ensures forall k, l :: 0 <= k < l < |FieldMapOf(shape)| ==>
      FieldMapOf(shape)[k].index < FieldMapOf(shape)[l].index
    decreases |shape|
  {
    if |shape| > 0 {
      var init := shape[..|shape| - 1];
      FieldMapOfOrdered(init);
      FieldMapOfEntries(init);
    }
  }

  /** Every mapped field has an entry; the lemma returns its position. */
  lemma {:induction false} FieldMapOfComplete(shape: seq<Field>, i: nat) returns (k: nat)
    requires i < |shape| && Mapped(shape[i])
    ensures k < |FieldMapOf(shape)| && FieldMapOf(shape)[k].index == i
    decreases |shape|
  {
    var init := shape[..|shape| - 1];
    if i < |shape| - 1 {
      assert shape[i] == init[i];
      k := FieldMapOfComplete(init, i);
      assert FieldMapOf(shape)[k] == FieldMapOf(init)[k];
    } else {
      assert FieldMapOf(shape) == FieldMapOf(init) + [Entry(shape[i], i)];
      k := |FieldMapOf(init)|;
    }
  }

  /** Whether some component of `parts`, trimmed, is `marker`; like the
      source, the scan does not stop at the first hit. */
  method AnyMarker(parts: seq<string>, marker: string) returns (found: bool)
    ensures found <==> exists k :: 0 <= k < |parts| && Text.TrimSpace(parts[k]) == marker
  {
    found := false;
    var k := 0;
    while k < |parts|
      invariant 0 <= k <= |parts|
      invariant found <==> exists j :: 0 <= j < k && Text.TrimSpace(parts[j]) == marker
    {
      if Text.TrimSpace(parts[k]) == marker {
        found := true;
      }
      k := k + 1;
    }
  }

  /** BuildMap: one entry per field with a json tag other than "-", in
      field order. */
  method BuildMap(shape: seq<Field>) returns (fms: seq<FieldMap>)
    ensures fms == FieldMapOf(shape)
  {
    fms := [];
    var i := 0;
    while i < |shape|
      invariant 0 <= i <= |shape|
      invariant fms == FieldMapOf(shape[..i])
    {
      var field := shape[i];
      if field.json.Some? {
        var tag1 := field.json.value;
        if tag1 != "-" {
          var jsonTags := Text.Split(tag1, ',');
          Text.HeadIsFirstComponent(tag1, ',');
          var omitEmpty := AnyMarker(jsonTags, "omitempty");
          assert jsonTags == TagParts(tag1);
          assert omitEmpty == HasMarker(tag1, "omitempty");
          var fm := FieldMap(i, jsonTags[0], omitEmpty, false);
          var tags := Text.Split(field.bson, ',');
          var isId := AnyMarker(tags, "_id");
          assert tags == TagParts(field.bson);
          assert isId == HasMarker(field.bson, "_id");
          if isId {
            fm := fm.(id := true);
          }
          assert fm == Entry(field, i);
          fms := fms + [fm];
        }
      }
      assert shape[..i + 1][..i] == shape[..i];
      assert fms == if Mapped(shape[i]) then FieldMapOf(shape[..i]) + [Entry(shape[i], i)] else FieldMapOf(shape[..i]);
      i := i + 1;
    }
    assert shape[..|shape|] == shape;
  }

  // ---------------------------------------------------------------------
  // BuildBody (write.go:57-89)

  /** The omitempty test: a nil pointer and an empty string are empty; a
      value of any other kind (0, false, a nil map) never is. */
  predicate NonEmpty(slot: Slot) {
    match slot
    case PtrField(target) => target.Some?
    case ValueField(v) => !v.Str? || |v.s| > 0
  }

  /** Whether BuildBody writes this field: never the id, and an omitempty
      field only when non-empty. */
  predicate Writes(fm: FieldMap, slot: Slot) {
    !fm.id && (!fm.omitEmpty || NonEmpty(slot))
  }

  predicate InRange(fms: seq<FieldMap>, record: Record) {
    forall k :: 0 <= k < |fms| ==> fms[k].index < |record|
  }

  /** The document BuildBody builds, entry by entry; a later field with the
      same wire key overwrites an earlier one. */
  function BodyOf(record: Record, fms: seq<FieldMap>): Document
    requires InRange(fms, record)
    decreases |fms|
  {
    if |fms| == 0 then map[]
    else
      var acc := BodyOf(record, fms[..|fms| - 1]);
      var fm := fms[|fms| - 1];
      if Writes(fm, record[fm.index]) then acc[fm.json := JsonOf(record[fm.index])] else acc
  }

  /** BuildBody copies each written field under its wire key. */
  method BuildBody(model: Record, fields: seq<FieldMap>) returns (res: Document)
    requires InRange(fields, model)
    ensures res == BodyOf(model, fields)
  {
    res := map[];
    var i := 0;
    while i < |fields|
      invariant 0 <= i <= |fields|
      invariant res == BodyOf(model, fields[..i])
    {
      var fm := fields[i];
      var f := model[fm.index];
      if !fm.id {
        if fm.omitEmpty {
          if f.PtrField? {
            if f.target.Some? {
              res := res[fm.json := f.target.value];
            }
          } else if f.v.Str? {
            if |f.v.s| > 0 {
              res := res[fm.json := f.v];
            }
          } else {
            res := res[fm.json := f.v];
          }
        } else {
          res := res[fm.json := JsonOf(f)];
        }
      }
      assert fields[..i + 1][..i] == fields[..i];
      i := i + 1;
    }
    assert fields[..|fields|] == fields;
  }

  /** A key is in the document exactly when some field that is written has
      it as its wire key. */
  lemma {:induction false} BodyOfKeys(record: Record, fms: seq<FieldMap>)
    requires InRange(fms, record)
    ensures forall key :: key in BodyOf(record, fms) <==>
      exists i :: 0 <= i < |fms| && fms[i].json == key && Writes(fms[i], record[fms[i].index])
    decreases |fms|
  {
    if |fms| > 0 {
      var init := fms[..|fms| - 1];
      BodyOfKeys(record, init);
      forall key | key in BodyOf(record, fms)
        ensures exists i :: 0 <= i < |fms| && fms[i].json == key && Writes(fms[i], record[fms[i].index])
      {
        if key !in BodyOf(record, init) || key != fms[|fms| - 1].json {
          if key in BodyOf(record, init) {
            var i :| 0 <= i < |init| && init[i].json == key && Writes(init[i], record[init[i].index]);
            assert fms[i] == init[i];
          }
        }
      }
      forall key | exists i :: 0 <= i < |fms| && fms[i].json == key && Writes(fms[i], record[fms[i].index])
        ensures key in BodyOf(record, fms)
      {
        var i :| 0 <= i < |fms| && fms[i].json == key && Writes(fms[i], record[fms[i].index]);
        if i < |fms| - 1 {
          assert init[i] == fms[i];
        }
      }
    }
  }

  /** The value under a key is that of the last field written under it. */
  lemma {:induction false} BodyOfValues(record: Record, fms: seq<FieldMap>, i: nat)
    requires InRange(fms, record)
    requires i < |fms| && Writes(fms[i], record[fms[i].index])
    requires forall j :: i < j < |fms| && fms[j].json == fms[i].json ==> !Writes(fms[j], record[fms[j].index])
    ensures fms[i].json in BodyOf(record, fms)
    ensures BodyOf(record, fms)[fms[i].json] == JsonOf(record[fms[i].index])
    decreases |fms|
  {
    if i < |fms| - 1 {
      var init := fms[..|fms| - 1];
      assert init[i] == fms[i];
      BodyOfValues(record, init, i);
    }
  }

  /** A field that is neither the id nor omitempty is always written, even
      when its value is zero or empty. */
  lemma PlainFieldAlwaysWritten(record: Record, fms: seq<FieldMap>, i: nat)
    requires InRange(fms, record)
    requires i < |fms| && !fms[i].id && !fms[i].omitEmpty
    ensures fms[i].json in BodyOf(record, fms)
  {
    BodyOfKeys(record, fms);
  }

  /** The id field's key is never written, unless another field that is
      written shares it. */
  lemma IdNeverWritten(record: Record, fms: seq<FieldMap>, i: nat)
    requires InRange(fms, record)
    requires i < |fms| && fms[i].id
    requires forall j :: 0 <= j < |fms| && j != i ==> fms[j].json != fms[i].json
    ensures fms[i].json !in BodyOf(record, fms)
  {
    BodyOfKeys(record, fms);
  }

  /** For an omitempty field whose key no other field uses: a string is
      written only when non-empty, a pointer only when non-nil, and a value
      of any other kind always. */
  lemma OmitEmptyRule(record: Record, fms: seq<FieldMap>, i: nat)
    requires InRange(fms, record)
    requires i < |fms| && !fms[i].id && fms[i].omitEmpty
    requires forall j :: 0 <= j < |fms| && j != i ==> fms[j].json != fms[i].json
    ensures var slot := record[fms[i].index];
      fms[i].json in BodyOf(record, fms) <==>
        match slot
        case PtrField(target) => target.Some?
        case ValueField(Str(s)) => s != ""
        case ValueField(_) => true
  {
    BodyOfKeys(record, fms);
  }

  // ---------------------------------------------------------------------
  // Create, Update, Save, Delete (write.go:91-177, 217-238)

  /** The outcome of a create: a transport or decode failure is an error
      with -1; an engine rejection (the document exists) is 0 without
      error; success is the new version. */
  function CreateOutcome(resp: Response<nat>): (o: Outcome)
    ensures Signalled(o)
    ensures o.err.Some? <==> resp.TransportError? || resp.Undecodable?
    ensures resp.TransportError? ==> o.err == Some(resp.message)
    ensures resp.Undecodable? ==> o.err == Some(resp.message)
    ensures o.count == 0 <==> resp.EngineError? || resp == Ok(0)
    ensures resp.Ok? ==> o.count == resp.body
  {
    match resp
    case TransportError(msg) => Outcome(-1, Some(msg))
    case EngineError => Outcome(0, None)
    case Undecodable(msg) => Outcome(-1, Some(msg))
    case Ok(version) => Outcome(version, None)
  }

  /** Create: the id is sent as the document id only when non-empty. */
  function Create(index: string, model: Document, id: string, resp: Response<nat>): (r: (Request, Outcome))
    ensures r.0 == CreateDoc(index, if id == "" then None else Some(id), model)
    ensures r.1 == CreateOutcome(resp)
  {
    (CreateDoc(index, if |id| > 0 then Some(id) else None, model), CreateOutcome(resp))
  }

  /** The outcome of an update, upsert, patch or delete: any engine error
      reads as "document ID not exists in the index"; success is the
      number of shards that acknowledged. */
  function ShardsOutcome(resp: Response<nat>): (o: Outcome)
    ensures Signalled(o)
    ensures o.err.Some? <==> !resp.Ok?
    ensures resp.EngineError? ==> o.err == Some(NotExists)
    ensures resp.TransportError? ==> o.err == Some(resp.message)
    ensures resp.Undecodable? ==> o.err == Some(resp.message)
    ensures resp.Ok? ==> o.count == resp.body
  {
    match resp
    case TransportError(msg) => Outcome(-1, Some(msg))
    case EngineError => Outcome(-1, Some(NotExists))
    case Undecodable(msg) => Outcome(-1, Some(msg))
    case Ok(successful) => Outcome(successful, None)
  }

  /** Update sends {"doc": model} to the update API. */
  function Update(index: string, model: Document, id: string, resp: Response<nat>): (r: (Request, Outcome))
    ensures r.0 == UpdateDoc(index, id, DocBody(model))
    ensures r.1 == ShardsOutcome(resp)
  {
    (UpdateDoc(index, id, DocBody(model)), ShardsOutcome(resp))
  }

  /** Save sends {"doc": model} to the index API under the given id. */
  function Save(index: string, model: Document, id: string, resp: Response<nat>): (r: (Request, Outcome))
    ensures r.0 == IndexDoc(index, id, DocBody(model))
    ensures r.1 == ShardsOutcome(resp)
  {
    (IndexDoc(index, id, DocBody(model)), ShardsOutcome(resp))
  }

  /** Delete removes the document with the given id. */
  function Delete(index: string, documentId: string, resp: Response<nat>): (r: (Request, Outcome))
    ensures r.0 == DeleteDoc(index, documentId)
    ensures r.1 == ShardsOutcome(resp)
  {
    (DeleteDoc(index, documentId), ShardsOutcome(resp))
  }

  /** An engine rejection is "nothing happened" for Create but an error for
      Update, Save and Delete. */
  lemma RejectionAsymmetry(index: string, model: Document, id: string)
    ensures Create(index, model, id, EngineError).1 == Outcome(0, None)
    ensures Update(index, model, id, EngineError).1 == Outcome(-1, Some(NotExists))
    ensures Save(index, model, id, EngineError).1 == Outcome(-1, Some(NotExists))
    ensures Delete(index, id, EngineError).1 == Outcome(-1, Some(NotExists))
  {
  }

  // ---------------------------------------------------------------------
  // Patch (write.go:179-215)

  /** The caller's map[string]interface{}, which Patch edits in place. */
  class DocumentRef {
    var entries: Document

    constructor (entries: Document)
      ensures this.entries == entries
    {
      this.entries := entries;
    }
  }

  function MissingIdError(idName: string): Error {
    idName + " must be in map[string]interface{} for patch"
  }

  function IdNotStringError(idName: string): Error {
    idName + " map[string]interface{} must be a string for patch"
  }

  /** Patch: the id must be a string under `idName`; it is removed from
      the map, the rest is sent as {"doc": ...} under that id, and the id is
      put back before the reply is looked at. The map therefore ends as it
      began on every path, and no request is sent when the id is unusable. */
  method Patch(index: string, model: DocumentRef, idName: string, resp: Response<nat>)
    returns (sent: Option<Request>, out: Outcome)
    modifies model
    ensures model.entries == old(model.entries)
    ensures Signalled(out)
    ensures idName !in old(model.entries) ==>
      sent == None && out == Outcome(-1, Some(MissingIdError(idName)))
    ensures idName in old(model.entries) && !old(model.entries)[idName].Str? ==>
      sent == None && out == Outcome(-1, Some(IdNotStringError(idName)))
    ensures idName in old(model.entries) && old(model.entries)[idName].Str? ==>
      && sent == Some(UpdateDoc(index, old(model.entries)[idName].s, DocBody(old(model.entries) - {idName})))
      && idName !in old(model.entries) - {idName}
      && out == ShardsOutcome(resp)
  {
    if idName !in model.entries {
      return None, Outcome(-1, Some(MissingIdError(idName)));
    }
    var idValue := model.entries[idName];
    if !idValue.Str? {
      return None, Outcome(-1, Some(IdNotStringError(idName)));
    }
    var id := idValue.s;
    model.entries := model.entries - {idName};
    sent := Some(UpdateDoc(index, id, DocBody(model.entries)));
    model.entries := model.entries[idName := Str(id)];
    assert model.entries == old(model.entries);
    out := ShardsOutcome(resp);
  }

  // ---------------------------------------------------------------------
  // DeleteBatch (write.go:240-268)

  /** How the bulk indexer treated one delete item: Add refused it, or it
      was queued and the engine accepted or rejected it when flushed. */
  datatype BulkItem = AddFailed(err: Error) | Queued(rejected: bool)

  /** The ids the failure callback reports: those of queued items the
      engine rejected, in item order. */
  function FailedIds(ids: seq<string>, items: seq<BulkItem>): seq<string>
    requires |ids| == |items|
    decreases |ids|
  {
    if |ids| == 0 then []
    else
      var init := FailedIds(ids[..|ids| - 1], items[..|items| - 1]);
      if items[|items| - 1] == Queued(true) then init + [ids[|ids| - 1]] else init
  }

  /** The error of the first item Add refused, if any. */
  function FirstAddError(items: seq<BulkItem>): Option<Error>
    decreases |items|
  {
    if |items| == 0 then None
    else
      var init := FirstAddError(items[..|items| - 1]);
      if init.Some? then init
      else if items[|items| - 1].AddFailed? then Some(items[|items| - 1].err)
      else None
  }

  /** DeleteBatch: every item is offered to the indexer whatever happened
      to the earlier ones, rejected ids are collected, the indexer is always
      closed, and the error returned is the first Add error, or else the
      Close error. */
  method DeleteBatch(index: string, ids: seq<string>, newErr: Option<Error>, items: seq<BulkItem>, closeErr: Option<Error>)
    returns (failIds: seq<string>, err: Option<Error>)
    requires |items| == |ids|
    ensures newErr.Some? ==> failIds == [] && err == newErr
    ensures newErr.None? ==> failIds == FailedIds(ids, items)
    ensures newErr.None? ==> err == if FirstAddError(items).Some? then FirstAddError(items) else closeErr
  {
    if newErr.Some? {
      return [], newErr;
    }
    var er2: Option<Error> := None;
    failIds := [];
    var i := 0;
    while i < |ids|
      invariant 0 <= i <= |ids|
      invariant failIds == FailedIds(ids[..i], items[..i])
      invariant er2 == FirstAddError(items[..i])
    {
      var er1: Option<Error> := None;
      match items[i] {
        case AddFailed(e) => er1 := Some(e);
        case Queued(rejected) =>
          if rejected {
            failIds := failIds + [ids[i]];
          }
      }
      if er1.Some? && er2.None? {
        er2 := er1;
      }
      assert ids[..i + 1][..i] == ids[..i];
      assert items[..i + 1][..i] == items[..i];
      i := i + 1;
    }
    assert ids[..|ids|] == ids && items[..|items|] == items;
    if closeErr.Some? && er2.None? {
      er2 := closeErr;
    }
    err := er2;
  }

  /** Exactly the ids of rejected items are reported, none more. */
  lemma {:induction false} FailedIdsMembers(ids: seq<string>, items: seq<BulkItem>)
    requires |ids| == |items|
    ensures |FailedIds(ids, items)| <= |ids|
    ensures forall x :: x in FailedIds(ids, items) <==>
      exists i :: 0 <= i < |ids| && ids[i] == x && items[i] == Queued(true)
    decreases |ids|
  {
    if |ids| > 0 {
      var n := |ids| - 1;
      FailedIdsMembers(ids[..n], items[..n]);
      forall x | exists i :: 0 <= i < |ids| && ids[i] == x && items[i] == Queued(true)
        ensures x in FailedIds(ids, items)
      {
        var i :| 0 <= i < |ids| && ids[i] == x && items[i] == Queued(true);
        if i < n {
          assert ids[..n][i] == x && items[..n][i] == Queued(true);
        }
      }
      forall x | x in FailedIds(ids, items)
        ensures exists i :: 0 <= i < |ids| && ids[i] == x && items[i] == Queued(true)
      {
        if x in FailedIds(ids[..n], items[..n]) {
          var i :| 0 <= i < n && ids[..n][i] == x && items[..n][i] == Queued(true);
          assert ids[i] == x && items[i] == Queued(true);
        }
      }
    }
  }

  /** The batch error is the error of the earliest refused item. */
  lemma {:induction false} FirstAddErrorIsEarliest(items: seq<BulkItem>)
    ensures FirstAddError(items).Some? <==> exists i :: 0 <= i < |items| && items[i].AddFailed?
    ensures FirstAddError(items).Some? ==>
      exists i :: 0 <= i < |items| && items[i] == AddFailed(FirstAddError(items).value) &&
        forall j :: 0 <= j < i ==> !items[j].AddFailed?
    decreases |items|
  {
    if |items| > 0 {
      var n := |items| - 1;
      FirstAddErrorIsEarliest(items[..n]);
      assert forall j :: 0 <= j < n ==> items[..n][j] == items[j];
    }
  }

  /** A rejected item in the middle of a batch: its id is reported, the
      others are still processed and no error is returned. */
  lemma RejectedItemReported()
    ensures FailedIds(["a", "b", "c"], [Queued(false), Queued(true), Queued(false)]) == ["b"]
    ensures FirstAddError([Queued(false), Queued(true), Queued(false)]) == None
  {
    assert ["a", "b", "c"][..2] == ["a", "b"] && ["a", "b"][..1] == ["a"] && ["a"][..0] == [];
    var items := [Queued(false), Queued(true), Queued(false)];
    assert items[..2] == [Queued(false), Queued(true)];
    assert items[..2][..1] == [Queued(false)];
    assert items[..2][..1][..0] == [];
    assert FirstAddError(items[..2][..1]) == None;
    assert FirstAddError(items[..2]) == None;
  }
}
