# Elasticsearch generic repository: a verified model

This project models the document-repository layer of a Go sample service
that keeps users in Elasticsearch. It covers:

- the `core-go/elasticsearch` package:
  - the field map built from a struct's tags;
  - the document body built from a struct value;
  - the tag lookups;
  - the write outcomes (Create, Update, Save, Patch, Delete and the batch delete);
  - the lookups that graft the hit envelope's `_id` and `_version` back into the stored source;
- the generic `Repository` and `SearchRepository` built on that package;
- the hand-written `UserAdapter`;
- the decision logic of the user HTTP handler;
- two generated enum text codecs, `MigrationStatus` and `TrainedModelType`.

Go reflection is replaced by data:

- A struct type is a sequence of `Fields.Field` descriptors. Each holds the Go name, the json tag (absent or present), the bson tag and the type name.
- A struct value is a `Fields.Record`, one `Slot` per field.
- A wire document is a `Fields.Document`, a map from keys to JSON values.

The engine is an abstract `Engine.Response`: a transport failure, an engine error status, an undecodable body, or a decoded reply. Each operation returns the `Engine.Request` it sends, so contracts say what goes over the wire.

Collaborators whose code is not part of the model are parameters:

- decoding JSON into the record type;
- the search-result builder and the query builder;
- the validator;
- the user service.

Files and modules:

| file | module | models |
|---|---|---|
| wrappers.dfy | Wrappers | Option and Result |
| text.dfy | Text | strings.Split, TrimSpace, ToLower, ReplaceAll as used by the tags and the enum codecs |
| fields.dfy | Fields | field descriptors, records, documents, tag parsing |
| engine.dfy | Engine | requests, responses, the signed outcome (count, error) |
| write.dfy | Write | write.go |
| elasticsearch.dfy | Elasticsearch | elasticsearch.go |
| repository.dfy | Repo | repository/repository.go |
| search.dfy | SearchRepo | repository/search.go |
| adapter.dfy | Adapter | the user adapter |
| handler.dfy | Handler | the user HTTP handler |
| signals.dfy | Signals | how engine replies surface as HTTP statuses |
| migrationstatus.dfy, trainedmodeltype.dfy | MigrationStatus, TrainedModelType | the enum codecs |

Where the code and its design description disagree, the model follows the code:

- A document the engine does not have makes Update, Save, Patch and Delete fail with "document ID not exists in the index". It is not a zero count. Through the handler this is a 500, never a 404 (`Signals.MissingDocumentUpdate`, `Signals.DeleteStatuses`).
- A missing document on Load is an engine error ("response error"), so a 500. As written, the handler's 404 for Load is reached exactly when the reply's body does not decode, because the lookup swallows that error (`Signals.LoadNotFoundAsWritten`). Once the lookup reports it, the 404 is unreachable (`Signals.LoadNeverNotFound`).
- The error texts of Update, Load, Delete and All reach the HTTP client unchanged.
- A struct with two fields tagged bson "_id" is not refused: the first of them is the id (`Repo.FirstIdFieldWins`).

## Model

| member | source | states |
|---|---|---|
| Text.JoinSplit | vendor/github.com/core-go/elasticsearch/write.go:36 | splitting a tag on commas loses nothing: joining the parts with commas gives the tag back |
| Text.SplitJoin | vendor/github.com/core-go/elasticsearch/write.go:36 | splitting the comma-join of comma-free parts gives back exactly those parts |
| Text.HeadIsFirstComponent | vendor/github.com/core-go/elasticsearch/write.go:37 | the first component of the split is the tag up to its first comma |
| Text.TrimSpaceBounds | vendor/github.com/core-go/elasticsearch/write.go:39 | trimming removes exactly a white-space prefix and a white-space suffix |
| Text.ToLowerIdempotent | vendor/github.com/elastic/go-elasticsearch/v8/typedapi/types/enums/migrationstatus/migrationstatus.go:46 | lower-casing twice is lower-casing once |
| Text.EnumKey | vendor/github.com/elastic/go-elasticsearch/v8/typedapi/types/enums/migrationstatus/migrationstatus.go:46 | the switch key has no upper-case ASCII letter and no '"' |
| Write.FieldMapOfEntries | vendor/github.com/core-go/elasticsearch/write.go:30-52 | every field-map entry is the entry of a field that has a json tag other than "-" (so fields without a json tag have none): its position, the tag's first component, omitempty iff some json component trims to "omitempty", id iff some bson component trims to "_id" |
| Write.FieldMapOfOrdered | vendor/github.com/core-go/elasticsearch/write.go:24-56 | entry positions strictly increase, in struct field order |
| Write.FieldMapOfComplete | vendor/github.com/core-go/elasticsearch/write.go:34-52 | every field with a json tag other than "-" has an entry at its own position |
| Write.AnyMarker | vendor/github.com/core-go/elasticsearch/write.go:38-42 | the marker scan finds the marker iff some component, trimmed, equals it |
| Write.BuildMap | vendor/github.com/core-go/elasticsearch/write.go:24-56 | the loop builds exactly the field map of the struct type |
| Write.BuildBody | vendor/github.com/core-go/elasticsearch/write.go:57-89 | the loop builds exactly the body of the record under the field map (later same-key fields overwrite) |
| Write.BodyOfKeys | vendor/github.com/core-go/elasticsearch/write.go:62-87 | a key is in the body iff some entry with that key is written: not the id, and non-empty when omitempty |
| Write.BodyOfValues | vendor/github.com/core-go/elasticsearch/write.go:62-87 | the value under a key is the JSON of the last field written under it |
| Write.PlainFieldAlwaysWritten | vendor/github.com/core-go/elasticsearch/write.go:83-85 | a field that is neither id nor omitempty is written even when zero |
| Write.IdNeverWritten | vendor/github.com/core-go/elasticsearch/write.go:66 | a field flagged id is never in the body (when its key is its own) |
| Write.OmitEmptyRule | vendor/github.com/core-go/elasticsearch/write.go:67-82 | an omitempty pointer is written iff non-nil, an omitempty string iff non-empty, any other omitempty value always |
| Write.CreateOutcome | vendor/github.com/core-go/elasticsearch/write.go:107-122 | -1 with the error on transport or decode failure; 0 and no error when the engine rejects; the version on success; error iff count negative |
| Write.Create | vendor/github.com/core-go/elasticsearch/write.go:91-106 | the document id is sent only when the id is non-empty |
| Write.ShardsOutcome | vendor/github.com/core-go/elasticsearch/write.go:135-150 | any engine error is -1 with "document ID not exists in the index"; success is the acknowledged shard count; error iff count negative |
| Write.Update | vendor/github.com/core-go/elasticsearch/write.go:125-151 | sends {"doc": model} to the update API of the index under the id; the outcome is ShardsOutcome of the reply |
| Write.Save | vendor/github.com/core-go/elasticsearch/write.go:153-177 | sends {"doc": model} to the index API of the index under the id; the outcome is ShardsOutcome of the reply |
| Write.Delete | vendor/github.com/core-go/elasticsearch/write.go:217-238 | deletes the document id in the index; the outcome is ShardsOutcome of the reply |
| Write.RejectionAsymmetry | vendor/github.com/core-go/elasticsearch/write.go:91-238 | an engine rejection is (0, no error) for Create but (-1, error) for Update, Save and Delete |
| Write.Patch | vendor/github.com/core-go/elasticsearch/write.go:179-215 | no request and -1 with the tag's message when the id key is missing or not a string; otherwise {"doc": map without the id} under that id; the caller's map ends exactly as it began on every path |
| Write.DeleteBatch | vendor/github.com/core-go/elasticsearch/write.go:240-268 | a failing indexer start returns no ids and its error; otherwise the ids of the failed items in order, and the first Add error, else the Close error |
| Write.FailedIdsMembers | vendor/github.com/core-go/elasticsearch/write.go:255-257 | an id is reported iff one of its items failed at the engine; never more ids than items |
| Write.FirstAddErrorIsEarliest | vendor/github.com/core-go/elasticsearch/write.go:259-261 | the batch error is the Add error of the earliest item Add refused, and there is one iff some Add failed |
| Write.RejectedItemReported | vendor/github.com/core-go/elasticsearch/write.go:251-267 | of three items of which the second is rejected, exactly that id is reported and there is no Add error |
| Elasticsearch.FindBsonField | vendor/github.com/core-go/elasticsearch/elasticsearch.go:18-35 | the lowest field whose bson tag has a component trimming to the name, with its Go name and json name (tag head, else Go name); (-1, "", "") when none |
| Elasticsearch.FindIdField | vendor/github.com/core-go/elasticsearch/elasticsearch.go:15-17 | the first field tagged bson "_id"; -1 iff there is none |
| Elasticsearch.FindFieldByName | vendor/github.com/core-go/elasticsearch/elasticsearch.go:36-49 | the first field with exactly that Go name and its json name; (-1, name) when none |
| Elasticsearch.FindFieldByJson | vendor/github.com/core-go/elasticsearch/elasticsearch.go:51-61 | the first field whose json tag head is the key (a field without a json tag never matches); (-1, key) when none |
| Elasticsearch.FindFieldByIndex | vendor/github.com/core-go/elasticsearch/elasticsearch.go:63-73 | ("", "") past the last field; an empty json name for a field without a json tag |
| Elasticsearch.ByJsonThenByIndex | vendor/github.com/core-go/elasticsearch/elasticsearch.go:51-73 | looking up by json name then by the found position gives the same Go name and key |
| Elasticsearch.ByNameThenByIndex | vendor/github.com/core-go/elasticsearch/elasticsearch.go:36-73 | looking up by Go name then by the found position gives the same name |
| Elasticsearch.Exist | vendor/github.com/core-go/elasticsearch/elasticsearch.go:75-96 | found only for a decoded reply saying found; every failure is "not found" with an error: the transport error's message, "response error" for an engine error, the decode error for an undecodable body |
| Elasticsearch.HeadAsResponse | vendor/github.com/core-go/elasticsearch/elasticsearch.go:80-91 | what the written code reads from the HEAD reply: a transport failure, an error status above 299, and otherwise an empty body that does not decode; never a decoded reply |
| Elasticsearch.ExistNeverFound | vendor/github.com/core-go/elasticsearch/elasticsearch.go:86-93 | as written over a HEAD reply, Exist never says found: 200 gives the empty body's "EOF", 404 gives "response error" |
| Elasticsearch.ExistCorrected | vendor/github.com/core-go/elasticsearch/elasticsearch.go:75-96 | found iff the status is 2xx; 404 is "not found" without error; the transport message or "response error" otherwise, as the written code reports them |
| Elasticsearch.Graft | vendor/github.com/core-go/elasticsearch/elasticsearch.go:114-120 | the source gains the id under idJson and the version under versionJson, each only when the name is non-empty; other keys unchanged |
| Elasticsearch.FindOneWithVersion | vendor/github.com/core-go/elasticsearch/elasticsearch.go:100-129 | as written: for a decoded reply, found iff the grafted source decodes, else the decode error; the transport error's message; "response error" on an engine error; an undecodable body is "not found, no error" |
| Elasticsearch.FindOneWithVersionCorrected | vendor/github.com/core-go/elasticsearch/elasticsearch.go:100-129 | found iff no error; for a decoded reply, found iff the grafted source decodes; an undecodable body reports its error; otherwise identical to the written lookup |
| Elasticsearch.DecodeErrorSwallowed | vendor/github.com/core-go/elasticsearch/elasticsearch.go:113-126 | a reply that does not decode gives (false, nil) as written and (false, the decode error) corrected |
| Elasticsearch.FindOne | vendor/github.com/core-go/elasticsearch/elasticsearch.go:97-99 | the written lookup without a version name: the request for the id in the index, found iff the reply decodes and its id-grafted source decodes, the same errors, and "not found, no error" for an undecodable body |
| Elasticsearch.FindOneCorrected | vendor/github.com/core-go/elasticsearch/elasticsearch.go:97-99 | FindOne over the corrected lookup: found iff no error; an undecodable body reports its error; otherwise identical to FindOne |
| Elasticsearch.Lookup.Answer | vendor/github.com/core-go/elasticsearch/repository/repository.go:65-69 | what Load returns from a lookup: the record iff found without error, otherwise nothing and the lookup's error |
| Elasticsearch.HitDocuments | vendor/github.com/core-go/elasticsearch/elasticsearch.go:153-166 | as written: one document per hit, in hit order, each the source with the id grafted; the version name has no effect |
| Elasticsearch.FindWithVersion | vendor/github.com/core-go/elasticsearch/elasticsearch.go:133-170 | as written: the search request carries the indices and query; errors as Exist; a decoded reply yields the decoding of the hit documents |
| Elasticsearch.HitDocumentCorrected | vendor/github.com/core-go/elasticsearch/elasticsearch.go:159-164 | the corrected document carries the version under the version name and agrees with the written one when there is none |
| Elasticsearch.VersionNotGrafted | vendor/github.com/core-go/elasticsearch/elasticsearch.go:162-165 | a hit without a "version" key keeps none as written, while the corrected document carries the version |
| Elasticsearch.HitDocumentsCorrected | vendor/github.com/core-go/elasticsearch/elasticsearch.go:155-166 | the corrected loop builds one corrected document per hit, in order |
| Elasticsearch.FindWithVersionCorrected | vendor/github.com/core-go/elasticsearch/elasticsearch.go:133-170 | FindWithVersion with the corrected documents |
| Elasticsearch.Find | vendor/github.com/core-go/elasticsearch/elasticsearch.go:130-132 | a search without a version name decodes the hits' sources with the id grafted; on failure the transport error's message, "response error" for an engine error, the decode error for an undecodable body |
| Repo.NewRepositoryWithIdName | vendor/github.com/core-go/elasticsearch/repository/repository.go:28-56 | fails unless the type is a struct with an id field (tagged bson "_id" when no id name is given, else of that Go name) of type string; each failure carries its panic message (not a struct; no "_id" tag or no field of that name; id not a string); on success the repository is valid and a missing version field disables versioning |
| Repo.NewRepository | vendor/github.com/core-go/elasticsearch/repository/repository.go:22-24 | the id is the field tagged bson "_id" |
| Repo.NewRepositoryWithVersion | vendor/github.com/core-go/elasticsearch/repository/repository.go:25-27 | the id is the field tagged bson "_id"; a version position names the version field |
| Repo.Repository.IdOf | vendor/github.com/core-go/elasticsearch/repository/repository.go:76 | the id is the string held at the id position |
| Repo.Repository.Create | vendor/github.com/core-go/elasticsearch/repository/repository.go:74-79 | sends the body built from the field map with the model's id (none when empty); the outcome is CreateOutcome of the reply |
| Repo.Repository.Update | vendor/github.com/core-go/elasticsearch/repository/repository.go:80-85 | sends {"doc": body} under the model's id; the outcome is ShardsOutcome of the reply |
| Repo.Repository.Save | vendor/github.com/core-go/elasticsearch/repository/repository.go:89-97 | an empty id falls back to Create without a document id, with CreateOutcome; otherwise the body is indexed under the id, with ShardsOutcome |
| Repo.Repository.Delete | vendor/github.com/core-go/elasticsearch/repository/repository.go:98-100 | deletes the id in the repository's index; the outcome is ShardsOutcome of the reply |
| Repo.Repository.Exist | vendor/github.com/core-go/elasticsearch/repository/repository.go:71-73 | asks the repository's index |
| Repo.Repository.Patch | vendor/github.com/core-go/elasticsearch/repository/repository.go:86-88 | patches keyed by the id's json name: -1 with the missing-id or not-a-string message and no request when the id is unusable, else ShardsOutcome; the map ends as it began |
| Repo.Repository.Load | vendor/github.com/core-go/elasticsearch/repository/repository.go:63-70 | through the written lookup with id and version grafted: for a decoded reply, a record iff it decodes, else the decode error; the transport error or "response error" otherwise; an undecodable body gives neither record nor error |
| Repo.Repository.LoadCorrected | vendor/github.com/core-go/elasticsearch/repository/repository.go:63-70 | Load over the corrected lookup: a record iff no error; an undecodable body reports its error; otherwise identical to Load |
| Repo.Repository.All | vendor/github.com/core-go/elasticsearch/repository/repository.go:57-62 | as written: searches the index list ["users"] whatever the repository's index; the decoded hits, or the transport error's message, "response error" for an engine error, the decode error for an undecodable body |
| Repo.Repository.AllCorrected | vendor/github.com/core-go/elasticsearch/repository/repository.go:57-62 | searches the repository's own index; the decoded hits, or the transport error's message, "response error" for an engine error, the decode error for an undecodable body |
| Repo.IdKeptOutOfBody | vendor/github.com/core-go/elasticsearch/repository/repository.go:74-79 | when the id field is mapped with its own key, the body sent never carries the id |
| Repo.FirstIdFieldWins | vendor/github.com/core-go/elasticsearch/elasticsearch.go:15-35 | a struct with two fields tagged bson "_id" (the first a string) is accepted, and the first of them is the id |
| SearchRepo.PostMapOf | vendor/github.com/core-go/elasticsearch/repository/search.go:29-32 | a post-map is kept iff the first option is present and non-nil |
| SearchRepo.NewSearchRepositoryWithIdName | vendor/github.com/core-go/elasticsearch/repository/search.go:25-34 | succeeds iff the repository constructor does; keeps the query builder, sort getter and post-map |
| SearchRepo.NewSearchRepository | vendor/github.com/core-go/elasticsearch/repository/search.go:19-21 | a valid repository over the given index |
| SearchRepo.NewSearchRepositoryWithVersion | vendor/github.com/core-go/elasticsearch/repository/search.go:22-24 | a valid repository over the given index |
| SearchRepo.ApplyPostMap | vendor/github.com/core-go/elasticsearch/repository/search.go:42-47 | each element is replaced by its mapping exactly once; the length is unchanged |
| SearchRepo.Search | vendor/github.com/core-go/elasticsearch/repository/search.go:36-49 | the same filter goes to the query builder and the sort getter, the index as [Index]; records unchanged without a post-map, each mapped with one (even on error); total and error passed through |
| Adapter.NewUserRepository | internal/user/repository/adapter/adapter.go:22-26 | index "users", the id located by its bson "_id" tag (empty name when none), the field map of the User type |
| Adapter.UserAdapter.IdOf | internal/user/repository/adapter/adapter.go:45 | user.Id is the string in the Id field |
| Adapter.UserAdapter.All | internal/user/repository/adapter/adapter.go:28-33 | an empty query over "users"; the decoded hits, or the transport error's message, "response error" for an engine error, the decode error for an undecodable body |
| Adapter.UserAdapter.Load | internal/user/repository/adapter/adapter.go:35-42 | through FindOne as written: for a decoded reply, the user iff it decodes, else the decode error; the transport error or "response error" otherwise; an undecodable body gives neither user nor error |
| Adapter.UserAdapter.LoadCorrected | internal/user/repository/adapter/adapter.go:35-42 | Load over the corrected FindOne: a user iff no error; otherwise identical to Load except for an undecodable body, which reports its error |
| Adapter.UserAdapter.Create | internal/user/repository/adapter/adapter.go:44-46 | sends the body with user.Id as document id (none when empty); the outcome is CreateOutcome of the reply |
| Adapter.UserAdapter.Update | internal/user/repository/adapter/adapter.go:48-54 | an empty Id is refused with -1 and the message, without any request; otherwise {"doc": body} under the Id, with ShardsOutcome of the reply |
| Adapter.UserAdapter.Save | internal/user/repository/adapter/adapter.go:55-58 | no empty-Id guard: the body is indexed under the Id as it is, with ShardsOutcome of the reply |
| Adapter.UserAdapter.Patch | internal/user/repository/adapter/adapter.go:60-62 | patches keyed by the bson "_id" field's json name: -1 with the missing-id or not-a-string message and no request when the id is unusable, else ShardsOutcome; the map ends as it began |
| Adapter.UserAdapter.Delete | internal/user/repository/adapter/adapter.go:64-66 | deletes the id in "users"; the outcome is ShardsOutcome of the reply |
| Handler.UserHandler.IdOf | internal/user/handler/handler.go:106 | user.Id is the string in the Id field |
| Handler.UserHandler.WithPathId | internal/user/handler/handler.go:106-111 | an empty body Id takes the path id; a different non-empty Id is "Id not match"; nothing else in the user changes |
| Handler.UserHandler.All | internal/user/handler/handler.go:35-43 | 200 with the users, or 500 with the error text |
| Handler.UserHandler.Load | internal/user/handler/handler.go:44-62 | 400 for an empty id without calling the service; 500 with the service's error text; 404 with a null body iff the service answers nil without error; 200 with the user |
| Handler.UserHandler.Validation | internal/user/handler/handler.go:71-80 | a validator error is 500 with the generic text; validation messages are 422; only an empty list lets the request through |
| Handler.UserHandler.Create | internal/user/handler/handler.go:63-92 | decode failure first (400), then the validator's reply (500 generic or 422 with the messages); the service gets the decoded user only when all checks pass; its error is a 500 with the generic text; 201 with the user iff its count is positive, 409 with the count iff zero or negative |
| Handler.UserHandler.CountStatus | internal/user/handler/handler.go:128-134 | 200 for a positive count, 404 for zero, 409 for a negative one |
| Handler.UserHandler.Update | internal/user/handler/handler.go:93-135 | decode failure, empty path id and Id mismatch are 400 in that order; otherwise the user carrying the path id is validated, and a refusal is the validator's reply; the service gets that user; its error is 500 with its text; counts give 200 with the user, 404 or 409 with the count |
| Handler.UserHandler.Patch | internal/user/handler/handler.go:136-184 | empty path id 400; unreadable request 500 with its error; Id mismatch 400; a map that cannot be rebuilt as JSON 500 with its error; then the user carrying the path id is validated, a refusal being the validator's reply; the service gets the rebuilt map; its error is a generic 500; counts give 200 with the map, 404 or 409 with the count |
| Handler.UserHandler.Delete | internal/user/handler/handler.go:185-202 | 400 for an empty id; 500 with the error; 200 with the count when positive, 404 otherwise |
| Handler.IsNilAsWritten | internal/user/handler/handler.go:215-224 | as written: a nil interface is nil, nil pointers, maps, channels and slices are nil, other kinds are not, and an array panics |
| Handler.IsNil | internal/user/handler/handler.go:215-224 | corrected: arrays are never nil; agrees with the written code wherever that does not panic |
| Handler.ArrayPanics | internal/user/handler/handler.go:219-221 | an array value makes the written code panic, while the corrected code says not nil |
| Handler.IsFound | internal/user/handler/handler.go:209-214 | as written: 404 iff isNil says nil, 200 otherwise, and the panic of isNil for an array |
| Handler.IsFoundCorrected | internal/user/handler/handler.go:209-214 | 404 iff nil, 200 otherwise, never a panic; equal to the written status wherever that does not panic |
| Handler.LogKey | internal/user/handler/handler.go:226-229 | "request" unless the first option is a non-empty string |
| Handler.MakeMap | internal/user/handler/handler.go:225-237 | an empty map when marshalling fails, else the single entry key to the marshalled text |
| Signals.CreateStatuses | internal/user/handler/handler.go:81-91 | once validated, Create answers 201 iff the engine acknowledged a positive version, 409 iff it rejected the document or reported 0, 500 on transport or decode failure |
| Signals.UpdateNeverConflicts | internal/user/handler/handler.go:122-134 | with a service that keeps the outcome signal, Update never answers 409 |
| Signals.PatchNeverConflicts | internal/user/handler/handler.go:171-183 | with a service that keeps the outcome signal, Patch never answers 409 |
| Signals.MissingDocumentUpdate | internal/user/handler/handler.go:122-127 | updating a document the engine does not have answers 500 "document ID not exists in the index" |
| Signals.DeleteStatuses | internal/user/handler/handler.go:191-201 | Delete answers 200 iff a positive acknowledgement, 404 iff zero shards, 500 on every failure |
| Signals.LoadNeverNotFound | internal/user/handler/handler.go:51-61 | with the corrected FindOne, Load never answers 404 |
| Signals.LoadNotFoundAsWritten | vendor/github.com/core-go/elasticsearch/elasticsearch.go:113-126 | with FindOne as written, Load answers 404 exactly when the reply's body does not decode |
| MigrationStatus.String | vendor/github.com/elastic/go-elasticsearch/v8/typedapi/types/enums/migrationstatus/migrationstatus.go:63-65 | the name, from which the status is rebuilt |
| MigrationStatus.MarshalText | vendor/github.com/elastic/go-elasticsearch/v8/typedapi/types/enums/migrationstatus/migrationstatus.go:41-43 | the name, never an error |
| MigrationStatus.UnmarshalText | vendor/github.com/elastic/go-elasticsearch/v8/typedapi/types/enums/migrationstatus/migrationstatus.go:45-61 | never an error |
| MigrationStatus.NoCaseMatches | vendor/github.com/elastic/go-elasticsearch/v8/typedapi/types/enums/migrationstatus/migrationstatus.go:46-57 | no case can match: every text decodes to the status holding that text |
| MigrationStatus.RoundTrip | vendor/github.com/elastic/go-elasticsearch/v8/typedapi/types/enums/migrationstatus/migrationstatus.go:31-61 | unmarshalling the marshalled status gives it back, for every status |
| MigrationStatus.LowerCaseNotRecognised | vendor/github.com/elastic/go-elasticsearch/v8/typedapi/types/enums/migrationstatus/migrationstatus.go:46-57 | "in_progress" is not decoded as IN_PROGRESS |
| MigrationStatus.UnmarshalTextCorrected | vendor/github.com/elastic/go-elasticsearch/v8/typedapi/types/enums/migrationstatus/migrationstatus.go:45-61 | each lower-cased, unquoted name decodes to its constant; anything else keeps the text |
| MigrationStatus.ConstantKeys | vendor/github.com/elastic/go-elasticsearch/v8/typedapi/types/enums/migrationstatus/migrationstatus.go:31-39 | each constant's name lower-cases to its corrected case label |
| MigrationStatus.RoundTripCorrected | vendor/github.com/elastic/go-elasticsearch/v8/typedapi/types/enums/migrationstatus/migrationstatus.go:31-61 | every constant survives a round trip through the corrected decoder |
| MigrationStatus.UnmarshalCorrectedIdempotent | vendor/github.com/elastic/go-elasticsearch/v8/typedapi/types/enums/migrationstatus/migrationstatus.go:41-61 | decoding the encoding of a decoded text changes nothing |
| TrainedModelType.String | vendor/github.com/elastic/go-elasticsearch/v8/typedapi/types/enums/trainedmodeltype/trainedmodeltype.go:59-61 | the name, from which the type is rebuilt |
| TrainedModelType.MarshalText | vendor/github.com/elastic/go-elasticsearch/v8/typedapi/types/enums/trainedmodeltype/trainedmodeltype.go:39-41 | the name, never an error |
| TrainedModelType.UnmarshalText | vendor/github.com/elastic/go-elasticsearch/v8/typedapi/types/enums/trainedmodeltype/trainedmodeltype.go:43-57 | the lower-cased text without '"' is matched against the three names; unmatched text is kept verbatim; never an error |
| TrainedModelType.IgnoresCaseAndQuotes | vendor/github.com/elastic/go-elasticsearch/v8/typedapi/types/enums/trainedmodeltype/trainedmodeltype.go:44 | '"PyTorch"' decodes to pytorch |
| TrainedModelType.ConstantKeys | vendor/github.com/elastic/go-elasticsearch/v8/typedapi/types/enums/trainedmodeltype/trainedmodeltype.go:31-37 | each constant's name is its own key |
| TrainedModelType.RoundTrip | vendor/github.com/elastic/go-elasticsearch/v8/typedapi/types/enums/trainedmodeltype/trainedmodeltype.go:31-57 | unmarshalling a marshalled constant gives it back |
| TrainedModelType.UnmarshalIdempotent | vendor/github.com/elastic/go-elasticsearch/v8/typedapi/types/enums/trainedmodeltype/trainedmodeltype.go:39-57 | unmarshal after marshal after unmarshal equals unmarshal, for every text |

## Left out

- Transport and I/O: the client handle, contexts, request options (refresh, total-hit tracking, pretty printing), response bodies and their closing, and logging. The engine is the abstract `Engine.Response`. The service reply and the handler's writing of headers and JSON are not modelled.
- JSON encoding and decoding: a request body is its `Document`. Decoding into the record type is a function parameter (`decode`).
- Numbers: JSON numbers are unbounded integers. `_version` and `_shards.successful` are naturals. The float64-to-int64 conversions are not modelled.
- Elasticsearch.Exist: a decoded reply without a boolean `found` field panics in the source. The model takes a boolean reply as given. The same holds for `_version`, `_shards.successful`, `_source` and `hits.hits` in the other operations.
- Write.DeleteBatch: the bulk indexer flushes concurrently and its failure callbacks append to the list without a lock. The model reports failed ids in item order, one per failed item. The indexer's internals are not modelled, and its construction error is a parameter.
- Opaque helpers are function parameters or given results: the sort builder, the search-result builder, reading a request into a map and a struct, rebuilding the JSON map, the field-map builder of the handler, the validator and the user service.
- Handler.UserHandler.Update: the handler assigns `user.Id` in place. The model returns a new record (`WithPathId`). Nothing else holds the user, so no alias can observe the difference.
- Elasticsearch.Graft: the source edits the freshly decoded map in place. The model returns the edited map, which is equally unobservable.
- Elasticsearch.FindFieldByIndex: a negative index panics in the source. The model's index is a natural number.
- Text.LowerChar: Unicode lower-casing is exact only for runes whose lower case is ASCII. Other non-ASCII runes are kept as they are. This never changes whether an enum name matches.
- Fields.Value: `Str` stands for a dynamic value of Go type `string` exactly. A field of a named string type is not a `Str`.
- Nil and empty slices are not distinguished.
- The User struct type is not part of this model. The adapter and the handler take its fields as a parameter, with a string field `Id` as the Go compiler guarantees.
- The search repository's reflected model type is not modelled. Its results come from the search-result builder, which is called with an empty version name.

## Findings

| source | as written | input that shows it | evidently intended | confidence | as-written member | corrected member |
|---|---|---|---|---|---|---|
| vendor/github.com/core-go/elasticsearch/elasticsearch.go:113-126 | a body that does not decode returns (false, nil): the `err` returned is the request's, because the decode error is scoped to the `if` | a 200 reply with a truncated JSON body | return (false, decode error) | not executed; high | Elasticsearch.FindOneWithVersion | Elasticsearch.FindOneWithVersionCorrected |
| vendor/github.com/core-go/elasticsearch/elasticsearch.go:162-165 | the version is stored into the hit envelope, which is discarded, so results never carry it | versionJson "version" and a hit whose source has no "version" key | graft the version into the source, as FindOneWithVersion does | not executed; high | Elasticsearch.FindWithVersion | Elasticsearch.FindWithVersionCorrected |
| vendor/github.com/core-go/elasticsearch/repository/repository.go:60 | All searches the hard-coded index list ["users"] | a repository built for index "accounts" | search the repository's own index | not executed; high | Repo.Repository.All | Repo.Repository.AllCorrected |
| internal/user/handler/handler.go:220-221 | isNil asks IsNil of an array, which panics | IsFound of a Go array value such as [2]int{} | arrays are never nil | not executed; medium | Handler.IsNilAsWritten | Handler.IsNil |
| vendor/github.com/elastic/go-elasticsearch/v8/typedapi/types/enums/migrationstatus/migrationstatus.go:46-55 | the switch key is lower-cased but the case labels are upper-case, so no case can match | the text "in_progress" | match the lower-cased labels, as the sibling codecs do | not executed; high | MigrationStatus.UnmarshalText | MigrationStatus.UnmarshalTextCorrected |
| vendor/github.com/core-go/elasticsearch/elasticsearch.go:86-93 | the document-exists call is a HEAD request, whose reply has no body, yet a 2xx reply is decoded as JSON | an existing document: 200 with an empty body gives the decode error "EOF"; a missing one gives 404, "response error" | decide by the status: 2xx found, 404 not found without error | not executed; medium | Elasticsearch.ExistNeverFound | Elasticsearch.ExistCorrected |
