# Faque / HookNorton core in Dafny

This project models the core of Faque, a configurable fake HTTP API server, and of HookNorton, its sibling.

**Route table** (`route_store.dfy`, `routes.dfy`)
- A keyed registry of route rules. The key is the upper-cased method, a colon and the path pattern.
- Validation covers the method and the status code.
- Writes use optimistic concurrency through a per-rule 32-bit version.
- A change counter stands for the change notification.
- Bulk operations are `Clear` and `LoadRoutes`.

**Pattern matcher** (`route_matcher.dfy`)
- Glob patterns. `*` matches within one path segment and `**` matches anything.
- A pattern matches a path ignoring case.
- `FindMatch` returns the first enabled rule whose method matches ignoring case and whose pattern matches.

**Request recorder** (`requests.dfy`, `request_summary.dfy`, `request_recorder.dfy`)
- A bounded capture buffer. It is a dictionary plus an insertion-order queue.
- Bodies are truncated on recording, and the oldest records are evicted past the bound.
- Listing sorts by id, newest first. Summaries carry an excerpt of the body's first 200 UTF-16 code units.
- A bulk load sorts by id and keeps the latest N.

**Results and errors** (`errors.dfy`, `results.dfy`, `result_extensions.dfy`)
- The error record, the domain error factories, and the two result types.
- The mapping from error types to HTTP status codes.

**JSON dictionary converter** (`json_converter.dfy`)
- The converter that reads and writes dictionaries without applying a key naming policy.
- Reading and writing are modelled over a JSON token stream. The model proves a read/write round trip in both directions.

**Key validation** (`key_validation.dfy`)
- The attribute that checks every string key of a dictionary against a regular expression.

**OpenAPI transformers** (`openapi_schema.dfy`, `standard_wording.dfy`, `number_deastonisher.dfy`, `problem_details_examples.dfy`, `schema_reference_id.dfy`)
- Removing the "Gets or sets …" wording from property descriptions.
- Turning the number-or-string schemas of numeric types back into plain numbers.
- Adding examples to the properties of ProblemDetails.
- Deriving schema reference ids by stripping a `Model` or `Dto` suffix.

## How the model relates to the code

The model follows what the code does. Where the code's own comments or names promise something else, this section says so.

**Conditional upsert** (`src/Faque/Services/RouteConfigStore.cs:101-127`)
- Upsert with an expected version on an absent key stores the route as given. Its version is not set to 1 (line 107).
- On a version mismatch, success is still reported when the incoming route's version equals the stored one (line 122). In that case the stored rule is returned and nothing changes.
- The comment at line 120 says that an expected version that led to no update is a conflict. Line 122 reports a conflict only when, in addition, the versions differ. `RouteStore.ConditionalUpsertStale` states the behaviour the code has.

**LoadRoutes** (lines 164-172)
- It keeps the loaded rules' versions.
- It raises no change notification.

**Single-segment wildcard**
- `*` becomes `[^/]*` (`src/HookNorton/Services/RouteMatcher.cs:68`), so it matches a possibly empty run of characters other than `/`.

**Version overflow**
- `Version + 1` on a C# `int` wraps around. `Routes.NextVersion` models that with an `int32` newtype.

**Text lengths**
- C# string lengths and slices count UTF-16 code units. The request body and the summary excerpt are therefore sequences of code units (`Text.Utf16`) and not of Dafny characters.
- A body of 150 characters outside the Basic Multilingual Plane is 300 units long, so its excerpt keeps 100 of those characters.
- A cut at an odd position can separate the two halves of a surrogate pair, as the source's slice does.

**Request ids**
- Ids are UUIDv7 strings generated from the clock. In the model they are inputs.
- They are ordered by the ordinal order on strings (`Text.Before`).

## Model

| member | source | states |
|---|---|---|
| Text.Upper | src/Faque/Services/RouteConfigStore.cs:176 | upper-casing keeps the length and folds each character |
| Text.EqualsIgnoreCaseIffSameUpper | src/HookNorton/Services/RouteMatcher.cs:22 | two strings are equal ignoring case exactly when their upper-cased forms are equal |
| Text.Truncate | src/Faque/Services/RequestRecorder.cs:46-48 | a sequence no longer than the limit is kept whole; a longer one is cut to its first `limit` elements (UTF-16 units for a body) |
| Text.TruncateMaySplitSurrogatePair | src/Faque/Services/RequestRecorder.cs:46-48 | a cut after one unit keeps the high surrogate of a pair alone, as a C# slice does |
| Text.IntToDecimal | src/HookNorton/Common/Errors.cs:39-42 | the decimal text of a status code is non-empty and starts with `-` exactly for negative numbers |
| Text.NatToDecimalValue | src/HookNorton/Common/Errors.cs:39-42 | the rendered digits, read back, give the number rendered |
| Text.IntToDecimalValue | src/HookNorton/Common/Errors.cs:39-42 | a non-negative number's text reads back as the number; a negative one's is `-` followed by the text of its magnitude |
| Text.IntToDecimalInjective | src/HookNorton/Common/Errors.cs:39-42 | different status codes give different message texts |
| Text.BeforeIrreflexive | src/Faque/Services/RequestRecorder.cs:102 | no id sorts before itself |
| Text.BeforeTransitive | src/Faque/Services/RequestRecorder.cs:102 | the id order is transitive |
| Text.BeforeTotal | src/Faque/Services/RequestRecorder.cs:102 | of two different ids one sorts before the other |
| Text.BeforeAsymmetric | src/Faque/Services/RequestRecorder.cs:102 | two ids never sort before each other |
| Errors.ConflictError | src/Faque/Common/Error.cs:17-20 | the error has type Conflict and keeps the code and message |
| Errors.FailureError | src/Faque/Common/Error.cs:28-31 | the error has type Failure and keeps the code and message |
| Errors.NotFoundError | src/Faque/Common/Error.cs:39-42 | the error has type NotFound and keeps the code and message |
| Errors.ValidationError | src/Faque/Common/Error.cs:50-53 | the error has type Validation and keeps the code and message |
| Errors.ErrorEquality | src/Faque/Common/Error.cs:9 | two errors are equal exactly when code, message and type all agree (record equality) |
| Errors.RouteNotFound | src/HookNorton/Common/Errors.cs:19-22 | a NotFound error with code `Route.NotFound` |
| Errors.InvalidMethod | src/HookNorton/Common/Errors.cs:29-32 | a Validation error with code `Route.InvalidMethod` |
| Errors.InvalidStatusCode | src/HookNorton/Common/Errors.cs:39-42 | a Validation error with code `Route.InvalidStatusCode` |
| Errors.MissingResponse | src/HookNorton/Common/Errors.cs:48-51 | a Validation error with code `Route.MissingResponse` |
| Errors.ConcurrentModification | src/HookNorton/Common/Errors.cs:59-62 | a Conflict error with code `Route.ConcurrentModification` |
| Errors.RequestNotFound | src/HookNorton/Common/Errors.cs:75-78 | a NotFound error with code `Request.NotFound` |
| Errors.PersistenceFailed | src/HookNorton/Common/Errors.cs:86-89 | a Failure error with code `Request.PersistenceFailed` |
| Errors.LoadFailed | src/HookNorton/Common/Errors.cs:103-106 | a Failure error with code `Persistence.LoadFailed` |
| Errors.SaveFailed | src/HookNorton/Common/Errors.cs:114-117 | a Failure error with code `Persistence.SaveFailed` |
| Errors.DomainCodesDistinct | src/HookNorton/Common/Errors.cs:19-117 | no two domain errors share a code |
| Results.Result.GetError | src/HookNorton/Common/Result.cs:30-32 | the error exists only on a failure, and the failure is exactly that error |
| Results.Result.Match | src/HookNorton/Common/Result.cs:69-72 | success takes the success branch; failure takes the failure branch applied to its error |
| Results.FromError | src/HookNorton/Common/Result.cs:38-41 | converting an error gives a failure carrying that error |
| Results.ResultLaws | src/HookNorton/Common/Result.cs:19-60 | success and failure exclude each other, and a failure gives back its error |
| Results.ValueResult.GetValue | src/Faque/Controllers/ResultExtensions.cs:24-26 | the value exists only on success and is the wrapped value |
| Results.ValueResult.GetError | src/Faque/Controllers/ResultExtensions.cs:29 | the error exists only on failure and is the wrapped error |
| ResultExtensions.ProblemStatus | src/Faque/Controllers/ResultExtensions.cs:51-69 | NotFound gives 404, Validation 422, Conflict 409, and every other type 500, each in both directions |
| ResultExtensions.GetErrorActionResult | src/Faque/Controllers/ResultExtensions.cs:49-70 | a problem response carrying the message, the instance and the status of the error type, always 4xx or 5xx |
| ResultExtensions.ToActionResult | src/Faque/Controllers/ResultExtensions.cs:19-30 | success gives 200 with the value; failure gives the problem response; the status is below 300 exactly on success |
| ResultExtensions.ToActionResultNoValue | src/Faque/Controllers/ResultExtensions.cs:39-47 | success gives 204; failure gives the problem response; the status is below 300 exactly on success |
| ResultExtensions.ProblemStatusInjective | src/Faque/Controllers/ResultExtensions.cs:51-69 | the problem status identifies the error type |
| Routes.NextVersion | src/Faque/Services/RouteConfigStore.cs:97 | below the maximum the next version is one more; at the maximum it wraps to the minimum; it always differs |
| RouteStore.MakeKeyIgnoresMethodCase | src/Faque/Services/RouteConfigStore.cs:174-177 | methods equal ignoring case give the same key |
| RouteStore.MakeKeyInjective | src/Faque/Services/RouteConfigStore.cs:174-177 | for methods without a colon, equal keys mean the same upper-cased method and the same pattern |
| RouteStore.ValidateRoute | src/Faque/Services/RouteConfigStore.cs:179-193 | success exactly when the upper-cased method is one of the seven valid methods and the status is within 100..599; the method is checked first, then the status, each failing with its own Validation error |
| RouteStore.AtMostOneRulePerKey | src/Faque/Services/RouteConfigStore.cs:169-177 | in a table keyed by `MakeKey`, two stored rules with the same key are the same rule |
| RouteStore.Lookup | src/Faque/Services/RouteConfigStore.cs:55-64 | found exactly when the key is stored, with that rule; otherwise a RouteNotFound error |
| RouteStore.UpsertOn | src/Faque/Services/RouteConfigStore.cs:72-131 | a validation failure returns that failure; any failure leaves the table unchanged; a success stores the returned rule under the route's key, changes no other key, and the rule's own key is that key; keyed tables stay keyed |
| RouteStore.UnconditionalUpsertVersion | src/Faque/Services/RouteConfigStore.cs:85-100 | without an expected version a new key gets version 1 and an existing key the next version |
| RouteStore.ConditionalUpsertMatching | src/Faque/Services/RouteConfigStore.cs:108-115 | a matching expected version succeeds and stores the route with the next version |
| RouteStore.ConditionalUpsertAbsent | src/Faque/Services/RouteConfigStore.cs:105-107 | with an expected version and an absent key the route is stored unchanged, version included |
| RouteStore.ConditionalUpsertStale | src/Faque/Services/RouteConfigStore.cs:116-126 | a stale expected version conflicts unless the incoming version equals the stored one, in which case the stored rule is returned; the table is unchanged either way |
| RouteStore.GetAfterUpsert | src/Faque/Services/RouteConfigStore.cs:55-131 | after a successful upsert, looking up the rule's method and pattern returns the saved rule |
| RouteStore.RepeatedUpsertCountsVersions | src/Faque/Services/RouteConfigStore.cs:85-100 | n+1 unconditional upserts of one valid rule into an empty table leave version n+1 (within the int range) |
| RouteStore.LoadedMap | src/Faque/Services/RouteConfigStore.cs:164-172 | every loaded rule's key is present, and every present key holds a loaded rule |
| RouteStore.LoadedMapHoldsLastRule | src/Faque/Services/RouteConfigStore.cs:167-171 | when two loaded rules share a key, the later one is kept |
| RouteStore.LoadedMapKeys | src/Faque/Services/RouteConfigStore.cs:167-171 | the loaded table's keys are exactly the keys of the loaded rules |
| RouteStore.RouteConfigStore.constructor | src/Faque/Services/RouteConfigStore.cs:12 | the store starts empty with no notifications |
| RouteStore.RouteConfigStore.GetAll | src/Faque/Services/RouteConfigStore.cs:44-47 | returns one rule per stored key, with the stored rules exactly |
| RouteStore.RouteConfigStore.Get | src/Faque/Services/RouteConfigStore.cs:55-64 | the stored rule for the method and pattern, or RouteNotFound; nothing changes |
| RouteStore.RouteConfigStore.Upsert | src/Faque/Services/RouteConfigStore.cs:72-131 | the table becomes the one given by `UpsertOn`; a notification is counted exactly on success |
| RouteStore.RouteConfigStore.Delete | src/Faque/Services/RouteConfigStore.cs:139-149 | success exactly when the key was stored; the key is removed and a notification counted; otherwise nothing changes and the error is RouteNotFound |
| RouteStore.RouteConfigStore.Clear | src/Faque/Services/RouteConfigStore.cs:154-158 | the table becomes empty and one notification is counted |
| RouteStore.RouteConfigStore.LoadRoutes | src/Faque/Services/RouteConfigStore.cs:164-172 | the table becomes `LoadedMap` of the rules; no notification is counted |
| RouteMatcher.RenderTokenize | src/HookNorton/Services/RouteMatcher.cs:59-75 | tokenising a pattern loses nothing: rendering the tokens gives the pattern back |
| RouteMatcher.TokenizeCanonical | src/HookNorton/Services/RouteMatcher.cs:64-71 | tokenising never yields two adjacent stars, because `**` is recognised first |
| RouteMatcher.TokenizeRender | src/HookNorton/Services/RouteMatcher.cs:64-71 | on canonical token sequences tokenising inverts rendering |
| RouteMatcher.StarSpan | src/HookNorton/Services/RouteMatcher.cs:67-68 | `*` followed by a rest matches exactly when some slash-free prefix is followed by a match of the rest |
| RouteMatcher.DoubleStarSpan | src/HookNorton/Services/RouteMatcher.cs:70-71 | `**` followed by a rest matches exactly when some suffix matches the rest |
| RouteMatcher.StarNeverCrossesSlash | src/HookNorton/Services/RouteMatcher.cs:68 | a lone `*` matches a text exactly when it holds no `/` |
| RouteMatcher.DoubleStarMatchesEverything | src/HookNorton/Services/RouteMatcher.cs:71 | a lone `**` matches every text |
| RouteMatcher.TokenizeLiteral | src/HookNorton/Services/RouteMatcher.cs:62 | a pattern without stars is one run of literal characters |
| RouteMatcher.MatchLiterals | src/HookNorton/Services/RouteMatcher.cs:59-75 | a literal-only pattern matches exactly the texts equal to it ignoring case |
| RouteMatcher.LiteralPatternMatchesOnlyItself | src/HookNorton/Services/RouteMatcher.cs:41-52 | a pattern without stars matches a path exactly when they are equal ignoring case |
| RouteMatcher.ExactPathMatches | src/HookNorton/Services/RouteMatcher.cs:44-47 | a path equal to the pattern ignoring case always matches |
| RouteMatcher.TokenizeAppend | src/HookNorton/Services/RouteMatcher.cs:62-71 | a star-free prefix tokenises separately from what follows |
| RouteMatcher.MatchLiteralPrefix | src/HookNorton/Services/RouteMatcher.cs:62-74 | a literal prefix matches by consuming an equal-ignoring-case prefix of the path |
| RouteMatcher.SingleSegmentWildcard | src/HookNorton/Services/RouteMatcher.cs:67-68 | `prefix*` matches exactly the paths that start with the prefix and have no `/` after it |
| RouteMatcher.MultiSegmentWildcard | src/HookNorton/Services/RouteMatcher.cs:70-71 | `prefix**` matches exactly the paths that start with the prefix |
| RouteMatcher.SegmentExamples | tests/HookNorton.Tests/Services/RouteMatcherFixture.cs:32-80 | `/api/users/*` takes `/api/users/123` but not `/api/users/123/posts`; `/api/**` takes the latter |
| RouteMatcher.FirstSelected | src/HookNorton/Services/RouteMatcher.cs:22-30 | the index found selects, and no earlier rule selects; none found means no rule selects |
| RouteMatcher.FindMatch | src/HookNorton/Services/RouteMatcher.cs:20-33 | success returns the first selecting rule, which is enabled and has the method ignoring case; failure exactly when no rule selects, with a RouteNotFound error |
| RouteMatcher.FindMatchIgnoresLaterRules | src/HookNorton/Services/RouteMatcher.cs:24-30 | appending rules never changes a successful match |
| RouteMatcher.FirstSelectedOfExtension | src/HookNorton/Services/RouteMatcher.cs:24-30 | the first selecting index is unchanged by appended rules |
| RouteMatcher.FirstMatchWinsExample | tests/HookNorton.Tests/Services/RouteMatcherFixture.cs:98-114 | with `/api/**` registered before `/api/users/*`, `/api/users/123` gets the first rule |
| RouteMatcher.DisabledRuleSkippedExample | tests/HookNorton.Tests/Services/RouteMatcherFixture.cs:116-132 | a disabled matching rule is passed over for a later enabled one, with the method matched ignoring case |
| Requests.Ids | src/Faque/Services/RequestRecorder.cs:150-154 | the ids of the records, in order |
| Requests.InsertById | src/Faque/Services/RequestRecorder.cs:145-146 | inserting keeps every record and adds the new one (same multiset) |
| Requests.InsertByIdSorted | src/Faque/Services/RequestRecorder.cs:145-146 | inserting into an id-sorted list keeps it sorted |
| Requests.SortById | src/Faque/Services/RequestRecorder.cs:145-146 | the result is sorted by id and is a permutation of the input |
| Requests.InsertByIdStrict | src/Faque/Services/RequestRecorder.cs:145-146 | inserting a fresh id into a strictly ascending list keeps it strictly ascending |
| Requests.SortByIdStrict | src/Faque/Services/RequestRecorder.cs:144-148 | records with distinct ids sort into strictly ascending id order |
| Requests.TakeLast | src/Faque/Services/RequestRecorder.cs:147 | the last `n` elements, or all of them when there are fewer |
| Requests.Take | src/Faque/Services/RequestRecorder.cs:103 | the first `n` elements, or all of them when there are fewer |
| Requests.Reverse | src/Faque/Services/RequestRecorder.cs:102 | the same elements in opposite order |
| RequestSummaries.FromRequestRecord | src/HookNorton/Models/RequestSummary.cs:46-62 | the fields are copied; a body of at most 200 UTF-16 units is the excerpt, a longer one is cut to its first 200 units |
| RequestSummaries.ExcerptIsBoundedPrefix | src/HookNorton/Models/RequestSummary.cs:48-51 | the excerpt is a prefix of the body at most 200 UTF-16 units long |
| RequestRecorder.Recorder.constructor | src/Faque/Services/RequestRecorder.cs:24-27 | the recorder starts empty with the given bounds |
| RequestRecorder.Recorder.RecordRequest | src/Faque/Services/RequestRecorder.cs:38-77 | always succeeds with the record whose body is truncated to the size limit; the queue gains the id and keeps only the newest `MaxRequestHistory` ids; the dictionary holds exactly the queued ids; the new record is stored when the bound is positive; an id greater than every queued id keeps the queue in ascending id order |
| RequestRecorder.Recorder.EnforceBoundedHistory | src/Faque/Services/RequestRecorder.cs:66-73 | the oldest ids are dequeued and their records removed until the bound holds; the records kept are untouched |
| RequestRecorder.Recorder.GetRequest | src/Faque/Services/RequestRecorder.cs:84-92 | the stored record for the id, or a RequestNotFound error exactly when it is absent |
| RequestRecorder.Recorder.Values | src/Faque/Services/RequestRecorder.cs:101 | one value per stored record, and exactly the stored records |
| RequestRecorder.Recorder.GetAllRequests | src/Faque/Services/RequestRecorder.cs:99-105 | every stored record exactly once, newest id first, at most `MaxRequestHistory` of them |
| RequestRecorder.Recorder.GetRequestSummaries | src/Faque/Services/RequestRecorder.cs:111-116 | the summaries of the listed records, in the same order |
| RequestRecorder.Recorder.Clear | src/Faque/Services/RequestRecorder.cs:121-131 | both the dictionary and the queue become empty |
| RequestRecorder.Recorder.LoadRequests | src/Faque/Services/RequestRecorder.cs:138-156 | the queue becomes the ids of the latest `MaxRequestHistory` records by id, in ascending order; each is stored under its id, and only loaded records are stored |
| RequestRecorder.Recorder.EnqueueAll | src/Faque/Services/RequestRecorder.cs:150-154 | each record is stored under its id and the queue is their ids in order |
| RequestRecorder.Recorder.GetAllRequestIds | src/Faque/Services/RequestRecorder.cs:162-168 | the queued ids, oldest first; nothing changes |
| RequestRecorder.RecordKeepsChronological | src/Faque/Services/RequestRecorder.cs:63-73 | recording an id greater than every queued id keeps the queue strictly ascending |
| RequestRecorder.LatestStrict | src/Faque/Services/RequestRecorder.cs:144-148 | for records with distinct ids, the latest N after sorting are in strictly ascending id order |
| RequestRecorder.ReversedNewestFirst | src/Faque/Services/RequestRecorder.cs:101-102 | an ascending id order read backwards is newest first |
| RequestRecorder.DequeueDistinct | src/Faque/Services/RequestRecorder.cs:69-71 | dequeuing the oldest id from a duplicate-free queue removes exactly that id from the id set |
| JsonConverter.EntryTokens | src/Faque/Common/AspNet/SkipDictionaryKeyPolicyJsonConverter.cs:122-126 | each entry becomes its property name token followed by its value token |
| JsonConverter.WriteTokens | src/Faque/Common/AspNet/SkipDictionaryKeyPolicyJsonConverter.cs:119-129 | an object start, the entries' tokens and an object end |
| JsonConverter.Read | src/Faque/Common/AspNet/SkipDictionaryKeyPolicyJsonConverter.cs:74-117 | the loop's outcome is the one `ReadTokens` defines: null, dictionary or the error it stops on |
| JsonConverter.Write | src/Faque/Common/AspNet/SkipDictionaryKeyPolicyJsonConverter.cs:119-129 | the loop writes exactly `WriteTokens` |
| JsonConverter.ReadNull | src/Faque/Common/AspNet/SkipDictionaryKeyPolicyJsonConverter.cs:76-79 | a null token reads as a null dictionary |
| JsonConverter.ReadRejectsNonObject | src/Faque/Common/AspNet/SkipDictionaryKeyPolicyJsonConverter.cs:81-84 | any other first token than an object start is malformed |
| JsonConverter.ReadEmptyObject | src/Faque/Common/AspNet/SkipDictionaryKeyPolicyJsonConverter.cs:86-92 | `{}` reads as an empty dictionary |
| JsonConverter.ReadRejectsNonKey | src/Faque/Common/AspNet/SkipDictionaryKeyPolicyJsonConverter.cs:94-97 | a value where a property name is due is malformed |
| JsonConverter.ReadNullValue | src/Faque/Common/AspNet/SkipDictionaryKeyPolicyJsonConverter.cs:107-111 | a null value is an error for a non-nullable value type and accepted for a nullable one |
| JsonConverter.ReadDuplicateKey | src/Faque/Common/AspNet/SkipDictionaryKeyPolicyJsonConverter.cs:113 | a repeated key is an error |
| JsonConverter.ReadEntryTokens | src/Faque/Common/AspNet/SkipDictionaryKeyPolicyJsonConverter.cs:99-113 | reading written entries in front of an object end returns the entries so far plus those entries |
| JsonConverter.ReadWrite | src/Faque/Common/AspNet/SkipDictionaryKeyPolicyJsonConverter.cs:74-129 | reading what was written (whatever follows) gives back the same entries in the same order |
| JsonConverter.ReadFromTruncated | src/Faque/Common/AspNet/SkipDictionaryKeyPolicyJsonConverter.cs:87-116 | entry tokens with no object end are malformed |
| JsonConverter.ReadUnterminated | src/Faque/Common/AspNet/SkipDictionaryKeyPolicyJsonConverter.cs:116 | a written object without its end is malformed |
| JsonConverter.ReadFromWellFormed | src/Faque/Common/AspNet/SkipDictionaryKeyPolicyJsonConverter.cs:108-113 | every dictionary read has distinct keys and only admitted nulls |
| JsonConverter.ReadFromExtends | src/Faque/Common/AspNet/SkipDictionaryKeyPolicyJsonConverter.cs:113 | the entries read begin with the entries already collected |
| JsonConverter.ReadFromConsumes | src/Faque/Common/AspNet/SkipDictionaryKeyPolicyJsonConverter.cs:87-116 | the tokens consumed are exactly the new entries' tokens followed by an object end |
| JsonConverter.WriteRead | src/Faque/Common/AspNet/SkipDictionaryKeyPolicyJsonConverter.cs:74-129 | a dictionary read from tokens is well formed, and writing it reproduces the tokens it was read from |
| KeyValidation.FirstInvalidKey | src/Faque/Common/AspNet/KeyValidationRegexAttribute.cs:35-51 | the first string key that fails the expression; the string keys before it all pass |
| KeyValidation.IsValid | src/Faque/Common/AspNet/KeyValidationRegexAttribute.cs:23-54 | the loop's outcome is the one `Validate` defines |
| KeyValidation.FirstInvalidKeyAt | src/Faque/Common/AspNet/KeyValidationRegexAttribute.cs:35-51 | a failing string key whose earlier string keys all pass is the one found |
| KeyValidation.NoInvalidKey | src/Faque/Common/AspNet/KeyValidationRegexAttribute.cs:35-53 | nothing found means every string key passes; non-string keys are skipped |
| KeyValidation.NullAndNonDictionary | src/Faque/Common/AspNet/KeyValidationRegexAttribute.cs:25-33 | null validates successfully; a non-dictionary throws "Value is not a dictionary" |
| KeyValidation.SuccessIffAllStringKeysMatch | src/Faque/Common/AspNet/KeyValidationRegexAttribute.cs:35-53 | a dictionary validates exactly when all its string keys match |
| KeyValidation.FailureNamesFirstFailingKey | src/Faque/Common/AspNet/KeyValidationRegexAttribute.cs:17-50 | a failure's message names the first failing key and the expression, and its member list is the member name |
| StandardWording.FirstPrefix | src/Faque/Middleware/RemoveStandardWordingSchemaTransformer.cs:32-33 | a prefix found is listed and starts the description, ignoring case; none found means no listed prefix does |
| StandardWording.Capitalize | src/Faque/Middleware/RemoveStandardWordingSchemaTransformer.cs:40-44 | the same length, only the first character upper-cased |
| StandardWording.StripStandardWording | src/Faque/Middleware/RemoveStandardWordingSchemaTransformer.cs:27-30 | a missing description stays missing and a present one stays present |
| StandardWording.RemoveStandardWording | src/Faque/Middleware/RemoveStandardWordingSchemaTransformer.cs:15-50 | each property description becomes `StripStandardWording` of the old one; no other field changes; a schema without properties is left alone |
| StandardWording.NoPrefixUnchanged | src/Faque/Middleware/RemoveStandardWordingSchemaTransformer.cs:35-38 | a description with no listed prefix is unchanged |
| StandardWording.MatchingPrefixRemoved | src/Faque/Middleware/RemoveStandardWordingSchemaTransformer.cs:32-46 | with a matching prefix the result is the capitalised rest |
| StandardWording.FirstPrefixAt | src/Faque/Middleware/RemoveStandardWordingSchemaTransformer.cs:32-33 | the prefix found is the first listed one that applies |
| StandardWording.GetsOrSetsWins | src/Faque/Middleware/RemoveStandardWordingSchemaTransformer.cs:12-46 | "Gets or sets " is removed whole, not only its "Gets ", and the rest is capitalised |
| StandardWording.PrefixCaseIgnored | src/Faque/Middleware/RemoveStandardWordingSchemaTransformer.cs:32-46 | a prefix in other case is removed too: "GETS the name." becomes "The name." |
| StandardWording.PrefixAloneBecomesEmpty | src/Faque/Middleware/RemoveStandardWordingSchemaTransformer.cs:40-46 | a description that is only a prefix becomes empty |
| NumberDeastonisher.UnderlyingType | src/Faque/Common/OpenApi/OpenApiNumberDeastonisher.cs:64 | a type that is not nullable is its own underlying type |
| NumberDeastonisher.Deastonished | src/Faque/Common/OpenApi/OpenApiNumberDeastonisher.cs:59-72 | a schema with a type for a numeric CLR type loses the String flag, keeps every other flag and loses its pattern; a schema without a type, or for a non-numeric type, is unchanged |
| NumberDeastonisher.TransformNumberSchema | src/Faque/Common/OpenApi/OpenApiNumberDeastonisher.cs:54-75 | the schema's type and pattern become `Deastonished` of the old ones; nothing else changes |
| NumberDeastonisher.DeastonishIdempotent | src/Faque/Common/OpenApi/OpenApiNumberDeastonisher.cs:71-72 | applying the transformation twice is the same as once |
| NumberDeastonisher.NullableTreatedAsUnderlying | src/Faque/Common/OpenApi/OpenApiNumberDeastonisher.cs:64 | a nullable numeric type is transformed like its underlying type |
| NumberDeastonisher.NumberOrStringBecomesNumber | src/Faque/Common/OpenApi/OpenApiNumberDeastonisher.cs:71-72 | a numeric schema typed number-or-string with a pattern becomes a plain number |
| NumberDeastonisher.NonNumericUntouched | src/Faque/Common/OpenApi/OpenApiNumberDeastonisher.cs:41-69 | a named type outside the numeric set, nullable or not, is left untouched |
| ProblemDetailsExamples.ExampleFor | src/Faque/Common/OpenApi/ProblemDetailsExamplesTransformer.cs:41-49 | exactly the five ProblemDetails property names get an example; `status` gets the number 404 |
| ProblemDetailsExamples.ExampleAfter | src/Faque/Common/OpenApi/ProblemDetailsExamplesTransformer.cs:30-51 | a property that already has an example or examples, or is not concrete, keeps its example |
| ProblemDetailsExamples.AddProblemDetailsExamples | src/Faque/Common/OpenApi/ProblemDetailsExamplesTransformer.cs:11-55 | only the ProblemDetails type with properties is changed: a missing description gets the default text and each property's example becomes `ExampleAfter`; every other field is unchanged |
| ProblemDetailsExamples.FillExamples | src/Faque/Common/OpenApi/ProblemDetailsExamplesTransformer.cs:28-52 | each property's example becomes `ExampleAfter`, and nothing else changes |
| ProblemDetailsExamples.ExistingExampleKept | src/Faque/Common/OpenApi/ProblemDetailsExamplesTransformer.cs:30-34 | a property with examples keeps its example |
| ProblemDetailsExamples.MissingExampleFilled | src/Faque/Common/OpenApi/ProblemDetailsExamplesTransformer.cs:41-51 | a concrete property without examples gets `ExampleFor` its name: 404 for `status`, "Not Found" for `title` |
| ProblemDetailsExamples.OtherNameGetsNoExample | src/Faque/Common/OpenApi/ProblemDetailsExamplesTransformer.cs:48-51 | an unknown property name gets a null example |
| ProblemDetailsExamples.ReferenceSkipped | src/Faque/Common/OpenApi/ProblemDetailsExamplesTransformer.cs:36-39 | a schema reference keeps its example |
| SchemaReferenceIds.FirstSuffix | src/Faque/Startup/OpenApiExtensions.cs:48-49 | a suffix found is listed and ends the name, ignoring case; none found means no listed suffix does |
| SchemaReferenceIds.CreateSchemaReferenceId | src/Faque/Startup/OpenApiExtensions.cs:39-53 | an id exactly when there is a default id, and that id is a prefix of the default |
| SchemaReferenceIds.ModelSuffixRemoved | src/Faque/Startup/OpenApiExtensions.cs:48-51 | a name ending in `Model`, ignoring case, loses that suffix |
| SchemaReferenceIds.DtoSuffixRemoved | src/Faque/Startup/OpenApiExtensions.cs:48-51 | a name ending in `Dto` but not `Model`, ignoring case, loses that suffix |
| SchemaReferenceIds.NoSuffixUnchanged | src/Faque/Startup/OpenApiExtensions.cs:51 | a name with no listed suffix is unchanged |
| SchemaReferenceIds.OneSuffixOnly | src/Faque/Startup/OpenApiExtensions.cs:48-51 | only one suffix is removed (`RouteDtoModel` becomes `RouteDto`), and case is ignored (`userdto` becomes `user`) |

## Left out

- The route persistence service is not part of this model. It serialises the table after change notifications and coalesces bursts of them. Here the change event is only counted (`notifications`).
- Concurrency is not modelled: the concurrent dictionaries and queue, `lock`, and the event's add/remove. Each public operation is one atomic step.
- The generic result's `Match`, `Map` and `Bind` and its implicit conversions are not part of this model. It keeps the value/error accessors that the controllers read.
- `async`/`Task` wrappers and cancellation tokens are not modelled. The transformers are synchronous methods.
- Id generation (UUIDv7) and the clock are not modelled. `RecordRequest` takes the id and the timestamp as inputs.
- RequestRecorder.Recorder.RecordRequest: requires an id that is not already queued. A repeated UUID would enqueue the id twice, and the model does not cover that.
- RequestRecorder.RecordKeepsChronological: assumes the new id is greater than every queued id. In the source that rests on UUIDv7 being time-ordered.
- RequestRecorder.Recorder.LoadRequests: requires distinct ids in the loaded records. With duplicates the source enqueues one id twice while the dictionary keeps one record.
- RequestRecorder.Recorder: `MaxRequestHistory` and `MaxBodySize` are natural numbers. Two cases are left out:
  - a negative `MaxRequestHistory` makes the eviction loop spin forever;
  - a negative `MaxBodySize` makes the slice throw.
- The regular-expression engine is not modelled. Patterns are matched by the glob semantics the generated expression denotes.
- RouteMatcher.MatchTokens: lets `**` match any character. In the source, .NET's `.` excludes a newline, and `$` also accepts a final newline; neither is modelled. Request paths carry no raw newline.
- The key-validation expression is a predicate parameter. The .NET regex is not modelled.
- Text.ToUpper: folds only ASCII letters. Three things are not modelled:
  - culture-invariant upper-casing of non-ASCII letters (`ToUpperInvariant`);
  - `OrdinalIgnoreCase`;
  - `RegexOptions.IgnoreCase`.
- Requests.SortById: orders ids by the ordinal order on strings. The source's `OrderBy` uses the culture-sensitive default comparer. The two agree on lower-case UUID text.
- The JSON reader and writer are modelled as a token stream. Three things are left out:
  - each value is one scalar token, so nested values are not modelled;
  - typed deserialisation is not modelled;
  - the converter factory's reflection (`CanConvert`, `CreateConverter`, `GetDictionaryKeyValueTypes`) and `SkipDictionaryKeyPolicyAttribute` are not modelled.
- JsonConverter.ReadFrom: has no null-key branch (`SkipDictionaryKeyPolicyJsonConverter.cs:102-105`). A property name token always carries a string.
- JsonConverter.ReadFrom: reports a duplicate key as `DuplicateKey`. The source's `Dictionary.Add` throws an `ArgumentException`, and its message is not modelled.
- `DictionaryKeyValidationTransformer`, `JsonSerializerExtensions`, the controllers, the fake-API middleware, `Program`, the composition root and the app hosts are not part of this model.
- StandardWording.RemoveStandardWording: requires the property schemas to be distinct objects. If two properties shared one schema object, the source would strip its description twice.
- ProblemDetailsExamples.AddProblemDetailsExamples: requires distinct property schemas that are not the schema itself. Aliased schema objects are not modelled.
- OpenAPI example values are limited to the string and number nodes that the transformer creates.
- Route rules are immutable values. The source assigns `Version` on the caller's object in place, and that aliasing is not modelled.
- RouteStore.MakeKeyInjective: holds only for methods without a colon. A method containing `:` can collide with another key. `Upsert` validates the method first, and no valid method contains a colon. `LoadRoutes` stores rules without validating them, so a loaded method such as `GET:/a` can share a key with another rule.
- RouteStore.RouteConfigStore.GetAll: does not state the enumeration order of the concurrent dictionary; the source promises none.
