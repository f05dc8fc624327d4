# A verified model of FraiseQL's response transforms, schema registry, token refresh and SQL builders

FraiseQL reads rows as JSON from PostgreSQL and answers GraphQL queries with them. This project models, in
Dafny, the code that turns the one into the other, with three neighbours that keep state:

- `to_camel_case` and `to_snake_case` (`Texts.dfy`, `CamelCase.dfy`);
- JSON values, and the insertion-ordered object that a sequence of writes leaves behind (`Json.dfy`; `Options.dfy`);
- the two key rewriters `transform_value` and `transform_dict_keys` (`KeyTransform.dfy`), and the pure-Python
  reference they are measured against (`PythonReference.dfy`);
- the schema lookups (`Schema.dfy`), `transform_with_schema` (`SchemaTransform.dfy`), and what it does to the data:
  it does what the schema declares (`Tagging.dfy`), it decorates (`Decoration.dfy`), with the right type at every level
  (`TypedPaths.dfy`), whatever style the keys have (`KeyStyle.dfy`);
- projections and how they are built (`Projections.dfy`), `project_with_schema` (`Project.dfy`), the response it gives
  (`Response.dfy`), which data stands under each path of it (`Answers.dfy`), what the selection objects of a query
  name (`FieldSelections.dfy`), and how the response compares with itself without injection and with the schema
  transform (`Selection.dfy`);
- the global registry cell under every interleaving of its operations (`RegistryCell.dfy`);
- single-flight token refresh in the auth client, as a protocol whose events come in any order
  (`AuthProtocol.dfy`, with theorems over whole runs in `AuthRuns.dfy`), as the client's methods cut at their awaits
  (`AuthClients.dfy`), and in the order in which the event loop runs the continuations of promises (`EventLoop.dfy`,
  with how often the expiry callback runs in `Callbacks.dfy`);
- SQL statements, their text and how a database reads it (`Sql.dfy`); the INSERT, UPDATE and DELETE builders, and what
  their texts do to a database (`Mutations.dfy`).

Code that loops or changes state is a method, proved against a specification function; the theorems are about these
functions, for every input, run or reachable state.

## Reading guide

`Collect(writes)` is the object that inserting `writes` one after the other leaves: the keys in the order in which they
first come up, each with its last value. `Live(writes, i)` says that write `i` is the last one to its key. Keys that
collide after conversion are never excluded: the theorems speak of live writes, or say exactly what a collision costs.

`UPPER`, Rust's `char::to_uppercase`, has no value in the model: it is exact on ASCII, and elsewhere any mapping to one
or more characters other than the underscore.

The theorems of `AuthProtocol.dfy`, `AuthRuns.dfy` and `AuthClients.dfy` hold for events in every order. That is more than
the event loop takes: it runs the continuations of promises first in, first out, and every run of it is such a run
(`EventLoop.LoopIsRun`). So how often the callback can run is told of the loop. The loop is that of native `async`
functions; other code may call, log in or out, and settle a flight at any moment in between.

## Where the code differs from what is said about it

- `getValidTokens` wraps its refresh in a `try` whose `catch` refreshes again. So a caller with an expiring token does
  not end with the server's error, but with that of its second try (`AuthRuns.FailureEndsLastTry`). When the server
  fails a refresh, `onTokenExpired` runs twice, however many callers share it (`Callbacks.CallbacksReached`), and a third
  time when a call comes between the failure and the owner's resumption (`Callbacks.LateCallAdds`); in all it runs at
  most three times for each failed refresh that a call waited for (`Callbacks.CallbacksBounded`). Each flight still
  handles its failure once.
- A logout during a refresh is sure to last only when the refresh has failed already (`AuthRuns.LogoutLastsIff`, and
  in the loop `EventLoop.LogoutLastsInLoopIff`), a login or registration only when the refresh has brought the same tokens
  (`AuthRuns.LoginLastsIff`, `EventLoop.LoginLastsInLoopIff`).
- The benchmark calls the Python path equivalent. It is not for keys that start with an underscore, for some capitals,
  and for lists directly inside lists (`PythonReference.AgreesIff` gives the exact condition, for ASCII keys that do not
  collide).
- `transform_with_schema` copies a value whose field the schema does not call nested, and one that is not the list the
  schema says: objects inside keep their snake_case keys (`Decoration.DecorationIff` gives the exact condition).
- A row's own `__typename` overwrites the injected tag (`TypedPaths.TagIff`).
- Two selections with one response path and different row keys are not two entries: the second is dropped
  (`Projections.OwnSourcesIff`).
- Table, columns and filter field go into the SQL text as they are. A built text means what it says when they are names;
  when they are not, but the text is one of the statements modelled here, it does not (`Mutations.UpdateMeansIff`,
  `Mutations.DeleteMeansIff`, `Mutations.InsertMeansIff`); a key such as `a = $1, b` writes two columns
  (`Mutations.KeyWritesTwoColumns`), and a field such as `1 = 1 OR id` selects every row (`Mutations.FieldSelectsAll`).
- An input without fields gives an INSERT or UPDATE that is refused (`Mutations.InsertMeans`, `Mutations.UpdateMeans`),
  and a filter that is not well formed is dropped (`Mutations.DroppedFilterDeletesAll`).

## Model

| member | source | states |
|---|---|---|
| CamelCase.ToCamelCase | fraiseql_rs/src/camel_case.rs:57-94 | the two-flag loop returns the leading underscores, the first segment as it is, and each later segment capitalized, for every string and every Unicode case mapping |
| CamelCase.AsciiCases | fraiseql_rs/src/camel_case.rs:79-84 | the case mapping on ASCII: lower-case letters to the capitals 32 before them, all else kept |
| CamelCase.FixedPointIff | fraiseql_rs/src/camel_case.rs:196-204 | a name is kept exactly when its only underscores are leading ones |
| CamelCase.Idempotent | fraiseql_rs/src/camel_case.rs:57-94 | converting twice is converting once |
| CamelCase.ToSnakeCase | fraiseql_rs/src/pipeline/projection.rs:272-286 | the loop puts an underscore before every ASCII capital but one at the start, and lower-cases it |
| CamelCase.RoundTripIff | fraiseql_rs/src/camel_case.rs:57-94 | `to_snake_case` recovers a name from its camelCase form exactly when the name has no capital and every later segment starts with a lower-case letter |
| CamelCase.CanonicalInjective | fraiseql_rs/src/camel_case.rs:57-94 | no two such names share a camelCase form |
| KeyTransform.TransformValue | fraiseql_rs/src/json_transform.rs:93-111 | the recursive rewrite, on every JSON value, colliding keys included |
| KeyTransform.RewriteIff | fraiseql_rs/src/json_transform.rs:87-111 | its result is the one value of the same shape whose keys are the camelCase keys in first-seen order, each with the rewritten value of the last key of that form, at every depth |
| KeyTransform.TransformDictKeys | fraiseql_rs/src/camel_case.rs:114-137 | recursive, it gives on JSON-shaped data what `transform_value` gives; not recursive, it renames the top keys and keeps the values |
| KeyTransform.TransformValueRecursive | fraiseql_rs/src/camel_case.rs:150-170 | gives on JSON-shaped data what `transform_value` gives |
| KeyTransform.UnchangedIff | fraiseql_rs/src/json_transform.rs:93-111 | a value is left as it is exactly when every key at every depth is camelCase |
| KeyTransform.CamelizedIdempotent | fraiseql_rs/src/json_transform.rs:93-111 | rewriting twice is rewriting once |
| KeyTransform.FieldsKeptIff | fraiseql_rs/src/json_transform.rs:93-111 | no field is added, and the number of fields is kept exactly when no two keys of an object share their camelCase form |
| KeyTransform.LeavesKept | fraiseql_rs/src/json_transform.rs:93-111 | without such collisions every scalar is kept, in its place |
| KeyTransform.TreeRoundTripIff | fraiseql_rs/src/json_transform.rs:93-111 | the rewrite can be undone key by key exactly when all keys are canonical |
| Texts.SplitIff | fraiseql_rs/src/pipeline/projection.rs:138-145 | the dotted parts of a text are the only parts without dots that join to it |
| Schema.SchemaRegistry.LookupIff | fraiseql_rs/src/schema_registry.rs:140-153 | what the lookup finds is the declaration in `types`, unchanged, under the key itself or, when the key is not declared, under its camelCase form; it finds nothing exactly when neither is declared |
| Schema.SchemaRegistry.LookupStyleIff | fraiseql_rs/src/schema_registry.rs:135-153 | snake_case and camelCase spellings of every key find the same field exactly when each declared name is declared alike under its camelCase name |
| Schema.SchemaRegistry.CamelNamesStyleInsensitive | fraiseql_rs/src/schema_registry.rs:148-152 | so it is when all declared names are camelCase |
| SchemaTransform.TransformWithSchema | fraiseql_rs/src/json_transform.rs:191-244 | the loop over a copied map that shrinks by `remove` never misses a value it unwraps, and equals writing the tag and then one pure result per field; it ends for cyclic schemas |
| SchemaTransform.TransformNestedObject | fraiseql_rs/src/json_transform.rs:123-157 | nulls pass, lists go item by item, a value that is no list where the schema says list is kept |
| Tagging.TaggedIff | fraiseql_rs/src/json_transform.rs:191-244 | for every row, type and registry the result is the one value with the tag first, then the camelCase keys as they first come up, and under each what the declarations of the schema say of the last key of that form: copied, tagged for its type, item by item in a list, or, if not declared, rewritten without tags |
| Tagging.DeclaredField | fraiseql_rs/src/json_transform.rs:210-236 | a field that `types` declares, under any spelling, is in the result: its objects carry the declared type if it is declared nested, one by one in a declared list; it is copied if it is declared not nested |
| Tagging.UndeclaredField | fraiseql_rs/src/json_transform.rs:181-183 | a field that is not declared is rewritten key by key and not tagged |
| Decoration.DecorationIff | fraiseql_rs/src/json_transform.rs:93-244 | on data without a `__typename` key, taking every tag away from the schema transform gives the plain key rewrite, order included, exactly when the data conforms to the type; for every registry |
| TypedPaths.TypedAtEveryPath | fraiseql_rs/src/json_transform.rs:123-157 | wherever nested schema fields lead in the data, through lists, the camelCase path leads in the result to the value transformed for the schema's type there, tagged with it |
| TypedPaths.TagIff | fraiseql_rs/src/json_transform.rs:201-202 | the tag stands first, and is the object's type exactly unless a data key that camel-cases to `__typename` overwrites it with something else |
| KeyStyle.KeyStyleInsensitiveIff | fraiseql_rs/src/schema_registry.rs:135-153 | when lookups ignore key style, the schema transform gives the same response for snake_case rows and for the same rows in camelCase exactly when the rows conform to the type |
| Projections.ValueInIff | fraiseql_rs/src/pipeline/projection.rs:58-69 | a field is found exactly when some key of the row has its camelCase form or is its snake_case spelling, what is found stands under such a key, and the exact source key comes first |
| Projections.ValueInFirst | fraiseql_rs/src/pipeline/projection.rs:58-69 | which spelling counts: the source key, its camelCase form, its snake_case form, then the first key of the row with an underscore and the same camelCase form |
| Projections.BuiltWellFormed | fraiseql_rs/src/pipeline/projection.rs:166-203 | every projection the builders make has distinct outputs at every level, and knows the spellings of its sources |
| Projections.InsertedWrites | fraiseql_rs/src/pipeline/projection.rs:166-203 | inserting a path selects that response path with its prefixes, and nothing else |
| Projections.BuiltWrites | fraiseql_rs/src/pipeline/projection.rs:84-164 | a built projection selects exactly the response paths it was given, with their prefixes |
| Projections.InsertedFact | fraiseql_rs/src/pipeline/projection.rs:166-203 | inserting a path decides, for that response path and its prefixes only, the row key (the first one stays), the type name (the last one counts) and whether it is an object |
| Projections.BuiltFact | fraiseql_rs/src/pipeline/projection.rs:84-203 | under each response path of a built projection: the row key that the first path named for it, the type name that the last one gave, and an object exactly when some path goes on below it or says so |
| Projections.OwnSourcesIff | fraiseql_rs/src/pipeline/projection.rs:166-203 | every path is read from its own row keys exactly when no two paths want different keys under one response path |
| Projections.BuiltOrder | fraiseql_rs/src/pipeline/projection.rs:166-203 | below every response path the keys are selected in the order in which the paths first name them |
| Projections.FromPathsIff | fraiseql_rs/src/pipeline/projection.rs:84-106 | plain paths are written under their own keys, or in camelCase if asked, `__typename` always as it is; each is read from the keys of the first path that is written there, and no types are named |
| Projections.ProjectionFromPaths | fraiseql_rs/src/pipeline/projection.rs:84-106 | inserting the paths one after the other, each segment written under its own name or its camelCase form |
| Projections.ProjectionFromSelections | fraiseql_rs/src/pipeline/projection.rs:108-164 | inserting the path of each selection that has one, written under its response path when that fits, else under aliases or camelCase names |
| FieldSelections.SelectionNames | fraiseql_rs/src/pipeline/projection.rs:108-164 | told from the selection objects: the row keys are the dotted parts of `materialized_path`; the response keys those of a `response_path` of as many, else each is the last dotted part of the alias of the first aliased selection of the path up to there, else the key in camelCase; with the type name and object flag given; no path without a `materialized_path` |
| FieldSelections.PathsInOrder | fraiseql_rs/src/pipeline/projection.rs:131-164 | selections add their paths one after the other |
| FieldSelections.AliasAnswered | fraiseql_rs/src/json_transform.rs:266-274 | a selection of one key with an alias, whose response key no earlier selection took, puts its own data under the last part of its alias |
| Project.TypenameForIff | fraiseql_rs/src/json_transform.rs:314-321 | a selected `__typename` answers the known type, else the name that the selection gives, else the text in the row, else nothing |
| Project.NestedTypeIff | fraiseql_rs/src/json_transform.rs:289-332 | the type below a field is the one that `types` declares for a nested field; where none is declared, the one that the selection names |
| Project.ProjectWithSchema | fraiseql_rs/src/json_transform.rs:292-349 | the loop over the selected fields equals writing the tag and then each field's answer |
| Response.ResponseIff | fraiseql_rs/src/json_transform.rs:276-349 | soundness and completeness at every depth: the result is the one value whose keys are the tag and the outputs of the fields found, and under each the type name, the value as it stands, or its response to its own selection |
| Response.SelectionOrder | fraiseql_rs/src/json_transform.rs:681-703 | with distinct outputs the keys of an answered object are the outputs of the fields found, in selection order (GraphQL specification, October 2021, section 7.2.2), after the injected tag, each with its own field's answer |
| Answers.AnswerAtPath | fraiseql_rs/src/json_transform.rs:292-349 | under every path of keys and list positions, the result holds what looking the keys up in the projection and the sources in the row gives there, and nothing else |
| Answers.OnlySelected | fraiseql_rs/src/json_transform.rs:308-345 | whatever the result holds is selected, lies below a selected leaf that was copied, or is an injected tag |
| Answers.OwnDataAnswered | fraiseql_rs/src/json_transform.rs:308-345 | a selected path that keeps its own row keys is answered by what the row holds under them in any spelling: a leaf by the value itself, an object by the response to what is selected below; by nothing when the row has nothing |
| Answers.TypeBelowStep | fraiseql_rs/src/json_transform.rs:326-332 | so it is at every depth of a projection, from the type above |
| Answers.TaggedBelow | fraiseql_rs/src/json_transform.rs:289-341 | with injection, the objects that a built selection selects on carry the type that the schema declares for their field in the type above; where it declares none, the name that the last selection of the field gave; with none, no `__typename` |
| Answers.TransformWithSelections | fraiseql_rs/src/json_transform.rs:266-274 | the result is the response to exactly the response paths that the selections name, no object has two fields under one key, and each selection that keeps its row keys is answered by its own data |
| Selection.InjectionErased | fraiseql_rs/src/json_transform.rs:309-312 | with distinct outputs, the results with and without injection are equal once `__typename` is taken away along the selection; for every value, type and registry |
| Selection.PlainHasNoTags | fraiseql_rs/src/json_transform.rs:309-312 | without injection there is nothing to take away, unless `__typename` is an output |
| Selection.InjectionTouchesOnlyTags | fraiseql_rs/src/json_transform.rs:663-678 | so erasing the tags of the result with injection gives the result without it |
| Selection.FullSelection | fraiseql_rs/src/json_transform.rs:292-349 | a projection that selects every field in order, with rows of a list sharing one selection, makes the projection equal the schema transform at every depth |
| Selection.EverythingIsTheSchemaTransform | fraiseql_rs/src/json_transform.rs:191-244 | every row shaped as the schema says has such a projection |
| PythonReference.TransformDictPython | benchmarks/rust_vs_python_benchmark.py:24-38 | the loop with its list comprehension: dictionaries and the dictionaries in a list are transformed, a list's lists are not |
| PythonReference.TitleAt | benchmarks/rust_vs_python_benchmark.py:20-21 | `str.title` character by character, on ASCII: a letter after a letter in lower case, any other letter a capital, all else kept |
| PythonReference.KeyAgreesIff | benchmarks/rust_vs_python_benchmark.py:18-21 | on an ASCII key the two conversions agree exactly when it does not start with an underscore and each later segment has lower-case letters after letters and capitals after anything else |
| PythonReference.AgreesIff | benchmarks/rust_vs_python_benchmark.py:24-38 | on values with ASCII keys that do not collide, both transforms give the same ordered object exactly when at every depth the keys convert alike and what lies in a list inside a list is in camelCase already |
| PythonReference.AgreesWithPython | benchmarks/rust_vs_python_benchmark.py:24-38 | on such values they agree also when keys collide |
| PythonReference.NestedListDiffers | benchmarks/rust_vs_python_benchmark.py:31-35 | a list directly inside a list sets them apart |
| RegistryCell.GlobalRegistry.Initialize | fraiseql_rs/src/schema_registry.rs:206-212 | compare-and-swap against the permanent empty handle: on success the cell holds a new handle, on failure the handle it held |
| RegistryCell.GlobalRegistry.Set | fraiseql_rs/src/schema_registry.rs:221-223 | the cell holds a new handle to the given registry; older handles keep theirs |
| RegistryCell.GlobalRegistry.Reset | fraiseql_rs/src/schema_registry.rs:231-233 | the cell holds the empty handle |
| RegistryCell.GlobalRegistry.Get | fraiseql_rs/src/schema_registry.rs:176-178 | hands out the handle in the cell |
| RegistryCell.GlobalRegistry.IsInitialized | fraiseql_rs/src/schema_registry.rs:237-239 | false exactly when the cell holds the empty handle |
| RegistryCell.InitializeSucceedsIff | fraiseql_rs/src/schema_registry.rs:199-212 | in every interleaving an initialization succeeds exactly when nothing was installed since the start or the last reset |
| RegistryCell.IsInitializedIff | fraiseql_rs/src/schema_registry.rs:235-239 | `is_initialized` is false exactly then |
| RegistryCell.ResetBetweenSuccesses | fraiseql_rs/src/schema_registry.rs:204-212 | between two successful initializations there is a reset |
| RegistryCell.FailureChangesNothing | fraiseql_rs/src/schema_registry.rs:202 | a failed one changes no handle and no later answer |
| RegistryCell.GetIff | fraiseql_rs/src/schema_registry.rs:176-223 | a handed-out handle denotes the registry installed last: by a set, or by the first initialization that found the cell empty |
| RegistryCell.HandleStable | fraiseql_rs/src/schema_registry.rs:214-216 | a handle denotes the same registry for ever |
| RegistryCell.GetsAgree | fraiseql_rs/src/schema_registry.rs:161-178 | without set and reset, all gets after the first success hand out one handle |
| AuthClients.AuthClient.GetValidTokens | examples/native-auth-app/client.ts:123-145 | up to its first await: fails without tokens, returns fresh ones, else joins or starts a refresh |
| AuthClients.AuthClient.RefreshTokens | examples/native-auth-app/client.ts:147-153 | joins the flight in the slot, or starts one and takes the slot |
| AuthClients.AuthClient.PerformTokenRefresh | examples/native-auth-app/client.ts:169-185 | sends the stored refresh token, or rejects at once without one |
| AuthClients.AuthClient.ResumeOwner | examples/native-auth-app/client.ts:155-167 | stores the new tokens, or clears and calls `onTokenExpired`; then frees the slot |
| AuthClients.AuthClient.ResumeFollower | examples/native-auth-app/client.ts:149-151 | gets the flight's outcome and touches neither storage nor slot |
| AuthClients.AuthClient.RetryAfterFailure | examples/native-auth-app/client.ts:139-142 | the `catch` refreshes once more |
| AuthClients.AuthClient.Login | examples/native-auth-app/client.ts:188-226 | stores the tokens of the answer |
| AuthClients.AuthClient.Logout | examples/native-auth-app/client.ts:228-250 | clears the storage whatever the server said |
| AuthProtocol.EveryRunKeeps | examples/native-auth-app/client.ts:123-250 | in every interleaving: one owner for the slot and only its flight pending, nothing sent that was not issued as often, and a truthful log with one release a flight |
| AuthProtocol.OneRequestOutstanding | examples/native-auth-app/client.ts:148-153 | at most one refresh request is outstanding |
| AuthProtocol.SentAtMostAsIssued | examples/native-auth-app/client.ts:169-185 | no refresh token is sent to `/refresh` more often than it was issued, whatever the server does |
| AuthProtocol.SpentOnce | examples/native-auth-app/README.md:302 | if it was issued once it is sent at most once, and while no refresh is under way the stored one is unsent |
| AuthProtocol.JoinersAgree | examples/native-auth-app/client.ts:147-167 | all who waited on one flight get the same tokens or error, and the storage its owner left at the release is those tokens, or empty |
| AuthProtocol.StoredAtRelease | examples/native-auth-app/client.ts:155-166 | the step that frees the slot leaves the flight's tokens, or nothing, and counts one expiry callback exactly for a failure |
| AuthProtocol.FailureHandledOnce | examples/native-auth-app/client.ts:159-166 | each flight is released once however many joined, and the callback ran once a failed release |
| AuthProtocol.SlotIsReleased | examples/native-auth-app/client.ts:164-166 | a settled flight in the slot always has an owner that can resume and free it |
| AuthProtocol.FailureIsRetried | examples/native-auth-app/client.ts:131-142 | the shortest such run: one caller, two flights and two callbacks for a token that decodes, one for a token that does not |
| AuthRuns.FailureEndsLastTry | examples/native-auth-app/client.ts:123-145 | in every run a call gets at most two outcomes, a second one only after a failure; a failed flight's error is how it ends exactly when it was its last try; a call that ends without an outcome returns the tokens that were stored when it was made, and fails exactly when none were |
| AuthRuns.CallbacksCounted | examples/native-auth-app/client.ts:155-185 | in every run, whatever the order, the callback ran once for each released refresh that the server failed and once more for each that found no refresh token; of these there are at most as many as retries and calls that found an empty one stored |
| AuthRuns.CallAnswers | examples/native-auth-app/client.ts:123-185 | in every run a call without stored tokens fails, one with fresh tokens returns the stored ones and changes nothing else, any other joins the flight under way or starts one with the stored refresh token |
| EventLoop.LoopIsRun | examples/native-auth-app/client.ts:123-185 | every run of the event loop, where continuations run first in, first out, is a run of the protocol |
| EventLoop.NobodyForgotten | examples/native-auth-app/client.ts:147-167 | when no continuation is left to run, every call is done, or waits for the one refresh that the server has not answered |
| Callbacks.EveryLoopKeeps | examples/native-auth-app/client.ts:123-167 | in every run of the loop each call that is not done has exactly one continuation, an owner resumes before all who joined it, and the callers that a flight failed all retry before the owner of the flight that the first of them starts resumes |
| Callbacks.CallbacksBounded | examples/native-auth-app/client.ts:131-167 | the callback runs at most twice for each failed refresh that some call started or joined, and once more only when a call joined it after it had settled; and at most three times for each time that tokens came into the storage |
| Callbacks.CallbacksReached | examples/native-auth-app/client.ts:131-167 | for every k, when k callers wait for a refresh that the server fails, and all continuations have run, the callback ran twice, and every caller ended with the error of the second refresh |
| Callbacks.LateCallAdds | examples/native-auth-app/client.ts:131-167 | a call between the failure and the owner's resumption makes it three times |
| AuthProtocol.OverlapIsOvertaken | examples/native-auth-app/client.ts:155-161 | the failing run: a logout or login that ends during a flight is replaced by the flight's outcome |
| AuthRuns.LogoutLastsIff | examples/native-auth-app/client.ts:147-250 | after a logout the storage stays empty in every continuation without a login exactly when no refresh was under way, or one that had failed |
| AuthRuns.LoginLastsIff | examples/native-auth-app/client.ts:147-226 | after a login its tokens stay in every continuation without login, logout or new refresh exactly when no refresh was under way, or one that had brought the same tokens |
| EventLoop.LogoutLastsInLoopIff | examples/native-auth-app/client.ts:147-250 | the same of the loop: the storage stays empty in every continuation of it without a login under exactly that condition |
| EventLoop.LoginLastsInLoopIff | examples/native-auth-app/client.ts:147-226 | and so with a login's tokens |
| EventLoop.FlightEndsInLoop | examples/native-auth-app/client.ts:155-167 | from every state of the loop, once the server has answered, running the continuations that are queued frees the slot, and leaves in the storage what the flight brought |
| AuthClients.AuthClient.RunsAreSafe | examples/native-auth-app/client.ts:123-250 | every method adds its event to the client's run, so the client's fields are always those of a run of the protocol, and have its invariants |
| Mutations.BuildInsertSql | fraiseql_rs/src/mutations.rs:151-172 | the text of the numbered INSERT, and its parameters |
| Mutations.BuildUpdateSql | fraiseql_rs/src/mutations.rs:174-201 | the text of the numbered UPDATE with its filter, and its parameters |
| Mutations.BuildDeleteSqlWithParams | fraiseql_rs/src/mutations.rs:203-217 | the text of the DELETE with its filter, and its parameters |
| Mutations.PlaceholdersMatchParams | fraiseql_rs/src/mutations.rs:179-198 | placeholders run from `$1` to `$n` for n parameters, each once, the filter's last |
| Mutations.ParamKeepsIff | fraiseql_rs/src/mutations.rs:253-270 | the JSON value can be told from its parameter exactly unless it is a number too wide for both kinds, which is bound like its text |
| Mutations.FilterParsed | fraiseql_rs/src/mutations.rs:219-234 | a filter counts exactly when it is an object with a textual field and operator, and a value |
| Mutations.DeleteText | fraiseql_rs/src/mutations.rs:236-250 | the text of the built DELETE for each operator name, word by word |
| Mutations.DeleteByInteger | fraiseql_rs/src/mutations.rs:236-248 | told from the filter object: the built DELETE removes exactly the rows whose column holds an integer that is equal to the filter's, different, greater, at least, less, or at most, as `eq`, `ne`, `gt`, `gte`, `lt`, `lte` say; equal for an unknown operator |
| Mutations.UpdateByInteger | fraiseql_rs/src/mutations.rs:236-248 | the built UPDATE writes exactly those rows over |
| Mutations.DeleteByPattern | fraiseql_rs/src/mutations.rs:236-248 | `like` compares the column with the pattern by LIKE |
| Sql.DecimalInjective | fraiseql_rs/src/mutations.rs:162 | no two placeholders are written alike |
| Sql.ReadIff | fraiseql_rs/src/mutations.rs:151-251 | a database reads the text of a statement as that statement exactly when its tables and columns are names: identifiers without capitals that are no reserved words |
| Sql.RenderInjective | fraiseql_rs/src/mutations.rs:151-251 | no two such statements have one text |
| Mutations.UpdateMeans | fraiseql_rs/src/mutations.rs:174-201 | run on any database, the built text with its parameters assigns the converted input to the rows the filter selects and leaves all else alone; an input without fields is refused |
| Mutations.UpdateMeansIff | fraiseql_rs/src/mutations.rs:174-201 | for an input with fields: with names for table, columns and filter field the text is read as a statement, and whenever it is read as one, it does on every database what it says exactly when they are names |
| Mutations.DeleteMeans | fraiseql_rs/src/mutations.rs:203-217 | run on any database, the built text removes exactly the rows the filter selects |
| Mutations.DeleteMeansIff | fraiseql_rs/src/mutations.rs:203-217 | with names for table and filter field the text is read as a statement, and whenever it is read as one, it does on every database what it says exactly when they are names |
| Mutations.DroppedFilterDeletesAll | fraiseql_rs/src/mutations.rs:223-234 | a filter that is not an object with textual field and operator and a value is dropped, so every row goes |
| Mutations.InsertMeans | fraiseql_rs/src/mutations.rs:151-172 | run on any database, the built text adds the converted input as one row; an input without fields is refused |
| Mutations.InsertMeansIff | fraiseql_rs/src/mutations.rs:151-172 | for an input with fields: with names for table and columns the text is read as a statement, and whenever it is read as one, it does on every database what it says exactly when they are names |
| Mutations.KeyWritesTwoColumns | fraiseql_rs/src/mutations.rs:184-188 | an input key that is no name can assign its value to two columns |
| Mutations.FieldSelectsAll | fraiseql_rs/src/mutations.rs:248 | a filter field that is no name can make a DELETE remove every row |

## Left out

- JSON text: parsing and printing are serde_json's; a number is kept by how serde_json reads it, and the text of an array
  or object bound as a parameter is represented by the value itself.
- PyO3 types and errors: dictionaries and lists are JSON-shaped, keys are strings.
- `FieldInfo.extensions`, and reading a registry from JSON.
- The lookup index of a projection (`matching`, its hash filter and binary search): it serves the streaming pipeline,
  not `project_with_schema`.
- Projections.Inserted: the builder updates its tree in place; the model gives the new tree, so it says nothing about
  sharing.
- PythonReference.KeyAgreesIff: ASCII keys only, because Python's `str.title` outside ASCII is not modelled.
- The debug warning for a value that is no list where the schema says list.
- The stored user record, decoding of the access token (how fresh it is comes with the call), storage failures, and what
  `onTokenExpired` itself may call.
- Other browser tabs on the same storage.
- An event loop whose `async` functions are compiled to something else: it may take other numbers of jobs.
- `register` is modelled as `login`: both store the answer's tokens.
- Memory ordering and lazy creation of the registry cell: each operation is one atomic step.
- Connections, execution and affected-row counts of the mutations; return fields.
- SQL beyond the statements that are read here (quoted names, comments, AND, subqueries): what such a text does is left
  open, not claimed to be refused. So the theorems on what happens without names are about texts that are read. Which words are reserved, beyond those the grammar needs, is left open too.
- That PostgreSQL cuts long names, looks unqualified tables up in a search path, and gives parameters and columns types:
  a missing column reads as null, and whether a comparison is true is left to the database.
