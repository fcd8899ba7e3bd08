# A Dafny model of the Mongo query layer of `@extropysk/nest`

This project models the part of the `@extropysk/nest` packages that turns an HTTP
list query into MongoDB commands and turns the stored documents back into API
documents:

- **the query compiler** of the Mongo package (`utils/query.ts`). It converts the
  portable where-tree into a Mongo filter. A where-tree maps fields to literals,
  operator objects such as `{greater_than: 3}`, or nested where-trees, and may hold
  `and`/`or` lists. The compiler also parses `[-]field` sort strings, builds
  projections, selects fields of a document, and turns dotted populate paths into
  `$lookup`/`$unwind` stages;
- **the repository** (`BaseRepository`). It picks between an aggregation pipeline
  (when something is populated) and a plain `find`. It computes the pagination
  envelope, maps `_id` to `id`, and refuses invalid ObjectIds before anything
  reaches the store;
- **request normalisation** of the common package (`dto/query.dto.ts`). This covers
  the `where` parameter, the comma-separated `select`/`populate` lists, and the
  bounds and defaults of `limit` and `page`.

JavaScript values are the datatype `Js.Value` (null, boolean, number, string,
array, object, ObjectId). An object is an ordered list of key/value pairs, because
`Object.entries` and `Map` iteration order fix the order of every output.
`Js.Put`, `Js.Assign`, `Js.Remove` and `Js.Dedup` model property assignment,
`Object.assign`, rest destructuring and `[...new Set(xs)]`.

The MongoDB driver is the `Store` module. A `Collection` records every command it
receives in its `log` field and answers it through an opaque `server` function.
Every repository method states the exact commands it appends to the log and how its
result is computed from the replies.

The imperative code is modelled as it is written, as methods with loops:

- the `for` loops of `convertWhereToMongo`, `buildProjection`, `selectFields` and
  the grouping loop of `buildLookupStages`;
- the `push`es onto `pipeline` in `findMany`;
- the cursor reassignments in `findMany`.

Each method is proved equal to a function. The lemmas state the properties of
those functions.

Files: `js.dfy` (JavaScript values and built-ins), `where.dfy` (`WhereCompiler`),
`fields.dfy` (`QueryFields`: sort, projection, selection), `lookup.dfy`
(`Lookup`), `store.dfy` (`Store`), `repository.dfy` (`Repository`),
`query_dto.dfy` (`QueryDto`).

On `where` parameters, where the documentation and the code differ, the
model follows the code: a `where` given as the text `{}` is kept as the empty object; only a `where` given as
a record is dropped when empty (`QueryDto.EmptyObjectTextKept`). Either way the
filter it compiles to is `{}`, the same as for an absent `where`
(`Repository.EmptyWhereFiltersNothing`).

## Model

| member | source | states |
|---|---|---|
| WhereCompiler.OperatorMapRange | packages/nest-mongo/src/utils/query.ts:22-34 | every portable operator maps to one of the Mongo operators, never to `$options`, and to `$regex` exactly when it is `like` or `contains` |
| WhereCompiler.OperatorMapInjective | packages/nest-mongo/src/utils/query.ts:22-34 | two different operators, other than the pair `like`/`contains`, map to different Mongo operators |
| WhereCompiler.ConvertOperatorValue | packages/nest-mongo/src/utils/query.ts:36-41 | `like`/`contains` throw exactly when `String(v)` does, and otherwise become exactly `{$regex: String(v), $options: "i"}`; any other operator never throws and becomes exactly its mapped operator holding the operand unchanged |
| WhereCompiler.OtherOperatorUntouched | packages/nest-mongo/src/utils/query.ts:36-41 | converting one operator never writes the Mongo key of another non-pattern operator |
| WhereCompiler.MergeOperatorsThrows | packages/nest-mongo/src/utils/query.ts:52-63 | merging an operator object throws exactly when the operand of some `like`/`contains` key cannot be turned into a string |
| WhereCompiler.MergeOperatorsKeys | packages/nest-mongo/src/utils/query.ts:52-63 | a merged operator object has distinct keys, all Mongo operators; it has a key exactly when some operator key of the input maps to it, or for `$options` when a pattern operator is present; non-operator keys are dropped |
| WhereCompiler.MergeOperatorsValue | packages/nest-mongo/src/utils/query.ts:52-63 | with distinct input keys, the operand of any non-pattern operator key reads back under its Mongo name after the `Object.assign` merge |
| WhereCompiler.MergeOperatorsPattern | packages/nest-mongo/src/utils/query.ts:52-63 | `$regex` holds the text of the last `like`/`contains` operand (the later assignment wins) and `$options` is `"i"` whenever one is present |
| WhereCompiler.CompileFieldsSome | packages/nest-mongo/src/utils/query.ts:43-73 | a where-tree compiles without throwing exactly when every one of its entries does |
| WhereCompiler.CompileFieldsKeys | packages/nest-mongo/src/utils/query.ts:43-73 | the keys of a compiled filter are the output keys of the entries in order of first occurrence: one per input key, with `and`/`or` lists renamed to `$and`/`$or` |
| WhereCompiler.CompileFieldsInOrder | packages/nest-mongo/src/utils/query.ts:43-73 | when output keys are distinct, the compiled filter has exactly one entry per input entry, in input order, each compiled on its own |
| WhereCompiler.CompileAllSpec | packages/nest-mongo/src/utils/query.ts:47-50 | a condition list compiles exactly when every condition does, to the conditions compiled one by one, with the same length and order |
| WhereCompiler.CompileEntryKey | packages/nest-mongo/src/utils/query.ts:46-70 | an entry keeps its key, except that `and`/`or` holding an array becomes `$and`/`$or`; an `and`/`or` that is not an array is an ordinary field |
| WhereCompiler.ConditionsEntry | packages/nest-mongo/src/utils/query.ts:47-50 | `and`/`or` with an array compiles exactly when all conditions do, to `$and`/`$or` over the conditions compiled element by element |
| WhereCompiler.OperatorEntry | packages/nest-mongo/src/utils/query.ts:51-63 | an object or array value with an operator key throws exactly when the operand of one of its `like`/`contains` keys cannot be turned into a string; otherwise it becomes an object holding only Mongo operators under the same key |
| WhereCompiler.NestedEntry | packages/nest-mongo/src/utils/query.ts:64-66 | an object or array value with no operator key is compiled recursively as a nested where-tree under the same key |
| WhereCompiler.ScalarEntry | packages/nest-mongo/src/utils/query.ts:67-69 | a value that is not an object, `null` included, becomes `{$eq: value}` under its key |
| WhereCompiler.EmptyWhereCompiles | packages/nest-mongo/src/utils/query.ts:43-45 | the empty where-tree compiles to the empty filter |
| WhereCompiler.CleanTreeCompiles | packages/nest-mongo/src/utils/query.ts:43-73 | a where-tree holding no `null` and no object with its own `toString` key, at any depth, never makes the compiler throw |
| WhereCompiler.NullConditionThrows | packages/nest-mongo/src/utils/query.ts:47-48 | `{and: [null]}` throws, because `Object.entries(null)` is reached through the list |
| WhereCompiler.PatternOnToStringThrows | packages/nest-mongo/src/utils/query.ts:38 | `{a: {like: {toString: "x"}}}` throws, because `String()` finds a `toString` that is not a function |
| WhereCompiler.PrototypeKeyMisclassified | packages/nest-mongo/src/utils/query.ts:53 | as written, `{constructor: "x"}` counts as an operator object though none of its keys is an operator |
| WhereCompiler.OperatorTestsAgree | packages/nest-mongo/src/utils/query.ts:53 | the written operator test and the own-key test agree on every key that is not an inherited member name |
| WhereCompiler.NonOperatorObjectIsNestedWhere | packages/nest-mongo/src/utils/query.ts:53-66 | with the own-key test, `{name: {constructor: "x"}}` compiles to the nested match `{name: {constructor: {$eq: "x"}}}` |
| WhereCompiler.MergeOperatorObject | packages/nest-mongo/src/utils/query.ts:52-63 | the `merged` loop computes the merged operator object, and throws exactly where the merge does |
| WhereCompiler.ConvertWhereToMongo | packages/nest-mongo/src/utils/query.ts:43-73 | the `result` loop computes `CompileWhere(where)`, and throws exactly where that compiler does; `CompileWhere` uses the own-name operator test (the corrected behaviour of the Findings row), so on keys named after `Object.prototype` members it differs from the source |
| WhereCompiler.ConvertEntry | packages/nest-mongo/src/utils/query.ts:46-70 | one iteration of the loop computes the compiled entry |
| WhereCompiler.ConvertObjectValue | packages/nest-mongo/src/utils/query.ts:51-66 | the object branch computes the operator object or the nested where-tree |
| WhereCompiler.ConvertConditions | packages/nest-mongo/src/utils/query.ts:48 | `value.map(convertWhereToMongo)` computes the list of compiled conditions |
| QueryFields.ConvertSortToMongo | packages/nest-mongo/src/utils/query.ts:75-82 | an absent or empty sort string gives `{}`; otherwise exactly one key with `-1` iff the string starts with `-`, and the sign followed by the key gives back the string |
| QueryFields.SortRoundTrip | packages/nest-mongo/src/utils/query.ts:75-82 | writing `-field` or `field` and converting it gives back `{field: -1}` or `{field: 1}` |
| QueryFields.ProjectionKeys | packages/nest-mongo/src/utils/query.ts:99-105 | the projection holds every given field once, in order of first mention; duplicates collapse |
| QueryFields.ProjectionIncludes | packages/nest-mongo/src/utils/query.ts:99-105 | the projection maps exactly the given fields to `1` |
| QueryFields.BuildProjection | packages/nest-mongo/src/utils/query.ts:99-105 | the loop computes the projection |
| QueryFields.SelectList | packages/nest-mongo/src/utils/query.ts:87 | splitting on commas and trimming gives at least one name and no name with a comma |
| QueryFields.SelectListJoin | packages/nest-mongo/src/utils/query.ts:87 | names without commas or surrounding white space, joined with commas, are selected back exactly |
| QueryFields.SelectedSpec | packages/nest-mongo/src/utils/query.ts:88-94 | the selection has distinct keys, holds a key exactly when it is listed and present in the document, and keeps the document's value |
| QueryFields.SelectFields | packages/nest-mongo/src/utils/query.ts:84-97 | no `select` or an empty one returns the document unchanged; otherwise the loop computes the selection |
| QueryFields.SelectKeepsNamedFields | packages/nest-mongo/src/utils/query.ts:84-97 | selecting `a,b` from `{a:1, b:2, c:3}` gives `{a:1, b:2}` |
| Lookup.Head | packages/nest-mongo/src/utils/query.ts:129-130 | the head of a path is the part before its first dot and holds no dot |
| Lookup.RestListSpec | packages/nest-mongo/src/utils/query.ts:131-137 | the remainder after the first dot is kept only when non-empty; it is strictly shorter than the path, and head, dot and remainder give back the path |
| Lookup.GroupedKeys | packages/nest-mongo/src/utils/query.ts:127-139 | the grouping loop makes one group per distinct head, in order of first appearance |
| Lookup.GroupedSubPaths | packages/nest-mongo/src/utils/query.ts:127-139 | each group holds all non-empty remainders of its head, in path order |
| Lookup.GroupedMeasure | packages/nest-mongo/src/utils/query.ts:131 | the sub-paths of every group are strictly shorter than the longest path, which makes the recursion terminate |
| Lookup.LookupStagesByHeads | packages/nest-mongo/src/utils/query.ts:121-175 | the stages are, for each distinct head in order of first appearance that `refs` resolves, that head's stages over all its sub-paths |
| Lookup.UnknownHeadsIgnored | packages/nest-mongo/src/utils/query.ts:142-143 | heads missing from `refs` emit no stage |
| Lookup.LookupStageShape | packages/nest-mongo/src/utils/query.ts:147-164 | a `$lookup` has `from` = collection, `localField` = `as` = the field and `foreignField` = `_id`, and a `pipeline` exactly when one is given |
| Lookup.StagesShape | packages/nest-mongo/src/utils/query.ts:145-171 | a head gives its `$lookup`, with the recursive pipeline exactly when it has sub-paths and its collection has refs, followed by one `$unwind` exactly when it is not `isMany` |
| Lookup.ByHeadsUnwinds | packages/nest-mongo/src/utils/query.ts:142-171 | over the stages of any list of heads, every `$unwind` of a field comes right after the `$lookup` filling that field, and only for a field that `refs` resolves to a single reference |
| Lookup.LookupStagesUnwinds | packages/nest-mongo/src/utils/query.ts:121-175 | the same holds for the whole output of `buildLookupStages` |
| Lookup.PopulateAuthorCountry | packages/nest-mongo/src/utils/query.ts:121-175 | populating `author` and `author.country`, with `author` (single, with refs) and `country` (single), gives an `author` lookup with a nested `country` lookup and unwind, then an `author` unwind |
| Lookup.GroupByHead | packages/nest-mongo/src/utils/query.ts:127-139 | the loop over `populate` computes the grouping |
| Lookup.BuildLookupStages | packages/nest-mongo/src/utils/query.ts:121-175 | the method computes the lookup stages |
| Lookup.EmitGroups | packages/nest-mongo/src/utils/query.ts:142-171 | the stage loop over the groups computes, in order, the stages of every head `refs` resolves |
| Lookup.EmitStages | packages/nest-mongo/src/utils/query.ts:142-171 | one iteration of the stage loop computes the stages of its head |
| Repository.ToJsonSpec | packages/nest-mongo/src/providers/base.repository.ts:45-51 | `_id` is always removed; `id` is the string of `_id` unless a select list without `id` is given (an empty list included); every other property is unchanged |
| Repository.TopLevelIsHead | packages/nest-mongo/src/providers/base.repository.ts:77 | `p.split('.')[0]` is the head the lookup stages group by |
| Repository.ProjectFieldsSpec | packages/nest-mongo/src/providers/base.repository.ts:77-78 | the projected fields are the de-duplicated `select` followed by the populate heads |
| Repository.PopulatedFieldsProjected | packages/nest-mongo/src/providers/base.repository.ts:76-79 | the `$project` maps exactly the selected fields and the populate heads to `1`, so a populated field is never projected away |
| Repository.PipelineOrder | packages/nest-mongo/src/providers/base.repository.ts:61-80 | the pipeline is `$match`, then one stage per paging option given (`$sort` only with keys), then the lookup stages, then `$project` exactly when `select` is non-empty |
| Repository.CeilDivSpec | packages/nest-mongo/src/providers/base.repository.ts:120 | `totalPages` is the least number of `limit`-sized pages holding `totalDocs` documents |
| Repository.EnvelopeSpec | packages/nest-mongo/src/providers/base.repository.ts:131-139 | `hasNextPage` iff `page * limit < totalDocs`, `hasPrevPage` iff `page > 1`, `totalPages` is 0 only for no documents |
| Repository.SkipOfPage | packages/nest-mongo/src/providers/base.repository.ts:119-138 | the page read skips `(page - 1) * limit` documents (none on the first page) and asks for `limit`; the envelope has a next page exactly when documents remain after that window |
| Repository.EmptyWhereFiltersNothing | packages/nest-mongo/src/providers/base.repository.ts:116 | an absent `where` and the empty where-tree both give the filter `{}` |
| Repository.PageSortSent | packages/nest-mongo/src/providers/base.repository.ts:117 | a sort reaches the store exactly when the sort string is non-empty |
| Repository.CreatedDoc | packages/nest-mongo/src/providers/base.repository.ts:193-196 | a created document has `id` equal to the string of the inserted id, no `_id`, and every other inserted property |
| Repository.BuildPipeline | packages/nest-mongo/src/providers/base.repository.ts:61-80 | the successive `push`es build the aggregation pipeline |
| Repository.BaseRepository.constructor | packages/nest-mongo/src/providers/base.repository.ts:39-43 | the repository holds the database, a fresh handle on the named collection that has sent nothing, and the refs |
| Repository.BaseRepository.FindMany | packages/nest-mongo/src/providers/base.repository.ts:53-107 | exactly one command is sent: an aggregation when populate is non-empty, otherwise a `find` with a projection only for a non-empty select and sort/skip/limit only when given; the replies are mapped through `toJSON` with the select list |
| Repository.BaseRepository.Find | packages/nest-mongo/src/providers/base.repository.ts:109-140 | a where-tree that makes the compiler throw sends nothing; otherwise a count and then one page read with `skip = (page-1)*limit`, answered with the envelope of the count |
| Repository.BaseRepository.FindOne | packages/nest-mongo/src/providers/base.repository.ts:142-165 | with a non-empty select or populate, a `findMany` with limit 1 and its first document; otherwise a direct `findOne` mapped without select |
| Repository.BaseRepository.FindById | packages/nest-mongo/src/providers/base.repository.ts:167-187 | an invalid id gives `null` and sends nothing; a valid one reads with an `_id` equality filter and limit 1 and gives the first document or `null` |
| Repository.BaseRepository.Count | packages/nest-mongo/src/providers/base.repository.ts:189-191 | sends one count of the filter and returns its answer |
| Repository.BaseRepository.Create | packages/nest-mongo/src/providers/base.repository.ts:193-196 | sends one insert and returns the document under the inserted id |
| Repository.BaseRepository.UpdateOne | packages/nest-mongo/src/providers/base.repository.ts:198-201 | sends one `$set` update and returns true iff a document was modified |
| Repository.BaseRepository.UpdateById | packages/nest-mongo/src/providers/base.repository.ts:203-208 | an invalid id gives false and sends nothing; a valid one updates by `_id` |
| Repository.BaseRepository.Upsert | packages/nest-mongo/src/providers/base.repository.ts:210-217 | sends one `findOneAndUpdate` with upsert and the document after the update, and returns it through `toJSON` |
| Repository.BaseRepository.DeleteOne | packages/nest-mongo/src/providers/base.repository.ts:219-222 | sends one delete and returns true iff a document was deleted |
| Repository.BaseRepository.DeleteById | packages/nest-mongo/src/providers/base.repository.ts:224-229 | an invalid id gives false and sends nothing; a valid one deletes by `_id` |
| QueryDto.ParseWhereParam | packages/nest-common/src/dto/query.dto.ts:5-24 | absent input gives nothing; a record or an array is kept iff it has a key; text is kept iff it is non-empty and parses to a non-null object, and a parse failure gives nothing |
| QueryDto.EmptyRecordDropped | packages/nest-common/src/dto/query.dto.ts:10-12 | an empty record gives no where-tree |
| QueryDto.EmptyObjectTextKept | packages/nest-common/src/dto/query.dto.ts:14-17 | the text `{}` is kept as the empty object |
| QueryDto.BadTextDropped | packages/nest-common/src/dto/query.dto.ts:14-20 | text that fails to parse, or parses to `null` or a scalar, gives no where-tree |
| QueryDto.SplitAllSpec | packages/nest-common/src/dto/query.dto.ts:31 | `flatMap` over `split(',')` yields no element with a comma and at least one element per input string |
| QueryDto.SplitAllJoin | packages/nest-common/src/dto/query.dto.ts:31 | joining the split list with commas equals joining the input strings with commas |
| QueryDto.CsvToArraySpec | packages/nest-common/src/dto/query.dto.ts:26-33 | the result holds no comma; joined with commas it gives back the text or the joined list; it is absent exactly for no input or the empty text, so an empty list stays `[]` |
| QueryDto.ValidateLimit | packages/nest-common/src/dto/query.dto.ts:41 | `limit` defaults to 10 and is accepted, unchanged, exactly when it is an integer from 1 to 100 |
| QueryDto.ValidatePage | packages/nest-common/src/dto/query.dto.ts:42 | `page` defaults to 1 and is accepted, unchanged, exactly when it is a positive integer |
| QueryDto.ValidQuery | packages/nest-common/src/dto/query.dto.ts:35-45 | a validated query has limit 1..100, page at least 1, an object `where` (a record unless it came as text, and never an empty record), a sort exactly when `sort` came as text, and no comma in any select or populate entry |
| QueryDto.ValidateQueryFails | packages/nest-common/src/dto/query.dto.ts:35-45 | validation fails exactly when `where` is neither text nor a record, `sort` is not text, `select` or `populate` is neither text nor a list of texts, or `limit` or `page` fails |
| Js.Remove | packages/nest-mongo/src/providers/base.repository.ts:46 | rest destructuring drops exactly the named key and keeps every other property |
| Js.PutGet | packages/nest-mongo/src/utils/query.ts:102 | after `obj[k] = v`, `k` reads `v` and every other key reads as before |
| Js.AssignGet | packages/nest-mongo/src/utils/query.ts:59 | after `Object.assign`, a key of the source reads its source value and any other key reads as in the target |
| Js.DedupSpec | packages/nest-mongo/src/providers/base.repository.ts:77-78 | `[...new Set(xs)]` holds exactly the elements of `xs`, each once |
| Js.DedupOfDedupSuffix | packages/nest-mongo/src/providers/base.repository.ts:77-78 | de-duplicating the populate heads first does not change the final field list |
| Js.JoinSplit | packages/nest-common/src/dto/query.dto.ts:32 | joining a string split on a separator gives back the string |
| Js.SplitJoin | packages/nest-mongo/src/utils/query.ts:87 | splitting parts without the separator, joined with it, gives back the parts |
| Js.JsStringThrows | packages/nest-mongo/src/utils/query.ts:38 | `String(v)` throws exactly on an object with its own `toString` key, or an array holding one at any depth |
| Js.Entries | packages/nest-mongo/src/utils/query.ts:46 | `Object.entries` throws exactly on `null` |
| Js.EntriesSpec | packages/nest-mongo/src/utils/query.ts:46 | the entries of an array or a string have distinct index keys; the values found in an array or object nest less deeply than it, and those of a scalar not at all |
| Js.PutKeys | packages/nest-mongo/src/utils/query.ts:102 | `obj[k] = v` keeps the order of the keys, and a new key goes last |
| Js.AssignKeys | packages/nest-mongo/src/utils/query.ts:59 | after `Object.assign`, the keys are exactly those of the target and of the source |
| Js.SplitParts | packages/nest-common/src/dto/query.dto.ts:32 | no part of a string split on a separator holds the separator |

## Left out

- MongoDB itself is not modelled: what `aggregate`, `find`, `countDocuments`, `insertOne`, `updateOne`, `findOneAndUpdate` and `deleteOne` return, and how `$regex`, `$lookup` and `$unwind` evaluate. The store records commands and answers through an opaque function.
- `async`/`await`: the count and the read of `find` are two separate round trips with no snapshot between them. The model orders them in one log and relates nothing between their answers.
- `ObjectId.isValid` and `new ObjectId(id)` are parameters (`Repository.ObjectIdLib`). `_id.toString()` is `Js.JsString`, which gives an ObjectId's hex string and throws where `String()` does.
- `JSON.parse` is a parameter of `QueryDto.ParseWhereParam`, a partial function. Zod's schema machinery and `createZodDto` are not modelled; only the stated bounds and defaults are.
- `z.coerce.number()` is abstracted to `QueryDto.JsNumber`: an integer, or a value that fails `.int()`.
- Numbers are integers: floating point, `NaN` and `-0` are not modelled. `Math.ceil(totalDocs / limit)` is the integer ceiling division `Repository.CeilDiv`.
- The default values of `findMany`'s `filter` and `options` and of the constructor's `refs` are not modelled as defaults. Callers pass `[]`, absent options and the empty map explicitly.
- JavaScript objects list integer-like keys first, in numeric order, whatever the insertion order. `Js.Fields` keeps insertion order for every key.
- An ObjectId value inside a where-tree is treated as a scalar and matched with `$eq`. In JavaScript it is an object, whose own keys decide the branch.
- `Object.entries` of a boolean, number or ObjectId gives no entries, as for primitives. Non-enumerable and inherited properties are not modelled.
- WhereCompiler.CompileWhere and WhereCompiler.ConvertWhereToMongo use the own-name operator test `IsOperator` (the corrected behaviour of the Findings row), not the `in` test as written. On an object whose keys include an `Object.prototype` member name (`constructor`, `toString`, …) the source takes it for an operator object and writes keys such as `String(operatorMap.constructor)`; the model compiles it as a nested where-tree, so the compiled keys and the places that throw differ there (`{a: {constructor: {and: [null]}}}` throws in the model and not in the source).
- BaseRepository.Find requires `limit >= 1`, which the request schema guarantees (`QueryDto.ValidQuery`); with `limit` 0 the source computes `Math.ceil(n / 0)`, which is Infinity (NaN when n is 0), and a negative limit gives a non-positive page count and, past the first page, a negative skip; neither is modelled.
- `refs[field]` in `buildLookupStages` and `field in doc` in `selectFields` also see inherited `Object.prototype` members, as the operator test does (see Findings). The model looks up own keys only: `field in refs` and `field in Keys(doc)`.
- ToJsonSpec and CreatedDoc assume that every `_id` the store hands back is non-null and that its `toString()` does not throw (`Store.StoredDoc`, `Store.IdValue`). MongoDB accepts `_id: null`, and `toJSON` then throws; that path, and `findOne`'s `doc ? ... : null` on such a document, are not modelled. An `upsert` reply of `null` makes `toJSON` throw, which the model gives as `None`.
- `Js.Put` and `Js.Assign` treat `__proto__` as an ordinary own key. In JavaScript, `obj["__proto__"] = v` sets the prototype instead: the where-tree `{"__proto__": {"x": 1}}` compiles to a filter with no own key, and `buildProjection(["__proto__"])` and `selectFields(doc, "__proto__")` give `{}`, where the model keeps the key.
- Strings are sequences of Unicode scalar values. JavaScript strings are UTF-16 code units, so `Object.entries` of a string holding a character outside the Basic Multilingual Plane (an emoji) has one entry per code unit, where `Js.Entries` has one per character.
- The query parameters are typed by their shapes (`QueryDto.WhereInput`, `QueryDto.SortInput`, `QueryDto.CsvParam`), not parsed from a query string; which shapes Express produces for which URL is not modelled.
- Type-level code (`SelectResult`, `WithPopulated`, `PopulateKeys`, `RefsSchema`) has no runtime behaviour and is not modelled.
- `storage.service.ts`, the NestJS modules, the Postgres package, the repository interface and the build configuration are not part of this model.

## Findings

| source | as written | input that shows it | evidently intended | confidence | as-written member | corrected member |
|---|---|---|---|---|---|---|
| packages/nest-mongo/src/utils/query.ts:53 | `op in operatorMap` tests an object literal that inherits from `Object.prototype`, so inherited names such as `constructor` or `toString` count as operators | the where-tree `{name: {constructor: "x"}}`: the value is taken for an operator object and `constructor` is converted with the inherited `operatorMap.constructor` as its Mongo key | only the eleven operator names count, and `{constructor: "x"}` is a nested where-tree: `{name: {constructor: {$eq: "x"}}}` | not executed | WhereCompiler.PrototypeKeyMisclassified | WhereCompiler.NonOperatorObjectIsNestedWhere |
