/** `BaseRepository`: CRUD and paginated reads over one collection, turning stored
    documents (`_id`) into API documents (`id`) and populate paths into `$lookup`
    stages. */
module Repository {
  import opened Js
  import opened WhereCompiler
  import opened QueryFields
  import opened Lookup
  import opened Store
  import opened QueryDto

  /** `ObjectId.isValid(id)` and `new ObjectId(id)`, which the driver defines. */
  datatype ObjectIdLib = ObjectIdLib(isValid: string -> bool, fromString: string -> ObjectId)

  /** The options of `findMany`; `None` where a property is `undefined`. */
  datatype FindOptions = FindOptions(
    skip: Option<int>,
    limit: Option<int>,
    sort: Option<Fields>,
    select: Option<seq<string>>,
    populate: Option<seq<string>>)

  /** `xs?.length` is truthy. */
  predicate NonEmpty(xs: Option<seq<string>>)
  {
    xs.Some? && |xs.value| > 0
  }

  /** `sort && Object.keys(sort).length > 0`. */
  predicate HasKeys(sort: Option<Fields>)
  {
    sort.Some? && |sort.value| > 0
  }

  /** JavaScript truthiness. */
  predicate Truthy(v: Value)
  {
    match v
    case Null => false
    case Bool(b) => b
    case Num(n) => n != 0
    case Str(s) => s != []
    case _ => true
  }

  // ---------------------------------------------------------------- toJSON

  /** `toJSON(doc, select)`: `_id` is dropped and, unless a selection leaves `id` out,
      rendered as the string `id`. */
  function ToJson(doc: StoredDoc, select: Option<seq<string>>): Fields
  {
    var rest := Remove(doc, "_id");
    if select.Some? && "id" !in select.value then rest
    else Put(rest, "id", Str(JsString(Get(doc, "_id").value).value))
  }

  /** The API document never shows `_id`; it shows `id` as the string of `_id` unless a
      selection omits `id`, and every other property as stored. */
  lemma ToJsonSpec(doc: StoredDoc, select: Option<seq<string>>)
    ensures "_id" !in Keys(ToJson(doc, select))
    ensures Get(ToJson(doc, select), "id") ==
      if select.Some? && "id" !in select.value then Get(doc, "id")
      else Some(Str(JsString(Get(doc, "_id").value).value))
    ensures forall k :: k != "_id" && k != "id" ==> Get(ToJson(doc, select), k) == Get(doc, k)
  {
    var rest := Remove(doc, "_id");
    PutKeys(rest, "id", Str(JsString(Get(doc, "_id").value).value));
    PutGet(rest, "id", Str(JsString(Get(doc, "_id").value).value));
  }

  function ToJsonAll(docs: seq<StoredDoc>, select: Option<seq<string>>): (r: seq<Fields>)
    ensures |r| == |docs| && forall i :: 0 <= i < |docs| ==> r[i] == ToJson(docs[i], select)
  {
    seq(|docs|, i requires 0 <= i < |docs| => ToJson(docs[i], select))
  }

  /** `docs[0] ?? null`. */
  function First(docs: seq<Fields>): (r: Option<Fields>)
    ensures r.None? <==> |docs| == 0
    ensures r.Some? ==> r.value == docs[0]
  {
    if |docs| == 0 then None else Some(docs[0])
  }

  // ---------------------------------------------------------------- the aggregation pipeline

  /** `p.split('.')[0]`. */
  function TopLevel(path: string): string
  {
    Split(path, '.')[0]
  }

  /** The top-level field of a path is the head its lookup stages are grouped by. */
  lemma TopLevelIsHead(path: string)
    ensures TopLevel(path) == Head(path)
  {
    if '.' in path {
      var i := IndexOf(path, '.');
      assert Split(path, '.') == [path[..i]] + Split(path[i + 1..], '.');
    }
  }

  /** `[...new Set([...select, ...new Set(populate.map(p => p.split('.')[0]))])]`. */
  function ProjectFields(select: seq<string>, populate: seq<string>): seq<string>
  {
    Dedup(select + Dedup(seq(|populate|, i requires 0 <= i < |populate| => TopLevel(populate[i]))))
  }

  /** The fields kept by `$project` are the selected fields followed by the populated
      top-level fields, each once, in order of first mention. */
  lemma ProjectFieldsSpec(select: seq<string>, populate: seq<string>)
    ensures ProjectFields(select, populate) == Dedup(select + Heads(populate))
  {
    var tops := seq(|populate|, i requires 0 <= i < |populate| => TopLevel(populate[i]));
    forall i | 0 <= i < |populate|
      ensures tops[i] == Heads(populate)[i]
    {
      TopLevelIsHead(populate[i]);
    }
    assert tops == Heads(populate);
    DedupOfDedupSuffix(select, tops);
  }

  /** The projection of a populated read keeps every selected field and the top-level
      field of every populate path, with `1`, and nothing else; so a populated field
      is never projected away. */
  lemma PopulatedFieldsProjected(select: seq<string>, populate: seq<string>)
    ensures UniqueKeys(Projection(ProjectFields(select, populate)))
    ensures forall k :: (Get(Projection(ProjectFields(select, populate)), k) ==
      if k in select || k in Heads(populate) then Some(Num(1)) else None)
  {
    var fields := ProjectFields(select, populate);
    ProjectFieldsSpec(select, populate);
    DedupSpec(select + Heads(populate));
    ProjectionKeys(fields);
    ProjectionIncludes(fields);
  }

  function MatchStage(filter: Fields): Value
  {
    Obj([("$match", Obj(filter))])
  }

  function SortStage(sort: Fields): Value
  {
    Obj([("$sort", Obj(sort))])
  }

  function SkipStage(n: int): Value
  {
    Obj([("$skip", Num(n))])
  }

  function LimitStage(n: int): Value
  {
    Obj([("$limit", Num(n))])
  }

  function ProjectStage(fields: seq<string>): Value
  {
    Obj([("$project", Obj(Projection(fields)))])
  }

  /** The `$sort`, `$skip` and `$limit` stages the options ask for, in that order. */
  function PagingStages(opts: FindOptions): seq<Value>
  {
    (if HasKeys(opts.sort) then [SortStage(opts.sort.value)] else []) +
    (if opts.skip.Some? then [SkipStage(opts.skip.value)] else []) +
    (if opts.limit.Some? then [LimitStage(opts.limit.value)] else [])
  }

  /** The pipeline of a populated read: match, paging, lookups, then the projection
      when fields are selected. */
  function Pipeline(filter: Fields, opts: FindOptions, refs: Refs): seq<Value>
    requires NonEmpty(opts.populate)
  {
    [MatchStage(filter)] + PagingStages(opts) + LookupStages(opts.populate.value, refs) +
    (if NonEmpty(opts.select) then [ProjectStage(ProjectFields(opts.select.value, opts.populate.value))] else [])
  }

  /** The pipeline filters first, pages before any lookup (so only the documents of the
      page are joined), ends with the projection exactly when fields are selected, and
      holds one stage per paging option given. */
  lemma PipelineOrder(filter: Fields, opts: FindOptions, refs: Refs)
    requires NonEmpty(opts.populate)
    ensures var p := Pipeline(filter, opts, refs);
      var n := 1 + |PagingStages(opts)|;
      var lookups := LookupStages(opts.populate.value, refs);
      p[0] == MatchStage(filter) &&
      |PagingStages(opts)| == (if HasKeys(opts.sort) then 1 else 0) + (if opts.skip.Some? then 1 else 0) + (if opts.limit.Some? then 1 else 0) &&
      n + |lookups| <= |p| &&
      p[n..n + |lookups|] == lookups &&
      (NonEmpty(opts.select) <==> |p| == n + |lookups| + 1) &&
      (NonEmpty(opts.select) ==> p[|p| - 1] == ProjectStage(ProjectFields(opts.select.value, opts.populate.value)))
  {
    var p := Pipeline(filter, opts, refs);
    var n := 1 + |PagingStages(opts)|;
    var lookups := LookupStages(opts.populate.value, refs);
    var head := [MatchStage(filter)] + PagingStages(opts);
    assert p[..|head|] == head;
    assert p[n..n + |lookups|] == lookups;
  }

  /** What `findMany` sends: an aggregation when something is populated, otherwise a
      plain `find` with the selection as projection and the cursor options. */
  function FindManyCommand(filter: Fields, opts: FindOptions, refs: Refs): Command
  {
    if NonEmpty(opts.populate) then Aggregate(Pipeline(filter, opts, refs))
    else
      Find(filter,
        if NonEmpty(opts.select) then [("projection", Obj(Projection(opts.select.value)))] else [],
        if HasKeys(opts.sort) then opts.sort else None,
        opts.skip, opts.limit)
  }

  // ---------------------------------------------------------------- pagination

  /** `Math.ceil(a / b)` for a whole `a` and a positive whole `b`. */
  function CeilDiv(a: nat, b: int): nat
    requires b >= 1
  {
    (a + b - 1) / b
  }

  /** `CeilDiv(a, b)` is the least number of `b`-sized pages holding `a` items. */
  lemma CeilDivSpec(a: nat, b: int)
    requires b >= 1
    ensures CeilDiv(a, b) * b >= a
    ensures (CeilDiv(a, b) - 1) * b < a
  {
    var q, r := (a + b - 1) / b, (a + b - 1) % b;
    assert a + b - 1 == q * b + r;
    assert (q - 1) * b == q * b - b;
  }

  /** `x <= y` survives multiplying both sides by a non-negative factor. */
  lemma MulMonotone(x: int, y: int, b: int)
    requires x <= y && b >= 0
    ensures x * b <= y * b
  {
    assert y * b - x * b == (y - x) * b;
  }

  /** The response envelope of `find`. */
  function Envelope(docs: seq<Fields>, totalDocs: nat, limit: int, page: int): PaginatedResponse
    requires limit >= 1
  {
    var totalPages := CeilDiv(totalDocs, limit);
    PaginatedResponse(docs, totalDocs, limit, page, totalPages, page < totalPages, page > 1)
  }

  /** There is a next page exactly when the documents up to this page do not cover the
      total, and a previous page exactly when this is not the first; `totalPages` is 0
      only for an empty result. */
  lemma EnvelopeSpec(docs: seq<Fields>, totalDocs: nat, limit: int, page: int)
    requires limit >= 1
    ensures var r := Envelope(docs, totalDocs, limit, page);
      (r.hasNextPage <==> page * limit < totalDocs) &&
      (r.hasPrevPage <==> page > 1) &&
      (r.totalPages == 0 <==> totalDocs == 0) &&
      r.totalPages * limit >= totalDocs && (r.totalPages - 1) * limit < totalDocs
  {
    var q: int := CeilDiv(totalDocs, limit);
    CeilDivSpec(totalDocs, limit);
    if page < q {
      MulMonotone(page, q - 1, limit);
    } else {
      MulMonotone(q, page, limit);
    }
    if q == 0 {
      assert totalDocs <= 0;
    } else {
      MulMonotone(1, q, limit);
    }
  }

  /** `where ? convertWhereToMongo(where) : {}`; `None` where the compiler throws. */
  function WhereFilter(where: Option<Value>): Option<Fields>
  {
    if where.Some? && Truthy(where.value) then CompileWhere(where.value) else Some([])
  }

  /** The empty where-tree filters nothing, just as an absent one. */
  lemma EmptyWhereFiltersNothing()
    ensures WhereFilter(Some(Obj([]))) == WhereFilter(None) == Some([])
  {
    assert Entries(Obj([])) == Some([]);
  }

  /** The `findMany` options of one page. */
  function PageOptions(query: PaginatedQuery): FindOptions
  {
    FindOptions(Some((query.page - 1) * query.limit), Some(query.limit),
      Some(ConvertSortToMongo(query.sort)), query.select, query.populate)
  }

  /** The page a query asks the store for and the envelope it answers with agree: the
      store skips `(page - 1) * limit` documents (none on the first page) and returns at
      most `limit`, and the envelope announces a next page exactly when documents remain
      past that window. */
  lemma SkipOfPage(query: PaginatedQuery, docs: seq<Fields>, totalDocs: nat)
    requires query.limit >= 1 && query.page >= 1
    ensures PageOptions(query).skip.Some? && PageOptions(query).skip.value >= 0
    ensures query.page == 1 ==> PageOptions(query).skip == Some(0)
    ensures PageOptions(query).limit == Some(query.limit)
    ensures Envelope(docs, totalDocs, query.limit, query.page).hasNextPage <==>
      PageOptions(query).skip.value + query.limit < totalDocs
  {
    MulMonotone(0, query.page - 1, query.limit);
    assert query.page * query.limit == (query.page - 1) * query.limit + query.limit;
    EnvelopeSpec(docs, totalDocs, query.limit, query.page);
  }

  /** Only a non-empty sort string reaches the store as a sort. */
  lemma PageSortSent(query: PaginatedQuery)
    ensures HasKeys(PageOptions(query).sort) <==> query.sort.Some? && query.sort.value != []
  {
  }

  /** The `_id` filter of the by-id operations. */
  function IdFilter(ids: ObjectIdLib, id: string): Fields
  {
    [("_id", Oid(ids.fromString(id)))]
  }

  /** `{ ...doc, _id: insertedId }`. */
  function WithInsertedId(doc: Fields, id: IdValue): StoredDoc
  {
    PutGet(doc, "_id", id);
    Put(doc, "_id", id)
  }

  /** A created document comes back with `id` as the string of the inserted id and the
      rest of what was inserted, whatever `_id` or `id` the input carried. */
  lemma CreatedDoc(doc: Fields, id: IdValue)
    ensures Get(ToJson(WithInsertedId(doc, id), None), "id") == Some(Str(JsString(id).value))
    ensures "_id" !in Keys(ToJson(WithInsertedId(doc, id), None))
    ensures forall k :: k != "_id" && k != "id" ==> Get(ToJson(WithInsertedId(doc, id), None), k) == Get(doc, k)
  {
    PutGet(doc, "_id", id);
    ToJsonSpec(WithInsertedId(doc, id), None);
  }

  /** `{ $set: update }`. */
  function SetUpdate(update: Fields): Fields
  {
    [("$set", Obj(update))]
  }

  /** The pipeline `findMany` builds when something is populated. */
  method BuildPipeline(filter: Fields, opts: FindOptions, refs: Refs) returns (pipeline: seq<Value>)
    requires NonEmpty(opts.populate)
    ensures pipeline == Pipeline(filter, opts, refs)
  {
    var populate := opts.populate.value;
    pipeline := [MatchStage(filter)];
    if HasKeys(opts.sort) {
      pipeline := pipeline + [SortStage(opts.sort.value)];
    }
    if opts.skip.Some? {
      pipeline := pipeline + [SkipStage(opts.skip.value)];
    }
    if opts.limit.Some? {
      pipeline := pipeline + [LimitStage(opts.limit.value)];
    }
    assert pipeline == [MatchStage(filter)] + PagingStages(opts);
    var lookups := BuildLookupStages(populate, refs);
    pipeline := pipeline + lookups;
    if NonEmpty(opts.select) {
      var topLevel := Dedup(seq(|populate|, i requires 0 <= i < |populate| => TopLevel(populate[i])));
      var allFields := Dedup(opts.select.value + topLevel);
      var projection := BuildProjection(allFields);
      pipeline := pipeline + [Obj([("$project", Obj(projection))])];
    }
  }

  // ---------------------------------------------------------------- the repository

  class BaseRepository {
    const db: Db
    const collection: Collection
    const refs: Refs
    const ids: ObjectIdLib

    constructor(db: Db, collectionName: string, refs: Refs, ids: ObjectIdLib)
      ensures this.db == db && this.refs == refs && this.ids == ids
      ensures fresh(collection)
      ensures collection.name == collectionName && collection.server == db.server && collection.log == []
    {
      this.db := db;
      var c := db.Collection(collectionName);
      this.collection := c;
      this.refs := refs;
      this.ids := ids;
    }

    /** The reply to the command the collection receives next. */
    function Next(cmd: Command): Reply
      reads collection
    {
      collection.Answer(|collection.log|, cmd)
    }

    /** `findMany(filter, options)`. */
    method FindMany(filter: Fields, opts: FindOptions) returns (docs: seq<Fields>)
      modifies collection
      ensures collection.log == old(collection.log) + [FindManyCommand(filter, opts, refs)]
      ensures docs == ToJsonAll(old(Next(FindManyCommand(filter, opts, refs))).docs, opts.select)
    {
      if NonEmpty(opts.populate) {
        var pipeline := BuildPipeline(filter, opts, refs);
        var reply := collection.Send(Aggregate(pipeline));
        docs := ToJsonAll(reply.docs, opts.select);
        return;
      }
      var options: Fields := [];
      if NonEmpty(opts.select) {
        var projection := BuildProjection(opts.select.value);
        options := [("projection", Obj(projection))];
      }
      var cursor := collection.Find(filter, options);
      if HasKeys(opts.sort) {
        cursor.Sort(opts.sort.value);
      }
      if opts.skip.Some? {
        cursor.Skip(opts.skip.value);
      }
      if opts.limit.Some? {
        cursor.Limit(opts.limit.value);
      }
      var raw := cursor.ToArray();
      docs := ToJsonAll(raw, opts.select);
    }

    /** `find(query)`: counts the matching documents, then reads one page of them.
        `None` where the where-tree makes the compiler throw; nothing is sent then. */
    method Find(query: PaginatedQuery) returns (r: Option<PaginatedResponse>)
      requires query.limit >= 1
      modifies collection
      ensures WhereFilter(query.where).None? ==> r.None? && collection.log == old(collection.log)
      ensures WhereFilter(query.where).Some? ==>
        var filter := WhereFilter(query.where).value;
        var count := CountDocuments(filter);
        var read := FindManyCommand(filter, PageOptions(query), refs);
        var n := |old(collection.log)|;
        collection.log == old(collection.log) + [count, read] &&
        r == Some(Envelope(
          ToJsonAll(collection.Answer(n + 1, read).docs, query.select),
          collection.Answer(n, count).count,
          query.limit, query.page))
    {
      var filter: Fields := [];
      if query.where.Some? && Truthy(query.where.value) {
        var compiled := ConvertWhereToMongo(query.where.value);
        if compiled.None? {
          return None;
        }
        filter := compiled.value;
      }
      assert WhereFilter(query.where) == Some(filter);
      var sortObj := ConvertSortToMongo(query.sort);
      var totalDocs := Count(filter);
      var totalPages := CeilDiv(totalDocs, query.limit);
      var skip := (query.page - 1) * query.limit;
      var opts := FindOptions(Some(skip), Some(query.limit), Some(sortObj), query.select, query.populate);
      assert opts == PageOptions(query);
      var docs := FindMany(filter, opts);
      r := Some(PaginatedResponse(docs, totalDocs, query.limit, query.page, totalPages,
        query.page < totalPages, query.page > 1));
      assert r.value == Envelope(docs, totalDocs, query.limit, query.page);
    }

    /** `findOne(filter, options)`: through `findMany` with limit 1 when something is
        selected or populated, otherwise a plain `findOne`. */
    method FindOne(filter: Fields, select: Option<seq<string>>, populate: Option<seq<string>>)
      returns (doc: Option<Fields>)
      modifies collection
      ensures NonEmpty(populate) || NonEmpty(select) ==>
        var read := FindManyCommand(filter, FindOptions(None, Some(1), None, select, populate), refs);
        collection.log == old(collection.log) + [read] &&
        doc == First(ToJsonAll(old(Next(read)).docs, select))
      ensures !(NonEmpty(populate) || NonEmpty(select)) ==>
        collection.log == old(collection.log) + [Command.FindOne(filter)] &&
        var found := old(Next(Command.FindOne(filter))).doc;
        doc == if found.None? then None else Some(ToJson(found.value, None))
    {
      if NonEmpty(populate) || NonEmpty(select) {
        var docs := FindMany(filter, FindOptions(None, Some(1), None, select, populate));
        return First(docs);
      }
      var reply := collection.Send(Command.FindOne(filter));
      if reply.doc.None? {
        return None;
      }
      doc := Some(ToJson(reply.doc.value, None));
    }

    /** `findById(id, options)`: `None` without a read for an id that is not a valid
        ObjectId. */
    method FindById(id: string, select: Option<seq<string>>, populate: Option<seq<string>>)
      returns (doc: Option<Fields>)
      modifies collection
      ensures !ids.isValid(id) ==> doc.None? && collection.log == old(collection.log)
      ensures ids.isValid(id) ==>
        var read := FindManyCommand(IdFilter(ids, id), FindOptions(None, Some(1), None, select, populate), refs);
        collection.log == old(collection.log) + [read] &&
        doc == First(ToJsonAll(old(Next(read)).docs, select))
    {
      if !ids.isValid(id) {
        return None;
      }
      var filter := [("_id", Oid(ids.fromString(id)))];
      var docs := FindMany(filter, FindOptions(None, Some(1), None, select, populate));
      doc := First(docs);
    }

    /** `count(filter)`. */
    method Count(filter: Fields) returns (n: nat)
      modifies collection
      ensures collection.log == old(collection.log) + [CountDocuments(filter)]
      ensures n == old(Next(CountDocuments(filter))).count
    {
      var reply := collection.Send(CountDocuments(filter));
      n := reply.count;
    }

    /** `create(doc)`: the inserted document under the id the store gave it. */
    method Create(doc: Fields) returns (created: Fields)
      modifies collection
      ensures collection.log == old(collection.log) + [InsertOne(doc)]
      ensures created == ToJson(WithInsertedId(doc, old(Next(InsertOne(doc))).insertedId), None)
    {
      var reply := collection.Send(InsertOne(doc));
      created := ToJson(WithInsertedId(doc, reply.insertedId), None);
    }

    /** `updateOne(filter, update)`: whether a document was modified. */
    method UpdateOne(filter: Fields, update: Fields) returns (modified: bool)
      modifies collection
      ensures collection.log == old(collection.log) + [Command.UpdateOne(filter, SetUpdate(update))]
      ensures modified <==> old(Next(Command.UpdateOne(filter, SetUpdate(update)))).modifiedCount > 0
    {
      var reply := collection.Send(Command.UpdateOne(filter, SetUpdate(update)));
      modified := reply.modifiedCount > 0;
    }

    /** `updateById(id, update)`: `false` without a write for an invalid id. */
    method UpdateById(id: string, update: Fields) returns (modified: bool)
      modifies collection
      ensures !ids.isValid(id) ==> !modified && collection.log == old(collection.log)
      ensures ids.isValid(id) ==>
        var cmd := Command.UpdateOne(IdFilter(ids, id), SetUpdate(update));
        collection.log == old(collection.log) + [cmd] &&
        (modified <==> old(Next(cmd)).modifiedCount > 0)
    {
      if !ids.isValid(id) {
        return false;
      }
      modified := UpdateOne([("_id", Oid(ids.fromString(id)))], update);
    }

    /** `upsert(filter, update)`: the document after the update, inserting it when none
        matched; `None` where the store returns no document and `toJSON(null)` throws. */
    method Upsert(filter: Fields, update: Fields) returns (doc: Option<Fields>)
      modifies collection
      ensures collection.log == old(collection.log) + [FindOneAndUpdate(filter, SetUpdate(update), true, true)]
      ensures var found := old(Next(FindOneAndUpdate(filter, SetUpdate(update), true, true))).doc;
        doc == if found.None? then None else Some(ToJson(found.value, None))
    {
      var reply := collection.Send(FindOneAndUpdate(filter, SetUpdate(update), true, true));
      if reply.doc.None? {
        return None;
      }
      doc := Some(ToJson(reply.doc.value, None));
    }

    /** `deleteOne(filter)`: whether a document was deleted. */
    method DeleteOne(filter: Fields) returns (deleted: bool)
      modifies collection
      ensures collection.log == old(collection.log) + [Command.DeleteOne(filter)]
      ensures deleted <==> old(Next(Command.DeleteOne(filter))).deletedCount > 0
    {
      var reply := collection.Send(Command.DeleteOne(filter));
      deleted := reply.deletedCount > 0;
    }

    /** `deleteById(id)`: `false` without a write for an invalid id. */
    method DeleteById(id: string) returns (deleted: bool)
      modifies collection
      ensures !ids.isValid(id) ==> !deleted && collection.log == old(collection.log)
      ensures ids.isValid(id) ==>
        collection.log == old(collection.log) + [Command.DeleteOne(IdFilter(ids, id))] &&
        (deleted <==> old(Next(Command.DeleteOne(IdFilter(ids, id)))).deletedCount > 0)
    {
      if !ids.isValid(id) {
        return false;
      }
      deleted := DeleteOne([("_id", Oid(ids.fromString(id)))]);
    }
  }
}
