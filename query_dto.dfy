/** Request normalisation of the common package: the `where` parameter, the
    comma-separated `select`/`populate` lists, the bounds and defaults of `limit` and
    `page`, and the shapes of a paginated query and of its response. */
module QueryDto {
  import opened Js

  // ---------------------------------------------------------------- where

  /** What the `where` query parameter can arrive as: absent, text, a record
      (`where[name]=x`), or an array (a repeated `where`). */
  datatype WhereInput = NoWhere | WhereText(text: string) | WhereRecord(fields: Fields) | WhereList(items: seq<Value>)

  /** `typeof v === 'object' && v !== null`: arrays and ObjectIds are objects too. */
  predicate IsJsObject(v: Value)
  {
    v.Obj? || v.Arr? || v.Oid?
  }

  /** `parseWhereParam`; `parse` stands for `JSON.parse`, `None` where it throws. */
  function ParseWhereParam(where: WhereInput, parse: string -> Option<Value>): (r: Option<Value>)
    ensures r.Some? ==> IsJsObject(r.value)
    ensures where.NoWhere? ==> r == None
    ensures where.WhereList? ==> (r.Some? <==> |where.items| > 0) && (r.Some? ==> r.value == Arr(where.items))
    ensures where.WhereRecord? ==> (r.Some? <==> |where.fields| > 0) && (r.Some? ==> r.value == Obj(where.fields))
    ensures where.WhereText? ==>
      (r.Some? <==> where.text != [] && parse(where.text).Some? && IsJsObject(parse(where.text).value)) &&
      (r.Some? ==> r == parse(where.text))
  {
    match where
    case NoWhere => None
    case WhereRecord(fs) => if |fs| > 0 then Some(Obj(fs)) else None
    case WhereList(items) => if |items| > 0 then Some(Arr(items)) else None
    case WhereText(s) =>
      if s == [] then None
      else
        match parse(s)
        case None => None
        case Some(v) => if IsJsObject(v) then Some(v) else None
  }

  /** A record is kept only when it has a key: an empty record is never a where-tree. */
  lemma EmptyRecordDropped(parse: string -> Option<Value>)
    ensures ParseWhereParam(WhereRecord([]), parse) == None
  {
  }

  /** The text `{}` that parses to the empty object is kept: only records are checked
      for emptiness. */
  lemma EmptyObjectTextKept(parse: string -> Option<Value>)
    requires parse("{}") == Some(Obj([]))
    ensures ParseWhereParam(WhereText("{}"), parse) == Some(Obj([]))
  {
  }

  /** Text that does not parse, or parses to `null` or to a scalar, gives no where-tree. */
  lemma BadTextDropped(text: string, parse: string -> Option<Value>)
    requires parse(text).None? || !IsJsObject(parse(text).value)
    ensures ParseWhereParam(WhereText(text), parse) == None
  {
  }

  // ---------------------------------------------------------------- csv lists

  /** What `select` and `populate` can arrive as: absent, one string, or a repeated
      parameter. */
  datatype CsvInput = NoCsv | CsvText(text: string) | CsvList(items: seq<string>)

  /** `select`/`populate` as they arrive: a shape `string | string[]` accepts, or
      anything else (a record, a list holding a record). */
  datatype CsvParam = Csv(input: CsvInput) | NotCsv

  /** `items.flatMap(v => v.split(','))`. */
  function SplitAll(items: seq<string>): seq<string>
  {
    if |items| == 0 then []
    else SplitAll(items[..|items| - 1]) + Split(items[|items| - 1], ',')
  }

  /** The `csvToArray` transform: absent or empty text gives nothing; any list, even an
      empty one, is split element by element. */
  function CsvToArray(val: CsvInput): Option<seq<string>>
  {
    match val
    case NoCsv => None
    case CsvText(s) => if s == [] then None else Some(Split(s, ','))
    case CsvList(items) => Some(SplitAll(items))
  }

  /** No element of a split list holds a comma, and there is at least one element per
      input string. */
  lemma {:induction false} SplitAllSpec(items: seq<string>)
    ensures |SplitAll(items)| >= |items|
    ensures forall i :: 0 <= i < |SplitAll(items)| ==> ',' !in SplitAll(items)[i]
  {
    if |items| > 0 {
      var p := items[..|items| - 1];
      SplitAllSpec(p);
      SplitParts(items[|items| - 1], ',');
      var a, b := SplitAll(p), Split(items[|items| - 1], ',');
      assert forall i :: |a| <= i < |a + b| ==> (a + b)[i] == b[i - |a|];
    }
  }

  /** The length half of `SplitAllSpec`, without its quantifier. */
  lemma SplitAllLength(items: seq<string>)
    ensures |SplitAll(items)| >= |items|
  {
    SplitAllSpec(items);
  }

  /** Joining the split list with commas gives the input strings joined with commas. */
  lemma {:induction false} SplitAllJoin(items: seq<string>)
    ensures Join(SplitAll(items), ',') == Join(items, ',')
  {
    if |items| > 0 {
      var p, x := items[..|items| - 1], items[|items| - 1];
      SplitAllJoin(p);
      JoinSplit(x, ',');
      if |p| == 0 {
        assert SplitAll(items) == Split(x, ',');
      } else {
        SplitAllLength(p);
        JoinConcat(SplitAll(p), Split(x, ','), ',');
        JoinConcat(p, [x], ',');
        assert items == p + [x];
      }
    }
  }

  /** `csvToArray` never yields an element with a comma, and joining what it yields with
      commas gives back the input text, or the input strings joined with commas. */
  lemma CsvToArraySpec(val: CsvInput)
    ensures var r := CsvToArray(val);
      r.Some? ==> forall i :: 0 <= i < |r.value| ==> ',' !in r.value[i]
    ensures val.CsvText? && val.text != [] ==> Join(CsvToArray(val).value, ',') == val.text
    ensures val.CsvList? ==> Join(CsvToArray(val).value, ',') == Join(val.items, ',')
    ensures CsvToArray(val).None? <==> val.NoCsv? || val == CsvText([])
  {
    match val
    case NoCsv =>
    case CsvText(s) =>
      if s != [] {
        SplitParts(s, ',');
        JoinSplit(s, ',');
      }
    case CsvList(items) =>
      SplitAllSpec(items);
      SplitAllJoin(items);
  }

  // ---------------------------------------------------------------- limit and page

  /** A number after `z.coerce.number()`: an integer, or anything that fails `.int()`
      (a fraction, `NaN`, an infinity). */
  datatype JsNumber = Int(i: int) | NotInteger

  /** `limit`: an integer from 1 to 100, 10 when absent; `None` where validation fails. */
  function ValidateLimit(limit: Option<JsNumber>): (r: Option<int>)
    ensures r.Some? ==> 1 <= r.value <= 100
    ensures limit.None? ==> r == Some(10)
    ensures limit.Some? ==> (r.Some? <==> limit.value.Int? && 1 <= limit.value.i <= 100)
    ensures limit.Some? && r.Some? ==> r.value == limit.value.i
  {
    match limit
    case None => Some(10)
    case Some(NotInteger) => None
    case Some(Int(i)) => if 1 <= i <= 100 then Some(i) else None
  }

  /** `page`: a positive integer, 1 when absent; `None` where validation fails. */
  function ValidatePage(page: Option<JsNumber>): (r: Option<int>)
    ensures r.Some? ==> r.value >= 1
    ensures page.None? ==> r == Some(1)
    ensures page.Some? ==> (r.Some? <==> page.value.Int? && page.value.i >= 1)
    ensures page.Some? && r.Some? ==> r.value == page.value.i
  {
    match page
    case None => Some(1)
    case Some(NotInteger) => None
    case Some(Int(i)) => if i >= 1 then Some(i) else None
  }

  // ---------------------------------------------------------------- query and response

  /** A validated paginated query. */
  datatype PaginatedQuery = PaginatedQuery(
    where: Option<Value>,
    sort: Option<string>,
    limit: int,
    page: int,
    select: Option<seq<string>>,
    populate: Option<seq<string>>)

  /** One page of results with its pagination envelope. */
  datatype PaginatedResponse = PaginatedResponse(
    docs: seq<Fields>,
    totalDocs: nat,
    limit: int,
    page: int,
    totalPages: int,
    hasNextPage: bool,
    hasPrevPage: bool)

  /** What `sort` can arrive as: absent, text, or anything else (a repeated `sort`, a
      record). */
  datatype SortInput = NoSort | SortText(text: string) | NotSortText

  /** The query parameters as they arrive. */
  datatype RawQuery = RawQuery(
    where: WhereInput,
    sort: SortInput,
    limit: Option<JsNumber>,
    page: Option<JsNumber>,
    select: CsvParam,
    populate: CsvParam)

  /** `PaginatedQuerySchema.parse`; `None` where validation fails. */
  function ValidateQuery(raw: RawQuery, parse: string -> Option<Value>): Option<PaginatedQuery>
  {
    if ShapeRejected(raw) then None
    else
      match (ValidateLimit(raw.limit), ValidatePage(raw.page))
      case (Some(limit), Some(page)) =>
        var sort := if raw.sort.SortText? then Some(raw.sort.text) else None;
        Some(PaginatedQuery(ParseWhereParam(raw.where, parse), sort, limit, page,
          CsvToArray(raw.select.input), CsvToArray(raw.populate.input)))
      case _ => None
  }

  /** A parameter of a shape its schema refuses: `where` that is neither text nor a
      record, `sort` that is not text, `select`/`populate` that are neither text nor a
      list of texts. */
  predicate ShapeRejected(raw: RawQuery)
  {
    raw.where.WhereList? || raw.sort.NotSortText? || raw.select.NotCsv? || raw.populate.NotCsv?
  }

  /** A query that passes validation has a limit from 1 to 100 and a positive page, no
      empty where record, and no comma inside a selected field or populate path. */
  lemma ValidQuery(raw: RawQuery, parse: string -> Option<Value>)
    requires ValidateQuery(raw, parse).Some?
    ensures var q := ValidateQuery(raw, parse).value;
      1 <= q.limit <= 100 && q.page >= 1 &&
      (q.where.Some? ==> IsJsObject(q.where.value)) &&
      (q.where.Some? ==> raw.where.WhereText? || q.where.value.Obj?) &&
      (raw.where.WhereRecord? && q.where.Some? ==> q.where.value != Obj([])) &&
      (q.sort.Some? <==> raw.sort.SortText?) &&
      (q.select.Some? ==> forall i :: 0 <= i < |q.select.value| ==> ',' !in q.select.value[i]) &&
      (q.populate.Some? ==> forall i :: 0 <= i < |q.populate.value| ==> ',' !in q.populate.value[i])
  {
    CsvToArraySpec(raw.select.input);
    CsvToArraySpec(raw.populate.input);
  }

  /** Validation fails exactly when a parameter has a shape its schema refuses, or when
      `limit` or `page` fails. */
  lemma ValidateQueryFails(raw: RawQuery, parse: string -> Option<Value>)
    ensures ValidateQuery(raw, parse).None? <==>
      ShapeRejected(raw) || ValidateLimit(raw.limit).None? || ValidatePage(raw.page).None?
  {
  }
}
