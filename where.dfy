/** The where-tree compiler of the Mongo package: a portable filter tree
    (field -> literal | operator object | nested where, plus `and`/`or` lists)
    becomes a MongoDB filter document. */
module WhereCompiler {
  import opened Js

  /** The eleven portable operators and the Mongo operator each becomes. */
  const OperatorMap: map<string, string> := map[
    "equals" := "$eq",
    "not_equals" := "$ne",
    "greater_than" := "$gt",
    "greater_than_equal" := "$gte",
    "less_than" := "$lt",
    "less_than_equal" := "$lte",
    "like" := "$regex",
    "contains" := "$regex",
    "in" := "$in",
    "not_in" := "$nin",
    "exists" := "$exists"
  ]

  /** Every key a compiled operator object can hold. */
  const MongoOperators: set<string> := {"$eq", "$ne", "$gt", "$gte", "$lt", "$lte", "$regex", "$options", "$in", "$nin", "$exists"}

  predicate IsOperator(k: string)
  {
    k in OperatorMap
  }

  /** `like` and `contains` both become a case-insensitive pattern match. */
  predicate IsPattern(op: string)
  {
    op == "like" || op == "contains"
  }

  /** A value object is an operator object when at least one of its keys is an operator. */
  predicate IsOperatorObject(keys: seq<string>)
  {
    exists i :: 0 <= i < |keys| && IsOperator(keys[i])
  }

  /** Every operator becomes a Mongo operator other than `$options`, and it becomes
      `$regex` exactly when it is `like` or `contains`. */
  lemma OperatorMapRange(op: string)
    requires IsOperator(op)
    ensures OperatorMap[op] in MongoOperators && OperatorMap[op] != "$options"
    ensures OperatorMap[op] == "$regex" <==> IsPattern(op)
  {
  }

  /** Distinct operators other than `like`/`contains` become distinct Mongo operators. */
  lemma OperatorMapInjective(a: string, b: string)
    requires IsOperator(a) && IsOperator(b) && a != b && !(IsPattern(a) && IsPattern(b))
    ensures OperatorMap[a] != OperatorMap[b]
  {
  }

  /** One operator of an operator object, as a Mongo operator fragment; `None` where
      `String(value)` throws on the operand of `like`/`contains`. */
  function ConvertOperatorValue(op: string, value: Value): (r: Option<Fields>)
    requires IsOperator(op)
    ensures r.None? <==> IsPattern(op) && !Printable(value)
    ensures r.Some? ==> UniqueKeys(r.value)
    ensures r.Some? ==> forall k :: k in Keys(r.value) ==> k in MongoOperators
    ensures r.Some? && IsPattern(op) ==> JsString(value).Some? && Get(r.value, "$regex") == Some(Str(JsString(value).value))
    ensures r.Some? && !IsPattern(op) ==> Get(r.value, OperatorMap[op]) == Some(value)
    ensures r.Some? ==> ("$options" in Keys(r.value) <==> IsPattern(op))
    ensures r.Some? && IsPattern(op) ==> Get(r.value, "$options") == Some(Str("i"))
    ensures r.Some? ==> Keys(r.value) == if IsPattern(op) then ["$regex", "$options"] else [OperatorMap[op]]
  {
    if IsPattern(op) then
      JsStringThrows(value);
      match JsString(value)
      case None => None
      case Some(s) =>
        var r := [("$regex", Str(s)), ("$options", Str("i"))];
        assert Keys(r) == ["$regex", "$options"];
        Some(r)
    else
      var r := [(OperatorMap[op], value)];
      assert Keys(r) == [OperatorMap[op]];
      Some(r)
  }

  /** Converting one operator leaves the Mongo name of any other non-pattern operator free. */
  lemma OtherOperatorUntouched(op: string, value: Value, other: string)
    requires IsOperator(op) && IsOperator(other) && op != other && !IsPattern(other)
    ensures ConvertOperatorValue(op, value).Some? ==> OperatorMap[other] !in Keys(ConvertOperatorValue(op, value).value)
  {
    OperatorMapInjective(other, op);
    OperatorMapRange(other);
  }

  /** The merged Mongo operator object: every operator key of `ops`, in order,
      assigned with `Object.assign`; other keys are dropped. `None` where converting
      one of the operators throws, which aborts the merge. */
  function MergeOperators(ops: Fields): Option<Fields>
  {
    if |ops| == 0 then Some([])
    else
      match MergeOperators(ops[..|ops| - 1])
      case None => None
      case Some(prev) =>
        var (op, v) := ops[|ops| - 1];
        if !IsOperator(op) then Some(prev)
        else
          match ConvertOperatorValue(op, v)
          case None => None
          case Some(c) => Some(Assign(prev, c))
  }

  /** Every `like`/`contains` operand can be turned into a string. */
  predicate PatternsPrintable(ops: Fields)
  {
    forall i :: 0 <= i < |ops| && IsPattern(ops[i].0) ==> Printable(ops[i].1)
  }

  /** A merge that does not throw is its prefix merged, with the last operator, if it
      is one, converted and assigned. */
  lemma MergeSomeLast(ops: Fields)
    requires |ops| > 0 && MergeOperators(ops).Some?
    ensures MergeOperators(ops[..|ops| - 1]).Some?
    ensures var (op, v) := ops[|ops| - 1]; var prev := MergeOperators(ops[..|ops| - 1]).value;
      if IsOperator(op) then ConvertOperatorValue(op, v).Some? && MergeOperators(ops).value == Assign(prev, ConvertOperatorValue(op, v).value)
      else MergeOperators(ops).value == prev
  {
  }

  /** Merging throws exactly when some `like`/`contains` operand cannot be turned into
      a string. */
  lemma {:induction false} MergeOperatorsThrows(ops: Fields)
    ensures MergeOperators(ops).Some? <==> PatternsPrintable(ops)
  {
    if |ops| > 0 {
      var p := ops[..|ops| - 1];
      var (op, v) := ops[|ops| - 1];
      MergeOperatorsThrows(p);
      assert forall i :: 0 <= i < |p| ==> p[i] == ops[i];
      assert PatternsPrintable(ops) <==> PatternsPrintable(p) && (IsPattern(op) ==> Printable(v));
    }
  }

  /** The value of the last `like`/`contains` key, the one whose pattern survives. */
  function LastPattern(ops: Fields): Option<Value>
  {
    if |ops| == 0 then None
    else if IsPattern(ops[|ops| - 1].0) then Some(ops[|ops| - 1].1)
    else LastPattern(ops[..|ops| - 1])
  }

  predicate HasPattern(ops: Fields)
  {
    exists i :: 0 <= i < |ops| && IsPattern(ops[i].0)
  }

  /** The Mongo key that operator key `op` contributes. */
  predicate Contributes(ops: Fields, k: string)
  {
    exists i :: 0 <= i < |ops| && IsOperator(ops[i].0) && OperatorMap[ops[i].0] == k
  }

  lemma UniqueKeysPrefix(fs: Fields)
    requires |fs| > 0 && UniqueKeys(fs)
    ensures UniqueKeys(fs[..|fs| - 1]) && fs[|fs| - 1].0 !in Keys(fs[..|fs| - 1])
  {
    var p := fs[..|fs| - 1];
    KeysAt(p);
    KeysAt(fs);
    assert forall i :: 0 <= i < |p| ==> Keys(p)[i] == Keys(fs)[i];
    assert Keys(fs)[|p|] == fs[|p|].0;
  }

  /** The Mongo names contributed by `ops` are those of its prefix and of its last key. */
  lemma ContributesStep(ops: Fields)
    requires |ops| > 0
    ensures forall k :: Contributes(ops, k) <==>
      Contributes(ops[..|ops| - 1], k) || (IsOperator(ops[|ops| - 1].0) && OperatorMap[ops[|ops| - 1].0] == k)
  {
    var p := ops[..|ops| - 1];
    forall k ensures Contributes(ops, k) <==> Contributes(p, k) || (IsOperator(ops[|ops| - 1].0) && OperatorMap[ops[|ops| - 1].0] == k) {
      if Contributes(ops, k) && !Contributes(p, k) {
        assert forall i :: 0 <= i < |p| ==> p[i] == ops[i];
      }
      if Contributes(p, k) {
        var i :| 0 <= i < |p| && IsOperator(p[i].0) && OperatorMap[p[i].0] == k;
        assert ops[i] == p[i];
      }
    }
  }

  lemma HasPatternLast(ops: Fields)
    requires |ops| > 0
    ensures HasPattern(ops) <==> HasPattern(ops[..|ops| - 1]) || IsPattern(ops[|ops| - 1].0)
  {
    var p := ops[..|ops| - 1];
    assert forall i :: 0 <= i < |p| ==> p[i] == ops[i];
    if HasPattern(ops) && !IsPattern(ops[|ops| - 1].0) {
      var i :| 0 <= i < |ops| && IsPattern(ops[i].0);
      assert i < |p| && IsPattern(p[i].0);
    }
  }

  /** A merged operator object holds only Mongo operators, each once: exactly those
      the operator keys contribute, plus `$options` when a pattern is present. */
  lemma {:induction false} MergeOperatorsKeys(ops: Fields)
    requires MergeOperators(ops).Some?
    ensures UniqueKeys(MergeOperators(ops).value)
    ensures forall k :: k in Keys(MergeOperators(ops).value) ==> k in MongoOperators
    ensures forall k :: k in Keys(MergeOperators(ops).value) <==> Contributes(ops, k) || (k == "$options" && HasPattern(ops))
  {
    if |ops| > 0 {
      var p := ops[..|ops| - 1];
      var (op, v) := ops[|ops| - 1];
      MergeSomeLast(ops);
      MergeOperatorsKeys(p);
      HasPatternLast(ops);
      ContributesStep(ops);
      if IsOperator(op) {
        var prev, c := MergeOperators(p).value, ConvertOperatorValue(op, v).value;
        OperatorMapRange(op);
        AssignUnique(prev, c);
        AssignKeys(prev, c);
      }
    }
  }

  /** With distinct input keys, every operator other than `like`/`contains` reads
      back its own operand under its Mongo name. */
  lemma {:induction false} MergeOperatorsValue(ops: Fields, i: nat)
    requires UniqueKeys(ops) && i < |ops| && IsOperator(ops[i].0) && !IsPattern(ops[i].0)
    requires MergeOperators(ops).Some?
    ensures Get(MergeOperators(ops).value, OperatorMap[ops[i].0]) == Some(ops[i].1)
    decreases |ops|
  {
    var p := ops[..|ops| - 1];
    var (op, v) := ops[|ops| - 1];
    MergeSomeLast(ops);
    var prev := MergeOperators(p).value;
    if i == |ops| - 1 {
      AssignGet(prev, ConvertOperatorValue(op, v).value);
    } else {
      UniqueKeysPrefix(ops);
      assert p[i] == ops[i];
      MergeOperatorsValue(p, i);
      if IsOperator(op) {
        KeysAt(ops);
        assert Keys(ops)[i] != Keys(ops)[|ops| - 1];
        OtherOperatorUntouched(op, v, ops[i].0);
        AssignGet(prev, ConvertOperatorValue(op, v).value);
      }
    }
  }

  /** `$regex` holds the text of the last `like`/`contains` operand, and `$options`
      is `"i"` as soon as one is present. */
  lemma MergeOperatorsPattern(ops: Fields)
    requires MergeOperators(ops).Some?
    ensures LastPattern(ops).None? ==> Get(MergeOperators(ops).value, "$regex") == None
    ensures LastPattern(ops).Some? ==>
      JsString(LastPattern(ops).value).Some? &&
      Get(MergeOperators(ops).value, "$regex") == Some(Str(JsString(LastPattern(ops).value).value))
    ensures HasPattern(ops) ==> Get(MergeOperators(ops).value, "$options") == Some(Str("i"))
  {
    MergeRegex(ops);
    if HasPattern(ops) {
      var i :| 0 <= i < |ops| && IsPattern(ops[i].0);
      MergeOptions(ops, i);
    }
  }

  lemma {:induction false} MergeRegex(ops: Fields)
    requires MergeOperators(ops).Some?
    ensures LastPattern(ops).None? ==> Get(MergeOperators(ops).value, "$regex") == None
    ensures LastPattern(ops).Some? ==>
      JsString(LastPattern(ops).value).Some? &&
      Get(MergeOperators(ops).value, "$regex") == Some(Str(JsString(LastPattern(ops).value).value))
  {
    if |ops| > 0 {
      var p := ops[..|ops| - 1];
      var (op, v) := ops[|ops| - 1];
      MergeSomeLast(ops);
      MergeRegex(p);
      if IsOperator(op) {
        OperatorMapRange(op);
        JsStringThrows(v);
        AssignGet(MergeOperators(p).value, ConvertOperatorValue(op, v).value);
      }
    }
  }

  lemma {:induction false} MergeOptions(ops: Fields, i: nat)
    requires i < |ops| && IsPattern(ops[i].0) && MergeOperators(ops).Some?
    ensures Get(MergeOperators(ops).value, "$options") == Some(Str("i"))
  {
    var p := ops[..|ops| - 1];
    var (op, v) := ops[|ops| - 1];
    MergeSomeLast(ops);
    if i < |p| {
      assert p[i] == ops[i];
      MergeOptions(p, i);
    }
    if IsOperator(op) {
      AssignGet(MergeOperators(p).value, ConvertOperatorValue(op, v).value);
    }
  }

  // ---------------------------------------------------------------- the compiler

  /** The key a where entry compiles under: `and`/`or` holding a list become `$and`/`$or`. */
  function OutKey(k: string, x: Value): string
  {
    if k == "and" && x.Arr? then "$and"
    else if k == "or" && x.Arr? then "$or"
    else k
  }

  /** Every value of `fs` nests at most `bound` deep. Recursive rather than quantified,
      so that the compilers' preconditions stay cheap to check. */
  predicate FieldsWithin(fs: Fields, bound: nat)
  {
    |fs| == 0 || (FieldsWithin(fs[..|fs| - 1], bound) && Depth(fs[|fs| - 1].1) <= bound)
  }

  lemma {:induction false} FieldsWithinAll(fs: Fields, bound: nat)
    ensures FieldsWithin(fs, bound) <==> forall i :: 0 <= i < |fs| ==> Depth(fs[i].1) <= bound
  {
    if |fs| > 0 {
      var p := fs[..|fs| - 1];
      FieldsWithinAll(p, bound);
      assert forall i :: 0 <= i < |p| ==> p[i] == fs[i];
    }
  }

  lemma {:induction false} FieldsWithinMono(fs: Fields, b1: nat, b2: nat)
    requires FieldsWithin(fs, b1) && b1 <= b2
    ensures FieldsWithin(fs, b2)
  {
    if |fs| > 0 {
      FieldsWithinMono(fs[..|fs| - 1], b1, b2);
    }
  }

  lemma {:induction false} FieldsWithinPrefix(fs: Fields, j: nat, bound: nat)
    requires FieldsWithin(fs, bound) && j <= |fs|
    ensures FieldsWithin(fs[..j], bound)
    decreases |fs|
  {
    if j < |fs| {
      var p := fs[..|fs| - 1];
      assert p[..j] == fs[..j];
      FieldsWithinPrefix(p, j, bound);
    } else {
      assert fs[..j] == fs;
    }
  }

  /** The entries of any value nest no deeper than it does. */
  lemma EntriesWithinSelf(v: Value)
    requires !v.Null?
    ensures FieldsWithin(Entries(v).value, Depth(v))
  {
    EntriesSpec(v);
    FieldsWithinAll(Entries(v).value, Depth(v));
  }

  /** The entries of an array or an object nest less deeply than it does. */
  lemma EntriesWithin(x: Value)
    requires x.Arr? || x.Obj?
    ensures Depth(x) >= 1 && FieldsWithin(Entries(x).value, Depth(x) - 1)
  {
    EntriesSpec(x);
    FieldsWithinAll(Entries(x).value, Depth(x) - 1);
  }

  /** Every item nests at most `bound` deep. */
  predicate ItemsWithin(items: seq<Value>, bound: nat)
  {
    |items| == 0 || (ItemsWithin(items[..|items| - 1], bound) && Depth(items[|items| - 1]) <= bound)
  }

  lemma {:induction false} ItemsWithinAll(items: seq<Value>, bound: nat)
    ensures ItemsWithin(items, bound) <==> forall i :: 0 <= i < |items| ==> Depth(items[i]) <= bound
  {
    if |items| > 0 {
      var p := items[..|items| - 1];
      ItemsWithinAll(p, bound);
      assert forall i :: 0 <= i < |p| ==> p[i] == items[i];
    }
  }

  lemma {:induction false} ItemsWithinPrefix(items: seq<Value>, j: nat, bound: nat)
    requires ItemsWithin(items, bound) && j <= |items|
    ensures ItemsWithin(items[..j], bound)
    decreases |items|
  {
    if j < |items| {
      var p := items[..|items| - 1];
      assert p[..j] == items[..j];
      ItemsWithinPrefix(p, j, bound);
    } else {
      assert items[..j] == items;
    }
  }

  /** The items of an array nest less deeply than it does. */
  lemma ItemsWithinArr(x: Value)
    requires x.Arr?
    ensures Depth(x) >= 1 && ItemsWithin(x.items, Depth(x) - 1)
  {
    ItemsDepthBound(x.items);
    ItemsWithinAll(x.items, Depth(x) - 1);
  }

  /** `convertWhereToMongo(v)` as a value; `None` where it throws (`Object.entries(null)`). */
  function CompileWhere(v: Value): Option<Fields>
    decreases Depth(v), 2
  {
    match Entries(v)
    case None => None
    case Some(es) =>
      EntriesWithinSelf(v);
      CompileFields(es, Depth(v))
  }

  /** The loop over `Object.entries(where)`, filling `result` entry by entry. */
  function CompileFields(fs: Fields, ghost bound: nat): Option<Fields>
    requires FieldsWithin(fs, bound)
    decreases bound, 1, |fs|
  {
    if |fs| == 0 then Some([])
    else
      match CompileFields(fs[..|fs| - 1], bound)
      case None => None
      case Some(acc) =>
        match CompileEntry(fs[|fs| - 1].0, fs[|fs| - 1].1)
        case None => None
        case Some(e) => Some(Put(acc, e.0, e.1))
  }

  /** One entry of the where-tree: its output key and compiled value. */
  function CompileEntry(k: string, x: Value): Option<(string, Value)>
    decreases Depth(x), 0
  {
    if (k == "and" || k == "or") && x.Arr? then
      ItemsWithinArr(x);
      match CompileAll(x.items, Depth(x) - 1)
      case None => None
      case Some(rs) => Some((OutKey(k, x), Arr(rs)))
    else if x.Arr? || x.Obj? then
      var es := Entries(x).value;
      EntriesWithin(x);
      if IsOperatorObject(Keys(es)) then
        match MergeOperators(es)
        case None => None
        case Some(merged) => Some((k, Obj(merged)))
      else
        match CompileFields(es, Depth(x) - 1)
        case None => None
        case Some(nested) => Some((k, Obj(nested)))
    else Some((k, Obj([("$eq", x)])))
  }

  /** `conditions.map(convertWhereToMongo)`. */
  function CompileAll(items: seq<Value>, ghost bound: nat): Option<seq<Value>>
    requires ItemsWithin(items, bound)
    decreases bound, 3, |items|
  {
    if |items| == 0 then Some([])
    else
      match CompileAll(items[..|items| - 1], bound)
      case None => None
      case Some(rs) =>
        match CompileWhere(items[|items| - 1])
        case None => None
        case Some(f) => Some(rs + [Obj(f)])
  }

  /** The bound only steers termination: it does not change what is compiled. */
  lemma {:induction false} CompileFieldsBound(fs: Fields, b1: nat, b2: nat)
    requires FieldsWithin(fs, b1) && FieldsWithin(fs, b2)
    ensures CompileFields(fs, b1) == CompileFields(fs, b2)
    decreases |fs|
  {
    if |fs| > 0 {
      CompileFieldsBound(fs[..|fs| - 1], b1, b2);
    }
  }

  /** Once an entry throws, the whole where-tree throws. */
  lemma {:induction false} CompileFieldsPrefixNone(fs: Fields, j: nat, bound: nat)
    requires j <= |fs|
    requires FieldsWithin(fs, bound) && FieldsWithin(fs[..j], bound)
    requires CompileFields(fs[..j], bound).None?
    ensures CompileFields(fs, bound).None?
    decreases |fs| - j
  {
    if j == |fs| {
      assert fs[..j] == fs;
    } else {
      var p := fs[..|fs| - 1];
      assert p[..j] == fs[..j];
      CompileFieldsPrefixNone(p, j, bound);
    }
  }

  /** A where-tree that compiles is its prefix compiled, with the last entry compiled
      and assigned to it. */
  lemma CompileFieldsLast(fs: Fields, bound: nat)
    requires |fs| > 0 && FieldsWithin(fs, bound) && CompileFields(fs, bound).Some?
    ensures FieldsWithin(fs[..|fs| - 1], bound)
    ensures CompileFields(fs[..|fs| - 1], bound).Some? && CompileEntry(fs[|fs| - 1].0, fs[|fs| - 1].1).Some?
    ensures var e := CompileEntry(fs[|fs| - 1].0, fs[|fs| - 1].1).value;
      CompileFields(fs, bound).value == Put(CompileFields(fs[..|fs| - 1], bound).value, e.0, e.1)
  {
  }

  /** One more entry of the loop: compile it and assign it to the result so far. */
  lemma CompileFieldsStep(fs: Fields, i: nat, bound: nat, acc: Fields)
    requires FieldsWithin(fs, bound) && i < |fs|
    requires FieldsWithin(fs[..i], bound) && CompileFields(fs[..i], bound) == Some(acc)
    ensures FieldsWithin(fs[..i + 1], bound)
    ensures CompileFields(fs[..i + 1], bound) ==
      match CompileEntry(fs[i].0, fs[i].1)
      case None => None
      case Some(e) => Some(Put(acc, e.0, e.1))
  {
    FieldsWithinPrefix(fs, i + 1, bound);
    assert fs[..i + 1][..i] == fs[..i];
  }

  /** One more condition of an `and`/`or` list. */
  lemma CompileAllStep(items: seq<Value>, i: nat, bound: nat, out: seq<Value>)
    requires ItemsWithin(items, bound) && i < |items|
    requires ItemsWithin(items[..i], bound) && CompileAll(items[..i], bound) == Some(out)
    ensures ItemsWithin(items[..i + 1], bound) && Depth(items[i]) <= bound
    ensures CompileAll(items[..i + 1], bound) ==
      match CompileWhere(items[i])
      case None => None
      case Some(f) => Some(out + [Obj(f)])
  {
    ItemsWithinPrefix(items, i + 1, bound);
    assert items[..i + 1][..i] == items[..i] && items[..i + 1][i] == items[i];
  }

  /** Once a condition throws, the whole `and`/`or` list throws. */
  lemma {:induction false} CompileAllPrefixNone(items: seq<Value>, j: nat, bound: nat)
    requires j <= |items|
    requires ItemsWithin(items, bound) && ItemsWithin(items[..j], bound)
    requires CompileAll(items[..j], bound).None?
    ensures CompileAll(items, bound).None?
    decreases |items| - j
  {
    if j == |items| {
      assert items[..j] == items;
    } else {
      var p := items[..|items| - 1];
      assert p[..j] == items[..j];
      CompileAllPrefixNone(p, j, bound);
    }
  }

  // ---------------------------------------------------------------- what the compiler computes

  /** The output keys of the entries of a where-tree, in order. */
  function OutKeys(fs: Fields): (ks: seq<string>)
    ensures |ks| == |fs|
  {
    seq(|fs|, i requires 0 <= i < |fs| => OutKey(fs[i].0, fs[i].1))
  }

  predicate EntriesCompile(fs: Fields)
  {
    forall i :: 0 <= i < |fs| ==> CompileEntry(fs[i].0, fs[i].1).Some?
  }

  /** A where-tree compiles exactly when every one of its entries does. */
  lemma {:induction false} CompileFieldsSome(fs: Fields, bound: nat)
    requires FieldsWithin(fs, bound)
    ensures CompileFields(fs, bound).Some? <==> EntriesCompile(fs)
    decreases |fs|
  {
    if |fs| > 0 {
      CompileFieldsSomeLast(fs, bound);
      CompileFieldsSome(fs[..|fs| - 1], bound);
      EntriesCompileLast(fs);
    }
  }

  lemma CompileFieldsSomeLast(fs: Fields, bound: nat)
    requires |fs| > 0 && FieldsWithin(fs, bound)
    ensures FieldsWithin(fs[..|fs| - 1], bound)
    ensures CompileFields(fs, bound).Some? <==>
      CompileFields(fs[..|fs| - 1], bound).Some? && CompileEntry(fs[|fs| - 1].0, fs[|fs| - 1].1).Some?
  {
  }

  lemma EntriesCompileLast(fs: Fields)
    requires |fs| > 0
    ensures EntriesCompile(fs) <==> EntriesCompile(fs[..|fs| - 1]) && CompileEntry(fs[|fs| - 1].0, fs[|fs| - 1].1).Some?
  {
    var p := fs[..|fs| - 1];
    assert forall i :: 0 <= i < |p| ==> p[i] == fs[i];
  }

  /** The keys of a compiled where-tree are its output keys in order of first
      occurrence: a repeated output key (an `and` list beside a field named `$and`)
      keeps its first position and takes the later value. */
  lemma {:induction false} CompileFieldsKeys(fs: Fields, bound: nat)
    requires FieldsWithin(fs, bound)
    ensures CompileFields(fs, bound).Some? ==> Keys(CompileFields(fs, bound).value) == Dedup(OutKeys(fs))
    decreases |fs|
  {
    if |fs| > 0 {
      var p := fs[..|fs| - 1];
      var (k, x) := fs[|fs| - 1];
      CompileFieldsKeys(p, bound);
      assert OutKeys(fs) == OutKeys(p) + [OutKey(k, x)];
      var e := CompileEntry(k, x);
      if CompileFields(p, bound).Some? && e.Some? {
        CompileEntryKey(k, x);
        PutKeys(CompileFields(p, bound).value, e.value.0, e.value.1);
        DedupAppend(OutKeys(p), OutKey(k, x));
        DedupSpec(OutKeys(p));
      }
    }
  }

  /** With distinct output keys, the compiled where-tree is its entries compiled one
      by one, in order. */
  lemma {:induction false} CompileFieldsInOrder(fs: Fields, bound: nat)
    requires FieldsWithin(fs, bound)
    requires Distinct(OutKeys(fs))
    ensures CompileFields(fs, bound).Some? ==>
      |CompileFields(fs, bound).value| == |fs| &&
      forall i :: 0 <= i < |fs| ==> Some(CompileFields(fs, bound).value[i]) == CompileEntry(fs[i].0, fs[i].1)
    decreases |fs|
  {
    if |fs| > 0 {
      var p := fs[..|fs| - 1];
      DistinctOutKeysPrefix(fs);
      CompileFieldsInOrder(p, bound);
      if CompileFields(fs, bound).Some? {
        InOrderStep(fs, bound);
      }
    }
  }

  /** Dropping the last entry keeps the output keys distinct, and the last output key
      is not among the others. */
  lemma DistinctOutKeysPrefix(fs: Fields)
    requires |fs| > 0 && Distinct(OutKeys(fs))
    ensures Distinct(OutKeys(fs[..|fs| - 1]))
    ensures OutKey(fs[|fs| - 1].0, fs[|fs| - 1].1) !in OutKeys(fs[..|fs| - 1])
  {
    var p := fs[..|fs| - 1];
    assert forall i :: 0 <= i < |p| ==> OutKeys(p)[i] == OutKeys(fs)[i];
    assert OutKeys(fs)[|p|] == OutKey(fs[|fs| - 1].0, fs[|fs| - 1].1);
  }

  /** The last entry of a where-tree with distinct output keys is appended to the
      compiled prefix. */
  lemma InOrderStep(fs: Fields, bound: nat)
    requires |fs| > 0 && FieldsWithin(fs, bound) && CompileFields(fs, bound).Some?
    requires OutKey(fs[|fs| - 1].0, fs[|fs| - 1].1) !in OutKeys(fs[..|fs| - 1])
    requires var acc := CompileFields(fs[..|fs| - 1], bound);
      acc.Some? ==> (|acc.value| == |fs| - 1 &&
        forall i :: 0 <= i < |fs| - 1 ==> Some(acc.value[i]) == CompileEntry(fs[i].0, fs[i].1))
    ensures |CompileFields(fs, bound).value| == |fs|
    ensures forall i :: 0 <= i < |fs| ==> Some(CompileFields(fs, bound).value[i]) == CompileEntry(fs[i].0, fs[i].1)
  {
    var p := fs[..|fs| - 1];
    var (k, x) := fs[|fs| - 1];
    CompileFieldsLast(fs, bound);
    LastKeyFresh(fs, bound);
    var acc, ev := CompileFields(p, bound).value, CompileEntry(k, x).value;
    PutKeys(acc, ev.0, ev.1);
    var f := seq(|fs|, i requires 0 <= i < |fs| => CompileEntry(fs[i].0, fs[i].1));
    assert forall i :: 0 <= i < |acc| ==> Some(acc[i]) == f[i] by {
      assert forall i :: 0 <= i < |p| ==> p[i] == fs[i];
    }
    SnocAgrees(acc, ev, f);
  }

  /** Appending the value the last result holds keeps a prefix in step with the results. */
  lemma SnocAgrees<T>(acc: seq<T>, ev: T, f: seq<Option<T>>)
    requires |f| == |acc| + 1 && f[|acc|] == Some(ev)
    requires forall i :: 0 <= i < |acc| ==> Some(acc[i]) == f[i]
    ensures forall i :: 0 <= i < |f| ==> Some((acc + [ev])[i]) == f[i]
  {
  }

  lemma LastKeyFresh(fs: Fields, bound: nat)
    requires |fs| > 0 && FieldsWithin(fs, bound) && CompileFields(fs, bound).Some?
    requires OutKey(fs[|fs| - 1].0, fs[|fs| - 1].1) !in OutKeys(fs[..|fs| - 1])
    ensures FieldsWithin(fs[..|fs| - 1], bound)
    ensures CompileFields(fs[..|fs| - 1], bound).Some? && CompileEntry(fs[|fs| - 1].0, fs[|fs| - 1].1).Some?
    ensures CompileEntry(fs[|fs| - 1].0, fs[|fs| - 1].1).value.0 !in Keys(CompileFields(fs[..|fs| - 1], bound).value)
  {
    var p := fs[..|fs| - 1];
    var (k, x) := fs[|fs| - 1];
    CompileFieldsLast(fs, bound);
    CompileFieldsKeys(p, bound);
    DedupSpec(OutKeys(p));
    CompileEntryKey(k, x);
  }


  /** An `and`/`or` list compiles when every condition does, to the conditions
      compiled one by one, in order. */
  lemma CompileAllSpec(items: seq<Value>, bound: nat)
    requires ItemsWithin(items, bound)
    ensures CompileAll(items, bound).Some? <==> forall i :: 0 <= i < |items| ==> CompileWhere(items[i]).Some?
    ensures CompileAll(items, bound).Some? ==>
      |CompileAll(items, bound).value| == |items| &&
      forall i :: 0 <= i < |items| ==> CompileAll(items, bound).value[i] == Obj(CompileWhere(items[i]).value)
  {
    CompileAllSome(items, bound);
    if CompileAll(items, bound).Some? {
      CompileAllValues(items, bound);
    }
  }

  /** A compiled list is its compiled prefix with the last condition appended. */
  lemma CompileAllLast(items: seq<Value>, bound: nat)
    requires |items| > 0 && ItemsWithin(items, bound)
    ensures ItemsWithin(items[..|items| - 1], bound)
    ensures CompileAll(items, bound).Some? <==>
      CompileAll(items[..|items| - 1], bound).Some? && CompileWhere(items[|items| - 1]).Some?
    ensures CompileAll(items, bound).Some? ==>
      CompileAll(items, bound).value == CompileAll(items[..|items| - 1], bound).value + [Obj(CompileWhere(items[|items| - 1]).value)]
  {
  }

  predicate AllCompile(items: seq<Value>)
  {
    forall i :: 0 <= i < |items| ==> CompileWhere(items[i]).Some?
  }

  lemma AllCompileLast(items: seq<Value>)
    requires |items| > 0
    ensures AllCompile(items) <==> AllCompile(items[..|items| - 1]) && CompileWhere(items[|items| - 1]).Some?
  {
    var p := items[..|items| - 1];
    assert forall i :: 0 <= i < |p| ==> p[i] == items[i];
  }

  lemma {:induction false} CompileAllSome(items: seq<Value>, bound: nat)
    requires ItemsWithin(items, bound)
    ensures CompileAll(items, bound).Some? <==> AllCompile(items)
    decreases |items|
  {
    if |items| > 0 {
      CompileAllLast(items, bound);
      CompileAllSome(items[..|items| - 1], bound);
      AllCompileLast(items);
    }
  }

  lemma {:induction false} CompileAllValues(items: seq<Value>, bound: nat)
    requires ItemsWithin(items, bound) && CompileAll(items, bound).Some?
    ensures |CompileAll(items, bound).value| == |items|
    ensures forall i :: 0 <= i < |items| ==>
      CompileWhere(items[i]).Some? && CompileAll(items, bound).value[i] == Obj(CompileWhere(items[i]).value)
    decreases |items|
  {
    if |items| > 0 {
      var p := items[..|items| - 1];
      CompileAllLast(items, bound);
      CompileAllValues(p, bound);
      var r := CompileAll(items, bound).value;
      forall i | 0 <= i < |items| ensures CompileWhere(items[i]).Some? && r[i] == Obj(CompileWhere(items[i]).value) {
        if i < |p| { assert p[i] == items[i]; }
      }
    }
  }

  /** Every compiled entry sits under its output key, which differs from the input
      key only for an `and`/`or` list. */
  lemma CompileEntryKey(k: string, x: Value)
    ensures CompileEntry(k, x).Some? ==> CompileEntry(k, x).value.0 == OutKey(k, x)
    ensures OutKey(k, x) != k <==> (k == "and" || k == "or") && x.Arr?
  {
  }

  /** An `and`/`or` list compiles when all its conditions do, to `$and`/`$or` over
      the conditions compiled one by one. */
  lemma ConditionsEntry(k: string, x: Value)
    requires (k == "and" || k == "or") && x.Arr?
    ensures CompileEntry(k, x).Some? <==> forall i :: 0 <= i < |x.items| ==> CompileWhere(x.items[i]).Some?
    ensures CompileEntry(k, x).Some? ==>
      var e := CompileEntry(k, x).value;
      e.0 == (if k == "and" then "$and" else "$or") && e.1.Arr? && |e.1.items| == |x.items| &&
      forall i :: 0 <= i < |x.items| ==> e.1.items[i] == Obj(CompileWhere(x.items[i]).value)
  {
    ConditionsUnfold(k, x);
    CompileAllSpec(x.items, Depth(x) - 1);
  }

  /** One step of `CompileEntry` on an `and`/`or` list. */
  lemma ConditionsUnfold(k: string, x: Value)
    requires (k == "and" || k == "or") && x.Arr?
    ensures Depth(x) >= 1 && ItemsWithin(x.items, Depth(x) - 1)
    ensures CompileEntry(k, x).Some? <==> CompileAll(x.items, Depth(x) - 1).Some?
    ensures CompileEntry(k, x).Some? ==>
      CompileEntry(k, x).value == (if k == "and" then "$and" else "$or", Arr(CompileAll(x.items, Depth(x) - 1).value))
  {
    ItemsWithinArr(x);
  }

  /** An operator object throws exactly when a `like`/`contains` operand cannot be turned
      into a string; otherwise it becomes an object of Mongo operators under its key. */
  lemma OperatorEntry(k: string, x: Value)
    requires !((k == "and" || k == "or") && x.Arr?) && (x.Arr? || x.Obj?)
    requires IsOperatorObject(Keys(Entries(x).value))
    ensures CompileEntry(k, x).Some? <==> PatternsPrintable(Entries(x).value)
    ensures CompileEntry(k, x).Some? ==>
      CompileEntry(k, x).value.0 == k && CompileEntry(k, x).value.1.Obj? &&
      forall m :: m in Keys(CompileEntry(k, x).value.1.fields) ==> m in MongoOperators
  {
    OperatorUnfold(k, x);
    MergeOperatorsThrows(Entries(x).value);
    if MergeOperators(Entries(x).value).Some? {
      MergeOperatorsKeys(Entries(x).value);
    }
  }

  /** Any other object or array is a where-tree of its own, compiled under the same key. */
  lemma NestedEntry(k: string, x: Value)
    requires !((k == "and" || k == "or") && x.Arr?) && (x.Arr? || x.Obj?)
    requires !IsOperatorObject(Keys(Entries(x).value))
    ensures CompileEntry(k, x).Some? <==> CompileWhere(x).Some?
    ensures CompileEntry(k, x).Some? ==> CompileEntry(k, x).value == (k, Obj(CompileWhere(x).value))
  {
    NestedSameFields(x);
    NestedUnfold(k, x);
  }

  /** The bound does not change what a nested where-tree compiles to. */
  lemma NestedSameFields(x: Value)
    requires x.Arr? || x.Obj?
    ensures Depth(x) >= 1 && FieldsWithin(Entries(x).value, Depth(x) - 1)
    ensures CompileWhere(x) == CompileFields(Entries(x).value, Depth(x) - 1)
  {
    var es := Entries(x).value;
    EntriesWithin(x);
    WhereUnfold(x);
    CompileFieldsBound(es, Depth(x), Depth(x) - 1);
  }

  /** One step of `CompileEntry` on an operator object. */
  lemma OperatorUnfold(k: string, x: Value)
    requires !((k == "and" || k == "or") && x.Arr?) && (x.Arr? || x.Obj?)
    requires IsOperatorObject(Keys(Entries(x).value))
    ensures CompileEntry(k, x) ==
      match MergeOperators(Entries(x).value)
      case None => None
      case Some(merged) => Some((k, Obj(merged)))
  {
  }

  /** One step of `CompileEntry` on a nested where-tree. */
  lemma NestedUnfold(k: string, x: Value)
    requires !((k == "and" || k == "or") && x.Arr?) && (x.Arr? || x.Obj?)
    requires !IsOperatorObject(Keys(Entries(x).value))
    ensures Depth(x) >= 1 && FieldsWithin(Entries(x).value, Depth(x) - 1)
    ensures CompileEntry(k, x) ==
      match CompileFields(Entries(x).value, Depth(x) - 1)
      case None => None
      case Some(nested) => Some((k, Obj(nested)))
  {
    EntriesWithin(x);
  }

  /** One step of `CompileWhere` on an array or object. */
  lemma WhereUnfold(x: Value)
    requires !x.Null?
    ensures FieldsWithin(Entries(x).value, Depth(x))
    ensures CompileWhere(x) == CompileFields(Entries(x).value, Depth(x))
  {
    EntriesWithinSelf(x);
  }

  /** A scalar, `null` included, is matched by equality under its own key. */
  lemma ScalarEntry(k: string, x: Value)
    requires !x.Arr? && !x.Obj?
    ensures CompileEntry(k, x) == Some((k, Obj([("$eq", x)])))
  {
  }

  /** The empty where-tree compiles to the empty filter. */
  lemma EmptyWhereCompiles()
    ensures CompileWhere(Obj([])) == Some([])
  {
  }

  /** No `null` anywhere in the tree, and no object with its own `toString` key. */
  predicate CleanTree(v: Value)
    decreases Depth(v)
  {
    match v
    case Null => false
    case Arr(items) => ItemsDepthBound(items); forall i :: 0 <= i < |items| ==> CleanTree(items[i])
    case Obj(fs) => FieldsDepthBound(fs); "toString" !in Keys(fs) && forall i :: 0 <= i < |fs| ==> CleanTree(fs[i].1)
    case _ => true
  }

  /** `String(v)` does not throw on a clean tree. */
  lemma {:induction false} CleanTreePrintable(v: Value)
    requires CleanTree(v)
    ensures Printable(v)
    decreases Depth(v)
  {
    match v
    case Arr(items) =>
      ItemsDepthBound(items);
      forall i | 0 <= i < |items| ensures Printable(items[i]) {
        CleanTreePrintable(items[i]);
      }
    case _ =>
  }

  /** Every entry of a clean object or array is clean. */
  lemma CleanEntries(x: Value)
    requires CleanTree(x) && (x.Arr? || x.Obj?)
    ensures forall i :: 0 <= i < |Entries(x).value| ==> CleanTree(Entries(x).value[i].1)
  {
    match x
    case Arr(items) =>
      IndexKeyedAt(items);
      ItemsDepthBound(items);
    case Obj(fs) =>
      FieldsDepthBound(fs);
  }

  /** A clean where-tree never makes the compiler throw. */
  lemma {:induction false} CleanTreeCompiles(v: Value)
    requires CleanTree(v)
    ensures CompileWhere(v).Some?
    decreases Depth(v), 1
  {
    var es := Entries(v).value;
    EntriesWithinSelf(v);
    CompileFieldsSome(es, Depth(v));
    forall i | 0 <= i < |es| ensures CompileEntry(es[i].0, es[i].1).Some? {
      CleanEntryOf(v, i);
    }
    assert CompileWhere(v) == CompileFields(es, Depth(v));
  }

  /** Each entry of a clean where-tree compiles. */
  lemma CleanEntryOf(v: Value, i: nat)
    requires CleanTree(v) && i < |Entries(v).value|
    ensures CompileEntry(Entries(v).value[i].0, Entries(v).value[i].1).Some?
    decreases Depth(v), 0
  {
    var (k, x) := Entries(v).value[i];
    match v
    case Obj(fs) =>
      FieldsDepthBound(fs);
      CleanEntry(k, x);
    case Arr(items) =>
      IndexKeyedAt(items);
      ItemsDepthBound(items);
      CleanEntry(k, x);
    case Str(s) =>
      IndexKeyedAt(CharValues(s));
      CharValuesAt(s);
      ScalarEntry(k, x);
    case _ =>
  }

  lemma {:induction false} CleanEntry(k: string, x: Value)
    requires CleanTree(x)
    ensures CompileEntry(k, x).Some?
    decreases Depth(x), 2
  {
    if (k == "and" || k == "or") && x.Arr? {
      ItemsDepthBound(x.items);
      forall i | 0 <= i < |x.items| ensures CompileWhere(x.items[i]).Some? {
        CleanTreeCompiles(x.items[i]);
      }
      ConditionsEntry(k, x);
    } else if x.Arr? || x.Obj? {
      if IsOperatorObject(Keys(Entries(x).value)) {
        var ops := Entries(x).value;
        CleanEntries(x);
        forall i | 0 <= i < |ops| ensures Printable(ops[i].1) {
          CleanTreePrintable(ops[i].1);
        }
        OperatorEntry(k, x);
      } else {
        CleanTreeCompiles(x);
        NestedEntry(k, x);
      }
    } else {
      ScalarEntry(k, x);
    }
  }

  /** `{a: {like: {toString: "x"}}}` throws: `String()` finds a `toString` that is not
      a function, and `valueOf` gives back the object. */
  lemma PatternOnToStringThrows()
    ensures CompileWhere(Obj([("a", Obj([("like", Obj([("toString", Str("x"))]))]))])) == None
  {
    var operand := Obj([("toString", Str("x"))]);
    var ops := Obj([("like", operand)]);
    assert Entries(ops) == Some(ops.fields) && Keys(ops.fields) == ["like"];
    assert IsOperator(Keys(ops.fields)[0]) && IsPattern("like");
    assert Keys(operand.fields) == ["toString"];
    assert !PatternsPrintable(ops.fields);
    OperatorEntry("a", ops);
  }

  /** `{and: [null]}` throws: `Object.entries(null)` is reached through the list. */
  lemma NullConditionThrows()
    ensures CompileWhere(Obj([("and", Arr([Null]))])) == None
  {
    var w := Obj([("and", Arr([Null]))]);
    assert Entries(w) == Some([("and", Arr([Null]))]);
    ConditionsEntry("and", Arr([Null]));
  }

  // ---------------------------------------------------------------- the prototype finding

  /** The names every plain object inherits from `Object.prototype`: `op in operatorMap`
      is true for each of them, as it is for the eleven operators. */
  const PrototypeMembers: set<string> := {
    "constructor", "__proto__", "toString", "toLocaleString", "valueOf", "hasOwnProperty",
    "isPrototypeOf", "propertyIsEnumerable", "__defineGetter__", "__defineSetter__",
    "__lookupGetter__", "__lookupSetter__"
  }

  /** The operator test as written: `op in operatorMap` on a plain object literal. */
  predicate IsOperatorAsWritten(k: string)
  {
    k in OperatorMap || k in PrototypeMembers
  }

  /** The operator-object test as written: `operators.some(op => op in operatorMap)`. */
  predicate IsOperatorObjectAsWritten(keys: seq<string>)
  {
    exists i :: 0 <= i < |keys| && IsOperatorAsWritten(keys[i])
  }

  /** `{name: {constructor: "x"}}`: the code as written takes the value of `name` for an
      operator object, although none of its keys is an operator. */
  lemma PrototypeKeyMisclassified()
    ensures IsOperatorObjectAsWritten(Keys([("constructor", Str("x"))]))
    ensures !IsOperatorObject(Keys([("constructor", Str("x"))]))
  {
    assert Keys([("constructor", Str("x"))]) == ["constructor"];
    assert IsOperatorAsWritten(Keys([("constructor", Str("x"))])[0]);
  }

  /** The two tests agree on every key that is not an inherited member name. */
  lemma OperatorTestsAgree(keys: seq<string>)
    requires forall i :: 0 <= i < |keys| ==> keys[i] !in PrototypeMembers
    ensures IsOperatorObjectAsWritten(keys) <==> IsOperatorObject(keys)
  {
  }

  /** With the own-name test, `{name: {constructor: "x"}}` is a nested where-tree:
      `name.constructor` must equal `"x"`. */
  lemma NonOperatorObjectIsNestedWhere()
    ensures CompileWhere(Obj([("name", Obj([("constructor", Str("x"))]))])) ==
      Some([("name", Obj([("constructor", Obj([("$eq", Str("x"))]))]))])
  {
    var inner := Obj([("constructor", Str("x"))]);
    assert Keys(inner.fields) == ["constructor"];
    assert !IsOperatorObject(Keys(inner.fields));
    NestedEntry("name", inner);
  }

  // ---------------------------------------------------------------- the imperative compiler

  /** The `merged` loop of an operator object. */
  method MergeOperatorObject(ops: Fields) returns (result: Option<Fields>)
    ensures result == MergeOperators(ops)
  {
    var merged := [];
    var i := 0;
    while i < |ops|
      invariant 0 <= i <= |ops|
      invariant MergeOperators(ops[..i]) == Some(merged)
    {
      var (op, v) := ops[i];
      assert ops[..i + 1][..i] == ops[..i];
      if IsOperator(op) {
        var converted := ConvertOperatorValue(op, v);
        if converted.None? {
          MergeOperatorsThrows(ops);
          assert !PatternsPrintable(ops[..i + 1]);
          return None;
        }
        merged := Assign(merged, converted.value);
      }
      i := i + 1;
    }
    assert ops[..|ops|] == ops;
    return Some(merged);
  }

  /** An object or array found among the entries of a value is shallower than it. */
  lemma EntryShallower(v: Value, i: nat)
    requires Entries(v).Some? && i < |Entries(v).value|
    ensures var x := Entries(v).value[i].1; (x.Arr? || x.Obj?) ==> Depth(x) < Depth(v)
  {
    EntriesSpec(v);
  }

  /** `convertWhereToMongo`: `None` stands for the TypeError `Object.entries(null)` throws. */
  method ConvertWhereToMongo(where: Value) returns (result: Option<Fields>)
    ensures result == CompileWhere(where)
    decreases Depth(where), 2
  {
    var entries := Entries(where);
    if entries.None? {
      return None;
    }
    var es := entries.value;
    var acc: Fields := [];
    var i := 0;
    WhereUnfold(where);
    FieldsWithinPrefix(es, 0, Depth(where));
    while i < |es|
      invariant 0 <= i <= |es|
      invariant FieldsWithin(es[..i], Depth(where))
      invariant CompileFields(es[..i], Depth(where)) == Some(acc)
    {
      var (key, value) := es[i];
      CompileFieldsStep(es, i, Depth(where), acc);
      EntryShallower(where, i);
      var entry := ConvertEntry(key, value);
      if entry.None? {
        CompileFieldsPrefixNone(es, i + 1, Depth(where));
        return None;
      }
      acc := Put(acc, entry.value.0, entry.value.1);
      i := i + 1;
    }
    assert es[..|es|] == es;
    return Some(acc);
  }

  /** The body of the loop over the entries of a where-tree: `and`/`or` lists,
      object values and plain equality. */
  method ConvertEntry(key: string, value: Value) returns (entry: Option<(string, Value)>)
    ensures entry == CompileEntry(key, value)
    decreases Depth(value), if value.Arr? || value.Obj? then 4 else 1
  {
    if (key == "and" || key == "or") && value.Arr? {
      ConditionsUnfold(key, value);
      var compiled := ConvertConditions(value.items, Depth(value) - 1);
      if compiled.None? {
        return None;
      }
      return Some((if key == "and" then "$and" else "$or", Arr(compiled.value)));
    } else if value.Arr? || value.Obj? {
      entry := ConvertObjectValue(key, value);
    } else {
      return Some((key, Obj([("$eq", value)])));
    }
  }

  /** An object value: an operator object is merged, any other is a nested where-tree. */
  method ConvertObjectValue(key: string, value: Value) returns (entry: Option<(string, Value)>)
    requires value.Arr? || value.Obj?
    requires !((key == "and" || key == "or") && value.Arr?)
    ensures entry == CompileEntry(key, value)
    decreases Depth(value), 3
  {
    var ops := Entries(value).value;
    if IsOperatorObject(Keys(ops)) {
      OperatorUnfold(key, value);
      var merged := MergeOperatorObject(ops);
      if merged.None? {
        return None;
      }
      return Some((key, Obj(merged.value)));
    }
    var nested := ConvertWhereToMongo(value);
    NestedSameFields(value);
    NestedUnfold(key, value);
    if nested.None? {
      return None;
    }
    return Some((key, Obj(nested.value)));
  }

  /** `value.map(condition => convertWhereToMongo(condition))` for an `and`/`or` list. */
  method ConvertConditions(items: seq<Value>, ghost bound: nat) returns (result: Option<seq<Value>>)
    requires ItemsWithin(items, bound)
    ensures result == CompileAll(items, bound)
    decreases bound, 5
  {
    var out: seq<Value> := [];
    var i := 0;
    ItemsWithinPrefix(items, 0, bound);
    while i < |items|
      invariant 0 <= i <= |items|
      invariant ItemsWithin(items[..i], bound)
      invariant CompileAll(items[..i], bound) == Some(out)
    {
      CompileAllStep(items, i, bound, out);
      var c := ConvertWhereToMongo(items[i]);
      if c.None? {
        CompileAllPrefixNone(items, i + 1, bound);
        return None;
      }
      out := out + [Obj(c.value)];
      i := i + 1;
    }
    assert items[..|items|] == items;
    return Some(out);
  }
}
