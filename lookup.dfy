/** `$lookup`/`$unwind` stages for populate paths such as `author.country`. */
module Lookup {
  import opened Js

  /** How a populated field resolves: the collection it refers to, whether it holds
      many references (no `$unwind` then), and the refs of that collection, if any. */
  datatype RefDefinition = RefDefinition(collection: string, isMany: bool, refs: Option<map<string, RefDefinition>>)

  type Refs = map<string, RefDefinition>

  /** Populate paths grouped by head field, in order of first appearance, each with
      the non-empty remainders after its first dot (a JS `Map<string, string[]>`). */
  type Groups = seq<(string, seq<string>)>

  // ---------------------------------------------------------------- paths

  /** The field a path starts with: everything before its first dot. */
  function Head(path: string): (h: string)
    ensures '.' !in h
  {
    if '.' in path then path[..IndexOf(path, '.')] else path
  }

  /** The remainder after the first dot, as a list holding it when it is non-empty
      (`rest` is `null` without a dot, and `""` is falsy). */
  function RestList(path: string): (rs: seq<string>)
    ensures |rs| <= 1
  {
    if '.' in path && path[IndexOf(path, '.') + 1..] != [] then [path[IndexOf(path, '.') + 1..]]
    else []
  }

  /** The remainder is non-empty, shorter than the path, and head, dot and remainder
      give back the path. */
  lemma RestListSpec(path: string)
    ensures forall r :: r in RestList(path) ==> r != [] && |r| < |path| && path == Head(path) + "." + r
  {
    if '.' in path {
      var i := IndexOf(path, '.');
      assert path == path[..i] + "." + path[i + 1..];
    }
  }

  function Heads(paths: seq<string>): (hs: seq<string>)
    ensures |hs| == |paths| && forall i :: 0 <= i < |paths| ==> hs[i] == Head(paths[i])
  {
    seq(|paths|, i requires 0 <= i < |paths| => Head(paths[i]))
  }

  /** All sub-paths of head `h`, in the order the paths list them: the reference
      definition of one group. */
  function SubPaths(paths: seq<string>, h: string): seq<string>
  {
    if |paths| == 0 then []
    else SubPaths(paths[..|paths| - 1], h) + (if Head(paths[|paths| - 1]) == h then RestList(paths[|paths| - 1]) else [])
  }

  /** One more than the length of the longest path, and 0 for no path: what the
      recursion into sub-paths decreases. */
  function Measure(paths: seq<string>): (m: nat)
    ensures forall i :: 0 <= i < |paths| ==> |paths[i]| < m
    ensures |paths| == 0 ==> m == 0
    ensures |paths| > 0 ==> exists i :: 0 <= i < |paths| && m == |paths[i]| + 1
  {
    if |paths| == 0 then 0
    else
      var m := Measure(paths[..|paths| - 1]);
      assert forall i :: 0 <= i < |paths| - 1 ==> paths[..|paths| - 1][i] == paths[i];
      if m < |paths[|paths| - 1]| + 1 then |paths[|paths| - 1]| + 1 else m
  }

  /** Paths all shorter than a positive bound, less one, have a smaller measure. */
  lemma MeasureBelow(paths: seq<string>, bound: nat)
    requires bound > 0
    requires forall i :: 0 <= i < |paths| ==> |paths[i]| + 1 < bound
    ensures Measure(paths) < bound
  {
  }

  // ---------------------------------------------------------------- grouping

  function GroupKeys(g: Groups): (ks: seq<string>)
    ensures |ks| == |g| && forall i :: 0 <= i < |g| ==> ks[i] == g[i].0
  {
    seq(|g|, i requires 0 <= i < |g| => g[i].0)
  }

  /** `grouped.get(head).push(...rs)`: the group of `h` gains the sub-paths `rs`. */
  function AppendTo(g: Groups, h: string, rs: seq<string>): (r: Groups)
    ensures |r| == |g| && GroupKeys(r) == GroupKeys(g)
    ensures forall i :: 0 <= i < |g| ==> r[i].1 == if g[i].0 == h then g[i].1 + rs else g[i].1
  {
    seq(|g|, i requires 0 <= i < |g| => if g[i].0 == h then (h, g[i].1 + rs) else g[i])
  }

  /** One turn of the grouping loop. */
  function GroupStep(g: Groups, path: string): Groups
  {
    var h := Head(path);
    if h in GroupKeys(g) then AppendTo(g, h, RestList(path)) else g + [(h, RestList(path))]
  }

  /** The grouping loop over all paths. */
  function Grouped(paths: seq<string>): (r: Groups)
    ensures |r| > 0 ==> |paths| > 0
    ensures forall i, j :: 0 <= i < |r| && 0 <= j < |r[i].1| ==> |r[i].1[j]| + 1 < Measure(paths)
  {
    if |paths| == 0 then []
    else
      var p, x := paths[..|paths| - 1], paths[|paths| - 1];
      var g := Grouped(p);
      assert Measure(p) <= Measure(paths) && |x| < Measure(paths);
      GroupStepBound(g, x, Measure(paths));
      GroupStep(g, x)
  }

  /** A grouping turn keeps every sub-path shorter than a bound above the new path. */
  lemma GroupStepBound(g: Groups, x: string, m: nat)
    requires |x| < m
    requires forall i, j :: 0 <= i < |g| && 0 <= j < |g[i].1| ==> |g[i].1[j]| + 1 < m
    ensures var r := GroupStep(g, x);
      forall i, j :: 0 <= i < |r| && 0 <= j < |r[i].1| ==> |r[i].1[j]| + 1 < m
  {
    RestListSpec(x);
  }

  /** Sub-paths of a head no path starts with: none. */
  lemma {:induction false} SubPathsAbsent(paths: seq<string>, h: string)
    requires h !in Heads(paths)
    ensures SubPaths(paths, h) == []
  {
    if |paths| > 0 {
      var p := paths[..|paths| - 1];
      assert forall i :: 0 <= i < |p| ==> Heads(p)[i] == Heads(paths)[i];
      SubPathsAbsent(p, h);
    }
  }

  /** The grouping loop makes one group per distinct head, in order of first appearance. */
  lemma {:induction false} GroupedKeys(paths: seq<string>)
    ensures GroupKeys(Grouped(paths)) == Dedup(Heads(paths))
  {
    if |paths| > 0 {
      var p, x := paths[..|paths| - 1], paths[|paths| - 1];
      var h := Head(x);
      GroupedKeys(p);
      var g := Grouped(p);
      assert Heads(paths)[..|paths| - 1] == Heads(p);
      assert Heads(paths)[|paths| - 1] == h;
      if h !in GroupKeys(g) {
        assert GroupKeys(g + [(h, RestList(x))]) == GroupKeys(g) + [h];
      }
    }
  }

  /** Each group holds all sub-paths of its head, in the order the paths list them. */
  lemma {:induction false} GroupedSubPaths(paths: seq<string>)
    ensures forall i :: 0 <= i < |Grouped(paths)| ==> Grouped(paths)[i].1 == SubPaths(paths, Grouped(paths)[i].0)
  {
    if |paths| > 0 {
      var p, x := paths[..|paths| - 1], paths[|paths| - 1];
      var h := Head(x);
      GroupedSubPaths(p);
      GroupedKeys(p);
      var g := Grouped(p);
      if h !in GroupKeys(g) {
        DedupSpec(Heads(p));
        SubPathsAbsent(p, h);
        assert Grouped(paths) == g + [(h, RestList(x))];
      }
    }
  }

  // ---------------------------------------------------------------- stages

  /** `{$lookup: {from, localField, foreignField: '_id', [pipeline,] as}}`. */
  function LookupStage(from: string, field: string, pipeline: Option<seq<Value>>): Value
  {
    Obj([("$lookup", Obj(LookupFields(from, field, pipeline)))])
  }

  /** The body of a `$lookup` stage. */
  function LookupFields(from: string, field: string, pipeline: Option<seq<Value>>): Fields
  {
    [("from", Str(from)), ("localField", Str(field)), ("foreignField", Str("_id"))]
    + (if pipeline.Some? then [("pipeline", Arr(pipeline.value))] else [])
    + [("as", Str(field))]
  }

  /** `{$unwind: {path: '$field', preserveNullAndEmptyArrays: true}}`. */
  function UnwindStage(field: string): Value
  {
    Obj([("$unwind", Obj([("path", Str("$" + field)), ("preserveNullAndEmptyArrays", Bool(true))]))])
  }

  /** `buildLookupStages(populate, refs)`. */
  function LookupStages(paths: seq<string>, refs: Refs): seq<Value>
    decreases Measure(paths), 2
  {
    var g := Grouped(paths);
    GroupStages(g, refs, Measure(paths))
  }

  /** The stage loop over the groups, in order; heads `refs` does not know are skipped. */
  function GroupStages(groups: Groups, refs: Refs, ghost bound: nat): seq<Value>
    requires forall i :: 0 <= i < |groups| ==> Measure(groups[i].1) < bound
    decreases bound, 1, |groups|
  {
    if |groups| == 0 then []
    else
      var (field, subs) := groups[|groups| - 1];
      GroupStages(groups[..|groups| - 1], refs, bound)
      + (if field in refs then Stages(field, refs[field], subs) else [])
  }

  /** The stages of one resolvable head: its lookup, with a nested pipeline when it has
      sub-paths and its collection has refs, then an unwind unless it holds many. */
  function Stages(field: string, ref: RefDefinition, subs: seq<string>): seq<Value>
    decreases Measure(subs), 3
  {
    var pipeline := if |subs| > 0 && ref.refs.Some? then Some(LookupStages(subs, ref.refs.value)) else None;
    [LookupStage(ref.collection, field, pipeline)] + (if ref.isMany then [] else [UnwindStage(field)])
  }

  /** Every group of `Grouped(paths)` has a smaller measure than `paths`. */
  lemma GroupedMeasure(paths: seq<string>)
    ensures forall i :: 0 <= i < |Grouped(paths)| ==> Measure(Grouped(paths)[i].1) < Measure(paths)
  {
    var g := Grouped(paths);
    forall i | 0 <= i < |g| ensures Measure(g[i].1) < Measure(paths) {
      MeasureBelow(g[i].1, Measure(paths));
    }
  }

  // ---------------------------------------------------------------- what the stages are

  /** The reference definition: for every distinct head in order of first appearance
      that `refs` resolves, that head's stages over all its sub-paths. */
  function ByHeads(heads: seq<string>, paths: seq<string>, refs: Refs): seq<Value>
  {
    if |heads| == 0 then []
    else
      var h := heads[|heads| - 1];
      ByHeads(heads[..|heads| - 1], paths, refs) + (if h in refs then Stages(h, refs[h], SubPaths(paths, h)) else [])
  }

  lemma {:induction false} GroupStagesByHeads(groups: Groups, paths: seq<string>, refs: Refs, bound: nat)
    requires forall i :: 0 <= i < |groups| ==> Measure(groups[i].1) < bound
    requires forall i :: 0 <= i < |groups| ==> groups[i].1 == SubPaths(paths, groups[i].0)
    ensures GroupStages(groups, refs, bound) == ByHeads(GroupKeys(groups), paths, refs)
  {
    if |groups| > 0 {
      var p := groups[..|groups| - 1];
      assert GroupKeys(groups)[..|groups| - 1] == GroupKeys(p);
      GroupStagesByHeads(p, paths, refs, bound);
    }
  }

  /** `buildLookupStages` emits, for each distinct head field in order of first
      appearance that `refs` resolves, the stages of that field over all its sub-paths. */
  lemma LookupStagesByHeads(paths: seq<string>, refs: Refs)
    ensures LookupStages(paths, refs) == ByHeads(Dedup(Heads(paths)), paths, refs)
  {
    GroupedKeys(paths);
    GroupedSubPaths(paths);
    GroupedMeasure(paths);
    GroupStagesByHeads(Grouped(paths), paths, refs, Measure(paths));
  }

  /** A lookup stage fills the field itself from the referenced collection, matching
      the field against `_id`, and carries a pipeline exactly when one is given. */
  lemma LookupStageShape(from: string, field: string, pipeline: Option<seq<Value>>)
    ensures LookupStage(from, field, pipeline).Obj?
    ensures Keys(LookupStage(from, field, pipeline).fields) == ["$lookup"]
    ensures Get(LookupStage(from, field, pipeline).fields, "$lookup").value.Obj?
    ensures var l := Get(LookupStage(from, field, pipeline).fields, "$lookup").value.fields;
      Get(l, "from") == Some(Str(from)) && Get(l, "localField") == Some(Str(field)) &&
      Get(l, "foreignField") == Some(Str("_id")) && Get(l, "as") == Some(Str(field)) &&
      Get(l, "pipeline") == (if pipeline.Some? then Some(Arr(pipeline.value)) else None)
  {
    assert Keys([("$lookup", Obj(LookupFields(from, field, pipeline)))]) == ["$lookup"];
    if pipeline.Some? {
      LookupFieldsWith(from, field, pipeline.value);
    } else {
      LookupFieldsWithout(from, field);
    }
  }

  lemma LookupFieldsWith(from: string, field: string, pipeline: seq<Value>)
    ensures var l := LookupFields(from, field, Some(pipeline));
      Get(l, "from") == Some(Str(from)) && Get(l, "localField") == Some(Str(field)) &&
      Get(l, "foreignField") == Some(Str("_id")) && Get(l, "as") == Some(Str(field)) &&
      Get(l, "pipeline") == Some(Arr(pipeline))
  {
    var l := LookupFields(from, field, Some(pipeline));
    KeysAt(l);
    assert Keys(l) == ["from", "localField", "foreignField", "pipeline", "as"];
    GetAt(l, 0);
    GetAt(l, 1);
    GetAt(l, 2);
    GetAt(l, 3);
    GetAt(l, 4);
  }

  lemma LookupFieldsWithout(from: string, field: string)
    ensures var l := LookupFields(from, field, None);
      Get(l, "from") == Some(Str(from)) && Get(l, "localField") == Some(Str(field)) &&
      Get(l, "foreignField") == Some(Str("_id")) && Get(l, "as") == Some(Str(field)) &&
      Get(l, "pipeline") == None
  {
    var l := LookupFields(from, field, None);
    KeysAt(l);
    assert Keys(l) == ["from", "localField", "foreignField", "as"];
    GetAt(l, 0);
    GetAt(l, 1);
    GetAt(l, 2);
    GetAt(l, 3);
  }

  /** A head's stages: its lookup, with a nested pipeline exactly when there are
      sub-paths and the collection has refs; an unwind follows exactly when the
      reference is single. */
  lemma StagesShape(field: string, ref: RefDefinition, subs: seq<string>)
    ensures |Stages(field, ref, subs)| == if ref.isMany then 1 else 2
    ensures Stages(field, ref, subs)[0] ==
      LookupStage(ref.collection, field, if |subs| > 0 && ref.refs.Some? then Some(LookupStages(subs, ref.refs.value)) else None)
    ensures !ref.isMany ==> Stages(field, ref, subs)[1] == UnwindStage(field)
  {
  }

  /** `v` is a `$lookup` stage that fills `field`. */
  predicate IsLookupOf(v: Value, field: string)
  {
    v.Obj? && Keys(v.fields) == ["$lookup"] && Get(v.fields, "$lookup").Some? &&
    Get(v.fields, "$lookup").value.Obj? && Get(Get(v.fields, "$lookup").value.fields, "as") == Some(Str(field))
  }

  /** Every `$unwind` of `field` comes right after the `$lookup` that fills `field`, and
      only for a field that `refs` resolves to a single reference. */
  ghost predicate UnwindsFollowLookups(stages: seq<Value>, refs: Refs)
  {
    forall i, field :: 0 <= i < |stages| && stages[i] == UnwindStage(field) ==>
      0 < i && IsLookupOf(stages[i - 1], field) && field in refs && !refs[field].isMany
  }

  /** A lookup stage is never an unwind stage, and an unwind stage names its field. */
  lemma StagesDistinct(from: string, field: string, pipeline: Option<seq<Value>>, f: string, g: string)
    ensures LookupStage(from, field, pipeline) != UnwindStage(f)
    ensures UnwindStage(f) == UnwindStage(g) ==> f == g
  {
    if UnwindStage(f) == UnwindStage(g) {
      assert ("$" + f)[1..] == f && ("$" + g)[1..] == g;
    }
  }

  /** Over the whole top-level output of the heads, every `$unwind` follows the
      `$lookup` of its own field, and only single references are unwound. */
  lemma {:induction false} ByHeadsUnwinds(heads: seq<string>, paths: seq<string>, refs: Refs)
    ensures UnwindsFollowLookups(ByHeads(heads, paths, refs), refs)
  {
    if |heads| > 0 {
      var h := heads[|heads| - 1];
      var prev := ByHeads(heads[..|heads| - 1], paths, refs);
      ByHeadsUnwinds(heads[..|heads| - 1], paths, refs);
      if h in refs {
        var ref, subs := refs[h], SubPaths(paths, h);
        var stages := ByHeads(heads, paths, refs);
        var s := Stages(h, ref, subs);
        var pipeline := if |subs| > 0 && ref.refs.Some? then Some(LookupStages(subs, ref.refs.value)) else None;
        StagesShape(h, ref, subs);
        LookupStageShape(ref.collection, h, pipeline);
        assert stages == prev + s;
        forall i, field | 0 <= i < |stages| && stages[i] == UnwindStage(field)
          ensures 0 < i && IsLookupOf(stages[i - 1], field) && field in refs && !refs[field].isMany
        {
          if i >= |prev| {
            StagesDistinct(ref.collection, h, pipeline, field, h);
            assert stages[|prev|] == s[0];
            assert i == |prev| + 1 && stages[i] == s[1];
            assert stages[i - 1] == s[0];
          } else {
            assert stages[i] == prev[i];
            if i > 0 {
              assert stages[i - 1] == prev[i - 1];
            }
          }
        }
      }
    }
  }

  /** In the stages `buildLookupStages` emits, every `$unwind` follows the `$lookup` of
      its own field, and only single references are unwound. */
  lemma LookupStagesUnwinds(paths: seq<string>, refs: Refs)
    ensures UnwindsFollowLookups(LookupStages(paths, refs), refs)
  {
    LookupStagesByHeads(paths, refs);
    ByHeadsUnwinds(Dedup(Heads(paths)), paths, refs);
  }

  /** A path whose head `refs` does not know adds no stage. */
  lemma {:induction false} UnknownHeadsIgnored(heads: seq<string>, paths: seq<string>, refs: Refs)
    requires forall i :: 0 <= i < |heads| ==> heads[i] !in refs
    ensures ByHeads(heads, paths, refs) == []
  {
    if |heads| > 0 {
      UnknownHeadsIgnored(heads[..|heads| - 1], paths, refs);
    }
  }

  /** `author.country` splits into head `author` and sub-path `country`. */
  lemma AuthorCountryPath()
    ensures Head("author.country") == "author" && RestList("author.country") == ["country"]
  {
    var path := "author.country";
    assert path[..6] == "author";
    NoDotInAuthor();
    IndexOfFirst(path, '.', 6);
    assert path[7..] == "country";
  }

  lemma NoDotInAuthor()
    ensures '.' !in "author"
  {
    var s := "author";
    assert forall i :: 0 <= i < |s| ==> s[i] != '.';
  }

  lemma ByHeadsSingle(h: string, paths: seq<string>, refs: Refs)
    ensures ByHeads([h], paths, refs) == if h in refs then Stages(h, refs[h], SubPaths(paths, h)) else []
  {
    assert [h][..0] == [];
  }

  lemma CountryGroups()
    ensures Dedup(Heads(["country"])) == ["country"] && SubPaths(["country"], "country") == []
  {
    var paths: seq<string> := ["country"];
    assert Head("country") == "country" && RestList("country") == [];
    assert Heads(paths) == ["country"];
    assert paths[..0] == [];
  }

  /** A single path `country` to a single reference: its lookup, then its unwind. */
  lemma PopulateCountry(country: RefDefinition)
    requires !country.isMany
    ensures LookupStages(["country"], map["country" := country]) ==
      [LookupStage(country.collection, "country", None), UnwindStage("country")]
  {
    CountryGroups();
    ByHeadsSingle("country", ["country"], map["country" := country]);
    LookupStagesByHeads(["country"], map["country" := country]);
  }

  lemma AuthorHeads()
    ensures Heads(["author", "author.country"]) == ["author", "author"]
  {
    var hs := Heads(["author", "author.country"]);
    assert hs[0] == "author" by {
      assert '.' !in "author";
    }
    assert hs[1] == "author" by {
      AuthorCountryPath();
    }
  }

  lemma AuthorDedup()
    ensures Dedup(Heads(["author", "author.country"])) == ["author"]
  {
    AuthorHeads();
    assert ["author", "author"][..1] == ["author"];
    assert ["author"][..0] == [];
  }

  lemma AuthorSubPaths()
    ensures SubPaths(["author", "author.country"], "author") == ["country"]
  {
    var paths := ["author", "author.country"];
    assert SubPaths(["author"], "author") == [] by {
      assert '.' !in "author";
      assert ["author"][..0] == [];
    }
    assert paths[..1] == ["author"];
    assert SubPaths(paths, "author") == SubPaths(["author"], "author") + (if Head(paths[1]) == "author" then RestList(paths[1]) else []);
    AuthorCountryPath();
  }

  /** Populating `author` and `author.country`, where authors are users whose country
      refers to the countries collection: one lookup of `author` carrying the nested
      lookup of `country`, each followed by its unwind. */
  lemma PopulateAuthorCountry()
    ensures var country := RefDefinition("countries", false, None);
      var author := RefDefinition("users", false, Some(map["country" := country]));
      LookupStages(["author", "author.country"], map["author" := author]) ==
        [LookupStage("users", "author", Some([LookupStage("countries", "country", None), UnwindStage("country")])),
         UnwindStage("author")]
  {
    var country := RefDefinition("countries", false, None);
    var author := RefDefinition("users", false, Some(map["country" := country]));
    var paths := ["author", "author.country"];
    AuthorDedup();
    AuthorSubPaths();
    PopulateCountry(country);
    ByHeadsSingle("author", paths, map["author" := author]);
    StagesShape("author", author, ["country"]);
    LookupStagesByHeads(paths, map["author" := author]);
  }

  // ---------------------------------------------------------------- the imperative builder

  /** The grouping loop of `buildLookupStages`. */
  method GroupByHead(populate: seq<string>) returns (grouped: Groups)
    ensures grouped == Grouped(populate)
  {
    grouped := [];
    for i := 0 to |populate|
      invariant grouped == Grouped(populate[..i])
    {
      assert populate[..i + 1][..i] == populate[..i];
      var path := populate[i];
      var head := Head(path);
      var rest := RestList(path);
      if head in GroupKeys(grouped) {
        grouped := AppendTo(grouped, head, rest);
      } else {
        grouped := grouped + [(head, rest)];
      }
    }
    assert populate[..|populate|] == populate;
  }

  /** One more group of the stage loop appends the stages of its head, if any. */
  lemma GroupStagesStep(groups: Groups, j: nat, refs: Refs, bound: nat)
    requires j < |groups| && forall i :: 0 <= i < |groups| ==> Measure(groups[i].1) < bound
    ensures GroupStages(groups[..j + 1], refs, bound) == GroupStages(groups[..j], refs, bound)
      + (if groups[j].0 in refs then Stages(groups[j].0, refs[groups[j].0], groups[j].1) else [])
  {
    assert groups[..j + 1][..j] == groups[..j];
  }

  /** `buildLookupStages`: group the paths, then emit each resolvable group's stages. */
  method BuildLookupStages(populate: seq<string>, refs: Refs) returns (stages: seq<Value>)
    ensures stages == LookupStages(populate, refs)
    decreases Measure(populate), 2
  {
    var grouped := GroupByHead(populate);
    GroupedMeasure(populate);
    stages := EmitGroups(grouped, refs, Measure(populate));
  }

  /** The stage loop of `buildLookupStages` over the groups, in order. */
  method EmitGroups(grouped: Groups, refs: Refs, ghost bound: nat) returns (stages: seq<Value>)
    requires forall i :: 0 <= i < |grouped| ==> Measure(grouped[i].1) < bound
    ensures stages == GroupStages(grouped, refs, bound)
    decreases bound, 1
  {
    stages := [];
    for j := 0 to |grouped|
      invariant stages == GroupStages(grouped[..j], refs, bound)
    {
      GroupStagesStep(grouped, j, refs, bound);
      var (field, subPaths) := grouped[j];
      if field in refs {
        var more := EmitStages(field, refs[field], subPaths);
        stages := stages + more;
      }
    }
    assert grouped[..|grouped|] == grouped;
  }

  /** The body of the stage loop for a head `refs` resolves, recursing into its
      sub-paths when its collection has refs. */
  method EmitStages(field: string, ref: RefDefinition, subPaths: seq<string>) returns (stages: seq<Value>)
    ensures stages == Stages(field, ref, subPaths)
    decreases Measure(subPaths), 3
  {
    if |subPaths| > 0 && ref.refs.Some? {
      var nested := BuildLookupStages(subPaths, ref.refs.value);
      stages := [LookupStage(ref.collection, field, Some(nested))];
    } else {
      stages := [LookupStage(ref.collection, field, None)];
    }
    if !ref.isMany {
      stages := stages + [UnwindStage(field)];
    }
  }
}
