/** Sort strings, projections and field selection of the Mongo package. */
module QueryFields {
  import opened Js

  // ---------------------------------------------------------------- sort

  /** `convertSortToMongo`: `"-field"` sorts descending, `"field"` ascending, and no
      sort string (or the empty one) gives the empty sort document. */
  function ConvertSortToMongo(sort: Option<string>): (r: Fields)
    ensures sort.None? || sort.value == [] <==> r == []
    ensures r != [] ==> |r| == 1 && (r[0].1 == Num(-1) <==> sort.value[0] == '-')
    ensures r != [] ==> r[0].1 == Num(1) || r[0].1 == Num(-1)
    ensures r != [] ==> sort.value == (if r[0].1 == Num(-1) then "-" else "") + r[0].0
  {
    match sort
    case None => []
    case Some(s) =>
      if s == [] then []
      else if s[0] == '-' then [(s[1..], Num(-1))]
      else [(s, Num(1))]
  }

  /** The sort string a client writes for a field and a direction. */
  function SortString(field: string, descending: bool): string
  {
    if descending then "-" + field else field
  }

  /** Writing a sort string and converting it gives back the field and the direction,
      for any descending field and any ascending field that is non-empty and does not
      itself start with `-`. */
  lemma SortRoundTrip(field: string, descending: bool)
    requires descending || (field != [] && field[0] != '-')
    ensures ConvertSortToMongo(Some(SortString(field, descending))) == [(field, Num(if descending then -1 else 1))]
  {
    if descending {
      assert SortString(field, descending)[1..] == field;
    }
  }

  // ---------------------------------------------------------------- projection

  /** The projection document `{f: 1, ...}` for a list of field names. */
  function Projection(fields: seq<string>): Fields
  {
    if |fields| == 0 then []
    else Put(Projection(fields[..|fields| - 1]), fields[|fields| - 1], Num(1))
  }

  /** A projection holds every selected field once, in order of first mention. */
  lemma {:induction false} ProjectionKeys(fields: seq<string>)
    ensures Keys(Projection(fields)) == Dedup(fields)
    ensures UniqueKeys(Projection(fields))
  {
    if |fields| > 0 {
      var p, f := fields[..|fields| - 1], fields[|fields| - 1];
      ProjectionKeys(p);
      PutKeys(Projection(p), f, Num(1));
      PutUnique(Projection(p), f, Num(1));
    }
  }

  /** A projection includes each selected field with `1`, and nothing else. */
  lemma {:induction false} ProjectionIncludes(fields: seq<string>)
    ensures forall k :: Get(Projection(fields), k) == if k in fields then Some(Num(1)) else None
  {
    if |fields| > 0 {
      var p, f := fields[..|fields| - 1], fields[|fields| - 1];
      ProjectionIncludes(p);
      assert fields == p + [f];
      PutGet(Projection(p), f, Num(1));
    }
  }

  /** `buildProjection`. */
  method BuildProjection(select: seq<string>) returns (projection: Fields)
    ensures projection == Projection(select)
  {
    projection := [];
    for i := 0 to |select|
      invariant projection == Projection(select[..i])
    {
      assert select[..i + 1][..i] == select[..i];
      projection := Put(projection, select[i], Num(1));
    }
    assert select[..|select|] == select;
  }

  // ---------------------------------------------------------------- selection

  /** The field names of a `select` string: split on commas, each trimmed. */
  function SelectList(select: string): (names: seq<string>)
    ensures |names| >= 1
    ensures forall i :: 0 <= i < |names| ==> ',' !in names[i]
  {
    var parts := Split(select, ',');
    SplitParts(select, ',');
    seq(|parts|, i requires 0 <= i < |parts| => Trim(parts[i]))
  }

  /** The fields of `doc` named in `names`, copied in order of the names. */
  function Selected(doc: Fields, names: seq<string>): Fields
  {
    if |names| == 0 then []
    else
      var acc := Selected(doc, names[..|names| - 1]);
      var f := names[|names| - 1];
      if f in Keys(doc) then Put(acc, f, Get(doc, f).value) else acc
  }

  /** The selection holds exactly the named fields the document has, each once and
      with the document's value; names it lacks are skipped. */
  lemma {:induction false} SelectedSpec(doc: Fields, names: seq<string>)
    ensures UniqueKeys(Selected(doc, names))
    ensures forall k :: k in Keys(Selected(doc, names)) <==> k in names && k in Keys(doc)
    ensures forall k :: Get(Selected(doc, names), k) == if k in names then Get(doc, k) else None
  {
    if |names| > 0 {
      var p, f := names[..|names| - 1], names[|names| - 1];
      SelectedSpec(doc, p);
      assert names == p + [f];
      if f in Keys(doc) {
        PutUnique(Selected(doc, p), f, Get(doc, f).value);
        PutGet(Selected(doc, p), f, Get(doc, f).value);
      }
    }
  }

  /** `selectFields(doc, select)` as a value: no `select` (or the empty string) keeps
      the whole document. */
  function SelectFieldsSpec(doc: Fields, select: Option<string>): Fields
  {
    if select.None? || select.value == [] then doc else Selected(doc, SelectList(select.value))
  }

  /** `selectFields`. */
  method SelectFields(doc: Fields, select: Option<string>) returns (result: Fields)
    ensures result == SelectFieldsSpec(doc, select)
  {
    if select.None? || select.value == [] {
      return doc;
    }
    var fields := SelectList(select.value);
    result := [];
    for i := 0 to |fields|
      invariant result == Selected(doc, fields[..i])
    {
      assert fields[..i + 1][..i] == fields[..i];
      var field := fields[i];
      if field in Keys(doc) {
        result := Put(result, field, Get(doc, field).value);
      }
    }
    assert fields[..|fields|] == fields;
  }

  /** Names written back to back with commas, none with a comma or surrounding white
      space, select exactly those names. */
  lemma SelectListJoin(names: seq<string>)
    requires |names| >= 1
    requires forall i :: 0 <= i < |names| ==> ',' !in names[i] && Trim(names[i]) == names[i]
    ensures SelectList(Join(names, ',')) == names
  {
    SplitJoin(names, ',');
  }

  // Worked examples on the text "a,b" and the document {a: 1, b: 2, c: 3}: each of the
  // lemmas below up to SelectKeepsNamedFields evaluates one step of selecting "a,b".

  lemma TrimLetters()
    ensures Trim("a") == "a" && Trim("b") == "b"
  {
    LowerCaseNotTrimmable('a');
    LowerCaseNotTrimmable('b');
    TrimChar('a');
    TrimChar('b');
  }

  /** No lower-case letter is white space. */
  lemma LowerCaseNotTrimmable(c: char)
    requires 'a' <= c <= 'z'
    ensures !IsTrimmable(c)
  {
  }

  /** A single character other than white space is its own trim. */
  lemma TrimChar(c: char)
    requires !IsTrimmable(c)
    ensures Trim([c]) == [c]
  {
    assert TrimStart([c]) == [c];
    assert TrimEnd([c]) == [c];
  }

  /** `"a,b"` selects `a` and `b`. */
  lemma SelectListOfPair()
    ensures SelectList("a,b") == ["a", "b"]
  {
    SplitPair();
    TrimLetters();
    SelectListOfTwo("a,b", "a", "b");
  }

  lemma SplitPair()
    ensures Split("a,b", ',') == ["a", "b"]
  {
    var s := "a,b";
    assert s[1] == ',' && ',' !in s[..1];
    IndexOfFirst(s, ',', 1);
    assert s[..1] == "a" && s[2..] == "b" && ',' !in "b";
  }

  /** When the text splits into two parts without surrounding white space, the
      selection is those two parts. */
  lemma SelectListOfTwo(select: string, x: string, y: string)
    requires Split(select, ',') == [x, y] && Trim(x) == x && Trim(y) == y
    ensures SelectList(select) == [x, y]
  {
  }

  /** Selecting `a` then `b` from `{a: 1, b: 2, c: 3}`. */
  lemma SelectedPair()
    ensures Selected([("a", Num(1)), ("b", Num(2)), ("c", Num(3))], ["a", "b"]) == [("a", Num(1)), ("b", Num(2))]
  {
    var doc := [("a", Num(1)), ("b", Num(2)), ("c", Num(3))];
    var names: seq<string> := ["a", "b"];
    assert Keys(doc) == ["a", "b", "c"];
    assert names[..1] == ["a"];
    assert Selected(doc, ["a"]) == [("a", Num(1))] by {
      assert ["a"][..0] == [];
    }
    assert Keys([("a", Num(1))]) == ["a"];
    assert Get(doc, "b") == Some(Num(2));
    assert Selected(doc, names) == Put([("a", Num(1))], "b", Num(2));
  }

  /** Selecting `"a,b"` from `{a: 1, b: 2, c: 3}` keeps `a` and `b`, in that order. */
  lemma SelectKeepsNamedFields()
    ensures SelectFieldsSpec([("a", Num(1)), ("b", Num(2)), ("c", Num(3))], Some("a,b")) == [("a", Num(1)), ("b", Num(2))]
  {
    SelectListOfPair();
    SelectedPair();
  }
}
