/** JavaScript value semantics that the query layer relies on: JSON-like values,
    plain objects as ordered key/value lists, property assignment, `Object.assign`,
    object rest-destructuring, `Object.entries`, `[...new Set(xs)]`, `String(v)`,
    `String.prototype.split`, `Array.prototype.join` and `String.prototype.trim`. */
module Js {

  datatype Option<+T> = None | Some(value: T)

  /** A BSON ObjectId, identified by its hexadecimal rendering (what `toString()` gives). */
  datatype ObjectId = ObjectId(hex: string)

  /** A runtime value. Numbers are integers; `Obj` lists the own enumerable
      properties in insertion order. */
  datatype Value =
    | Null
    | Bool(b: bool)
    | Num(n: int)
    | Str(s: string)
    | Arr(items: seq<Value>)
    | Obj(fields: seq<(string, Value)>)
    | Oid(id: ObjectId)

  type Fields = seq<(string, Value)>

  /** `Object.keys(obj)`. */
  function Keys(fs: Fields): (ks: seq<string>)
    ensures |ks| == |fs|
  {
    if |fs| == 0 then [] else [fs[0].0] + Keys(fs[1..])
  }

  /** The `i`-th key is the key of the `i`-th property. */
  lemma {:induction false} KeysAt(fs: Fields)
    ensures forall i :: 0 <= i < |fs| ==> Keys(fs)[i] == fs[i].0
  {
    if |fs| > 0 {
      KeysAt(fs[1..]);
    }
  }

  /** The keys after the first property are the keys of the rest. */
  lemma KeysTail(fs: Fields)
    requires |fs| > 0
    ensures Keys(fs) == [fs[0].0] + Keys(fs[1..])
  {
  }

  lemma {:induction false} KeysConcat(a: Fields, b: Fields)
    ensures Keys(a + b) == Keys(a) + Keys(b)
  {
    if |a| > 0 {
      KeysConcat(a[1..], b);
      assert (a + b)[1..] == a[1..] + b;
    } else {
      assert a + b == b;
    }
  }

  predicate Distinct(xs: seq<string>)
  {
    forall i, j :: 0 <= i < j < |xs| ==> xs[i] != xs[j]
  }

  lemma DistinctAppend(xs: seq<string>, x: string)
    ensures Distinct(xs) && x !in xs ==> Distinct(xs + [x])
  {
  }

  /** The keys of a JavaScript object are pairwise distinct. */
  predicate UniqueKeys(fs: Fields)
  {
    Distinct(Keys(fs))
  }

  /** `obj[k]`: the value stored under `k`, if any. */
  function Get(fs: Fields, k: string): (r: Option<Value>)
    ensures r.Some? <==> k in Keys(fs)
  {
    if |fs| == 0 then None
    else if fs[0].0 == k then assert Keys(fs)[0] == k; Some(fs[0].1)
    else KeysTail(fs); Get(fs[1..], k)
  }

  /** With distinct keys, every key reads the value stored beside it. */
  lemma {:induction false} GetAt(fs: Fields, i: nat)
    requires UniqueKeys(fs) && i < |fs|
    ensures Get(fs, fs[i].0) == Some(fs[i].1)
  {
    if i > 0 {
      assert Keys(fs)[0] != Keys(fs)[i];
      assert Keys(fs[1..]) == Keys(fs)[1..];
      GetAt(fs[1..], i - 1);
    }
  }

  /** `obj[k] = v`: an existing key keeps its position, a new key goes last. */
  function Put(fs: Fields, k: string, v: Value): Fields
  {
    if |fs| == 0 then [(k, v)]
    else if fs[0].0 == k then [(k, v)] + fs[1..]
    else [fs[0]] + Put(fs[1..], k, v)
  }

  /** Assignment keeps the order of the keys and appends a new one. */
  lemma {:induction false} PutKeys(fs: Fields, k: string, v: Value)
    ensures Keys(Put(fs, k, v)) == if k in Keys(fs) then Keys(fs) else Keys(fs) + [k]
    ensures k !in Keys(fs) ==> Put(fs, k, v) == fs + [(k, v)]
  {
    if |fs| > 0 {
      KeysTail(fs);
      if fs[0].0 == k {
        assert Keys(fs)[0] == k;
        KeysTail(Put(fs, k, v));
      } else {
        PutKeys(fs[1..], k, v);
        KeysTail(Put(fs, k, v));
        assert fs[1..] + [(k, v)] == (fs + [(k, v)])[1..];
      }
    }
  }

  /** After `obj[k] = v`, reading `k` gives `v` and every other key reads as before. */
  lemma {:induction false} PutGet(fs: Fields, k: string, v: Value)
    ensures Get(Put(fs, k, v), k) == Some(v)
    ensures forall k' :: k' != k ==> Get(Put(fs, k, v), k') == Get(fs, k')
  {
    if |fs| > 0 && fs[0].0 != k {
      PutGet(fs[1..], k, v);
      assert Put(fs, k, v)[1..] == Put(fs[1..], k, v);
    }
  }

  /** Assigning a property keeps the keys of an object distinct. */
  lemma PutUnique(fs: Fields, k: string, v: Value)
    requires UniqueKeys(fs)
    ensures UniqueKeys(Put(fs, k, v))
  {
    PutKeys(fs, k, v);
    DistinctAppend(Keys(fs), k);
  }

  /** `const { [k]: _, ...rest } = obj`: every other property, in order. */
  function Remove(fs: Fields, k: string): (r: Fields)
    ensures k !in Keys(r)
    ensures forall k' :: k' != k ==> Get(r, k') == Get(fs, k')
    ensures forall p :: p in r ==> p in fs
  {
    if |fs| == 0 then []
    else if fs[0].0 == k then Remove(fs[1..], k)
    else
      var r := [fs[0]] + Remove(fs[1..], k);
      KeysTail(r);
      assert r[1..] == Remove(fs[1..], k);
      r
  }

  /** Assigning properties keeps the keys of an object distinct. */
  lemma {:induction false} AssignUnique(target: Fields, source: Fields)
    requires UniqueKeys(target)
    ensures UniqueKeys(Assign(target, source))
    decreases |source|
  {
    if |source| > 0 {
      PutUnique(target, source[0].0, source[0].1);
      AssignUnique(Put(target, source[0].0, source[0].1), source[1..]);
    }
  }

  /** `Object.assign(target, source)`: the properties of `source` assigned in order. */
  function Assign(target: Fields, source: Fields): Fields
    decreases |source|
  {
    if |source| == 0 then target
    else Assign(Put(target, source[0].0, source[0].1), source[1..])
  }

  /** After `Object.assign`, the keys are those of the target and of the source. */
  lemma {:induction false} AssignKeys(target: Fields, source: Fields)
    ensures forall k :: k in Keys(Assign(target, source)) <==> k in Keys(target) || k in Keys(source)
    decreases |source|
  {
    if |source| > 0 {
      KeysTail(source);
      PutKeys(target, source[0].0, source[0].1);
      AssignKeys(Put(target, source[0].0, source[0].1), source[1..]);
    }
  }

  /** With distinct source keys, a key of the source reads its source value and
      every other key reads as in the target. */
  lemma {:induction false} AssignGet(target: Fields, source: Fields)
    requires UniqueKeys(source)
    ensures forall k :: Get(Assign(target, source), k) == if k in Keys(source) then Get(source, k) else Get(target, k)
    decreases |source|
  {
    if |source| > 0 {
      var (k0, v0) := source[0];
      var t := Put(target, k0, v0);
      KeysTail(source);
      assert forall i :: 0 <= i < |source| - 1 ==> Keys(source[1..])[i] == Keys(source)[i + 1];
      assert UniqueKeys(source[1..]);
      assert Keys(source)[0] == k0;
      assert k0 !in Keys(source[1..]);
      AssignGet(t, source[1..]);
      PutGet(target, k0, v0);
    }
  }

  /** `[...new Set(xs)]`: the distinct elements in order of first occurrence. */
  function Dedup(xs: seq<string>): seq<string>
  {
    if |xs| == 0 then []
    else
      var d := Dedup(xs[..|xs| - 1]);
      if xs[|xs| - 1] in d then d else d + [xs[|xs| - 1]]
  }

  lemma DedupAppend(xs: seq<string>, x: string)
    ensures Dedup(xs + [x]) == if x in Dedup(xs) then Dedup(xs) else Dedup(xs) + [x]
  {
    assert (xs + [x])[..|xs + [x]| - 1] == xs;
  }

  /** The deduplicated list holds exactly the elements of the input, each once. */
  lemma {:induction false} DedupSpec(xs: seq<string>)
    ensures forall x :: x in Dedup(xs) <==> x in xs
    ensures forall i, j :: 0 <= i < j < |Dedup(xs)| ==> Dedup(xs)[i] != Dedup(xs)[j]
  {
    if |xs| > 0 {
      var p, x := xs[..|xs| - 1], xs[|xs| - 1];
      DedupSpec(p);
      assert xs == p + [x];
      DedupAppend(p, x);
    }
  }

  /** Deduplicating a suffix first changes nothing: `[...new Set([...a, ...new Set(b)])]`
      equals `[...new Set([...a, ...b])]`. */
  lemma {:induction false} DedupOfDedupSuffix(a: seq<string>, b: seq<string>)
    ensures Dedup(a + Dedup(b)) == Dedup(a + b)
    decreases |b|
  {
    if |b| == 0 {
      assert a + Dedup(b) == a + b;
    } else {
      var b', x := b[..|b| - 1], b[|b| - 1];
      assert b == b' + [x];
      assert a + b == (a + b') + [x];
      DedupOfDedupSuffix(a, b');
      DedupAppend(b', x);
      DedupAppend(a + b', x);
      DedupSpec(b');
      DedupSpec(a + b');
      if x !in Dedup(b') {
        assert a + Dedup(b) == (a + Dedup(b')) + [x];
        DedupAppend(a + Dedup(b'), x);
      }
    }
  }

  // ---------------------------------------------------------------- numbers as text

  function DigitChar(d: nat): (c: char)
    requires d < 10
    ensures c as int - '0' as int == d
  {
    ('0' as int + d) as char
  }

  /** The decimal rendering of a natural number, as `String(n)` gives it. */
  function DecimalString(n: nat): (s: string)
    ensures |s| >= 1
    ensures forall i :: 0 <= i < |s| ==> '0' <= s[i] <= '9'
    ensures n > 0 ==> s[0] != '0'
  {
    if n < 10 then [DigitChar(n)] else DecimalString(n / 10) + [DigitChar(n % 10)]
  }

  function DecimalValue(s: string): int
  {
    if |s| == 0 then 0 else 10 * DecimalValue(s[..|s| - 1]) + (s[|s| - 1] as int - '0' as int)
  }

  /** Reading the decimal rendering back gives the number: distinct indices give distinct keys. */
  lemma {:induction false} DecimalRoundTrip(n: nat)
    ensures DecimalValue(DecimalString(n)) == n
  {
    if n >= 10 {
      DecimalRoundTrip(n / 10);
      var s := DecimalString(n);
      assert s == DecimalString(n / 10) + [DigitChar(n % 10)];
      assert s[..|s| - 1] == DecimalString(n / 10);
      assert DecimalValue(s) == 10 * (n / 10) + n % 10;
    }
  }

  lemma DecimalInjective(m: nat, n: nat)
    requires DecimalString(m) == DecimalString(n)
    ensures m == n
  {
    DecimalRoundTrip(m);
    DecimalRoundTrip(n);
  }

  function IntString(n: int): string
  {
    if n < 0 then "-" + DecimalString(-n) else DecimalString(n)
  }

  /** `String(v)`, `None` where it throws. Arrays join their elements with `,`, rendering
      `null` as empty. An object with its own `toString` key throws a TypeError: that key
      is not callable, and the inherited `valueOf` gives back the object itself. */
  function JsString(v: Value): Option<string>
  {
    match v
    case Null => Some("null")
    case Bool(b) => Some(if b then "true" else "false")
    case Num(n) => Some(IntString(n))
    case Str(s) => Some(s)
    case Arr(items) => JoinedItems(items)
    case Obj(fs) => if "toString" in Keys(fs) then None else Some("[object Object]")
    case Oid(id) => Some(id.hex)
  }

  function JoinedItems(items: seq<Value>): Option<string>
  {
    if |items| == 0 then Some("")
    else
      var first := if items[0].Null? then Some("") else JsString(items[0]);
      if first.None? then None
      else if |items| == 1 then first
      else
        match JoinedItems(items[1..])
        case None => None
        case Some(rest) => Some(first.value + "," + rest)
  }

  /** `String(v)` does not throw: no object with its own `toString` key is reached,
      directly or through arrays. */
  predicate Printable(v: Value)
  {
    match v
    case Arr(items) => forall i :: 0 <= i < |items| ==> Printable(items[i])
    case Obj(fs) => "toString" !in Keys(fs)
    case _ => true
  }

  /** `String(v)` throws exactly on the values that are not printable. */
  lemma {:induction false} JsStringThrows(v: Value)
    ensures JsString(v).Some? <==> Printable(v)
  {
    match v
    case Arr(items) => JoinedItemsThrows(items);
    case _ =>
  }

  lemma {:induction false} JoinedItemsThrows(items: seq<Value>)
    ensures JoinedItems(items).Some? <==> forall i :: 0 <= i < |items| ==> Printable(items[i])
    decreases items, 0
  {
    if |items| > 0 {
      JsStringThrows(items[0]);
      JoinedItemsThrows(items[1..]);
      assert forall i :: 1 <= i < |items| ==> items[i] == items[1..][i - 1];
    }
  }

  // ---------------------------------------------------------------- Object.entries

  /** Nesting depth of arrays and objects; the measure the recursive compilers decrease. */
  function Depth(v: Value): nat
  {
    match v
    case Arr(items) => 1 + ItemsDepth(items)
    case Obj(fs) => 1 + FieldsDepth(fs)
    case _ => 0
  }

  function ItemsDepth(items: seq<Value>): nat
  {
    if |items| == 0 then 0
    else
      var h, t := Depth(items[0]), ItemsDepth(items[1..]);
      if h < t then t else h
  }

  lemma {:induction false} ItemsDepthBound(items: seq<Value>)
    ensures forall i :: 0 <= i < |items| ==> Depth(items[i]) <= ItemsDepth(items)
  {
    if |items| > 0 {
      ItemsDepthBound(items[1..]);
      assert forall i :: 1 <= i < |items| ==> items[i] == items[1..][i - 1];
    }
  }

  function FieldsDepth(fs: Fields): (d: nat)
  {
    if |fs| == 0 then 0
    else
      assert fs[0] in fs;
      assert fs[0].1 < fs[0];
      var h, t := Depth(fs[0].1), FieldsDepth(fs[1..]);
      if h < t then t else h
  }

  lemma {:induction false} FieldsDepthBound(fs: Fields)
    ensures forall i :: 0 <= i < |fs| ==> Depth(fs[i].1) <= FieldsDepth(fs)
  {
    if |fs| > 0 {
      FieldsDepthBound(fs[1..]);
      assert forall i :: 1 <= i < |fs| ==> fs[i] == fs[1..][i - 1];
    }
  }

  /** The index keys `"0"`, `"1"`, ... that `Object.entries` gives an array or a string. */
  function IndexKeyed(vs: seq<Value>): (r: Fields)
    ensures |r| == |vs|
  {
    if |vs| == 0 then []
    else IndexKeyed(vs[..|vs| - 1]) + [(DecimalString(|vs| - 1), vs[|vs| - 1])]
  }

  lemma {:induction false} IndexKeyedAt(vs: seq<Value>)
    ensures forall i :: 0 <= i < |vs| ==> IndexKeyed(vs)[i] == (DecimalString(i), vs[i])
  {
    if |vs| > 0 {
      var p := vs[..|vs| - 1];
      IndexKeyedAt(p);
      assert forall i :: 0 <= i < |p| ==> IndexKeyed(vs)[i] == IndexKeyed(p)[i] && p[i] == vs[i];
    }
  }

  /** Index keys are pairwise distinct. */
  lemma IndexKeyedUnique(vs: seq<Value>)
    ensures UniqueKeys(IndexKeyed(vs))
  {
    var r := IndexKeyed(vs);
    IndexKeyedAt(vs);
    KeysAt(r);
    forall i, j | 0 <= i < j < |r| ensures Keys(r)[i] != Keys(r)[j] {
      if r[i].0 == r[j].0 { DecimalInjective(i, j); }
    }
  }

  /** The one-character strings of `s`, in order. */
  function CharValues(s: string): (r: seq<Value>)
    ensures |r| == |s|
  {
    if |s| == 0 then [] else CharValues(s[..|s| - 1]) + [Str([s[|s| - 1]])]
  }

  lemma {:induction false} CharValuesAt(s: string)
    ensures forall i :: 0 <= i < |s| ==> CharValues(s)[i] == Str([s[i]])
  {
    if |s| > 0 {
      var p := s[..|s| - 1];
      CharValuesAt(p);
      assert forall i :: 0 <= i < |p| ==> CharValues(s)[i] == CharValues(p)[i] && p[i] == s[i];
    }
  }

  /** `Object.entries(v)`; `None` where it throws a TypeError (on `null`). An ObjectId
      has no entries here. */
  function Entries(v: Value): (r: Option<Fields>)
    ensures r.None? <==> v.Null?
  {
    match v
    case Null => None
    case Str(s) => Some(IndexKeyed(CharValues(s)))
    case Arr(items) => Some(IndexKeyed(items))
    case Obj(fs) => Some(fs)
    case _ => Some([])
  }

  /** Entries other than an object's own carry distinct keys; the entries of an array
      or object nest less deeply than it does, and those of anything else not at all. */
  lemma EntriesSpec(v: Value)
    requires !v.Null?
    ensures !v.Obj? ==> UniqueKeys(Entries(v).value)
    ensures v.Arr? || v.Obj? ==> forall i :: 0 <= i < |Entries(v).value| ==> Depth(Entries(v).value[i].1) < Depth(v)
    ensures !(v.Arr? || v.Obj?) ==> forall i :: 0 <= i < |Entries(v).value| ==> Depth(Entries(v).value[i].1) == 0
  {
    match v
    case Str(s) =>
      IndexKeyedUnique(CharValues(s));
      IndexKeyedAt(CharValues(s));
      CharValuesAt(s);
    case Arr(items) =>
      IndexKeyedUnique(items);
      IndexKeyedAt(items);
      ItemsDepthBound(items);
    case Obj(fs) =>
      FieldsDepthBound(fs);
    case _ =>
  }

  // ---------------------------------------------------------------- strings

  /** `s.indexOf(c)` when `c` occurs in `s`. */
  function IndexOf(s: string, c: char): (i: nat)
    requires c in s
    ensures i < |s| && s[i] == c && c !in s[..i]
  {
    if s[0] == c then 0 else 1 + IndexOf(s[1..], c)
  }

  /** `s.split(sep)` for a one-character separator. */
  function Split(s: string, sep: char): (parts: seq<string>)
    ensures |parts| >= 1
    decreases |s|
  {
    if sep !in s then [s]
    else
      var i := IndexOf(s, sep);
      [s[..i]] + Split(s[i + 1..], sep)
  }

  /** No part of a split string holds the separator. */
  lemma {:induction false} SplitParts(s: string, sep: char)
    ensures forall i :: 0 <= i < |Split(s, sep)| ==> sep !in Split(s, sep)[i]
    decreases |s|
  {
    if sep in s {
      var i := IndexOf(s, sep);
      var tail := Split(s[i + 1..], sep);
      SplitParts(s[i + 1..], sep);
      assert Split(s, sep) == [s[..i]] + tail;
      assert forall j :: 1 <= j < |Split(s, sep)| ==> Split(s, sep)[j] == tail[j - 1];
    }
  }

  /** `parts.join(sep)`. */
  function Join(parts: seq<string>, sep: char): string
  {
    if |parts| == 0 then ""
    else if |parts| == 1 then parts[0]
    else parts[0] + [sep] + Join(parts[1..], sep)
  }

  /** Splitting and joining back on the same separator gives the original string. */
  lemma {:induction false} JoinSplit(s: string, sep: char)
    ensures Join(Split(s, sep), sep) == s
    decreases |s|
  {
    if sep in s {
      var i := IndexOf(s, sep);
      JoinSplit(s[i + 1..], sep);
      assert s == s[..i] + [sep] + s[i + 1..];
    }
  }

  /** Joining parts that hold no separator and splitting again gives the parts back. */
  lemma {:induction false} SplitJoin(parts: seq<string>, sep: char)
    requires |parts| >= 1
    requires forall i :: 0 <= i < |parts| ==> sep !in parts[i]
    ensures Split(Join(parts, sep), sep) == parts
  {
    if |parts| > 1 {
      var s := Join(parts, sep);
      var rest := Join(parts[1..], sep);
      assert s == parts[0] + [sep] + rest;
      assert s[..|parts[0]|] == parts[0];
      assert s[|parts[0]|] == sep;
      assert IndexOf(s, sep) == |parts[0]| by {
        IndexOfFirst(s, sep, |parts[0]|);
      }
      assert s[|parts[0]| + 1..] == rest;
      SplitJoin(parts[1..], sep);
    }
  }

  lemma {:induction false} IndexOfFirst(s: string, c: char, i: nat)
    requires i < |s| && s[i] == c && c !in s[..i]
    ensures IndexOf(s, c) == i
  {
    if i > 0 {
      assert s[0] == s[..i][0];
      assert s[1..][..i - 1] == s[..i][1..];
      IndexOfFirst(s[1..], c, i - 1);
    }
  }

  /** Joining two non-empty lists is joining their joins. */
  lemma {:induction false} JoinConcat(a: seq<string>, b: seq<string>, sep: char)
    requires |a| >= 1 && |b| >= 1
    ensures Join(a + b, sep) == Join(a, sep) + [sep] + Join(b, sep)
  {
    if |a| == 1 {
      assert (a + b)[1..] == b;
    } else {
      assert (a + b)[1..] == a[1..] + b;
      JoinConcat(a[1..], b, sep);
    }
  }

  /** The characters `String.prototype.trim` removes: white space and line terminators. */
  predicate IsTrimmable(c: char)
  {
    || c == '\t' || c == '\n' || c == '\U{000B}' || c == '\U{000C}' || c == '\r' || c == ' '
    || c == '\U{00A0}' || c == '\U{1680}' || '\U{2000}' <= c <= '\U{200A}'
    || c == '\U{2028}' || c == '\U{2029}' || c == '\U{202F}' || c == '\U{205F}'
    || c == '\U{3000}' || c == '\U{FEFF}'
  }

  function TrimStart(s: string): (r: string)
    ensures |r| == 0 || !IsTrimmable(r[0])
    ensures |r| <= |s| && r == s[|s| - |r|..]
  {
    if |s| > 0 && IsTrimmable(s[0]) then TrimStart(s[1..]) else s
  }

  function TrimEnd(s: string): (r: string)
    ensures |r| == 0 || !IsTrimmable(r[|r| - 1])
    ensures |r| <= |s| && r == s[..|r|]
  {
    if |s| > 0 && IsTrimmable(s[|s| - 1]) then TrimEnd(s[..|s| - 1]) else s
  }

  /** `s.trim()`. */
  function Trim(s: string): (r: string)
    ensures |r| == 0 || (!IsTrimmable(r[0]) && !IsTrimmable(r[|r| - 1]))
    ensures forall c :: c in r ==> c in s
  {
    var t := TrimStart(s);
    var r := TrimEnd(t);
    assert |r| > 0 ==> r[0] == t[0];
    assert forall c :: c in r ==> c in t;
    assert forall c :: c in t ==> c in s;
    r
  }
}
