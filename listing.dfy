/** The client's list helpers over loosely typed records: `getNestedValue`
    (a dotted path walked with optional chaining), `filterData` (a
    case-insensitive substring search over some fields) and `sortData` (a
    sorted copy by one field, missing values last). */
module Listing {
  import opened Text
  import opened Sorting

  /** A JavaScript value as a record field holds it. Numbers are integers. */
  datatype Json =
    | Undefined
    | Null
    | Bool(b: bool)
    | Num(n: int)
    | Str(s: string)
    | Arr(items: seq<Json>)
    | Obj(fields: map<string, Json>)

  predicate Nullish(v: Json) {
    v.Undefined? || v.Null?
  }

  /** JavaScript truthiness. */
  predicate Truthy(v: Json) {
    match v
    case Undefined => false
    case Null => false
    case Bool(b) => b
    case Num(n) => n != 0
    case Str(s) => s != ""
    case Arr(_) => true
    case Obj(_) => true
  }

  /** `value.toString()`: an array joins its elements' strings with a comma,
      rendering `null` and `undefined` elements as empty. */
  function ToText(v: Json): string
    decreases v
  {
    match v
    case Undefined => "undefined"
    case Null => "null"
    case Bool(b) => if b then "true" else "false"
    case Num(n) => IntToString(n)
    case Str(s) => s
    case Arr(items) => Join(ElementTexts(items), ",")
    case Obj(_) => "[object Object]"
  }

  function ElementTexts(items: seq<Json>): seq<string>
    decreases items
  {
    if items == [] then []
    else [if Nullish(items[0]) then "" else ToText(items[0])] + ElementTexts(items[1..])
  }

  // ------------------------------------------------ paths

  /** `s.split(c)`: the pieces between the separators, at least one. */
  function Split(s: string, c: char): (r: seq<string>)
    ensures |r| >= 1
  {
    if s == [] then [""]
    else
      var rest := Split(s[1..], c);
      if s[0] == c then [""] + rest else [[s[0]] + rest[0]] + rest[1..]
  }

  /** No piece holds the separator. */
  lemma {:induction false} SplitPiecesFree(s: string, c: char)
    ensures forall i :: 0 <= i < |Split(s, c)| ==> c !in Split(s, c)[i]
  {
    if s != [] {
      SplitPiecesFree(s[1..], c);
    }
  }

  /** Joining the pieces with the separator gives the string back. */
  lemma {:induction false} SplitJoin(s: string, c: char)
    ensures Join(Split(s, c), [c]) == s
  {
    if s != [] {
      var rest := Split(s[1..], c);
      SplitJoin(s[1..], c);
      if s[0] == c {
        assert ([""] + rest)[1..] == rest;
      } else {
        var parts := [[s[0]] + rest[0]] + rest[1..];
        if |rest| > 1 {
          assert parts[1..] == rest[1..];
          assert Join(rest, [c]) == rest[0] + [c] + Join(rest[1..], [c]);
        }
      }
    }
  }

  /** Splitting at a separator splits each side on its own. */
  lemma {:induction false} SplitAround(p: string, q: string, c: char)
    ensures Split(p + [c] + q, c) == Split(p, c) + Split(q, c)
    decreases |p|
  {
    var s := p + [c] + q;
    if p == [] {
      assert s[1..] == q;
    } else {
      assert s[1..] == p[1..] + [c] + q;
      SplitAround(p[1..], q, c);
    }
  }

  /** `current?.[key]`: a lookup that stops at `null` and `undefined`. Only
      objects are given properties. */
  function Get(v: Json, key: string): Json {
    match v
    case Obj(fields) => if key in fields then fields[key] else Undefined
    case _ => Undefined
  }

  /** The `reduce` over the keys of a path. */
  function Walk(v: Json, keys: seq<string>): Json
    decreases |keys|
  {
    if keys == [] then v else Walk(Get(v, keys[0]), keys[1..])
  }

  /** Walking two key lists one after the other is walking their concatenation. */
  lemma {:induction false} WalkAppend(v: Json, a: seq<string>, b: seq<string>)
    ensures Walk(v, a + b) == Walk(Walk(v, a), b)
    decreases |a|
  {
    if a != [] {
      assert (a + b)[0] == a[0] && (a + b)[1..] == a[1..] + b;
      WalkAppend(Get(v, a[0]), a[1..], b);
    } else {
      assert a + b == b;
    }
  }

  /** Once a walk reaches `undefined` it stays there. */
  lemma {:induction false} WalkUndefined(keys: seq<string>)
    ensures Walk(Undefined, keys) == Undefined
    decreases |keys|
  {
    if keys != [] {
      WalkUndefined(keys[1..]);
    }
  }

  /** `getNestedValue(obj, path)`. */
  function GetNestedValue(obj: Json, path: string): (r: Json)
    ensures obj == Undefined ==> r == Undefined
  {
    WalkUndefined(Split(path, '.'));
    Walk(obj, Split(path, '.'))
  }

  /** A dotted path is looked up one segment after the other. */
  lemma NestedPath(obj: Json, p: string, q: string)
    ensures GetNestedValue(obj, p + "." + q) == GetNestedValue(GetNestedValue(obj, p), q)
  {
    assert p + "." + q == p + ['.'] + q;
    SplitAround(p, q, '.');
    WalkAppend(obj, Split(p, '.'), Split(q, '.'));
  }

  /** A path without dots is a single property lookup. */
  lemma PlainPath(obj: Json, key: string)
    requires '.' !in key
    ensures GetNestedValue(obj, key) == Get(obj, key)
  {
    SplitPlain(key, '.');
    assert Walk(obj, [key]) == Walk(Get(obj, key), []);
  }

  lemma {:induction false} SplitPlain(s: string, c: char)
    requires c !in s
    ensures Split(s, c) == [s]
  {
    if s != [] {
      assert c !in s[1..];
      SplitPlain(s[1..], c);
      assert [s[0]] + s[1..] == s;
    }
  }

  // ------------------------------------------------ filterData

  /** `array.filter(p)`: the elements satisfying `p`, in order. */
  function Filter<T>(s: seq<T>, p: T -> bool): seq<T>
    decreases |s|
  {
    if s == [] then []
    else (if p(s[0]) then [s[0]] else []) + Filter(s[1..], p)
  }

  lemma {:induction false} FilterAppend<T>(a: seq<T>, b: seq<T>, p: T -> bool)
    ensures Filter(a + b, p) == Filter(a, p) + Filter(b, p)
    decreases |a|
  {
    if a != [] {
      assert (a + b)[0] == a[0] && (a + b)[1..] == a[1..] + b;
      FilterAppend(a[1..], b, p);
    } else {
      assert a + b == b;
    }
  }

  /** Each element is kept as often as it occurs, if it satisfies `p`, and
      otherwise dropped. */
  lemma {:induction false} FilterCount<T>(s: seq<T>, p: T -> bool, x: T)
    ensures multiset(Filter(s, p))[x] == if p(x) then multiset(s)[x] else 0
    decreases |s|
  {
    if s != [] {
      FilterCount(s[1..], p, x);
      assert s == [s[0]] + s[1..];
    }
  }

  /** A list whose every element satisfies `p` is kept whole. */
  lemma {:induction false} FilterAll<T>(s: seq<T>, p: T -> bool)
    requires forall i :: 0 <= i < |s| ==> p(s[i])
    ensures Filter(s, p) == s
    decreases |s|
  {
    if s != [] {
      FilterAll(s[1..], p);
    }
  }

  lemma {:induction false} FilterKeeps<T>(s: seq<T>, p: T -> bool)
    ensures forall i :: 0 <= i < |Filter(s, p)| ==> p(Filter(s, p)[i])
    decreases |s|
  {
    if s != [] {
      FilterKeeps(s[1..], p);
    }
  }

  /** Filtering twice by the same test is filtering once. */
  lemma FilterIdempotent<T>(s: seq<T>, p: T -> bool)
    ensures Filter(Filter(s, p), p) == Filter(s, p)
  {
    FilterKeeps(s, p);
    FilterAll(Filter(s, p), p);
  }

  /** A field value matches when it is truthy and its lower-cased string
      contains the (already lower-cased) term. */
  predicate Hit(v: Json, term: string) {
    Truthy(v) && Contains(Lower(ToText(v)), term)
  }

  /** `searchFields.some(...)`. */
  predicate Matches(item: Json, term: string, fields: seq<string>) {
    exists i :: 0 <= i < |fields| && Hit(GetNestedValue(item, fields[i]), term)
  }

  function Matcher(term: string, fields: seq<string>): Json -> bool {
    item => Matches(item, term, fields)
  }

  /** `filterData(data, searchTerm, searchFields)`. */
  function FilterData(data: seq<Json>, searchTerm: string, fields: seq<string>): (r: seq<Json>)
    ensures searchTerm != "" ==> forall i :: 0 <= i < |r| ==> Matches(r[i], Lower(searchTerm), fields)
  {
    if searchTerm == "" then data
    else
      FilterKeeps(data, Matcher(Lower(searchTerm), fields));
      Filter(data, Matcher(Lower(searchTerm), fields))
  }

  /** With a search term, an item is kept, as often as it occurs, exactly
      when one of the fields matches; without one, everything is kept. */
  lemma FilterDataKeeps(data: seq<Json>, searchTerm: string, fields: seq<string>, item: Json)
    ensures multiset(FilterData(data, searchTerm, fields))[item] ==
            if searchTerm == "" || Matches(item, Lower(searchTerm), fields) then multiset(data)[item] else 0
    ensures searchTerm == "" ==> FilterData(data, searchTerm, fields) == data
  {
    if searchTerm != "" {
      FilterCount(data, Matcher(Lower(searchTerm), fields), item);
    }
  }

  /** The search preserves order: searching a concatenation searches its parts. */
  lemma FilterDataAppend(a: seq<Json>, b: seq<Json>, searchTerm: string, fields: seq<string>)
    ensures FilterData(a + b, searchTerm, fields) == FilterData(a, searchTerm, fields) + FilterData(b, searchTerm, fields)
  {
    if searchTerm != "" {
      FilterAppend(a, b, Matcher(Lower(searchTerm), fields));
    }
  }

  /** Searching the result again with the same term changes nothing. */
  lemma FilterDataIdempotent(data: seq<Json>, searchTerm: string, fields: seq<string>)
    ensures FilterData(FilterData(data, searchTerm, fields), searchTerm, fields) == FilterData(data, searchTerm, fields)
  {
    if searchTerm != "" {
      FilterIdempotent(data, Matcher(Lower(searchTerm), fields));
    }
  }

  // ------------------------------------------------ sortData

  /** Lexicographic code-point order on strings. JavaScript compares UTF-16
      code units; the two orders differ where a character above U+FFFF meets
      one in U+E000-U+FFFF. */
  predicate TextLe(a: string, b: string)
    decreases |a|
  {
    a == [] || (b != [] && (a[0] < b[0] || (a[0] == b[0] && TextLe(a[1..], b[1..]))))
  }

  lemma {:induction false} TextLeTotal(a: string, b: string)
    ensures TextLe(a, b) || TextLe(b, a)
    decreases |a|
  {
    if a != [] && b != [] && a[0] == b[0] {
      TextLeTotal(a[1..], b[1..]);
    }
  }

  lemma {:induction false} TextLeTransitive(a: string, b: string, c: string)
    requires TextLe(a, b) && TextLe(b, c)
    ensures TextLe(a, c)
    decreases |a|
  {
    if a != [] && a[0] == b[0] && b[0] == c[0] {
      TextLeTransitive(a[1..], b[1..], c[1..]);
    }
  }

  /** Values of different kinds are ranked by kind; arrays and objects
      compare equal among themselves. */
  function Rank(v: Json): nat {
    match v
    case Undefined => 0
    case Null => 0
    case Bool(_) => 1
    case Num(_) => 2
    case Str(_) => 3
    case Arr(_) => 4
    case Obj(_) => 4
  }

  /** `a > b` is false, for two present values: `a` may come first in
      ascending order. */
  predicate ValueLe(a: Json, b: Json) {
    if Rank(a) != Rank(b) then Rank(a) < Rank(b)
    else match (a, b)
      case (Bool(x), Bool(y)) => !x || y
      case (Num(x), Num(y)) => x <= y
      case (Str(x), Str(y)) => TextLe(x, y)
      case _ => true
  }

  /** The comparator on sort keys: a missing key goes after every present
      one in both orders; `desc` reverses the order of present keys. */
  predicate KeyLe(a: Json, b: Json, desc: bool) {
    if Nullish(a) then Nullish(b)
    else if Nullish(b) then true
    else if desc then ValueLe(b, a)
    else ValueLe(a, b)
  }

  function ByKey(sortBy: string, desc: bool): (Json, Json) -> bool {
    (a, b) => KeyLe(GetNestedValue(a, sortBy), GetNestedValue(b, sortBy), desc)
  }

  lemma ValueLeTotal(a: Json, b: Json)
    ensures ValueLe(a, b) || ValueLe(b, a)
  {
    if a.Str? && b.Str? {
      TextLeTotal(a.s, b.s);
    }
  }

  lemma ValueLeTransitive(a: Json, b: Json, c: Json)
    requires ValueLe(a, b) && ValueLe(b, c)
    ensures ValueLe(a, c)
  {
    if a.Str? && b.Str? && c.Str? {
      TextLeTransitive(a.s, b.s, c.s);
    }
  }

  lemma KeyLeTotal(a: Json, b: Json, desc: bool)
    ensures KeyLe(a, b, desc) || KeyLe(b, a, desc)
  {
    ValueLeTotal(a, b);
  }

  lemma KeyLeTransitive(a: Json, b: Json, c: Json, desc: bool)
    requires KeyLe(a, b, desc) && KeyLe(b, c, desc)
    ensures KeyLe(a, c, desc)
  {
    if !Nullish(a) && !Nullish(b) && !Nullish(c) {
      if desc {
        ValueLeTransitive(c, b, a);
      } else {
        ValueLeTransitive(a, b, c);
      }
    }
  }

  lemma ByKeyTotalPreorder(sortBy: string, desc: bool)
    ensures TotalPreorder(ByKey(sortBy, desc))
  {
    var le := ByKey(sortBy, desc);
    forall a, b ensures le(a, b) || le(b, a) {
      KeyLeTotal(GetNestedValue(a, sortBy), GetNestedValue(b, sortBy), desc);
    }
    forall a, b, c | le(a, b) && le(b, c) ensures le(a, c) {
      KeyLeTransitive(GetNestedValue(a, sortBy), GetNestedValue(b, sortBy), GetNestedValue(c, sortBy), desc);
    }
  }

  /** `sortData(data, sortBy, sortOrder)`: the input itself without a sort
      key, otherwise a sorted copy (the input list is a value and stays as it
      was). */
  function SortData(data: seq<Json>, sortBy: string, sortOrder: string): (r: seq<Json>)
    ensures sortBy != "" ==> SortedBy(r, ByKey(sortBy, sortOrder == "desc"))
  {
    if sortBy == "" then data
    else
      ByKeyTotalPreorder(sortBy, sortOrder == "desc");
      SortBySorted(data, ByKey(sortBy, sortOrder == "desc"));
      SortBy(data, ByKey(sortBy, sortOrder == "desc"))
  }

  /** The sorted copy holds the same records, as often as the input does;
      without a key the input comes back as it is. */
  lemma SortDataPermutes(data: seq<Json>, sortBy: string, sortOrder: string)
    ensures multiset(SortData(data, sortBy, sortOrder)) == multiset(data)
    ensures |SortData(data, sortBy, sortOrder)| == |data|
    ensures sortBy == "" ==> SortData(data, sortBy, sortOrder) == data
  {
    if sortBy != "" {
      SortByPermutes(data, ByKey(sortBy, sortOrder == "desc"));
    }
  }

  /** With a key, the copy is in key order: records without the key come last,
      and the present keys ascend, or descend under "desc". */
  lemma SortDataOrdered(data: seq<Json>, sortBy: string, sortOrder: string, i: nat, j: nat)
    requires sortBy != ""
    requires i < j < |SortData(data, sortBy, sortOrder)|
    ensures var r := SortData(data, sortBy, sortOrder);
            var a, b := GetNestedValue(r[i], sortBy), GetNestedValue(r[j], sortBy);
            && (Nullish(a) ==> Nullish(b))
            && (!Nullish(a) && !Nullish(b) ==> if sortOrder == "desc" then ValueLe(b, a) else ValueLe(a, b))
  {
    var le := ByKey(sortBy, sortOrder == "desc");
    ByKeyTotalPreorder(sortBy, sortOrder == "desc");
    SortBySorted(data, le);
    assert le(SortData(data, sortBy, sortOrder)[i], SortData(data, sortBy, sortOrder)[j]);
  }

  /** Sorting the sorted copy again by the same key changes nothing. */
  lemma SortDataIdempotent(data: seq<Json>, sortBy: string, sortOrder: string)
    ensures SortData(SortData(data, sortBy, sortOrder), sortBy, sortOrder) == SortData(data, sortBy, sortOrder)
  {
    if sortBy != "" {
      ByKeyTotalPreorder(sortBy, sortOrder == "desc");
      SortByIdempotent(data, ByKey(sortBy, sortOrder == "desc"));
    }
  }

  /** Descending order is ascending order with the present keys swapped. */
  lemma DescReversesPresentKeys(a: Json, b: Json)
    requires !Nullish(a) && !Nullish(b)
    ensures KeyLe(a, b, true) <==> KeyLe(b, a, false)
  {
  }
}
