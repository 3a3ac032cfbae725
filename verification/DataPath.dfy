/** Reading and writing nested data by a path such as "a.b[].c": the getter and the setter that
    the table builds from a column's data source. */
module DataPath {
  import opened Wrappers
  import Seqs

  /** A value of the page's script; a primitive is a number or a truth value. An array may carry
      named properties beside its items. */
  datatype Value =
    | Undefined
    | Null
    | Primitive(p: int)
    | String(s: string)
    | Object(props: map<string, Value>)
    | Array(items: seq<Value>, named: map<string, Value>)

  datatype Outcome<T> = Returned(value: T) | Threw

  // ------------------------------------------------------------------ the script's own operations

  /** data[name] */
  function Read(data: Value, name: string): Outcome<Value> {
    match data
    case Undefined => Threw
    case Null => Threw
    case Primitive(_) => Returned(Undefined)
    case String(_) => Returned(Undefined)
    case Object(props) => Returned(if name in props then props[name] else Undefined)
    case Array(_, named) => Returned(if name in named then named[name] else Undefined)
  }

  /** data[name] = v, in strict mode */
  function Put(data: Value, name: string, v: Value): Outcome<Value> {
    match data
    case Object(props) => Returned(Object(props[name := v]))
    case Array(items, named) => Returned(Array(items, named[name := v]))
    case _ => Threw
  }

  function Characters(s: string): (r: seq<Value>)
    ensures |r| == |s|
  {
    seq(|s|, i requires 0 <= i < |s| => String([s[i]]))
  }

  /** What a loop from 0 to data.length goes over. */
  function Items(data: Value): Outcome<seq<Value>> {
    match data
    case Undefined => Threw
    case Null => Threw
    case Array(items, _) => Returned(items)
    case String(s) => Returned(Characters(s))
    case _ => Returned([])
  }

  // ------------------------------------------------------------------ paths

  /** One step of a path: a property, or with `each` the entries of the array in that property. */
  datatype Segment = Segment(name: string, each: bool)

  predicate PlainName(name: string) {
    forall k :: 0 <= k < |name| ==> name[k] !in {'.', '\\', '[', ']', '(', ')'}
  }

  /** A path without escapes, function calls and join strings. */
  predicate Plain(path: seq<Segment>) {
    forall k :: 0 <= k < |path| ==> PlainName(path[k].name) && (path[k].name != "" || path[k].each)
  }

  function Text(s: Segment): string {
    s.name + (if s.each then "[]" else "")
  }

  function Texts(path: seq<Segment>): (r: seq<string>)
    ensures |r| == |path| && forall k :: 0 <= k < |path| ==> r[k] == Text(path[k])
  {
    seq(|path|, k requires 0 <= k < |path| => Text(path[k]))
  }

  /** parts.join('.') */
  function Join(parts: seq<string>): string {
    if parts == [] then ""
    else if |parts| == 1 then parts[0]
    else parts[0] + "." + Join(parts[1..])
  }

  /** _fnSplitObjNotation: `run` is the part being read. An escaped character stays in its part
      and comes out as a period; empty parts are skipped. */
  function Split(str: string, run: string): seq<string>
    decreases |str|
  {
    if str == "" then (if run == "" then [] else [run])
    else if str[0] == '\\' && |str| >= 2 && !IsLineBreak(str[1]) then Split(str[2..], run + ".")
    else if str[0] == '.' then (if run == "" then [] else [run]) + Split(str[1..], "")
    else Split(str[1..], run + [str[0]])
  }

  predicate Unbroken(part: string) {
    forall k :: 0 <= k < |part| ==> part[k] != '.' && part[k] != '\\'
  }

  lemma {:induction false} SplitRun(part: string, rest: string, run: string)
    requires Unbroken(part)
    ensures Split(part + rest, run) == Split(rest, run + part)
  {
    if part == "" {
      assert part + rest == rest && run + part == run;
    } else {
      assert (part + rest)[1..] == part[1..] + rest;
      assert (run + [part[0]]) + part[1..] == run + part;
      SplitRun(part[1..], rest, run + [part[0]]);
    }
  }

  lemma SplitAtPeriod(part: string, more: string)
    requires part != "" && Unbroken(part)
    ensures Split(part + ("." + more), "") == [part] + Split(more, "")
    ensures Split(part, "") == [part]
  {
    SplitRun(part, "." + more, "");
    SplitRun(part, "", "");
    assert "" + part == part && part + "" == part && ("." + more)[1..] == more;
  }

  /** Joining unescaped parts and splitting again gives the parts back. */
  lemma {:induction false} SplitJoin(parts: seq<string>)
    requires forall k :: 0 <= k < |parts| ==> parts[k] != "" && Unbroken(parts[k])
    ensures Split(Join(parts), "") == parts
  {
    if parts != [] {
      SplitAtPeriod(parts[0], Join(parts[1..]));
      SplitJoin(parts[1..]);
      hide Split, Unbroken;
      assert parts == [parts[0]] + parts[1..];
      if |parts| > 1 { assert parts[0] + "." + Join(parts[1..]) == parts[0] + ("." + Join(parts[1..])); }
    }
  }

  /** A part as it is written in a path: a period of its own is escaped. */
  function Escape(part: string): string {
    if part == "" then "" else (if part[0] == '.' then "\\." else [part[0]]) + Escape(part[1..])
  }

  function Escapes(parts: seq<string>): (r: seq<string>)
    ensures |r| == |parts| && forall k :: 0 <= k < |parts| ==> r[k] == Escape(parts[k])
  {
    seq(|parts|, k requires 0 <= k < |parts| => Escape(parts[k]))
  }

  predicate NoBackslash(part: string) {
    forall k :: 0 <= k < |part| ==> part[k] != '\\'
  }

  lemma {:induction false} SplitEscape(part: string, rest: string, run: string)
    requires NoBackslash(part)
    ensures Split(Escape(part) + rest, run) == Split(rest, run + part)
  {
    hide Split;
    if part == "" {
      assert Escape(part) + rest == rest && run + part == run;
    } else {
      var c, more := part[0], Escape(part[1..]) + rest;
      assert (run + [c]) + part[1..] == run + part;
      SplitEscape(part[1..], rest, run + [c]);
      SplitOne(c, more, run);
      assert Escape(part) + rest == (if c == '.' then "\\." else [c]) + more;
    }
  }

  lemma SplitOne(c: char, more: string, run: string)
    requires c != '\\'
    ensures Split((if c == '.' then "\\." else [c]) + more, run) == Split(more, run + [c])
  {
    var all := (if c == '.' then "\\." else [c]) + more;
    if c == '.' { assert all[2..] == more && run + "." == run + [c]; } else { assert all[1..] == more; }
  }

  /** Any escaped character comes out as a period; before a line break the backslash is a
      character like any other. */
  lemma SplitBackslash(c: char, more: string, run: string)
    ensures Split("\\" + [c] + more, run) == if IsLineBreak(c) then Split([c] + more, run + "\\") else Split(more, run + ".")
  {
    var all := "\\" + [c] + more;
    assert all[1..] == [c] + more && all[2..] == more;
  }

  function NotEmpty(): string -> bool {
    part => part != ""
  }

  /** Splitting gives the parts as they were before escaping and joining, except that empty ones
      are skipped. */
  lemma {:induction false} SplitEscapedJoin(parts: seq<string>)
    requires forall k :: 0 <= k < |parts| ==> NoBackslash(parts[k])
    ensures Split(Join(Escapes(parts)), "") == Seqs.Filter(parts, NotEmpty())
  {
    hide Split, Escape, Join, Escapes;
    if parts == [] {
      SplitNothing("");
      JoinNothing();
    } else {
      var first, rest := parts[0], parts[1..];
      FilterFirst(first, rest);
      assert parts == [first] + rest && "" + first == first;
      JoinFirst(first, rest);
      if rest == [] {
        SplitEscape(first, "", "");
        SplitNothing(first);
      } else {
        SplitEscapedJoin(rest);
        var more := Join(Escapes(rest));
        SplitEscape(first, "." + more, "");
        SplitPeriod(more, first);
      }
    }
  }

  lemma JoinNothing()
    ensures Join(Escapes([])) == "" && Seqs.Filter([], NotEmpty()) == []
  {
  }

  lemma JoinFirst(first: string, rest: seq<string>)
    ensures Join(Escapes([first] + rest)) == Escape(first) + if rest == [] then "" else "." + Join(Escapes(rest))
  {
    var all := Escapes([first] + rest);
    assert all[1..] == Escapes(rest) && all[0] == Escape(first);
    if rest == [] {
      assert Escape(first) + "" == Escape(first);
    } else {
      assert Escape(first) + "." + Join(Escapes(rest)) == Escape(first) + ("." + Join(Escapes(rest)));
    }
  }

  lemma SplitNothing(run: string)
    ensures Split("", run) == if run == "" then [] else [run]
  {
  }

  lemma SplitPeriod(more: string, run: string)
    ensures Split("." + more, run) == (if run == "" then [] else [run]) + Split(more, "")
  {
    assert ("." + more)[1..] == more;
  }

  lemma FilterFirst(first: string, rest: seq<string>)
    ensures Seqs.Filter([first] + rest, NotEmpty()) ==
            (if first == "" then [] else [first]) + Seqs.Filter(rest, NotEmpty())
  {
    Seqs.FilterAppend([first], rest, NotEmpty());
    assert [first][..0] == [];
  }

  lemma PathRoundTrip(path: seq<Segment>)
    requires Plain(path)
    ensures Split(Join(Texts(path)), "") == Texts(path)
  {
    forall k | 0 <= k < |path| ensures Texts(path)[k] != "" && Unbroken(Texts(path)[k]) {
      var name := path[k].name;
      assert PlainName(name);
      assert forall j :: 0 <= j < |name| ==> Text(path[k])[j] == name[j];
    }
    SplitJoin(Texts(path));
  }

  /** The place of the first '[' in a part that ends with ']', or -1: where __reArray matches. */
  function Brackets(part: string): (r: int)
    ensures r >= 0 ==> r < |part|
  {
    if part != "" && part[|part| - 1] == ']' then FirstBracket(part, 0) else -1
  }

  function FirstBracket(part: string, from: nat): (r: int)
    requires from <= |part|
    ensures r == -1 || from <= r < |part|
    ensures r == -1 ==> forall k :: from <= k < |part| ==> part[k] != '['
    ensures r >= 0 ==> part[r] == '[' && forall k :: from <= k < r ==> part[k] != '['
    decreases |part| - from
  {
    if from == |part| then -1 else if part[from] == '[' then from else FirstBracket(part, from + 1)
  }

  lemma BracketsOfText(s: Segment)
    requires PlainName(s.name)
    ensures Brackets(Text(s)) == if s.each then |s.name| else -1
    ensures Text(s)[..|s.name|] == s.name
  {
    var t := Text(s);
    assert forall k :: 0 <= k < |s.name| ==> t[k] == s.name[k];
    if s.each { assert t[|s.name|] == '[' && t[|t| - 1] == ']'; }
  }

  // ------------------------------------------------------------------ reading

  /** What reading a path means. */
  function Fetch(data: Value, path: seq<Segment>): Outcome<Value>
    decreases |path|, 0
  {
    if path == [] then Returned(data)
    else if path[0].each then
      var inner := if path[0].name != "" then Read(data, path[0].name) else Returned(data);
      if inner.Threw? then Threw
      else
        var items := Items(inner.value);
        if items.Threw? then Threw
        else
          var out := FetchEach(items.value, path[1..]);
          if out.Threw? then Threw else Returned(Array(out.value, map[]))
    else if data == Null then Returned(Undefined)
    else
      var next := Read(data, path[0].name);
      if next.Threw? then Threw
      else if next.value == Undefined then Returned(Undefined)
      else Fetch(next.value, path[1..])
  }

  function FetchEach(items: seq<Value>, path: seq<Segment>): (r: Outcome<seq<Value>>)
    decreases |path|, 1, |items|
  {
    if items == [] then Returned([])
    else
      var front := FetchEach(items[..|items| - 1], path);
      var last := Fetch(items[|items| - 1], path);
      if front.Threw? || last.Threw? then Threw else Returned(front.value + [last.value])
  }

  /** An array part reads every entry by itself, and throws as soon as one entry does. */
  lemma {:induction false} FetchEachMeaning(items: seq<Value>, path: seq<Segment>)
    ensures var out := FetchEach(items, path);
      if out.Threw? then exists k :: 0 <= k < |items| && Fetch(items[k], path).Threw?
      else |out.value| == |items| && forall k :: 0 <= k < |items| ==> Fetch(items[k], path) == Returned(out.value[k])
  {
    if items != [] {
      var n := |items| - 1;
      hide Fetch;
      var front := FetchEach(items[..n], path);
      FetchEachMeaning(items[..n], path);
      if front.Threw? {
        var k :| 0 <= k < n && Fetch(items[..n][k], path).Threw?;
        assert Fetch(items[k], path).Threw?;
      } else {
        assert forall k :: 0 <= k < n ==> items[..n][k] == items[k];
        assert FetchEach(items, path).Threw? ==> Fetch(items[n], path).Threw?;
      }
    }
  }

  /** The values on the way from `data` to `v`, one property after the other, all of them there. */
  predicate Way(vals: seq<Value>, data: Value, path: seq<Segment>, v: Value) {
    && |vals| == |path| + 1 && vals[0] == data && vals[|path|] == v
    && forall k :: 0 <= k < |path| ==> Leads(vals, path, k)
  }

  predicate Leads(vals: seq<Value>, path: seq<Segment>, k: nat) {
    k < |path| && k + 1 < |vals| && vals[k + 1] != Undefined && Read(vals[k], path[k].name) == Returned(vals[k + 1])
  }

  /** A path of property names finds a value exactly if it leads there; it never throws, but for
      absent data. */
  lemma {:induction false} DottedFetch(data: Value, path: seq<Segment>, v: Value)
    requires Dotted(path) && v != Undefined
    ensures Fetch(data, path) == Returned(v) <==> exists vals :: Way(vals, data, path, v)
    ensures Fetch(data, path).Threw? <==> data == Undefined && path != []
    decreases |path|
  {
    if path == [] {
      assert data == v ==> Way([data], data, path, v);
    } else {
      var next := Read(data, path[0].name);
      if next.Returned? && next.value != Undefined {
        DottedFetch(next.value, path[1..], v);
        if rest :| Way(rest, next.value, path[1..], v) {
          WayFrom(data, path, v, rest);
        }
      }
      if vals :| Way(vals, data, path, v) {
        WayOn(vals, data, path, v);
      }
    }
  }

  lemma WayFrom(data: Value, path: seq<Segment>, v: Value, rest: seq<Value>)
    requires path != [] && rest != [] && rest[0] != Undefined && Read(data, path[0].name) == Returned(rest[0])
    requires Way(rest, rest[0], path[1..], v)
    ensures Way([data] + rest, data, path, v)
  {
    var vals := [data] + rest;
    forall k | 0 <= k < |path| ensures Leads(vals, path, k) {
      assert k > 0 ==> Leads(rest, path[1..], k - 1);
    }
  }

  lemma WayOn(vals: seq<Value>, data: Value, path: seq<Segment>, v: Value)
    requires path != [] && Way(vals, data, path, v)
    ensures vals[1] != Undefined && Read(data, path[0].name) == Returned(vals[1])
    ensures Way(vals[1..], vals[1], path[1..], v)
  {
    assert Leads(vals, path, 0);
    forall k | 0 <= k < |path| - 1 ensures Leads(vals[1..], path[1..], k) {
      assert Leads(vals, path, k + 1);
    }
  }

  /** fetchData: the loop over the parts of the path, with the recursion at an array part. */
  method FetchData(data0: Value, src: string, ghost path: seq<Segment>) returns (r: Outcome<Value>)
    requires Plain(path) && src == Join(Texts(path))
    ensures r == Fetch(data0, path)
    decreases |path|, 0
  {
    PathRoundTrip(path);
    var a := Split(src, "");
    assert src == "" ==> path == [];
    var data := data0;
    var i := 0;
    while i < |a|
      invariant 0 <= i <= |a| && Fetch(data, path[i..]) == Fetch(data0, path)
    {
      BracketsOfText(path[i]);
      assert path[i..][0] == path[i] && path[i..][1..] == path[i + 1..];
      var bracket := Brackets(a[i]);
      if bracket >= 0 {
        var name := a[i][..bracket];
        var inner := if name != "" then Read(data, name) else Returned(data);
        if inner.Threw? { return Threw; }
        assert a[i + 1..] == Texts(path[i + 1..]);
        var items := Items(inner.value);
        if items.Threw? { return Threw; }
        r := FetchItems(items.value, Join(a[i + 1..]), path[i + 1..]);
        return;
      }
      assert a[i] == path[i].name;
      if data == Null { return Returned(Undefined); }
      var next := Read(data, a[i]);
      if next.Threw? { return Threw; }
      if next.value == Undefined { return Returned(Undefined); }
      data := next.value;
      i := i + 1;
    }
    assert path[i..] == [];
    return Returned(data);
  }

  method FetchItems(items: seq<Value>, innerSrc: string, ghost path: seq<Segment>) returns (r: Outcome<Value>)
    requires Plain(path) && innerSrc == Join(Texts(path))
    ensures var out := FetchEach(items, path);
      r == if out.Threw? then Threw else Returned(Array(out.value, map[]))
    decreases |path|, 1
  {
    var out := [];
    for j := 0 to |items|
      invariant FetchEach(items[..j], path) == Returned(out)
    {
      assert items[..j + 1][..j] == items[..j];
      var item := FetchData(items[j], innerSrc, path);
      if item.Threw? {
        EachThrows(items, path, j);
        return Threw;
      }
      out := out + [item.value];
    }
    assert items[..|items|] == items;
    return Returned(Array(out, map[]));
  }

  /** One entry that cannot be read makes the whole read throw. */
  lemma {:induction false} EachThrows(items: seq<Value>, path: seq<Segment>, j: nat)
    requires j < |items| && Fetch(items[j], path).Threw?
    ensures FetchEach(items, path).Threw?
  {
    if j < |items| - 1 { EachThrows(items[..|items| - 1], path, j); }
  }

  // ------------------------------------------------------------------ writing

  /** What writing a path means; absent objects on the way are created. */
  function Store(data: Value, path: seq<Segment>, val: Value): (r: Outcome<Value>)
    ensures r.Returned? ==> Container(r.value)
    decreases |path|, 0
  {
    if path == [] then Threw
    else if |path| == 1 then Put(data, path[0].name, val)
    else if path[0].each then
      var items := Items(val);
      if items.Threw? then Threw
      else
        var objects := StoreEach(path[1..], items.value);
        if objects.Threw? then Threw else Put(data, path[0].name, Array(objects.value, map[]))
    else
      var present := Read(data, path[0].name);
      if present.Threw? then Threw
      else
        var inner := Store(OrNew(present.value), path[1..], val);
        if inner.Threw? then Threw else Put(data, path[0].name, inner.value)
  }

  /** A fresh object for every entry of the value. */
  function StoreEach(path: seq<Segment>, items: seq<Value>): (r: Outcome<seq<Value>>)
    ensures r.Returned? ==> |r.value| == |items|
    decreases |path|, 1, |items|
  {
    if items == [] then Returned([])
    else
      var front := StoreEach(path, items[..|items| - 1]);
      var last := Store(Object(map[]), path, items[|items| - 1]);
      if front.Threw? || last.Threw? then Threw else Returned(front.value + [last.value])
  }

  /** Every entry of the value is written into a fresh object by itself. */
  lemma {:induction false} StoreEachMeaning(path: seq<Segment>, items: seq<Value>)
    ensures var out := StoreEach(path, items);
      if out.Threw? then exists k :: 0 <= k < |items| && Store(Object(map[]), path, items[k]).Threw?
      else |out.value| == |items| && forall k :: 0 <= k < |items| ==> Store(Object(map[]), path, items[k]) == Returned(out.value[k])
  {
    if items != [] {
      var n := |items| - 1;
      hide Store;
      var front := StoreEach(path, items[..n]);
      StoreEachMeaning(path, items[..n]);
      if front.Threw? {
        var k :| 0 <= k < n && Store(Object(map[]), path, items[..n][k]).Threw?;
        assert Store(Object(map[]), path, items[k]).Threw?;
      } else {
        assert forall k :: 0 <= k < n ==> items[..n][k] == items[k];
        assert StoreEach(path, items).Threw? ==> Store(Object(map[]), path, items[n]).Threw?;
      }
    }
  }

  predicate Container(data: Value) {
    data.Object? || data.Array?
  }

  function OrNew(data: Value): Value {
    if data == Null || data == Undefined then Object(map[]) else data
  }

  /** setData: the parts from `i` on, with the recursion at an array part. */
  method SetData(data: Value, val: Value, src: string, ghost path: seq<Segment>) returns (r: Outcome<Value>)
    requires Plain(path) && src == Join(Texts(path))
    ensures r == Store(data, path, val)
    decreases |path|, 2
  {
    PathRoundTrip(path);
    var a := Split(src, "");
    if a == [] { return Threw; }
    assert path[0..] == path;
    r := SetFrom(data, val, a, 0, path);
  }

  method SetFrom(data: Value, val: Value, a: seq<string>, i: nat, ghost path: seq<Segment>) returns (r: Outcome<Value>)
    requires Plain(path) && a == Texts(path) && i < |a|
    ensures r == Store(data, path[i..], val)
    decreases |path| - i, 1
  {
    BracketsOfText(path[i]);
    assert path[i..][0] == path[i] && path[i..][1..] == path[i + 1..];
    var bracket := Brackets(a[i]);
    var name := if bracket >= 0 then a[i][..bracket] else a[i];
    assert name == path[i].name;
    if i == |a| - 1 { return Put(data, name, val); }
    if bracket >= 0 {
      assert a[i + 1..] == Texts(path[i + 1..]);
      var items := Items(val);
      if items.Threw? { return Threw; }
      var objects := SetItems(items.value, Join(a[i + 1..]), path[i + 1..]);
      if objects.Threw? { return Threw; }
      return Put(data, name, Array(objects.value, map[]));
    }
    var present := Read(data, name);
    if present.Threw? { return Threw; }
    var inner := SetFrom(OrNew(present.value), val, a, i + 1, path);
    if inner.Threw? { return Threw; }
    return Put(data, name, inner.value);
  }

  method SetItems(items: seq<Value>, innerSrc: string, ghost path: seq<Segment>) returns (r: Outcome<seq<Value>>)
    requires Plain(path) && innerSrc == Join(Texts(path))
    ensures r == StoreEach(path, items)
    decreases |path|, 3
  {
    var objects := [];
    for j := 0 to |items|
      invariant StoreEach(path, items[..j]) == Returned(objects)
    {
      assert items[..j + 1][..j] == items[..j];
      var o := SetData(Object(map[]), items[j], innerSrc, path);
      if o.Threw? {
        StoreEachThrows(path, items, j);
        return Threw;
      }
      objects := objects + [o.value];
    }
    assert items[..|items|] == items;
    return Returned(objects);
  }

  lemma {:induction false} StoreEachThrows(path: seq<Segment>, items: seq<Value>, j: nat)
    requires j < |items| && Store(Object(map[]), path, items[j]).Threw?
    ensures StoreEach(path, items).Threw?
  {
    if j < |items| - 1 { StoreEachThrows(path, items[..|items| - 1], j); }
  }

  // ------------------------------------------------------------------ reading what was written

  /** Every property on the way that is there is an object. */
  predicate Placeable(data: Value, path: seq<Segment>) {
    && Container(data)
    && (|path| > 1 && !path[0].each ==>
          var child := Read(data, path[0].name).value;
          child == Null || child == Undefined || Placeable(child, path[1..]))
  }

  /** The value is an array, nested as deep as the path's array parts, wherever the path asks for one. */
  predicate Shaped(val: Value, path: seq<Segment>)
    decreases |path|
  {
    if path == [] then true
    else if path[0].each then
      val.Array? && val.named == map[] && forall k :: 0 <= k < |val.items| ==> Shaped(val.items[k], path[1..])
    else Shaped(val, path[1..])
  }

  predicate Named(path: seq<Segment>) {
    forall k :: 0 <= k < |path| ==> path[k].name != ""
  }

  predicate Restored(data: Value, path: seq<Segment>, val: Value) {
    Store(data, path, val).Returned? && Fetch(Store(data, path, val).value, path) == Returned(val)
  }

  lemma RestoredLast(data: Value, path: seq<Segment>, val: Value)
    requires |path| == 1 && Named(path) && Container(data)
    ensures Restored(data, path, val) <==> Shaped(val, path)
  {
    var rest := path[1..];
    assert rest == [];
    var stored := Put(data, path[0].name, val).value;
    assert Read(stored, path[0].name) == Returned(val);
    if path[0].each {
      if val.Array? { FetchNothing(val.items); }
    } else {
      assert val != Undefined ==> Fetch(stored, path) == Fetch(val, rest);
    }
  }

  lemma RestoredEach(data: Value, path: seq<Segment>, val: Value)
    requires |path| > 1 && path[0].each && path[0].name != "" && Container(data)
    ensures Restored(data, path, val) <==>
      val.Array? && val.named == map[] && StoreEach(path[1..], val.items).Returned? &&
      FetchEach(StoreEach(path[1..], val.items).value, path[1..]) == Returned(val.items)
  {
    var rest := path[1..];
    var items := Items(val);
    if items.Returned? && StoreEach(rest, items.value).Returned? {
      var objects := StoreEach(rest, items.value).value;
      var stored := Put(data, path[0].name, Array(objects, map[])).value;
      assert Store(data, path, val) == Returned(stored);
      FetchThrough(stored, path, objects);
      hide Store, Fetch, StoreEach, FetchEach;
    }
  }

  lemma FetchThrough(stored: Value, path: seq<Segment>, objects: seq<Value>)
    requires path != [] && path[0].each && path[0].name != ""
    requires Read(stored, path[0].name) == Returned(Array(objects, map[]))
    ensures var out := FetchEach(objects, path[1..]);
      Fetch(stored, path) == if out.Threw? then Threw else Returned(Array(out.value, map[]))
  {}

  lemma RestoredStep(data: Value, path: seq<Segment>, val: Value)
    requires |path| > 1 && !path[0].each && Container(data)
    ensures Restored(data, path, val) <==> Restored(OrNew(Read(data, path[0].name).value), path[1..], val)
  {
    var inner := Store(OrNew(Read(data, path[0].name).value), path[1..], val);
    if inner.Returned? {
      var stored := Put(data, path[0].name, inner.value);
      assert Store(data, path, val) == stored;
      assert Read(stored.value, path[0].name) == inner;
    }
  }

  /** Get after set gives the value back exactly when the value has the shape the path asks for. */
  lemma {:induction false} GetAfterSet(data: Value, path: seq<Segment>, val: Value)
    requires path != [] && Named(path) && Placeable(data, path)
    ensures Restored(data, path, val) <==> Shaped(val, path)
    decreases |path|, 0
  {
    hide Restored, Store, Fetch, StoreEach, FetchEach;
    if |path| == 1 {
      RestoredLast(data, path, val);
    } else if path[0].each {
      RestoredEach(data, path, val);
      if val.Array? { EachAfterSet(path[1..], val.items); }
    } else {
      RestoredStep(data, path, val);
      GetAfterSet(OrNew(Read(data, path[0].name).value), path[1..], val);
    }
  }

  lemma {:induction false} FetchNothing(items: seq<Value>)
    ensures FetchEach(items, []) == Returned(items)
  {
    if items != [] {
      FetchNothing(items[..|items| - 1]);
      assert items == items[..|items| - 1] + [items[|items| - 1]];
    }
  }

  lemma {:induction false} EachAfterSet(path: seq<Segment>, items: seq<Value>)
    requires path != [] && Named(path)
    ensures StoreEach(path, items).Returned? && FetchEach(StoreEach(path, items).value, path) == Returned(items) <==>
      forall k :: 0 <= k < |items| ==> Shaped(items[k], path)
    decreases |path|, 1, |items|
  {
    if items != [] {
      var front, last := items[..|items| - 1], items[|items| - 1];
      EachAfterSet(path, front);
      GetAfterSet(Object(map[]), path, last);
      assert items == front + [last];
      var stored := StoreEach(path, items);
      if stored.Returned? {
        assert stored.value[..|items| - 1] == StoreEach(path, front).value;
      }
    }
  }

  // ------------------------------------------------------------------ what a write leaves alone

  predicate Dotted(path: seq<Segment>) {
    forall k :: 0 <= k < |path| ==> !path[k].each
  }

  /** q reads the property that p writes, or something inside it. */
  predicate PassesThrough(p: seq<Segment>, q: seq<Segment>)
    requires p != []
  {
    var last := |p| - 1;
    |q| > last && q[..last] == p[..last] && q[last].name == p[last].name
  }

  /** q reads neither an object on the way of p nor through what p writes. */
  predicate Unrelated(p: seq<Segment>, q: seq<Segment>)
    requires p != []
  {
    !(q <= p) && !PassesThrough(p, q)
  }

  /** How many segments the paths share before they part. */
  function Parting(p: seq<Segment>, q: seq<Segment>): nat {
    if p == [] || q == [] || p[0] != q[0] then 0 else 1 + Parting(p[1..], q[1..])
  }

  /** The paths part by names. */
  predicate PartAt(p: seq<Segment>, q: seq<Segment>, d: nat) {
    d < |p| && d < |q| && p[..d] == q[..d] && p[d].name != q[d].name
  }

  /** The paths part where q goes over the items of an object that p goes on from. */
  predicate ItemsAt(p: seq<Segment>, q: seq<Segment>, d: nat) {
    d + 1 < |p| && d < |q| && p[..d] == q[..d] && p[d].name == q[d].name && q[d].each
  }

  lemma {:induction false} UnrelatedPart(p: seq<Segment>, q: seq<Segment>)
    requires p != [] && Dotted(p) && Unrelated(p, q)
    ensures PartAt(p, q, Parting(p, q)) || ItemsAt(p, q, Parting(p, q))
    decreases |p|
  {
    if q != [] && p[0] == q[0] && |p| > 1 {
      SharedStep(p, q);
      hide PassesThrough;
      UnrelatedPart(p[1..], q[1..]);
      var d := Parting(p[1..], q[1..]);
      assert p[..d + 1] == [p[0]] + p[1..][..d];
      if d < |q| - 1 { assert q[..d + 1] == [q[0]] + q[1..][..d]; }
    }
  }

  lemma SharedStep(p: seq<Segment>, q: seq<Segment>)
    requires |p| > 1 && q != [] && p[0] == q[0]
    ensures q <= p <==> q[1..] <= p[1..]
    ensures PassesThrough(p, q) <==> PassesThrough(p[1..], q[1..])
  {
    var last := |p| - 1;
    assert p[..last] == [p[0]] + p[1..][..last - 1] && p[..last][1..] == p[1..][..last - 1];
    if |q| > last {
      assert q[..last] == [q[0]] + q[1..][..last - 1] && q[..last][1..] == q[1..][..last - 1];
      assert q[last] == q[1..][last - 1];
    }
    assert p == [p[0]] + p[1..] && q == [q[0]] + q[1..];
  }

  lemma FetchFromNew(path: seq<Segment>)
    requires path != [] && Named(path)
    ensures Fetch(Object(map[]), path) == if path[0].each then Threw else Returned(Undefined)
  {}

  /** Whether q can tell that p was written. Where the paths part by names, only if q goes over
      items there and the object they part in was absent; where q goes over the items of an
      object that p goes on from, only if that object was absent. */
  predicate Unaffected(data: Value, p: seq<Segment>, q: seq<Segment>)
    requires PartAt(p, q, Parting(p, q)) || ItemsAt(p, q, Parting(p, q))
  {
    var d := Parting(p, q);
    if p[d].name != q[d].name then !(q[d].each && Fetch(data, p[..d]) == Returned(Undefined))
    else !Absent(Fetch(data, p[..d + 1]))
  }

  predicate Absent(r: Outcome<Value>) {
    r == Returned(Undefined) || r == Returned(Null)
  }

  /** Writing a dotted path never throws where the objects on the way are objects or absent, and
      it leaves every unrelated path as it was, with exactly the exceptions named above: the
      write creates an absent object, of which an array part of the other path can tell. */
  lemma OthersUnchanged(data: Value, p: seq<Segment>, q: seq<Segment>, val: Value)
    requires p != [] && Dotted(p) && Named(p) && Named(q) && Unrelated(p, q) && Placeable(data, p)
    ensures Store(data, p, val).Returned?
    ensures PartAt(p, q, Parting(p, q)) || ItemsAt(p, q, Parting(p, q))
    ensures Fetch(Store(data, p, val).value, q) == Fetch(data, q) <==> Unaffected(data, p, q)
  {
    UnrelatedPart(p, q);
    StoreDotted(data, p, val);
    var d := Parting(p, q);
    hide Fetch, Store, Placeable, Parting;
    assert PartAt(p, q, d) ==> Dotted(p[..d]);
    if PartAt(p, q, d) { PartedByName(data, p, q, d, val); } else { PartedByItems(data, p, q, d, val); }
  }

  /** Writing inside a container keeps its items. */
  lemma StoreKeepsItems(data: Value, p: seq<Segment>, val: Value)
    requires Store(data, p, val).Returned?
    ensures Items(Store(data, p, val).value) == Items(data)
  {
  }

  lemma {:induction false} PartedByItems(data: Value, p: seq<Segment>, q: seq<Segment>, d: nat, val: Value)
    requires Dotted(p) && Named(p) && Named(q) && ItemsAt(p, q, d) && Placeable(data, p)
    ensures Store(data, p, val).Returned?
    ensures var before, after := Fetch(data, q), Fetch(Store(data, p, val).value, q);
            if Absent(Fetch(data, p[..d + 1])) then
              after == Returned(Array([], map[])) && (before == Threw || before == Returned(Undefined))
            else after == before
    decreases d
  {
    if d == 0 {
      ItemsAtOnce(data, p, q, val);
    } else {
      var child := Read(data, p[0].name).value;
      StoredStep(data, p, val);
      SharedFirst(p, q, d);
      PartedByItems(OrNew(child), p[1..], q[1..], d - 1, val);
      FetchStep(data, p[..d + 1]);
      FetchStep(data, q);
      FetchStep(Store(data, p, val).value, q);
      FetchFromNew(p[1..][..d]);
      FetchNull(q[1..]);
      FetchNull(p[1..][..d]);
      hide Store, Placeable, Fetch, FetchEach, Items, ItemsAt;
    }
  }

  lemma SharedFirst(p: seq<Segment>, q: seq<Segment>, d: nat)
    requires Dotted(p) && Named(p) && Named(q) && 0 < d && ItemsAt(p, q, d)
    ensures p[0] == q[0] && Dotted(p[1..]) && Named(p[1..]) && Named(q[1..]) && ItemsAt(p[1..], q[1..], d - 1)
    ensures p[..d + 1][0] == p[0] && p[..d + 1][1..] == p[1..][..d] && Named(p[1..][..d])
  {
    assert p[0] == p[..d][0] == q[..d][0] == q[0];
    assert p[1..][..d - 1] == p[..d][1..] == q[..d][1..] == q[1..][..d - 1];
  }

  lemma ItemsAtOnce(data: Value, p: seq<Segment>, q: seq<Segment>, val: Value)
    requires Dotted(p) && Named(q) && ItemsAt(p, q, 0) && Placeable(data, p)
    ensures Store(data, p, val).Returned?
    ensures var before, after := Fetch(data, q), Fetch(Store(data, p, val).value, q);
            if Absent(Fetch(data, p[..1])) then after == Returned(Array([], map[])) && before == Threw
            else after == before
  {
    var child := Read(data, p[0].name).value;
    StoredStep(data, p, val);
    StoreKeepsItems(OrNew(child), p[1..], val);
    FetchStep(data, p[..1]);
    assert p[..1][1..] == [];
    assert Fetch(child, []) == Returned(child);
    ReadItems(data, q);
    ReadItems(Store(data, p, val).value, q);
    hide Store, Placeable, Fetch, FetchEach;
  }

  /** What an array part of a path makes of a container. */
  lemma ReadItems(data: Value, path: seq<Segment>)
    requires Container(data) && path != [] && path[0].each && path[0].name != ""
    ensures var items := Items(Read(data, path[0].name).value);
      Fetch(data, path) ==
        if items.Threw? then Threw
        else
          var out := FetchEach(items.value, path[1..]);
          if out.Threw? then Threw else Returned(Array(out.value, map[]))
    ensures FetchEach([], path[1..]) == Returned([])
  {
  }

  /** Where two paths part by names before any array part of p, writing p leaves q as it was,
      with the exception named above; what p does further on makes no difference. */
  lemma {:induction false} PartedByName(data: Value, p: seq<Segment>, q: seq<Segment>, d: nat, val: Value)
    requires Named(p) && Named(q) && PartAt(p, q, d) && Dotted(p[..d]) && Placeable(data, p)
    requires Store(data, p, val).Returned?
    ensures Fetch(Store(data, p, val).value, q) == Fetch(data, q) <==>
      !(q[d].each && Fetch(data, p[..d]) == Returned(Undefined))
    decreases d
  {
    if d == 0 {
      PartsAtOnce(data, p, q, val);
    } else {
      assert p[0] == p[..d][0] == q[..d][0] == q[0];
      assert p[..d][1..] == p[1..][..d - 1] == q[1..][..d - 1];
      var child := Read(data, p[0].name).value;
      StoredThrough(data, p, val);
      PartedByName(OrNew(child), p[1..], q[1..], d - 1, val);
      FetchStep(data, q);
      FetchStep(data, p[..d]);
      FetchStep(Store(data, p, val).value, q);
      FetchFromNew(q[1..]);
      if d > 1 { FetchFromNew(p[..d][1..]); }
      FetchNull(q[1..]);
      FetchNull(p[..d][1..]);
      hide Store, Placeable, Fetch;
    }
  }

  lemma StoredThrough(data: Value, p: seq<Segment>, val: Value)
    requires |p| > 1 && !p[0].each && Placeable(data, p) && Store(data, p, val).Returned?
    ensures var stored, child := Store(data, p, val), OrNew(Read(data, p[0].name).value);
      && Placeable(child, p[1..]) && Store(child, p[1..], val).Returned?
      && Container(stored.value) && Read(stored.value, p[0].name) == Store(child, p[1..], val)
  {
  }

  lemma FetchNull(path: seq<Segment>)
    requires Named(path)
    ensures Fetch(Null, path) == if path == [] then Returned(Null) else if path[0].each then Threw else Returned(Undefined)
  {}

  lemma FetchStep(data: Value, path: seq<Segment>)
    requires Container(data) && path != [] && !path[0].each
    ensures var child := Read(data, path[0].name).value;
      Fetch(data, path) == if child == Undefined then Returned(Undefined) else Fetch(child, path[1..])
  {}

  lemma PartsAtOnce(data: Value, p: seq<Segment>, q: seq<Segment>, val: Value)
    requires Named(q) && p != [] && q != [] && p[0].name != q[0].name && Placeable(data, p)
    requires Store(data, p, val).Returned?
    ensures Fetch(Store(data, p, val).value, q) == Fetch(data, q)
    ensures Fetch(data, p[..0]) == Returned(data)
  {
    var stored := Store(data, p, val).value;
    assert Container(data) && Read(stored, q[0].name) == Read(data, q[0].name);
  }

  lemma StoredStep(data: Value, p: seq<Segment>, val: Value)
    requires |p| > 1 && Dotted(p) && Placeable(data, p)
    ensures var stored, inner := Store(data, p, val), Store(OrNew(Read(data, p[0].name).value), p[1..], val);
      stored.Returned? && inner.Returned? && Container(stored.value) && Read(stored.value, p[0].name) == inner
  {
    StoreDotted(data, p, val);
  }

  lemma {:induction false} StoreDotted(data: Value, p: seq<Segment>, val: Value)
    requires p != [] && Dotted(p) && Placeable(data, p)
    ensures Store(data, p, val).Returned?
    decreases |p|
  {
    if |p| > 1 { StoreDotted(OrNew(Read(data, p[0].name).value), p[1..], val); }
  }

  /** A write through an array part puts new objects in place of the array: what is read there
      afterwards does not depend on what was there before. */
  lemma {:induction false} ArraysAreReplaced(data: Value, other: Value, p: seq<Segment>, q: seq<Segment>, j: nat, val: Value)
    requires j < |p| && j < |q| && p[j].each && Dotted(p[..j]) && q[..j] == p[..j] && q[j].name == p[j].name
    requires Named(p) && Placeable(data, p) && Placeable(other, p)
    ensures var a, b := Store(data, p, val), Store(other, p, val);
            a.Returned? == b.Returned? && (a.Returned? ==> Fetch(a.value, q) == Fetch(b.value, q))
    decreases j
  {
    if j == 0 {
      ReplacedAtOnce(data, p, val);
      ReplacedAtOnce(other, p, val);
      var a, b := Store(data, p, val), Store(other, p, val);
      if a.Returned? { SameProperty(a.value, b.value, q); }
    } else {
      assert p[0] == p[..j][0] == q[..j][0] == q[0];
      assert p[..j][1..] == p[1..][..j - 1] == q[1..][..j - 1];
      var x, y := OrNew(Read(data, p[0].name).value), OrNew(Read(other, p[0].name).value);
      StoredOrThrown(data, p, val);
      StoredOrThrown(other, p, val);
      ArraysAreReplaced(x, y, p[1..], q[1..], j - 1, val);
      var a, b := Store(data, p, val), Store(other, p, val);
      if a.Returned? {
        FetchStep(a.value, q);
        FetchStep(b.value, q);
      }
      hide Store, Placeable, Fetch;
    }
  }

  lemma StoredOrThrown(data: Value, p: seq<Segment>, val: Value)
    requires |p| > 1 && !p[0].each && Placeable(data, p)
    ensures var stored, child := Store(data, p, val), OrNew(Read(data, p[0].name).value);
      && Placeable(child, p[1..]) && stored.Returned? == Store(child, p[1..], val).Returned?
      && (stored.Returned? ==> Container(stored.value) && Read(stored.value, p[0].name) == Store(child, p[1..], val))
  {
  }

  /** What a write through an array part at the head of a path puts there. */
  function Replacement(p: seq<Segment>, val: Value): Outcome<Value>
    requires p != []
  {
    if |p| == 1 then Returned(val)
    else
      var items := Items(val);
      if items.Threw? then Threw
      else
        var objects := StoreEach(p[1..], items.value);
        if objects.Threw? then Threw else Returned(Array(objects.value, map[]))
  }

  lemma ReplacedAtOnce(data: Value, p: seq<Segment>, val: Value)
    requires p != [] && p[0].each && Container(data)
    ensures var r := Store(data, p, val);
            && r.Returned? == Replacement(p, val).Returned?
            && (r.Returned? ==> Container(r.value) && Read(r.value, p[0].name) == Replacement(p, val))
  {
  }

  lemma SameProperty(a: Value, b: Value, q: seq<Segment>)
    requires Container(a) && Container(b) && q != [] && q[0].name != "" && Read(a, q[0].name) == Read(b, q[0].name)
    ensures Fetch(a, q) == Fetch(b, q)
  {
  }

  /** Reading on from a property that was written is reading the value that was written. */
  lemma {:induction false} ReadsThroughValue(data: Value, p: seq<Segment>, rest: seq<Segment>, val: Value)
    requires p != [] && Dotted(p) && Named(p) && Placeable(data, p)
    ensures Store(data, p, val).Returned?
    ensures Fetch(Store(data, p, val).value, p + rest) == if val == Undefined then Returned(Undefined) else Fetch(val, rest)
    decreases |p|
  {
    StoreDotted(data, p, val);
    var stored := Store(data, p, val).value;
    assert (p + rest)[0] == p[0] && (p + rest)[1..] == p[1..] + rest;
    if |p| == 1 {
      assert p[1..] + rest == rest;
      assert Container(stored) && Read(stored, p[0].name) == Returned(val);
    } else {
      StoredThrough(data, p, val);
      ReadsThroughValue(OrNew(Read(data, p[0].name).value), p[1..], rest, val);
    }
    FetchStep(stored, p + rest);
    hide Store, Fetch, Placeable;
  }
}
