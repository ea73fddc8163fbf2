/** The worklists of the schema snapshot: the types (or schemas) an in-scope function
    (or path) reaches, found with a queue that may hold a name many times.
 */
module Closure {

  /** Each described name with the names it refers to. */
  type Index = map<string, seq<string>>

  /** `names` has every described root and every described name one of its own refers to. */
  ghost predicate Closed(index: Index, roots: set<string>, names: set<string>) {
    && (forall n | n in roots && n in index :: n in names)
    && (forall n | n in names && n in index ::
          forall m | m in index[n] && m in index :: m in names)
  }

  /** The least such set of described names. */
  ghost predicate Least(index: Index, roots: set<string>, names: set<string>) {
    && names <= index.Keys
    && Closed(index, roots, names)
    && forall other: set<string> | Closed(index, roots, other) :: names <= other
  }

  function Elements(s: seq<string>): set<string> {
    set x | x in s
  }

  /** The `while` loop of `filter_help` and of `filter_openapi`: pop a name, skip it if
      it is not described or already in, else queue what it refers to. */
  method CloseOver(index: Index, roots: seq<string>) returns (closure: set<string>)
    ensures Least(index, Elements(roots), closure)
  {
    closure := {};
    var queue := roots;
    while queue != []
      invariant closure <= index.Keys
      invariant forall n | n in roots && n in index :: n in closure || n in queue
      invariant forall n | n in closure ::
        forall m | m in index[n] && m in index :: m in closure || m in queue
      invariant forall other: set<string> | Closed(index, Elements(roots), other) ::
        closure <= other && forall n | n in queue && n in index :: n in other
      decreases |index.Keys - closure|, |queue|
    {
      var name := queue[|queue| - 1];
      ghost var before := queue;
      queue := queue[..|queue| - 1];
      assert before == queue + [name];
      if name in index && name !in closure {
        assert index.Keys - (closure + {name}) == (index.Keys - closure) - {name};
        closure := closure + {name};
        queue := queue + index[name];
      }
    }
  }

  // ---- The least set is what can be reached ------------------------------

  /** Each described name of the path refers to the next. */
  ghost predicate IsPath(index: Index, path: seq<string>) {
    && path != []
    && (forall i | 0 <= i < |path| :: path[i] in index)
    && (forall i | 0 < i < |path| :: path[i] in index[path[i - 1]])
  }

  ghost predicate Reached(index: Index, roots: set<string>, name: string) {
    exists path :: IsPath(index, path) && path[0] in roots && path[|path| - 1] == name
  }

  lemma {:induction false} PathStaysInside(
      index: Index, roots: set<string>, names: set<string>, path: seq<string>)
    requires Closed(index, roots, names) && IsPath(index, path) && path[0] in roots
    ensures path[|path| - 1] in names
    decreases |path|
  {
    if |path| > 1 {
      PathStaysInside(index, roots, names, path[..|path| - 1]);
    }
  }

  lemma RootIsReached(index: Index, roots: set<string>, n: string)
    requires n in roots && n in index
    ensures Reached(index, roots, n)
  {
    var path := [n];
    assert IsPath(index, path) && path[0] in roots && path[|path| - 1] == n;
  }

  lemma NextIsReached(index: Index, roots: set<string>, n: string, m: string)
    requires n in index && Reached(index, roots, n) && m in index[n] && m in index
    ensures Reached(index, roots, m)
  {
    var path :| IsPath(index, path) && path[0] in roots && path[|path| - 1] == n;
    var longer := path + [m];
    assert IsPath(index, longer) && longer[0] in roots && longer[|longer| - 1] == m;
  }

  lemma ReachedIsClosed(index: Index, roots: set<string>, names: set<string>)
    requires forall n :: n in names <==> n in index && Reached(index, roots, n)
    ensures Closed(index, roots, names)
  {
    hide Reached;
    forall n | n in roots && n in index ensures n in names {
      RootIsReached(index, roots, n);
    }
    forall n, m | n in names && m in index[n] && m in index ensures m in names {
      NextIsReached(index, roots, n, m);
    }
  }

  /** A least closed set is exactly the described names a path from a root leads to. */
  lemma LeastIsReached(index: Index, roots: set<string>, names: set<string>)
    requires Least(index, roots, names)
    ensures forall n :: n in names <==> Reached(index, roots, n)
  {
    var reached := set n | n in index.Keys && Reached(index, roots, n);
    ReachedIsClosed(index, roots, reached);
    assert names <= reached;
    forall n | Reached(index, roots, n) ensures n in names {
      var path :| IsPath(index, path) && path[0] in roots && path[|path| - 1] == n;
      PathStaysInside(index, roots, names, path);
    }
  }

  /** There is only one. */
  lemma LeastIsUnique(index: Index, roots: set<string>, a: set<string>, b: set<string>)
    requires Least(index, roots, a) && Least(index, roots, b)
    ensures a == b
  {
  }

  // ---- What is closed over -----------------------------------------------

  /** A type descriptor of `/help`; a missing name and an empty one read the same. */
  datatype TypeDesc = TypeDesc(ty: string, element: string)

  datatype Function = Function(arguments: seq<TypeDesc>, output: TypeDesc)

  datatype TypeEntry = TypeEntry(name: string, fields: seq<TypeDesc>)

  function NonEmpty(name: string): seq<string> {
    if name == [] then [] else [name]
  }

  function RefsOf(desc: TypeDesc): seq<string> {
    NonEmpty(desc.ty) + NonEmpty(desc.element)
  }

  function RefsOfAll(descs: seq<TypeDesc>): seq<string> {
    if descs == [] then [] else RefsOf(descs[0]) + RefsOfAll(descs[1..])
  }

  function RefsOfFunctions(functions: seq<Function>): seq<string> {
    if functions == [] then []
    else RefsOfAll(functions[0].arguments) + RefsOf(functions[0].output) + RefsOfFunctions(functions[1..])
  }

  /** The last entry of a name is the one that counts. */
  function IndexOf(types: seq<TypeEntry>): Index {
    if types == [] then map[]
    else
      var last := types[|types| - 1];
      IndexOf(types[..|types| - 1])[last.name := RefsOfAll(last.fields)]
  }

  // ---- The references, said plainly ---------------------------------------

  predicate RefersTo(desc: TypeDesc, name: string) {
    name != [] && (desc.ty == name || desc.element == name)
  }

  lemma RefsOfIs(desc: TypeDesc, name: string)
    ensures name in RefsOf(desc) <==> RefersTo(desc, name)
  {
  }

  lemma {:induction false} RefsOfAllIs(descs: seq<TypeDesc>, name: string)
    ensures name in RefsOfAll(descs) <==> exists i :: 0 <= i < |descs| && RefersTo(descs[i], name)
  {
    if descs != [] {
      hide RefersTo, RefsOf;
      var rest := descs[1..];
      RefsOfIs(descs[0], name);
      RefsOfAllIs(rest, name);
      if i :| 0 <= i < |rest| && RefersTo(rest[i], name) {
        assert RefersTo(descs[i + 1], name);
      }
      if i :| 0 <= i < |descs| && RefersTo(descs[i], name) {
        assert i > 0 ==> RefersTo(rest[i - 1], name);
      }
    }
  }

  /** A function refers to the types of its arguments and of what it returns. */
  predicate FunctionRefersTo(function_: Function, name: string) {
    RefersTo(function_.output, name)
    || exists i :: 0 <= i < |function_.arguments| && RefersTo(function_.arguments[i], name)
  }

  /** The roots of the snapshot's types are the nonempty types and elements that some
      argument or result of a function names. */
  lemma {:induction false} RootsAre(functions: seq<Function>, name: string)
    ensures name in RefsOfFunctions(functions) <==>
      exists i :: 0 <= i < |functions| && FunctionRefersTo(functions[i], name)
  {
    if functions != [] {
      hide RefersTo, RefsOf, RefsOfAll;
      var first, rest := functions[0], functions[1..];
      RefsOfAllIs(first.arguments, name);
      RefsOfIs(first.output, name);
      RootsAre(rest, name);
      assert FunctionRefersTo(first, name) <==> name in RefsOfAll(first.arguments) || name in RefsOf(first.output);
      hide FunctionRefersTo;
      if i :| 0 <= i < |rest| && FunctionRefersTo(rest[i], name) {
        assert FunctionRefersTo(functions[i + 1], name);
      }
      if i :| 0 <= i < |functions| && FunctionRefersTo(functions[i], name) {
        assert i > 0 ==> FunctionRefersTo(rest[i - 1], name);
      }
    }
  }

  /** The last entry of its name. */
  ghost predicate IsLast(types: seq<TypeEntry>, i: int) {
    0 <= i < |types| && forall j | i < j < |types| :: types[j].name != types[i].name
  }

  /** Every named type is described, and no other is. */
  lemma {:induction false} IndexHas(types: seq<TypeEntry>, name: string)
    ensures name in IndexOf(types) <==> exists i :: 0 <= i < |types| && types[i].name == name
  {
    if types != [] {
      hide RefsOfAll;
      var n := |types| - 1;
      var front := types[..n];
      IndexHas(front, name);
      if i :| 0 <= i < |front| && front[i].name == name { assert types[i].name == name; }
      if i :| 0 <= i < |types| && types[i].name == name { assert i < n ==> front[i].name == name; }
    }
  }

  /** It is described by the fields of the last entry of its name. */
  lemma {:induction false} IndexIs(types: seq<TypeEntry>, i: nat)
    requires IsLast(types, i)
    ensures types[i].name in IndexOf(types) && IndexOf(types)[types[i].name] == RefsOfAll(types[i].fields)
  {
    hide RefsOfAll;
    var n := |types| - 1;
    if i < n {
      assert types[n].name != types[i].name;
      IndexIs(types[..n], i);
    }
  }

  /** The type names `filter_help` keeps for the in-scope functions. */
  method FilterHelp(functions: seq<Function>, types: seq<TypeEntry>) returns (kept: set<string>)
    ensures Least(IndexOf(types), Elements(RefsOfFunctions(functions)), kept)
    ensures forall n :: n in kept <==> Reached(IndexOf(types), Elements(RefsOfFunctions(functions)), n)
  {
    hide Least, Reached;
    kept := CloseOver(IndexOf(types), RefsOfFunctions(functions));
    LeastIsReached(IndexOf(types), Elements(RefsOfFunctions(functions)), kept);
  }

  datatype Json =
    | Object(entries: seq<Entry>)
    | Array(items: seq<Json>)
    | Str(text: string)
    | Scalar

  datatype Entry = Entry(key: string, value: Json)

  const REF_PREFIX := "#/components/schemas/"

  /** The schema names under `$ref` keys, at any depth. */
  function SchemaRefs(value: Json): seq<string>
    decreases value, 0
  {
    match value
    case Object(entries) => EntryRefs(entries)
    case Array(items) => ItemRefs(items)
    case _ => []
  }

  function EntryRefs(entries: seq<Entry>): seq<string>
    decreases entries, 0
  {
    if entries == [] then []
    else
      var Entry(key, value) := entries[0];
      (if key == "$ref" && value.Str? && REF_PREFIX <= value.text then [value.text[|REF_PREFIX|..]] else [])
      + SchemaRefs(value) + EntryRefs(entries[1..])
  }

  function ItemRefs(items: seq<Json>): seq<string>
    decreases items, 0
  {
    if items == [] then [] else SchemaRefs(items[0]) + ItemRefs(items[1..])
  }

  /** There is an object at some depth of the value with a `$ref` to the name. */
  ghost predicate HasRef(value: Json, name: string)
    decreases value
  {
    (value.Object? && exists k :: 0 <= k < |value.entries| && IsRef(value.entries[k], name))
    || (value.Object? && exists k :: 0 <= k < |value.entries| && HasRef(value.entries[k].value, name))
    || (value.Array? && exists k :: 0 <= k < |value.items| && HasRef(value.items[k], name))
  }

  predicate IsRef(entry: Entry, name: string) {
    entry.key == "$ref" && entry.value == Str(REF_PREFIX + name)
  }

  lemma RefTail(entry: Entry, name: string)
    ensures IsRef(entry, name) <==>
      entry.key == "$ref" && entry.value.Str? && REF_PREFIX <= entry.value.text
      && entry.value.text[|REF_PREFIX|..] == name
  {
    if entry.value.Str? && REF_PREFIX <= entry.value.text {
      assert entry.value.text == REF_PREFIX + entry.value.text[|REF_PREFIX|..];
    }
  }

  /** The schema names collected from a value are exactly those. */
  lemma {:induction false} SchemaRefsAre(value: Json, name: string)
    ensures name in SchemaRefs(value) <==> HasRef(value, name)
    decreases value, 0
  {
    match value
    case Object(entries) => EntryRefsAre(entries, name);
    case Array(items) => ItemRefsAre(items, name);
    case _ =>
  }

  lemma {:induction false} EntryRefsAre(entries: seq<Entry>, name: string)
    ensures name in EntryRefs(entries) <==>
      (exists k :: 0 <= k < |entries| && IsRef(entries[k], name))
      || (exists k :: 0 <= k < |entries| && HasRef(entries[k].value, name))
    decreases entries, 0
  {
    if entries != [] {
      hide IsRef, HasRef, SchemaRefs;
      var first, rest := entries[0], entries[1..];
      RefTail(first, name);
      SchemaRefsAre(first.value, name);
      EntryRefsAre(rest, name);
      assert name in EntryRefs(entries) <==>
        IsRef(first, name) || HasRef(first.value, name) || name in EntryRefs(rest);
      hide EntryRefs;
      if k :| 0 <= k < |rest| && IsRef(rest[k], name) { assert IsRef(entries[k + 1], name); }
      if k :| 0 <= k < |rest| && HasRef(rest[k].value, name) { assert HasRef(entries[k + 1].value, name); }
      if k :| 0 <= k < |entries| && IsRef(entries[k], name) { assert k > 0 ==> IsRef(rest[k - 1], name); }
      if k :| 0 <= k < |entries| && HasRef(entries[k].value, name) { assert k > 0 ==> HasRef(rest[k - 1].value, name); }
    }
  }

  lemma {:induction false} ItemRefsAre(items: seq<Json>, name: string)
    ensures name in ItemRefs(items) <==> exists k :: 0 <= k < |items| && HasRef(items[k], name)
    decreases items, 0
  {
    if items != [] {
      hide HasRef, SchemaRefs;
      var rest := items[1..];
      SchemaRefsAre(items[0], name);
      ItemRefsAre(rest, name);
      if k :| 0 <= k < |rest| && HasRef(rest[k], name) { assert HasRef(items[k + 1], name); }
      if k :| 0 <= k < |items| && HasRef(items[k], name) { assert k > 0 ==> HasRef(rest[k - 1], name); }
    }
  }

  function SchemaIndex(schemas: map<string, Json>): Index {
    map n | n in schemas :: SchemaRefs(schemas[n])
  }

  /** Every schema is described, by the names it has a `$ref` to. */
  lemma SchemaIndexIs(schemas: map<string, Json>, name: string, ref: string)
    ensures name in SchemaIndex(schemas) <==> name in schemas
    ensures name in schemas ==> (ref in SchemaIndex(schemas)[name] <==> HasRef(schemas[name], ref))
  {
    if name in schemas { SchemaRefsAre(schemas[name], ref); }
  }

  /** The schema names `filter_openapi` keeps for the in-scope paths. */
  method FilterOpenapi(paths: seq<Json>, schemas: map<string, Json>) returns (kept: set<string>)
    ensures Least(SchemaIndex(schemas), Elements(ItemRefs(paths)), kept)
    ensures forall n :: n in kept <==> Reached(SchemaIndex(schemas), Elements(ItemRefs(paths)), n)
  {
    hide Least, Reached;
    kept := CloseOver(SchemaIndex(schemas), ItemRefs(paths));
    LeastIsReached(SchemaIndex(schemas), Elements(ItemRefs(paths)), kept);
  }
}
