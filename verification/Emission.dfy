/** The generator's walk over the schema's type graph: every struct an endpoint returns,
    and every struct its kept fields lead to, emitted once - cycles included.
 */
module Emission {
  import opened Client
  import opened Text
  import Surface
  import opened Closure

  datatype Result<+T> = Success(value: T) | Failure

  // ---- The schema and its overrides --------------------------------------

  datatype TypeRef = TypeRef(ty: string, element: string)

  datatype Field = Field(name: string, ty: TypeRef)

  datatype TypeDef = TypeDef(fields: seq<Field>, isEnum: bool)

  datatype Override = Override(rename: Option<string>, fields: seq<string>)

  datatype FlatField = FlatField(rustName: string, rename: Option<string>, ty: string)

  datatype FlatType = FlatType(rustName: string, fields: seq<FlatField>)

  function Primitive(name: string): Option<string> {
    match name
    case "bool" => Some("bool")
    case "string" => Some("String")
    case "int8" => Some("i8")
    case "int16" => Some("i16")
    case "int32" => Some("i32")
    case "int64" => Some("i64")
    case "uint8" => Some("u8")
    case "uint16" => Some("u16")
    case "uint32" => Some("u32")
    case "uint64" => Some("u64")
    case "float" => Some("f32")
    case "double" => Some("f64")
    case _ => None
  }

  function FindField(fields: seq<Field>, name: string): (r: Option<Field>)
    ensures r.Some? <==> IsDescribed(fields, name)
    ensures r.Some? ==> IsFirstField(fields, name, r.value)
  {
    if fields == [] then None
    else
      FirstFieldOfRest(fields, name);
      if fields[0].name == name then Some(fields[0]) else FindField(fields[1..], name)
  }

  predicate IsDescribed(fields: seq<Field>, name: string) {
    exists i :: 0 <= i < |fields| && fields[i].name == name
  }

  /** The first field of its name. */
  predicate IsFirstField(fields: seq<Field>, name: string, field: Field) {
    exists i :: 0 <= i < |fields| && fields[i] == field && field.name == name
      && forall j | 0 <= j < i :: fields[j].name != name
  }

  lemma FirstFieldOfRest(fields: seq<Field>, name: string)
    requires fields != []
    ensures fields[0].name == name ==> IsDescribed(fields, name) && IsFirstField(fields, name, fields[0])
    ensures fields[0].name != name ==>
      && (IsDescribed(fields, name) <==> IsDescribed(fields[1..], name))
      && forall field | IsFirstField(fields[1..], name, field) :: IsFirstField(fields, name, field)
  {
    var rest := fields[1..];
    if fields[0].name == name {
      assert IsFirstField(fields, name, fields[0]);
    } else {
      if i :| 0 <= i < |rest| && rest[i].name == name { assert fields[i + 1].name == name; }
      if i :| 0 <= i < |fields| && fields[i].name == name { assert rest[i - 1].name == name; }
      forall field | IsFirstField(rest, name, field) ensures IsFirstField(fields, name, field) {
        var i :| 0 <= i < |rest| && rest[i] == field && field.name == name
          && forall j | 0 <= j < i :: rest[j].name != name;
        assert fields[i + 1] == field && forall j | 0 < j < i + 1 :: fields[j] == rest[j - 1];
      }
    }
  }

  /** The wanted fields in the order they are wanted; `None` if one is not there. */
  function Select(fields: seq<Field>, wanted: seq<string>): Option<seq<Field>> {
    if wanted == [] then Some([])
    else
      match (FindField(fields, wanted[0]), Select(fields, wanted[1..]))
      case (Some(field), Some(rest)) => Some([field] + rest)
      case _ => None
  }

  /** How many more times a descriptor is taken apart. */
  function Depth(ty: TypeRef): nat {
    if ty.ty != "vector" && ty.ty != "map" then 0
    else if ty.element != "vector" && ty.element != "map" then 1 else 2
  }

  /** The flat name without the namespace's prefix, unless nothing is left. */
  function ShortName(flat: string, prefix: string): (short: string)
    ensures short == flat || prefix + short == flat
    ensures short == [] ==> flat == []
    ensures forall rest | rest != [] && flat == prefix + rest :: short == rest
  {
    if prefix <= flat && |prefix| < |flat| then flat[|prefix|..] else flat
  }

  datatype Model = Model(types: map<string, TypeDef>, overrides: map<string, Override>) {

    function RustName(name: string): string {
      if name in overrides && overrides[name].rename.Some? then overrides[name].rename.value else name
    }

    predicate IsStruct(name: string) {
      Primitive(name).None? && name in types && !types[name].isEnum
    }

    function Kept(name: string): Option<seq<Field>>
      requires name in types
    {
      if name in overrides then Select(types[name].fields, overrides[name].fields)
      else Some(types[name].fields)
    }

    /** How a field of this type is written, where it can be. */
    function FieldText(ty: TypeRef): Option<string>
      decreases Depth(ty)
    {
      if ty.ty == "map" then None
      else if ty.ty == "vector" then
        match FieldText(TypeRef(ty.element, ""))
        case Some(inner) => Some("Vec<" + inner + ">")
        case None => None
      else
        match Primitive(ty.ty)
        case Some(primitive) => Some(primitive)
        case None =>
          if ty.ty !in types then None
          else if types[ty.ty].isEnum then Some("String")
          else Some(RustName(ty.ty))
    }

    /** The struct a field's type names, if it names one. */
    function FieldStruct(ty: TypeRef): Option<string>
      decreases Depth(ty)
    {
      if ty.ty == "map" then None
      else if ty.ty == "vector" then FieldStruct(TypeRef(ty.element, ""))
      else if IsStruct(ty.ty) then Some(ty.ty) else None
    }

    /** Which struct, if any, an endpoint's return type names. */
    function OutputStruct(ty: TypeRef): Option<string>
      decreases Depth(ty)
    {
      if ty.ty == "" then None
      else if ty.ty == "vector" || ty.ty == "map" then OutputStruct(TypeRef(ty.element, ""))
      else if IsStruct(ty.ty) then Some(ty.ty) else None
    }

    /** A return type the generator has a spelling for. */
    predicate OutputKnown(ty: TypeRef)
      decreases Depth(ty)
    {
      if ty.ty == "" then true
      else if ty.ty == "vector" || ty.ty == "map" then OutputKnown(TypeRef(ty.element, ""))
      else Primitive(ty.ty).Some? || ty.ty in types
    }

    /** How a return type is written in the namespace whose Pascal name is `prefix`. */
    function OutputText(ty: TypeRef, prefix: string): string
      decreases Depth(ty)
    {
      if ty.ty == "" then "()"
      else if ty.ty == "map" then "HashMap<String, " + OutputText(TypeRef(ty.element, ""), prefix) + ">"
      else if ty.ty == "vector" then "Vec<" + OutputText(TypeRef(ty.element, ""), prefix) + ">"
      else
        match Primitive(ty.ty)
        case Some(primitive) => primitive
        case None => if IsStruct(ty.ty) then ShortName(RustName(ty.ty), prefix) else "String"
    }

    /** A type that can be emitted: described, with every kept field there and of a
        type that has a spelling. */
    ghost predicate Good(name: string) {
      && name in types && Kept(name).Some?
      && forall i | 0 <= i < |Kept(name).value| :: FieldText(Kept(name).value[i].ty).Some?
    }

    function FlatFieldOf(field: Field): FlatField
      requires FieldText(field.ty).Some?
    {
      var rustField := Surface.Snaked(field.name);
      FlatField(rustField, if rustField != field.name then Some(field.name) else None, FieldText(field.ty).value)
    }

    /** What the emitted struct for `name` must hold. */
    ghost function FieldsOf(name: string): (r: seq<FlatField>)
      requires Good(name)
    {
      var kept := Kept(name).value;
      seq(|kept|, i requires 0 <= i < |kept| => FlatFieldOf(kept[i]))
    }

    function StructsOf(fields: seq<Field>): seq<string> {
      if fields == [] then []
      else
        (match FieldStruct(fields[0].ty) case Some(name) => [name] case None => [])
        + StructsOf(fields[1..])
    }

    /** The type graph: a type refers to the structs its kept fields name. */
    function Graph(): Index {
      map name | name in types ::
        match Kept(name) case Some(kept) => StructsOf(kept) case None => []
    }
  }

  lemma {:induction false} FieldStructIsStruct(m: Model, ty: TypeRef)
    ensures m.FieldStruct(ty).Some? ==>
      m.IsStruct(m.FieldStruct(ty).value) && m.FieldText(ty).Some?
    decreases Depth(ty)
  {
    if ty.ty == "vector" { FieldStructIsStruct(m, TypeRef(ty.element, "")); }
  }

  lemma {:induction false} OutputStructIsStruct(m: Model, ty: TypeRef)
    ensures m.OutputStruct(ty).Some? ==> m.IsStruct(m.OutputStruct(ty).value) && m.OutputKnown(ty)
    decreases Depth(ty)
  {
    if ty.ty == "vector" || ty.ty == "map" { OutputStructIsStruct(m, TypeRef(ty.element, "")); }
  }

  lemma {:induction false} StructsOfHas(m: Model, fields: seq<Field>, name: string)
    ensures name in m.StructsOf(fields) <==>
      exists i | 0 <= i < |fields| :: m.FieldStruct(fields[i].ty) == Some(name)
  {
    if fields != [] {
      var rest := fields[1..];
      StructsOfHas(m, rest, name);
      if name in m.StructsOf(rest) {
        var i :| 0 <= i < |rest| && m.FieldStruct(rest[i].ty) == Some(name);
        assert fields[i + 1] == rest[i];
      }
      if i :| 0 < i < |fields| && m.FieldStruct(fields[i].ty) == Some(name) {
        assert rest[i - 1] == fields[i];
      }
    }
  }

  // ---- What is kept, and how it is spelt ----------------------------------

  /** The name a field has on the wire. */
  function WireName(field: FlatField): string {
    if field.rename.Some? then field.rename.value else field.rustName
  }

  /** Fields are selected if and only if each wanted name is described; each is then the first
      described field of its name, in the order wanted. */
  lemma {:induction false} SelectIs(fields: seq<Field>, wanted: seq<string>)
    ensures Select(fields, wanted).Some? <==> forall k | 0 <= k < |wanted| :: IsDescribed(fields, wanted[k])
    ensures Select(fields, wanted).Some? ==>
      var kept := Select(fields, wanted).value;
      |kept| == |wanted| && forall k | 0 <= k < |wanted| :: IsFirstField(fields, wanted[k], kept[k])
  {
    hide FindField, IsFirstField, IsDescribed;
    if wanted != [] {
      var rest := wanted[1..];
      SelectIs(fields, rest);
      assert wanted == [wanted[0]] + rest;
      assert FindField(fields, wanted[0]).Some? <==> IsDescribed(fields, wanted[0]);
    }
  }

  /** A field keeps its name on the wire; in Rust it is that name in snake case. */
  lemma FlatFieldIs(m: Model, field: Field)
    requires m.FieldText(field.ty).Some?
    ensures var flat := m.FlatFieldOf(field);
      && WireName(flat) == field.name && Some(flat.ty) == m.FieldText(field.ty)
      && (flat.rename.Some? <==> flat.rustName != field.name)
      && (Surface.NoCapital(field.name) ==> flat.rustName == field.name)
      && (field.name != [] && Free(field.name, '_') ==>
          Split(flat.rustName, {'_'}) == Surface.Each(Surface.Words(field.name), Surface.Lower))
  {
    if Surface.NoCapital(field.name) { Surface.LowerPassesThrough(field.name, '_'); }
    if field.name != [] && Free(field.name, '_') { Surface.SnakeIsTheWords(field.name); }
  }

  /** What a filled slot holds. With an override: as many fields as that lists, field `k` under
      the `k`th name listed on the wire, of the type of the first described field of that
      name. Without one: all the described fields, in order. */
  lemma SlotHasItsFields(m: Model, emitted: seq<FlatType>, origin: seq<string>, i: nat)
    requires i < |emitted| && i < |origin| && Filled(m, emitted, origin, i)
    ensures var name, fields := origin[i], emitted[i].fields;
      var described := m.types[name].fields;
      if name in m.overrides then
        var wanted := m.overrides[name].fields;
        |fields| == |wanted|
        && forall k | 0 <= k < |wanted| :: SpeltFrom(m, fields[k], described, wanted[k])
      else
        |fields| == |described|
        && forall k | 0 <= k < |described| ::
            WireName(fields[k]) == described[k].name && Some(fields[k].ty) == m.FieldText(described[k].ty)
  {
    hide Model.FieldText, Model.FlatFieldOf, WireName, IsFirstField;
    var name := origin[i];
    var kept := m.Kept(name).value;
    forall k | 0 <= k < |kept|
      ensures emitted[i].fields[k] == m.FlatFieldOf(kept[k])
      ensures WireName(emitted[i].fields[k]) == kept[k].name
      ensures Some(emitted[i].fields[k].ty) == m.FieldText(kept[k].ty)
    {
      FlatFieldIs(m, kept[k]);
    }
    if name in m.overrides {
      var described, wanted := m.types[name].fields, m.overrides[name].fields;
      SelectIs(described, wanted);
      forall k | 0 <= k < |wanted| ensures SpeltFrom(m, emitted[i].fields[k], described, wanted[k]) {
        FirstFieldHasTheName(described, wanted[k], kept[k]);
      }
    }
  }

  lemma FirstFieldHasTheName(fields: seq<Field>, name: string, field: Field)
    requires IsFirstField(fields, name, field)
    ensures field.name == name
  {
  }

  /** The field as the first described one of that name demands. */
  ghost predicate SpeltFrom(m: Model, flat: FlatField, described: seq<Field>, name: string) {
    WireName(flat) == name
    && exists field :: IsFirstField(described, name, field) && Some(flat.ty) == m.FieldText(field.ty)
  }

  /** What a descriptor is about once its vector or map is taken off. A wrapper inside a wrapper
      has lost its element. */
  function Innermost(ty: TypeRef): string {
    if ty.ty != "vector" && ty.ty != "map" then ty.ty
    else if ty.element != "vector" && ty.element != "map" then ty.element
    else ""
  }

  /** An endpoint's type leads to a struct exactly if what it is about is one. */
  lemma OutputLeadsTo(m: Model, ty: TypeRef)
    ensures m.OutputStruct(ty) ==
      if Innermost(ty) != "" && m.IsStruct(Innermost(ty)) then Some(Innermost(ty)) else None
    ensures m.OutputKnown(ty) <==>
      Innermost(ty) == "" || Primitive(Innermost(ty)).Some? || Innermost(ty) in m.types
  {
    var inner := TypeRef(ty.element, "");
    var within := TypeRef("", "");
    assert m.OutputStruct(within) == None && m.OutputKnown(within);
    if ty.ty == "vector" || ty.ty == "map" {
      assert m.OutputStruct(ty) == m.OutputStruct(inner) && m.OutputKnown(ty) == m.OutputKnown(inner);
      if inner.ty == "vector" || inner.ty == "map" {
        assert m.OutputStruct(inner) == m.OutputStruct(within) && m.OutputKnown(inner) == m.OutputKnown(within);
      }
    }
  }

  /** A map is spelt as the vector of its element is, but for what is put around it. */
  lemma MapsAreSpeltAsVectors(m: Model, element: string, prefix: string)
    ensures var vector := m.OutputText(TypeRef("vector", element), prefix);
      && "Vec<" <= vector
      && m.OutputText(TypeRef("map", element), prefix) == "HashMap<String, " + vector[4..]
  {
    var inner := m.OutputText(TypeRef(element, ""), prefix);
    assert "Vec<" + inner + ">" == "Vec<" + (inner + ">");
    assert "HashMap<String, " + inner + ">" == "HashMap<String, " + (inner + ">");
  }

  /** Where a type is spelt as a field and as a return type - no map, no missing element - the
      two spellings differ only in a struct's name, which is shortened in the return type. */
  lemma {:induction false} OutputsAreSpeltAsFields(m: Model, ty: TypeRef, prefix: string)
    requires m.FieldText(ty).Some? && Innermost(ty) != ""
    ensures m.OutputKnown(ty) && m.FieldStruct(ty) == m.OutputStruct(ty)
    ensures m.OutputStruct(ty).None? ==> m.OutputText(ty, prefix) == m.FieldText(ty).value
    ensures m.OutputStruct(ty).Some? ==>
      var flat := m.RustName(m.OutputStruct(ty).value);
      if ty.ty == "vector"
      then m.FieldText(ty).value == "Vec<" + flat + ">"
        && m.OutputText(ty, prefix) == "Vec<" + ShortName(flat, prefix) + ">"
      else m.FieldText(ty).value == flat && m.OutputText(ty, prefix) == ShortName(flat, prefix)
    decreases Depth(ty)
  {
    if ty.ty == "vector" {
      OutputsAreSpeltAsFields(m, TypeRef(ty.element, ""), prefix);
    }
  }

  // ---- What the walk keeps -----------------------------------------------

  /** Every slot is named after the type it was reserved for, and no name is used twice. */
  ghost predicate Slots(m: Model, emitted: seq<FlatType>, origin: seq<string>) {
    && |emitted| == |origin|
    && (forall i | 0 <= i < |emitted| ::
          origin[i] in m.types && emitted[i].rustName == m.RustName(origin[i]))
    && (forall i, j | 0 <= i < j < |emitted| :: emitted[i].rustName != emitted[j].rustName)
  }

  function Names(emitted: seq<FlatType>): set<string> {
    set i | 0 <= i < |emitted| :: emitted[i].rustName
  }

  /** A slot that is filled in for good: the right fields, and the struct of each field
      has a slot of its own. */
  ghost predicate Filled(m: Model, emitted: seq<FlatType>, origin: seq<string>, i: nat)
    requires i < |emitted| && i < |origin|
  {
    && m.Good(origin[i]) && emitted[i].fields == m.FieldsOf(origin[i])
    && forall name | name in m.Graph()[origin[i]] :: m.RustName(name) in Names(emitted)
  }

  /** The walk went on from `(e0, o0)`: old slots are as they were, new ones are filled. */
  ghost predicate Onwards(m: Model, e0: seq<FlatType>, o0: seq<string>, e: seq<FlatType>, o: seq<string>) {
    && Slots(m, e0, o0) && Slots(m, e, o)
    && e0 <= e && o0 <= o
    && forall i | |e0| <= i < |e| :: Filled(m, e, o, i)
  }

  lemma NamesGrow(a: seq<FlatType>, b: seq<FlatType>)
    requires a <= b
    ensures Names(a) <= Names(b)
  {
    forall i | 0 <= i < |a| ensures a[i].rustName in Names(b) {
      assert a[i] == b[i];
    }
  }

  lemma OnwardsGoesOn(m: Model, e0: seq<FlatType>, o0: seq<string>, e1: seq<FlatType>, o1: seq<string>,
                      e2: seq<FlatType>, o2: seq<string>)
    requires Onwards(m, e0, o0, e1, o1) && Onwards(m, e1, o1, e2, o2)
    ensures Onwards(m, e0, o0, e2, o2)
  {
    NamesGrow(e1, e2);
    forall i | |e0| <= i < |e2| ensures Filled(m, e2, o2, i) {
      if i < |e1| {
        assert Filled(m, e1, o1, i) && e2[i] == e1[i] && o2[i] == o1[i];
      }
    }
  }

  /** `name` brings `other` with it: no closed set has the one and not the other. */
  ghost predicate Brings(m: Model, name: string, other: string) {
    forall names: set<string> | Closed(m.Graph(), {name}, names) :: other in names
  }

  lemma BringsItself(m: Model, name: string)
    requires name in m.types
    ensures Brings(m, name, name)
  {
  }

  lemma BringsOnwards(m: Model, name: string, next: string, other: string)
    requires name in m.types && next in m.types && next in m.Graph()[name] && Brings(m, next, other)
    ensures Brings(m, name, other)
  {
    forall names: set<string> | Closed(m.Graph(), {name}, names) ensures other in names {
      assert Closed(m.Graph(), {next}, names);
    }
  }

  /** What the new slots of a step are for. */
  ghost predicate BroughtBy(m: Model, name: string, origin: seq<string>, from: nat) {
    forall i | from <= i < |origin| :: Brings(m, name, origin[i])
  }

  /** Why a walk from `name` can fail. */
  ghost predicate Spoiled(m: Model, name: string) {
    name !in m.types || exists bad :: Brings(m, name, bad) && !m.Good(bad)
  }

  lemma KeptBrings(m: Model, name: string, j: nat, origin: seq<string>, from: nat)
    requires name in m.types && m.Kept(name).Some? && j < |m.Kept(name).value|
    requires m.FieldStruct(m.Kept(name).value[j].ty).Some?
    ensures var next := m.FieldStruct(m.Kept(name).value[j].ty).value;
      && (BroughtBy(m, next, origin, from) ==> BroughtBy(m, name, origin, from))
      && (Spoiled(m, next) ==> Spoiled(m, name))
  {
    var kept := m.Kept(name).value;
    var next := m.FieldStruct(kept[j].ty).value;
    FieldStructIsStruct(m, kept[j].ty);
    StructsOfHas(m, kept, next);
    assert next in m.Graph()[name];
    if BroughtBy(m, next, origin, from) {
      forall i | from <= i < |origin| ensures Brings(m, name, origin[i]) {
        BringsOnwards(m, name, next, origin[i]);
      }
    }
    if Spoiled(m, next) {
      var bad :| Brings(m, next, bad) && !m.Good(bad);
      BringsOnwards(m, name, next, bad);
    }
  }

  /** Described types with no slot under their Rust name yet. */
  function Unnamed(m: Model, emitted: seq<FlatType>): nat {
    |set name | name in m.types && m.RustName(name) !in Names(emitted)|
  }

  lemma UnnamedShrinks(m: Model, a: seq<FlatType>, b: seq<FlatType>)
    requires Names(a) <= Names(b)
    ensures Unnamed(m, b) <= Unnamed(m, a)
    ensures (exists name :: name in m.types && m.RustName(name) in Names(b) - Names(a)) ==>
      Unnamed(m, b) < Unnamed(m, a)
  {
    var before := set name | name in m.types && m.RustName(name) !in Names(a);
    var after := set name | name in m.types && m.RustName(name) !in Names(b);
    assert after <= before;
    Subset(after, before);
    if name :| name in m.types && m.RustName(name) in Names(b) - Names(a) {
      assert name in before - after;
      Subset(after, before - {name});
    }
  }

  lemma Subset(a: set<string>, b: set<string>)
    requires a <= b
    ensures |a| <= |b|
  {
    assert b == a + (b - a);
  }

  lemma Reserved(m: Model, e: seq<FlatType>, o: seq<string>, name: string)
    requires Slots(m, e, o) && name in m.types && m.RustName(name) !in Names(e)
    ensures var e1, o1 := e + [FlatType(m.RustName(name), [])], o + [name];
      && Slots(m, e1, o1) && Names(e1) == Names(e) + {m.RustName(name)}
      && Unnamed(m, e1) < Unnamed(m, e)
      && Onwards(m, e1, o1, e1, o1)
  {
    var e1 := e + [FlatType(m.RustName(name), [])];
    assert e1[|e|].rustName == m.RustName(name);
    forall i | 0 <= i < |e| ensures e1[i].rustName != m.RustName(name) {
      assert e[i].rustName in Names(e);
    }
    NamesGrow(e, e1);
    forall n | n in Names(e1) ensures n in Names(e) + {m.RustName(name)} {
      var i :| 0 <= i < |e1| && e1[i].rustName == n;
      if i < |e| { assert e[i].rustName == n; }
    }
    UnnamedShrinks(m, e, e1);
  }

  /** Overwriting the reserved slot completes the step that began by reserving it. */
  lemma SlotFilled(m: Model, e0: seq<FlatType>, o0: seq<string>, e: seq<FlatType>, o: seq<string>,
                   name: string, fields: seq<FlatField>)
    requires Slots(m, e0, o0) && name in m.types
    requires Onwards(m, e0 + [FlatType(m.RustName(name), [])], o0 + [name], e, o)
    requires m.Good(name) && fields == m.FieldsOf(name)
    requires forall next | next in m.Graph()[name] :: m.RustName(next) in Names(e)
    ensures var e2 := e[|e0| := FlatType(m.RustName(name), fields)];
      Names(e2) == Names(e) && Onwards(m, e0, o0, e2, o)
  {
    var e2 := e[|e0| := FlatType(m.RustName(name), fields)];
    assert (e0 + [FlatType(m.RustName(name), [])])[|e0|] == e[|e0|];
    assert (o0 + [name])[|o0|] == o[|o0|];
    assert forall i | 0 <= i < |e| :: e2[i].rustName == e[i].rustName;
    assert Names(e2) == Names(e);
    forall i | 0 <= i < |e0| ensures e2[i] == e0[i] && o[i] == o0[i] {
      assert (e0 + [FlatType(m.RustName(name), [])])[i] == e0[i];
      assert (o0 + [name])[i] == o0[i];
    }
    forall i | |e0| <= i < |e2| ensures Filled(m, e2, o, i) {
      if i > |e0| { assert Filled(m, e, o, i); }
    }
  }

  lemma NotGood(m: Model, name: string, j: nat)
    requires name in m.types && Brings(m, name, name)
    requires m.Kept(name).None?
          || (j < |m.Kept(name).value| && m.FieldText(m.Kept(name).value[j].ty).None?)
    ensures Spoiled(m, name)
  {
    assert !m.Good(name);
  }

  lemma UnnamedSame(m: Model, a: seq<FlatType>, b: seq<FlatType>)
    ensures Names(a) == Names(b) ==> Unnamed(m, a) == Unnamed(m, b)
  {
  }

  lemma AllGood(m: Model, name: string, fields: seq<FlatField>, names: set<string>)
    requires name in m.types && m.Kept(name).Some?
    requires var kept := m.Kept(name).value;
      && |fields| == |kept|
      && (forall k | 0 <= k < |kept| ::
            m.FieldText(kept[k].ty).Some? && fields[k] == m.FlatFieldOf(kept[k]))
      && (forall k | 0 <= k < |kept| && m.FieldStruct(kept[k].ty).Some? ::
            m.RustName(m.FieldStruct(kept[k].ty).value) in names)
    ensures m.Good(name) && fields == m.FieldsOf(name)
    ensures forall next | next in m.Graph()[name] :: m.RustName(next) in names
  {
    var kept := m.Kept(name).value;
    forall next | next in m.Graph()[name] ensures m.RustName(next) in names {
      StructsOfHas(m, kept, next);
    }
  }

  /** The walk is over: every slot is filled, and what a slot's fields name has a slot. */
  ghost predicate Complete(m: Model, emitted: seq<FlatType>, origin: seq<string>) {
    && Slots(m, emitted, origin)
    && (forall i | 0 <= i < |emitted| :: Filled(m, emitted, origin, i))
    && Closed(m.Graph(), {}, Elements(origin))
  }

  // ---- The walk ----------------------------------------------------------

  class ModelResolver {
    const model: Model
    var emitted: seq<FlatType>
    /** Short name to flat name, for the types endpoints return. */
    var emittedNames: map<string, string>
    /** The described type each slot was reserved for. */
    ghost var origin: seq<string>

    constructor (model: Model)
      ensures this.model == model && emitted == [] && origin == [] && emittedNames == map[]
    {
      this.model := model;
      emitted, origin, emittedNames := [], [], map[];
    }

    method EmitStruct(name: string) returns (r: Result<string>)
      requires Slots(model, emitted, origin)
      modifies this`emitted, this`origin
      ensures Slots(model, emitted, origin) && old(emitted) <= emitted && old(origin) <= origin
      ensures Unnamed(model, emitted) <= old(Unnamed(model, emitted))
      ensures BroughtBy(model, name, origin, |old(origin)|)
      ensures r.Success? ==>
        && r.value == model.RustName(name) && r.value in Names(emitted)
        && Onwards(model, old(emitted), old(origin), emitted, origin)
      ensures r.Failure? ==> Spoiled(model, name)
      decreases Unnamed(model, emitted), 0, 0
    {
      hide Filled, Brings, Model.Good, Model.Graph, Unnamed, Names;
      var rustName := model.RustName(name);
      if rustName in Names(emitted) {
        return Success(rustName);
      }
      if name !in model.types {
        return Failure;
      }
      // Reserve the slot before going on, so that cycles end here.
      Reserved(model, emitted, origin, name);
      ghost var e0, o0 := emitted, origin;
      emitted := emitted + [FlatType(rustName, [])];
      origin := origin + [name];
      var slot := |emitted| - 1;
      BringsItself(model, name);
      var fields := EmitFields(name);
      if fields.Failure? {
        return Failure;
      }
      SlotFilled(model, e0, o0, emitted, origin, name, fields.value);
      UnnamedSame(model, emitted, emitted[slot := FlatType(rustName, fields.value)]);
      NamesGrow(e0 + [FlatType(rustName, [])], emitted);
      emitted := emitted[slot := FlatType(rustName, fields.value)];
      return Success(rustName);
    }

    /** The fields of a struct whose slot is reserved, and all they lead to. */
    method EmitFields(name: string) returns (r: Result<seq<FlatField>>)
      requires Slots(model, emitted, origin) && name in model.types
      modifies this`emitted, this`origin
      ensures Slots(model, emitted, origin) && old(emitted) <= emitted && old(origin) <= origin
      ensures Unnamed(model, emitted) <= old(Unnamed(model, emitted))
      ensures BroughtBy(model, name, origin, |old(origin)|)
      ensures r.Success? ==>
        && Onwards(model, old(emitted), old(origin), emitted, origin)
        && model.Good(name) && r.value == model.FieldsOf(name)
        && forall next | next in model.Graph()[name] :: model.RustName(next) in Names(emitted)
      ensures r.Failure? ==> Spoiled(model, name)
      decreases Unnamed(model, emitted), 2, 0
    {
      hide Filled, Brings, Model.Good, Model.Graph, Unnamed, Names;
      ghost var e1, o1 := emitted, origin;
      BringsItself(model, name);
      var kept := model.Kept(name);
      if kept.None? {
        NotGood(model, name, 0);
        return Failure;
      }
      var fields: seq<FlatField> := [];
      for j := 0 to |kept.value|
        invariant Onwards(model, e1, o1, emitted, origin)
        invariant Unnamed(model, emitted) <= old(Unnamed(model, emitted))
        invariant BroughtBy(model, name, origin, |o1|)
        invariant |fields| == j
        invariant forall k | 0 <= k < j ::
          model.FieldText(kept.value[k].ty).Some? && fields[k] == model.FlatFieldOf(kept.value[k])
        invariant forall k | 0 <= k < j && model.FieldStruct(kept.value[k].ty).Some? ::
          model.RustName(model.FieldStruct(kept.value[k].ty).value) in Names(emitted)
      {
        hide Slots, Onwards, Model.FieldText, Model.FieldStruct, Model.RustName;
        ghost var e2, o2 := emitted, origin;
        var field := kept.value[j];
        var text := MapFieldType(field.ty);
        if model.FieldStruct(field.ty).Some? {
          KeptBrings(model, name, j, origin, |o2|);
        }
        if text.Failure? {
          if model.FieldText(field.ty).None? { NotGood(model, name, j); }
          return Failure;
        }
        OnwardsGoesOn(model, e1, o1, e2, o2, emitted, origin);
        NamesGrow(e2, emitted);
        var rustField := Surface.Snaked(field.name);
        fields := fields + [FlatField(
          rustField, if rustField != field.name then Some(field.name) else None, text.value)];
      }
      AllGood(model, name, fields, Names(emitted));
      return Success(fields);
    }

    method MapFieldType(ty: TypeRef) returns (r: Result<string>)
      requires Slots(model, emitted, origin)
      modifies this`emitted, this`origin
      ensures Slots(model, emitted, origin) && old(emitted) <= emitted && old(origin) <= origin
      ensures Unnamed(model, emitted) <= old(Unnamed(model, emitted))
      ensures match model.FieldStruct(ty)
        case Some(next) => BroughtBy(model, next, origin, |old(origin)|)
        case None => origin == old(origin)
      ensures r.Success? ==>
        && model.FieldText(ty) == Some(r.value)
        && Onwards(model, old(emitted), old(origin), emitted, origin)
        && (model.FieldStruct(ty).Some? ==> model.RustName(model.FieldStruct(ty).value) in Names(emitted))
      ensures r.Failure? ==>
        model.FieldText(ty).None?
        || (model.FieldStruct(ty).Some? && Spoiled(model, model.FieldStruct(ty).value))
      decreases Unnamed(model, emitted), 1, Depth(ty)
    {
      if ty.ty == "map" {
        return Failure;
      }
      if ty.ty == "vector" {
        var inner := MapFieldType(TypeRef(ty.element, ""));
        return if inner.Success? then Success("Vec<" + inner.value + ">") else Failure;
      }
      var primitive := Primitive(ty.ty);
      if primitive.Some? {
        return Success(primitive.value);
      }
      if ty.ty !in model.types {
        return Failure;
      }
      if model.types[ty.ty].isEnum {
        return Success("String");
      }
      r := EmitStruct(ty.ty);
    }

    /** The spelling of an endpoint's return type, its struct emitted on the way. */
    method MapOutput(ty: TypeRef, prefix: string) returns (r: Result<string>)
      requires Slots(model, emitted, origin)
      modifies this
      ensures Slots(model, emitted, origin)
      ensures match model.OutputStruct(ty)
        case Some(name) => BroughtBy(model, name, origin, |old(origin)|)
        case None => origin == old(origin) && emittedNames == old(emittedNames)
      ensures r.Success? ==>
        && model.OutputKnown(ty) && r.value == model.OutputText(ty, prefix)
        && Onwards(model, old(emitted), old(origin), emitted, origin)
        && match model.OutputStruct(ty)
           case Some(name) =>
             var flat := model.RustName(name);
             flat in Names(emitted) && emittedNames == old(emittedNames)[ShortName(flat, prefix) := flat]
           case None => true
      ensures r.Failure? ==>
        !model.OutputKnown(ty)
        || (model.OutputStruct(ty).Some? && Spoiled(model, model.OutputStruct(ty).value))
      decreases Depth(ty)
    {
      hide Brings, Filled, Model.Good, Model.Graph;
      if ty.ty == "" {
        return Success("()");
      }
      if ty.ty == "vector" || ty.ty == "map" {
        var inner := MapOutput(TypeRef(ty.element, ""), prefix);
        if inner.Failure? {
          return Failure;
        }
        return Success(
          if ty.ty == "map" then "HashMap<String, " + inner.value + ">" else "Vec<" + inner.value + ">");
      }
      var primitive := Primitive(ty.ty);
      if primitive.Some? {
        return Success(primitive.value);
      }
      if ty.ty !in model.types {
        return Failure;
      }
      if model.types[ty.ty].isEnum {
        return Success("String");
      }
      var flat := EmitStruct(ty.ty);
      if flat.Failure? {
        return Failure;
      }
      var short := ShortName(flat.value, prefix);
      emittedNames := emittedNames[short := flat.value];
      return Success(short);
    }

    /** All the return types of a run, in order. It succeeds if all that the outputs reach
        can be emitted. On success every slot is filled, and the slots are exactly the
        structs that the outputs reach if and only if no two of those share a Rust name;
        then, too, the run succeeds only if all of them can be emitted. */
    method ResolveOutputs(outputs: seq<Output>) returns (ok: bool)
      requires emitted == [] && origin == []
      modifies this
      ensures Slots(model, emitted, origin)
      ensures ok ==> forall i | 0 <= i < |emitted| :: Filled(model, emitted, origin, i)
      ensures ok ==>
        (Least(model.Graph(), Roots(model, outputs), Elements(origin)) <==> NamesApart(model, outputs))
      ensures AllCanBeEmitted(model, outputs) ==> ok
      ensures ok && NamesApart(model, outputs) ==>
        AllCanBeEmitted(model, outputs) && Complete(model, emitted, origin)
    {
      hide Filled, Brings, Model.Good, Model.Graph, Spoiled, Names, NamesApart, Complete;
      ghost var e0, o0 := emitted, origin;
      for i := 0 to |outputs|
        invariant Onwards(model, e0, o0, emitted, origin)
        invariant forall k | 0 <= k < i :: model.OutputKnown(outputs[k].ty)
        invariant forall k | 0 <= k < i && model.OutputStruct(outputs[k].ty).Some? ::
          model.RustName(model.OutputStruct(outputs[k].ty).value) in Names(emitted)
        invariant BroughtByRoots(model, outputs, origin)
      {
        hide Slots, Onwards, BroughtBy, BroughtByRoots, Model.OutputStruct, Model.OutputKnown, Model.OutputText, Model.RustName;
        ghost var e1, o1 := emitted, origin;
        var written := MapOutput(outputs[i].ty, outputs[i].prefix);
        if written.Failure? {
          RunFails(model, outputs, i);
          return false;
        }
        OnwardsGoesOn(model, e0, o0, e1, o1, emitted, origin);
        RootsBring(model, outputs, i, o1, origin);
        OnwardsNames(model, e1, o1, emitted, origin);
      }
      RunSucceeds(model, outputs, emitted, origin);
      return true;
    }
  }

  /** A return type and the Pascal name of the namespace it is for. */
  datatype Output = Output(ty: TypeRef, prefix: string)

  ghost function Roots(m: Model, outputs: seq<Output>): set<string> {
    set i | 0 <= i < |outputs| && m.OutputStruct(outputs[i].ty).Some? :: m.OutputStruct(outputs[i].ty).value
  }

  ghost predicate AllCanBeEmitted(m: Model, outputs: seq<Output>) {
    && (forall i | 0 <= i < |outputs| :: m.OutputKnown(outputs[i].ty))
    && forall name | Reached(m.Graph(), Roots(m, outputs), name) :: m.Good(name)
  }

  /** No two types that the outputs reach are given one Rust name. */
  ghost predicate NamesApart(m: Model, outputs: seq<Output>) {
    forall a, b | Reached(m.Graph(), Roots(m, outputs), a) && Reached(m.Graph(), Roots(m, outputs), b)
      && m.RustName(a) == m.RustName(b) :: a == b
  }

  ghost predicate BroughtByRoots(m: Model, outputs: seq<Output>, origin: seq<string>) {
    forall i | 0 <= i < |origin| :: HasRoot(m, Roots(m, outputs), origin[i])
  }

  ghost predicate HasRoot(m: Model, roots: set<string>, name: string) {
    exists root :: root in roots && Brings(m, root, name)
  }

  lemma OnwardsNames(m: Model, e0: seq<FlatType>, o0: seq<string>, e: seq<FlatType>, o: seq<string>)
    requires Onwards(m, e0, o0, e, o)
    ensures Names(e0) <= Names(e)
  {
    NamesGrow(e0, e);
  }

  lemma RootsBring(m: Model, outputs: seq<Output>, k: nat, o0: seq<string>, o: seq<string>)
    requires k < |outputs| && o0 <= o
    requires BroughtByRoots(m, outputs, o0)
    requires match m.OutputStruct(outputs[k].ty)
      case Some(name) => BroughtBy(m, name, o, |o0|)
      case None => o == o0
    ensures BroughtByRoots(m, outputs, o)
  {
    hide Brings;
    forall i | 0 <= i < |o|
      ensures HasRoot(m, Roots(m, outputs), o[i])
    {
      if i < |o0| {
        assert o[i] == o0[i];
      } else {
        var root := m.OutputStruct(outputs[k].ty).value;
        assert root in Roots(m, outputs) && Brings(m, root, o[i]);
      }
    }
  }

  lemma BroughtIsReached(m: Model, roots: set<string>, root: string, name: string)
    requires root in roots && Brings(m, root, name)
    ensures Reached(m.Graph(), roots, name)
  {
    var reached := set n | n in m.Graph().Keys && Reached(m.Graph(), roots, n);
    ReachedIsClosed(m.Graph(), roots, reached);
    assert Closed(m.Graph(), {root}, reached);
  }

  lemma RunFails(m: Model, outputs: seq<Output>, k: nat)
    requires k < |outputs|
    requires !m.OutputKnown(outputs[k].ty)
          || (m.OutputStruct(outputs[k].ty).Some? && Spoiled(m, m.OutputStruct(outputs[k].ty).value))
    ensures !AllCanBeEmitted(m, outputs)
  {
    if m.OutputKnown(outputs[k].ty) {
      var root := m.OutputStruct(outputs[k].ty).value;
      OutputStructIsStruct(m, outputs[k].ty);
      var bad :| Brings(m, root, bad) && !m.Good(bad);
      BroughtIsReached(m, Roots(m, outputs), root, bad);
    }
  }

  lemma SlotIsReached(m: Model, outputs: seq<Output>, origin: seq<string>, i: nat)
    requires BroughtByRoots(m, outputs, origin) && i < |origin|
    ensures Reached(m.Graph(), Roots(m, outputs), origin[i])
  {
    assert HasRoot(m, Roots(m, outputs), origin[i]);
    var root :| root in Roots(m, outputs) && Brings(m, root, origin[i]);
    BroughtIsReached(m, Roots(m, outputs), root, origin[i]);
  }

  lemma SlotOf(m: Model, outputs: seq<Output>, emitted: seq<FlatType>, origin: seq<string>, name: string)
    requires Slots(m, emitted, origin) && BroughtByRoots(m, outputs, origin) && NamesApart(m, outputs)
    requires Reached(m.Graph(), Roots(m, outputs), name) && m.RustName(name) in Names(emitted)
    ensures name in Elements(origin)
  {
    hide BroughtByRoots, Roots, Reached, Model.Graph;
    var i :| 0 <= i < |emitted| && emitted[i].rustName == m.RustName(name);
    SlotIsReached(m, outputs, origin, i);
    assert origin[i] == name;
  }

  lemma SlotsAreClosed(m: Model, outputs: seq<Output>, emitted: seq<FlatType>, origin: seq<string>)
    requires Onwards(m, [], [], emitted, origin)
    requires BroughtByRoots(m, outputs, origin) && NamesApart(m, outputs)
    requires forall k | 0 <= k < |outputs| && m.OutputStruct(outputs[k].ty).Some? ::
      m.RustName(m.OutputStruct(outputs[k].ty).value) in Names(emitted)
    ensures Closed(m.Graph(), Roots(m, outputs), Elements(origin))
    ensures Elements(origin) <= m.Graph().Keys
  {
    hide Names, NamesApart, BroughtByRoots, Reached, Model.RustName, Model.Good;
    forall n | n in Roots(m, outputs) && n in m.Graph() ensures n in Elements(origin) {
      RootIsReached(m.Graph(), Roots(m, outputs), n);
      SlotOf(m, outputs, emitted, origin, n);
    }
    forall n, next | n in Elements(origin) && next in m.Graph()[n] && next in m.Graph()
      ensures next in Elements(origin)
    {
      var i :| 0 <= i < |origin| && origin[i] == n;
      SlotIsReached(m, outputs, origin, i);
      assert Filled(m, emitted, origin, i);
      NextIsReached(m.Graph(), Roots(m, outputs), n, next);
      SlotOf(m, outputs, emitted, origin, next);
    }
  }

  /** Slots have names of their own, so types that share one cannot both have a slot. */
  lemma SharedNamesLoseAType(m: Model, outputs: seq<Output>, emitted: seq<FlatType>, origin: seq<string>)
    requires Slots(m, emitted, origin) && Least(m.Graph(), Roots(m, outputs), Elements(origin))
    ensures NamesApart(m, outputs)
  {
    hide Reached, Roots, Model.Graph, Least;
    LeastIsReached(m.Graph(), Roots(m, outputs), Elements(origin));
    forall a, b | Reached(m.Graph(), Roots(m, outputs), a) && Reached(m.Graph(), Roots(m, outputs), b)
      && m.RustName(a) == m.RustName(b)
      ensures a == b
    {
      var i :| 0 <= i < |origin| && origin[i] == a;
      var j :| 0 <= j < |origin| && origin[j] == b;
      assert emitted[i].rustName == emitted[j].rustName;
    }
  }

  lemma HasRootIsInside(m: Model, roots: set<string>, name: string, names: set<string>)
    requires HasRoot(m, roots, name) && Closed(m.Graph(), roots, names)
    ensures name in names
  {
    var root :| root in roots && Brings(m, root, name);
    assert Closed(m.Graph(), {root}, names);
  }

  lemma SlotsAreLeast(m: Model, outputs: seq<Output>, origin: seq<string>)
    requires BroughtByRoots(m, outputs, origin)
    requires Closed(m.Graph(), Roots(m, outputs), Elements(origin))
    requires Elements(origin) <= m.Graph().Keys
    ensures Least(m.Graph(), Roots(m, outputs), Elements(origin))
  {
    hide HasRoot, Model.Graph, Roots, Closed;
    forall other: set<string>, n | Closed(m.Graph(), Roots(m, outputs), other) && n in Elements(origin)
      ensures n in other
    {
      var i :| 0 <= i < |origin| && origin[i] == n;
      HasRootIsInside(m, Roots(m, outputs), n, other);
    }
  }

  lemma ReachedAreGood(m: Model, outputs: seq<Output>, emitted: seq<FlatType>, origin: seq<string>)
    requires Onwards(m, [], [], emitted, origin)
    requires Least(m.Graph(), Roots(m, outputs), Elements(origin))
    ensures forall name | Reached(m.Graph(), Roots(m, outputs), name) :: m.Good(name)
  {
    hide Reached, Roots, Model.Good, Model.Graph, Least;
    LeastIsReached(m.Graph(), Roots(m, outputs), Elements(origin));
    forall name | Reached(m.Graph(), Roots(m, outputs), name) ensures m.Good(name) {
      assert name in Elements(origin);
      var i :| 0 <= i < |origin| && origin[i] == name;
      assert Filled(m, emitted, origin, i);
    }
  }

  lemma ClosedIsComplete(m: Model, roots: set<string>, emitted: seq<FlatType>, origin: seq<string>)
    requires Onwards(m, [], [], emitted, origin) && Closed(m.Graph(), roots, Elements(origin))
    ensures Complete(m, emitted, origin)
  {
    hide Filled;
  }

  lemma RunSucceeds(m: Model, outputs: seq<Output>, emitted: seq<FlatType>, origin: seq<string>)
    requires Onwards(m, [], [], emitted, origin) && BroughtByRoots(m, outputs, origin)
    requires forall k | 0 <= k < |outputs| :: m.OutputKnown(outputs[k].ty)
    requires forall k | 0 <= k < |outputs| && m.OutputStruct(outputs[k].ty).Some? ::
      m.RustName(m.OutputStruct(outputs[k].ty).value) in Names(emitted)
    ensures Least(m.Graph(), Roots(m, outputs), Elements(origin)) <==> NamesApart(m, outputs)
    ensures NamesApart(m, outputs) ==> AllCanBeEmitted(m, outputs) && Complete(m, emitted, origin)
  {
    assert Slots(m, emitted, origin);
    hide Roots, Least, Closed, BroughtByRoots, Onwards, Reached, NamesApart, Complete, Model.Good, Model.Graph;
    if Least(m.Graph(), Roots(m, outputs), Elements(origin)) {
      SharedNamesLoseAType(m, outputs, emitted, origin);
    }
    if NamesApart(m, outputs) {
      SlotsAreClosed(m, outputs, emitted, origin);
      ClosedIsComplete(m, Roots(m, outputs), emitted, origin);
      SlotsAreLeast(m, outputs, origin);
      ReachedAreGood(m, outputs, emitted, origin);
    }
  }

  // ---- What a namespace re-exports ---------------------------------------

  function TrimVec(ty: string): string {
    if "Vec<" <= ty then TrimVec(ty[4..]) else ty
  }

  function TrimClose(ty: string): string {
    if ty != [] && ty[|ty| - 1] == '>' then TrimClose(ty[..|ty| - 1]) else ty
  }

  /** The innermost type of a field, read off its spelling. */
  function Inner(ty: string): string {
    TrimClose(TrimVec(ty))
  }

  function Inners(fields: seq<FlatField>): (r: seq<string>)
    ensures |r| == |fields| && forall i | 0 <= i < |r| :: r[i] == Inner(fields[i].ty)
  {
    seq(|fields|, i requires 0 <= i < |fields| => Inner(fields[i].ty))
  }

  function FindType(emitted: seq<FlatType>, name: string): (r: Option<FlatType>)
    ensures r.Some? <==> name in Names(emitted)
    ensures r.Some? ==> r.value in emitted && r.value.rustName == name
  {
    if emitted == [] then None
    else
      var rest := emitted[1..];
      assert forall i | 0 < i < |emitted| :: emitted[i] == rest[i - 1];
      assert forall i | 0 <= i < |rest| :: rest[i] == emitted[i + 1];
      if emitted[0].rustName == name then Some(emitted[0]) else FindType(rest, name)
  }

  /** The emitted types, each with the types its fields are spelled with. */
  function EmittedGraph(emitted: seq<FlatType>): Index {
    map name | name in Names(emitted) :: Inners(FindType(emitted, name).value.fields)
  }

  predicate Distinct(s: seq<string>) {
    forall i, j | 0 <= i < j < |s| :: s[i] != s[j]
  }

  /** The inner loop: each field's type that is emitted, new and not an export goes to
      the back of both lists. */
  method PushInners(emitted: seq<FlatType>, exports: seq<string>, fields: seq<FlatField>,
                    out: seq<string>, queue: seq<string>)
    returns (ghost added: seq<string>, out': seq<string>, queue': seq<string>)
    requires Distinct(out) && Elements(out) !! Elements(exports) && Elements(out) <= Names(emitted)
    ensures out' == out + added && queue' == queue + added
    ensures Distinct(out') && Elements(out') !! Elements(exports) && Elements(out') <= Names(emitted)
    ensures forall n | n in added :: n in Inners(fields)
    ensures forall n | n in Inners(fields) && n in Names(emitted) :: n in out' || n in exports
  {
    hide Names, Inner;
    out', queue', added := out, queue, [];
    for i := 0 to |fields|
      invariant out' == out + added && queue' == queue + added
      invariant Distinct(out') && Elements(out') !! Elements(exports) && Elements(out') <= Names(emitted)
      invariant forall n | n in added :: n in Inners(fields)
      invariant forall k | 0 <= k < i && Inners(fields)[k] in Names(emitted) ::
        Inners(fields)[k] in out' || Inners(fields)[k] in exports
    {
      var inner := Inner(fields[i].ty);
      assert inner == Inners(fields)[i];
      if inner in Names(emitted) && inner !in out' && inner !in exports {
        out', queue', added := out' + [inner], queue' + [inner], added + [inner];
      }
    }
  }

  /** How `reachable_from` stands between two turns of its loop. */
  ghost predicate Searching(emitted: seq<FlatType>, exports: seq<string>, out: seq<string>, queue: seq<string>) {
    && Distinct(out) && Elements(out) !! Elements(exports) && Elements(out) <= Names(emitted)
    && (forall n | n in queue :: n in out || n in exports)
    && Explored(EmittedGraph(emitted), exports, out, queue)
    && Entailed(EmittedGraph(emitted), exports, out)
  }

  /** One turn: pop a name and push what its fields lead to. */
  method SearchOne(emitted: seq<FlatType>, exports: seq<string>, out: seq<string>, queue: seq<string>)
    returns (out': seq<string>, queue': seq<string>)
    requires queue != [] && Searching(emitted, exports, out, queue)
    ensures Searching(emitted, exports, out', queue')
    ensures |Names(emitted) - Elements(out')| <= |Names(emitted) - Elements(out)|
    ensures |Names(emitted) - Elements(out')| < |Names(emitted) - Elements(out)| || |queue'| < |queue|
  {
    hide Names, Inner, Distinct, Explored, Entailed, Elements, EmittedGraph;
    ghost var graph := EmittedGraph(emitted);
    GraphOfEmitted(emitted);
    var name := queue[|queue| - 1];
    ghost var added: seq<string> := [];
    out', queue' := out, queue[..|queue| - 1];
    ghost var rest := queue';
    assert queue == rest + [name];
    var def := FindType(emitted, name);
    if def.Some? {
      added, out', queue' := PushInners(emitted, exports, def.value.fields, out', queue');
      AddedAreFound(graph, name, added, out, Names(emitted));
      EntailedGrows(graph, exports, out, name, added);
    } else {
      assert out + [] == out && rest + [] == rest;
    }
    Popped(graph, exports, out, rest, name, added);
    MoreFound(Names(emitted), out, added);
  }

  /** `reachable_from`: the emitted types that the exports lead to and that are not
      exports themselves, each once. */
  method ReachableFrom(emitted: seq<FlatType>, exports: seq<string>) returns (out: seq<string>)
    ensures Distinct(out) && Elements(out) !! Elements(exports)
    ensures Least(EmittedGraph(emitted), Elements(exports),
                  Elements(out) + Elements(exports) * Names(emitted))
  {
    hide Names, Distinct, Explored, Entailed, Elements, EmittedGraph, Least;
    GraphOfEmitted(emitted);
    NothingYet(EmittedGraph(emitted), exports);
    out := [];
    var queue := exports;
    while queue != []
      invariant Searching(emitted, exports, out, queue)
      decreases |Names(emitted) - Elements(out)|, |queue|
    {
      out, queue := SearchOne(emitted, exports, out, queue);
    }
    NothingLeft(EmittedGraph(emitted), exports, out);
  }

  lemma GraphOfEmitted(emitted: seq<FlatType>)
    ensures EmittedGraph(emitted).Keys == Names(emitted)
    ensures forall name | name in Names(emitted) ::
      EmittedGraph(emitted)[name] == Inners(FindType(emitted, name).value.fields)
  {
  }

  lemma NothingYet(graph: Index, exports: seq<string>)
    ensures Distinct([]) && Elements([]) == {}
    ensures Explored(graph, exports, [], exports) && Entailed(graph, exports, [])
  {
  }

  lemma AddedAreFound(graph: Index, name: string, added: seq<string>, out: seq<string>, names: set<string>)
    requires Elements(out + added) <= names && name in graph
    requires forall n | n in added :: n in graph[name]
    ensures forall n | n in added :: n in names
  {
    assert forall n | n in added :: n in Elements(out + added);
  }

  /** Every name found and not waiting has had its own names looked at. */
  ghost predicate Explored(graph: Index, exports: seq<string>, out: seq<string>, queue: seq<string>) {
    forall n | (n in out || n in exports) && n in graph && n !in queue ::
      forall m | m in graph[n] && m in graph :: m in out || m in exports
  }

  /** What was found is in every closed set. */
  ghost predicate Entailed(graph: Index, exports: seq<string>, out: seq<string>) {
    forall other: set<string> | Closed(graph, Elements(exports), other) :: Elements(out) <= other
  }

  lemma Popped(graph: Index, exports: seq<string>, out: seq<string>, queue: seq<string>,
               name: string, added: seq<string>)
    requires Explored(graph, exports, out, queue + [name])
    requires name in graph ==>
      forall m | m in graph[name] && m in graph :: m in out + added || m in exports
    ensures Explored(graph, exports, out + added, queue + added)
  {
  }

  lemma EntailedGrows(graph: Index, exports: seq<string>, out: seq<string>, name: string, added: seq<string>)
    requires Entailed(graph, exports, out)
    requires name in graph && (name in out || name in exports)
    requires forall n | n in added :: n in graph[name] && n in graph
    ensures Entailed(graph, exports, out + added)
  {
    forall other: set<string> | Closed(graph, Elements(exports), other)
      ensures Elements(out + added) <= other
    {
      assert name in other by {
        if name in out { assert name in Elements(out); }
      }
    }
  }

  lemma MoreFound(names: set<string>, out: seq<string>, added: seq<string>)
    requires Distinct(out + added) && Elements(out + added) <= names
    ensures |names - Elements(out + added)| <= |names - Elements(out)|
    ensures added != [] ==> |names - Elements(out + added)| < |names - Elements(out)|
  {
    if added == [] {
      assert out + added == out;
    } else {
      var n := added[0];
      assert (out + added)[|out|] == n;
      assert forall i | 0 <= i < |out| :: (out + added)[i] == out[i] != n;
      assert n in Elements(out + added);
      Subset(names - Elements(out + added), (names - Elements(out)) - {n});
    }
  }

  lemma NothingLeft(graph: Index, exports: seq<string>, out: seq<string>)
    requires Explored(graph, exports, out, []) && Entailed(graph, exports, out)
    requires Elements(out) <= graph.Keys
    ensures Least(graph, Elements(exports), Elements(out) + Elements(exports) * graph.Keys)
  {
    var all := Elements(out) + Elements(exports) * graph.Keys;
    assert Closed(graph, Elements(exports), all);
  }

  // ---- A field's spelling leads back to its struct -------------------------

  lemma {:induction false} TrimKeeps(name: string, closes: nat)
    requires name != [] && name[|name| - 1] != '>'
    ensures TrimClose(name + seq(closes, _ => '>')) == name
  {
    var s := name + seq(closes, _ => '>');
    if closes == 0 {
      assert s == name;
    } else {
      TrimKeeps(name, closes - 1);
      assert s[..|s| - 1] == name + seq(closes - 1, _ => '>');
    }
  }

  /** A name that `reachable_from` reads as it is. */
  predicate Unbracketed(name: string) {
    name != [] && name[|name| - 1] != '>' && !("Vec<" <= name)
  }

  /** What a field's spelling wraps. */
  function Core(m: Model, ty: TypeRef): string
    requires m.FieldText(ty).Some?
    decreases Depth(ty)
  {
    if ty.ty == "vector" then Core(m, TypeRef(ty.element, "")) else m.FieldText(ty).value
  }

  /** The spellings of the primitives, and of an enum. */
  const SPELLINGS := {"bool", "String", "i8", "i16", "i32", "i64", "u8", "u16", "u32", "u64", "f32", "f64"}

  lemma {:induction false} CoreIs(m: Model, ty: TypeRef)
    requires m.FieldText(ty).Some?
    ensures match m.FieldStruct(ty)
      case Some(name) => Core(m, ty) == m.RustName(name)
      case None => Core(m, ty) in SPELLINGS && Unbracketed(Core(m, ty))
    decreases Depth(ty)
  {
    if ty.ty == "vector" {
      CoreIs(m, TypeRef(ty.element, ""));
    } else if m.FieldStruct(ty).None? {
      SpellingIsUnbracketed(m.FieldText(ty).value);
    }
  }

  lemma SpellingIsUnbracketed(spelling: string)
    requires spelling in SPELLINGS
    ensures Unbracketed(spelling)
  {
    assert spelling[0] != "Vec<"[0];
  }

  /** A field that names no struct is read as a primitive. */
  lemma InnerIsASpelling(m: Model, ty: TypeRef)
    requires m.FieldText(ty).Some? && m.FieldStruct(ty).None?
    ensures Inner(m.FieldText(ty).value) in SPELLINGS
  {
    CoreIs(m, ty);
    InnerIsTheCore(m, ty);
  }

  // The spelling is its core between as many openings as closings.
  lemma {:induction false} SpelledAround(m: Model, ty: TypeRef) returns (closes: nat)
    requires m.FieldText(ty).Some? && Unbracketed(Core(m, ty))
    ensures TrimVec(m.FieldText(ty).value) == Core(m, ty) + seq(closes, _ => '>')
    decreases Depth(ty)
  {
    var flat := Core(m, ty);
    if ty.ty == "vector" {
      closes := SpelledAround(m, TypeRef(ty.element, ""));
      var inner := m.FieldText(TypeRef(ty.element, "")).value;
      var text := m.FieldText(ty).value;
      assert text == "Vec<" + (inner + ">");
      assert text[4..] == inner + ">";
      NoOpening(flat, closes + 1);
      assert flat + seq(closes, _ => '>') + ">" == flat + seq(closes + 1, _ => '>');
      TrimVecOfClosed(inner);
      closes := closes + 1;
    } else {
      closes := 0;
      assert flat + seq(0, _ => '>') == flat;
    }
  }

  lemma NoOpening(name: string, closes: nat)
    requires !("Vec<" <= name)
    ensures !("Vec<" <= name + seq(closes, _ => '>'))
  {
    var s := name + seq(closes, _ => '>');
    assert |name| >= 4 ==> s[..4] == name[..4];
    assert |name| < 4 && |s| >= 4 ==> s[3] == '>';
  }

  lemma {:induction false} TrimVecOfClosed(s: string)
    requires !("Vec<" <= TrimVec(s) + ">")
    ensures TrimVec(s + ">") == TrimVec(s) + ">"
  {
    if "Vec<" <= s {
      assert (s + ">")[4..] == s[4..] + ">";
      TrimVecOfClosed(s[4..]);
    }
  }

  lemma InnerIsTheCore(m: Model, ty: TypeRef)
    requires m.FieldText(ty).Some? && Unbracketed(Core(m, ty))
    ensures Inner(m.FieldText(ty).value) == Core(m, ty)
  {
    var closes := SpelledAround(m, ty);
    TrimKeeps(Core(m, ty), closes);
  }

  /** The edge `reachable_from` reads off a field is the struct the field names, when
      that struct's Rust name is not itself wrapped in angle brackets. */
  lemma InnerIsTheStruct(m: Model, ty: TypeRef)
    requires m.FieldStruct(ty).Some? && Unbracketed(m.RustName(m.FieldStruct(ty).value))
    ensures m.FieldText(ty).Some?
    ensures Inner(m.FieldText(ty).value) == m.RustName(m.FieldStruct(ty).value)
  {
    FieldStructIsStruct(m, ty);
    CoreIs(m, ty);
    InnerIsTheCore(m, ty);
  }

  // ---- What a namespace re-exports is what its exports reach ---------------

  /** No emitted struct has a name that reads as a primitive or as a wrapped type. */
  ghost predicate PlainNames(m: Model, origin: seq<string>) {
    forall i | 0 <= i < |origin| ::
      Unbracketed(m.RustName(origin[i])) && m.RustName(origin[i]) !in SPELLINGS
  }

  /** The types that some slots were reserved for. */
  ghost function TypesOf(emitted: seq<FlatType>, origin: seq<string>, names: set<string>): set<string>
    requires |emitted| == |origin|
  {
    set i | 0 <= i < |emitted| && emitted[i].rustName in names :: origin[i]
  }

  lemma SlotIsFound(m: Model, emitted: seq<FlatType>, origin: seq<string>, i: nat)
    requires Slots(m, emitted, origin) && i < |emitted|
    ensures emitted[i].rustName in Names(emitted)
    ensures EmittedGraph(emitted)[emitted[i].rustName] == Inners(emitted[i].fields)
  {
    var name := emitted[i].rustName;
    var found := FindType(emitted, name).value;
    var k :| 0 <= k < |emitted| && emitted[k] == found;
    assert k == i;
  }

  // A reference of the type graph is an edge of the emitted one, and the reverse.
  lemma EdgeDown(m: Model, emitted: seq<FlatType>, origin: seq<string>, i: nat, next: string) returns (k: nat)
    requires Complete(m, emitted, origin) && PlainNames(m, origin)
    requires i < |emitted| && next in m.Graph()[origin[i]]
    ensures k < |emitted| && origin[k] == next
    ensures emitted[k].rustName in EmittedGraph(emitted)[emitted[i].rustName]
  {
    hide Inner, SPELLINGS, EmittedGraph, Model.FieldText, Model.FieldStruct;
    var kept := m.Kept(origin[i]).value;
    assert Filled(m, emitted, origin, i);
    RefsAreDescribed(m, origin[i], next);
    assert next in Elements(origin);
    k :| 0 <= k < |origin| && origin[k] == next;
    StructsOfHas(m, kept, next);
    var j :| 0 <= j < |kept| && m.FieldStruct(kept[j].ty) == Some(next);
    InnerIsTheStruct(m, kept[j].ty);
    SlotIsFound(m, emitted, origin, i);
    assert emitted[i].fields[j] == m.FlatFieldOf(kept[j]);
    assert Inners(emitted[i].fields)[j] == emitted[k].rustName;
  }

  lemma EdgeUp(m: Model, emitted: seq<FlatType>, origin: seq<string>, i: nat, k: nat)
    requires Complete(m, emitted, origin) && PlainNames(m, origin)
    requires i < |emitted| && k < |emitted|
    requires emitted[k].rustName in EmittedGraph(emitted)[emitted[i].rustName]
    ensures origin[k] in m.Graph()[origin[i]]
  {
    hide Inner, EmittedGraph, SPELLINGS, Unbracketed, Model.FieldText, Model.FieldStruct;
    SlotIsFound(m, emitted, origin, i);
    PlainSlot(m, emitted, origin, i);
    PlainSlot(m, emitted, origin, k);
    hide Filled, Slots, Complete, PlainNames, Model.Good, Model.FieldsOf, Model.Graph, Inners, Names;
    var j := EdgeField(m, origin[i], emitted[i].fields, emitted[k].rustName);
    var ty := m.Kept(origin[i]).value[j].ty;
    var l := EdgeDown(m, emitted, origin, i, m.FieldStruct(ty).value);
    PlainSlot(m, emitted, origin, l);
    InnerIsTheStruct(m, ty);
    OneSlotPerName(m, emitted, origin, k, l);
  }

  lemma PlainSlot(m: Model, emitted: seq<FlatType>, origin: seq<string>, i: nat)
    requires Complete(m, emitted, origin) && PlainNames(m, origin) && i < |emitted|
    ensures emitted[i].rustName == m.RustName(origin[i])
    ensures Unbracketed(emitted[i].rustName) && emitted[i].rustName !in SPELLINGS
    ensures m.Good(origin[i]) && emitted[i].fields == m.FieldsOf(origin[i])
  {
    assert Filled(m, emitted, origin, i);
  }

  lemma OneSlotPerName(m: Model, emitted: seq<FlatType>, origin: seq<string>, k: nat, l: nat)
    requires Complete(m, emitted, origin) && k < |emitted| && l < |emitted|
    requires emitted[k].rustName == emitted[l].rustName
    ensures k == l
  {
  }

  // The field an edge comes from, which names a struct.
  lemma EdgeField(m: Model, name: string, fields: seq<FlatField>, inner: string) returns (j: nat)
    requires m.Good(name) && fields == m.FieldsOf(name)
    requires inner in Inners(fields) && inner !in SPELLINGS
    ensures j < |m.Kept(name).value|
    ensures var ty := m.Kept(name).value[j].ty;
      && m.FieldText(ty).Some? && Inner(m.FieldText(ty).value) == inner
      && m.FieldStruct(ty).Some? && m.FieldStruct(ty).value in m.Graph()[name]
  {
    hide Inner, SPELLINGS, Model.FieldText, Model.FieldStruct;
    var kept := m.Kept(name).value;
    j :| 0 <= j < |kept| && Inners(fields)[j] == inner;
    assert fields[j] == m.FlatFieldOf(kept[j]);
    if m.FieldStruct(kept[j].ty).None? {
      InnerIsASpelling(m, kept[j].ty);
    } else {
      StructsOfHas(m, kept, m.FieldStruct(kept[j].ty).value);
    }
  }

  /** What `reachable_from` finds, together with the exports, is closed in the type graph. */
  lemma FoundIsClosed(m: Model, emitted: seq<FlatType>, origin: seq<string>, exports: set<string>, found: set<string>)
    requires Complete(m, emitted, origin) && PlainNames(m, origin)
    requires Closed(EmittedGraph(emitted), exports, found)
    ensures Closed(m.Graph(), TypesOf(emitted, origin, exports), TypesOf(emitted, origin, found))
  {
    hide Filled, Model.Graph, EmittedGraph;
    GraphOfEmitted(emitted);
    var types := TypesOf(emitted, origin, found);
    forall i | 0 <= i < |emitted| ensures emitted[i].rustName in Names(emitted) {
      SlotIsFound(m, emitted, origin, i);
    }
    forall n, next | n in types && n in m.Graph() && next in m.Graph()[n] && next in m.Graph()
      ensures next in types
    {
      var i :| 0 <= i < |emitted| && emitted[i].rustName in found && origin[i] == n;
      var k := EdgeDown(m, emitted, origin, i, next);
    }
  }

  /** And what the exports reach in the type graph is closed in the emitted one. */
  lemma ReachedIsClosedBelow(m: Model, emitted: seq<FlatType>, origin: seq<string>, exports: set<string>,
                             names: set<string>)
    requires Complete(m, emitted, origin) && PlainNames(m, origin)
    requires forall n :: n in names <==> IsReachedSlot(m, emitted, origin, exports, n)
    ensures Closed(EmittedGraph(emitted), exports, names)
  {
    hide Filled, Model.Graph, EmittedGraph, Reached;
    GraphOfEmitted(emitted);
    forall n | n in exports && n in EmittedGraph(emitted) ensures n in names {
      var i :| 0 <= i < |emitted| && emitted[i].rustName == n;
      GraphHasTypes(m);
      RootIsReached(m.Graph(), TypesOf(emitted, origin, exports), origin[i]);
      assert IsReachedSlot(m, emitted, origin, exports, n);
    }
    forall n, next | n in names && n in EmittedGraph(emitted)
      && next in EmittedGraph(emitted)[n] && next in EmittedGraph(emitted)
      ensures next in names
    {
      var i :| 0 <= i < |emitted| && emitted[i].rustName == n
        && Reached(m.Graph(), TypesOf(emitted, origin, exports), origin[i]);
      var k :| 0 <= k < |emitted| && emitted[k].rustName == next;
      EdgeUp(m, emitted, origin, i, k);
      GraphHasTypes(m);
      NextIsReached(m.Graph(), TypesOf(emitted, origin, exports), origin[i], origin[k]);
      assert IsReachedSlot(m, emitted, origin, exports, next);
    }
  }

  lemma RefsAreDescribed(m: Model, name: string, next: string)
    requires name in m.types && next in m.Graph()[name]
    ensures next in m.types
  {
    if m.Kept(name).Some? {
      var kept := m.Kept(name).value;
      StructsOfHas(m, kept, next);
      var i :| 0 <= i < |kept| && m.FieldStruct(kept[i].ty) == Some(next);
      FieldStructIsStruct(m, kept[i].ty);
    }
  }

  lemma GraphHasTypes(m: Model)
    ensures m.Graph().Keys == m.types.Keys
  {
  }

  ghost predicate IsReachedSlot(m: Model, emitted: seq<FlatType>, origin: seq<string>, exports: set<string>, name: string)
    requires |emitted| == |origin|
  {
    exists i :: 0 <= i < |emitted| && emitted[i].rustName == name
      && Reached(m.Graph(), TypesOf(emitted, origin, exports), origin[i])
  }

  /** What a namespace re-exports on top of its exports: exactly the slots whose types the
      exported types reach in the schema's own type graph. */
  lemma ReexportsAreReached(m: Model, emitted: seq<FlatType>, origin: seq<string>, exports: seq<string>, out: seq<string>)
    requires Complete(m, emitted, origin) && PlainNames(m, origin)
    requires Elements(out) !! Elements(exports)
    requires Least(EmittedGraph(emitted), Elements(exports), Elements(out) + Elements(exports) * Names(emitted))
    ensures Elements(out) <= Names(emitted)
    ensures forall i | 0 <= i < |emitted| ::
      emitted[i].rustName in out <==>
        emitted[i].rustName !in exports
        && Reached(m.Graph(), TypesOf(emitted, origin, Elements(exports)), origin[i])
  {
    hide Filled, Model.Graph, EmittedGraph, Reached, IsReachedSlot, Closed, PlainNames, Names;
    GraphOfEmitted(emitted);
    var roots, found := Elements(exports), Elements(out) + Elements(exports) * Names(emitted);
    var reached := set n | n in Names(emitted) && IsReachedSlot(m, emitted, origin, roots, n);
    SlotsHaveNames(m, emitted, origin, roots);
    ReachedIsClosedBelow(m, emitted, origin, roots, reached);
    FoundIsClosed(m, emitted, origin, roots, found);
    forall i | 0 <= i < |emitted|
      ensures emitted[i].rustName in found <==> Reached(m.Graph(), TypesOf(emitted, origin, roots), origin[i])
    {
      if Reached(m.Graph(), TypesOf(emitted, origin, roots), origin[i]) {
        ReachedIsInside(m.Graph(), TypesOf(emitted, origin, roots), TypesOf(emitted, origin, found), origin[i]);
        var k :| 0 <= k < |emitted| && emitted[k].rustName in found && origin[k] == origin[i];
      }
      if emitted[i].rustName in found {
        assert emitted[i].rustName in reached;
        SlotOfReached(m, emitted, origin, roots, i);
      }
    }
  }

  lemma SlotsHaveNames(m: Model, emitted: seq<FlatType>, origin: seq<string>, exports: set<string>)
    requires |emitted| == |origin|
    ensures forall n :: IsReachedSlot(m, emitted, origin, exports, n) ==> n in Names(emitted)
    ensures forall i | 0 <= i < |emitted| :: emitted[i].rustName in Names(emitted)
  {
    hide Reached;
  }

  lemma SlotOfReached(m: Model, emitted: seq<FlatType>, origin: seq<string>, exports: set<string>, i: nat)
    requires Slots(m, emitted, origin) && i < |emitted|
    requires IsReachedSlot(m, emitted, origin, exports, emitted[i].rustName)
    ensures Reached(m.Graph(), TypesOf(emitted, origin, exports), origin[i])
  {
    hide Reached;
    var k :| 0 <= k < |emitted| && emitted[k].rustName == emitted[i].rustName
      && Reached(m.Graph(), TypesOf(emitted, origin, exports), origin[k]);
    assert k == i;
  }

  lemma ReachedIsInside(index: Index, roots: set<string>, names: set<string>, name: string)
    requires Closed(index, roots, names) && Reached(index, roots, name)
    ensures name in names
  {
    var path :| IsPath(index, path) && path[0] in roots && path[|path| - 1] == name;
    PathStaysInside(index, roots, names, path);
  }
}
