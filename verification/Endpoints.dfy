/** The generator's route tables: one entry per resource and version of a namespace,
    shared by the endpoints that serve it, and paths that every endpoint can bind.
 */
module Endpoints {
  import opened Client
  import opened Text
  import FunctionName
  import Surface
  import opened Route

  datatype Error =
    | NotInSnapshot
    | NotRest
    | WrongNamespace
    | DocsDiffer
    | SpansVersions
    | UnusedTimeout
    | UndeclaredTimeout

  datatype Result<+T> = Success(value: T) | Failure(error: Error)

  /** An endpoint as the overrides list it. */
  datatype Wanted = Wanted(
    functionName: string, resource: Option<string>, name: Option<string>,
    routeDoc: string, timeout: Option<string>)

  /** What the function's name and arguments make of it. */
  datatype Shape = Shape(name: string, version: nat, resource: string, params: seq<string>)

  datatype RouteDecl = RouteDecl(constName: string, version: nat, resource: string, doc: string)

  datatype Endpoint = Endpoint(name: string, routeConst: string, params: seq<string>, timeout: Option<string>)

  datatype Namespace = Namespace(routes: seq<RouteDecl>, endpoints: seq<Endpoint>, version: nat)

  // ---- One endpoint ------------------------------------------------------

  function PieceOf(segment: Surface.Segment): Piece {
    match segment
    case Literal(text) => Literal(text)
    case Param(arg) => Hole(Surface.PlaceholderName(arg))
  }

  function Pieces(segments: seq<Surface.Segment>): (r: seq<Piece>)
    ensures |r| == |segments| && forall i | 0 <= i < |r| :: r[i] == PieceOf(segments[i])
  {
    seq(|segments|, i requires 0 <= i < |segments| => PieceOf(segments[i]))
  }

  /** `resource`: the segments, a parameter in braces, with slashes between. */
  function Resource(segments: seq<Surface.Segment>): string {
    Join(Texts(Pieces(segments)))
  }

  function PathParams(segments: seq<Surface.Segment>): seq<string> {
    if segments == [] then []
    else
      (match segments[0] case Param(arg) => [Surface.PlaceholderName(arg)] case Literal(_) => [])
      + PathParams(segments[1..])
  }

  function ShapeOf(functions: map<string, seq<string>>, id: string, wanted: Wanted): Result<Shape> {
    if wanted.functionName !in functions then Failure(NotInSnapshot)
    else
      match FunctionName.Parse(wanted.functionName)
      case None => Failure(NotRest)
      case Some(parsed) =>
        if Surface.Kebabbed(parsed.namespace) != id then Failure(WrongNamespace)
        else
          var segments := Surface.Derived(parsed.rest, functions[wanted.functionName]);
          var resource :=
            match wanted.resource case Some(spelled) => spelled case None => Resource(segments);
          var name := match wanted.name case Some(name) => name case None => parsed.rest;
          Success(Shape(name, parsed.version, resource, PathParams(segments)))
  }

  /** What a name that spells the record `p` makes of an endpoint: the record's version; the
      record's rest, and the path that derives from it, unless they are overridden. */
  predicate IsShapeOf(shape: Shape, wanted: Wanted, p: FunctionName.Parsed, args: seq<string>) {
    var segments := Surface.Derived(p.rest, args);
    && shape.version == p.version
    && shape.name == (if wanted.name.Some? then wanted.name.value else p.rest)
    && shape.resource == (if wanted.resource.Some? then wanted.resource.value else Resource(segments))
    && shape.params == PathParams(segments)
  }

  /** The name spells the record, its version in any number of digits. */
  ghost predicate SpellsRecord(name: string, p: FunctionName.Parsed) {
    FunctionName.Canonical(p)
    && exists digits :: digits != [] && AllDigits(digits) && Number(digits) == p.version
         && name == FunctionName.PrintVersion(p, digits)
  }

  /** An endpoint has a shape if and only if its function is in the snapshot and spells a record
      of this namespace; it is then that of the record. */
  lemma ShapesAreOfRecords(functions: map<string, seq<string>>, id: string, wanted: Wanted)
    ensures ShapeOf(functions, id, wanted).Success? <==>
      wanted.functionName in functions
      && exists p :: SpellsRecord(wanted.functionName, p) && Surface.Kebabbed(p.namespace) == id
    ensures forall p | SpellsRecord(wanted.functionName, p) && ShapeOf(functions, id, wanted).Success? ::
      Surface.Kebabbed(p.namespace) == id
      && IsShapeOf(ShapeOf(functions, id, wanted).value, wanted, p, functions[wanted.functionName])
  {
    hide FunctionName.Parse, Surface.Derived, Surface.Kebabbed, Resource, PathParams;
    var name := wanted.functionName;
    forall p | SpellsRecord(name, p) ensures FunctionName.Parse(name) == Some(p) {
      var digits :| digits != [] && AllDigits(digits) && Number(digits) == p.version
        && name == FunctionName.PrintVersion(p, digits);
      FunctionName.AnyDigitsParse(p, digits);
    }
    if FunctionName.Parse(name).Some? {
      ParsedSpells(name);
    }
  }

  lemma ParsedSpells(name: string)
    requires FunctionName.Parse(name).Some?
    ensures SpellsRecord(name, FunctionName.Parse(name).value)
  {
    hide FunctionName.Parse, FunctionName.PrintVersion;
    var zeros := FunctionName.ParseThenPrint(name);
    var p := FunctionName.Parse(name).value;
    NumberOfPadded(zeros, p.version);
    assert Zeros(zeros) + Decimal(p.version) != [];
  }

  function Upper(s: string): string {
    if s == [] then [] else [UpperChar(s[0])] + Upper(s[1..])
  }

  function ConstName(name: string): string {
    Upper(Surface.Snaked(name))
  }

  lemma {:induction false} UpperIs(s: string)
    ensures |Upper(s)| == |s| && forall i | 0 <= i < |s| :: Upper(s)[i] == UpperChar(s[i])
  {
    if s != [] { UpperIs(s[1..]); }
  }

  lemma {:induction false} SplitOfUpper(s: string)
    ensures Split(Upper(s), {'_'}) == Surface.Each(Split(s, {'_'}), Upper)
  {
    UpperOfNothing();
    if s == [] {
      assert Surface.Each([""], Upper) == [""];
    } else {
      hide Upper, Split;
      var c, rest := s[0], Split(s[1..], {'_'});
      SplitOfUpper(s[1..]);
      SplitOfCons(c, s[1..], {'_'});
      SplitOfCons(UpperChar(c), Upper(s[1..]), {'_'});
      UpperOfCons(c, s[1..]);
      assert s == [c] + s[1..];
      if c == '_' {
        EachOfCons("", rest);
      } else {
        UpperOfCons(c, rest[0]);
        EachOfCons([c] + rest[0], rest[1..]);
        assert Surface.Each(rest, Upper)[1..] == Surface.Each(rest[1..], Upper);
      }
    }
  }

  lemma EachOfCons(word: string, rest: seq<string>)
    ensures Surface.Each([word] + rest, Upper) == [Upper(word)] + Surface.Each(rest, Upper)
  {
  }

  lemma UpperOfNothing()
    ensures Upper("") == ""
  {
  }

  lemma UpperOfCons(c: char, s: string)
    ensures Upper([c] + s) == [UpperChar(c)] + Upper(s)
    ensures UpperChar(c) == '_' <==> c == '_'
    ensures ([UpperChar(c)] + Upper(s))[1..] == Upper(s)
  {
    assert ([c] + s)[1..] == s;
  }

  /** A constant parts at its underscores into the words of the name, in capitals, and has no
      lower-case letter. */
  lemma ConstNameIsTheWords(name: string)
    requires name != [] && Free(name, '_')
    ensures Split(ConstName(name), {'_'}) == Surface.Each(Surface.Words(name), Upper)
    ensures forall i | 0 <= i < |ConstName(name)| :: !IsLower(ConstName(name)[i])
  {
    hide Split, Surface.Snaked, Surface.Words, Upper;
    Surface.SnakeIsTheWords(name);
    SplitOfUpper(Surface.Snaked(name));
    UpperIs(Surface.Snaked(name));
    forall i | 0 <= i < |Surface.Words(name)|
      ensures Upper(Surface.Lower(Surface.Words(name)[i])) == Upper(Surface.Words(name)[i])
    {
      var word := Surface.Words(name)[i];
      UpperIs(word);
      UpperIs(Surface.Lower(word));
    }
    assert Surface.Each(Surface.Each(Surface.Words(name), Surface.Lower), Upper) == Surface.Each(Surface.Words(name), Upper);
  }

  // ---- One namespace -----------------------------------------------------

  function FindRoute(routes: seq<RouteDecl>, version: nat, resource: string): (r: Option<RouteDecl>)
    ensures r.Some? ==> r.value in routes && r.value.version == version && r.value.resource == resource
    ensures r.None? ==> forall i | 0 <= i < |routes| :: routes[i].version != version || routes[i].resource != resource
  {
    if routes == [] then None
    else if routes[0].resource == resource && routes[0].version == version then Some(routes[0])
    else
      assert routes == [routes[0]] + routes[1..];
      FindRoute(routes[1..], version, resource)
  }

  predicate SameRoute(a: Shape, b: Shape) {
    a.version == b.version && a.resource == b.resource
  }

  predicate Names(route: RouteDecl, shape: Shape) {
    route.version == shape.version && route.resource == shape.resource
  }

  /** No two entries for one resource and version. */
  predicate Unique(routes: seq<RouteDecl>) {
    forall i, j | 0 <= i < j < |routes| ::
      routes[i].version != routes[j].version || routes[i].resource != routes[j].resource
  }

  /** An entry for the shape, with the wanted doc. */
  predicate Serves(route: RouteDecl, wanted: Wanted, shape: Shape) {
    Names(route, shape) && route.doc == wanted.routeDoc
  }

  /** The route table of the first `n` endpoints: no two entries for one resource and
      version, and each entry as the first endpoint that needs it declares it. */
  ghost predicate IsTable(routes: seq<RouteDecl>, wanted: seq<Wanted>, shapes: seq<Shape>) {
    && |wanted| == |shapes|
    && Unique(routes)
    && (forall i | 0 <= i < |routes| :: IsDeclared(routes[i], wanted, shapes))
  }

  ghost predicate IsDeclaredBy(route: RouteDecl, wanted: seq<Wanted>, shapes: seq<Shape>, k: int)
    requires |wanted| == |shapes|
  {
    && 0 <= k < |shapes| && Names(route, shapes[k])
    && route.constName == ConstName(shapes[k].name) && route.doc == wanted[k].routeDoc
    && forall j | 0 <= j < k :: !Names(route, shapes[j])
  }

  ghost predicate IsDeclared(route: RouteDecl, wanted: seq<Wanted>, shapes: seq<Shape>)
    requires |wanted| == |shapes|
  {
    exists k :: IsDeclaredBy(route, wanted, shapes, k)
  }

  /** Each endpoint's constant is that of the entry for its own resource and version,
      whose doc is the one it spells. */
  ghost predicate Routed(routes: seq<RouteDecl>, wanted: Wanted, shape: Shape, endpoint: Endpoint) {
    && endpoint == Endpoint(shape.name, endpoint.routeConst, shape.params, wanted.timeout)
    && exists route :: route in routes && Names(route, shape)
         && endpoint.routeConst == route.constName && route.doc == wanted.routeDoc
  }

  ghost predicate AllRouted(
      routes: seq<RouteDecl>, wanted: seq<Wanted>, shapes: seq<Shape>, endpoints: seq<Endpoint>) {
    |wanted| == |shapes| == |endpoints|
    && forall i | 0 <= i < |endpoints| :: Routed(routes, wanted[i], shapes[i], endpoints[i])
  }

  /** The shapes of a namespace whose endpoints all have one. */
  function Shapes(functions: map<string, seq<string>>, id: string, wanted: seq<Wanted>): (r: seq<Shape>)
    requires AllShaped(functions, id, wanted)
    ensures |r| == |wanted|
    ensures forall i | 0 <= i < |r| :: ShapeOf(functions, id, wanted[i]) == Success(r[i])
  {
    seq(|wanted|, i requires 0 <= i < |wanted| => ShapeOf(functions, id, wanted[i]).value)
  }

  predicate AllShaped(functions: map<string, seq<string>>, id: string, wanted: seq<Wanted>) {
    forall i | 0 <= i < |wanted| :: ShapeOf(functions, id, wanted[i]).Success?
  }

  predicate DocsAgree(wanted: seq<Wanted>, shapes: seq<Shape>) {
    |wanted| == |shapes|
    && forall i, j | 0 <= i < j < |wanted| && SameRoute(shapes[i], shapes[j]) ::
        wanted[i].routeDoc == wanted[j].routeDoc
  }

  ghost predicate OneVersion(shapes: seq<Shape>) {
    shapes != [] && forall i | 0 <= i < |shapes| :: shapes[i].version == shapes[0].version
  }

  predicate TimeoutsAgree(wanted: seq<Wanted>, timeout: Option<string>) {
    && (timeout.Some? ==> exists i :: 0 <= i < |wanted| && wanted[i].timeout == timeout)
    && (forall i | 0 <= i < |wanted| :: wanted[i].timeout.Some? ==> wanted[i].timeout == timeout)
  }

  /** When a namespace resolves. */
  ghost predicate Resolvable(
      functions: map<string, seq<string>>, id: string, wanted: seq<Wanted>, timeout: Option<string>) {
    AllShaped(functions, id, wanted)
    && (var shapes := Shapes(functions, id, wanted);
        DocsAgree(wanted, shapes) && OneVersion(shapes))
    && TimeoutsAgree(wanted, timeout)
  }

  /** The route of one more endpoint. The constant is that of the table's one entry for its
      resource and version, which spells its doc; it fails exactly if that entry spells
      another; and an entry is added, at the end, only if there was none. */
  method RouteFor(routes: seq<RouteDecl>, wanted: Wanted, shape: Shape)
    returns (constName: Result<string>, routes': seq<RouteDecl>)
    requires Unique(routes)
    ensures Unique(routes')
    ensures constName.Success? ==>
      exists route :: route in routes' && Serves(route, wanted, shape) && route.constName == constName.value
    ensures constName.Failure? <==>
      exists route :: route in routes && Names(route, shape) && !Serves(route, wanted, shape)
    ensures constName.Failure? ==> constName.error == DocsDiffer
    ensures (exists route :: route in routes && Names(route, shape)) ==> routes' == routes
    ensures (forall route | route in routes :: !Names(route, shape)) ==>
      routes' == routes + [RouteDecl(ConstName(shape.name), shape.version, shape.resource, wanted.routeDoc)]
  {
    routes' := routes;
    match FindRoute(routes, shape.version, shape.resource)
    case Some(existing) =>
      if existing.doc != wanted.routeDoc {
        return Failure(DocsDiffer), routes;
      }
      constName := Success(existing.constName);
    case None =>
      var name := ConstName(shape.name);
      var route := RouteDecl(name, shape.version, shape.resource, wanted.routeDoc);
      routes' := routes + [route];
      constName := Success(name);
      assert route in routes' && Serves(route, wanted, shape);
  }

  lemma OneEntry(routes: seq<RouteDecl>, a: RouteDecl, b: RouteDecl, shape: Shape)
    requires Unique(routes) && a in routes && b in routes && Names(a, shape) && Names(b, shape)
    ensures a == b
  {
  }

  // What `RouteFor` answers, by the entry that is there.
  lemma AnswerIs(routes: seq<RouteDecl>, wanted: Wanted, shape: Shape, constName: Result<string>,
                 routes': seq<RouteDecl>)
    requires Unique(routes) && Unique(routes')
    requires constName.Success? ==>
      exists route :: route in routes' && Serves(route, wanted, shape) && route.constName == constName.value
    requires constName.Failure? <==>
      exists route :: route in routes && Names(route, shape) && !Serves(route, wanted, shape)
    requires (exists route :: route in routes && Names(route, shape)) ==> routes' == routes
    requires (forall route | route in routes :: !Names(route, shape)) ==>
      routes' == routes + [RouteDecl(ConstName(shape.name), shape.version, shape.resource, wanted.routeDoc)]
    ensures match FindRoute(routes, shape.version, shape.resource)
      case Some(existing) =>
        routes' == routes && (constName.Success? <==> existing.doc == wanted.routeDoc)
        && (constName.Success? ==> constName.value == existing.constName)
      case None =>
        constName == Success(ConstName(shape.name))
        && routes' == routes + [RouteDecl(ConstName(shape.name), shape.version, shape.resource, wanted.routeDoc)]
  {
    hide ConstName;
    var found := FindRoute(routes, shape.version, shape.resource);
    if found.Some? {
      assert Names(found.value, shape);
      if constName.Success? {
        var route :| route in routes' && Serves(route, wanted, shape) && route.constName == constName.value;
        OneEntry(routes, route, found.value, shape);
      } else {
        var route :| route in routes && Names(route, shape) && !Serves(route, wanted, shape);
        OneEntry(routes, route, found.value, shape);
      }
    } else {
      var added := RouteDecl(ConstName(shape.name), shape.version, shape.resource, wanted.routeDoc);
      assert routes' == routes + [added] && added in routes' && Names(added, shape);
      var route :| route in routes' && Serves(route, wanted, shape) && route.constName == constName.value;
      OneEntry(routes', route, added, shape);
    }
  }

  lemma StillDeclared(route: RouteDecl, wanted: seq<Wanted>, shapes: seq<Shape>, w: Wanted, shape: Shape)
    requires |wanted| == |shapes|
    requires IsDeclared(route, wanted, shapes)
    ensures IsDeclared(route, wanted + [w], shapes + [shape])
  {
    var k :| IsDeclaredBy(route, wanted, shapes, k);
    assert IsDeclaredBy(route, wanted + [w], shapes + [shape], k);
  }

  lemma StillRouted(routes: seq<RouteDecl>, more: seq<RouteDecl>, wanted: Wanted, shape: Shape, endpoint: Endpoint)
    requires Routed(routes, wanted, shape, endpoint)
    ensures Routed(routes + more, wanted, shape, endpoint)
  {
    var route :| route in routes && Names(route, shape)
               && endpoint.routeConst == route.constName && route.doc == wanted.routeDoc;
    assert route in routes + more;
  }

  // Nothing names a route that no entry has.
  lemma NewRoute(routes: seq<RouteDecl>, wanted: seq<Wanted>, shapes: seq<Shape>, endpoints: seq<Endpoint>,
                 w: Wanted, shape: Shape)
    requires AllRouted(routes, wanted, shapes, endpoints)
    requires FindRoute(routes, shape.version, shape.resource).None?
    ensures var route := RouteDecl(ConstName(shape.name), shape.version, shape.resource, w.routeDoc);
      IsDeclared(route, wanted + [w], shapes + [shape])
  {
    hide ConstName;
    var route := RouteDecl(ConstName(shape.name), shape.version, shape.resource, w.routeDoc);
    forall j | 0 <= j < |shapes| ensures !Names(route, shapes[j]) {
      assert Routed(routes, wanted[j], shapes[j], endpoints[j]);
    }
    assert IsDeclaredBy(route, wanted + [w], shapes + [shape], |shapes|);
  }

  lemma TableGrows(routes: seq<RouteDecl>, wanted: seq<Wanted>, shapes: seq<Shape>, endpoints: seq<Endpoint>,
                   w: Wanted, shape: Shape, route: RouteDecl, more: seq<RouteDecl>)
    requires IsTable(routes, wanted, shapes) && AllRouted(routes, wanted, shapes, endpoints)
    requires match FindRoute(routes, shape.version, shape.resource)
      case Some(existing) => more == [] && route == existing && existing.doc == w.routeDoc
      case None =>
        route == RouteDecl(ConstName(shape.name), shape.version, shape.resource, w.routeDoc) && more == [route]
    ensures IsTable(routes + more, wanted + [w], shapes + [shape])
    ensures AllRouted(routes + more, wanted + [w], shapes + [shape],
                      endpoints + [Endpoint(shape.name, route.constName, shape.params, w.timeout)])
  {
    hide IsDeclared, Routed, ConstName;
    var routes' := routes + more;
    if more != [] { NewRoute(routes, wanted, shapes, endpoints, w, shape); }
    forall i | 0 <= i < |routes'|
      ensures IsDeclared(routes'[i], wanted + [w], shapes + [shape])
    {
      if i < |routes| { StillDeclared(routes[i], wanted, shapes, w, shape); }
    }
    var endpoint := Endpoint(shape.name, route.constName, shape.params, w.timeout);
    IsRouted(routes', w, shape, route, endpoint);
    forall i | 0 <= i < |endpoints| ensures Routed(routes', wanted[i], shapes[i], endpoints[i]) {
      StillRouted(routes, more, wanted[i], shapes[i], endpoints[i]);
    }
  }

  lemma IsRouted(routes: seq<RouteDecl>, w: Wanted, shape: Shape, route: RouteDecl, endpoint: Endpoint)
    requires route in routes && Names(route, shape) && route.doc == w.routeDoc
    requires endpoint == Endpoint(shape.name, route.constName, shape.params, w.timeout)
    ensures Routed(routes, w, shape, endpoint)
  {
  }

  lemma DocsGrow(routes: seq<RouteDecl>, wanted: seq<Wanted>, shapes: seq<Shape>, endpoints: seq<Endpoint>,
                 w: Wanted, shape: Shape)
    requires IsTable(routes, wanted, shapes) && AllRouted(routes, wanted, shapes, endpoints)
    requires DocsAgree(wanted, shapes)
    ensures DocsAgree(wanted + [w], shapes + [shape]) <==>
      match FindRoute(routes, shape.version, shape.resource)
      case Some(existing) => existing.doc == w.routeDoc
      case None => true
  {
    forall j | 0 <= j < |shapes| && SameRoute(shapes[j], shape)
      ensures FindRoute(routes, shape.version, shape.resource).Some?
      ensures FindRoute(routes, shape.version, shape.resource).value.doc == wanted[j].routeDoc
    {
      assert Routed(routes, wanted[j], shapes[j], endpoints[j]);
    }
    if FindRoute(routes, shape.version, shape.resource).Some? {
      var existing := FindRoute(routes, shape.version, shape.resource).value;
      var i :| 0 <= i < |routes| && routes[i] == existing;
      var k :| IsDeclaredBy(routes[i], wanted, shapes, k);
      assert SameRoute(shapes[k], shape);
      assert (wanted + [w])[k] == wanted[k] && (shapes + [shape])[k] == shapes[k];
      assert (wanted + [w])[|wanted|] == w && (shapes + [shape])[|shapes|] == shape;
    }
  }

  // Docs that agree over a namespace agree over its first endpoints.
  lemma DocsSoFar(functions: map<string, seq<string>>, id: string, wanted: seq<Wanted>, shapes: seq<Shape>)
    requires |shapes| <= |wanted|
    requires forall k | 0 <= k < |shapes| :: ShapeOf(functions, id, wanted[k]) == Success(shapes[k])
    ensures AllShaped(functions, id, wanted) && DocsAgree(wanted, Shapes(functions, id, wanted)) ==>
      DocsAgree(wanted[..|shapes|], shapes)
  {
    hide ShapeOf;
    if AllShaped(functions, id, wanted) {
      assert forall k | 0 <= k < |shapes| :: Shapes(functions, id, wanted)[k] == shapes[k];
    }
  }

  // ---- One version -------------------------------------------------------

  function Insert(v: nat, sorted: seq<nat>): (r: seq<nat>)
    requires IsSorted(sorted)
    ensures IsSorted(r) && multiset(r) == multiset(sorted) + multiset{v}
    ensures r[0] == v || (sorted != [] && r[0] == sorted[0])
  {
    if sorted == [] || v <= sorted[0] then [v] + sorted
    else
      var rest := Insert(v, sorted[1..]);
      assert sorted == [sorted[0]] + sorted[1..];
      [sorted[0]] + rest
  }

  predicate IsSorted(s: seq<nat>) {
    forall i | 0 < i < |s| :: s[i - 1] <= s[i]
  }

  function Sort(versions: seq<nat>): (r: seq<nat>)
    ensures IsSorted(r) && multiset(r) == multiset(versions)
  {
    if versions == [] then []
    else
      assert versions == [versions[0]] + versions[1..];
      Insert(versions[0], Sort(versions[1..]))
  }

  /** `dedup`: neighbouring repeats removed, the first of them kept. */
  function Dedup(s: seq<nat>): seq<nat> {
    if |s| <= 1 then s
    else if s[0] == s[1] then [s[0]] + Dedup(s[1..])[1..]
    else [s[0]] + Dedup(s[1..])
  }

  predicate AllEqual(versions: seq<nat>) {
    versions != [] && forall i | 0 <= i < |versions| :: versions[i] == versions[0]
  }

  lemma {:induction false} DedupOfEquals(s: seq<nat>)
    requires s != []
    ensures Dedup(s) != [] && Dedup(s)[0] == s[0]
    ensures |Dedup(s)| == 1 <==> AllEqual(s)
  {
    if |s| > 1 {
      DedupOfEquals(s[1..]);
      assert AllEqual(s) <==> s[0] == s[1] && AllEqual(s[1..]);
    }
  }

  lemma EqualsAreEqual(a: seq<nat>, b: seq<nat>)
    requires multiset(a) == multiset(b) && AllEqual(a)
    ensures AllEqual(b) && b[0] == a[0]
  {
    assert a[0] in multiset(b);
    forall i | 0 <= i < |b| ensures b[i] == a[0] {
      assert b[i] in multiset(a);
    }
  }

  /** Sorted and without repeats, the versions leave one if and only if there are any and
      they all agree; it is then theirs. */
  lemma VersionsAreOne(versions: seq<nat>)
    ensures |Dedup(Sort(versions))| == 1 <==> AllEqual(versions)
    ensures AllEqual(versions) ==> Dedup(Sort(versions))[0] == versions[0]
  {
    hide Sort, Dedup, AllEqual;
    var sorted := Sort(versions);
    if versions == [] {
      NoVersions();
    } else {
      assert versions[0] in multiset(sorted);
      DedupOfEquals(sorted);
      if AllEqual(versions) { EqualsAreEqual(versions, sorted); }
      if AllEqual(sorted) { EqualsAreEqual(sorted, versions); }
    }
  }

  lemma VersionsOfShapes(versions: seq<nat>, shapes: seq<Shape>)
    requires |versions| == |shapes| && forall i | 0 <= i < |versions| :: versions[i] == shapes[i].version
    ensures AllEqual(versions) <==> OneVersion(shapes)
    ensures AllEqual(versions) ==> forall i | 0 <= i < |shapes| :: shapes[i].version == versions[0]
  {
  }

  lemma NoVersions()
    ensures Dedup(Sort([])) == [] && !AllEqual([])
  {
  }

  /** The endpoint loop of `resolve`, for one namespace. */
  method ResolveEndpoints(functions: map<string, seq<string>>, id: string, wanted: seq<Wanted>)
    returns (error: Option<Error>, ghost shapes: seq<Shape>, routes: seq<RouteDecl>, endpoints: seq<Endpoint>,
             versions: seq<nat>)
    ensures error.None? <==>
      AllShaped(functions, id, wanted) && DocsAgree(wanted, Shapes(functions, id, wanted))
    ensures error.None? ==>
      && shapes == Shapes(functions, id, wanted)
      && IsTable(routes, wanted, shapes) && AllRouted(routes, wanted, shapes, endpoints)
      && |versions| == |shapes| && forall i | 0 <= i < |versions| :: versions[i] == shapes[i].version
  {
    hide ShapeOf, IsTable, AllRouted, DocsAgree, ConstName;
    error, shapes, routes, endpoints, versions := None, [], [], [], [];
    NothingRouted();
    for i := 0 to |wanted|
      invariant |shapes| == |versions| == i
      invariant forall k | 0 <= k < i :: ShapeOf(functions, id, wanted[k]) == Success(shapes[k])
      invariant IsTable(routes, wanted[..i], shapes) && AllRouted(routes, wanted[..i], shapes, endpoints)
      invariant DocsAgree(wanted[..i], shapes)
      invariant forall k | 0 <= k < i :: versions[k] == shapes[k].version
    {
      var made := ShapeOf(functions, id, wanted[i]);
      if made.Failure? {
        error := Some(made.error);
        return;
      }
      var shape := made.value;
      assert wanted[..i + 1] == wanted[..i] + [wanted[i]];
      DocsGrow(routes, wanted[..i], shapes, endpoints, wanted[i], shape);
      TableIsUnique(routes, wanted[..i], shapes);
      var constName, routes' := RouteFor(routes, wanted[i], shape);
      AnswerIs(routes, wanted[i], shape, constName, routes');
      if constName.Failure? {
        DocsSoFar(functions, id, wanted, shapes + [shape]);
        error := Some(constName.error);
        return;
      }
      ghost var route := FindRoute(routes, shape.version, shape.resource);
      ghost var decl := if route.Some? then route.value
        else RouteDecl(ConstName(shape.name), shape.version, shape.resource, wanted[i].routeDoc);
      TableGrows(routes, wanted[..i], shapes, endpoints, wanted[i], shape, decl,
                 if route.Some? then [] else [decl]);
      assert routes' == routes + if route.Some? then [] else [decl];
      endpoints := endpoints + [Endpoint(shape.name, constName.value, shape.params, wanted[i].timeout)];
      routes, shapes, versions := routes', shapes + [shape], versions + [shape.version];
    }
    assert wanted[..|wanted|] == wanted;
    assert AllShaped(functions, id, wanted) && Shapes(functions, id, wanted) == shapes;
  }

  lemma TableIsUnique(routes: seq<RouteDecl>, wanted: seq<Wanted>, shapes: seq<Shape>)
    requires IsTable(routes, wanted, shapes)
    ensures Unique(routes)
  {
  }

  lemma NothingRouted()
    ensures IsTable([], [], []) && AllRouted([], [], [], []) && DocsAgree([], [])
  {
  }

  /** `resolve`, for one namespace: its route table, its endpoints and their version. */
  method ResolveNamespace(
      functions: map<string, seq<string>>, id: string, wanted: seq<Wanted>, timeout: Option<string>)
    returns (r: Result<Namespace>)
    ensures r.Success? <==> Resolvable(functions, id, wanted, timeout)
    ensures r.Success? ==>
      var shapes := Shapes(functions, id, wanted);
      && IsTable(r.value.routes, wanted, shapes)
      && AllRouted(r.value.routes, wanted, shapes, r.value.endpoints)
      && forall i | 0 <= i < |shapes| :: shapes[i].version == r.value.version
    ensures r.Success? ==>
      forall i, p | 0 <= i < |wanted| && SpellsRecord(wanted[i].functionName, p) ::
        wanted[i].functionName in functions
        && ResolvedAs(r.value, i, wanted[i], p, functions[wanted[i].functionName])
  {
    hide SpellsRecord, ResolvedAs;
    hide ShapeOf, IsTable, DocsAgree, AllRouted, Sort, Dedup, AllEqual, OneVersion;
    var error, shapes, routes, endpoints, versions := ResolveEndpoints(functions, id, wanted);
    if error.Some? {
      return Failure(error.value);
    }
    VersionsAreOne(versions);
    VersionsOfShapes(versions, shapes);
    var left := Dedup(Sort(versions));
    if |left| != 1 {
      return Failure(SpansVersions);
    }
    if timeout.Some? && !exists i :: 0 <= i < |wanted| && wanted[i].timeout == timeout {
      return Failure(UnusedTimeout);
    }
    if exists i :: 0 <= i < |wanted| && wanted[i].timeout.Some? && wanted[i].timeout != timeout {
      return Failure(UndeclaredTimeout);
    }
    var ns := Namespace(routes, endpoints, left[0]);
    forall i, p | 0 <= i < |wanted| && SpellsRecord(wanted[i].functionName, p)
      ensures wanted[i].functionName in functions
      ensures ResolvedAs(ns, i, wanted[i], p, functions[wanted[i].functionName])
    {
      ResolvedAsNamed(functions, id, wanted, ns, i, p);
    }
    return Success(ns);
  }

  /** Endpoint `i` of the namespace is what its function's record says, and so is its route:
      its version, its path, and the doc it was given. */
  ghost predicate ResolvedAs(ns: Namespace, i: nat, wanted: Wanted, p: FunctionName.Parsed, args: seq<string>) {
    var segments := Surface.Derived(p.rest, args);
    && ns.version == p.version && i < |ns.endpoints|
    && ns.endpoints[i].name == (if wanted.name.Some? then wanted.name.value else p.rest)
    && ns.endpoints[i].params == PathParams(segments) && ns.endpoints[i].timeout == wanted.timeout
    && exists route :: route in ns.routes && route.constName == ns.endpoints[i].routeConst
         && route.version == p.version && route.doc == wanted.routeDoc
         && route.resource == (if wanted.resource.Some? then wanted.resource.value else Resource(segments))
  }

  lemma ResolvedAsNamed(functions: map<string, seq<string>>, id: string, wanted: seq<Wanted>, ns: Namespace, i: nat,
                        p: FunctionName.Parsed)
    requires AllShaped(functions, id, wanted) && i < |wanted|
    requires AllRouted(ns.routes, wanted, Shapes(functions, id, wanted), ns.endpoints)
    requires Shapes(functions, id, wanted)[i].version == ns.version
    requires SpellsRecord(wanted[i].functionName, p)
    ensures wanted[i].functionName in functions
    ensures ResolvedAs(ns, i, wanted[i], p, functions[wanted[i].functionName])
  {
    hide ShapeOf, SpellsRecord, Surface.Derived, PathParams, Resource;
    var shape := Shapes(functions, id, wanted)[i];
    ShapesAreOfRecords(functions, id, wanted[i]);
    assert Routed(ns.routes, wanted[i], shape, ns.endpoints[i]);
    var route :| route in ns.routes && Names(route, shape)
      && ns.endpoints[i].routeConst == route.constName && route.doc == wanted[i].routeDoc;
  }

  // ---- Every endpoint can bind its own path --------------------------------

  const MARKS := {'{', '}', '/'}

  /** A function name with none of the characters a path gives a meaning to. */
  predicate Plain(s: string) {
    FreeOf(s, MARKS)
  }

  /** The parameters an endpoint passes to `bind`: its placeholders, its field values. */
  function Bindings(names: seq<string>, values: seq<string>): (r: seq<Param>)
    requires |names| == |values|
    ensures |r| == |names| && forall i | 0 <= i < |r| :: r[i] == Param(names[i], values[i])
  {
    seq(|names|, i requires 0 <= i < |names| => Param(names[i], values[i]))
  }

  lemma {:induction false} PlainWords(words: seq<string>)
    ensures Plain(Concat(words)) <==> forall i | 0 <= i < |words| :: Plain(words[i])
  {
    if words != [] {
      PlainWords(words[1..]);
      PlainAppend(words[0], Concat(words[1..]));
      assert words == [words[0]] + words[1..];
    }
  }

  lemma PlainAppend(a: string, b: string)
    ensures Plain(a + b) <==> Plain(a) && Plain(b)
  {
    assert forall k | 0 <= k < |a| :: a[k] == (a + b)[k];
    assert forall k | 0 <= k < |b| :: b[k] == (a + b)[|a| + k];
  }

  lemma {:induction false} PlainCased(s: string, sep: char)
    requires Plain(s) && sep !in MARKS
    ensures Plain(Surface.CasedTail(s, sep)) && Plain(Surface.Cased(s, sep))
    ensures s != [] ==> Surface.Cased(s, sep) != []
  {
    if s != [] {
      assert s == [s[0]] + s[1..];
      PlainAppend([s[0]], s[1..]);
      PlainCased(s[1..], sep);
      PlainAppend([LowerChar(s[0])], Surface.CasedTail(s[1..], sep));
      PlainAppend([sep, LowerChar(s[0])], Surface.CasedTail(s[1..], sep));
      PlainAppend([s[0]], Surface.CasedTail(s[1..], sep));
    }
  }

  lemma PlainCapital(s: string)
    requires Plain(s)
    ensures Plain(Surface.Capital(s))
  {
  }

  lemma PlainLower(s: string)
    requires Plain(s)
    ensures Plain(Surface.Lower(s))
  {
  }

  lemma PlainPlaceholder(words: seq<string>, at: nat, arg: string)
    requires Surface.Matches(words, at, Surface.ArgWordsOf(arg))
    requires forall i | 0 <= i < |words| :: Plain(words[i])
    ensures Plain(Surface.PlaceholderName(arg))
  {
    var wanted := Surface.ArgWordsOf(arg);
    forall i | 0 <= i < |wanted| ensures Plain(wanted[i]) && Plain(Surface.Capital(wanted[i])) {
      PlainLower(words[at + 1 + i]);
      PlainCapital(wanted[i]);
    }
    if wanted != [] {
      PlainWords(Surface.Each(wanted[1..], Surface.Capital));
      PlainAppend(wanted[0], Concat(Surface.Each(wanted[1..], Surface.Capital)));
    }
  }

  lemma PlainSegment(words: seq<string>, args: seq<string>, span: Surface.Span)
    requires Surface.LaidSpan(words, args, span)
    requires forall i | 0 <= i < |words| :: Plain(words[i]) && words[i] != []
    ensures match Surface.ToSegment(words, span)
      case Literal(text) => Plain(text) && text != []
      case Param(arg) => Plain(Surface.PlaceholderName(arg))
  {
    match span
    case Run(from, to) =>
      var run := words[from..to];
      PlainWords(run);
      assert run[0] != [] && Concat(run) != [];
      PlainCased(Concat(run), '-');
    case Arg(at, to, arg) =>
      PlainPlaceholder(words, at, arg);
  }

  lemma PiecesArePlain(rest: string, args: seq<string>)
    requires Plain(rest)
    ensures var pieces := Pieces(Surface.Derived(rest, args));
      WholeSegments(pieces) && forall i | 0 <= i < |pieces| :: IsPlainPiece(pieces[i])
  {
    var words := Surface.Words(rest);
    PlainWords(words);
    Surface.SpansAreLaid(words, args, 0, 0);
    var spans := Surface.Spans(words, args, 0, 0);
    forall i | 0 <= i < |spans| ensures WholeSegment(PieceOf(Surface.ToSegment(words, spans[i])))
                                     && IsPlainPiece(PieceOf(Surface.ToSegment(words, spans[i])))
    {
      PlainSegment(words, args, spans[i]);
    }
  }

  predicate IsPlainPiece(piece: Piece) {
    match piece
    case Literal(text) => Plain(text) && text != []
    case Hole(name) => Plain(name)
  }

  lemma {:induction false} HolesAreParams(segments: seq<Surface.Segment>, i: nat)
    requires i < |segments| && segments[i].Param?
    ensures Surface.PlaceholderName(segments[i].arg) in PathParams(segments)
  {
    hide Surface.PlaceholderName;
    if i > 0 {
      assert segments[1..][i - 1] == segments[i];
      HolesAreParams(segments[1..], i - 1);
    }
  }

  lemma {:induction false} ParamsAreHoles(segments: seq<Surface.Segment>, name: string)
    requires name in PathParams(segments)
    ensures exists i :: 0 <= i < |segments| && PieceOf(segments[i]) == Hole(name)
  {
    if segments[0].Param? && name == Surface.PlaceholderName(segments[0].arg) {
      assert PieceOf(segments[0]) == Hole(name);
    } else {
      ParamsAreHoles(segments[1..], name);
      var i :| 0 <= i < |segments[1..]| && PieceOf(segments[1..][i]) == Hole(name);
      assert segments[i + 1] == segments[1..][i];
    }
  }

  /** The parameters are in the order of their segments. */
  lemma {:induction false} ParamsAreInOrder(a: seq<Surface.Segment>, b: seq<Surface.Segment>)
    ensures PathParams(a + b) == PathParams(a) + PathParams(b)
    ensures forall arg :: PathParams([Surface.Segment.Param(arg)]) == [Surface.PlaceholderName(arg)]
  {
    hide Surface.PlaceholderName;
    forall arg ensures PathParams([Surface.Segment.Param(arg)]) == [Surface.PlaceholderName(arg)] {
      assert [Surface.Segment.Param(arg)][1..] == [];
    }
    if a == [] {
      assert a + b == b;
    } else {
      ParamsAreInOrder(a[1..], b);
      assert (a + b)[1..] == a[1..] + b;
    }
  }

  lemma {:induction false} GivenIsBound(params: seq<Param>, i: nat)
    requires i < |params|
    ensures IsBound(params, params[i].name)
  {
    if i > 0 && params[0].name != params[i].name { GivenIsBound(params[1..], i - 1); }
  }

  lemma {:induction false} LastOfJoin(parts: seq<string>)
    requires parts != [] && forall i | 0 <= i < |parts| :: parts[i] != []
    ensures var s := Join(parts);
      s != [] && s[0] == parts[0][0] && s[|s| - 1] == parts[|parts| - 1][|parts[|parts| - 1]| - 1]
  {
    if |parts| > 1 {
      hide Join;
      var rest := Join(parts[1..]);
      JoinOfCons(parts);
      LastOfJoin(parts[1..]);
      assert (parts[0] + "/" + rest)[|parts[0]| + |rest|] == rest[|rest| - 1];
    }
  }

  lemma JoinOfCons(parts: seq<string>)
    requires |parts| > 1
    ensures Join(parts) == parts[0] + "/" + Join(parts[1..])
  {
  }

  lemma TrimIsIdle(pieces: seq<Piece>)
    requires pieces != [] && forall i | 0 <= i < |pieces| :: IsPlainPiece(pieces[i])
    ensures var s := Join(Texts(pieces)); s != [] && TrimEnd(TrimStart(s)) == s
  {
    var texts := Texts(pieces);
    forall i | 0 <= i < |texts| ensures texts[i] != [] && texts[i][0] != '/' && texts[i][|texts[i]| - 1] != '/' {
      assert IsPlainPiece(pieces[i]);
    }
    LastOfJoin(texts);
  }

  lemma {:induction false} DecimalIsPlain(n: nat)
    ensures Plain(Decimal(n))
  {
    assert forall i | 0 <= i < |Decimal(n)| :: IsDigit(Decimal(n)[i]);
  }

  lemma PlainIsSegment(text: string)
    requires Plain(text)
    ensures WholeSegment(Literal(text))
  {
  }

  /** The segments of an endpoint's path, namespace and version first. */
  function PathPieces(id: string, version: nat, segments: seq<Surface.Segment>): seq<Piece> {
    [Literal(""), Literal(id), Literal("v" + Decimal(version))] + Pieces(segments)
  }

  lemma PathIsPieces(id: string, version: nat, rest: string, args: seq<string>)
    requires Plain(id) && Plain(rest)
    ensures var segments := Surface.Derived(rest, args);
      && WholeSegments(PathPieces(id, version, segments))
      && Path(Route(id, version, Resource(segments))) == Join(Texts(PathPieces(id, version, segments)))
  {
    hide Surface.Derived, Plain, WholeSegment, Path, Join;
    var segments := Surface.Derived(rest, args);
    var pieces := Pieces(segments);
    PiecesArePlain(rest, args);
    DecimalIsPlain(version);
    PlainAppend("v", Decimal(version));
    NothingAndVAreContent();
    PlainIsSegment("");
    PlainIsSegment(id);
    PlainIsSegment("v" + Decimal(version));
    if pieces == [] {
      ResourceOfNothing(segments);
      assert PathPieces(id, version, segments) == Base(Route(id, version, Resource(segments)));
    } else {
      TrimIsIdle(pieces);
    }
    PathIsSegments(Route(id, version, Resource(segments)), pieces);
  }

  lemma NothingAndVAreContent()
    ensures Plain("") && Plain("v")
  {
  }

  lemma ResourceOfNothing(segments: seq<Surface.Segment>)
    requires segments == []
    ensures Resource(segments) == "" && TrimEnd(TrimStart("")) == ""
  {
  }

  /** An endpoint whose resource is derived binds its own path. Given one value for each of
      its parameters, every placeholder is bound, and splitting and decoding the path gives
      back the value of each parameter that is the first of its placeholder's name and is
      left alone by the later ones; no brace is left if no value has one. */
  lemma EndpointsBindTheirPaths(
      functions: map<string, seq<string>>, id: string, wanted: Wanted, values: seq<string>)
    requires wanted.resource.None? && Plain(wanted.functionName)
    requires ShapeOf(functions, id, wanted).Success?
    requires |values| == |ShapeOf(functions, id, wanted).value.params|
    ensures var shape := ShapeOf(functions, id, wanted).value;
      var parsed := FunctionName.Parse(wanted.functionName).value;
      var pieces := PathPieces(id, shape.version, Surface.Derived(parsed.rest, functions[wanted.functionName]));
      var params := Bindings(shape.params, values);
      var path := InTurn(Path(Route(id, shape.version, shape.resource)), params);
      && |Split(path, {'/'})| == |pieces|
      && (forall i | 0 <= i < |pieces| ::
            ComesBack(Split(path, {'/'})[i], pieces[i], params)
            && (pieces[i].Hole? ==> IsBound(params, pieces[i].name)))
      && (forall k | 0 <= k < |values| && IsFirst(shape.params, k) && LeftAlone(params, shape.params[k]) ::
            SpelledAtHole(pieces, Split(path, {'/'}), shape.params[k], values[k]))
      && ((forall k | 0 <= k < |values| :: Free(values[k], '{')) ==> Free(path, '{'))
  {
    hide Surface.Derived, Path, Resource, WholeSegments, InTurn, Split, Join, Texts, Named, Plain, Surface.Kebabbed;
    hide LeftAlone, Settled, IsBound, Spells, PathParams;
    var shape := ShapeOf(functions, id, wanted).value;
    var parsed := FunctionName.Parse(wanted.functionName).value;
    var args := functions[wanted.functionName];
    var segments := Surface.Derived(parsed.rest, args);
    PartsArePlain(wanted.functionName);
    PathIsPieces(id, shape.version, parsed.rest, args);
    PiecesArePlain(parsed.rest, args);
    var pieces, params := PathPieces(id, shape.version, segments), Bindings(shape.params, values);
    BindingsAreNamed(segments, values);
    HolesAreBound(id, shape.version, segments, values);
    NoBraceLeftInSegments(pieces, params);
    ValuesComeBack(pieces, params);
    var parts := Split(InTurn(Path(Route(id, shape.version, shape.resource)), params), {'/'});
    forall k | 0 <= k < |values| && IsFirst(shape.params, k) && LeftAlone(params, shape.params[k])
      ensures SpelledAtHole(pieces, parts, shape.params[k], values[k])
    {
      var i := HoleOf(id, shape.version, segments, shape.params[k]);
      FirstIsFound(shape.params, values, k);
      assert ComesBack(parts[i], pieces[i], params);
    }
    if forall k | 0 <= k < |values| :: Free(values[k], '{') {
      forall i | 0 <= i < |pieces| && pieces[i].Hole? ensures Free(Settled(params, pieces[i].name), '{') {
        BracelessSettles(params, pieces[i].name);
      }
    }
  }

  /** The path begins with the namespace of the endpoint's function, in kebab case, and the
      version that the function's name gives. */
  lemma PathsBeginAsNamed(
      functions: map<string, seq<string>>, id: string, wanted: Wanted, values: seq<string>, p: FunctionName.Parsed)
    requires wanted.resource.None? && Plain(wanted.functionName)
    requires ShapeOf(functions, id, wanted).Success? && SpellsRecord(wanted.functionName, p)
    requires |values| == |ShapeOf(functions, id, wanted).value.params|
    ensures var shape := ShapeOf(functions, id, wanted).value;
      var path := InTurn(Path(Route(id, shape.version, shape.resource)), Bindings(shape.params, values));
      |Split(path, {'/'})| >= 3
      && Split(path, {'/'})[..3] == ["", Surface.Kebabbed(p.namespace), "v" + Decimal(p.version)]
  {
    hide InTurn, Path, Split, ShapeOf, SpellsRecord, Plain, Surface.Kebabbed, Bindings, Decimal;
    ShapesAreOfRecords(functions, id, wanted);
    ShapeHasVersion(ShapeOf(functions, id, wanted).value, wanted, p, functions[wanted.functionName]);
    PathsBegin(functions, id, wanted, values);
  }

  lemma PathsBegin(functions: map<string, seq<string>>, id: string, wanted: Wanted, values: seq<string>)
    requires wanted.resource.None? && Plain(wanted.functionName)
    requires ShapeOf(functions, id, wanted).Success?
    requires |values| == |ShapeOf(functions, id, wanted).value.params|
    ensures var shape := ShapeOf(functions, id, wanted).value;
      var path := InTurn(Path(Route(id, shape.version, shape.resource)), Bindings(shape.params, values));
      |Split(path, {'/'})| >= 3 && Split(path, {'/'})[..3] == ["", id, "v" + Decimal(shape.version)]
  {
    EndpointsBindTheirPaths(functions, id, wanted, values);
    hide Surface.Derived, Surface.Kebabbed, InTurn, Path, Split, ComesBack, PathPieces, LeftAlone, IsBound, IsFirst;
    hide SpelledAtHole, Plain, Bindings, Resource, PathParams, Decimal;
    var shape := ShapeOf(functions, id, wanted).value;
    var parsed := FunctionName.Parse(wanted.functionName).value;
    var params := Bindings(shape.params, values);
    FirstPartsAre(Split(InTurn(Path(Route(id, shape.version, shape.resource)), params), {'/'}), id, shape.version,
                  Surface.Derived(parsed.rest, functions[wanted.functionName]), params);
  }

  lemma ShapeHasVersion(shape: Shape, wanted: Wanted, p: FunctionName.Parsed, args: seq<string>)
    requires IsShapeOf(shape, wanted, p, args)
    ensures shape.version == p.version
  {
  }

  lemma FirstPartsAre(parts: seq<string>, id: string, version: nat, segments: seq<Surface.Segment>, params: seq<Param>)
    requires |parts| == |PathPieces(id, version, segments)|
    requires forall i | 0 <= i < |parts| :: ComesBack(parts[i], PathPieces(id, version, segments)[i], params)
    ensures |parts| >= 3 && parts[..3] == ["", id, "v" + Decimal(version)]
  {
    var pieces := PathPieces(id, version, segments);
    assert ComesBack(parts[0], pieces[0], params);
    assert ComesBack(parts[1], pieces[1], params);
    assert ComesBack(parts[2], pieces[2], params);
  }

  /** Some part stands at a placeholder of the name and spells the value. */
  ghost predicate SpelledAtHole(pieces: seq<Piece>, parts: seq<string>, name: string, value: string) {
    exists i :: 0 <= i < |pieces| && i < |parts| && pieces[i] == Hole(name) && Spells(parts[i], value)
  }

  /** The first parameter of its name. */
  predicate IsFirst(names: seq<string>, k: nat)
    requires k < |names|
  {
    forall j | 0 <= j < k :: names[j] != names[k]
  }

  lemma {:induction false} FirstIsFound(names: seq<string>, values: seq<string>, k: nat)
    requires |names| == |values| && k < |names| && IsFirst(names, k)
    ensures Lookup(Bindings(names, values), names[k]) == Some(values[k])
    ensures IsBound(Bindings(names, values), names[k])
  {
    if k > 0 {
      assert forall j | 0 <= j < k - 1 :: names[1..][j] == names[j + 1];
      FirstIsFound(names[1..], values[1..], k - 1);
      assert Bindings(names, values)[1..] == Bindings(names[1..], values[1..]);
    }
  }

  lemma HoleOf(id: string, version: nat, segments: seq<Surface.Segment>, name: string) returns (i: nat)
    requires name in PathParams(segments)
    ensures i < |PathPieces(id, version, segments)| && PathPieces(id, version, segments)[i] == Hole(name)
  {
    ParamsAreHoles(segments, name);
    var k :| 0 <= k < |segments| && PieceOf(segments[k]) == Hole(name);
    i := k + 3;
  }

  lemma BracelessSettles(params: seq<Param>, name: string)
    requires IsBound(params, name) && forall k | 0 <= k < |params| :: Free(params[k].value, '{')
    ensures Free(Settled(params, name), '{')
  {
    LookupIsGiven(params, name);
    WhatIsLeftAlone(params, name);
    EncodedIsFree(Lookup(params, name).value);
  }

  lemma HolesAreBound(id: string, version: nat, segments: seq<Surface.Segment>, values: seq<string>)
    requires |values| == |PathParams(segments)|
    ensures var pieces, params := PathPieces(id, version, segments), Bindings(PathParams(segments), values);
      forall i | 0 <= i < |pieces| :: pieces[i].Hole? ==> IsBound(params, pieces[i].name)
  {
    hide IsBound, Surface.PlaceholderName;
    var pieces, names := PathPieces(id, version, segments), PathParams(segments);
    forall i | 0 <= i < |pieces| && pieces[i].Hole?
      ensures IsBound(Bindings(names, values), pieces[i].name)
    {
      assert pieces[i] == Pieces(segments)[i - 3];
      HolesAreParams(segments, i - 3);
      var k :| 0 <= k < |names| && names[k] == pieces[i].name;
      GivenIsBound(Bindings(names, values), k);
    }
  }

  lemma BindingsAreNamed(segments: seq<Surface.Segment>, values: seq<string>)
    requires WholeSegments(Pieces(segments)) && |values| == |PathParams(segments)|
    ensures Named(Bindings(PathParams(segments), values))
  {
    forall i | 0 <= i < |values|
      ensures BraceFree(PathParams(segments)[i]) && Free(PathParams(segments)[i], '/')
    {
      ParamsAreHoles(segments, PathParams(segments)[i]);
      var k :| 0 <= k < |segments| && PieceOf(segments[k]) == Hole(PathParams(segments)[i]);
      assert WholeSegment(Pieces(segments)[k]);
    }
  }

  lemma PartsArePlain(name: string)
    requires Plain(name) && FunctionName.Parse(name).Some?
    ensures var parsed := FunctionName.Parse(name).value;
      Plain(parsed.rest) && Plain(Surface.Kebabbed(parsed.namespace))
  {
    var zeros := FunctionName.ParseThenPrint(name);
    var parsed := FunctionName.Parse(name).value;
    var version := Zeros(zeros) + Decimal(parsed.version);
    PlainAppend(parsed.verb + parsed.namespace + "V" + version, parsed.rest);
    PlainAppend(parsed.verb + parsed.namespace + "V", version);
    PlainAppend(parsed.verb + parsed.namespace, "V");
    PlainAppend(parsed.verb, parsed.namespace);
    PlainCased(parsed.namespace, '-');
  }
}
