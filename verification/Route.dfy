/** Binding a route's `{name}` placeholders, which the code does one parameter after
    another by replacing text.
 */
module Route {
  import opened Text
  import opened Client

  // ---- The code ----------------------------------------------------------

  /** `str::replace`: every match of `pat`, left to right, none overlapping. */
  function Replace(s: string, pat: string, to: string): string
    requires pat != []
  {
    if |s| < |pat| then s
    else if pat <= s then to + Replace(s[|pat|..], pat, to)
    else [s[0]] + Replace(s[1..], pat, to)
  }

  function TrimStart(s: string): string {
    if s != [] && s[0] == '/' then TrimStart(s[1..]) else s
  }

  function TrimEnd(s: string): string {
    if s != [] && s[|s| - 1] == '/' then TrimEnd(s[..|s| - 1]) else s
  }

  datatype Route = Route(namespace: string, version: nat, resource: string)

  datatype Param = Param(name: string, value: string)

  function Path(route: Route): string {
    var resource := TrimEnd(TrimStart(route.resource));
    var base := "/" + route.namespace + "/v" + Decimal(route.version);
    if resource == [] then base else base + "/" + resource
  }

  function Placeholder(name: string): string {
    "{" + name + "}"
  }

  function EncodeChar(c: char): string {
    match c
    case '/' => "%2F"
    case '?' => "%3F"
    case '#' => "%23"
    case '%' => "%25"
    case ' ' => "%20"
    case _ => [c]
  }

  function Encode(value: string): string {
    if value == [] then [] else EncodeChar(value[0]) + Encode(value[1..])
  }

  method EncodeSegment(value: string) returns (out: string)
    ensures out == Encode(value)
  {
    out := [];
    for i := 0 to |value|
      invariant out + Encode(value[i..]) == Encode(value)
    {
      hide EncodeChar;
      assert value[i..][1..] == value[i + 1..];
      Associates(out, EncodeChar(value[i]), Encode(value[i + 1..]));
      out := out + EncodeChar(value[i]);
    }
  }

  /** One parameter after the other. */
  function InTurn(path: string, params: seq<Param>): string
    decreases |params|
  {
    if params == [] then path
    else InTurn(Replace(path, Placeholder(params[0].name), Encode(params[0].value)), params[1..])
  }

  method Bind(route: Route, params: seq<Param>) returns (path: string)
    ensures path == InTurn(Path(route), params)
  {
    path := Path(route);
    for i := 0 to |params|
      invariant InTurn(path, params[i..]) == InTurn(Path(route), params)
    {
      assert params[i..][1..] == params[i + 1..];
      var value := EncodeSegment(params[i].value);
      path := Replace(path, Placeholder(params[i].name), value);
    }
  }

  // ---- What binding means: all placeholders at once -----------------------

  datatype Piece = Literal(text: string) | Hole(name: string)

  type Template = seq<Piece>

  function RenderPiece(piece: Piece): string {
    match piece
    case Literal(text) => text
    case Hole(name) => Placeholder(name)
  }

  function Render(t: Template): string {
    if t == [] then [] else RenderPiece(t[0]) + Render(t[1..])
  }

  predicate BraceFree(s: string) {
    Free(s, '{') && Free(s, '}')
  }

  /** Text has no opening brace and names have no brace at all. */
  predicate WellFormedPiece(piece: Piece) {
    match piece
    case Literal(text) => Free(text, '{')
    case Hole(name) => BraceFree(name)
  }

  predicate WellFormed(t: Template) {
    forall i | 0 <= i < |t| :: WellFormedPiece(t[i])
  }

  predicate Usable(params: seq<Param>) {
    forall i | 0 <= i < |params| :: BraceFree(params[i].name) && Free(params[i].value, '{')
  }

  /** Names that can be placeholders of one path segment; the values are arbitrary. */
  predicate Named(params: seq<Param>) {
    forall i | 0 <= i < |params| :: BraceFree(params[i].name) && Free(params[i].name, '/')
  }

  /** The value a name is bound to: the first one given. */
  function Lookup(params: seq<Param>, name: string): Option<string> {
    if params == [] then None
    else if params[0].name == name then Some(params[0].value)
    else Lookup(params[1..], name)
  }

  function FillPiece(piece: Piece, params: seq<Param>): Piece {
    match piece
    case Literal(_) => piece
    case Hole(name) =>
      match Lookup(params, name)
      case Some(value) => Literal(Encode(value))
      case None => piece
  }

  function Fill(t: Template, params: seq<Param>): (r: Template)
    ensures |r| == |t|
    ensures forall i | 0 <= i < |t| :: r[i] == FillPiece(t[i], params)
  {
    seq(|t|, i requires 0 <= i < |t| => FillPiece(t[i], params))
  }

  // ---- Replacing passes over everything but the placeholder ---------------

  lemma {:induction false} EncodedIsFree(value: string)
    ensures Free(value, '{') ==> Free(Encode(value), '{')
    ensures Free(Encode(value), '/')
  {
    if value != [] { EncodedIsFree(value[1..]); }
  }

  /** The characters that would change which route is addressed. */
  const ESCAPED := {'/', '?', '#', '%', ' '}

  predicate IsEscape(s: string) {
    s == "%2F" || s == "%3F" || s == "%23" || s == "%25" || s == "%20"
  }

  /** Each `%` begins an escape. */
  predicate OnlyEscapes(s: string) {
    forall i | 0 <= i < |s| && s[i] == '%' :: i + 3 <= |s| && IsEscape(s[i..i + 3])
  }

  /** An encoded value has none of those characters but the `%` of its escapes. */
  lemma {:induction false} EncodedIsSafe(value: string)
    ensures forall c | c in ESCAPED && c != '%' :: Free(Encode(value), c)
    ensures OnlyEscapes(Encode(value))
  {
    if value != [] {
      EncodedIsSafe(value[1..]);
      EncodedCharIsSafe(value[0]);
      EscapesAdd(EncodeChar(value[0]), Encode(value[1..]));
    }
  }

  lemma EncodedCharIsSafe(c: char)
    ensures forall d | d in ESCAPED && d != '%' :: Free(EncodeChar(c), d)
    ensures OnlyEscapes(EncodeChar(c))
  {
    var s := EncodeChar(c);
    assert |s| == 3 ==> s[0..3] == s;
  }

  lemma EscapesAdd(a: string, b: string)
    requires OnlyEscapes(a) && OnlyEscapes(b)
    ensures OnlyEscapes(a + b)
  {
    var s := a + b;
    forall i | 0 <= i < |s| && s[i] == '%' ensures i + 3 <= |s| && IsEscape(s[i..i + 3]) {
      if i < |a| {
        assert s[i..i + 3] == a[i..i + 3];
      } else {
        assert s[i..i + 3] == b[i - |a|..i - |a| + 3];
      }
    }
  }

  /** A value with none of those characters is sent as it is. */
  lemma {:induction false} OrdinaryIsUnchanged(value: string)
    requires FreeOf(value, ESCAPED)
    ensures Encode(value) == value
  {
    if value != [] {
      assert value[0] !in ESCAPED && value == [value[0]] + value[1..];
      OrdinaryIsUnchanged(value[1..]);
    }
  }

  lemma {:induction false} PassesOver(text: string, rest: string, name: string, to: string)
    requires Free(text, '{')
    ensures Replace(text + rest, Placeholder(name), to) == text + Replace(rest, Placeholder(name), to)
  {
    if text == [] {
      assert text + rest == rest;
    } else {
      hide Replace;
      var s, pat := text + rest, Placeholder(name);
      assert s[0] == text[0] != pat[0];
      var n, head := Step(s, pat, to);
      assert s[1..] == text[1..] + rest && text == [text[0]] + text[1..];
      PassesOver(text[1..], rest, name, to);
      Associates([text[0]], text[1..], Replace(rest, pat, to));
    }
  }

  lemma SameName(a: string, b: string, rest: string)
    requires BraceFree(a) && BraceFree(b)
    ensures Placeholder(b) <= Placeholder(a) + rest <==> a == b
  {
    var s, pat := Placeholder(a) + rest, Placeholder(b);
    assert forall i | 0 <= i < |a| :: s[i + 1] == a[i];
    assert forall i | 0 <= i < |b| :: pat[i + 1] == b[i];
    assert s[|a| + 1] == '}' && pat[|b| + 1] == '}';
    assert Placeholder(a) <= s;
    if pat <= s {
      assert s[|b| + 1] == '}';
      assert |a| <= |b|;
      assert pat[|a| + 1] == '}';
      assert a == s[1..|a| + 1] && b == pat[1..|b| + 1];
    }
  }

  lemma ReplaceAtHole(hole: string, rest: string, name: string, to: string)
    requires BraceFree(hole) && BraceFree(name)
    ensures Replace(Placeholder(hole) + rest, Placeholder(name), to)
         == (if hole == name then to else Placeholder(hole)) + Replace(rest, Placeholder(name), to)
  {
    var s, pat := Placeholder(hole) + rest, Placeholder(name);
    SameName(hole, name, rest);
    if hole == name {
      assert s[|pat|..] == rest;
    } else {
      var tail := hole + "}";
      assert s == ['{'] + (tail + rest);
      assert s[1..] == tail + rest;
      PassesOver(tail, rest, name, to);
      if |s| < |pat| {
        assert Replace(tail + rest, pat, to) == tail + rest;
      }
      assert Placeholder(hole) == ['{'] + tail;
    }
  }

  /** No match of a pattern spans a place where its tail cannot go on. */
  lemma {:induction false} ReplaceSplits(a: string, b: string, pat: string, to: string)
    requires pat != [] && (b != [] ==> Free(pat[1..], b[0]))
    ensures Replace(a + b, pat, to) == Replace(a, pat, to) + Replace(b, pat, to)
    decreases |a|
  {
    if a == [] {
      assert a + b == b;
    } else {
      hide Replace, Free;
      var n, head := StepOfBoth(a, b, pat, to);
      ReplaceSplits(a[n..], b, pat, to);
      Associates(head, Replace(a[n..], pat, to), Replace(b, pat, to));
    }
  }

  // Its first step is the same with more behind.
  lemma StepOfBoth(a: string, b: string, pat: string, to: string) returns (n: nat, head: string)
    requires pat != [] && a != [] && (b != [] ==> Free(pat[1..], b[0]))
    ensures 0 < n <= |a|
    ensures Replace(a, pat, to) == head + Replace(a[n..], pat, to)
    ensures Replace(a + b, pat, to) == head + Replace(a[n..] + b, pat, to)
  {
    hide Replace, Free;
    NoSpan(a, b, pat);
    n, head := Step(a, pat, to);
    var m, same := Step(a + b, pat, to);
    assert (a + b)[n..] == a[n..] + b;
  }

  lemma NoSpan(a: string, b: string, pat: string)
    requires pat != [] && a != [] && (b != [] ==> Free(pat[1..], b[0]))
    ensures pat <= a + b <==> pat <= a
  {
    var s := a + b;
    if |pat| <= |a| {
      assert s[..|pat|] == a[..|pat|];
    } else if |pat| <= |s| {
      assert pat[1..][|a| - 1] != b[0];
      assert pat[|a|] != s[|a|];
    }
  }

  // What `Replace` does first: it takes `n` characters and puts `head`.
  lemma Step(s: string, pat: string, to: string) returns (n: nat, head: string)
    requires pat != [] && s != []
    ensures if pat <= s then n == |pat| && head == to else n == 1 && head == [s[0]]
    ensures n <= |s| && s[..n] == if pat <= s then pat else head
    ensures Replace(s, pat, to) == head + Replace(s[n..], pat, to)
  {
    n, head := if pat <= s then |pat| else 1, if pat <= s then to else [s[0]];
    if |s| < |pat| {
      assert s == [s[0]] + s[1..];
    }
  }

  lemma LookupOne(p: Param, name: string)
    ensures Lookup([p], name) == if p.name == name then Some(p.value) else None
  {
    assert [p][1..] == [];
  }

  lemma {:induction false} ReplaceFillsOne(t: Template, p: Param)
    requires WellFormed(t) && BraceFree(p.name)
    ensures Replace(Render(t), Placeholder(p.name), Encode(p.value)) == Render(Fill(t, [p]))
  {
    if t != [] {
      ReplaceFillsOne(t[1..], p);
      assert Fill(t, [p])[1..] == Fill(t[1..], [p]);
      match t[0]
      case Literal(text) => PassesOver(text, Render(t[1..]), p.name, Encode(p.value));
      case Hole(name) =>
        LookupOne(p, name);
        ReplaceAtHole(name, Render(t[1..]), p.name, Encode(p.value));
    }
  }

  /** One after another is all at once, the first binding of a name winning. */
  lemma {:induction false} InTurnIsAtOnce(t: Template, params: seq<Param>)
    requires WellFormed(t) && Usable(params)
    ensures InTurn(Render(t), params) == Render(Fill(t, params))
    decreases |params|
  {
    if params == [] {
      assert Fill(t, []) == t;
    } else {
      var p, rest := params[0], params[1..];
      EncodedIsFree(p.value);
      ReplaceFillsOne(t, p);
      forall i | 0 <= i < |t|
        ensures WellFormedPiece(FillPiece(t[i], [p]))
        ensures FillPiece(FillPiece(t[i], [p]), rest) == FillPiece(t[i], params)
      {
        if t[i].Hole? { LookupOne(p, t[i].name); }
      }
      InTurnIsAtOnce(Fill(t, [p]), rest);
      assert Fill(Fill(t, [p]), rest) == Fill(t, params);
    }
  }

  lemma RenderTwo(a: Piece, b: Piece)
    ensures Render([a, b]) == RenderPiece(a) + RenderPiece(b)
  {
    assert [a, b][1..] == [b] && [b][1..] == [];
    assert Render([b]) == RenderPiece(b) + Render([]);
    assert RenderPiece(b) + [] == RenderPiece(b);
  }

  lemma FillTwo(a: Piece, b: Piece, p: Param)
    requires WellFormed([a, b]) && BraceFree(p.name)
    ensures Replace(RenderPiece(a) + RenderPiece(b), Placeholder(p.name), Encode(p.value))
         == RenderPiece(FillPiece(a, [p])) + RenderPiece(FillPiece(b, [p]))
  {
    ReplaceFillsOne([a, b], p);
    RenderTwo(a, b);
    assert Fill([a, b], [p]) == [FillPiece(a, [p]), FillPiece(b, [p])];
    RenderTwo(FillPiece(a, [p]), FillPiece(b, [p]));
  }

  /** A value that looks like a placeholder is bound again: the condition on values
      cannot be dropped. */
  lemma PlaceholderLikeValueIsBoundAgain()
    ensures var t := [Hole("a"), Hole("b")];
      var params := [Param("a", "{b}"), Param("b", "x")];
      && WellFormed(t)
      && InTurn(Render(t), params) == "xx"
      && Render(Fill(t, params)) == "{b}x"
  {
    var p, q := Param("a", "{b}"), Param("b", "x");
    hide Replace, Encode, Render, Lookup, InTurn;
    NothingToEncode();
    LookupOne(p, "a");
    LookupOne(p, "b");
    LookupOne(q, "b");
    LookupTwo(p, q, "a");
    LookupTwo(p, q, "b");
    assert Placeholder("b") == "{b}" && "x" + "x" == "xx" && "{b}" + "x" == "{b}x";
    RenderTwo(Hole("a"), Hole("b"));
    FillTwo(Hole("a"), Hole("b"), p);
    FillTwo(Hole("b"), Hole("b"), q);
    InTurnTwo(Render([Hole("a"), Hole("b")]), p, q);
    assert [p, q][1..] == [q];
    assert Fill([Hole("a"), Hole("b")], [p, q]) == [Literal("{b}"), Literal("x")];
    RenderTwo(Literal("{b}"), Literal("x"));
  }

  lemma NothingToEncode()
    ensures Encode("{b}") == "{b}" && Encode("x") == "x"
  {
    assert "{b}"[1..] == "b}" && "b}"[1..] == "}" && "}"[1..] == "" && "x"[1..] == "";
    assert Encode("}") == "}" && Encode("b}") == "b}";
  }

  lemma LookupTwo(p: Param, q: Param, name: string)
    ensures Lookup([p, q], name) == if p.name == name then Some(p.value) else Lookup([q], name)
  {
    assert [p, q][1..] == [q];
  }

  lemma InTurnTwo(path: string, p: Param, q: Param)
    ensures InTurn(path, [p, q])
         == Replace(Replace(path, Placeholder(p.name), Encode(p.value)), Placeholder(q.name), Encode(q.value))
  {
    assert [p, q][1..] == [q] && [q][1..] == [];
    var once := Replace(path, Placeholder(p.name), Encode(p.value));
    assert InTurn(once, [q]) == InTurn(Replace(once, Placeholder(q.name), Encode(q.value)), []);
  }

  // ---- Nothing left over, nothing re-routed -------------------------------

  predicate IsBound(params: seq<Param>, name: string) {
    Lookup(params, name).Some?
  }

  lemma {:induction false} RenderFree(t: Template, c: char)
    ensures Free(Render(t), c) <==> forall i | 0 <= i < |t| :: Free(RenderPiece(t[i]), c)
  {
    if t != [] {
      RenderFree(t[1..], c);
      FreeAppend(RenderPiece(t[0]), Render(t[1..]), c);
      assert t == [t[0]] + t[1..];
    }
  }

  lemma FreeAppend(a: string, b: string, c: char)
    ensures Free(a + b, c) <==> Free(a, c) && Free(b, c)
  {
    assert forall k | 0 <= k < |a| :: a[k] == (a + b)[k];
    assert forall k | 0 <= k < |b| :: b[k] == (a + b)[|a| + k];
  }

  lemma {:induction false} LookupIsGiven(params: seq<Param>, name: string)
    requires IsBound(params, name)
    ensures exists i | 0 <= i < |params| ::
      params[i].name == name && Lookup(params, name) == Some(params[i].value)
  {
    if params[0].name != name {
      LookupIsGiven(params[1..], name);
      var i :| 0 <= i < |params[1..]| && params[1..][i].name == name
             && Lookup(params[1..], name) == Some(params[1..][i].value);
      assert params[i + 1] == params[1..][i];
    }
  }

  lemma FilledPieceIsOpen(piece: Piece, params: seq<Param>)
    requires WellFormedPiece(piece) && Usable(params)
    ensures Free(RenderPiece(FillPiece(piece, params)), '{')
       <==> piece.Literal? || IsBound(params, piece.name)
  {
    if piece.Hole? {
      if IsBound(params, piece.name) {
        LookupIsGiven(params, piece.name);
        EncodedIsFree(Lookup(params, piece.name).value);
      } else {
        assert Placeholder(piece.name)[0] == '{';
      }
    }
  }

  /** A placeholder that no parameter names survives, whatever the values hold. */
  lemma {:induction false} UnboundSurvives(a: string, name: string, b: string, params: seq<Param>)
    requires BraceFree(name) && !IsBound(params, name)
    requires forall i | 0 <= i < |params| :: BraceFree(params[i].name)
    ensures !Free(InTurn(a + Placeholder(name) + b, params), '{')
    decreases |params|
  {
    hide Replace, BraceFree;
    if params == [] {
      assert (a + Placeholder(name) + b)[|a|] == '{';
    } else {
      var p := params[0];
      var pat, to := Placeholder(p.name), Encode(p.value);
      ReplaceAround(a, name, b, p.name, to);
      UnboundSurvives(Replace(a, pat, to), name, Replace(b, pat, to), params[1..]);
    }
  }

  lemma ReplaceAround(a: string, hole: string, b: string, name: string, to: string)
    requires BraceFree(hole) && BraceFree(name) && hole != name
    ensures var pat := Placeholder(name);
      Replace(a + Placeholder(hole) + b, pat, to) == Replace(a, pat, to) + Placeholder(hole) + Replace(b, pat, to)
  {
    hide Replace;
    var pat := Placeholder(name);
    Associates(a, Placeholder(hole), b);
    assert forall i | 0 <= i < |name| :: pat[1..][i] == name[i];
    ReplaceSplits(a, Placeholder(hole) + b, pat, to);
    ReplaceAtHole(hole, b, name, to);
    Associates(Replace(a, pat, to), Placeholder(hole), Replace(b, pat, to));
  }

  lemma {:induction false} RenderAround(t: Template, i: nat) returns (a: string, b: string)
    requires i < |t|
    ensures Render(t) == a + RenderPiece(t[i]) + b
  {
    if i == 0 {
      a, b := [], Render(t[1..]);
    } else {
      hide RenderPiece;
      var head := RenderPiece(t[0]);
      a, b := RenderAround(t[1..], i - 1);
      assert t[1..][i - 1] == t[i];
      Associates(head, a + RenderPiece(t[i]), b);
      Associates(head, a, RenderPiece(t[i]));
      a := head + a;
    }
  }

  predicate AllBound(t: Template, params: seq<Param>) {
    forall i | 0 <= i < |t| :: t[i].Hole? ==> IsBound(params, t[i].name)
  }

  /** The debug assertion of `bind` catches every placeholder that is not among the
      parameters, whatever the values hold, and nothing else when they hold no `{`. */
  lemma NoBraceLeft(t: Template, params: seq<Param>)
    requires WellFormed(t) && forall i | 0 <= i < |params| :: BraceFree(params[i].name)
    ensures Free(InTurn(Render(t), params), '{') ==> AllBound(t, params)
    ensures Usable(params) && AllBound(t, params) ==> Free(InTurn(Render(t), params), '{')
  {
    forall i | 0 <= i < |t| && t[i].Hole? && !IsBound(params, t[i].name)
      ensures !Free(InTurn(Render(t), params), '{')
    {
      var a, b := RenderAround(t, i);
      UnboundSurvives(a, t[i].name, b, params);
    }
    if Usable(params) && AllBound(t, params) {
      NoBraceLeftOf(t, params);
    }
  }

  lemma NoBraceLeftOf(t: Template, params: seq<Param>)
    requires WellFormed(t) && Usable(params) && AllBound(t, params)
    ensures Free(InTurn(Render(t), params), '{')
  {
    InTurnIsAtOnce(t, params);
    var filled := Fill(t, params);
    RenderFree(filled, '{');
    forall i | 0 <= i < |t| ensures Free(RenderPiece(filled[i]), '{') {
      FilledPieceIsOpen(t[i], params);
    }
  }

  function Count(s: string, c: char): nat {
    if s == [] then 0 else (if s[0] == c then 1 else 0) + Count(s[1..], c)
  }

  lemma {:induction false} CountAdds(a: string, b: string, c: char)
    ensures Count(a + b, c) == Count(a, c) + Count(b, c)
  {
    if a == [] {
      assert a + b == b;
    } else {
      CountAdds(a[1..], b, c);
      assert (a + b)[1..] == a[1..] + b;
    }
  }

  lemma {:induction false} CountsNone(s: string, c: char)
    ensures Count(s, c) == 0 <==> Free(s, c)
  {
    if s != [] {
      CountsNone(s[1..], c);
      assert s == [s[0]] + s[1..];
    }
  }

  lemma {:induction false} ReplaceKeepsCount(s: string, pat: string, to: string, c: char)
    requires pat != [] && Free(pat, c) && Free(to, c)
    ensures Count(Replace(s, pat, to), c) == Count(s, c)
    decreases |s|
  {
    if s != [] {
      hide Replace;
      var n, head := Step(s, pat, to);
      ReplaceKeepsCount(s[n..], pat, to, c);
      assert s == s[..n] + s[n..];
      CountAdds(s[..n], s[n..], c);
      CountAdds(head, Replace(s[n..], pat, to), c);
      if pat <= s {
        CountsNone(pat, c);
        CountsNone(to, c);
      }
    }
  }

  /** Of the characters that would change which route is addressed, binding brings none in
      and takes none away, whatever the path and the values hold. */
  lemma {:induction false} MarksArePreserved(path: string, params: seq<Param>, c: char)
    requires c in ESCAPED && c != '%'
    requires forall i | 0 <= i < |params| :: Free(params[i].name, c)
    ensures Count(InTurn(path, params), c) == Count(path, c)
    decreases |params|
  {
    if params != [] {
      var p := params[0];
      EncodedIsSafe(p.value);
      ReplaceKeepsCount(path, Placeholder(p.name), Encode(p.value), c);
      MarksArePreserved(Replace(path, Placeholder(p.name), Encode(p.value)), params[1..], c);
    }
  }

  /** In particular no path separator. */
  lemma SlashesArePreserved(path: string, params: seq<Param>)
    requires forall i | 0 <= i < |params| :: Free(params[i].name, '/')
    ensures Count(InTurn(path, params), '/') == Count(path, '/')
  {
    MarksArePreserved(path, params, '/');
  }

  // ---- Values come back out of the path ----------------------------------

  function Hex(c: char): int {
    if IsDigit(c) then c as int - '0' as int
    else if 'A' <= c <= 'F' then c as int - 'A' as int + 10
    else if 'a' <= c <= 'f' then c as int - 'a' as int + 10
    else -1
  }

  /** Percent-decoding, section 2.1 of RFC 3986. */
  function Decode(s: string): string {
    if s == [] then []
    else if s[0] == '%' && |s| >= 3 && Hex(s[1]) >= 0 && Hex(s[2]) >= 0 then
      [(16 * Hex(s[1]) + Hex(s[2])) as char] + Decode(s[3..])
    else [s[0]] + Decode(s[1..])
  }

  lemma {:induction false} DecodeEncode(value: string)
    ensures Decode(Encode(value)) == value
  {
    if value != [] {
      hide EncodeChar, Decode;
      DecodeEncode(value[1..]);
      DecodeOne(value[0], Encode(value[1..]));
      assert value == [value[0]] + value[1..];
    }
  }

  lemma DecodeOne(c: char, rest: string)
    ensures Decode(EncodeChar(c) + rest) == [c] + Decode(rest)
  {
    var head := EncodeChar(c);
    var s := head + rest;
    if |head| == 3 {
      assert s[0] == head[0] && s[1] == head[1] && s[2] == head[2] && s[3..] == rest;
    } else {
      assert s[0] == head[0] && s[1..] == rest;
    }
  }

  function Join(parts: seq<string>): string {
    if parts == [] then ""
    else if |parts| == 1 then parts[0]
    else parts[0] + "/" + Join(parts[1..])
  }

  lemma {:induction false} SplitJoin(parts: seq<string>)
    requires parts != [] && forall i | 0 <= i < |parts| :: Free(parts[i], '/')
    ensures Split(Join(parts), {'/'}) == parts
  {
    if |parts| == 1 {
      SplitLast(parts[0], {'/'});
    } else {
      SplitJoin(parts[1..]);
      SplitAfter(parts[0], '/', Join(parts[1..]), {'/'});
    }
  }

  /** Each placeholder is a whole segment. */
  predicate WholeSegment(piece: Piece) {
    WellFormedPiece(piece)
    && Free(match piece case Literal(text) => text case Hole(name) => name, '/')
  }

  predicate WholeSegments(segments: seq<Piece>) {
    forall i | 0 <= i < |segments| :: WholeSegment(segments[i])
  }

  function Texts(segments: seq<Piece>): (r: seq<string>)
    ensures |r| == |segments|
    ensures forall i | 0 <= i < |r| :: r[i] == RenderPiece(segments[i])
  {
    seq(|segments|, i requires 0 <= i < |segments| => RenderPiece(segments[i]))
  }

  // ---- Binding is segment by segment --------------------------------------

  function InTurnEach(parts: seq<string>, params: seq<Param>): (r: seq<string>)
    ensures |r| == |parts| && forall i | 0 <= i < |r| :: r[i] == InTurn(parts[i], params)
  {
    seq(|parts|, i requires 0 <= i < |parts| => InTurn(parts[i], params))
  }

  function ReplaceEach(parts: seq<string>, pat: string, to: string): (r: seq<string>)
    requires pat != []
    ensures |r| == |parts| && forall i | 0 <= i < |r| :: r[i] == Replace(parts[i], pat, to)
  {
    seq(|parts|, i requires 0 <= i < |parts| => Replace(parts[i], pat, to))
  }

  lemma {:induction false} ReplaceInSegments(parts: seq<string>, name: string, to: string)
    requires parts != [] && Free(name, '/')
    ensures Replace(Join(parts), Placeholder(name), to) == Join(ReplaceEach(parts, Placeholder(name), to))
  {
    var pat := Placeholder(name);
    if |parts| > 1 {
      var tail := "/" + Join(parts[1..]);
      assert Join(parts) == parts[0] + tail;
      ReplaceInSegments(parts[1..], name, to);
      ReplaceSplits(parts[0], tail, pat, to);
      PassesOver("/", Join(parts[1..]), name, to);
      assert ReplaceEach(parts, pat, to)[1..] == ReplaceEach(parts[1..], pat, to);
    }
  }

  /** Binding a path is binding each of its segments, whatever they and the values hold. */
  lemma {:induction false} BindsBySegment(parts: seq<string>, params: seq<Param>)
    requires parts != [] && forall i | 0 <= i < |params| :: Free(params[i].name, '/')
    ensures InTurn(Join(parts), params) == Join(InTurnEach(parts, params))
    decreases |params|
  {
    if params == [] {
      assert InTurnEach(parts, params) == parts;
    } else {
      var p := params[0];
      var once := ReplaceEach(parts, Placeholder(p.name), Encode(p.value));
      ReplaceInSegments(parts, p.name, Encode(p.value));
      BindsBySegment(once, params[1..]);
      assert InTurnEach(once, params[1..]) == InTurnEach(parts, params);
    }
  }

  /** The parameters after the one that binds the name. */
  function Later(params: seq<Param>, name: string): seq<Param> {
    if params == [] then []
    else if params[0].name == name then params[1..]
    else Later(params[1..], name)
  }

  /** A bound value once the later parameters had their turn on it. */
  function Settled(params: seq<Param>, name: string): string
    requires IsBound(params, name)
  {
    InTurn(Encode(Lookup(params, name).value), Later(params, name))
  }

  /** No later parameter changes the value that the name is bound to. */
  predicate LeftAlone(params: seq<Param>, name: string) {
    IsBound(params, name) ==> Settled(params, name) == Encode(Lookup(params, name).value)
  }

  lemma {:induction false} LiteralStays(text: string, params: seq<Param>)
    requires Free(text, '{')
    ensures InTurn(text, params) == text
    decreases |params|
  {
    if params != [] {
      var p := params[0];
      PassesOver(text, "", p.name, Encode(p.value));
      assert text + "" == text && text + Replace("", Placeholder(p.name), Encode(p.value)) == text;
      LiteralStays(text, params[1..]);
    }
  }

  lemma {:induction false} HoleInTurn(name: string, params: seq<Param>)
    requires BraceFree(name) && forall i | 0 <= i < |params| :: BraceFree(params[i].name)
    ensures InTurn(Placeholder(name), params) ==
      if IsBound(params, name) then Settled(params, name) else Placeholder(name)
    decreases |params|
  {
    if params != [] {
      var p := params[0];
      var to := Encode(p.value);
      ReplaceAtHole(name, "", p.name, to);
      assert Placeholder(name) + "" == Placeholder(name);
      assert Replace("", Placeholder(p.name), to) == "" && to + "" == to;
      if p.name != name { HoleInTurn(name, params[1..]); }
    }
  }

  function BoundPart(piece: Piece, params: seq<Param>): string {
    match piece
    case Literal(text) => text
    case Hole(name) => if IsBound(params, name) then Settled(params, name) else Placeholder(name)
  }

  function BoundParts(segments: seq<Piece>, params: seq<Param>): (r: seq<string>)
    ensures |r| == |segments| && forall i | 0 <= i < |r| :: r[i] == BoundPart(segments[i], params)
  {
    seq(|segments|, i requires 0 <= i < |segments| => BoundPart(segments[i], params))
  }

  /** What a bound path consists of, whatever the values hold. */
  lemma PartsOfBoundPath(segments: seq<Piece>, params: seq<Param>)
    requires segments != [] && WholeSegments(segments) && Named(params)
    ensures InTurn(Join(Texts(segments)), params) == Join(BoundParts(segments, params))
    ensures Split(InTurn(Join(Texts(segments)), params), {'/'}) == BoundParts(segments, params)
    ensures forall i | 0 <= i < |segments| :: Free(BoundPart(segments[i], params), '/')
  {
    var texts := Texts(segments);
    BindsBySegment(texts, params);
    forall i | 0 <= i < |segments|
      ensures InTurn(texts[i], params) == BoundPart(segments[i], params)
      ensures Free(BoundPart(segments[i], params), '/')
    {
      PartOf(segments[i], params);
    }
    assert InTurnEach(texts, params) == BoundParts(segments, params);
    SplitJoin(BoundParts(segments, params));
  }

  lemma PartOf(piece: Piece, params: seq<Param>)
    requires WholeSegment(piece) && Named(params)
    ensures InTurn(RenderPiece(piece), params) == BoundPart(piece, params)
    ensures Free(BoundPart(piece, params), '/')
  {
    match piece {
      case Literal(text) => LiteralStays(text, params);
      case Hole(name) => HoleInTurn(name, params);
    }
    SlashesArePreserved(RenderPiece(piece), params);
    CountsNone(RenderPiece(piece), '/');
    CountsNone(BoundPart(piece, params), '/');
  }

  lemma FilledPart(piece: Piece, params: seq<Param>)
    requires WholeSegment(piece)
    ensures Free(RenderPiece(FillPiece(piece, params)), '/')
    ensures RenderPiece(FillPiece(piece, params)) == BoundPart(piece, params) <==>
      piece.Literal? || LeftAlone(params, piece.name)
  {
    if piece.Hole? && IsBound(params, piece.name) {
      EncodedIsFree(Lookup(params, piece.name).value);
    }
  }

  /** Where placeholders are whole segments, one after another is all at once if and only if
      each bound value is left alone by the parameters after its own. */
  lemma AtOnceExactly(segments: seq<Piece>, params: seq<Param>)
    requires segments != [] && WholeSegments(segments) && Named(params)
    ensures InTurn(Join(Texts(segments)), params) == Join(Texts(Fill(segments, params))) <==>
      forall i | 0 <= i < |segments| :: segments[i].Hole? ==> LeftAlone(params, segments[i].name)
  {
    hide Split, Join, InTurn, LeftAlone, WholeSegment;
    var bound, filled := BoundParts(segments, params), Texts(Fill(segments, params));
    PartsOfBoundPath(segments, params);
    forall i | 0 <= i < |segments|
      ensures Free(filled[i], '/')
      ensures filled[i] == bound[i] <==> segments[i].Literal? || LeftAlone(params, segments[i].name)
    {
      FilledPart(segments[i], params);
    }
    SplitJoin(filled);
    assert Join(bound) == Join(filled) <==> bound == filled;
  }

  predicate Occurs(pat: string, s: string) {
    exists k :: 0 <= k <= |s| && pat <= s[k..]
  }

  /** A text of which no placeholder of the parameters is part. */
  predicate Untouched(text: string, params: seq<Param>) {
    forall i | 0 <= i < |params| :: !Occurs(Placeholder(params[i].name), text)
  }

  lemma OccursLater(pat: string, s: string)
    requires s != []
    ensures Occurs(pat, s) <==> pat <= s || Occurs(pat, s[1..])
  {
    assert s[0..] == s;
    if k :| 0 < k <= |s| && pat <= s[k..] {
      assert s[1..][k - 1..] == s[k..];
    }
    if k :| 0 <= k <= |s[1..]| && pat <= s[1..][k..] {
      assert s[1..][k..] == s[k + 1..];
    }
  }

  lemma {:induction false} NothingToReplace(s: string, pat: string, to: string)
    requires pat != [] && !Occurs(pat, s)
    ensures Replace(s, pat, to) == s
  {
    if s != [] {
      hide Replace, Occurs;
      OccursLater(pat, s);
      var n, head := Step(s, pat, to);
      NothingToReplace(s[1..], pat, to);
      assert s == [s[0]] + s[1..];
    }
  }

  /** A match takes its opening brace away for good when its replacement brings none. */
  lemma {:induction false} ReplaceTakesBraces(s: string, name: string, to: string)
    requires BraceFree(name) && Free(to, '{')
    ensures var after := Count(Replace(s, Placeholder(name), to), '{');
      if Occurs(Placeholder(name), s) then after < Count(s, '{') else after == Count(s, '{')
    decreases |s|
  {
    var pat := Placeholder(name);
    PlaceholderOpens(name);
    NothingOccurs(pat, to);
    hide Replace, Occurs, Count, Free, BraceFree, Placeholder;
    if s != [] {
      OccursLater(pat, s);
      var n, head := Step(s, pat, to);
      ReplaceTakesBraces(s[n..], name, to);
      assert s == s[..n] + s[n..];
      CountAdds(s[..n], s[n..], '{');
      CountAdds(head, Replace(s[n..], pat, to), '{');
      CountsNone(to, '{');
    }
  }

  lemma NothingOccurs(pat: string, to: string)
    requires pat != []
    ensures !Occurs(pat, "") && Replace("", pat, to) == "" && Count("", '{') == 0
  {
  }

  lemma PlaceholderOpens(name: string)
    ensures Placeholder(name) != [] && Count(Placeholder(name), '{') >= 1
  {
    CountsNone(Placeholder(name), '{');
    assert Placeholder(name)[0] == '{';
  }

  lemma {:induction false} UntouchedStays(text: string, params: seq<Param>)
    requires Untouched(text, params)
    ensures InTurn(text, params) == text
    decreases |params|
  {
    if params != [] {
      hide Occurs, Replace;
      NothingToReplace(text, Placeholder(params[0].name), Encode(params[0].value));
      assert forall i | 0 <= i < |params[1..]| :: params[1..][i] == params[i + 1];
      UntouchedStays(text, params[1..]);
    }
  }

  lemma {:induction false} TouchedChanges(text: string, params: seq<Param>)
    requires Usable(params)
    ensures Count(InTurn(text, params), '{') <= Count(text, '{')
    ensures !Untouched(text, params) ==> Count(InTurn(text, params), '{') < Count(text, '{')
    decreases |params|
  {
    if params != [] {
      hide Occurs, Replace, BraceFree;
      var p, rest := params[0], params[1..];
      EncodedIsFree(p.value);
      ReplaceTakesBraces(text, p.name, Encode(p.value));
      TouchedChanges(Replace(text, Placeholder(p.name), Encode(p.value)), rest);
      if !Occurs(Placeholder(p.name), text) {
        NothingToReplace(text, Placeholder(p.name), Encode(p.value));
        assert Untouched(text, rest) ==> Untouched(text, params) by {
          assert forall i | 0 < i < |params| :: params[i] == rest[i - 1];
        }
      }
    }
  }

  /** A value is left alone when no later placeholder is part of its encoded text, and only
      then when no later value has a `{`. A value without `{` always is. */
  lemma WhatIsLeftAlone(params: seq<Param>, name: string)
    requires IsBound(params, name)
    ensures var text, later := Encode(Lookup(params, name).value), Later(params, name);
      && (Untouched(text, later) ==> LeftAlone(params, name))
      && (Usable(later) ==> (LeftAlone(params, name) <==> Untouched(text, later)))
    ensures Free(Lookup(params, name).value, '{') ==> LeftAlone(params, name)
  {
    var value := Lookup(params, name).value;
    var text, later := Encode(value), Later(params, name);
    if Untouched(text, later) {
      UntouchedStays(text, later);
    }
    if Usable(later) {
      TouchedChanges(text, later);
    }
    if Free(value, '{') {
      EncodedIsFree(value);
      LiteralStays(text, later);
    }
  }

  // ---- What comes back ----------------------------------------------------

  /** A part of the path that spells the value. */
  predicate Spells(part: string, value: string) {
    Decode(part) == value
  }

  /** What a part of a bound path says about the segment it was made from. */
  predicate ComesBack(part: string, piece: Piece, params: seq<Param>) {
    match piece
    case Literal(text) => part == text
    case Hole(name) =>
      IsBound(params, name) && LeftAlone(params, name) ==> Spells(part, Lookup(params, name).value)
  }

  /** Splitting a bound path gives back each segment: text as it was, and each value that
      is left alone once decoded. */
  lemma ValuesComeBack(segments: seq<Piece>, params: seq<Param>)
    requires segments != [] && WholeSegments(segments) && Named(params)
    ensures var parts := Split(InTurn(Join(Texts(segments)), params), {'/'});
      && |parts| == |segments|
      && forall i | 0 <= i < |segments| :: ComesBack(parts[i], segments[i], params)
  {
    hide InTurn, Join, Split, WholeSegment, Decode;
    PartsOfBoundPath(segments, params);
    forall i | 0 <= i < |segments| && segments[i].Hole? && IsBound(params, segments[i].name)
      ensures ComesBack(BoundPart(segments[i], params), segments[i], params)
    {
      DecodeEncode(Lookup(params, segments[i].name).value);
    }
  }

  lemma {:induction false} JoinFree(parts: seq<string>, c: char)
    requires c != '/'
    ensures Free(Join(parts), c) <==> forall i | 0 <= i < |parts| :: Free(parts[i], c)
  {
    if |parts| > 1 {
      JoinFree(parts[1..], c);
      FreeAppend(parts[0] + "/", Join(parts[1..]), c);
      FreeAppend(parts[0], "/", c);
      assert parts == [parts[0]] + parts[1..];
    }
  }

  /** For a path given by its segments, the debug assertion holds if and only if every
      placeholder is bound and its value, settled, has no `{`. */
  lemma NoBraceLeftInSegments(segments: seq<Piece>, params: seq<Param>)
    requires segments != [] && WholeSegments(segments) && Named(params)
    ensures Free(InTurn(Join(Texts(segments)), params), '{') <==>
      forall i | 0 <= i < |segments| :: segments[i].Hole? ==>
        IsBound(params, segments[i].name) && Free(Settled(params, segments[i].name), '{')
  {
    hide InTurn, Join, Split, Settled, IsBound;
    var parts := BoundParts(segments, params);
    PartsOfBoundPath(segments, params);
    JoinFree(parts, '{');
    forall i | 0 <= i < |segments|
      ensures Free(parts[i], '{') <==>
        segments[i].Literal?
        || (IsBound(params, segments[i].name) && Free(Settled(params, segments[i].name), '{'))
    {
      if segments[i].Hole? { assert Placeholder(segments[i].name)[0] == '{'; }
    }
  }

  /** No two ways of binding a route's placeholders address the same path, as far as their
      values are left alone. */
  lemma BindingIsInjective(segments: seq<Piece>, a: seq<Param>, b: seq<Param>, name: string)
    requires segments != [] && WholeSegments(segments) && Named(a) && Named(b)
    requires Hole(name) in segments && IsBound(a, name) && IsBound(b, name)
    requires LeftAlone(a, name) && LeftAlone(b, name)
    requires InTurn(Join(Texts(segments)), a) == InTurn(Join(Texts(segments)), b)
    ensures Lookup(a, name) == Lookup(b, name)
  {
    ValuesComeBack(segments, a);
    ValuesComeBack(segments, b);
    var i :| 0 <= i < |segments| && segments[i] == Hole(name);
    var part := Split(InTurn(Join(Texts(segments)), a), {'/'})[i];
    assert ComesBack(part, segments[i], a) && ComesBack(part, segments[i], b);
  }

  function Slashes(n: nat): (s: string)
    ensures |s| == n && forall i | 0 <= i < n :: s[i] == '/'
  {
    seq(n, _ => '/')
  }

  /** Trimming takes the slashes at both ends, and nothing else. */
  lemma {:induction false} TrimmedIs(s: string) returns (before: nat, after: nat)
    ensures var t := TrimEnd(TrimStart(s));
      && s == Slashes(before) + t + Slashes(after)
      && (t != [] ==> t[0] != '/' && t[|t| - 1] != '/')
  {
    before := TrimmedStart(s);
    after := TrimmedEnd(TrimStart(s));
    var t := TrimEnd(TrimStart(s));
    assert Slashes(before) + (t + Slashes(after)) == Slashes(before) + t + Slashes(after);
    assert t != [] ==> t[0] == TrimStart(s)[0];
  }

  lemma {:induction false} TrimmedStart(s: string) returns (n: nat)
    ensures s == Slashes(n) + TrimStart(s)
    ensures TrimStart(s) != [] ==> TrimStart(s)[0] != '/'
  {
    n := 0;
    if s != [] && s[0] == '/' {
      var m := TrimmedStart(s[1..]);
      n := m + 1;
      assert Slashes(n) == ['/'] + Slashes(m) && s == ['/'] + s[1..];
    }
  }

  lemma {:induction false} TrimmedEnd(s: string) returns (n: nat)
    ensures s == TrimEnd(s) + Slashes(n)
    ensures TrimEnd(s) != [] ==> TrimEnd(s)[|TrimEnd(s)| - 1] != '/'
  {
    n := 0;
    if s != [] && s[|s| - 1] == '/' {
      var m := TrimmedEnd(s[..|s| - 1]);
      n := m + 1;
      assert Slashes(n) == Slashes(m) + ['/'] && s == s[..|s| - 1] + ['/'];
    }
  }

  /** The segments that every path of a route begins with. */
  function Base(route: Route): seq<Piece> {
    [Literal(""), Literal(route.namespace), Literal("v" + Decimal(route.version))]
  }

  /** The path of a route is the slash-joined segments that these results speak of; a
      resource that trims to nothing adds none. */
  lemma PathIsSegments(route: Route, resource: seq<Piece>)
    requires TrimEnd(TrimStart(route.resource)) == Join(Texts(resource))
    ensures Path(route) ==
      Join(Texts(if Join(Texts(resource)) == [] then Base(route) else Base(route) + resource))
  {
    hide Decimal, Join, TrimEnd, TrimStart;
    var version := "v" + Decimal(route.version);
    var base, tail := ["", route.namespace, version], Texts(resource);
    var start := "/" + route.namespace + "/v" + Decimal(route.version);
    assert "" + "/" + route.namespace + "/" + version == start;
    if Join(tail) == [] {
      assert Texts(Base(route)) == base == base + [];
      JoinOntoThree("", route.namespace, version, []);
    } else {
      JoinOfNothing();
      assert Texts(Base(route) + resource) == base + tail;
      JoinOntoThree("", route.namespace, version, tail);
    }
  }

  lemma JoinOfNothing()
    ensures Join([]) == []
  {
  }

  lemma JoinOntoThree(a: string, b: string, c: string, tail: seq<string>)
    ensures Join([a, b, c] + tail) ==
      if tail == [] then a + "/" + b + "/" + c else a + "/" + b + "/" + c + "/" + Join(tail)
  {
    var parts := [a, b, c] + tail;
    assert parts[1..] == [b, c] + tail && ([b, c] + tail)[1..] == [c] + tail && ([c] + tail)[1..] == tail;
    if tail == [] {
      assert Join([c] + tail) == c;
      assert a + "/" + (b + "/" + c) == a + "/" + b + "/" + c;
    } else {
      var rest := Join(tail);
      assert Join([c] + tail) == c + "/" + rest;
      assert a + "/" + (b + "/" + (c + "/" + rest)) == a + "/" + b + "/" + c + "/" + rest;
    }
  }
}
