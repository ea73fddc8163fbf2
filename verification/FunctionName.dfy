/** The client's function names: `{Verb}{Namespace}V{version}{Rest}`, and the parser
    that takes them apart.
 */
module FunctionName {
  import opened Client
  import opened Text

  const VERBS := ["Get", "Post", "Put", "Delete", "Head", "Patch"]
  const U32 := 0x1_0000_0000

  datatype Parsed = Parsed(verb: string, namespace: string, version: nat, rest: string)

  predicate StartsWithVerb(name: string, verb: string) {
    verb <= name && |name| > |verb| && IsUpper(name[|verb|])
  }

  function FirstVerb(table: seq<string>, name: string): Option<string> {
    if table == [] then None
    else if StartsWithVerb(name, table[0]) then Some(table[0])
    else FirstVerb(table[1..], name)
  }

  /** A `V` and a digit, past position 0. */
  predicate Boundary(s: string, at: nat) {
    0 < at && at + 1 < |s| && s[at] == 'V' && IsDigit(s[at + 1])
  }

  function DigitRun(s: string): (n: nat)
    ensures n <= |s| && AllDigits(s[..n])
    ensures n < |s| ==> !IsDigit(s[n])
  {
    if s == [] || !IsDigit(s[0]) then 0 else 1 + DigitRun(s[1..])
  }

  function FirstBoundary(s: string, at: nat): (r: Option<nat>)
    requires at <= |s|
    ensures r.None? ==> forall k | at <= k :: !Boundary(s, k)
    ensures r.Some? ==> at <= r.value && Boundary(s, r.value)
    ensures r.Some? ==> forall k | at <= k < r.value :: !Boundary(s, k)
    decreases |s| - at
  {
    if at == |s| then None else if Boundary(s, at) then Some(at) else FirstBoundary(s, at + 1)
  }

  /** What is cut at a boundary; `None` when the number does not fit 32 bits. */
  function CutAt(verb: string, body: string, at: nat): Option<Parsed>
    requires Boundary(body, at)
  {
    var tail := body[at + 1..];
    var n := DigitRun(tail);
    var version := Number(tail[..n]);
    if version < U32 then Some(Parsed(verb, body[..at], version, tail[n..])) else None
  }

  function Parse(name: string): Option<Parsed> {
    match FirstVerb(VERBS, name)
    case None => None
    case Some(verb) =>
      if |verb| > |name| then None
      else
        var body := name[|verb|..];
        match FirstBoundary(body, 0)
        case None => None
        case Some(at) => CutAt(verb, body, at)
  }

  method ParseFunction(name: string) returns (parsed: Option<Parsed>)
    ensures parsed == Parse(name)
  {
    var verb := FirstVerb(VERBS, name);
    if verb.None? {
      return None;
    }
    VerbIsInTable(VERBS, name);
    var body := name[|verb.value|..];
    var at := 0;
    while at < |body|
      invariant at <= |body|
      invariant FirstBoundary(body, 0) == FirstBoundary(body, at)
    {
      if body[at] == 'V' && at + 1 < |body| && IsDigit(body[at + 1]) && at > 0 {
        var digits := DigitRun(body[at + 1..]);
        var version := Number(body[at + 1..][..digits]);
        if version >= U32 {
          return None;
        }
        return Some(Parsed(verb.value, body[..at], version, body[at + 1..][digits..]));
      }
      at := at + 1;
    }
    return None;
  }

  // ---- The verb ----------------------------------------------------------

  lemma {:induction false} VerbIsInTable(table: seq<string>, name: string)
    ensures match FirstVerb(table, name)
      case Some(verb) => verb in table && StartsWithVerb(name, verb)
      case None => forall verb | verb in table :: !StartsWithVerb(name, verb)
  {
    if table != [] { VerbIsInTable(table[1..], name); }
  }

  /** At most one verb of the table starts a name, so the table's order is of no
      consequence: any arrangement of the same verbs finds the same one. */
  lemma VerbIsUnique(table: seq<string>, name: string)
    requires forall verb :: verb in table <==> verb in VERBS
    ensures FirstVerb(table, name) == FirstVerb(VERBS, name)
  {
    VerbIsInTable(table, name);
    VerbIsInTable(VERBS, name);
    forall v, w | v in VERBS && w in VERBS && StartsWithVerb(name, v) && StartsWithVerb(name, w)
      ensures v == w
    {
      SameVerb(name, v, w);
    }
  }

  lemma SameVerb(name: string, v: string, w: string)
    requires v in VERBS && w in VERBS && StartsWithVerb(name, v) && StartsWithVerb(name, w)
    ensures v == w
  {
    assert v[0] == name[0] == w[0];
    if v[0] == 'P' {
      assert v[1] == name[1] == w[1];
    }
  }

  // ---- The printer -------------------------------------------------------

  function PrintVersion(p: Parsed, version: string): string {
    p.verb + p.namespace + "V" + version + p.rest
  }

  function Print(p: Parsed): string {
    PrintVersion(p, Decimal(p.version))
  }

  /** The records the parser can answer. */
  ghost predicate Canonical(p: Parsed) {
    && p.verb in VERBS
    && p.namespace != [] && IsUpper(p.namespace[0])
    && (forall at: nat :: !Boundary(p.namespace, at))
    && p.version < U32
    && (p.rest != [] ==> !IsDigit(p.rest[0]))
  }

  /** The namespace ends at the first boundary past position 0. */
  ghost predicate FirstAt(body: string, at: nat) {
    Boundary(body, at) && forall k: nat | k < at :: !Boundary(body, k)
  }

  lemma FirstBoundaryIs(body: string, at: nat)
    ensures FirstAt(body, at) <==> FirstBoundary(body, 0) == Some(at)
  {
    hide Boundary;
    var found := FirstBoundary(body, 0);
    assert found.Some? ==> FirstAt(body, found.value);
  }

  lemma CutThenPrint(verb: string, body: string, at: nat) returns (zeros: nat)
    requires FirstAt(body, at) && CutAt(verb, body, at).Some?
    ensures var p := CutAt(verb, body, at).value;
      && verb + body == PrintVersion(p, Zeros(zeros) + Decimal(p.version))
      && p.verb == verb && p.namespace == body[..at] && p.version < U32
      && (forall k: nat :: !Boundary(p.namespace, k))
      && (p.rest != [] ==> !IsDigit(p.rest[0]))
  {
    var tail := body[at + 1..];
    var n := DigitRun(tail);
    zeros := DigitsAreZerosThenDecimal(tail[..n]);
    var p := CutAt(verb, body, at).value;
    forall k: nat ensures !Boundary(p.namespace, k) {
      assert Boundary(p.namespace, k) ==> Boundary(body, k);
    }
    assert body == p.namespace + "V" + tail[..n] + p.rest;
    assert verb + body == verb + p.namespace + "V" + tail[..n] + p.rest;
  }

  /** A parsed name prints back as it was but for leading zeros of its version. */
  lemma ParseThenPrint(name: string) returns (zeros: nat)
    requires Parse(name).Some?
    ensures var p := Parse(name).value;
      Canonical(p) && name == PrintVersion(p, Zeros(zeros) + Decimal(p.version))
  {
    hide CutAt, PrintVersion, Boundary;
    VerbIsInTable(VERBS, name);
    var verb := FirstVerb(VERBS, name).value;
    var body := name[|verb|..];
    var at := FirstBoundary(body, 0).value;
    FirstBoundaryIs(body, at);
    zeros := CutThenPrint(verb, body, at);
    BoundaryIsLate(body, at);
    assert name == verb + body;
  }

  lemma BoundaryIsLate(body: string, at: nat)
    requires Boundary(body, at)
    ensures 0 < at < |body|
  {
  }

  lemma {:induction false} DigitRunEnds(digits: string, rest: string)
    requires AllDigits(digits) && (rest != [] ==> !IsDigit(rest[0]))
    ensures DigitRun(digits + rest) == |digits|
  {
    if digits == [] {
      assert digits + rest == rest;
    } else {
      DigitRunEnds(digits[1..], rest);
      assert (digits + rest)[1..] == digits[1..] + rest;
    }
  }

  lemma BoundaryOfPrinted(namespace: string, digits: string, rest: string)
    requires namespace != [] && digits != [] && IsDigit(digits[0])
    requires forall at: nat :: !Boundary(namespace, at)
    ensures FirstAt(namespace + "V" + digits + rest, |namespace|)
  {
    var at, body := |namespace|, namespace + "V" + digits + rest;
    assert Boundary(body, at);
    forall k: nat | k < at ensures !Boundary(body, k) {
      assert Boundary(body, k) ==> Boundary(namespace, k);
    }
  }

  lemma CutOfPrinted(p: Parsed, digits: string)
    requires Canonical(p) && digits != [] && AllDigits(digits) && Number(digits) == p.version
    ensures var body := p.namespace + "V" + digits + p.rest;
      FirstAt(body, |p.namespace|) && CutAt(p.verb, body, |p.namespace|) == Some(p)
  {
    var at := |p.namespace|;
    var body := p.namespace + "V" + digits + p.rest;
    BoundaryOfPrinted(p.namespace, digits, p.rest);
    assert body[..at] == p.namespace && body[at + 1..] == digits + p.rest;
    DigitRunEnds(digits, p.rest);
    assert (digits + p.rest)[..|digits|] == digits && (digits + p.rest)[|digits|..] == p.rest;
  }

  /** However its version is written out, a record that can be an answer is the answer to the
      name. */
  lemma AnyDigitsParse(p: Parsed, digits: string)
    requires Canonical(p) && digits != [] && AllDigits(digits) && Number(digits) == p.version
    ensures Parse(PrintVersion(p, digits)) == Some(p)
  {
    hide CutAt, Boundary;
    var name := PrintVersion(p, digits);
    var body := p.namespace + "V" + digits + p.rest;
    assert name == p.verb + body;
    assert StartsWithVerb(name, p.verb);
    VerbIsInTable(VERBS, name);
    SameVerb(name, p.verb, FirstVerb(VERBS, name).value);
    assert name[|p.verb|..] == body;
    CutOfPrinted(p, digits);
    FirstBoundaryIs(body, |p.namespace|);
  }

  /** In particular to its printed form. */
  lemma PrintThenParse(p: Parsed)
    requires Canonical(p)
    ensures Parse(Print(p)) == Some(p)
  {
    NumberOfDecimal(p.version);
    AnyDigitsParse(p, Decimal(p.version));
  }

  /** The number a boundary is followed by. */
  function NumberAt(body: string, at: nat): nat
    requires Boundary(body, at)
  {
    Number(body[at + 1..][..DigitRun(body[at + 1..])])
  }

  /** A name parses exactly when it has a verb and, at the first boundary after it, a
      number that fits 32 bits - later boundaries are not tried. */
  lemma NamesThatParse(name: string)
    ensures Parse(name).Some? <==>
      exists verb, at: nat ::
        && verb in VERBS && StartsWithVerb(name, verb)
        && FirstAt(name[|verb|..], at)
        && NumberAt(name[|verb|..], at) < U32
  {
    hide Boundary;
    VerbIsInTable(VERBS, name);
    if Parse(name).Some? {
      var verb := FirstVerb(VERBS, name).value;
      var at := FirstBoundary(name[|verb|..], 0).value;
      FirstBoundaryIs(name[|verb|..], at);
    }
    forall verb, at: nat
      | && verb in VERBS && StartsWithVerb(name, verb)
        && FirstAt(name[|verb|..], at) && NumberAt(name[|verb|..], at) < U32
      ensures Parse(name).Some?
    {
      SameVerb(name, verb, FirstVerb(VERBS, name).value);
      FirstBoundaryIs(name[|verb|..], at);
    }
  }
}
