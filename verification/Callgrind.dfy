/**
 * Reading a callgrind profile: names given by id, positions given relative to the last one, self
 * costs, and the inclusive costs of calls.
 */
module Callgrind {
  import opened Search
  import opened Texts
  import opened MapSums

  // ---- Tokens ----

  datatype Kind = FileName | FunctionName | ObjectName

  /** The keys that name something; other keys are skipped, and `calls` has its own line. */
  datatype Key = Fl | Fi | Fe | Fn | Cfl | Cfi | Cfn | Ob | Cob

  datatype Position = At(line: int) | By(delta: int) | Same

  datatype Line = Named(key: Key, value: string) | Calls(count: int) | Cost(position: Position, cost: int) | Skipped

  function KindOf(key: Key): Kind {
    match key
    case Fn | Cfn => FunctionName
    case Ob | Cob => ObjectName
    case _ => FileName
  }

  /** `(id)`, or `(id) text`, which defines the id. */
  function ParseRef(value: string): (r: Option<(string, Option<string>)>)
    ensures r.Some? && r.value.1.Some? ==> |r.value.1.value| < |value|
  {
    if value == [] || value[0] != '(' then None
    else
      var n := DigitsAt(value[1..]);
      if n == 0 || 1 + n >= |value| || value[1 + n] != ')' then None
      else
        var id, rest := value[1..1 + n], value[2 + n..];
        if rest == [] then Some((id, None)) else if rest[0] == ' ' then Some((id, Some(rest[1..]))) else None
  }

  predicate IsDefinition(value: string) { ParseRef(value).Some? && ParseRef(value).value.1.Some? }

  type Names = map<(Kind, string), string>

  function Learn(names: Names, kind: Kind, value: string): Names {
    if IsDefinition(value) then names[(kind, ParseRef(value).value.0) := ParseRef(value).value.1.value] else names
  }

  /** The text a value stands for; an id never defined stands for itself. */
  function NameOf(names: Names, kind: Kind, value: string): string {
    match ParseRef(value)
    case None => value
    case Some((id, Some(text))) => text
    case Some((id, None)) => if (kind, id) in names then names[(kind, id)] else value
  }

  function MoveTo(line: int, position: Position): int {
    match position
    case At(n) => n
    case By(delta) => line + delta
    case Same => line
  }

  // ---- Reading ----

  type Name = Option<string>

  /** Where the reader is. */
  datatype Place = Place(names: Names, file: Name, subFile: Name, fn: Name, callee: Name, line: int,
                         pending: Option<int>)

  const START := Place(map[], None, None, None, None, 0, None)

  /** What a cost line says: its own cost, or that of the call announced before it. */
  datatype Event =
    | Own(file: Name, line: int, fn: Name, cost: int)
    | Called(caller: Name, callee: Name, calls: int, cost: int)

  /** The place once a key names something. */
  function Turned(p: Place, key: Key, name: string, normalize: string -> string): Place {
    match key
    case Fl => p.(file := Some(name), subFile := Some(name))
    case Fi | Fe => p.(subFile := Some(name))
    case Fn => p.(fn := Some(normalize(name)), subFile := p.file)
    case Cfn => p.(callee := Some(normalize(name)))
    case Cfl | Cfi | Ob | Cob => p
  }

  /** The reader's place after a line. `normalize` drops hashes and recursion suffixes from a symbol. */
  function Next(place: Place, line: Line, normalize: string -> string): Place {
    match line
    case Named(key, value) =>
      Turned(place.(names := Learn(place.names, KindOf(key), value)), key, NameOf(place.names, KindOf(key), value),
             normalize)
    case Calls(count) => place.(pending := Some(count))
    case Cost(position, _) => place.(line := MoveTo(place.line, position), pending := None)
    case Skipped => place
  }

  function EventsOf(place: Place, line: Line): seq<Event> {
    match line
    case Cost(position, cost) =>
      if place.pending.Some? then [Called(place.fn, place.callee, place.pending.value, cost)]
      else [Own(place.subFile, MoveTo(place.line, position), place.fn, cost)]
    case _ => []
  }

  function Trace(place: Place, lines: seq<Line>, normalize: string -> string): seq<Event>
    decreases |lines|
  {
    if lines == [] then []
    else EventsOf(place, lines[0]) + Trace(Next(place, lines[0], normalize), lines[1..], normalize)
  }

  type Costs<!K> = map<K, int>

  datatype Profile = Profile(lines: Costs<(Name, int)>, functions: Costs<Name>, edges: map<(Name, Name), (int, int)>)

  const NOTHING := Profile(map[], map[], map[])

  function Plus<K>(costs: Costs<K>, key: K, cost: int): Costs<K> {
    costs[key := (if key in costs then costs[key] else 0) + cost]
  }

  function Add(profile: Profile, e: Event): Profile {
    match e
    case Own(file, line, fn, cost) =>
      profile.(lines := Plus(profile.lines, (file, line), cost), functions := Plus(profile.functions, fn, cost))
    case Called(caller, callee, calls, cost) =>
      var edge := if (caller, callee) in profile.edges then profile.edges[(caller, callee)] else (0, 0);
      profile.(edges := profile.edges[(caller, callee) := (edge.0 + calls, edge.1 + cost)])
  }

  function Tally(profile: Profile, events: seq<Event>): Profile
    decreases |events|
  {
    if events == [] then profile else Tally(Add(profile, events[0]), events[1..])
  }

  function Parsed(lines: seq<Line>, normalize: string -> string): Profile {
    Tally(NOTHING, Trace(START, lines, normalize))
  }

  /** The loop over the lines. */
  method ParseCallgrind(lines: seq<Line>, normalize: string -> string) returns (profile: Profile)
    ensures profile == Parsed(lines, normalize)
  {
    profile := NOTHING;
    var names: Names := map[];
    var file: Name, subFile: Name, fn: Name, callee: Name := None, None, None, None;
    var last := 0;
    var pending: Option<int> := None;
    for i := 0 to |lines|
      invariant Tally(profile, Trace(Place(names, file, subFile, fn, callee, last, pending), lines[i..], normalize)) ==
                Parsed(lines, normalize)
    {
      ghost var place := Place(names, file, subFile, fn, callee, last, pending);
      assert lines[i..][0] == lines[i] && lines[i..][1..] == lines[i + 1..];
      TallyEvents(profile, EventsOf(place, lines[i]),
                  Trace(Next(place, lines[i], normalize), lines[i + 1..], normalize));
      match lines[i] {
        case Named(key, value) =>
          var kind := KindOf(key);
          var name := NameOf(names, kind, value);
          names := Learn(names, kind, value);
          match key {
            case Fl => file, subFile := Some(name), Some(name);
            case Fi | Fe => subFile := Some(name);
            case Fn => fn, subFile := Some(normalize(name)), file;
            case Cfn => callee := Some(normalize(name));
            case Cfl | Cfi | Ob | Cob =>
          }
        case Calls(count) => pending := Some(count);
        case Cost(position, cost) =>
          last := MoveTo(last, position);
          if pending.Some? {
            profile := Add(profile, Called(fn, callee, pending.value, cost));
            pending := None;
          } else {
            profile := Add(profile, Own(subFile, last, fn, cost));
          }
        case Skipped =>
      }
    }
    assert lines[|lines|..] == [];
  }

  lemma TallyEvents(profile: Profile, a: seq<Event>, b: seq<Event>)
    requires |a| <= 1
    ensures Tally(profile, a + b) == if a == [] then Tally(profile, b) else Tally(Add(profile, a[0]), b)
  {
    if a == [] { assert a + b == b; } else { assert (a + b)[1..] == b; }
  }

  // ---- Names and positions written out ----

  function ExpandLine(place: Place, line: Line): Line {
    match line
    case Named(key, value) => Named(key, NameOf(place.names, KindOf(key), value))
    case Cost(position, cost) => Cost(At(MoveTo(place.line, position)), cost)
    case _ => line
  }

  /** The profile with every name and position in full. */
  function Expand(place: Place, lines: seq<Line>, normalize: string -> string): seq<Line>
    decreases |lines|
  {
    if lines == [] then []
    else [ExpandLine(place, lines[0])] + Expand(Next(place, lines[0], normalize), lines[1..], normalize)
  }

  /** Objects are named but count nothing. */
  const COUNTED: set<Kind> := {FileName, FunctionName}
  const EVERY_KIND: set<Kind> := {FileName, FunctionName, ObjectName}

  /** No text that a value of these kinds defines is itself a definition. */
  predicate PlainText(line: Line, kinds: set<Kind>) {
    line.Named? && KindOf(line.key) in kinds && IsDefinition(line.value) ==>
    !IsDefinition(ParseRef(line.value).value.1.value)
  }

  ghost predicate AllPlain(lines: seq<Line>, kinds: set<Kind>) {
    forall i :: 0 <= i < |lines| ==> PlainText(lines[i], kinds)
  }

  ghost predicate PlainNames(names: Names, kinds: set<Kind>) {
    forall k :: k in names && k.0 in kinds ==> !IsDefinition(names[k])
  }

  /** A text reads as itself, whatever is defined, exactly when it is no definition. */
  lemma ReadsAsItself(kind: Kind, text: string)
    ensures NameOf(map[], kind, text) == text && Learn(map[], kind, text) == map[] <==> !IsDefinition(text)
  {
  }

  lemma NameIsPlain(names: Names, line: Line, kinds: set<Kind>)
    requires PlainNames(names, kinds) && line.Named? && PlainText(line, kinds)
    ensures KindOf(line.key) in kinds ==> !IsDefinition(NameOf(names, KindOf(line.key), line.value))
    ensures PlainNames(Learn(names, KindOf(line.key), line.value), kinds)
  {
  }

  /** The reader of the expanded form is at the same place, and knows no name of these kinds. */
  ghost predicate Shadow(place: Place, bare: Place, kinds: set<Kind>) {
    bare == place.(names := bare.names) && forall k :: k in bare.names ==> k.0 !in kinds
  }

  /** One line and its expanded form leave the reader in the same place, up to the names it knows. */
  lemma StepSame(place: Place, bare: Place, line: Line, normalize: string -> string, kinds: set<Kind>)
    requires COUNTED <= kinds && Shadow(place, bare, kinds) && PlainNames(place.names, kinds) && PlainText(line, kinds)
    ensures PlainNames(Next(place, line, normalize).names, kinds)
    ensures Shadow(Next(place, line, normalize), Next(bare, ExpandLine(place, line), normalize), kinds)
    ensures EventsOf(bare, ExpandLine(place, line)) == EventsOf(place, line)
  {
    if line.Named? { NamesSame(place.names, bare.names, line.key, line.value, kinds); }
  }

  lemma NamesSame(names: Names, bare: Names, key: Key, value: string, kinds: set<Kind>)
    requires PlainNames(names, kinds) && PlainText(Named(key, value), kinds) && forall k :: k in bare ==> k.0 !in kinds
    ensures var kind, name := KindOf(key), NameOf(names, KindOf(key), value);
            && PlainNames(Learn(names, kind, value), kinds)
            && (forall k :: k in Learn(bare, kind, name) ==> k.0 !in kinds)
            && (kind in kinds ==> NameOf(bare, kind, name) == name)
  {
    var kind, name := KindOf(key), NameOf(names, KindOf(key), value);
    NameIsPlain(names, Named(key, value), kinds);
    if kind in kinds { ReadsUnlearned(bare, kind, name); } else { LearnsOneKind(bare, kind, name); }
  }

  lemma ReadsUnlearned(names: Names, kind: Kind, text: string)
    requires !IsDefinition(text) && forall k :: k in names ==> k.0 != kind
    ensures NameOf(names, kind, text) == text && Learn(names, kind, text) == names
  {
  }

  lemma LearnsOneKind(names: Names, kind: Kind, text: string)
    ensures forall k :: k in Learn(names, kind, text) ==> k in names || k.0 == kind
  {
  }

  lemma {:induction false} TraceSame(place: Place, bare: Place, lines: seq<Line>, normalize: string -> string)
    requires Shadow(place, bare, COUNTED) && PlainNames(place.names, COUNTED) && AllPlain(lines, COUNTED)
    ensures Trace(bare, Expand(place, lines, normalize), normalize) == Trace(place, lines, normalize)
    decreases |lines|
  {
    if lines != [] {
      StepSame(place, bare, lines[0], normalize, COUNTED);
      TraceSame(Next(place, lines[0], normalize), Next(bare, ExpandLine(place, lines[0]), normalize), lines[1..],
                normalize);
      ExpandedTrace(place, bare, lines, normalize);
    }
  }

  /** The trace of the expanded form, line by line. */
  lemma ExpandedTrace(place: Place, bare: Place, lines: seq<Line>, normalize: string -> string)
    requires lines != []
    ensures Trace(bare, Expand(place, lines, normalize), normalize) ==
            EventsOf(bare, ExpandLine(place, lines[0])) +
            Trace(Next(bare, ExpandLine(place, lines[0]), normalize),
                  Expand(Next(place, lines[0], normalize), lines[1..], normalize), normalize)
  {
    assert Expand(place, lines, normalize)[1..] == Expand(Next(place, lines[0], normalize), lines[1..], normalize);
  }

  ghost predicate ParsesSame(lines: seq<Line>, normalize: string -> string) {
    Parsed(Expand(START, lines, normalize), normalize) == Parsed(lines, normalize)
  }

  /** A profile and its expanded form give the same lines, functions and edges. */
  lemma ExpandedParsesSame(lines: seq<Line>, normalize: string -> string)
    requires AllPlain(lines, COUNTED)
    ensures ParsesSame(lines, normalize)
  {
    TraceSame(START, START, lines, normalize);
  }

  ghost predicate IsExpanded(line: Line) {
    && (line.Named? ==> !IsDefinition(line.value))
    && (line.Cost? ==> line.position.At?)
  }

  /** The expanded form defines no id and moves by no distance. */
  lemma {:induction false} ExpandExpands(place: Place, lines: seq<Line>, normalize: string -> string)
    requires PlainNames(place.names, EVERY_KIND) && AllPlain(lines, EVERY_KIND)
    ensures |Expand(place, lines, normalize)| == |lines|
    ensures forall i :: 0 <= i < |lines| ==> IsExpanded(Expand(place, lines, normalize)[i])
    decreases |lines|
  {
    if lines != [] {
      LineExpands(place, lines[0], normalize);
      ExpandExpands(Next(place, lines[0], normalize), lines[1..], normalize);
    }
  }

  lemma LineExpands(place: Place, line: Line, normalize: string -> string)
    requires PlainNames(place.names, EVERY_KIND) && PlainText(line, EVERY_KIND)
    ensures IsExpanded(ExpandLine(place, line)) && PlainNames(Next(place, line, normalize).names, EVERY_KIND)
  {
    if line.Named? { NameIsPlain(place.names, line, EVERY_KIND); }
  }

  /** The expanded form is its own expanded form exactly when no defined text is a definition. */
  lemma {:induction false} ExpandTwice(place: Place, lines: seq<Line>, normalize: string -> string)
    requires PlainNames(place.names, EVERY_KIND)
    ensures var expanded := Expand(place, lines, normalize);
            Expand(place.(names := map[]), expanded, normalize) == expanded <==> AllPlain(lines, EVERY_KIND)
    decreases |lines|
  {
    if lines != [] {
      var next, bare := Next(place, lines[0], normalize), place.(names := map[]);
      var line, later := ExpandLine(place, lines[0]), Expand(Next(place, lines[0], normalize), lines[1..], normalize);
      ExpandedAgain(bare, line, later, normalize);
      if PlainText(lines[0], EVERY_KIND) {
        PlainAgain(place, lines[0], normalize);
        ExpandTwice(next, lines[1..], normalize);
        assert forall i :: 1 <= i < |lines| ==> lines[i] == lines[1..][i - 1];
      } else {
        assert ExpandLine(bare, line) != line;
      }
    }
  }

  lemma PlainAgain(place: Place, line: Line, normalize: string -> string)
    requires PlainNames(place.names, EVERY_KIND) && PlainText(line, EVERY_KIND)
    ensures PlainNames(Next(place, line, normalize).names, EVERY_KIND)
    ensures var bare, expanded := place.(names := map[]), ExpandLine(place, line);
            && ExpandLine(bare, expanded) == expanded
            && Next(bare, expanded, normalize) == Next(place, line, normalize).(names := map[])
  {
    if line.Named? { NameIsPlain(place.names, line, EVERY_KIND); }
  }

  lemma ExpandedAgain(bare: Place, line: Line, later: seq<Line>, normalize: string -> string)
    ensures Expand(bare, [line] + later, normalize) == [line] + later <==>
            ExpandLine(bare, line) == line && Expand(Next(bare, line, normalize), later, normalize) == later
  {
    var all := [line] + later;
    assert all[0] == line && all[1..] == later;
    if ExpandLine(bare, line) == line {
      TailEqual(line, Expand(Next(bare, line, normalize), later, normalize), later);
    } else {
      assert Expand(bare, all, normalize)[0] != all[0];
    }
  }

  lemma TailEqual<T>(x: T, a: seq<T>, b: seq<T>)
    ensures [x] + a == [x] + b <==> a == b
  {
    assert ([x] + a)[1..] == a && ([x] + b)[1..] == b;
  }

  /** A defined text that is a definition is not read back, and the two forms then differ. */
  lemma NestedDefinitionDiffers(normalize: string -> string)
    ensures var lines := [Named(Fl, "(1) (2) a"), Cost(At(7), 5)];
            Parsed(lines, normalize) != Parsed(Expand(START, lines, normalize), normalize)
  {
    ParseNested();
    TwoReadings("(1) (2) a", "(2) a", "a", normalize);
  }

  lemma TwoReadings(value: string, text: string, inner: string, normalize: string -> string)
    requires NameOf(map[], FileName, value) == text && NameOf(map[], FileName, text) == inner != text
    ensures var lines := [Named(Fl, value), Cost(At(7), 5)];
            Parsed(lines, normalize) != Parsed(Expand(START, lines, normalize), normalize)
  {
    var top, nested, cost := Named(Fl, value), Named(Fl, text), Cost(At(7), 5);
    var lines, place := [top, cost], Next(START, top, normalize);
    assert lines[1..] == [cost] && [cost][1..] == [];
    assert Expand(place, [cost], normalize) == [cost] + Expand(Next(place, cost, normalize), [], normalize);
    assert Expand(START, lines, normalize) == [nested, cost];
    OneCost(top, cost, text, normalize);
    OneCost(nested, cost, inner, normalize);
    assert (Some(text), 7) in Parsed(lines, normalize).lines &&
           (Some(text), 7) !in Parsed([nested, cost], normalize).lines;
  }

  lemma ParseNested()
    ensures NameOf(map[], FileName, "(1) (2) a") == "(2) a" && NameOf(map[], FileName, "(2) a") == "a"
  {
    assert "(1) (2) a"[1..] == "1) (2) a" && DigitsAt("1) (2) a") == 1 && "(1) (2) a"[3..] == " (2) a" &&
           " (2) a"[1..] == "(2) a";
    assert "(2) a"[1..] == "2) a" && DigitsAt("2) a") == 1 && "(2) a"[3..] == " a" && " a"[1..] == "a";
  }

  lemma OneCost(fl: Line, cost: Line, name: string, normalize: string -> string)
    requires fl.Named? && fl.key == Fl && NameOf(map[], FileName, fl.value) == name && cost == Cost(At(7), 5)
    ensures Parsed([fl, cost], normalize).lines == map[(Some(name), 7) := 5]
  {
    var place := Next(START, fl, normalize);
    var e := Own(Some(name), 7, None, 5);
    assert [fl, cost][1..] == [cost] && [cost][1..] == [];
    assert Trace(place, [cost], normalize) == [e] + Trace(Next(place, cost, normalize), [], normalize);
    assert Trace(START, [fl, cost], normalize) == [e];
    assert [e][1..] == [] && Tally(NOTHING, [e]) == Tally(Add(NOTHING, e), []);
  }

  // ---- Every cost is counted once ----

  type Edge = (Name, Name)

  ghost function SumBy<K(!new)>(costs: Costs<K>, p: K -> bool): int {
    Sum(costs, (k: K, v: int) => if p(k) then v else 0)
  }

  ghost function SumCalls(edges: map<Edge, (int, int)>, p: Edge -> bool): int {
    Sum(edges, (k: Edge, v: (int, int)) => if p(k) then v.0 else 0)
  }

  ghost function SumInclusive(edges: map<Edge, (int, int)>, p: Edge -> bool): int {
    Sum(edges, (k: Edge, v: (int, int)) => if p(k) then v.1 else 0)
  }

  lemma SumPlus<K(!new)>(costs: Costs<K>, key: K, cost: int, p: K -> bool)
    ensures SumBy(Plus(costs, key, cost), p) == SumBy(costs, p) + if p(key) then cost else 0
  {
    SumSet(costs, (k: K, v: int) => if p(k) then v else 0, key, (if key in costs then costs[key] else 0) + cost);
  }

  lemma SumEdge(edges: map<Edge, (int, int)>, key: Edge, calls: int, cost: int, p: Edge -> bool)
    ensures var edge := if key in edges then edges[key] else (0, 0);
            var r := edges[key := (edge.0 + calls, edge.1 + cost)];
            && SumCalls(r, p) == SumCalls(edges, p) + (if p(key) then calls else 0)
            && SumInclusive(r, p) == SumInclusive(edges, p) + (if p(key) then cost else 0)
  {
    var edge := if key in edges then edges[key] else (0, 0);
    SumSet(edges, (k: Edge, v: (int, int)) => if p(k) then v.0 else 0, key, (edge.0 + calls, edge.1 + cost));
    SumSet(edges, (k: Edge, v: (int, int)) => if p(k) then v.1 else 0, key, (edge.0 + calls, edge.1 + cost));
  }

  function Total(events: seq<Event>, cost: Event -> int): int {
    if events == [] then 0 else cost(events[0]) + Total(events[1..], cost)
  }

  function LineCost(p: ((Name, int)) -> bool): Event -> int {
    (e: Event) => if e.Own? && p((e.file, e.line)) then e.cost else 0
  }

  function FunctionCost(p: Name -> bool): Event -> int {
    (e: Event) => if e.Own? && p(e.fn) then e.cost else 0
  }

  function InclusiveCost(p: Edge -> bool): Event -> int {
    (e: Event) => if e.Called? && p((e.caller, e.callee)) then e.cost else 0
  }

  function CallCount(p: Edge -> bool): Event -> int {
    (e: Event) => if e.Called? && p((e.caller, e.callee)) then e.calls else 0
  }

  /** Self costs only go to lines and functions, and calls and their inclusive costs only to edges. */
  lemma {:induction false} TallySums(profile: Profile, events: seq<Event>, l: ((Name, int)) -> bool, f: Name -> bool,
                                     e: Edge -> bool)
    ensures var r := Tally(profile, events);
            && SumBy(r.lines, l) == SumBy(profile.lines, l) + Total(events, LineCost(l))
            && SumBy(r.functions, f) == SumBy(profile.functions, f) + Total(events, FunctionCost(f))
            && SumInclusive(r.edges, e) == SumInclusive(profile.edges, e) + Total(events, InclusiveCost(e))
            && SumCalls(r.edges, e) == SumCalls(profile.edges, e) + Total(events, CallCount(e))
    decreases |events|
  {
    if events != [] {
      AddSums(profile, events[0], l, f, e);
      TallySums(Add(profile, events[0]), events[1..], l, f, e);
    }
  }

  lemma AddSums(profile: Profile, event: Event, l: ((Name, int)) -> bool, f: Name -> bool, e: Edge -> bool)
    ensures var r := Add(profile, event);
            && SumBy(r.lines, l) == SumBy(profile.lines, l) + LineCost(l)(event)
            && SumBy(r.functions, f) == SumBy(profile.functions, f) + FunctionCost(f)(event)
            && SumInclusive(r.edges, e) == SumInclusive(profile.edges, e) + InclusiveCost(e)(event)
            && SumCalls(r.edges, e) == SumCalls(profile.edges, e) + CallCount(e)(event)
  {
    match event
    case Own(file, line, fn, cost) =>
      SumPlus(profile.lines, (file, line), cost, l);
      SumPlus(profile.functions, fn, cost, f);
    case Called(caller, callee, calls, cost) =>
      SumEdge(profile.edges, (caller, callee), calls, cost, e);
  }

  /** Any selection of a profile's lines, functions or edges sums to its events' costs. */
  lemma ParsedSums(lines: seq<Line>, normalize: string -> string, l: ((Name, int)) -> bool, f: Name -> bool,
                   e: Edge -> bool)
    ensures var profile, events := Parsed(lines, normalize), Trace(START, lines, normalize);
            && SumBy(profile.lines, l) == Total(events, LineCost(l))
            && SumBy(profile.functions, f) == Total(events, FunctionCost(f))
            && SumInclusive(profile.edges, e) == Total(events, InclusiveCost(e))
            && SumCalls(profile.edges, e) == Total(events, CallCount(e))
  {
    TallySums(NOTHING, Trace(START, lines, normalize), l, f, e);
  }

  function Every<T>(): T -> bool { (_: T) => true }

  /** The costs that the cost lines give. */
  function Given(lines: seq<Line>): int {
    if lines == [] then 0 else (if lines[0].Cost? then lines[0].cost else 0) + Given(lines[1..])
  }

  lemma {:induction false} TotalSplits(events: seq<Event>)
    ensures Total(events, LineCost(Every())) == Total(events, FunctionCost(Every()))
    decreases |events|
  {
    if events != [] { TotalSplits(events[1..]); }
  }

  lemma {:induction false} TotalAppend(a: seq<Event>, b: seq<Event>, cost: Event -> int)
    ensures Total(a + b, cost) == Total(a, cost) + Total(b, cost)
    decreases |a|
  {
    if a == [] {
      assert a + b == b;
    } else {
      assert (a + b)[0] == a[0] && (a + b)[1..] == a[1..] + b;
      TotalAppend(a[1..], b, cost);
    }
  }

  lemma {:induction false} TraceCosts(place: Place, lines: seq<Line>, normalize: string -> string)
    ensures var events := Trace(place, lines, normalize);
            Total(events, FunctionCost(Every())) + Total(events, InclusiveCost(Every())) == Given(lines)
    decreases |lines|
  {
    if lines != [] {
      var now, later := EventsOf(place, lines[0]), Trace(Next(place, lines[0], normalize), lines[1..], normalize);
      TraceCosts(Next(place, lines[0], normalize), lines[1..], normalize);
      TotalAppend(now, later, FunctionCost(Every()));
      TotalAppend(now, later, InclusiveCost(Every()));
      assert lines[0].Cost? ==> now == [now[0]] && now[1..] == [];
    }
  }

  /** Line costs sum to function costs, and with the edges' inclusive costs to all that was given. */
  lemma CostsConserved(lines: seq<Line>, normalize: string -> string)
    ensures var profile := Parsed(lines, normalize);
            && SumBy(profile.lines, Every()) == SumBy(profile.functions, Every())
            && SumBy(profile.functions, Every()) + SumInclusive(profile.edges, Every()) == Given(lines)
  {
    ParsedSums(lines, normalize, Every(), Every(), Every());
    TotalSplits(Trace(START, lines, normalize));
    TraceCosts(START, lines, normalize);
  }

  // ---- Where the two forms differ ----

  const UNCHANGED: string -> string := (s: string) => s

  /** The costs of one file's line 0, or of one function. */
  function CostsOf(kind: Kind, text: string): Event -> int {
    if kind == FileName then LineCost((k: (Name, int)) => k == (Some(text), 0))
    else FunctionCost((f: Name) => f == Some(text))
  }

  function KeyOf(kind: Kind): Key { if kind == FileName then Fl else Fn }

  /** Names a file or function, ends a call that is announced, and gives it a cost. */
  function Probe(kind: Kind, value: string): seq<Line> { [Named(KeyOf(kind), value), Cost(At(0), 0), Cost(At(0), 1)] }

  lemma ProbeTrace(place: Place, kind: Kind, value: string) returns (first: Event, second: Event)
    requires kind in COUNTED
    ensures Trace(place, Probe(kind, value), UNCHANGED) == [first, second] && first.cost == 0
    ensures second.Own? && second.cost == 1 && second.line == 0
    ensures (if kind == FileName then second.file else second.fn) == Some(NameOf(place.names, kind, value))
  {
    var lines := Probe(kind, value);
    var p := Next(place, lines[0], UNCHANGED);
    var q := Next(p, lines[1], UNCHANGED);
    first, second := EventsOf(p, lines[1])[0], EventsOf(q, lines[2])[0];
    assert lines[1..][1..] == [lines[2]] && lines[1..][0] == lines[1] && [lines[2]][1..] == [];
    assert EventsOf(p, lines[1]) == [first] && EventsOf(q, lines[2]) == [second] && EventsOf(place, lines[0]) == [];
    assert Trace(q, [lines[2]], UNCHANGED) == [second] + [];
    assert Trace(p, lines[1..], UNCHANGED) == [first] + [second];
  }

  /** The cost goes to the name that the value stands for. */
  lemma ProbeCosts(place: Place, kind: Kind, value: string, text: string)
    requires kind in COUNTED
    ensures Total(Trace(place, Probe(kind, value), UNCHANGED), CostsOf(kind, text)) ==
            if NameOf(place.names, kind, value) == text then 1 else 0
  {
    var first, second := ProbeTrace(place, kind, value);
    TotalTwo(first, second, CostsOf(kind, text));
  }

  lemma TotalTwo(first: Event, second: Event, cost: Event -> int)
    ensures Total([first, second], cost) == cost(first) + cost(second)
  {
    assert [first, second][1..] == [second] && [second][1..] == [];
    assert Total([second], cost) == cost(second);
  }

  lemma ProbeExpands(place: Place, kind: Kind, value: string)
    requires kind in COUNTED
    ensures Expand(place, Probe(kind, value), UNCHANGED) == Probe(kind, NameOf(place.names, kind, value))
  {
    var lines := Probe(kind, value);
    var p := Next(place, lines[0], UNCHANGED);
    var q := Next(p, lines[1], UNCHANGED);
    assert lines[1..][1..] == [lines[2]] && lines[1..][0] == lines[1] && [lines[2]][1..] == [];
    assert Expand(q, [lines[2]], UNCHANGED) == [lines[2]];
    assert Expand(p, lines[1..], UNCHANGED) == [lines[1], lines[2]];
  }

  lemma {:induction false} DigitsOf(value: string, n: nat)
    requires n == DigitsAt(value) && n < |value| && value[n] == ')'
    ensures DigitsAt(value[..n] + ")") == n
    decreases n
  {
    if n > 0 {
      DigitsOf(value[1..], n - 1);
      assert (value[..n] + ")")[1..] == value[1..][..n - 1] + ")";
    }
  }

  /** An id that some value holds is read as that id when it stands alone. */
  lemma RefAlone(value: string)
    requires ParseRef(value).Some?
    ensures ParseRef("(" + ParseRef(value).value.0 + ")") == Some((ParseRef(value).value.0, None))
  {
    var n, id := DigitsAt(value[1..]), ParseRef(value).value.0;
    DigitsOf(value[1..], n);
    assert value[1..][..n] == id;
    var ref := "(" + id + ")";
    assert ref[1..] == id + ")" && ref[1..1 + n] == id && ref[2 + n..] == [] && ref[1 + n] == ')';
  }

  lemma RefLearned(names: Names, kind: Kind, value: string, ref: string)
    requires IsDefinition(value) && ref == "(" + ParseRef(value).value.0 + ")"
    ensures !IsDefinition(ref) && NameOf(Learn(names, kind, value), kind, ref) == ParseRef(value).value.1.value
  {
    RefAlone(value);
  }

  lemma NestedReads(names: Names, kind: Kind, text: string)
    requires IsDefinition(text)
    ensures NameOf(names, kind, text) != text
  {
  }

  lemma ProbeDiffers(place: Place, bare: Place, kind: Kind, ref: string, text: string)
    requires kind in COUNTED && NameOf(place.names, kind, ref) == text && NameOf(bare.names, kind, text) != text
    ensures TotalsDiffer(place, bare, Probe(kind, ref), CostsOf(kind, text))
  {
    ProbeCosts(place, kind, ref, text);
    ProbeExpands(place, kind, ref);
    ProbeCosts(bare, kind, text, text);
  }

  /** Right after a nested definition, its id stands for one name as written and for another expanded. */
  lemma NestedDiffers(place: Place, bare: Place, line: Line) returns (rest: seq<Line>, kind: Kind, text: string)
    requires !PlainText(line, COUNTED)
    ensures AllPlain(rest, COUNTED) && kind in COUNTED
    ensures TotalsDiffer(Next(place, line, UNCHANGED), bare, rest, CostsOf(kind, text))
  {
    kind := KindOf(line.key);
    var next, ref := Next(place, line, UNCHANGED), "(" + ParseRef(line.value).value.0 + ")";
    text := ParseRef(line.value).value.1.value;
    rest := Probe(kind, ref);
    RefLearned(place.names, kind, line.value, ref);
    NestedReads(bare.names, kind, text);
    ProbeDiffers(next, bare, kind, ref, text);
  }

  ghost predicate TotalsDiffer(place: Place, bare: Place, lines: seq<Line>, cost: Event -> int) {
    Total(Trace(place, lines, UNCHANGED), cost) != Total(Trace(bare, Expand(place, lines, UNCHANGED), UNCHANGED), cost)
  }

  /** A profile with a nested definition can be cut off and continued so that the two forms give different costs. */
  lemma {:induction false} Differs(place: Place, bare: Place, lines: seq<Line>, k: nat)
    returns (n: nat, rest: seq<Line>, kind: Kind, text: string)
    requires Shadow(place, bare, COUNTED) && PlainNames(place.names, COUNTED) && k < |lines| &&
             !PlainText(lines[k], COUNTED)
    ensures n <= |lines| && AllPlain(rest, COUNTED) && kind in COUNTED
    ensures TotalsDiffer(place, bare, lines[..n] + rest, CostsOf(kind, text))
    decreases |lines|
  {
    if PlainText(lines[0], COUNTED) {
      StepSame(place, bare, lines[0], UNCHANGED, COUNTED);
      var next, shadow := Next(place, lines[0], UNCHANGED), Next(bare, ExpandLine(place, lines[0]), UNCHANGED);
      var m;
      m, rest, kind, text := Differs(next, shadow, lines[1..], k - 1);
      n := m + 1;
      CutTail(lines, m, rest);
      DiffersLater(place, bare, lines[..n] + rest, CostsOf(kind, text));
    } else {
      rest, kind, text := NestedDiffers(place, Next(bare, ExpandLine(place, lines[0]), UNCHANGED), lines[0]);
      n := 1;
      CutTail(lines, 0, rest);
      assert lines[1..][..0] + rest == rest;
      DiffersLater(place, bare, lines[..n] + rest, CostsOf(kind, text));
    }
  }

  lemma CutTail<T>(s: seq<T>, m: nat, rest: seq<T>)
    requires m < |s|
    ensures (s[..m + 1] + rest)[0] == s[0] && (s[..m + 1] + rest)[1..] == s[1..][..m] + rest
  {
  }

  /** Totals that differ after a line whose own events agree differ with it. */
  lemma DiffersLater(place: Place, bare: Place, lines: seq<Line>, cost: Event -> int)
    requires lines != [] && EventsOf(bare, ExpandLine(place, lines[0])) == EventsOf(place, lines[0])
    requires TotalsDiffer(Next(place, lines[0], UNCHANGED), Next(bare, ExpandLine(place, lines[0]), UNCHANGED),
                          lines[1..], cost)
    ensures TotalsDiffer(place, bare, lines, cost)
  {
    var line, later := lines[0], lines[1..];
    var next, shadow := Next(place, line, UNCHANGED), Next(bare, ExpandLine(place, line), UNCHANGED);
    ExpandedTrace(place, bare, lines, UNCHANGED);
    TotalAppend(EventsOf(place, line), Trace(next, later, UNCHANGED), cost);
    TotalAppend(EventsOf(place, line), Trace(shadow, Expand(next, later, UNCHANGED), UNCHANGED), cost);
  }

  /** Different costs of one file or function make different profiles. */
  lemma DifferentCosts(lines: seq<Line>, others: seq<Line>, kind: Kind, text: string)
    requires kind in COUNTED
    requires Total(Trace(START, lines, UNCHANGED), CostsOf(kind, text)) !=
             Total(Trace(START, others, UNCHANGED), CostsOf(kind, text))
    ensures Parsed(lines, UNCHANGED) != Parsed(others, UNCHANGED)
  {
    var l, f := (k: (Name, int)) => k == (Some(text), 0), (f: Name) => f == Some(text);
    ParsedSums(lines, UNCHANGED, l, f, Every());
    ParsedSums(others, UNCHANGED, l, f, Every());
  }

  /** Wherever the profile is cut off, and with whatever plain lines it goes on, both forms parse alike. */
  ghost predicate AlwaysParsesSame(lines: seq<Line>) {
    forall n: nat, rest: seq<Line>, normalize: string -> string ::
      n <= |lines| && AllPlain(rest, COUNTED) ==> ParsesSame(lines[..n] + rest, normalize)
  }

  /** They do exactly when no text defined for a file or function is itself a definition. */
  lemma ParsesSameIff(lines: seq<Line>)
    ensures AlwaysParsesSame(lines) <==> AllPlain(lines, COUNTED)
  {
    if AllPlain(lines, COUNTED) {
      forall n: nat, rest: seq<Line>, normalize: string -> string | n <= |lines| && AllPlain(rest, COUNTED)
        ensures ParsesSame(lines[..n] + rest, normalize)
      {
        ExpandedParsesSame(lines[..n] + rest, normalize);
      }
    } else {
      var k :| 0 <= k < |lines| && !PlainText(lines[k], COUNTED);
      var n, rest, kind, text := Differs(START, START, lines, k);
      DifferentCosts(lines[..n] + rest, Expand(START, lines[..n] + rest, UNCHANGED), kind, text);
      assert !ParsesSame(lines[..n] + rest, UNCHANGED);
    }
  }

  // ---- The harness's share ----

  const HARNESS := "bacnet_counts::CountingAlloc"
  const HELPER := "__aarch64_"

  predicate IsHarness(f: Name) { f.Some? && Find(f.value, HARNESS, 0) >= 0 }

  predicate IsHelperCall(e: Edge) { IsHarness(e.0) && e.1.Some? && HELPER <= e.1.value }

  /** Profiles the sum is asked for: no cost before the first function, no harness call before a callee. */
  ghost predicate FullyNamed(profile: Profile) {
    && (forall f :: f in profile.functions ==> f.Some?)
    && (forall e :: e in profile.edges ==> e.0.Some? && (IsHarness(e.0) ==> e.1.Some?))
  }

  ghost function HarnessIr(profile: Profile): int
    requires FullyNamed(profile)
  {
    SumBy(profile.functions, IsHarness) + SumInclusive(profile.edges, IsHelperCall)
  }

  function HarnessCost(): Event -> int {
    (e: Event) => match e
      case Own(_, _, fn, cost) => if IsHarness(fn) then cost else 0
      case Called(caller, callee, _, cost) => if IsHelperCall((caller, callee)) then cost else 0
  }

  lemma {:induction false} HarnessSplits(events: seq<Event>)
    ensures Total(events, FunctionCost(IsHarness)) + Total(events, InclusiveCost(IsHelperCall)) ==
            Total(events, HarnessCost())
    decreases |events|
  {
    if events != [] { HarnessSplits(events[1..]); }
  }

  /** The harness's share counts each of its own costs and each helper call once. */
  lemma HarnessShare(lines: seq<Line>, normalize: string -> string)
    requires FullyNamed(Parsed(lines, normalize))
    ensures HarnessIr(Parsed(lines, normalize)) == Total(Trace(START, lines, normalize), HarnessCost())
  {
    ParsedSums(lines, normalize, Every(), IsHarness, IsHelperCall);
    HarnessSplits(Trace(START, lines, normalize));
  }
}
