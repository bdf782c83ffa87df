/**
 * What a profile says, line by line and from its lines alone: each cost line's number, file and function,
 * and whether its cost is a call's. The reader that keeps its place from line to line agrees with it.
 */
module ProfileLines {
  import opened Search
  import opened Texts
  import opened Callgrind

  type Lines = seq<Line>

  /** The last line before `i` that is such a line, or -1. */
  function Last(lines: Lines, i: nat, such: Line -> bool): (j: int)
    requires i <= |lines|
    ensures -1 <= j < i && (j >= 0 ==> such(lines[j]))
  {
    if i == 0 then -1 else if such(lines[i - 1]) then i - 1 else Last(lines, i - 1, such)
  }

  lemma {:induction false} LastIff(lines: Lines, i: nat, such: Line -> bool, j: int)
    requires i <= |lines|
    ensures Last(lines, i, such) == j <==>
            -1 <= j < i && (j >= 0 ==> such(lines[j])) && forall k :: 0 <= k && j < k < i ==> !such(lines[k])
  {
    if i > 0 && !such(lines[i - 1]) { LastIff(lines, i - 1, such, j); }
  }

  // ---- Positions ----

  function Absolute(): Line -> bool { (l: Line) => l.Cost? && l.position.At? }

  /** What the relative positions among these lines add up to. */
  function Moves(lines: Lines, lo: nat, hi: nat): int
    requires lo <= hi <= |lines|
    decreases hi - lo
  {
    if lo == hi then 0
    else (if lines[lo].Cost? && lines[lo].position.By? then lines[lo].position.delta else 0) + Moves(lines, lo + 1, hi)
  }

  /** The number reached before line `i`: the last absolute position, and every move since. */
  function Number(lines: Lines, i: nat): int
    requires i <= |lines|
  {
    var a := Last(lines, i, Absolute());
    if a < 0 then Moves(lines, 0, i) else lines[a].position.line + Moves(lines, a + 1, i)
  }

  // ---- Names ----

  const FILE_KEYS: set<Key> := {Fl, Fi, Fe, Cfl, Cfi}
  const FUNCTION_KEYS: set<Key> := {Fn, Cfn}
  const OBJECT_KEYS: set<Key> := {Ob, Cob}

  /** The keys whose values share their ids with this key's. */
  function Alike(key: Key): set<Key> {
    if key in FILE_KEYS then FILE_KEYS else if key in FUNCTION_KEYS then FUNCTION_KEYS else OBJECT_KEYS
  }

  function Keyed(keys: set<Key>): Line -> bool { (l: Line) => l.Named? && l.key in keys }

  function Defining(keys: set<Key>, id: string): Line -> bool {
    (l: Line) => l.Named? && l.key in keys && IsDefinition(l.value) && ParseRef(l.value).value.0 == id
  }

  /** The text that a value on line `j` stands for: what it defines, or what its id was last defined as, or itself. */
  function TextAt(lines: Lines, j: nat): string
    requires j < |lines| && lines[j].Named?
  {
    var value := lines[j].value;
    match ParseRef(value)
    case None => value
    case Some((_, Some(text))) => text
    case Some((id, None)) =>
      var d := Last(lines, j, Defining(Alike(lines[j].key), id));
      if d < 0 then value else ParseRef(lines[d].value).value.1.value
  }

  /** The text of the last line before `i` with one of these keys. */
  function LastText(lines: Lines, i: nat, keys: set<Key>): Option<string>
    requires i <= |lines|
  {
    var j := Last(lines, i, Keyed(keys));
    if j < 0 then None else Some(TextAt(lines, j))
  }

  /** A function starts over in the file of the last `fl`; `fi` and `fe` move to another within it. */
  function FileAt(lines: Lines, i: nat): Option<string>
    requires i <= |lines|
  {
    var j := Last(lines, i, Keyed({Fl, Fi, Fe, Fn}));
    if j < 0 then None else if lines[j].key.Fn? then LastText(lines, j, {Fl}) else Some(TextAt(lines, j))
  }

  function SymbolAt(lines: Lines, i: nat, key: Key, normalize: string -> string): Option<string>
    requires i <= |lines|
  {
    var text := LastText(lines, i, {key});
    if text.None? then None else Some(normalize(text.value))
  }

  function Paying(): Line -> bool { (l: Line) => l.Calls? || l.Cost? }

  /** How many calls wait for their cost before line `i`. */
  function CallsAt(lines: Lines, i: nat): Option<int>
    requires i <= |lines|
  {
    var c := Last(lines, i, Paying());
    if c >= 0 && lines[c].Calls? then Some(lines[c].count) else None
  }

  // ---- Events ----

  /** What cost line `i` says. */
  function EventAt(lines: Lines, i: nat, normalize: string -> string): Event
    requires i < |lines| && lines[i].Cost?
  {
    var caller, calls := SymbolAt(lines, i, Fn, normalize), CallsAt(lines, i);
    if calls.Some? then Called(caller, SymbolAt(lines, i, Cfn, normalize), calls.value, lines[i].cost)
    else Own(FileAt(lines, i), Number(lines, i + 1), caller, lines[i].cost)
  }

  /** What the lines from `n` on say. */
  function EventsFrom(lines: Lines, n: nat, normalize: string -> string): seq<Event>
    requires n <= |lines|
    decreases |lines| - n
  {
    if n == |lines| then []
    else (if lines[n].Cost? then [EventAt(lines, n, normalize)] else []) + EventsFrom(lines, n + 1, normalize)
  }

  // ---- The reader's place ----

  /** The names known before line `i` are those last defined. */
  ghost predicate Knows(lines: Lines, i: nat, names: Names)
    requires i <= |lines|
  {
    forall key, id {:trigger KnowsId(lines, i, names, key, id)} :: KnowsId(lines, i, names, key, id)
  }

  ghost predicate KnowsId(lines: Lines, i: nat, names: Names, key: Key, id: string)
    requires i <= |lines|
  {
    var d := Last(lines, i, Defining(Alike(key), id));
    && ((KindOf(key), id) in names <==> d >= 0)
    && (d >= 0 ==> names[(KindOf(key), id)] == ParseRef(lines[d].value).value.1.value)
  }

  /** The reader is where the lines before `i` lead. */
  ghost predicate IsAt(lines: Lines, i: nat, place: Place, normalize: string -> string)
    requires i <= |lines|
  {
    && Knows(lines, i, place.names) && place.line == Number(lines, i) && place.pending == CallsAt(lines, i)
    && place.file == LastText(lines, i, {Fl}) && place.subFile == FileAt(lines, i)
    && place.fn == SymbolAt(lines, i, Fn, normalize) && place.callee == SymbolAt(lines, i, Cfn, normalize)
  }

  lemma {:induction false} MovesStep(lines: Lines, lo: nat, hi: nat)
    requires lo <= hi < |lines|
    ensures Moves(lines, lo, hi + 1) == Moves(lines, lo, hi) +
            if lines[hi].Cost? && lines[hi].position.By? then lines[hi].position.delta else 0
    decreases hi - lo
  {
    if lo < hi { MovesStep(lines, lo + 1, hi); } else { assert Moves(lines, hi + 1, hi + 1) == 0; }
  }

  lemma NextNumber(place: Place, line: Line, normalize: string -> string)
    ensures Next(place, line, normalize).line ==
            if !line.Cost? then place.line
            else match line.position { case At(n) => n case By(delta) => place.line + delta case Same => place.line }
  {
  }

  lemma NumberStep(lines: Lines, i: nat)
    requires i < |lines|
    ensures Number(lines, i + 1) ==
            if !lines[i].Cost? then Number(lines, i)
            else match lines[i].position
                 case At(n) => n
                 case By(delta) => Number(lines, i) + delta
                 case Same => Number(lines, i)
  {
    var a := Last(lines, i, Absolute());
    if Absolute()(lines[i]) { assert Moves(lines, i + 1, i + 1) == 0; } else { MovesStep(lines, a + 1, i); }
  }

  lemma NextPending(place: Place, line: Line, normalize: string -> string)
    ensures Next(place, line, normalize).pending ==
            if line.Calls? then Some(line.count) else if line.Cost? then None else place.pending
  {
  }

  lemma AlikeIff(a: Key, b: Key)
    ensures a in Alike(b) <==> KindOf(a) == KindOf(b)
  {
  }

  lemma NextNames(place: Place, line: Line, normalize: string -> string, kind: Kind, id: string)
    ensures var names := Next(place, line, normalize).names;
            if line.Named? && KindOf(line.key) == kind && IsDefinition(line.value) && ParseRef(line.value).value.0 == id
            then (kind, id) in names && names[(kind, id)] == ParseRef(line.value).value.1.value
            else ((kind, id) in names <==> (kind, id) in place.names)
                 && ((kind, id) in names ==> names[(kind, id)] == place.names[(kind, id)])
  {
  }

  lemma KnowsNext(lines: Lines, i: nat, place: Place, normalize: string -> string)
    requires i < |lines| && Knows(lines, i, place.names)
    ensures Knows(lines, i + 1, Next(place, lines[i], normalize).names)
  {
    var n, names := i + 1, Next(place, lines[i], normalize).names;
    forall key, id ensures KnowsId(lines, n, names, key, id) {
      assert KnowsId(lines, i, place.names, key, id);
      KnowsIdNext(lines, i, place, normalize, key, id);
    }
  }

  lemma KnowsIdNext(lines: Lines, i: nat, place: Place, normalize: string -> string, key: Key, id: string)
    requires i < |lines| && KnowsId(lines, i, place.names, key, id)
    ensures KnowsId(lines, i + 1, Next(place, lines[i], normalize).names, key, id)
  {
    NextNames(place, lines[i], normalize, KindOf(key), id);
    if lines[i].Named? { AlikeIff(lines[i].key, key); }
    LastDefining(lines, i + 1, Alike(key), id);
  }

  lemma LastDefining(lines: Lines, i: nat, keys: set<Key>, id: string)
    requires 0 < i <= |lines|
    ensures var line, such := lines[i - 1], Defining(keys, id);
            Last(lines, i, such) ==
              if line.Named? && line.key in keys && IsDefinition(line.value) && ParseRef(line.value).value.0 == id
              then i - 1 else Last(lines, i - 1, such)
  {
  }

  lemma TextRead(lines: Lines, i: nat, names: Names)
    requires i < |lines| && lines[i].Named? && Knows(lines, i, names)
    ensures NameOf(names, KindOf(lines[i].key), lines[i].value) == TextAt(lines, i)
  {
    var ref := ParseRef(lines[i].value);
    if ref.Some? { assert KnowsId(lines, i, names, lines[i].key, ref.value.0); }
  }

  lemma NextPlace(place: Place, line: Line, normalize: string -> string)
    ensures var next := Next(place, line, normalize);
            if !line.Named? then
              && next.file == place.file && next.subFile == place.subFile
              && next.fn == place.fn && next.callee == place.callee
            else
              var name := NameOf(place.names, KindOf(line.key), line.value);
              && next.file == (if line.key.Fl? then Some(name) else place.file)
              && next.subFile == (if line.key in {Fl, Fi, Fe} then Some(name) else if line.key.Fn? then place.file
                                  else place.subFile)
              && next.fn == (if line.key.Fn? then Some(normalize(name)) else place.fn)
              && next.callee == (if line.key.Cfn? then Some(normalize(name)) else place.callee)
  {
  }

  lemma TextStep(lines: Lines, i: nat, keys: set<Key>)
    requires i < |lines|
    ensures LastText(lines, i + 1, keys) ==
            if lines[i].Named? && lines[i].key in keys then Some(TextAt(lines, i)) else LastText(lines, i, keys)
  {
  }

  lemma SymbolStep(lines: Lines, i: nat, key: Key, normalize: string -> string)
    requires i < |lines|
    ensures SymbolAt(lines, i + 1, key, normalize) ==
            if lines[i].Named? && lines[i].key == key then Some(normalize(TextAt(lines, i)))
            else SymbolAt(lines, i, key, normalize)
  {
    TextStep(lines, i, {key});
  }

  lemma SymbolsStep(lines: Lines, i: nat, place: Place, normalize: string -> string)
    requires i < |lines| && place.fn == SymbolAt(lines, i, Fn, normalize)
    requires place.callee == SymbolAt(lines, i, Cfn, normalize)
    requires lines[i].Named? ==> NameOf(place.names, KindOf(lines[i].key), lines[i].value) == TextAt(lines, i)
    ensures Next(place, lines[i], normalize).fn == SymbolAt(lines, i + 1, Fn, normalize)
    ensures Next(place, lines[i], normalize).callee == SymbolAt(lines, i + 1, Cfn, normalize)
  {
    NextPlace(place, lines[i], normalize);
    SymbolStep(lines, i, Fn, normalize);
    SymbolStep(lines, i, Cfn, normalize);
  }

  lemma FileStep(lines: Lines, i: nat)
    requires i < |lines|
    ensures FileAt(lines, i + 1) ==
            if lines[i].Named? && lines[i].key in {Fl, Fi, Fe} then Some(TextAt(lines, i))
            else if lines[i].Named? && lines[i].key.Fn? then LastText(lines, i, {Fl})
            else FileAt(lines, i)
  {
  }

  lemma FilesStep(lines: Lines, i: nat, place: Place, normalize: string -> string)
    requires i < |lines| && place.file == LastText(lines, i, {Fl}) && place.subFile == FileAt(lines, i)
    requires lines[i].Named? ==> NameOf(place.names, KindOf(lines[i].key), lines[i].value) == TextAt(lines, i)
    ensures Next(place, lines[i], normalize).file == LastText(lines, i + 1, {Fl})
    ensures Next(place, lines[i], normalize).subFile == FileAt(lines, i + 1)
  {
    NextPlace(place, lines[i], normalize);
    TextStep(lines, i, {Fl});
    FileStep(lines, i);
  }

  lemma CallsStep(lines: Lines, i: nat)
    requires i < |lines|
    ensures CallsAt(lines, i + 1) ==
            if lines[i].Calls? then Some(lines[i].count) else if lines[i].Cost? then None else CallsAt(lines, i)
  {
  }

  /** A line leads to the next. */
  lemma IsAtNext(lines: Lines, i: nat, place: Place, normalize: string -> string)
    requires i < |lines| && IsAt(lines, i, place, normalize)
    ensures IsAt(lines, i + 1, Next(place, lines[i], normalize), normalize)
  {
    KnowsNext(lines, i, place, normalize);
    NextNumber(place, lines[i], normalize);
    NumberStep(lines, i);
    NextPending(place, lines[i], normalize);
    CallsStep(lines, i);
    if lines[i].Named? { TextRead(lines, i, place.names); }
    SymbolsStep(lines, i, place, normalize);
    FilesStep(lines, i, place, normalize);
  }

  /** One cost line's event is what the lines say. */
  lemma EventRead(lines: Lines, i: nat, place: Place, normalize: string -> string)
    requires i < |lines| && IsAt(lines, i, place, normalize)
    ensures EventsOf(place, lines[i]) == if lines[i].Cost? then [EventAt(lines, i, normalize)] else []
  {
    NextNumber(place, lines[i], normalize);
    NumberStep(lines, i);
  }

  lemma {:induction false} TraceFrom(lines: Lines, i: nat, place: Place, normalize: string -> string)
    requires i <= |lines| && IsAt(lines, i, place, normalize)
    ensures Trace(place, lines[i..], normalize) == EventsFrom(lines, i, normalize)
    decreases |lines| - i
  {
    if i < |lines| {
      EventRead(lines, i, place, normalize);
      IsAtNext(lines, i, place, normalize);
      TraceFrom(lines, i + 1, Next(place, lines[i], normalize), normalize);
      assert lines[i..][0] == lines[i] && lines[i..][1..] == lines[i + 1..];
    }
  }

  /** The reader reports, for each cost line in order, what the lines say of it. */
  lemma TraceReads(lines: Lines, normalize: string -> string)
    ensures Trace(START, lines, normalize) == EventsFrom(lines, 0, normalize)
  {
    StartsAt(lines, normalize);
    TraceFrom(lines, 0, START, normalize);
    assert lines[0..] == lines;
  }

  lemma StartsAt(lines: Lines, normalize: string -> string)
    ensures IsAt(lines, 0, START, normalize)
  {
    forall key, id ensures KnowsId(lines, 0, START.names, key, id) {
      assert Last(lines, 0, Defining(Alike(key), id)) == -1;
    }
    assert Moves(lines, 0, 0) == 0;
  }

  // ---- References ----

  predicate AllDigits(s: string) { s != [] && forall i :: 0 <= i < |s| ==> '0' <= s[i] <= '9' }

  lemma {:induction false} DigitsRun(s: string)
    ensures forall i :: 0 <= i < DigitsAt(s) ==> '0' <= s[i] <= '9'
    ensures DigitsAt(s) < |s| ==> !('0' <= s[DigitsAt(s)] <= '9')
  {
    if s != [] && '0' <= s[0] <= '9' { DigitsRun(s[1..]); }
  }

  lemma RefHead(value: string, id: string, rest: string)
    requires AllDigits(id) && value == "(" + id + ")" + rest
    ensures DigitsAt(value[1..]) == |id| && value[1..1 + |id|] == id && value[1 + |id|] == ')'
    ensures value[2 + |id|..] == rest
  {
    var s := value[1..];
    assert s == id + ")" + rest;
    DigitsRun(s);
    var n := DigitsAt(s);
    assert forall i :: 0 <= i < |id| ==> s[i] == id[i];
    assert s[|id|] == ')';
  }

  lemma RefParts(value: string)
    requires ParseRef(value).Some?
    ensures var (id, text) := ParseRef(value).value;
            AllDigits(id) && value == "(" + id + ")" + match text { case None => "" case Some(t) => " " + t }
  {
    var n := DigitsAt(value[1..]);
    DigitsRun(value[1..]);
    var id, rest := value[1..1 + n], value[2 + n..];
    assert forall i :: 0 <= i < n ==> id[i] == value[1..][i];
    assert value == "(" + id + ")" + rest;
    assert rest != [] ==> rest == [rest[0]] + rest[1..];
  }

  /** A value is a reference exactly when it is digits in parentheses, and a definition when space and text follow. */
  lemma RefIff(value: string, id: string, text: string)
    ensures ParseRef(value) == Some((id, None)) <==> AllDigits(id) && value == "(" + id + ")"
    ensures ParseRef(value) == Some((id, Some(text))) <==> AllDigits(id) && value == "(" + id + ") " + text
  {
    if ParseRef(value).Some? { RefParts(value); }
    assert "(" + id + ") " + text == "(" + id + ")" + (" " + text);
    if AllDigits(id) && value == "(" + id + ")" { RefHead(value, id, ""); }
    if AllDigits(id) && value == "(" + id + ") " + text { RefHead(value, id, " " + text); }
  }

  // ---- The profile ----

  function OneLine(key: (Name, int)): Event -> int { LineCost((k: (Name, int)) => k == key) }

  function OneFunction(f: Name): Event -> int { FunctionCost((k: Name) => k == f) }

  function OneEdge(e: Edge): Edge -> bool { (k: Edge) => k == e }

  function Paid<K>(costs: Costs<K>, key: K): int { if key in costs then costs[key] else 0 }

  function Edged(edges: map<Edge, (int, int)>, key: Edge): (int, int) { if key in edges then edges[key] else (0, 0) }

  predicate IsOwn(event: Event, l: (Name, int)) { event.Own? && event.file == l.0 && event.line == l.1 }

  predicate IsOf(event: Event, f: Name) { event.Own? && event.fn == f }

  predicate IsCall(event: Event, e: Edge) { event.Called? && event.caller == e.0 && event.callee == e.1 }

  /** Each line with a self cost is in the profile, and no other, with the sum of those costs; */
  lemma {:induction false} LinesExact(profile: Profile, events: seq<Event>, l: (Name, int))
    ensures var r := Tally(profile, events).lines;
            && (l in r <==> l in profile.lines || exists i :: 0 <= i < |events| && IsOwn(events[i], l))
            && Paid(r, l) == Paid(profile.lines, l) + Total(events, OneLine(l))
    decreases |events|
  {
    if events != [] {
      LinesExact(Add(profile, events[0]), events[1..], l);
      assert forall i :: 1 <= i < |events| ==> events[i] == events[1..][i - 1];
    }
  }

  /** so is each function, */
  lemma {:induction false} FunctionsExact(profile: Profile, events: seq<Event>, f: Name)
    ensures var r := Tally(profile, events).functions;
            && (f in r <==> f in profile.functions || exists i :: 0 <= i < |events| && IsOf(events[i], f))
            && Paid(r, f) == Paid(profile.functions, f) + Total(events, OneFunction(f))
    decreases |events|
  {
    if events != [] {
      FunctionsExact(Add(profile, events[0]), events[1..], f);
      assert forall i :: 1 <= i < |events| ==> events[i] == events[1..][i - 1];
    }
  }

  /** and each edge with its calls and their inclusive costs. */
  lemma {:induction false} EdgesExact(profile: Profile, events: seq<Event>, e: Edge)
    ensures var r := Tally(profile, events).edges;
            && (e in r <==> e in profile.edges || exists i :: 0 <= i < |events| && IsCall(events[i], e))
            && Edged(r, e).0 == Edged(profile.edges, e).0 + Total(events, CallCount(OneEdge(e)))
            && Edged(r, e).1 == Edged(profile.edges, e).1 + Total(events, InclusiveCost(OneEdge(e)))
    decreases |events|
  {
    if events != [] {
      EdgesExact(Add(profile, events[0]), events[1..], e);
      assert forall i :: 1 <= i < |events| ==> events[i] == events[1..][i - 1];
    }
  }

  ghost predicate LineIs(profile: Profile, events: seq<Event>, l: (Name, int)) {
    && (l in profile.lines <==> exists i :: 0 <= i < |events| && IsOwn(events[i], l))
    && Paid(profile.lines, l) == Total(events, OneLine(l))
  }

  ghost predicate FunctionIs(profile: Profile, events: seq<Event>, f: Name) {
    && (f in profile.functions <==> exists i :: 0 <= i < |events| && IsOf(events[i], f))
    && Paid(profile.functions, f) == Total(events, OneFunction(f))
  }

  ghost predicate EdgeIs(profile: Profile, events: seq<Event>, e: Edge) {
    && (e in profile.edges <==> exists i :: 0 <= i < |events| && IsCall(events[i], e))
    && Edged(profile.edges, e).0 == Total(events, CallCount(OneEdge(e)))
    && Edged(profile.edges, e).1 == Total(events, InclusiveCost(OneEdge(e)))
  }

  lemma LineOfEvents(events: seq<Event>, l: (Name, int))
    ensures LineIs(Tally(NOTHING, events), events, l)
  {
    LinesExact(NOTHING, events, l);
  }

  lemma FunctionOfEvents(events: seq<Event>, f: Name)
    ensures FunctionIs(Tally(NOTHING, events), events, f)
  {
    FunctionsExact(NOTHING, events, f);
  }

  lemma EdgeOfEvents(events: seq<Event>, e: Edge)
    ensures EdgeIs(Tally(NOTHING, events), events, e)
  {
    EdgesExact(NOTHING, events, e);
  }

  /** A parsed profile holds exactly what the lines say: the costs of each line, function and edge they name. */
  lemma ProfileIs(lines: Lines, normalize: string -> string, l: (Name, int), f: Name, e: Edge)
    ensures LineIs(Parsed(lines, normalize), EventsFrom(lines, 0, normalize), l)
    ensures FunctionIs(Parsed(lines, normalize), EventsFrom(lines, 0, normalize), f)
    ensures EdgeIs(Parsed(lines, normalize), EventsFrom(lines, 0, normalize), e)
  {
    TraceReads(lines, normalize);
    LineOfEvents(EventsFrom(lines, 0, normalize), l);
    FunctionOfEvents(EventsFrom(lines, 0, normalize), f);
    EdgeOfEvents(EventsFrom(lines, 0, normalize), e);
  }

  // ---- The harness ----

  /** The harness is every function whose name holds its allocator's. */
  lemma HarnessIff(f: Name)
    ensures IsHarness(f) <==>
            f.Some? && exists a: string, b: string :: f.value == a + "bacnet_counts::CountingAlloc" + b
  {
    if f.Some? {
      var name, i := f.value, Find(f.value, HARNESS, 0);
      if i >= 0 {
        assert name[i..i + |HARNESS|] == HARNESS;
        assert name == name[..i] + HARNESS + name[i + |HARNESS|..];
      }
      if a: string, b: string :| name == a + HARNESS + b {
        assert name[|a|..|a| + |HARNESS|] == HARNESS;
        assert OccursAt(name, HARNESS, |a|);
      }
    }
  }

  /** A helper call is one from it to an outlined atomic. */
  lemma HelperIff(e: Edge)
    ensures IsHelperCall(e) <==> IsHarness(e.0) && e.1.Some? && exists rest: string :: e.1.value == "__aarch64_" + rest
  {
    if e.1.Some? && HELPER <= e.1.value { assert e.1.value == HELPER + e.1.value[|HELPER|..]; }
  }
}
