/**
 The mission parser: a loop over a flat XML token stream that keeps the names of the open
 elements on a stack, and sometimes lets the decoder swallow a whole element at once.
 The reference is a recursive walk of the element tree the tokens came from.
 */
module Kml {
  import opened Wrappers
  import opened Text

  // ---- Documents and their tokens -------------------------------------------------------

  datatype Token = Start(name: string) | End(name: string) | Chars(text: string)

  datatype Node = Element(name: string, kids: seq<Node>) | CharData(text: string)

  function FlattenNode(n: Node): seq<Token>
    decreases n, 1
  {
    match n
    case CharData(text) => [Chars(text)]
    case Element(name, kids) => [Start(name)] + Flatten(kids) + [End(name)]
  }

  function Flatten(ns: seq<Node>): seq<Token>
    decreases ns, 0
  {
    if ns == [] then [] else FlattenNode(ns[0]) + Flatten(ns[1..])
  }

  /** What decoding an element into a string yields: its own character data, without its descendants'. */
  function DirectText(kids: seq<Node>): string {
    if kids == [] then ""
    else (if kids[0].CharData? then kids[0].text else "") + DirectText(kids[1..])
  }

  // ---- Missions ---------------------------------------------------------------------------

  datatype Point = Point(lat: real, lng: real, alt: real, actions: seq<string>)

  datatype Mission = Mission(name: string, author: string, date: Option<int>, waypoints: seq<Point>)

  const EMPTY_MISSION := Mission("", "", None, [])

  datatype ParseError = Syntax | NoWaypoints

  /** The number readers of the standard library, which this model does not look into. */
  datatype Readers = Readers(float: string -> Option<real>, millis: string -> Option<int>)

  function ParseCoordinate(rd: Readers, raw: string): (r: Option<Point>)
    ensures r.Some? ==> r.value.actions == []
  {
    var parts := Split(TrimSpace(raw), ',');
    if |parts| < 2 then None
    else
      match (rd.float(TrimSpace(parts[0])), rd.float(TrimSpace(parts[1])))
      case (Some(lng), Some(lat)) =>
        var alt := if |parts| >= 3 then rd.float(TrimSpace(parts[2])) else None;
        Some(Point(lat, lng, if alt.Some? then alt.value else 0.0, []))
      case _ => None
  }

  /** What a field of a coordinate stands for. */
  function Field(rd: Readers, field: string): Option<real> {
    rd.float(TrimSpace(field))
  }

  /**
   Fields joined by commas: longitude, then latitude, then, if there is a third and it can be read, altitude,
   whatever white space stands around them; fewer than two, or one of the two unreadable, is no coordinate.
   */
  lemma CoordinateFields(rd: Readers, fields: seq<string>)
    requires |fields| >= 1 && forall f :: f in fields ==> ',' !in f
    ensures var p := ParseCoordinate(rd, Join(fields, ','));
            && (p.Some? <==> |fields| >= 2 && Field(rd, fields[0]).Some? && Field(rd, fields[1]).Some?)
            && (p.Some? ==>
                  && Some(p.value.lng) == Field(rd, fields[0]) && Some(p.value.lat) == Field(rd, fields[1])
                  && p.value.alt == if |fields| >= 3 && Field(rd, fields[2]).Some?
                                    then Field(rd, fields[2]).value else 0.0)
  {
    hide TrimSpace, Split, Join, IsSpace;
    JoinSplit(fields, ',');
    CommaIsNoSpace();
    SplitTrimmed(Join(fields, ','), ',');
    var parts := Split(TrimSpace(Join(fields, ',')), ',');
    assert |parts| == |fields| && forall k :: 0 <= k < |parts| ==> TrimSpace(parts[k]) == TrimSpace(fields[k]);
  }

  lemma CommaIsNoSpace()
    ensures !IsSpace(',')
  {
  }

  // ---- The recursive walk -----------------------------------------------------------------

  predicate InPlacemark(path: seq<string>) {
    "Placemark" in path
  }

  /** Whether an element met under `path` is swallowed whole rather than descended into. */
  predicate Swallows(path: seq<string>, name: string, m: Mission) {
    match name
    case "coordinates" => InPlacemark(path)
    case "actionActuatorFunc" => InPlacemark(path) && m.waypoints != []
    case "author" => true
    case "createTime" => true
    case "name" => path != [] && path[|path| - 1] == "Document" && m.name == ""
    case _ => false
  }

  function AddAction(points: seq<Point>, action: string): seq<Point>
    requires points != []
  {
    var last := points[|points| - 1];
    points[|points| - 1 := last.(actions := last.actions + [action])]
  }

  /** The effect on the mission of a swallowed element with character data `raw`. */
  function Absorb(rd: Readers, name: string, raw: string, m: Mission): Mission
    requires name == "actionActuatorFunc" ==> m.waypoints != []
  {
    match name
    case "coordinates" =>
      var p := ParseCoordinate(rd, raw);
      if p.Some? then m.(waypoints := m.waypoints + [p.value]) else m
    case "actionActuatorFunc" =>
      var v := TrimSpace(raw);
      if v != "" then m.(waypoints := AddAction(m.waypoints, v)) else m
    case "author" => m.(author := TrimSpace(raw))
    case "createTime" =>
      var ts := rd.millis(TrimSpace(raw));
      if ts.Some? then m.(date := ts) else m
    case "name" => m.(name := TrimSpace(raw))
    case _ => m
  }

  function WalkNode(rd: Readers, path: seq<string>, n: Node, m: Mission): Mission
    decreases n, 1
  {
    match n
    case CharData(_) => m
    case Element(name, kids) =>
      if Swallows(path, name, m) then Absorb(rd, name, DirectText(kids), m)
      else Walk(rd, path + [name], kids, m)
  }

  function Walk(rd: Readers, path: seq<string>, ns: seq<Node>, m: Mission): Mission
    decreases ns, 0
  {
    if ns == [] then m else Walk(rd, path, ns[1..], WalkNode(rd, path, ns[0], m))
  }

  // ---- A position inside a document -------------------------------------------------------

  /** What is still to come at a position: the following siblings, and the same for each open element. */
  datatype Zipper = Top(rest: seq<Node>) | Inside(rest: seq<Node>, name: string, outer: Zipper)

  function Path(z: Zipper): seq<string> {
    if z.Top? then [] else Path(z.outer) + [z.name]
  }

  function Pending(z: Zipper): seq<Token> {
    Flatten(z.rest) + if z.Top? then [] else [End(z.name)] + Pending(z.outer)
  }

  /** The walk continued from a position to the end of the document. */
  function Resume(rd: Readers, z: Zipper, m: Mission): Mission {
    var m' := Walk(rd, Path(z), z.rest, m);
    if z.Top? then m' else Resume(rd, z.outer, m')
  }

  function Outermost(z: Zipper): seq<Node> {
    if z.Top? then z.rest else Outermost(z.outer)
  }

  function Skip(z: Zipper): Zipper
    requires z.rest != []
  {
    z.(rest := z.rest[1..])
  }

  function Enter(z: Zipper): Zipper
    requires z.rest != [] && z.rest[0].Element?
  {
    Inside(z.rest[0].kids, z.rest[0].name, Skip(z))
  }

  lemma PendingClose(z: Zipper)
    requires z.rest == []
    ensures Pending(z) == if z.Top? then [] else [End(z.name)] + Pending(z.outer)
  {
  }

  lemma PendingSkip(z: Zipper)
    requires z.rest != []
    ensures Pending(z) == FlattenNode(z.rest[0]) + Pending(Skip(z))
  {
    var first, others := FlattenNode(z.rest[0]), Flatten(z.rest[1..]);
    var tail := if z.Top? then [] else [End(z.name)] + Pending(z.outer);
    calc {
      Pending(z);
      (first + others) + tail;
      first + (others + tail);
    }
  }

  lemma PendingEnter(z: Zipper)
    requires z.rest != [] && z.rest[0].Element?
    ensures Pending(z) == [Start(z.rest[0].name)] + Pending(Enter(z))
    ensures Pending(Enter(z)) == Flatten(z.rest[0].kids) + [End(z.rest[0].name)] + Pending(Skip(z))
  {
    var n, after := z.rest[0], Pending(Skip(z));
    PendingSkip(z);
    Regroup([Start(n.name)], Flatten(n.kids), [End(n.name)], after);
  }

  /** The next token tells what the position is at, and what is pending after it. */
  lemma PendingShape(z: Zipper)
    ensures z.rest == [] ==> Pending(z) == if z.Top? then [] else [End(z.name)] + Pending(z.outer)
    ensures z.rest != [] && z.rest[0].CharData? ==> Pending(z) == [Chars(z.rest[0].text)] + Pending(Skip(z))
    ensures z.rest != [] && z.rest[0].Element? ==> Pending(z) == [Start(z.rest[0].name)] + Pending(Enter(z))
  {
    if z.rest == [] {
      PendingClose(z);
    } else if z.rest[0].Element? {
      PendingEnter(z);
    } else {
      PendingSkip(z);
    }
  }

  lemma Behead(t: Token, p: seq<Token>, close: seq<Token>)
    ensures (([t] + p) + close)[0] == t
    ensures (([t] + p) + close)[1..] == p + close
  {
  }

  lemma Regroup(a: seq<Token>, b: seq<Token>, c: seq<Token>, d: seq<Token>)
    ensures (a + b + c) + d == a + (b + c + d)
    ensures b + (c + d) == b + c + d
  {
  }

  // ---- The decoder's DecodeElement --------------------------------------------------------

  /**
   Reads on from just after a start tag to the matching end tag, keeping the character data at
   depth zero. `tokens` is the part of `full` that could be lexed: running out of it is an error.
   */
  method DecodeElement(tokens: seq<Token>, start: nat,
                       ghost full: seq<Token>, ghost name: string, ghost kids: seq<Node>, ghost after: seq<Token>)
    returns (ok: bool, raw: string, next: nat)
    requires start <= |tokens| <= |full| && tokens == full[..|tokens|]
    requires full[start..] == Flatten(kids) + [End(name)] + after
    ensures ok <==> start + |Flatten(kids)| + 1 <= |tokens|
    ensures ok ==> raw == DirectText(kids) && next == start + |Flatten(kids)| + 1
  {
    hide Flatten, Pending, Path, Outermost, DirectText, Skip, Enter;
    var depth := 0;
    ghost var z := Top(kids);
    ghost var close := [End(name)] + after;
    raw, next := "", start;
    ElementStart(full[start..], kids, name, after);
    while next < |tokens|
      invariant start <= next <= |tokens|
      invariant full[next..] == Pending(z) + close
      invariant depth == |Path(z)|
      invariant raw + DirectText(Outermost(z)) == DirectText(kids)
    {
      PendingShape(z);
      TextAt(z);
      assert tokens[next] == full[next..][0];
      assert full[next + 1..] == full[next..][1..];
      match tokens[next] {
        case Start(tag) =>
          Behead(Start(tag), Pending(Enter(z)), close);
          depth := depth + 1;
          z := Enter(z);
        case End(tag) =>
          if depth == 0 {
            assert |full| - next == 1 + |after|;
            return true, raw, next + 1;
          }
          Behead(End(tag), Pending(z.outer), close);
          depth := depth - 1;
          z := z.outer;
        case Chars(text) =>
          Behead(Chars(text), Pending(Skip(z)), close);
          if depth == 0 { raw := raw + text; }
          z := Skip(z);
      }
      next := next + 1;
    }
    assert |full| - next >= |close|;
    ok := false;
  }

  lemma ElementStart(tokens: seq<Token>, kids: seq<Node>, name: string, after: seq<Token>)
    requires tokens == Flatten(kids) + [End(name)] + after
    ensures tokens == Pending(Top(kids)) + ([End(name)] + after)
    ensures Path(Top(kids)) == [] && Outermost(Top(kids)) == kids
  {
  }

  /** How one step from a position changes the depth and the character data still to come at depth zero. */
  lemma TextAt(z: Zipper)
    ensures |Path(z)| == 0 <==> z.Top?
    ensures z.rest == [] ==>
              if z.Top? then DirectText(Outermost(z)) == ""
              else |Path(z.outer)| == |Path(z)| - 1 && Outermost(z.outer) == Outermost(z)
    ensures z.rest != [] && z.rest[0].CharData? ==>
              && Skip(z).Top? == z.Top? && |Path(Skip(z))| == |Path(z)|
              && DirectText(Outermost(z)) == (if z.Top? then z.rest[0].text else "") + DirectText(Outermost(Skip(z)))
    ensures z.rest != [] && z.rest[0].Element? ==>
              |Path(Enter(z))| == |Path(z)| + 1 && DirectText(Outermost(Enter(z))) == DirectText(Outermost(z))
  {
    if z.rest != [] {
      assert Path(Skip(z)) == Path(z);
      if z.Inside? { assert Outermost(Skip(z)) == Outermost(z); }
    }
  }

  // ---- parseKML ---------------------------------------------------------------------------

  /** The case distinction on a start tag just pushed: does this element get decoded whole? */
  method Decides(stack: seq<string>, m: Mission) returns (swallow: bool)
    requires stack != []
    ensures swallow == Swallows(stack[..|stack| - 1], stack[|stack| - 1], m)
  {
    var name := stack[|stack| - 1];
    assert stack == stack[..|stack| - 1] + [name];
    match name {
      case "coordinates" => swallow := InPlacemark(stack);
      case "actionActuatorFunc" => swallow := InPlacemark(stack) && |m.waypoints| != 0;
      case "author" => swallow := true;
      case "createTime" => swallow := true;
      case "name" => swallow := |stack| >= 2 && stack[|stack| - 2] == "Document" && m.name == "";
      case _ => swallow := false;
    }
  }

  /**
   The token loop. The decoder hands over the tokens of a document `doc`; when `fault` is set it
   fails after `tokens`, otherwise it reaches the end of the file.
   */
  method ParseKml(rd: Readers, tokens: seq<Token>, fault: bool, ghost doc: seq<Node>)
    returns (r: Result<Mission, ParseError>)
    requires |tokens| <= |Flatten(doc)| && tokens == Flatten(doc)[..|tokens|]
    requires !fault ==> tokens == Flatten(doc)
    ensures fault ==> r == Err(Syntax)
    ensures !fault ==> var m := Walk(rd, [], doc, EMPTY_MISSION);
                       r == if m.waypoints == [] then Err(NoWaypoints) else Ok(m)
  {
    hide Walk, Resume, Swallows, Absorb, Flatten, Pending, DirectText, Skip, Enter;
    var m := EMPTY_MISSION;
    var stack: seq<string> := [];
    var pos := 0;
    ghost var full := Flatten(doc);
    ghost var z := Top(doc);
    StartOf(rd, doc);
    while pos < |tokens|
      invariant pos <= |tokens|
      invariant full[pos..] == Pending(z)
      invariant stack == Path(z)
      invariant Resume(rd, z, m) == Walk(rd, [], doc, EMPTY_MISSION)
    {
      PendingShape(z);
      assert tokens[pos] == full[pos..][0];
      assert full[pos + 1..] == full[pos..][1..];
      var tok := tokens[pos];
      pos := pos + 1;
      match tok {
        case Chars(_) =>
          ResumeText(rd, z, m);
          z := Skip(z);
        case End(name) =>
          ResumeEnd(rd, z, m);
          if |stack| > 0 && stack[|stack| - 1] == name {
            stack := stack[..|stack| - 1];
          }
          z := z.outer;
        case Start(name) =>
          stack := stack + [name];
          ghost var kids := z.rest[0].kids;
          assert stack[..|stack| - 1] == Path(z);
          var swallow := Decides(stack, m);
          PendingEnter(z);
          if swallow {
            ResumeSwallowed(rd, z, m);
            var ok, raw, next := DecodeElement(tokens, pos, full, name, kids, Pending(Skip(z)));
            if !ok { return Err(Syntax); }
            BehindElement(full, pos, Flatten(kids), name, Pending(Skip(z)));
            pos := next;
            stack := stack[..|stack| - 1];
            m := Absorb(rd, name, raw, m);
            z := Skip(z);
          } else {
            ResumeEntered(rd, z, m);
            z := Enter(z);
          }
      }
    }
    if fault { return Err(Syntax); }
    EndOf(rd, z, m);
    r := if |m.waypoints| == 0 then Err(NoWaypoints) else Ok(m);
  }

  lemma StartOf(rd: Readers, doc: seq<Node>)
    ensures Pending(Top(doc)) == Flatten(doc)
    ensures Resume(rd, Top(doc), EMPTY_MISSION) == Walk(rd, [], doc, EMPTY_MISSION)
  {
  }

  lemma EndOf(rd: Readers, z: Zipper, m: Mission)
    requires Pending(z) == []
    ensures Resume(rd, z, m) == m
  {
    PendingShape(z);
    assert z == Top([]);
  }

  lemma BehindElement(full: seq<Token>, pos: nat, inner: seq<Token>, name: string, after: seq<Token>)
    requires pos <= |full| && full[pos..] == inner + [End(name)] + after
    ensures pos + |inner| + 1 <= |full| && full[pos + |inner| + 1..] == after
  {
    assert full[pos + |inner| + 1..] == full[pos..][|inner| + 1..];
  }

  /** Character data leaves the mission alone, and so does an end tag. */
  lemma ResumeText(rd: Readers, z: Zipper, m: Mission)
    requires z.rest != [] && z.rest[0].CharData?
    ensures Path(Skip(z)) == Path(z) && Resume(rd, z, m) == Resume(rd, Skip(z), m)
  {
    ResumeSkip(rd, z, m);
  }

  lemma ResumeEnd(rd: Readers, z: Zipper, m: Mission)
    requires z.rest == [] && z.Inside?
    ensures Resume(rd, z, m) == Resume(rd, z.outer, m)
  {
  }

  lemma ResumeSwallowed(rd: Readers, z: Zipper, m: Mission)
    requires z.rest != [] && z.rest[0].Element? && Swallows(Path(z), z.rest[0].name, m)
    ensures z.rest[0].name == "actionActuatorFunc" ==> m.waypoints != []
    ensures Path(Skip(z)) == Path(z)
    ensures Resume(rd, z, m) == Resume(rd, Skip(z), Absorb(rd, z.rest[0].name, DirectText(z.rest[0].kids), m))
  {
    ResumeSkip(rd, z, m);
  }

  lemma ResumeSkip(rd: Readers, z: Zipper, m: Mission)
    requires z.rest != []
    ensures Path(Skip(z)) == Path(z)
    ensures Resume(rd, z, m) == Resume(rd, Skip(z), WalkNode(rd, Path(z), z.rest[0], m))
  {
    var m1 := WalkNode(rd, Path(z), z.rest[0], m);
    assert Path(Skip(z)) == Path(z);
    assert Walk(rd, Path(z), z.rest, m) == Walk(rd, Path(z), Skip(z).rest, m1);
  }

  lemma ResumeEntered(rd: Readers, z: Zipper, m: Mission)
    requires z.rest != [] && z.rest[0].Element? && !Swallows(Path(z), z.rest[0].name, m)
    ensures Path(Enter(z)) == Path(z) + [z.rest[0].name]
    ensures Resume(rd, z, m) == Resume(rd, Enter(z), m)
  {
    ResumeSkip(rd, z, m);
    assert Path(Enter(z)) == Path(z) + [z.rest[0].name];
    assert Enter(z).outer == Skip(z);
  }

  // ---- Coordinates and actions, and the waypoints they make -------------------------------

  datatype Event = Coord(point: Point) | Action(verb: string)

  function AddEvent(points: seq<Point>, e: Event): seq<Point> {
    match e
    case Coord(p) => points + [p]
    case Action(v) => if points == [] then points else AddAction(points, v)
  }

  function AddEvents(points: seq<Point>, events: seq<Event>): seq<Point>
    decreases |events|
  {
    if events == [] then points else AddEvents(AddEvent(points, events[0]), events[1..])
  }

  lemma {:induction false} AddEventsConcat(points: seq<Point>, a: seq<Event>, b: seq<Event>)
    ensures AddEvents(points, a + b) == AddEvents(AddEvents(points, a), b)
    decreases |a|
  {
    if a == [] {
      assert a + b == b;
    } else {
      assert (a + b)[1..] == a[1..] + b;
      AddEventsConcat(AddEvent(points, a[0]), a[1..], b);
    }
  }

  /** How many actions the list opens with. */
  function LeadingActions(events: seq<Event>): (n: nat)
    ensures n <= |events|
  {
    if events != [] && events[0].Action? then 1 + LeadingActions(events[1..]) else 0
  }

  function Verbs(events: seq<Event>): seq<string>
    requires forall e :: e in events ==> e.Action?
  {
    seq(|events|, i requires 0 <= i < |events| => events[i].verb)
  }

  lemma {:induction false} LeadingAreActions(events: seq<Event>)
    ensures forall e :: e in events[..LeadingActions(events)] ==> e.Action?
    ensures LeadingActions(events) < |events| ==> events[LeadingActions(events)].Coord?
  {
    if events != [] && events[0].Action? {
      LeadingAreActions(events[1..]);
      var n := LeadingActions(events);
      assert events[..n] == [events[0]] + events[1..][..n - 1];
    }
  }

  /** Every coordinate is a waypoint, owning exactly the actions that stand between it and the next one. */
  function Waypoints(events: seq<Event>): seq<Point>
    decreases |events|
  {
    if events == [] then []
    else if events[0].Action? then Waypoints(events[1..])
    else
      var n := LeadingActions(events[1..]);
      LeadingAreActions(events[1..]);
      [events[0].point.(actions := Verbs(events[1..][..n]))] + Waypoints(events[1..][n..])
  }

  predicate FreshPoints(events: seq<Event>) {
    forall e :: e in events && e.Coord? ==> e.point.actions == []
  }

  /** Adding a run of actions to the waypoint at the end. */
  lemma {:induction false} AddRun(points: seq<Point>, p: Point, events: seq<Event>, n: nat)
    requires n == LeadingActions(events)
    requires forall e :: e in events[..n] ==> e.Action?
    ensures AddEvents(points + [p], events)
         == AddEvents(points + [p.(actions := p.actions + Verbs(events[..n]))], events[n..])
    decreases |events|
  {
    hide Verbs, AddAction;
    if n == 0 {
      NoVerbs(events);
      assert p.actions + Verbs(events[..0]) == p.actions;
      assert events[n..] == events;
    } else {
      var p' := p.(actions := p.actions + [events[0].verb]);
      AddToLast(points, p, events[0].verb);
      assert forall e :: e in events[1..][..n - 1] ==> e in events[..n];
      AddRun(points, p', events[1..], n - 1);
      VerbsFirst(events, n, p.actions);
      assert events[1..][n - 1..] == events[n..];
    }
  }

  lemma NoVerbs(events: seq<Event>)
    ensures Verbs(events[..0]) == []
  {
  }

  lemma AddToLast(points: seq<Point>, p: Point, verb: string)
    ensures AddAction(points + [p], verb) == points + [p.(actions := p.actions + [verb])]
  {
  }

  lemma VerbsFirst(events: seq<Event>, n: nat, before: seq<string>)
    requires 0 < n <= |events| && forall e :: e in events[..n] ==> e.Action?
    ensures events[0].Action? && forall e :: e in events[1..][..n - 1] ==> e.Action?
    ensures before + [events[0].verb] + Verbs(events[1..][..n - 1]) == before + Verbs(events[..n])
  {
    assert events[..n] == [events[0]] + events[1..][..n - 1];
  }

  lemma {:induction false} AddIsWaypoints(points: seq<Point>, events: seq<Event>)
    requires FreshPoints(events)
    requires events == [] || events[0].Coord? || points == []
    ensures AddEvents(points, events) == points + Waypoints(events)
    decreases |events|
  {
    if events == [] {
    } else if events[0].Action? {
      assert forall e :: e in events[1..] ==> e in events;
      AddIsWaypoints(points, events[1..]);
    } else {
      var rest, p := events[1..], events[0].point;
      var n := LeadingActions(rest);
      AddFirst(points, events);
      var done := points + [p.(actions := Verbs(rest[..n]))];
      assert forall e :: e in rest[n..] ==> e in events;
      AddIsWaypoints(done, rest[n..]);
      Reassociate(points, p.(actions := Verbs(rest[..n])), Waypoints(rest[n..]));
    }
  }

  lemma Reassociate(a: seq<Point>, p: Point, b: seq<Point>)
    ensures (a + [p]) + b == a + ([p] + b)
  {
  }

  /** One coordinate and the actions right behind it. */
  lemma AddFirst(points: seq<Point>, events: seq<Event>)
    requires events != [] && events[0].Coord? && events[0].point.actions == []
    ensures var n := LeadingActions(events[1..]);
            && (forall e :: e in events[1..][..n] ==> e.Action?)
            && (n < |events[1..]| ==> events[1..][n].Coord?)
            && AddEvents(points, events)
            == AddEvents(points + [events[0].point.(actions := Verbs(events[1..][..n]))], events[1..][n..])
  {
    var rest, p := events[1..], events[0].point;
    var n := LeadingActions(rest);
    LeadingAreActions(rest);
    AddRun(points, p, rest, n);
    assert p.actions + Verbs(rest[..n]) == Verbs(rest[..n]);
  }

  // ---- What the walk meets of a document --------------------------------------------------

  /** What the walk carries along that decides which elements are swallowed. */
  datatype Progress = Progress(named: bool, started: bool)

  /** What a document yields: coordinates and actions met, coordinates inside swallowed elements, and progress. */
  datatype Yield = Yield(events: seq<Event>, lost: seq<Point>, progress: Progress)

  function ProgressOf(m: Mission): Progress {
    Progress(m.name != "", m.waypoints != [])
  }

  /** Whether an element is swallowed, by its path and the progress alone. */
  predicate SwallowedAt(path: seq<string>, name: string, p: Progress) {
    match name
    case "coordinates" => InPlacemark(path)
    case "actionActuatorFunc" => InPlacemark(path) && p.started
    case "author" => true
    case "createTime" => true
    case "name" => path != [] && path[|path| - 1] == "Document" && !p.named
    case _ => false
  }

  /** Every coordinate of these nodes that parses and lies under a placemark, wherever else it lies. */
  function Coordinates(rd: Readers, inPlacemark: bool, ns: seq<Node>): seq<Point>
    decreases ns, 0
  {
    if ns == [] then [] else NodeCoordinates(rd, inPlacemark, ns[0]) + Coordinates(rd, inPlacemark, ns[1..])
  }

  function NodeCoordinates(rd: Readers, inPlacemark: bool, n: Node): seq<Point>
    decreases n, 1
  {
    if n.CharData? then []
    else
      OwnCoordinate(rd, inPlacemark, n) + Coordinates(rd, inPlacemark || n.name == "Placemark", n.kids)
  }

  function OwnCoordinate(rd: Readers, inPlacemark: bool, n: Node): seq<Point>
    requires n.Element?
  {
    var p := ParseCoordinate(rd, DirectText(n.kids));
    if n.name == "coordinates" && inPlacemark && p.Some? then [p.value] else []
  }

  /** What a swallowed element yields itself: its coordinate, or its action; all inside it is lost. */
  function SeenSwallowed(rd: Readers, path: seq<string>, n: Node, p: Progress): Yield
    requires n.Element?
  {
    var raw := DirectText(n.kids);
    var lost := Coordinates(rd, InPlacemark(path), n.kids);
    match n.name
    case "coordinates" =>
      var own := ParseCoordinate(rd, raw);
      if own.Some? then Yield([Coord(own.value)], lost, p.(started := true)) else Yield([], lost, p)
    case "actionActuatorFunc" => Yield(if TrimSpace(raw) != "" then [Action(TrimSpace(raw))] else [], lost, p)
    case "name" => Yield([], lost, p.(named := TrimSpace(raw) != ""))
    case _ => Yield([], lost, p)
  }

  function SeenNode(rd: Readers, path: seq<string>, n: Node, p: Progress): Yield
    decreases n, 1
  {
    match n
    case CharData(_) => Yield([], [], p)
    case Element(name, kids) =>
      if SwallowedAt(path, name, p) then SeenSwallowed(rd, path, n, p)
      else Seen(rd, path + [name], kids, p)
  }

  function Seen(rd: Readers, path: seq<string>, ns: seq<Node>, p: Progress): Yield
    decreases ns, 0
  {
    if ns == [] then Yield([], [], p)
    else
      var first := SeenNode(rd, path, ns[0], p);
      var rest := Seen(rd, path, ns[1..], first.progress);
      Yield(first.events + rest.events, first.lost + rest.lost, rest.progress)
  }

  const NO_PROGRESS := Progress(false, false)

  lemma AbsorbSeen(rd: Readers, path: seq<string>, n: Node, m: Mission)
    requires n.Element? && Swallows(path, n.name, m)
    ensures var y := SeenSwallowed(rd, path, n, ProgressOf(m));
            var after := Absorb(rd, n.name, DirectText(n.kids), m);
            after.waypoints == AddEvents(m.waypoints, y.events) && ProgressOf(after) == y.progress
  {
  }

  lemma {:induction false} WalkNodeSeen(rd: Readers, path: seq<string>, n: Node, m: Mission)
    ensures var y := SeenNode(rd, path, n, ProgressOf(m));
            var after := WalkNode(rd, path, n, m);
            after.waypoints == AddEvents(m.waypoints, y.events) && ProgressOf(after) == y.progress
    decreases n, 1
  {
    hide Absorb, SeenSwallowed;
    if n.Element? {
      assert Swallows(path, n.name, m) == SwallowedAt(path, n.name, ProgressOf(m));
      if Swallows(path, n.name, m) {
        AbsorbSeen(rd, path, n, m);
      } else {
        WalkSeen(rd, path + [n.name], n.kids, m);
      }
    }
  }

  lemma {:induction false} WalkSeen(rd: Readers, path: seq<string>, ns: seq<Node>, m: Mission)
    ensures var y := Seen(rd, path, ns, ProgressOf(m));
            var after := Walk(rd, path, ns, m);
            after.waypoints == AddEvents(m.waypoints, y.events) && ProgressOf(after) == y.progress
    decreases ns, 0
  {
    hide ProgressOf;
    if ns != [] {
      var next := WalkNode(rd, path, ns[0], m);
      var first := SeenNode(rd, path, ns[0], ProgressOf(m));
      WalkNodeSeen(rd, path, ns[0], m);
      WalkSeen(rd, path, ns[1..], next);
      AddEventsConcat(m.waypoints, first.events, Seen(rd, path, ns[1..], first.progress).events);
    }
  }

  lemma {:induction false} SeenNodeIsFresh(rd: Readers, path: seq<string>, n: Node, p: Progress)
    ensures FreshPoints(SeenNode(rd, path, n, p).events)
    decreases n, 1
  {
    if n.Element? && !SwallowedAt(path, n.name, p) {
      SeenIsFresh(rd, path + [n.name], n.kids, p);
    }
  }

  lemma {:induction false} SeenIsFresh(rd: Readers, path: seq<string>, ns: seq<Node>, p: Progress)
    ensures FreshPoints(Seen(rd, path, ns, p).events)
    decreases ns, 0
  {
    if ns != [] {
      SeenNodeIsFresh(rd, path, ns[0], p);
      SeenIsFresh(rd, path, ns[1..], SeenNode(rd, path, ns[0], p).progress);
    }
  }

  /**
   The waypoints of any document are the coordinates its walk meets, in document order, each with the
   actions met between it and the next; actions before the first coordinate are dropped.
   */
  lemma MissionWaypoints(rd: Readers, doc: seq<Node>)
    ensures Walk(rd, [], doc, EMPTY_MISSION).waypoints == Waypoints(Seen(rd, [], doc, NO_PROGRESS).events)
  {
    WalkSeen(rd, [], doc, EMPTY_MISSION);
    SeenIsFresh(rd, [], doc, NO_PROGRESS);
    AddIsWaypoints([], Seen(rd, [], doc, NO_PROGRESS).events);
  }

  /** Any document yields no waypoints exactly when its walk meets no coordinate that parses. */
  lemma NoMissionIff(rd: Readers, doc: seq<Node>)
    ensures Walk(rd, [], doc, EMPTY_MISSION).waypoints == [] <==>
              forall e :: e in Seen(rd, [], doc, NO_PROGRESS).events ==> e.Action?
  {
    MissionWaypoints(rd, doc);
    NoWaypointsIff(Seen(rd, [], doc, NO_PROGRESS).events);
  }

  // ---- Name, author and date --------------------------------------------------------------

  /** An element that is decoded whole: the path it was met under, its name and its content. */
  datatype Meeting = Meeting(path: seq<string>, name: string, kids: seq<Node>)
  {
    function Text(): string {
      TrimSpace(DirectText(kids))
    }
  }

  function MetNode(rd: Readers, path: seq<string>, n: Node, p: Progress): seq<Meeting>
    decreases n, 1
  {
    match n
    case CharData(_) => []
    case Element(name, kids) =>
      if SwallowedAt(path, name, p) then [Meeting(path, name, kids)] else Met(rd, path + [name], kids, p)
  }

  /** The elements the walk decodes whole, in document order. */
  function Met(rd: Readers, path: seq<string>, ns: seq<Node>, p: Progress): seq<Meeting>
    decreases ns, 0
  {
    if ns == [] then []
    else MetNode(rd, path, ns[0], p) + Met(rd, path, ns[1..], SeenNode(rd, path, ns[0], p).progress)
  }

  /** Number k is the last of that name. */
  ghost predicate LastNamed(met: seq<Meeting>, name: string, k: int) {
    0 <= k < |met| && met[k].name == name && forall j :: k < j < |met| ==> met[j].name != name
  }

  predicate IsDate(rd: Readers, t: Meeting) {
    t.name == "createTime" && rd.millis(t.Text()).Some?
  }

  ghost predicate LastDate(rd: Readers, met: seq<Meeting>, k: int) {
    0 <= k < |met| && IsDate(rd, met[k]) && forall j :: k < j < |met| ==> !IsDate(rd, met[j])
  }

  predicate IsTitle(t: Meeting) {
    t.name == "name" && t.Text() != ""
  }

  datatype Details = Details(name: string, author: string, date: Option<int>)

  function DetailsOf(m: Mission): Details {
    Details(m.name, m.author, m.date)
  }

  /** `after` is what is known once these elements have been met: the last of each kind counts. */
  ghost predicate Noted(rd: Readers, before: Details, met: seq<Meeting>, after: Details) {
    && (forall k :: LastNamed(met, "author", k) ==> after.author == met[k].Text())
    && ((forall k :: 0 <= k < |met| ==> met[k].name != "author") ==> after.author == before.author)
    && (forall k :: LastDate(rd, met, k) ==> after.date == rd.millis(met[k].Text()))
    && ((forall k :: 0 <= k < |met| ==> !IsDate(rd, met[k])) ==> after.date == before.date)
    && (forall k :: LastNamed(met, "name", k) ==> after.name == met[k].Text())
    && ((forall k :: 0 <= k < |met| ==> met[k].name != "name") ==> after.name == before.name)
  }

  lemma NotedNone(rd: Readers, d: Details)
    ensures Noted(rd, d, [], d)
  {
  }

  lemma NotedOne(rd: Readers, path: seq<string>, n: Node, m: Mission)
    requires n.Element? && Swallows(path, n.name, m)
    ensures var after := Absorb(rd, n.name, DirectText(n.kids), m);
            Noted(rd, DetailsOf(m), [Meeting(path, n.name, n.kids)], DetailsOf(after))
  {
    hide DirectText, TrimSpace, ParseCoordinate, AddAction;
    var met := [Meeting(path, n.name, n.kids)];
    assert met[0].Text() == TrimSpace(DirectText(n.kids));
  }

  /** The last of some elements is the last of the later ones, or, if they have none, that of the earlier ones. */
  lemma LastInEither(name: string, a: seq<Meeting>, b: seq<Meeting>, k: int)
    requires LastNamed(a + b, name, k)
    ensures if k < |a| then LastNamed(a, name, k) && (forall j :: 0 <= j < |b| ==> b[j].name != name)
            else LastNamed(b, name, k - |a|)
  {
    var all := a + b;
    assert forall j :: 0 <= j < |b| ==> b[j] == all[|a| + j];
    assert forall j :: 0 <= j < |a| ==> a[j] == all[j];
  }

  lemma LastDateInEither(rd: Readers, a: seq<Meeting>, b: seq<Meeting>, k: int)
    requires LastDate(rd, a + b, k)
    ensures 0 <= k < |a| + |b|
    ensures if k < |a| then LastDate(rd, a, k) && (forall j :: 0 <= j < |b| ==> !IsDate(rd, b[j]))
            else LastDate(rd, b, k - |a|)
  {
    hide IsDate;
    var all := a + b;
    assert forall j :: 0 <= j < |b| ==> b[j] == all[|a| + j];
    assert forall j :: 0 <= j < |a| ==> a[j] == all[j];
  }

  lemma NotedConcat(rd: Readers, d: Details, a: seq<Meeting>, e: Details, b: seq<Meeting>, f: Details)
    requires Noted(rd, d, a, e) && Noted(rd, e, b, f)
    ensures Noted(rd, d, a + b, f)
  {
    hide LastNamed, LastDate, IsDate, Meeting.Text;
    var all := a + b;
    assert forall j :: 0 <= j < |b| ==> all[|a| + j] == b[j];
    assert forall j :: 0 <= j < |a| ==> all[j] == a[j];
    forall k | LastNamed(all, "author", k)
      ensures 0 <= k < |all| && f.author == all[k].Text()
    {
      LastInEither("author", a, b, k);
      InRange(a, b, k);
    }
    forall k | LastNamed(all, "name", k)
      ensures 0 <= k < |all| && f.name == all[k].Text()
    {
      LastInEither("name", a, b, k);
      InRange(a, b, k);
    }
    forall k | LastDate(rd, all, k)
      ensures 0 <= k < |all| && f.date == rd.millis(all[k].Text())
    {
      LastDateInEither(rd, a, b, k);
      InRange(a, b, k);
    }
  }

  lemma InRange(a: seq<Meeting>, b: seq<Meeting>, k: int)
    ensures 0 <= k < |a| ==> (a + b)[k] == a[k]
    ensures |a| <= k < |a| + |b| ==> (a + b)[k] == b[k - |a|]
  {
  }

  lemma {:induction false} WalkNodeNotes(rd: Readers, path: seq<string>, n: Node, m: Mission)
    ensures Noted(rd, DetailsOf(m), MetNode(rd, path, n, ProgressOf(m)), DetailsOf(WalkNode(rd, path, n, m)))
    decreases n, 1
  {
    hide Noted, Absorb, DetailsOf;
    if n.CharData? {
      NotedNone(rd, DetailsOf(m));
    } else {
      assert Swallows(path, n.name, m) == SwallowedAt(path, n.name, ProgressOf(m));
      if Swallows(path, n.name, m) {
        NotedOne(rd, path, n, m);
      } else {
        WalkNotes(rd, path + [n.name], n.kids, m);
      }
    }
  }

  lemma {:induction false} WalkNotes(rd: Readers, path: seq<string>, ns: seq<Node>, m: Mission)
    ensures Noted(rd, DetailsOf(m), Met(rd, path, ns, ProgressOf(m)), DetailsOf(Walk(rd, path, ns, m)))
    decreases ns, 0
  {
    hide Noted, ProgressOf, DetailsOf;
    if ns == [] {
      NotedNone(rd, DetailsOf(m));
    } else {
      var next := WalkNode(rd, path, ns[0], m);
      WalkNodeSeen(rd, path, ns[0], m);
      WalkNodeNotes(rd, path, ns[0], m);
      WalkNotes(rd, path, ns[1..], next);
      NotedConcat(rd, DetailsOf(m), MetNode(rd, path, ns[0], ProgressOf(m)), DetailsOf(next),
                  Met(rd, path, ns[1..], ProgressOf(next)), DetailsOf(Walk(rd, path, ns[1..], next)));
    }
  }

  /** Names are met directly below a Document, and none after one that is not empty. */
  ghost predicate Titled(met: seq<Meeting>, before: bool, after: bool) {
    && (forall k :: 0 <= k < |met| && met[k].name == "name" ==>
          !before && met[k].path != [] && met[k].path[|met[k].path| - 1] == "Document")
    && (forall j, k :: 0 <= j < k < |met| && IsTitle(met[j]) ==> met[k].name != "name")
    && (after <==> before || exists k :: 0 <= k < |met| && IsTitle(met[k]))
  }

  lemma TitledConcat(a: seq<Meeting>, b: seq<Meeting>, before: bool, between: bool, after: bool)
    requires Titled(a, before, between) && Titled(b, between, after)
    ensures Titled(a + b, before, after)
  {
    hide IsTitle;
    var all := a + b;
    forall k | 0 <= k < |all|
      ensures all[k] == if k < |a| then a[k] else b[k - |a|]
    {
    }
    if j :| 0 <= j < |b| && IsTitle(b[j]) {
      assert all[|a| + j] == b[j];
    }
    if j :| 0 <= j < |a| && IsTitle(a[j]) {
      assert all[j] == a[j];
    }
    assert forall k :: 0 <= k < |all| && all[k].name == "name" ==> !before;
  }

  lemma TitledNone(named: bool)
    ensures Titled([], named, named)
  {
  }

  lemma TitledOne(rd: Readers, path: seq<string>, n: Node, p: Progress)
    requires n.Element? && SwallowedAt(path, n.name, p)
    ensures Titled([Meeting(path, n.name, n.kids)], p.named, SeenSwallowed(rd, path, n, p).progress.named)
  {
    hide DirectText, TrimSpace, ParseCoordinate, Coordinates;
    var met := [Meeting(path, n.name, n.kids)];
    assert met[0].Text() == TrimSpace(DirectText(n.kids));
  }

  lemma {:induction false} MetNodeTitled(rd: Readers, path: seq<string>, n: Node, p: Progress)
    ensures Titled(MetNode(rd, path, n, p), p.named, SeenNode(rd, path, n, p).progress.named)
    decreases n, 1
  {
    hide Titled;
    if n.CharData? {
      TitledNone(p.named);
    } else if SwallowedAt(path, n.name, p) {
      TitledOne(rd, path, n, p);
    } else {
      MetTitled(rd, path + [n.name], n.kids, p);
    }
  }

  lemma {:induction false} MetTitled(rd: Readers, path: seq<string>, ns: seq<Node>, p: Progress)
    ensures Titled(Met(rd, path, ns, p), p.named, Seen(rd, path, ns, p).progress.named)
    decreases ns, 0
  {
    hide Titled;
    if ns == [] {
      TitledNone(p.named);
    } else {
      var next := SeenNode(rd, path, ns[0], p).progress;
      MetNodeTitled(rd, path, ns[0], p);
      MetTitled(rd, path, ns[1..], next);
      TitledConcat(MetNode(rd, path, ns[0], p), Met(rd, path, ns[1..], next), p.named, next.named,
                   Seen(rd, path, ns, p).progress.named);
    }
  }

  /**
   Of any document: the author is the text of the last author element the walk meets, the date that of the
   last creation time that can be read, and the name the first text of a Document's name that is not empty.
   */
  lemma MissionDetails(rd: Readers, doc: seq<Node>)
    ensures var m, met := Walk(rd, [], doc, EMPTY_MISSION), Met(rd, [], doc, NO_PROGRESS);
            && (forall k :: LastNamed(met, "author", k) ==> m.author == met[k].Text())
            && ((forall k :: 0 <= k < |met| ==> met[k].name != "author") ==> m.author == "")
            && (forall k :: LastDate(rd, met, k) ==> m.date == rd.millis(met[k].Text()))
            && ((forall k :: 0 <= k < |met| ==> !IsDate(rd, met[k])) ==> m.date == None)
            && (forall k :: 0 <= k < |met| && met[k].name == "name" ==>
                  met[k].path != [] && met[k].path[|met[k].path| - 1] == "Document")
            && (forall k :: 0 <= k < |met| && IsTitle(met[k]) ==> m.name == met[k].Text())
            && ((forall k :: 0 <= k < |met| ==> !IsTitle(met[k])) ==> m.name == "")
  {
    hide Walk, Met, LastNamed, LastDate, IsDate, IsTitle, Meeting.Text;
    var m, met := Walk(rd, [], doc, EMPTY_MISSION), Met(rd, [], doc, NO_PROGRESS);
    WalkNotes(rd, [], doc, EMPTY_MISSION);
    MetTitled(rd, [], doc, NO_PROGRESS);
    FirstTitle(rd, met, DetailsOf(m), Seen(rd, [], doc, NO_PROGRESS).progress.named);
  }

  /** Since no name is met after one that is not empty, the last one met is the first of these. */
  lemma FirstTitle(rd: Readers, met: seq<Meeting>, d: Details, named: bool)
    requires Noted(rd, Details("", "", None), met, d) && Titled(met, false, named)
    ensures forall k :: 0 <= k < |met| && IsTitle(met[k]) ==> d.name == met[k].Text()
    ensures (forall k :: 0 <= k < |met| ==> !IsTitle(met[k])) ==> d.name == ""
  {
    hide LastDate, IsDate, Meeting.Text;
    forall k | 0 <= k < |met| && IsTitle(met[k])
      ensures LastNamed(met, "name", k)
    {
    }
    LastOrNone(met, "name", |met|);
  }

  lemma {:induction false} LastOrNone(met: seq<Meeting>, name: string, n: nat)
    requires n <= |met| && forall j :: n <= j < |met| ==> met[j].name != name
    ensures (forall j :: 0 <= j < |met| ==> met[j].name != name) || exists k :: LastNamed(met, name, k)
  {
    if n > 0 {
      if met[n - 1].name == name {
        assert LastNamed(met, name, n - 1);
      } else {
        LastOrNone(met, name, n - 1);
      }
    }
  }

  /** Only these elements are met; coordinates and actions under a placemark only. */
  ghost predicate MeetsOnly(met: seq<Meeting>) {
    forall k :: 0 <= k < |met| ==>
      && met[k].name in {"coordinates", "actionActuatorFunc", "author", "createTime", "name"}
      && (met[k].name in {"coordinates", "actionActuatorFunc"} ==> "Placemark" in met[k].path)
  }

  lemma {:induction false} MetNodeOnly(rd: Readers, path: seq<string>, n: Node, p: Progress)
    ensures MeetsOnly(MetNode(rd, path, n, p))
    decreases n, 1
  {
    if n.Element? {
      MetOnly(rd, path + [n.name], n.kids, p);
    }
  }

  lemma {:induction false} MetOnly(rd: Readers, path: seq<string>, ns: seq<Node>, p: Progress)
    ensures MeetsOnly(Met(rd, path, ns, p))
    decreases ns, 0
  {
    if ns != [] {
      MetNodeOnly(rd, path, ns[0], p);
      MetOnly(rd, path, ns[1..], SeenNode(rd, path, ns[0], p).progress);
    }
  }

  /** All elements of that name in these nodes. */
  function All(name: string, ns: seq<Node>): seq<Node>
    decreases ns, 0
  {
    if ns == [] then [] else AllOf(name, ns[0]) + All(name, ns[1..])
  }

  function AllOf(name: string, n: Node): seq<Node>
    decreases n, 1
  {
    if n.CharData? then [] else (if n.name == name then [n] else []) + All(name, n.kids)
  }

  /** This element was met, or lies inside one that was. */
  ghost predicate Accounted(met: seq<Meeting>, e: Node)
    requires e.Element?
  {
    exists k :: 0 <= k < |met| && ((met[k].name == e.name && met[k].kids == e.kids) || e in All(e.name, met[k].kids))
  }

  lemma AccountedIn(a: seq<Meeting>, b: seq<Meeting>, e: Node)
    requires e.Element? && (Accounted(a, e) || Accounted(b, e))
    ensures Accounted(a + b, e)
  {
    hide All;
    var all := a + b;
    assert forall k :: 0 <= k < |a| ==> all[k] == a[k];
    assert forall k :: 0 <= k < |b| ==> all[|a| + k] == b[k];
  }

  /** No author or creation time is passed over: each is met, or inside an element that is decoded whole. */
  lemma {:induction false} MetOrInside(rd: Readers, path: seq<string>, ns: seq<Node>, p: Progress, name: string)
    requires name in {"author", "createTime"}
    ensures forall e :: e in All(name, ns) ==> e.Element? && e.name == name && Accounted(Met(rd, path, ns, p), e)
    decreases ns, 0
  {
    hide Accounted;
    if ns != [] {
      var next := SeenNode(rd, path, ns[0], p).progress;
      MetNodeOrInside(rd, path, ns[0], p, name);
      MetOrInside(rd, path, ns[1..], next, name);
      forall e | e in All(name, ns)
        ensures e.Element? && e.name == name && Accounted(Met(rd, path, ns, p), e)
      {
        AccountedIn(MetNode(rd, path, ns[0], p), Met(rd, path, ns[1..], next), e);
      }
    }
  }

  lemma {:induction false} MetNodeOrInside(rd: Readers, path: seq<string>, n: Node, p: Progress, name: string)
    requires name in {"author", "createTime"}
    ensures forall e :: e in AllOf(name, n) ==>
                e.Element? && e.name == name && Accounted(MetNode(rd, path, n, p), e)
    decreases n, 1
  {
    if n.Element? {
      MetOrInside(rd, path + [n.name], n.kids, p, name);
      if SwallowedAt(path, n.name, p) {
        assert MetNode(rd, path, n, p)[0] == Meeting(path, n.name, n.kids);
      }
    }
  }

  // ---- Lost coordinates -------------------------------------------------------------------

  /** The coordinates among the events. */
  function Coords(events: seq<Event>): seq<Point> {
    if events == [] then []
    else (if events[0].Coord? then [events[0].point] else []) + Coords(events[1..])
  }

  lemma {:induction false} CoordsConcat(a: seq<Event>, b: seq<Event>)
    ensures Coords(a + b) == Coords(a) + Coords(b)
  {
    if a == [] {
      assert a + b == b && [] + Coords(b) == Coords(b);
    } else {
      var own := if a[0].Coord? then [a[0].point] else [];
      assert (a + b)[1..] == a[1..] + b;
      CoordsConcat(a[1..], b);
      assert Coords(a + b) == own + (Coords(a[1..]) + Coords(b));
      Reassociated(own, Coords(a[1..]), Coords(b));
    }
  }

  lemma Reassociated(a: seq<Point>, b: seq<Point>, c: seq<Point>)
    ensures a + (b + c) == (a + b) + c
  {
  }

  /** Each coordinate is met or lost: nothing is counted twice, and if none is lost the order is kept. */
  ghost predicate Accounts(all: seq<Point>, y: Yield) {
    && multiset(all) == multiset(Coords(y.events)) + multiset(y.lost)
    && (y.lost == [] ==> all == Coords(y.events))
  }

  lemma AccountsConcat(a: seq<Point>, y: Yield, b: seq<Point>, z: Yield)
    requires Accounts(a, y) && Accounts(b, z)
    ensures Accounts(a + b, Yield(y.events + z.events, y.lost + z.lost, z.progress))
  {
    CoordsConcat(y.events, z.events);
  }

  lemma {:induction false} SeenNodeAccounts(rd: Readers, path: seq<string>, n: Node, p: Progress)
    ensures Accounts(NodeCoordinates(rd, InPlacemark(path), n), SeenNode(rd, path, n, p))
    decreases n, 1
  {
    if n.Element? {
      if SwallowedAt(path, n.name, p) {
        SwallowedAccounts(rd, path, n, p);
      } else {
        assert InPlacemark(path + [n.name]) == (InPlacemark(path) || n.name == "Placemark");
        assert OwnCoordinate(rd, InPlacemark(path), n) == [];
        SeenAccounts(rd, path + [n.name], n.kids, p);
      }
    }
  }

  lemma SwallowedAccounts(rd: Readers, path: seq<string>, n: Node, p: Progress)
    requires n.Element? && SwallowedAt(path, n.name, p)
    ensures Accounts(NodeCoordinates(rd, InPlacemark(path), n), SeenSwallowed(rd, path, n, p))
  {
    hide ParseCoordinate, DirectText, Coordinates;
    var own, y := OwnCoordinate(rd, InPlacemark(path), n), SeenSwallowed(rd, path, n, p);
    OwnIsMet(rd, path, n, p);
    assert NodeCoordinates(rd, InPlacemark(path), n) == own + y.lost;
    assert y.lost == [] ==> own + y.lost == own;
  }

  lemma OwnIsMet(rd: Readers, path: seq<string>, n: Node, p: Progress)
    requires n.Element? && SwallowedAt(path, n.name, p)
    ensures Coords(SeenSwallowed(rd, path, n, p).events) == OwnCoordinate(rd, InPlacemark(path), n)
  {
    hide ParseCoordinate, DirectText, Coordinates;
    var y := SeenSwallowed(rd, path, n, p);
    if y.events != [] {
      assert |y.events| == 1 && y.events[1..] == [];
    }
  }

  lemma {:induction false} SeenAccounts(rd: Readers, path: seq<string>, ns: seq<Node>, p: Progress)
    ensures Accounts(Coordinates(rd, InPlacemark(path), ns), Seen(rd, path, ns, p))
    decreases ns, 0
  {
    hide Accounts, InPlacemark;
    if ns == [] {
      NothingToAccount(p);
    } else {
      var first := SeenNode(rd, path, ns[0], p);
      SeenNodeAccounts(rd, path, ns[0], p);
      SeenAccounts(rd, path, ns[1..], first.progress);
      AccountsConcat(NodeCoordinates(rd, InPlacemark(path), ns[0]), first,
                     Coordinates(rd, InPlacemark(path), ns[1..]), Seen(rd, path, ns[1..], first.progress));
    }
  }

  lemma NothingToAccount(p: Progress)
    ensures Accounts([], Yield([], [], p))
  {
  }

  /**
   The waypoints are all the coordinates of the document that parse and lie under a placemark, in order,
   exactly when none of these lies inside an element that the walk swallows.
   */
  lemma AllMetIffNoneLost(rd: Readers, doc: seq<Node>)
    ensures Coords(Seen(rd, [], doc, NO_PROGRESS).events) == Coordinates(rd, false, doc) <==>
              Seen(rd, [], doc, NO_PROGRESS).lost == []
    ensures |Coordinates(rd, false, doc)|
              == |Walk(rd, [], doc, EMPTY_MISSION).waypoints| + |Seen(rd, [], doc, NO_PROGRESS).lost|
  {
    var y := Seen(rd, [], doc, NO_PROGRESS);
    SeenAccounts(rd, [], doc, NO_PROGRESS);
    MissionWaypoints(rd, doc);
    AsManyWaypoints(y.events);
    Sizes(Coordinates(rd, false, doc), Coords(y.events), y.lost);
  }

  lemma Sizes(all: seq<Point>, met: seq<Point>, lost: seq<Point>)
    requires multiset(all) == multiset(met) + multiset(lost)
    ensures |all| == |met| + |lost|
  {
    assert |multiset(all)| == |all|;
  }

  lemma {:induction false} AsManyWaypoints(events: seq<Event>)
    ensures |Waypoints(events)| == |Coords(events)|
    decreases |events|
  {
    if events != [] && events[0].Action? {
      AsManyWaypoints(events[1..]);
    } else if events != [] {
      var rest := events[1..];
      var n := LeadingActions(rest);
      LeadingAreActions(rest);
      AsManyWaypoints(rest[n..]);
      NoCoords(rest[..n]);
      CoordsConcat(rest[..n], rest[n..]);
      assert rest == rest[..n] + rest[n..];
    }
  }

  lemma {:induction false} NoCoords(events: seq<Event>)
    requires forall e :: e in events ==> e.Action?
    ensures Coords(events) == []
  {
    if events != [] {
      assert events[0] in events;
      NoCoords(events[1..]);
    }
  }

  /** A document that loses one: its first name is swallowed whole, with the placemark hidden inside it. */
  lemma HiddenCoordinateIsLost(rd: Readers, raw: string)
    requires ParseCoordinate(rd, raw).Some?
    ensures var doc := HiddenCoordinate(raw);
            && Walk(rd, [], doc, EMPTY_MISSION).waypoints == []
            && Coordinates(rd, false, doc) == [ParseCoordinate(rd, raw).value]
  {
    var placemark := Element("Placemark", [Element("coordinates", [CharData(raw)])]);
    var name := Element("name", [placemark]);
    var m := WalkNode(rd, ["Document"], name, EMPTY_MISSION);
    assert m.waypoints == [];
    OneNode(rd, ["Document"], name, EMPTY_MISSION);
    assert [] + ["Document"] == ["Document"];
    OneNode(rd, [], Element("Document", [name]), EMPTY_MISSION);
    OneCoordinate(rd, raw);
  }

  function HiddenCoordinate(raw: string): seq<Node> {
    [Element("Document", [Element("name", [Element("Placemark", [Element("coordinates", [CharData(raw)])])])])]
  }

  lemma OneNode(rd: Readers, path: seq<string>, n: Node, m: Mission)
    ensures Walk(rd, path, [n], m) == WalkNode(rd, path, n, m)
  {
    assert [n][1..] == [];
  }

  lemma OneCoordinate(rd: Readers, raw: string)
    requires ParseCoordinate(rd, raw).Some?
    ensures Coordinates(rd, false, HiddenCoordinate(raw)) == [ParseCoordinate(rd, raw).value]
  {
    hide ParseCoordinate;
    var coordinates := Element("coordinates", [CharData(raw)]);
    var placemark := Element("Placemark", [coordinates]);
    var name := Element("name", [placemark]);
    assert DirectText([CharData(raw)]) == raw;
    JustOne(rd, true, CharData(raw));
    JustOne(rd, true, coordinates);
    JustOne(rd, false, placemark);
    JustOne(rd, false, name);
    JustOne(rd, false, Element("Document", [name]));
  }

  lemma JustOne(rd: Readers, inPlacemark: bool, n: Node)
    ensures Coordinates(rd, inPlacemark, [n]) == NodeCoordinates(rd, inPlacemark, n)
  {
    assert [n][1..] == [];
  }

  lemma {:induction false} NoWaypointsIff(events: seq<Event>)
    ensures Waypoints(events) == [] <==> forall e :: e in events ==> e.Action?
    decreases |events|
  {
    if events != [] && events[0].Action? {
      NoWaypointsIff(events[1..]);
      assert events == [events[0]] + events[1..];
    }
  }

  // ---- A mission --------------------------------------------------------------------------

  function Leaf(name: string, text: string): Node {
    Element(name, [CharData(text)])
  }

  function SamplePlacemark(): Node {
    Element("Placemark", [Leaf("actionActuatorFunc", "Q"), Leaf("coordinates", "1,2,3"),
                          Leaf("actionActuatorFunc", "P ")])
  }

  function SampleDocument(): seq<Node> {
    [Element("Document", [Leaf("name", "N "), Leaf("author", "A "), Leaf("createTime", "7 "), SamplePlacemark(),
                          Leaf("coordinates", "1,2,3"), Leaf("actionActuatorFunc", "P ")])]
  }

  /**
   A whole document and its mission: the action before the coordinate counts no more than the coordinate and
   the action outside the placemark.
   */
  lemma SampleMission(rd: Readers)
    requires rd.float("1") == Some(1.0) && rd.float("2") == Some(2.0) && rd.float("3") == Some(3.0)
    requires rd.millis("7") == Some(7)
    ensures Walk(rd, [], SampleDocument(), EMPTY_MISSION)
              == Mission("N", "A", Some(7), [Point(2.0, 1.0, 3.0, ["P"])])
  {
    hide DirectText, TrimSpace, ParseCoordinate, Walk;
    SampleTexts(rd);
    var path := ["Document"];
    var dated := Mission("N", "A", Some(7), []);
    var done := Mission("N", "A", Some(7), [Point(2.0, 1.0, 3.0, ["P"])]);
    assert [] + ["Document"] == path && path + ["Placemark"] == ["Document", "Placemark"];
    WalkInPlacemark(rd, dated);
    assert WalkNode(rd, path, SamplePlacemark(), dated) == done;
    assert !InPlacemark(path);
    PassedOver(rd, path, "coordinates", "1,2,3", done);
    PassedOver(rd, path, "actionActuatorFunc", "P ", done);
    var nodes := SampleDocument()[0].kids;
    WalkFour(rd, path, nodes[0], nodes[1], nodes[2], nodes[3], EMPTY_MISSION);
    WalkTwo(rd, path, nodes[4], nodes[5], done);
    WalkConcat(rd, path, nodes[..4], nodes[4..], EMPTY_MISSION);
    assert nodes[..4] + nodes[4..] == nodes;
    assert nodes[..4] == [nodes[0], nodes[1], nodes[2], nodes[3]] && nodes[4..] == [nodes[4], nodes[5]];
    OneNode(rd, [], SampleDocument()[0], EMPTY_MISSION);
  }

  lemma PassedOver(rd: Readers, path: seq<string>, name: string, text: string, m: Mission)
    requires !Swallows(path, name, m)
    ensures WalkNode(rd, path, Leaf(name, text), m) == m
  {
    OneNode(rd, path + [name], CharData(text), m);
  }

  lemma {:induction false} WalkConcat(rd: Readers, path: seq<string>, a: seq<Node>, b: seq<Node>, m: Mission)
    ensures Walk(rd, path, a + b, m) == Walk(rd, path, b, Walk(rd, path, a, m))
    decreases |a|
  {
    if a == [] {
      assert a + b == b;
    } else {
      assert (a + b)[1..] == a[1..] + b;
      WalkConcat(rd, path, a[1..], b, WalkNode(rd, path, a[0], m));
    }
  }

  lemma WalkInPlacemark(rd: Readers, m: Mission)
    requires m.waypoints == [] && TrimSpace("P ") == "P"
    requires ParseCoordinate(rd, "1,2,3") == Some(Point(2.0, 1.0, 3.0, []))
    requires forall text :: DirectText([CharData(text)]) == text
    ensures Walk(rd, ["Document", "Placemark"], SamplePlacemark().kids, m)
         == m.(waypoints := [Point(2.0, 1.0, 3.0, ["P"])])
  {
    hide DirectText, TrimSpace, ParseCoordinate, Walk;
    var inner := ["Document", "Placemark"];
    var early, point, action := Leaf("actionActuatorFunc", "Q"), Leaf("coordinates", "1,2,3"),
                                Leaf("actionActuatorFunc", "P ");
    var started := m.(waypoints := [Point(2.0, 1.0, 3.0, [])]);
    PassedOver(rd, inner, "actionActuatorFunc", "Q", m);
    assert WalkNode(rd, inner, point, m).waypoints == started.waypoints;
    assert started.waypoints[0].actions + ["P"] == ["P"];
    assert WalkNode(rd, inner, action, started).waypoints == [Point(2.0, 1.0, 3.0, ["P"])];
    OneNode(rd, inner, early, m);
    WalkTwo(rd, inner, point, action, m);
    assert [early] + [point, action] == SamplePlacemark().kids;
    WalkConcat(rd, inner, [early], [point, action], m);
  }

  lemma WalkTwo(rd: Readers, path: seq<string>, a: Node, b: Node, m: Mission)
    ensures Walk(rd, path, [a, b], m) == WalkNode(rd, path, b, WalkNode(rd, path, a, m))
  {
    assert [a, b][1..] == [b];
    OneNode(rd, path, b, WalkNode(rd, path, a, m));
  }

  lemma WalkFour(rd: Readers, path: seq<string>, a: Node, b: Node, c: Node, d: Node, m: Mission)
    ensures Walk(rd, path, [a, b, c, d], m)
         == WalkNode(rd, path, d, WalkNode(rd, path, c, WalkNode(rd, path, b, WalkNode(rd, path, a, m))))
  {
    assert [a, b, c, d][1..] == [b, c, d] && [b, c, d][1..] == [c, d];
    WalkTwo(rd, path, c, d, WalkNode(rd, path, b, WalkNode(rd, path, a, m)));
  }

  lemma SampleTexts(rd: Readers)
    requires rd.float("1") == Some(1.0) && rd.float("2") == Some(2.0) && rd.float("3") == Some(3.0)
    ensures forall text :: DirectText([CharData(text)]) == text
    ensures TrimSpace("N ") == "N" && TrimSpace("A ") == "A" && TrimSpace("7 ") == "7" && TrimSpace("P ") == "P"
    ensures ParseCoordinate(rd, "1,2,3") == Some(Point(2.0, 1.0, 3.0, []))
  {
    hide Split, Join, TrimSpace, ParseCoordinate, DirectText;
    forall text
      ensures DirectText([CharData(text)]) == text
    {
      OneText(text);
    }
    BeforeSpace('N');
    BeforeSpace('A');
    BeforeSpace('7');
    BeforeSpace('P');
    assert ['N', ' '] == "N " && ['A', ' '] == "A " && ['7', ' '] == "7 " && ['P', ' '] == "P ";
    OneRune('1');
    OneRune('2');
    OneRune('3');
    JoinThree();
    CoordinateFields(rd, ["1", "2", "3"]);
  }

  lemma OneText(text: string)
    ensures DirectText([CharData(text)]) == text
  {
    assert text + "" == text;
  }

  lemma OneRune(c: char)
    requires '0' <= c <= 'Z'
    ensures TrimSpace([c]) == [c]
  {
  }

  lemma BeforeSpace(c: char)
    requires '0' <= c <= 'Z'
    ensures TrimSpace([c, ' ']) == [c]
  {
    OneRune(c);
    TrimAfterSpace([c], ' ');
    assert [c] + [' '] == [c, ' '];
  }

  lemma JoinThree()
    ensures Join(["1", "2", "3"], ',') == "1,2,3"
  {
    assert ["1", "2", "3"][1..] == ["2", "3"] && ["2", "3"][1..] == ["3"];
  }
}
