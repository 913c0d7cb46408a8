/** The traffic-light node of src/SmartTrafficLight.cpp: its phase table and
    the default snapshot of it, its command interpreter, its phase cycle
    (with the simulated traffic drawn from a random stream passed in), and
    the clock-offset correction of its replies. Durations in the phase table
    and `timeLeft` are in seconds; clock readings are in milliseconds. */
module TrafficNode {
  import opened Wire
  import opened Enums
  import Structs

  /** One row of `colors_vector`: a colour name and its duration in seconds. */
  datatype Phase = Phase(name: string, seconds: int)

  /** The yellow time `TA` of `loadConfig`, in seconds. */
  const YELLOW_SECONDS: int := 3

  /** The duration `getDefaultColorTime` falls back to for a colour past the table. */
  const FALLBACK_SECONDS: int := 10

  // ---------------------------------------------------------------------
  // The phase table
  // ---------------------------------------------------------------------

  /** The table `loadConfig` builds from the cycle time: green is half the
      cycle less the yellow time, yellow is 3 s, red is half the cycle. */
  function PhaseTable(cycleTime: int): seq<Phase>
  {
    [Phase("GREEN", TruncDiv(cycleTime, 2) - YELLOW_SECONDS),
     Phase("YELLOW", YELLOW_SECONDS),
     Phase("RED", TruncDiv(cycleTime, 2))]
  }

  /** The loaded table has one row per phase colour, labelled with the name
      that parses back to the colour it is indexed by; green and yellow
      together last as long as red, and a non-negative cycle is covered to
      within the second that halving drops. */
  lemma PhaseTableShape(cycleTime: int)
    ensures |PhaseTable(cycleTime)| == 3
    ensures forall i :: 0 <= i < 3 ==> ParseColor(PhaseTable(cycleTime)[i].name) == ColorOfIndex(i)
    ensures PhaseTable(cycleTime)[0].seconds + PhaseTable(cycleTime)[1].seconds == PhaseTable(cycleTime)[2].seconds
    ensures cycleTime >= 0 ==>
              var t := PhaseTable(cycleTime); cycleTime - 1 <= t[0].seconds + t[1].seconds + t[2].seconds <= cycleTime
  {
  }

  /** `updateColorVectorTime(color, t)`: the row indexed by the colour, when
      the table has one, takes the new duration. */
  function WithPhaseTime(table: seq<Phase>, c: Color, t: int): (r: seq<Phase>)
    ensures |r| == |table|
    ensures forall i :: 0 <= i < |r| && i != ColorIndex(c) ==> r[i] == table[i]
    ensures ColorIndex(c) < |table| ==> r[ColorIndex(c)] == table[ColorIndex(c)].(seconds := t)
  {
    var i := ColorIndex(c);
    if i < |table| then table[i := table[i].(seconds := t)] else table
  }

  /** `getDefaultColorTime(color)`: the snapshot's duration for the colour,
      or 10 s past the end of the snapshot. */
  function DefaultColorTime(defaults: seq<Phase>, c: Color): (t: int)
  {
    var i := ColorIndex(c);
    if i < |defaults| then defaults[i].seconds else FALLBACK_SECONDS
  }

  /** On a loaded table, ALERT and UNKNOWN index no row: setting their time
      leaves the table as it is and their default is 10 s, while each phase
      colour gets its configured duration back. */
  lemma LoadedTableColours(cycleTime: int, c: Color, t: int)
    ensures c == ALERT || c == UNKNOWN ==>
              WithPhaseTime(PhaseTable(cycleTime), c, t) == PhaseTable(cycleTime) &&
              DefaultColorTime(PhaseTable(cycleTime), c) == FALLBACK_SECONDS
    ensures c == GREEN ==> DefaultColorTime(PhaseTable(cycleTime), c) == TruncDiv(cycleTime, 2) - YELLOW_SECONDS
    ensures c == YELLOW ==> DefaultColorTime(PhaseTable(cycleTime), c) == YELLOW_SECONDS
    ensures c == RED ==> DefaultColorTime(PhaseTable(cycleTime), c) == TruncDiv(cycleTime, 2)
  {
  }

  // ---------------------------------------------------------------------
  // Command parsing (parseCommands)
  // ---------------------------------------------------------------------

  /** One `type:value` segment: the type is the text before the first ':',
      the value everything after it; None for a segment without ':'. */
  function CommandOf(segment: string): (r: Option<Structs.Command>)
    ensures r.None? <==> ':' !in segment
    ensures r.Some? ==> ':' !in r.value.kind && segment == r.value.kind + [':'] + r.value.value
  {
    match FindChar(segment, ':')
    case None => None
    case Some(k) =>
      assert segment == segment[..k] + [':'] + segment[k + 1..];
      Some(Structs.Command(segment[..k], segment[k + 1..]))
  }

  /** The commands of the segments, in their order, skipping those without ':'. */
  function CommandsOf(segments: seq<string>): seq<Structs.Command>
  {
    if segments == [] then []
    else
      var init := CommandsOf(segments[..|segments| - 1]);
      var last := CommandOf(segments[|segments| - 1]);
      if last.None? then init else init + [last.value]
  }

  /** What `parseCommands(raw)` returns. */
  function ParsedCommands(raw: string): seq<Structs.Command>
  {
    CommandsOf(Split(raw, ';'))
  }

  /** Parsing distributes over concatenation of segment lists, so commands
      come out in the order of their segments. */
  lemma {:induction false} CommandsOfAppend(a: seq<string>, b: seq<string>)
    ensures CommandsOf(a + b) == CommandsOf(a) + CommandsOf(b)
    decreases |b|
  {
    if b == [] {
      assert a + b == a;
    } else {
      var front := b[..|b| - 1];
      var x := b[|b| - 1];
      assert b == front + [x];
      assert a + b == (a + front) + [x];
      CommandsOfAppend(a, front);
      CommandsOfSnoc(a + front, x);
      CommandsOfSnoc(front, x);
    }
  }

  /** One more segment at the end adds its command, if any. */
  lemma CommandsOfSnoc(s: seq<string>, x: string)
    ensures CommandsOf(s + [x]) == CommandsOf(s) + (if CommandOf(x).None? then [] else [CommandOf(x).value])
  {
    assert (s + [x])[..|s|] == s;
  }

  /** A single segment yields its command, or nothing when it has no ':'. */
  lemma CommandsOfOne(segment: string)
    ensures CommandsOf([segment]) == if ':' in segment then [CommandOf(segment).value] else []
  {
    assert [segment][..0] == [];
  }

  /** The text of a command list as the orchestrator writes it: each command
      preceded by ';'. */
  function Rendered(cmds: seq<Structs.Command>): string
  {
    if cmds == [] then [] else [';'] + cmds[0].kind + [':'] + cmds[0].value + Rendered(cmds[1..])
  }

  /** A command the protocol can carry: no separator in its type, no ';' in its value. */
  predicate Carried(c: Structs.Command)
  {
    ';' !in c.kind && ':' !in c.kind && ';' !in c.value
  }

  /** The pieces of a rendered list after its leading ';'. */
  lemma {:induction false} SplitRendered(cmds: seq<Structs.Command>)
    requires |cmds| >= 1 && forall i :: 0 <= i < |cmds| ==> Carried(cmds[i])
    ensures SplitAll(Rendered(cmds)[1..], ';') == Segments(cmds)
    decreases |cmds|
  {
    var c := cmds[0];
    var piece := c.kind + [':'] + c.value;
    assert ';' !in piece by {
      assert forall x :: x in piece ==> x in c.kind || x == ':' || x in c.value;
    }
    var rest := Rendered(cmds[1..]);
    assert Rendered(cmds)[1..] == piece + rest;
    if |cmds| == 1 {
      assert rest == [];
      assert piece + rest == piece;
      SplitAllNoDelimiter(piece, ';');
    } else {
      assert rest == [';'] + rest[1..];
      assert piece + rest == piece + [';'] + rest[1..];
      SplitAllPrefix(piece, rest[1..], ';');
      SplitRendered(cmds[1..]);
    }
  }

  function Segments(cmds: seq<Structs.Command>): seq<string>
  {
    if cmds == [] then [] else [cmds[0].kind + [':'] + cmds[0].value] + Segments(cmds[1..])
  }

  lemma {:induction false} CommandsOfSegments(cmds: seq<Structs.Command>)
    requires forall i :: 0 <= i < |cmds| ==> Carried(cmds[i])
    ensures CommandsOf(Segments(cmds)) == cmds
    decreases |cmds|
  {
    if cmds != [] {
      var c := cmds[0];
      var piece := c.kind + [':'] + c.value;
      CommandOfPiece(c);
      CommandsOfOne(piece);
      CommandsOfSegments(cmds[1..]);
      CommandsOfAppend([piece], Segments(cmds[1..]));
    }
  }

  /** A carried command's segment reads back as that command. */
  lemma CommandOfPiece(c: Structs.Command)
    requires Carried(c)
    ensures CommandOf(c.kind + [':'] + c.value) == Some(c)
  {
    var piece := c.kind + [':'] + c.value;
    assert piece[|c.kind|] == ':';
    assert piece[..|c.kind|] == c.kind;
    var k := FindChar(piece, ':').value;
    assert k == |c.kind|;
    assert piece[..k] == c.kind && piece[k + 1..] == c.value;
  }

  /** Parsing what the orchestrator renders gives back its commands. */
  lemma ParseRendered(cmds: seq<Structs.Command>)
    requires forall i :: 0 <= i < |cmds| ==> Carried(cmds[i])
    ensures ParsedCommands(Rendered(cmds)) == cmds
  {
    if cmds == [] {
      assert SplitAll([], ';') == [[]];
    } else {
      var segs := Segments(cmds);
      SplitRenderedPieces(cmds);
      CommandsOfAppend([[]], segs);
      CommandsOfOne([]);
      CommandsOfSegments(cmds);
    }
  }

  /** The pieces `getline` yields from a rendered, non-empty list. */
  lemma SplitRenderedPieces(cmds: seq<Structs.Command>)
    requires |cmds| >= 1 && forall i :: 0 <= i < |cmds| ==> Carried(cmds[i])
    ensures Split(Rendered(cmds), ';') == [[]] + Segments(cmds)
  {
    SplitRenderedAll(cmds);
    SegmentsEndNonEmpty(cmds);
    SplitKeepsLast(Rendered(cmds), ';', [[]] + Segments(cmds));
  }

  /** All pieces are produced when the last one is not empty. */
  lemma SplitKeepsLast(s: string, d: char, pieces: seq<string>)
    requires SplitAll(s, d) == pieces && |pieces| >= 1 && pieces[|pieces| - 1] != []
    ensures Split(s, d) == pieces
  {
    var n := |pieces|;
    assert pieces == pieces[..n - 1] + [pieces[n - 1]];
    SplitLastPiece(s, d, pieces[..n - 1], pieces[n - 1]);
  }

  lemma SplitRenderedAll(cmds: seq<Structs.Command>)
    requires |cmds| >= 1 && forall i :: 0 <= i < |cmds| ==> Carried(cmds[i])
    ensures SplitAll(Rendered(cmds), ';') == [[]] + Segments(cmds)
  {
    RenderedLead(cmds);
    SplitRendered(cmds);
    SplitAfterLead(Rendered(cmds), ';', Segments(cmds));
  }

  /** A non-empty rendering starts with ';'. */
  lemma RenderedLead(cmds: seq<Structs.Command>)
    requires |cmds| >= 1
    ensures |Rendered(cmds)| >= 1 && Rendered(cmds)[0] == ';'
  {
  }

  /** A text opening with the delimiter splits into an empty piece and the pieces of the rest. */
  lemma SplitAfterLead(text: string, d: char, pieces: seq<string>)
    requires |text| >= 1 && text[0] == d && SplitAll(text[1..], d) == pieces
    ensures SplitAll(text, d) == [[]] + pieces
  {
    assert text == [d] + text[1..];
    SplitAllDelimiterFirst(text[1..], d);
  }

  lemma {:induction false} SegmentsEndNonEmpty(cmds: seq<Structs.Command>)
    requires |cmds| >= 1
    ensures |Segments(cmds)| == |cmds| && Segments(cmds)[|cmds| - 1] != []
    decreases |cmds|
  {
    if |cmds| > 1 {
      SegmentsEndNonEmpty(cmds[1..]);
    }
  }

  /** "do_nothing" has no ':' and so parses to no command at all: the early
      return for it changes nothing that parsing would not. */
  lemma DoNothingParsesEmpty(content: string)
    requires content == "do_nothing"
    ensures ParsedCommands(content) == []
  {
    NoSeparatorParsesEmpty(content);
  }

  /** A non-empty text with neither separator is one segment without a command. */
  lemma NoSeparatorParsesEmpty(s: string)
    requires s != [] && ';' !in s && ':' !in s
    ensures ParsedCommands(s) == []
  {
    SplitAllNoDelimiter(s, ';');
    assert Split(s, ';') == [s];
    CommandsOfOne(s);
  }

  /** The `while (std::getline(ss, commandStr, ';'))` loop of `parseCommands`. */
  method ParseCommands(raw: string) returns (commands: seq<Structs.Command>)
    ensures commands == ParsedCommands(raw)
  {
    var segments := Tokenize(raw, ';');
    commands := [];
    var i := 0;
    while i < |segments|
      invariant 0 <= i <= |segments|
      invariant commands == CommandsOf(segments[..i])
    {
      TakeOneMore(segments, i);
      var sep := FindChar(segments[i], ':');
      if sep.Some? {
        var k := sep.value;
        commands := commands + [Structs.Command(segments[i][..k], segments[i][k + 1..])];
      }
      i := i + 1;
    }
    assert segments[..i] == segments;
  }

  // ---------------------------------------------------------------------
  // Command interpretation (applyCommand)
  // ---------------------------------------------------------------------

  /** The part of the node's state a command acts on. */
  datatype Controls = Controls(color: Color, timeLeft: int, table: seq<Phase>)

  /** `applyCommand(cmd)` on the controls, against the default snapshot;
      None where `std::stoi` throws, before anything is written. */
  function CommandApplied(d: Controls, defaults: seq<Phase>, cmd: Structs.Command): Option<Controls>
  {
    if cmd.kind == "set_state" then Some(d.(color := ParseColor(cmd.value)))
    else if cmd.kind == "set_time" then
      var newTime := if cmd.value == "DEFAULT" then Some(DefaultColorTime(defaults, d.color)) else StoI(cmd.value);
      if newTime.None? then None
      else Some(d.(timeLeft := newTime.value, table := WithPhaseTime(d.table, d.color, newTime.value)))
    else if cmd.kind == "increase_time" then
      match StoI(cmd.value)
      case None => None
      case Some(inc) =>
        var t := d.timeLeft + inc; Some(d.(timeLeft := t, table := WithPhaseTime(d.table, d.color, t)))
    else if cmd.kind == "decrease_time" then
      match StoI(cmd.value)
      case None => None
      case Some(dec) =>
        var t := Max(1, d.timeLeft - dec); Some(d.(timeLeft := t, table := WithPhaseTime(d.table, d.color, t)))
    else Some(d)
  }

  predicate TimeCommand(kind: string)
  {
    kind == "set_time" || kind == "increase_time" || kind == "decrease_time"
  }

  /** What each command does: `set_state` changes only the colour, by the
      same mapping as `parseColor`; the three time commands keep the colour
      and write the new remaining time into the current colour's row; set
      and increase give the stated time, decrease never goes below 1 s;
      any other type changes nothing; a command fails exactly when its
      number does not parse. */
  lemma CommandEffects(d: Controls, defaults: seq<Phase>, cmd: Structs.Command)
    ensures CommandApplied(d, defaults, cmd).None? <==>
              TimeCommand(cmd.kind) && !(cmd.kind == "set_time" && cmd.value == "DEFAULT") && StoI(cmd.value).None?
    ensures cmd.kind == "set_state" ==> CommandApplied(d, defaults, cmd) == Some(d.(color := ParseColor(cmd.value)))
    ensures TimeCommand(cmd.kind) && CommandApplied(d, defaults, cmd).Some? ==>
              var r := CommandApplied(d, defaults, cmd).value;
              r.color == d.color && r.table == WithPhaseTime(d.table, d.color, r.timeLeft)
    ensures cmd.kind == "set_time" && cmd.value == "DEFAULT" ==>
              CommandApplied(d, defaults, cmd).value.timeLeft == DefaultColorTime(defaults, d.color)
    ensures cmd.kind == "set_time" && cmd.value != "DEFAULT" && StoI(cmd.value).Some? ==>
              CommandApplied(d, defaults, cmd).value.timeLeft == StoI(cmd.value).value
    ensures cmd.kind == "increase_time" && StoI(cmd.value).Some? ==>
              CommandApplied(d, defaults, cmd).value.timeLeft == d.timeLeft + StoI(cmd.value).value
    ensures cmd.kind == "decrease_time" && StoI(cmd.value).Some? ==>
              var t := CommandApplied(d, defaults, cmd).value.timeLeft;
              t >= 1 && (d.timeLeft - StoI(cmd.value).value >= 1 ==> t == d.timeLeft - StoI(cmd.value).value)
    ensures cmd.kind != "set_state" && !TimeCommand(cmd.kind) ==> CommandApplied(d, defaults, cmd) == Some(d)
  {
  }

  /** The commands applied in order; the first one whose number does not
      parse throws out of the loop and leaves the rest unapplied. */
  function CommandsRun(d: Controls, defaults: seq<Phase>, cmds: seq<Structs.Command>): Controls
    decreases |cmds|
  {
    if cmds == [] then d
    else match CommandApplied(d, defaults, cmds[0])
      case None => d
      case Some(e) => CommandsRun(e, defaults, cmds[1..])
  }

  /** Some command of the list throws in `std::stoi`: the exception leaves
      `onData`, which catches nothing there, and `std::terminate` ends the node. */
  predicate CommandsHalt(d: Controls, defaults: seq<Phase>, cmds: seq<Structs.Command>)
    decreases |cmds|
  {
    cmds != [] &&
    match CommandApplied(d, defaults, cmds[0])
    case None => true
    case Some(e) => CommandsHalt(e, defaults, cmds[1..])
  }

  /** Running two lists one after the other: when the first runs through,
      the second starts from its outcome and the pair halts exactly when
      the second does; when the first halts, the second is never reached. */
  lemma {:induction false} CommandsRunAppend(d: Controls, defaults: seq<Phase>, a: seq<Structs.Command>,
                                             b: seq<Structs.Command>)
    ensures !CommandsHalt(d, defaults, a) ==>
              CommandsRun(d, defaults, a + b) == CommandsRun(CommandsRun(d, defaults, a), defaults, b) &&
              (CommandsHalt(d, defaults, a + b) <==> CommandsHalt(CommandsRun(d, defaults, a), defaults, b))
    ensures CommandsHalt(d, defaults, a) ==>
              CommandsRun(d, defaults, a + b) == CommandsRun(d, defaults, a) && CommandsHalt(d, defaults, a + b)
    decreases |a|
  {
    if a != [] {
      assert (a + b)[0] == a[0] && (a + b)[1..] == a[1..] + b;
      match CommandApplied(d, defaults, a[0])
      case None =>
      case Some(e) => CommandsRunAppend(e, defaults, a[1..], b);
    } else {
      assert a + b == b;
    }
  }

  // ---------------------------------------------------------------------
  // Simulated traffic
  // ---------------------------------------------------------------------

  /** `generateNumber(lo, hi)` when the random engine yields `r`. */
  function Pick(lo: int, hi: int, r: nat): (v: int)
    requires lo <= hi
    ensures lo <= v <= hi
  {
    lo + r % (hi - lo + 1)
  }

  /** Every value of the range is some draw, so `Pick` covers the
      uniform distribution's whole support. */
  lemma PickReaches(lo: int, hi: int, v: int)
    requires lo <= v <= hi
    ensures Pick(lo, hi, v - lo) == v
  {
  }

  /** The engine's output for one second: the arrival roll and the drain roll. */
  datatype Draw = Draw(arrival: nat, pass: nat)

  /** The queue and the arrivals counted since the last green start
      (`vehicles`, `full_cicle_vehicles_quantity`). */
  datatype Traffic = Traffic(vehicles: int, arrived: int)

  /** The fixed road figures the traffic depends on; `intensity` is the
      integer value of the intensity class. */
  datatype Road = Road(capacity: int, columns: int, intensity: int)

  /** `generateTraffic()`: a roll of 1..10 below the intensity value adds a
      vehicle, unless the queue is already at capacity. */
  function Arrival(t: Traffic, road: Road, roll: nat): Traffic
  {
    if Pick(1, 10, roll) < road.intensity && t.vehicles < road.capacity
    then Traffic(t.vehicles + 1, t.arrived + 1) else t
  }

  /** The rest of a second after the arrival: outside RED, the arrival
      count restarts on the first second of GREEN, and from the third
      second on a queue drains by a draw of at most `min(vehicles,
      columns)`; RED restarts the settle count. Gives the new traffic and
      settle count. */
  function Settled(a: Traffic, count: nat, color: Color, columns: int, pass: nat): (Traffic, nat)
    requires columns >= 0
  {
    if color != RED then
      var b := if color == GREEN && count == 0 then a.(arrived := 0) else a;
      if b.vehicles > 0 && count >= 2 then
        (b.(vehicles := b.vehicles - Pick(0, Min(b.vehicles, columns), pass)), count)
      else (b, count + 1)
    else (a, 0)
  }

  /** One second of a phase: an arrival, then the drain. */
  function Second(t: Traffic, count: nat, color: Color, road: Road, d: Draw): (Traffic, nat)
    requires road.columns >= 0
  {
    Settled(Arrival(t, road, d.arrival), count, color, road.columns, d.pass)
  }

  /** The traffic after one second per draw. */
  function PhaseRun(t: Traffic, count: nat, color: Color, road: Road, draws: seq<Draw>): Traffic
    requires road.columns >= 0
    decreases |draws|
  {
    if draws == [] then t
    else var s := Second(t, count, color, road, draws[0]); PhaseRun(s.0, s.1, color, road, draws[1..])
  }

  /** Over a phase the queue never goes negative, never grows past the
      larger of where it started and the capacity, grows by at most one
      vehicle a second and shrinks by at most `columns` a second; in RED it
      never shrinks. */
  lemma {:induction false} PhaseRunBounds(t: Traffic, count: nat, color: Color, road: Road, draws: seq<Draw>)
    requires road.columns >= 0 && t.vehicles >= 0
    ensures var r := PhaseRun(t, count, color, road, draws);
            0 <= r.vehicles <= Max(t.vehicles, road.capacity) &&
            t.vehicles - road.columns * |draws| <= r.vehicles <= t.vehicles + |draws| &&
            (color == RED ==> r.vehicles >= t.vehicles)
    decreases |draws|
  {
    if draws != [] {
      var s := Second(t, count, color, road, draws[0]);
      SecondBounds(t, count, color, road, draws[0]);
      PhaseRunBounds(s.0, s.1, color, road, draws[1..]);
      var n := |draws[1..]|;
      var r := PhaseRun(s.0, s.1, color, road, draws[1..]);
      assert r == PhaseRun(t, count, color, road, draws);
      assert s.0.vehicles - road.columns * n <= r.vehicles;
      assert t.vehicles - road.columns <= s.0.vehicles;
      MulStep(road.columns, n);
    }
  }

  lemma MulStep(c: int, n: nat)
    ensures c * (n + 1) == c * n + c
  {
  }

  /** The vehicles a second drains never exceed `min(vehicles, columns)` of
      the queue after that second's arrival. */
  lemma SecondDrains(t: Traffic, count: nat, color: Color, road: Road, d: Draw)
    requires road.columns >= 0 && t.vehicles >= 0
    ensures var a := Arrival(t, road, d.arrival);
            var v := Second(t, count, color, road, d).0.vehicles;
            a.vehicles - Min(a.vehicles, road.columns) <= v <= a.vehicles
  {
  }

  /** One second's share of `PhaseRunBounds`. */
  lemma SecondBounds(t: Traffic, count: nat, color: Color, road: Road, d: Draw)
    requires road.columns >= 0 && t.vehicles >= 0
    ensures var v := Second(t, count, color, road, d).0.vehicles;
            0 <= v <= Max(t.vehicles, road.capacity) && t.vehicles - road.columns <= v <= t.vehicles + 1 &&
            (color == RED ==> v >= t.vehicles)
  {
    var a := Arrival(t, road, d.arrival);
    assert t.vehicles <= a.vehicles <= t.vehicles + 1 && a.vehicles <= Max(t.vehicles, road.capacity);
  }

  // ---------------------------------------------------------------------
  // Clock correction (the /clock branch of onData)
  // ---------------------------------------------------------------------

  const INT64_HALF: int := 0x8000_0000_0000_0000

  /** `static_cast<int64_t>` of a 64-bit unsigned value. */
  function Signed64(x: nat): (v: int)
    requires x < UINT64_MODULUS
    ensures -INT64_HALF <= v < INT64_HALF
    ensures v == x || v == x - UINT64_MODULUS
  {
    if x >= INT64_HALF then x - UINT64_MODULUS else x
  }

  /** `centralTime + rtt / 2` in `uint64_t` arithmetic, in milliseconds. */
  function CorrectedCentralTime(central: nat, rttMs: int): (c: nat)
    ensures c < UINT64_MODULUS
  {
    (central + TruncDiv(rttMs, 2)) % UINT64_MODULUS
  }

  /** `correctedCentralTime + time_left * 1000`, the projected end of the phase. */
  function ProjectedEnd(corrected: nat, timeLeft: int): (e: nat)
    ensures e < UINT64_MODULUS
  {
    (corrected + timeLeft * 1000) % UINT64_MODULUS
  }

  /** The node's clock state: remaining seconds and `stateChangeTimestamp`. */
  datatype Clock = Clock(timeLeft: int, stamp: nat)

  /** The drift between the projected end and the recorded stamp, as an
      unbounded difference; the source's `int64_t` subtraction can overflow,
      which is undefined behaviour there. */
  function Drift(c: Clock, corrected: nat): int
    requires c.stamp < UINT64_MODULUS
  {
    Signed64(ProjectedEnd(corrected, c.timeLeft)) - Signed64(c.stamp)
  }

  /** A central reading applied: with no stamp yet, the projected end is
      recorded; afterwards it is compared against the stamp, and a drift of
      more than a second adds its whole seconds to the remaining time. */
  function ClockAdjusted(c: Clock, corrected: nat): Clock
    requires c.stamp < UINT64_MODULUS
  {
    if c.stamp > 0 then
      var delta := Drift(c, corrected);
      if Abs(delta) > 1000 then c.(timeLeft := c.timeLeft + TruncDiv(delta, 1000)) else c
    else c.(stamp := ProjectedEnd(corrected, c.timeLeft))
  }

  /** Once recorded, the stamp never changes; the remaining time moves only
      past the one-second dead band, and then by the drift's whole seconds,
      toward the same sign as the drift; the first reading records the
      projected end (exactly, while no 64-bit wrap is involved). */
  lemma ClockAdjustedCases(c: Clock, corrected: nat)
    requires c.stamp < UINT64_MODULUS
    ensures c.stamp > 0 ==> ClockAdjusted(c, corrected).stamp == c.stamp
    ensures c.stamp > 0 && Abs(Drift(c, corrected)) <= 1000 ==> ClockAdjusted(c, corrected) == c
    ensures c.stamp > 0 && Abs(Drift(c, corrected)) > 1000 ==>
              var t := ClockAdjusted(c, corrected).timeLeft;
              t - c.timeLeft == TruncDiv(Drift(c, corrected), 1000) &&
              (Drift(c, corrected) > 0 ==> t > c.timeLeft) && (Drift(c, corrected) < 0 ==> t < c.timeLeft)
    ensures c.stamp == 0 ==> ClockAdjusted(c, corrected).timeLeft == c.timeLeft
    ensures c.stamp == 0 && 0 <= corrected + c.timeLeft * 1000 < UINT64_MODULUS ==>
              ClockAdjusted(c, corrected).stamp == corrected + c.timeLeft * 1000
  {
  }

  /** Because the adjustment has the sign of the drift, re-projecting with
      the same central reading moves the end further from the stamp: the
      drift grows by the thousand-multiple that was added (while the
      projected times stay in the non-wrapping range). */
  lemma ClockAdjustmentWidens(c: Clock, corrected: nat)
    requires 0 < c.stamp < INT64_HALF
    requires Abs(Drift(c, corrected)) > 1000
    requires 0 <= corrected + c.timeLeft * 1000 < INT64_HALF
    requires 0 <= corrected + ClockAdjusted(c, corrected).timeLeft * 1000 < INT64_HALF
    ensures Drift(ClockAdjusted(c, corrected), corrected) == Drift(c, corrected) + 1000 * TruncDiv(Drift(c, corrected), 1000)
    ensures Abs(Drift(ClockAdjusted(c, corrected), corrected)) > Abs(Drift(c, corrected))
  {
    var delta := Drift(c, corrected);
    var q := TruncDiv(delta, 1000);
    var c' := ClockAdjusted(c, corrected);
    assert c' == c.(timeLeft := c.timeLeft + q);
    var e0 := corrected + c.timeLeft * 1000;
    var e1 := corrected + c'.timeLeft * 1000;
    ThousandsAdd(c.timeLeft, q);
    assert e1 == e0 + 1000 * q;
    ProjectedUnwrapped(corrected, c.timeLeft);
    ProjectedUnwrapped(corrected, c'.timeLeft);
    assert delta == e0 - c.stamp;
    assert Drift(c', corrected) == e1 - c.stamp;
    TruncDivSign(delta);
  }

  lemma ThousandsAdd(t: int, q: int)
    ensures (t + q) * 1000 == t * 1000 + 1000 * q
  {
  }

  /** Below 2^63, the projected end neither wraps nor turns negative. */
  lemma ProjectedUnwrapped(corrected: nat, timeLeft: int)
    requires 0 <= corrected + timeLeft * 1000 < INT64_HALF
    ensures Signed64(ProjectedEnd(corrected, timeLeft)) == corrected + timeLeft * 1000
  {
  }

  /** Past the dead band, the whole seconds of the drift are non-zero and of its sign. */
  lemma TruncDivSign(delta: int)
    requires Abs(delta) > 1000
    ensures Abs(delta + 1000 * TruncDiv(delta, 1000)) > Abs(delta)
  {
    if delta > 0 {
      assert delta / 1000 >= 1;
    } else {
      assert (-delta) / 1000 >= 1;
    }
  }

  // ---------------------------------------------------------------------
  // The node
  // ---------------------------------------------------------------------

  class Node {
    var prefix: string
    var startColor: Color
    var currentColor: Color
    var cycleTime: int
    var columns: int
    var lines: int
    var capacity: int
    var intensity: Status
    var vehicles: int
    var fullCycleVehicles: int
    var timeLeft: int
    var stateChangeTimestamp: nat
    var colors: seq<Phase>
    var defaultColors: seq<Phase>
    /** Sending time of each pending request, by request name, in milliseconds. */
    var interestTimestamps: map<string, int>
    /** A `std::stoi` exception escaped `onData`: `std::terminate` has ended the node. */
    var halted: bool

    /** The table holds at most the three phase rows, the stamp is a 64-bit
        value and the queue is never negative. */
    predicate Valid()
      reads this`colors, this`stateChangeTimestamp, this`vehicles
    {
      |colors| <= 3 && stateChangeTimestamp < UINT64_MODULUS && vehicles >= 0
    }

    function CurrentControls(): Controls
      reads this`currentColor, this`timeLeft, this`colors
    {
      Controls(currentColor, timeLeft, colors)
    }

    /** The member initialisers: UNKNOWN colours, zero counters and times,
        empty tables. The header gives `intensity` no initialiser, so its
        value before `loadConfig` is indeterminate; the model picks NONE. */
    constructor()
      ensures Valid()
      ensures startColor == UNKNOWN && currentColor == UNKNOWN
      ensures cycleTime == 0 && columns == 0 && lines == 0 && capacity == 0 && intensity == NONE
      ensures vehicles == 0 && fullCycleVehicles == 0 && timeLeft == 0 && stateChangeTimestamp == 0
      ensures colors == [] && defaultColors == [] && interestTimestamps == map[] && prefix == ""
      ensures !halted
    {
      prefix := "";
      startColor := UNKNOWN;
      currentColor := UNKNOWN;
      cycleTime := 0;
      columns := 0;
      lines := 0;
      capacity := 0;
      intensity := NONE;
      vehicles := 0;
      fullCycleVehicles := 0;
      timeLeft := 0;
      stateChangeTimestamp := 0;
      colors := [];
      defaultColors := [];
      interestTimestamps := map[];
      halted := false;
    }

    /** `loadConfig(config)`: the name, the starting colour parsed from the
        configured state, the road figures, and the phase table with its
        default snapshot. */
    method LoadConfig(config: Structs.TrafficLightState)
      requires Valid()
      modifies this`prefix, this`startColor, this`currentColor, this`cycleTime, this`columns, this`lines
      modifies this`capacity, this`intensity, this`colors, this`defaultColors
      ensures Valid()
      ensures prefix == config.name && startColor == ParseColor(config.state) && currentColor == startColor
      ensures cycleTime == config.cycle && columns == config.columns && lines == config.lines
      ensures capacity == config.columns * config.lines && intensity == config.intensity
      ensures colors == PhaseTable(config.cycle) && defaultColors == colors
    {
      prefix := config.name;
      startColor := ParseColor(config.state);
      currentColor := startColor;
      cycleTime := config.cycle;
      columns := config.columns;
      lines := config.lines;
      capacity := columns * lines;
      intensity := config.intensity;
      colors := PhaseTable(cycleTime);
      defaultColors := colors;
    }

    /** `updateColorVectorTime(color, newTime)`. */
    method UpdateColorVectorTime(color: Color, newTime: int)
      requires Valid()
      modifies this`colors
      ensures Valid()
      ensures colors == WithPhaseTime(old(colors), color, newTime)
    {
      var index := ColorIndex(color);
      if index < |colors| {
        colors := colors[index := colors[index].(seconds := newTime)];
      }
    }

    /** `applyCommand(cmd)`; `ok` is false where `std::stoi` throws, and the
        state is then as it was. */
    method ApplyCommand(cmd: Structs.Command) returns (ok: bool)
      requires Valid()
      modifies this`currentColor, this`timeLeft, this`colors, this`halted
      ensures Valid()
      ensures var r := CommandApplied(old(CurrentControls()), defaultColors, cmd);
              ok == r.Some? && CurrentControls() == if ok then r.value else old(CurrentControls())
      ensures halted == (old(halted) || !ok)
    {
      ok := true;
      if cmd.kind == "set_state" {
        if cmd.value == "GREEN" {
          currentColor := GREEN;
        } else if cmd.value == "YELLOW" {
          currentColor := YELLOW;
        } else if cmd.value == "RED" {
          currentColor := RED;
        } else {
          currentColor := ALERT;
        }
      } else if cmd.kind == "set_time" {
        var newTime: int;
        if cmd.value == "DEFAULT" {
          newTime := DefaultColorTime(defaultColors, currentColor);
        } else {
          var parsed := StoI(cmd.value);
          if parsed.None? {
            ok := false;
            halted := true;
            return;
          }
          newTime := parsed.value;
        }
        timeLeft := newTime;
        UpdateColorVectorTime(currentColor, newTime);
      } else if cmd.kind == "increase_time" {
        var parsed := StoI(cmd.value);
        if parsed.None? {
          ok := false;
          halted := true;
          return;
        }
        timeLeft := timeLeft + parsed.value;
        UpdateColorVectorTime(currentColor, timeLeft);
      } else if cmd.kind == "decrease_time" {
        var parsed := StoI(cmd.value);
        if parsed.None? {
          ok := false;
          halted := true;
          return;
        }
        timeLeft := Max(1, timeLeft - parsed.value);
        UpdateColorVectorTime(currentColor, timeLeft);
      }
    }

    /** The `for (const auto& cmd : commands) applyCommand(cmd);` loop: a
        command that throws ends it. */
    method ApplyCommands(cmds: seq<Structs.Command>)
      requires Valid()
      modifies this`currentColor, this`timeLeft, this`colors, this`halted
      ensures Valid()
      ensures CurrentControls() == CommandsRun(old(CurrentControls()), defaultColors, cmds)
      ensures halted == (old(halted) || CommandsHalt(old(CurrentControls()), defaultColors, cmds))
    {
      var i := 0;
      while i < |cmds|
        invariant 0 <= i <= |cmds| && Valid()
        invariant CommandsRun(old(CurrentControls()), defaultColors, cmds) == CommandsRun(CurrentControls(), defaultColors, cmds[i..])
        invariant CommandsHalt(old(CurrentControls()), defaultColors, cmds) == CommandsHalt(CurrentControls(), defaultColors, cmds[i..])
        invariant halted == old(halted)
      {
        ghost var before := CurrentControls();
        assert cmds[i..][0] == cmds[i] && cmds[i..][1..] == cmds[i + 1..];
        var ok := ApplyCommand(cmds[i]);
        if !ok {
          assert CommandsRun(before, defaultColors, cmds[i..]) == before;
          return;
        }
        i := i + 1;
      }
    }

    /** `generateTraffic()` with the engine yielding `roll`. */
    method GenerateTraffic(roll: nat)
      requires Valid()
      modifies this`vehicles, this`fullCycleVehicles
      ensures Valid()
      ensures Traffic(vehicles, fullCycleVehicles) ==
              Arrival(Traffic(old(vehicles), old(fullCycleVehicles)), Road(capacity, columns, StatusValue(intensity)), roll)
    {
      if Pick(1, 10, roll) < StatusValue(intensity) && vehicles < capacity {
        vehicles := vehicles + 1;
        fullCycleVehicles := fullCycleVehicles + 1;
      }
    }

    /** The body of the countdown loop after `generateTraffic()`, with the
        engine yielding `pass` for the drain; gives the new settle count. */
    method Settle(count: nat, pass: nat) returns (next: nat)
      requires Valid() && columns >= 0
      modifies this`vehicles, this`fullCycleVehicles
      ensures Valid()
      ensures (Traffic(vehicles, fullCycleVehicles), next) ==
              Settled(Traffic(old(vehicles), old(fullCycleVehicles)), count, currentColor, columns, pass)
    {
      next := count;
      if currentColor != RED {
        if currentColor == GREEN && count == 0 {
          fullCycleVehicles := 0;
        }
        if vehicles > 0 && count >= 2 {
          var toPass := Pick(0, Min(vehicles, columns), pass);
          vehicles := vehicles - toPass;
        } else {
          next := count + 1;
        }
      } else {
        next := 0;
      }
    }

    /** One call of `cycle(index)`, without the sleeps and without the
        rescheduling, which is left to the caller through `next`. In ALERT
        the node only simulates one arrival and keeps its index and its
        remaining time; otherwise it enters the indexed phase with that
        row's duration, counts it down one second per draw, and hands on
        the following index. */
    method Cycle(index: nat, draws: seq<Draw>) returns (next: nat)
      requires Valid() && columns >= 0
      requires currentColor == ALERT ==> |draws| >= 1
      requires currentColor != ALERT ==> index < |colors| && |draws| >= colors[index].seconds
      modifies this`currentColor, this`timeLeft, this`vehicles, this`fullCycleVehicles
      ensures Valid()
      ensures old(currentColor) == ALERT ==>
                next == index && currentColor == ALERT && timeLeft == old(timeLeft) &&
                Traffic(vehicles, fullCycleVehicles) ==
                Arrival(Traffic(old(vehicles), old(fullCycleVehicles)), Road(capacity, columns, StatusValue(intensity)), draws[0].arrival)
      ensures old(currentColor) != ALERT ==>
                next == (index + 1) % |colors| && currentColor == ColorOfIndex(index) &&
                timeLeft == Min(colors[index].seconds, 0) &&
                Traffic(vehicles, fullCycleVehicles) ==
                PhaseRun(Traffic(old(vehicles), old(fullCycleVehicles)), 0, ColorOfIndex(index),
                         Road(capacity, columns, StatusValue(intensity)), draws[..Max0(colors[index].seconds)])
    {
      if currentColor == ALERT {
        GenerateTraffic(draws[0].arrival);
        next := index;
        return;
      }
      ghost var start := Traffic(vehicles, fullCycleVehicles);
      ghost var road := Road(capacity, columns, StatusValue(intensity));
      ghost var steps := Max0(colors[index].seconds);
      var color := ColorOfIndex(index);
      currentColor := color;
      timeLeft := colors[index].seconds;
      var count: nat := 0;
      var k := 0;
      while timeLeft > 0
        invariant Valid() && 0 <= k <= steps && timeLeft == colors[index].seconds - k
        invariant currentColor == color
        invariant PhaseRun(start, 0, color, road, draws[..steps]) ==
                  PhaseRun(Traffic(vehicles, fullCycleVehicles), count, color, road, draws[k..steps])
        decreases timeLeft
      {
        ghost var now := Traffic(vehicles, fullCycleVehicles);
        ghost var s := Second(now, count, color, road, draws[k]);
        assert draws[k..steps][0] == draws[k] && draws[k..steps][1..] == draws[k + 1..steps];
        GenerateTraffic(draws[k].arrival);
        count := Settle(count, draws[k].pass);
        assert Traffic(vehicles, fullCycleVehicles) == s.0 && count == s.1;
        timeLeft := timeLeft - 1;
        k := k + 1;
      }
      assert draws[k..steps] == [];
      next := (index + 1) % |colors|;
    }

    /** `sendInterest`: the sending time is recorded under the request name. */
    method SendInterest(name: string, now: int)
      modifies this`interestTimestamps
      ensures interestTimestamps == old(interestTimestamps)[name := now]
    {
      interestTimestamps := interestTimestamps[name := now];
    }

    /** The /clock branch of `onData`: a reading that `std::stoull` rejects
        stops the handler; otherwise the reading, advanced by half the
        round trip, adjusts the clock state. */
    method OnClock(content: string, rttMs: int)
      requires Valid()
      modifies this`timeLeft, this`stateChangeTimestamp
      ensures Valid()
      ensures StoULL(content).None? ==> timeLeft == old(timeLeft) && stateChangeTimestamp == old(stateChangeTimestamp)
      ensures StoULL(content).Some? ==>
                Clock(timeLeft, stateChangeTimestamp) ==
                ClockAdjusted(Clock(old(timeLeft), old(stateChangeTimestamp)), CorrectedCentralTime(StoULL(content).value, rttMs))
    {
      var centralTime := StoULL(content);
      if centralTime.None? {
        return;
      }
      var corrected := CorrectedCentralTime(centralTime.value, rttMs);
      if stateChangeTimestamp > 0 {
        var expectedEnd := ProjectedEnd(corrected, timeLeft);
        var delta := Signed64(expectedEnd) - Signed64(stateChangeTimestamp);
        if Abs(delta) > 1000 {
          timeLeft := timeLeft + TruncDiv(delta, 1000);
        }
      } else {
        stateChangeTimestamp := ProjectedEnd(corrected, timeLeft);
      }
    }

    /** The /command branch of `onData`: "do_nothing" is ignored, anything
        else is parsed and applied in order. */
    method OnCommand(content: string)
      requires Valid()
      modifies this`currentColor, this`timeLeft, this`colors, this`halted
      ensures Valid()
      ensures content == "do_nothing" ==> CurrentControls() == old(CurrentControls()) && halted == old(halted)
      ensures CurrentControls() == CommandsRun(old(CurrentControls()), defaultColors, ParsedCommands(content))
      ensures halted == (old(halted) || CommandsHalt(old(CurrentControls()), defaultColors, ParsedCommands(content)))
    {
      if content == "do_nothing" {
        DoNothingParsesEmpty(content);
        return;
      }
      var commands := ParseCommands(content);
      ApplyCommands(commands);
    }

    /** `onData`: a reply to a request with no recorded timestamp is
        dropped; otherwise the timestamp is consumed and the request name
        selects the clock branch (checked first) or the command branch. */
    method OnData(interestName: string, content: string, now: int)
      requires Valid()
      modifies this`interestTimestamps, this`timeLeft, this`stateChangeTimestamp, this`currentColor, this`colors
      modifies this`halted
      ensures Valid()
      ensures interestName !in old(interestTimestamps) ==>
                interestTimestamps == old(interestTimestamps) && CurrentControls() == old(CurrentControls()) &&
                stateChangeTimestamp == old(stateChangeTimestamp)
      ensures interestName in old(interestTimestamps) ==> interestTimestamps == old(interestTimestamps) - {interestName}
      ensures interestName in old(interestTimestamps) && HasSubstring(interestName, "/clock") ==>
                currentColor == old(currentColor) && colors == old(colors) &&
                Clock(timeLeft, stateChangeTimestamp) ==
                (if StoULL(content).None? then Clock(old(timeLeft), old(stateChangeTimestamp))
                 else ClockAdjusted(Clock(old(timeLeft), old(stateChangeTimestamp)),
                                    CorrectedCentralTime(StoULL(content).value, now - old(interestTimestamps)[interestName])))
      ensures interestName in old(interestTimestamps) && !HasSubstring(interestName, "/clock") ==>
                stateChangeTimestamp == old(stateChangeTimestamp) &&
                CurrentControls() ==
                (if HasSubstring(interestName, "/command")
                 then CommandsRun(old(CurrentControls()), defaultColors, ParsedCommands(content))
                 else old(CurrentControls()))
      ensures halted == (old(halted) || (interestName in old(interestTimestamps) && !HasSubstring(interestName, "/clock") &&
                                         HasSubstring(interestName, "/command") &&
                                         CommandsHalt(old(CurrentControls()), defaultColors, ParsedCommands(content))))
    {
      if interestName !in interestTimestamps {
        return;
      }
      var rtt := now - interestTimestamps[interestName];
      interestTimestamps := interestTimestamps - {interestName};
      if HasSubstring(interestName, "/clock") {
        OnClock(content, rtt);
      } else if HasSubstring(interestName, "/command") {
        OnCommand(content);
      }
    }
  }
}
