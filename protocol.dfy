/** What the components make of each other's messages: the command texts
    the orchestrators write, read back by the node's command parser and
    interpreter; the clock reading the earlier orchestrator serves, read by
    the node; and the status text the orchestrator of src/Orchestrator.cpp
    expects, against the bare priority the node replies with. */
module Protocol {
  import opened Wire
  import opened Enums
  import opened Structs
  import opened Coordination
  import Orchestration
  import OrchestratorV1
  import opened TrafficNode

  // ---------------------------------------------------------------------
  // Rendering helpers
  // ---------------------------------------------------------------------

  lemma RenderedOne(a: Command)
    ensures Rendered([a]) == [';'] + a.kind + [':'] + a.value
  {
    assert [a][1..] == [];
  }

  lemma RenderedTwo(a: Command, b: Command)
    ensures Rendered([a, b]) == [';'] + a.kind + [':'] + a.value + [';'] + b.kind + [':'] + b.value
  {
    assert [a, b][1..] == [b];
    RenderedOne(b);
  }

  /** Running a one-command list is applying that command. */
  lemma RunOne(d: Controls, defaults: seq<Phase>, a: Command)
    ensures CommandsRun(d, defaults, [a]) == if CommandApplied(d, defaults, a).Some? then CommandApplied(d, defaults, a).value else d
    ensures CommandsHalt(d, defaults, [a]) <==> CommandApplied(d, defaults, a).None?
  {
    assert [a][1..] == [];
  }

  /** Running a two-command list applies the second after the first. */
  lemma RunTwo(d: Controls, defaults: seq<Phase>, a: Command, b: Command)
    ensures CommandApplied(d, defaults, a).Some? ==>
              CommandsRun(d, defaults, [a, b]) == CommandsRun(CommandApplied(d, defaults, a).value, defaults, [b])
    ensures CommandApplied(d, defaults, a).None? ==> CommandsRun(d, defaults, [a, b]) == d
    ensures CommandApplied(d, defaults, a).Some? ==>
              (CommandsHalt(d, defaults, [a, b]) <==> CommandsHalt(CommandApplied(d, defaults, a).value, defaults, [b]))
    ensures CommandApplied(d, defaults, a).None? ==> CommandsHalt(d, defaults, [a, b])
  {
    assert [a, b][1..] == [b];
  }

  /** A text the orchestrator writes as one `type:value` segment parses to that command. */
  lemma ParsesToOne(content: string, a: Command)
    requires Carried(a) && content == [';'] + a.kind + [':'] + a.value
    ensures ParsedCommands(content) == [a]
  {
    RenderedOne(a);
    ParseRendered([a]);
  }

  /** A text the orchestrator writes as two segments parses to those two commands. */
  lemma ParsesToTwo(content: string, a: Command, b: Command)
    requires Carried(a) && Carried(b)
    requires content == [';'] + a.kind + [':'] + a.value + [';'] + b.kind + [':'] + b.value
    ensures ParsedCommands(content) == [a, b]
  {
    RenderedTwo(a, b);
    ParseRendered([a, b]);
  }

  /** One segment parses to its command. */
  lemma SegmentParses(content: string, kind: string, value: string)
    requires Carried(Command(kind, value)) && content == Segment(kind, value)
    ensures ParsedCommands(content) == [Command(kind, value)]
  {
    ParsesToOne(content, Command(kind, value));
  }

  /** Two segments parse to their two commands, in order. */
  lemma PairParses(content: string, k1: string, v1: string, k2: string, v2: string)
    requires Carried(Command(k1, v1)) && Carried(Command(k2, v2))
    requires content == Segment(k1, v1) + Segment(k2, v2)
    ensures ParsedCommands(content) == [Command(k1, v1), Command(k2, v2)]
  {
    ParsesToTwo(content, Command(k1, v1), Command(k2, v2));
  }

  // ---------------------------------------------------------------------
  // Single commands at the node
  // ---------------------------------------------------------------------

  lemma StateRun(d: Controls, defaults: seq<Phase>, s: string)
    ensures CommandsRun(d, defaults, [Command("set_state", s)]) == d.(color := ParseColor(s))
    ensures !CommandsHalt(d, defaults, [Command("set_state", s)])
  {
    RunOne(d, defaults, Command("set_state", s));
  }

  lemma StateThenRun(d: Controls, defaults: seq<Phase>, s: string, b: Command)
    ensures CommandsRun(d, defaults, [Command("set_state", s), b]) == CommandsRun(d.(color := ParseColor(s)), defaults, [b])
    ensures CommandsHalt(d, defaults, [Command("set_state", s), b]) == CommandsHalt(d.(color := ParseColor(s)), defaults, [b])
  {
    RunTwo(d, defaults, Command("set_state", s), b);
  }

  lemma SetTimeRun(d: Controls, defaults: seq<Phase>, x: string)
    ensures x == "DEFAULT" ==>
              var t := DefaultColorTime(defaults, d.color);
              CommandsRun(d, defaults, [Command("set_time", x)]) == Controls(d.color, t, WithPhaseTime(d.table, d.color, t))
    ensures x != "DEFAULT" && StoI(x).Some? ==>
              var t := StoI(x).value;
              CommandsRun(d, defaults, [Command("set_time", x)]) == Controls(d.color, t, WithPhaseTime(d.table, d.color, t))
    ensures x != "DEFAULT" && StoI(x).None? ==> CommandsRun(d, defaults, [Command("set_time", x)]) == d
    ensures CommandsHalt(d, defaults, [Command("set_time", x)]) <==> x != "DEFAULT" && StoI(x).None?
  {
    RunOne(d, defaults, Command("set_time", x));
  }

  lemma IncreaseRun(d: Controls, defaults: seq<Phase>, v: string, n: int)
    requires StoI(v) == Some(n)
    ensures var t := d.timeLeft + n;
            CommandsRun(d, defaults, [Command("increase_time", v)]) == Controls(d.color, t, WithPhaseTime(d.table, d.color, t))
    ensures !CommandsHalt(d, defaults, [Command("increase_time", v)])
  {
    RunOne(d, defaults, Command("increase_time", v));
  }

  lemma DecreaseRun(d: Controls, defaults: seq<Phase>, v: string, n: int)
    requires StoI(v) == Some(n)
    ensures var t := Max(1, d.timeLeft - n);
            CommandsRun(d, defaults, [Command("decrease_time", v)]) == Controls(d.color, t, WithPhaseTime(d.table, d.color, t))
    ensures !CommandsHalt(d, defaults, [Command("decrease_time", v)])
  {
    RunOne(d, defaults, Command("decrease_time", v));
  }

  lemma IgnoredRun(d: Controls, defaults: seq<Phase>, v: string)
    ensures CommandsRun(d, defaults, [Command("set_current_time", v)]) == d
    ensures !CommandsHalt(d, defaults, [Command("set_current_time", v)])
  {
    RunOne(d, defaults, Command("set_current_time", v));
  }

  /** A rendered number is never the word DEFAULT, whose last letter is no digit. */
  lemma NumberNotDefault(n: int)
    ensures IntToString(n) != "DEFAULT"
  {
    var s := IntToString(n);
    assert IsDigit(s[|s| - 1]) by {
      if n < 0 {
        assert s[|s| - 1] == s[1..][|s| - 2];
      }
    }
  }

  // ---------------------------------------------------------------------
  // The synchronisation commands of src/Orchestrator.cpp at the node
  // ---------------------------------------------------------------------

  /** The hold-red text is read as a state command and a `set_current_time`
      command carrying the milliseconds. */
  lemma HoldRedParses(ms: int)
    ensures ParsedCommands(HoldRedCommand(ms)) ==
            [Command("set_state", "RED"), Command("set_current_time", IntToString(ms))]
  {
    IntToStringPlain(ms);
    PairParses(HoldRedCommand(ms), "set_state", "RED", "set_current_time", IntToString(ms));
  }

  /** The node has no `set_current_time` command: a hold-red text (and so
      the recovery command) turns the light RED and leaves its remaining
      time and its table as they were, whatever time it carries. */
  lemma HoldRedEffect(d: Controls, defaults: seq<Phase>, ms: int)
    ensures CommandsRun(d, defaults, ParsedCommands(HoldRedCommand(ms))) == d.(color := RED)
    ensures forall cfg: Config :: cfg.recoveryRedTimeMs == ms ==>
              CommandsRun(d, defaults, ParsedCommands(NormalizationCommand(cfg))) == d.(color := RED)
    ensures !CommandsHalt(d, defaults, ParsedCommands(HoldRedCommand(ms)))
    ensures forall cfg: Config :: cfg.recoveryRedTimeMs == ms ==>
              !CommandsHalt(d, defaults, ParsedCommands(NormalizationCommand(cfg)))
  {
    HoldRedParses(ms);
    StateThenRun(d, defaults, "RED", Command("set_current_time", IntToString(ms)));
    IgnoredRun(d.(color := RED), defaults, IntToString(ms));
  }

  /** The forced-green text is read as a state command and a `set_time`
      command. */
  lemma ForcedGreenParses(ms: int)
    ensures ParsedCommands(ForcedGreenCommand(ms)) == [Command("set_state", "GREEN"), Command("set_time", IntToString(ms))]
  {
    IntToStringPlain(ms);
    PairParses(ForcedGreenCommand(ms), "set_state", "GREEN", "set_time", IntToString(ms));
  }

  /** The node takes the forced-green number as seconds, so a light is held
      GREEN for as many seconds as the orchestrator meant milliseconds. A
      number outside the 32-bit range fails `std::stoi` after the light has
      already turned GREEN. */
  lemma ForcedGreenEffect(d: Controls, defaults: seq<Phase>, ms: int)
    ensures INT_MIN <= ms <= INT_MAX ==>
              CommandsRun(d, defaults, ParsedCommands(ForcedGreenCommand(ms))) ==
              Controls(GREEN, ms, WithPhaseTime(d.table, GREEN, ms))
    ensures !(INT_MIN <= ms <= INT_MAX) ==>
              CommandsRun(d, defaults, ParsedCommands(ForcedGreenCommand(ms))) == d.(color := GREEN)
    ensures CommandsHalt(d, defaults, ParsedCommands(ForcedGreenCommand(ms))) <==> !(INT_MIN <= ms <= INT_MAX)
  {
    ForcedGreenParses(ms);
    IntToStringParses(ms);
    NumberNotDefault(ms);
    StateThenRun(d, defaults, "GREEN", Command("set_time", IntToString(ms)));
    SetTimeRun(d.(color := GREEN), defaults, IntToString(ms));
  }

  /** The alert text puts the light in ALERT and changes nothing else. */
  lemma AlertEffect(d: Controls, defaults: seq<Phase>, content: string)
    requires content == ALERT_COMMAND
    ensures CommandsRun(d, defaults, ParsedCommands(content)) == d.(color := ALERT)
    ensures !CommandsHalt(d, defaults, ParsedCommands(content))
  {
    SegmentParses(content, "set_state", "ALERT");
    StateRun(d, defaults, "ALERT");
  }

  // ---------------------------------------------------------------------
  // The priority commands of src/Orchestrator.cpp at the node
  // ---------------------------------------------------------------------

  lemma DefaultTimeEffect(d: Controls, defaults: seq<Phase>, content: string)
    requires content == Segment("set_time", "DEFAULT")
    ensures var t := DefaultColorTime(defaults, d.color);
            CommandsRun(d, defaults, ParsedCommands(content)) == Controls(d.color, t, WithPhaseTime(d.table, d.color, t))
    ensures !CommandsHalt(d, defaults, ParsedCommands(content))
  {
    SegmentParses(content, "set_time", "DEFAULT");
    SetTimeRun(d, defaults, "DEFAULT");
  }

  lemma ReleaseEffect(d: Controls, defaults: seq<Phase>, content: string)
    requires content == Segment("set_state", "GREEN") + Segment("set_time", "DEFAULT")
    ensures var t := DefaultColorTime(defaults, GREEN);
            CommandsRun(d, defaults, ParsedCommands(content)) == Controls(GREEN, t, WithPhaseTime(d.table, GREEN, t))
    ensures !CommandsHalt(d, defaults, ParsedCommands(content))
  {
    PairParses(content, "set_state", "GREEN", "set_time", "DEFAULT");
    StateThenRun(d, defaults, "GREEN", Command("set_time", "DEFAULT"));
    SetTimeRun(d.(color := GREEN), defaults, "DEFAULT");
  }

  lemma IncreaseEffect(d: Controls, defaults: seq<Phase>, content: string)
    requires content == Segment("increase_time", "5000")
    ensures var t := d.timeLeft + 5000;
            CommandsRun(d, defaults, ParsedCommands(content)) == Controls(d.color, t, WithPhaseTime(d.table, d.color, t))
    ensures !CommandsHalt(d, defaults, ParsedCommands(content))
  {
    SegmentParses(content, "increase_time", "5000");
    assert IntToString(5000) == "5000";
    StoIRoundTrip(5000);
    IncreaseRun(d, defaults, "5000", 5000);
  }

  lemma DecreaseEffect(d: Controls, defaults: seq<Phase>, content: string)
    requires content == Segment("decrease_time", "3000")
    ensures var t := Max(1, d.timeLeft - 3000);
            CommandsRun(d, defaults, ParsedCommands(content)) == Controls(d.color, t, WithPhaseTime(d.table, d.color, t))
    ensures !CommandsHalt(d, defaults, ParsedCommands(content))
  {
    SegmentParses(content, "decrease_time", "3000");
    assert IntToString(3000) == "3000";
    StoIRoundTrip(3000);
    DecreaseRun(d, defaults, "3000", 3000);
  }

  /** The priority commands at the node: an UNKNOWN light goes to ALERT, an
      ALERT light is released GREEN at the snapshot's green time, a healthy
      light of low priority gets its colour's snapshot time back, a GREEN
      (RED) light at or above the mean gets 5000 more (3000 fewer, never
      below 1) seconds -- the orchestrator's milliseconds taken as seconds --
      and any other light is left alone. */
  lemma PriorityCommandEffect(t: TrafficLightState, sum: int, count: nat, minPriority: int,
                              d: Controls, defaults: seq<Phase>)
    ensures var r := CommandsRun(d, defaults, ParsedCommands(PriorityCommand(t, sum, count, minPriority)));
            var healthy := !t.IsUnknown() && !t.IsAlert();
            && (t.IsUnknown() ==> r == d.(color := ALERT))
            && (t.IsAlert() ==>
                  r == Controls(GREEN, DefaultColorTime(defaults, GREEN),
                                WithPhaseTime(d.table, GREEN, DefaultColorTime(defaults, GREEN))))
            && (healthy && t.priority < minPriority ==>
                  r == Controls(d.color, DefaultColorTime(defaults, d.color),
                                WithPhaseTime(d.table, d.color, DefaultColorTime(defaults, d.color))))
            && (healthy && t.priority >= minPriority && t.state == "GREEN" && AtLeastAverage(t.priority, sum, count) ==>
                  r == Controls(d.color, d.timeLeft + 5000, WithPhaseTime(d.table, d.color, d.timeLeft + 5000)))
            && (healthy && t.priority >= minPriority && t.state == "RED" && AtLeastAverage(t.priority, sum, count) ==>
                  r == Controls(d.color, Max(1, d.timeLeft - 3000), WithPhaseTime(d.table, d.color, Max(1, d.timeLeft - 3000))))
            && (healthy && t.priority >= minPriority && !(t.state in {"GREEN", "RED"} && AtLeastAverage(t.priority, sum, count)) ==>
                  r == d)
    ensures !CommandsHalt(d, defaults, ParsedCommands(PriorityCommand(t, sum, count, minPriority)))
  {
    var c := PriorityCommand(t, sum, count, minPriority);
    if t.priority < minPriority && !t.IsUnknown() && !t.IsAlert() {
      DefaultTimeEffect(d, defaults, c);
    } else if t.IsAlert() {
      ReleaseEffect(d, defaults, c);
    } else if t.IsUnknown() {
      AlertEffect(d, defaults, c);
    } else if t.state == "GREEN" && AtLeastAverage(t.priority, sum, count) {
      IncreaseEffect(d, defaults, c);
    } else if t.state == "RED" && AtLeastAverage(t.priority, sum, count) {
      DecreaseEffect(d, defaults, c);
    } else {
      assert c == "";
      assert ParsedCommands(c) == [];
    }
  }

  // ---------------------------------------------------------------------
  // The commands of the earlier orchestrator at the node
  // ---------------------------------------------------------------------

  /** "increase_time" and "do_nothing" carry no ':', so the node finds no
      command in either: the earlier orchestrator's review never changes a
      light of the current node. */
  lemma ReviewCommandsInert(lights: map<string, OrchestratorV1.Light>, chosen: string, n: string,
                            d: Controls, defaults: seq<Phase>)
    requires n in lights
    ensures ParsedCommands(OrchestratorV1.WithCommands(lights, chosen)[n].command) == []
    ensures CommandsRun(d, defaults, ParsedCommands(OrchestratorV1.WithCommands(lights, chosen)[n].command)) == d
  {
    ReviewWordsParseEmpty(OrchestratorV1.WithCommands(lights, chosen)[n].command);
  }

  lemma ReviewWordsParseEmpty(c: string)
    requires c == "increase_time" || c == "do_nothing"
    ensures ParsedCommands(c) == []
  {
    NoSeparatorParsesEmpty(c);
  }

  // ---------------------------------------------------------------------
  // The clock reading
  // ---------------------------------------------------------------------

  /** The earlier orchestrator's clock text, read by the node's
      `std::stoull`, gives back every 64-bit reading. */
  lemma ClockRoundTrip(nowMs: int)
    requires 0 <= nowMs < UINT64_MODULUS
    ensures StoULL(IntToString(nowMs)) == Some(nowMs)
  {
    IntToStringParses(nowMs);
  }

  // ---------------------------------------------------------------------
  // Status replies
  // ---------------------------------------------------------------------

  /** A reply written `state|remaining|priority` reads back as its three
      fields when the state has no '|' and the remaining time fits an `int`. */
  lemma StatusRoundTrip(state: string, remaining: int, priority: int)
    requires '|' !in state && INT_MIN <= remaining <= INT_MAX
    ensures Orchestration.ReadStatus(state + "|" + IntToString(remaining) + "|" + IntToString(priority)) ==
            Orchestration.Readable(Orchestration.StatusReply(state, remaining, Some(priority)))
  {
    var r, p := IntToString(remaining), IntToString(priority);
    IntToStringPlain(remaining);
    IntToStringPlain(priority);
    var text := state + "|" + r + "|" + p;
    assert text == state + ['|'] + (r + ['|'] + p);
    SplitAllPrefix(state, r + ['|'] + p, '|');
    SplitAllPrefix(r, p, '|');
    SplitAllNoDelimiter(p, '|');
    assert SplitAll(text, '|') == [state, r, p];
    SplitKeepsLast(text, '|', [state, r, p]);
    StoIRoundTrip(remaining);
    IntToStringParses(priority);
  }

  /** The node answers a status request with the bare `std::to_string` of
      its priority, which holds no '|': the orchestrator of
      src/Orchestrator.cpp can read no such reply. */
  lemma BarePriorityUnread(content: string)
    requires '|' !in content
    ensures Orchestration.ReadStatus(content) == Orchestration.TooFewPieces
  {
    if content != [] {
      SplitAllNoDelimiter(content, '|');
      SplitLastPiece(content, '|', [], content);
    }
  }

  /** The node asks for `<central>/command`, with nothing after "command":
      the orchestrator of src/Orchestrator.cpp routes such a request to no
      light. */
  lemma BareCommandRequestUnrouted(central: seq<string>)
    requires forall j :: 0 <= j < |central| ==> central[j] != "command"
    ensures CommandIndex(central + ["command"], 0) == None
  {
  }
}
