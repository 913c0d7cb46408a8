/** The orchestrator of src/Orchestrator.cpp: the light and intersection
    tables it updates in place, the RTT window, the fault model driven by
    replies, nacks and timeouts, and one tick of the arbitration cycle.
    Clock readings arrive as the parameter `now` (milliseconds); the NDN
    face, the lock and the sleeping loop around the tick are not modelled. */
module Orchestration {
  import opened Wire
  import opened Structs
  import opened Coordination

  /** What `onInterest` does with a request. */
  datatype CommandRoute =
    | Reply(lightName: string, content: string)
    | UnknownLight(lightName: string)
    | InvalidSuffix

  /** Every intersection is filed under its own name, in key order, and
      lists configured lights only. */
  ghost predicate TopologyValid(lightKeys: set<string>, inters: map<string, Intersection>, order: seq<string>)
  {
    && KeyOrder(order, inters.Keys)
    && forall k :: k in inters ==>
         inters[k].name == k && forall n :: n in inters[k].trafficLightNames ==> n in lightKeys
  }

  /** Every green-wave member is a configured light. */
  ghost predicate WavesValid(waves: seq<GreenWaveGroup>, lightKeys: set<string>)
  {
    forall w :: w in waves ==> forall n :: n in w.trafficLightNames ==> n in lightKeys
  }

  /** Each cached list belongs to an intersection and names its members. */
  ghost predicate CacheValid(cache: map<string, seq<Entry>>, inters: map<string, Intersection>)
  {
    forall k :: k in cache ==>
      k in inters && forall e :: e in cache[k] ==> e.0 in inters[k].trafficLightNames
  }

  /** Changing an intersection's flags keeps the topology and the cache valid. */
  lemma FlagsKeepTopology(lightKeys: set<string>, inters: map<string, Intersection>, order: seq<string>,
                          cache: map<string, seq<Entry>>, k: string, v: Intersection)
    requires TopologyValid(lightKeys, inters, order) && CacheValid(cache, inters)
    requires k in inters && v.name == inters[k].name && v.trafficLightNames == inters[k].trafficLightNames
    ensures TopologyValid(lightKeys, inters[k := v], order) && CacheValid(cache, inters[k := v])
  {
    assert inters[k := v].Keys == inters.Keys;
  }

  /** The topology speaks of intersections' members as keys of the light table. */
  lemma TopologyMembers(lightKeys: set<string>, lights: Lights, inters: map<string, Intersection>,
                        order: seq<string>, k: string)
    requires TopologyValid(lightKeys, inters, order) && lightKeys == lights.Keys && k in inters
    ensures MembersKnown(inters[k], lights) && inters[k].name == k
  {
  }

  /** Replacing one intersection's cached list by a list of its members keeps the cache valid. */
  lemma CacheUpdate(cache: map<string, seq<Entry>>, inters: map<string, Intersection>, k: string, list: seq<Entry>)
    requires CacheValid(cache, inters) && k in inters
    requires forall e :: e in list ==> e.0 in inters[k].trafficLightNames
    ensures CacheValid(cache[k := list], inters)
  {
  }

  /** The sorted entries name members only. */
  lemma SortedEntriesNames(names: seq<string>, lights: Lights)
    requires forall n :: n in names ==> n in lights
    ensures forall e :: e in SortByPriority(Entries(names, lights)) ==> e.0 in names
  {
    var es := Entries(names, lights);
    forall e | e in SortByPriority(es) ensures e.0 in names {
      assert e in multiset(SortByPriority(es));
      assert e in multiset(es);
      var i :| 0 <= i < |es| && es[i] == e;
    }
  }

  /** One step of the active-member scan. */
  lemma FirstActiveStep(names: seq<string>, lights: Lights, i: nat)
    requires forall n :: n in names ==> n in lights
    requires i <= |names|
    ensures forall n :: n in names[i..] ==> n in lights
    ensures i == |names| ==> FirstActive(names[i..], lights).None?
    ensures i < |names| && lights[names[i]].IsActive() ==> FirstActive(names[i..], lights) == Some(names[i])
    ensures i < |names| && !lights[names[i]].IsActive() ==>
              FirstActive(names[i..], lights) == FirstActive(names[i + 1..], lights)
  {
    assert forall n :: n in names[i..] ==> n in names;
    if i < |names| {
      assert names[i..][0] == names[i];
      assert names[i..][1..] == names[i + 1..];
    }
  }

  /** The RTT sample `recordRTT` takes for a reply named `dataName`: half the
      time since its Interest left, 0 without a recorded Interest. */
  function ReplyRtt(stamps: map<string, int>, dataName: string, now: int): int
  {
    if dataName in stamps then TruncDiv(now - stamps[dataName], 2) else 0
  }

  /** A light's record after a readable reply `state|remaining|priority`:
      the state, the end time (remaining time less the RTT sample, clamped
      at 0), and when the priority was readable, that priority and a reset
      timeout counter. An unreadable priority makes `std::stof` throw after
      the state and end time are written, so the record stops there. */
  function RepliedLight(t: TrafficLightState, state: string, remaining: int, priority: Option<int>,
                        rtt: int, now: int): (r: TrafficLightState)
    ensures priority.None? ==> r == t.(state := state, endTime := now + Max0(remaining - rtt))
    ensures priority.Some? ==>
              r == t.(state := state, endTime := now + Max0(remaining - rtt),
                      priority := priority.value, timeOutCounter := 0)
    ensures r.state == state && r.endTime >= now && r.endTime - now >= remaining - rtt
    ensures priority.Some? ==> r.priority == priority.value && r.timeOutCounter == 0
    ensures priority.None? ==> r.priority == t.priority && r.timeOutCounter == t.timeOutCounter
    ensures r.name == t.name && r.command == t.command && r.intersection == t.intersection
  {
    var told := t.(state := state, endTime := now + Max0(remaining - rtt));
    if priority.Some? then told.(priority := priority.value, timeOutCounter := 0) else told
  }

  /** The fields `onData` reads from a status reply `state|remaining|priority`. */
  datatype StatusReply = StatusReply(state: string, remaining: int, priority: Option<int>)

  /** What `onData` makes of a reply's text: fewer than three pieces are
      logged and dropped; a remaining time `std::stoi` rejects throws; any
      other reply is read, its priority None where `std::stof` throws. */
  datatype StatusReading =
    | TooFewPieces
    | RemainingRejected
    | Readable(reply: StatusReply)

  /** `onData`'s reading of a reply, split on '|'. */
  function ReadStatus(content: string): StatusReading
  {
    var tokens := Split(content, '|');
    if |tokens| < 3 then TooFewPieces
    else if StoI(tokens[1]).None? then RemainingRejected
    else Readable(StatusReply(tokens[0], StoI(tokens[1]).value, StoFTruncated(tokens[2])))
  }

  /** The tokenizing loop and the conversions of `onData`. */
  method ParseStatus(content: string) returns (reading: StatusReading)
    ensures reading == ReadStatus(content)
  {
    var tokens := Tokenize(content, '|');
    if |tokens| < 3 {
      return TooFewPieces;
    }
    var remaining := StoI(tokens[1]);
    if remaining.None? {
      return RemainingRejected;
    }
    return Readable(StatusReply(tokens[0], remaining.value, StoFTruncated(tokens[2])));
  }

  /** Reading the reply to a recorded Interest throws, in `std::stoi` or
      `std::stof`: `onData` catches neither, so `std::terminate` ends the
      orchestrator. */
  predicate StatusHalts(stamps: map<string, int>, name: string, reading: StatusReading)
  {
    name in stamps && (reading.RemainingRejected? || (reading.Readable? && reading.reply.priority.None?))
  }

  /** The effect of a status reply on the light table, the Interest
      timestamps and the RTT window (from `lights`, `stamps`, `history` to
      the primed ones): a reply without a recorded Interest, one of fewer
      than three pieces, or one whose remaining time throws, changes nothing. */
  ghost predicate StatusApplied(lights: Lights, stamps: map<string, int>, history: seq<int>,
                                lights': Lights, stamps': map<string, int>, history': seq<int>,
                                name: string, dataName: string, reading: StatusReading, now: int, window: nat)
    requires name in lights && |history| <= window
  {
    if name !in stamps || !reading.Readable? then
      lights' == lights && stamps' == stamps && history' == history
    else
      && stamps' == stamps - {name}
      && history' == (if dataName in stamps then PushSample(history, ReplyRtt(stamps, dataName, now), window) else history)
      && lights' == lights[name := RepliedLight(lights[name], reading.reply.state, reading.reply.remaining,
                                              reading.reply.priority, ReplyRtt(stamps, dataName, now), now)]
  }

  /** The loop of `updatePriorityList` collecting each member with its priority. */
  method CollectEntries(names: seq<string>, lights: Lights) returns (list: seq<Entry>)
    requires forall n :: n in names ==> n in lights
    ensures list == Entries(names, lights)
  {
    list := [];
    var i := 0;
    while i < |names|
      invariant 0 <= i <= |names|
      invariant list == Entries(names[..i], lights)
    {
      assert names[..i + 1][..i] == names[..i];
      list := list + [(names[i], lights[names[i]].priority)];
      i := i + 1;
    }
    assert names[..i] == names;
  }

  /** The body of `forceCycleStart`: the first entry of the priority list,
      if any, is told GREEN for the base time less the one-way delay. */
  method ForcedGreen(lights: Lights, priorityList: seq<Entry>, avgRttOneWay: int, cfg: Config, now: int)
    returns (r: Lights)
    requires forall e :: e in priorityList ==> e.0 in lights
    ensures r == WatchdogApplied(lights, priorityList, true, avgRttOneWay, cfg, now)
  {
    if priorityList == [] {
      return lights;
    }
    assert priorityList[0] in priorityList;
    var leaderName := priorityList[0].0;
    var leader := lights[leaderName];
    var finalCommandTime := cfg.greenBaseTimeMs - avgRttOneWay;
    if finalCommandTime < 0 {
      finalCommandTime := 0;
    }
    leader := leader.(command := ForcedGreenCommand(finalCommandTime), endTime := now + cfg.greenBaseTimeMs);
    r := lights[leaderName := leader];
  }

  /** The loop of `loadTopology` that clears every light's command, in key order. */
  method ClearCommands(lights: Lights, order: seq<string>) returns (r: Lights)
    requires forall k :: k in lights ==> k in order
    requires forall i :: 0 <= i < |order| ==> order[i] in lights
    ensures r.Keys == lights.Keys
    ensures forall n :: n in lights ==> r[n] == lights[n].(command := "")
  {
    r := lights;
    var i := 0;
    while i < |order|
      invariant 0 <= i <= |order|
      invariant r.Keys == lights.Keys
      invariant forall n :: n in lights ==>
                  r[n] == if n in order[..i] then lights[n].(command := "") else lights[n]
    {
      var name := order[i];
      TakeOneMore(order, i);
      UpdateKeys(r, name, r[name].(command := ""));
      r := r[name := r[name].(command := "")];
      i := i + 1;
    }
    assert order[..i] == order;
  }

  /** The decision of `generateSyncCommand` on the requester's record. */
  method SyncedRecord(inter: Intersection, lights: Lights, requester: string, avgRttOneWay: int, cfg: Config, now: int)
    returns (r: TrafficLightState)
    requires requester in lights && MembersKnown(inter, lights)
    ensures r == SyncDecision(inter, lights, requester, avgRttOneWay, cfg, now)
  {
    r := lights[requester];
    if inter.needsNormalization {
      r := r.(command := NormalizationCommand(cfg), endTime := now + cfg.recoveryRedTimeMs);
    } else if inter.isCompromised {
      r := r.(command := ALERT_COMMAND);
    } else {
      var active := FindActive(inter.trafficLightNames, lights);
      if active.Some? && active.value != "" && active.value != requester {
        var activeTl := lights[active.value];
        var activeRemainingMs := activeTl.endTime - now;
        if activeTl.state == "GREEN" {
          activeRemainingMs := activeRemainingMs + cfg.yellowTimeMs;
        }
        var finalCommandTime := activeRemainingMs - avgRttOneWay;
        if finalCommandTime < 0 {
          finalCommandTime := 0;
        }
        var currentRemainingMs := r.endTime - now;
        if Abs(currentRemainingMs - activeRemainingMs) > 1000 {
          r := r.(command := HoldRedCommand(finalCommandTime), endTime := now + activeRemainingMs);
        }
      }
    }
  }

  /** The scan of `generateSyncCommand` for the first GREEN or YELLOW member. */
  method FindActive(names: seq<string>, lights: Lights) returns (active: Option<string>)
    requires forall n :: n in names ==> n in lights
    ensures active == FirstActive(names, lights)
  {
    var i := 0;
    while i < |names|
      invariant 0 <= i <= |names|
      invariant forall n :: n in names[i..] ==> n in lights
      invariant FirstActive(names, lights) == FirstActive(names[i..], lights)
    {
      FirstActiveStep(names, lights, i);
      if lights[names[i]].IsActive() {
        return Some(names[i]);
      }
      i := i + 1;
    }
    FirstActiveStep(names, lights, i);
    return None;
  }

  /** The watchdog's scan: no member is GREEN or YELLOW. */
  method ScanAllRed(names: seq<string>, lights: Lights) returns (allRed: bool)
    requires forall n :: n in names ==> n in lights
    ensures allRed == AllRed(names, lights)
  {
    allRed := true;
    var i := 0;
    while i < |names| && allRed
      invariant 0 <= i <= |names|
      invariant allRed <==> forall j :: 0 <= j < i ==> !lights[names[j]].IsActive()
    {
      if lights[names[i]].IsActive() {
        allRed := false;
      }
      i := i + 1;
    }
  }

  /** The recovery check's scan: no member other than `self` is UNKNOWN. */
  method ScanNoOtherUnknown(names: seq<string>, lights: Lights, self: string) returns (ok: bool)
    requires forall n :: n in names ==> n in lights
    ensures ok == NoOtherUnknown(names, lights, self)
  {
    ok := true;
    var i := 0;
    while i < |names| && ok
      invariant 0 <= i <= |names|
      invariant ok <==> forall j :: 0 <= j < i ==> !(lights[names[j]].IsUnknown() && names[j] != self)
    {
      if lights[names[i]].IsUnknown() && names[i] != self {
        ok := false;
      }
      i := i + 1;
    }
  }

  /** The loop of `triggerGreenWave` over the wave's members. */
  method ApplyWave(lights: Lights, names: seq<string>, base: string, baseIndex: int,
                   baseEnd: int, travel: int, command: string) returns (r: Lights)
    requires forall n :: n in names ==> n in lights
    ensures r == WaveApplied(lights, names, base, baseIndex, baseEnd, travel, command, |names|)
  {
    r := lights;
    var i := 0;
    while i < |names|
      invariant 0 <= i <= |names|
      invariant r == WaveApplied(lights, names, base, baseIndex, baseEnd, travel, command, i)
    {
      var follower := names[i];
      if follower != base {
        var offsetMultiplier := i - baseIndex;
        r := r[follower := r[follower].(command := command, endTime := baseEnd + offsetMultiplier * travel)];
      }
      i := i + 1;
    }
  }

  /** Part way through phase 2 of a tick: the members in `done` hold their
      outcomes so far, every other record is as it was `before` phase 2,
      and only commands and end times have changed. */
  ghost predicate PhaseTwo(inter: Intersection, before: Lights, lights: Lights, done: seq<string>,
                           oneWay: int, cfg: Config, now: int)
    requires MembersKnown(inter, before)
  {
    && lights.Keys == before.Keys
    && (forall n :: n in lights ==> SameButSchedule(lights[n], before[n]))
    && (forall n :: n in lights && n !in inter.trafficLightNames ==> lights[n] == before[n])
    && MembersKnown(inter, lights)
    && DecidedSoFar(inter, before, lights, done, oneWay, cfg, now)
  }

  /** Clearing the next member's command and deciding for it extends phase 2 by that member. */
  lemma PhaseTwoStep(inter: Intersection, before: Lights, lights: Lights, i: nat, oneWay: int, cfg: Config, now: int)
    requires MembersKnown(inter, before) && i < |inter.trafficLightNames|
    requires PhaseTwo(inter, before, lights, inter.trafficLightNames[..i], oneWay, cfg, now)
    ensures var name := inter.trafficLightNames[i];
            var cleared := lights[name := lights[name].(command := "")];
            && name in lights && MembersKnown(inter, cleared)
            && PhaseTwo(inter, before, cleared[name := SyncDecision(inter, cleared, name, oneWay, cfg, now)],
                        inter.trafficLightNames[..i + 1], oneWay, cfg, now)
  {
    var members := inter.trafficLightNames;
    var name := members[i];
    var done := members[..i];
    assert members[..i + 1] == done + [name];
    var cleared := lights[name := lights[name].(command := "")];
    var t := SyncDecision(inter, cleared, name, oneWay, cfg, now);
    SyncStep(inter, before, lights, done, name, oneWay, cfg, now);
    PhaseTwoExtend(inter, before, lights, done, name, t, oneWay, cfg, now);
    Overwrite(lights, name, lights[name].(command := ""), t);
  }

  /** A second write to a key hides the first. */
  lemma Overwrite(m: Lights, k: string, v1: TrafficLightState, v2: TrafficLightState)
    ensures m[k := v1][k := v2] == m[k := v2]
  {
  }

  /** Rewriting a present key keeps the key set. */
  lemma UpdateKeys(m: Lights, k: string, v: TrafficLightState)
    requires k in m
    ensures m[k := v].Keys == m.Keys
  {
  }

  /** A member's next outcome, written over its record, extends phase 2 by that member. */
  lemma PhaseTwoExtend(inter: Intersection, before: Lights, lights: Lights, done: seq<string>, name: string,
                       t: TrafficLightState, oneWay: int, cfg: Config, now: int)
    requires MembersKnown(inter, before) && name in inter.trafficLightNames
    requires PhaseTwo(inter, before, lights, done, oneWay, cfg, now)
    requires t == AfterPhaseTwo(inter, before, name, multiset(done)[name] + 1, oneWay, cfg, now)
    ensures PhaseTwo(inter, before, lights[name := t], done + [name], oneWay, cfg, now)
  {
    var lights' := lights[name := t];
    var done' := done + [name];
    assert multiset(done') == multiset(done) + multiset{name};
    assert lights'.Keys == before.Keys;
    assert MembersKnown(inter, lights');
    forall n | n in inter.trafficLightNames
      ensures lights'[n] == if n in done' then AfterPhaseTwo(inter, before, n, multiset(done')[n], oneWay, cfg, now)
                            else before[n]
    {
      if n != name {
        assert (n in done') == (n in done);
      }
    }
  }

  /** During a tick: the intersections in `done` have finished normalization,
      the others are as they were (`inters0`). */
  ghost predicate NormalizedUpTo(inters0: map<string, Intersection>, inters: map<string, Intersection>, done: seq<string>)
  {
    && inters.Keys == inters0.Keys
    && forall k :: k in inters ==>
         inters[k] == inters0[k].(needsNormalization := if k in done then false else inters0[k].needsNormalization)
  }

  lemma NormalizedStep(inters0: map<string, Intersection>, inters: map<string, Intersection>, done: seq<string>, k: string)
    requires NormalizedUpTo(inters0, inters, done) && k in inters
    ensures NormalizedUpTo(inters0, inters[k := inters[k].(needsNormalization := false)], done + [k])
  {
  }

  /** Once every key is done, every intersection has left normalization. */
  lemma NormalizedAll(inters0: map<string, Intersection>, inters: map<string, Intersection>, order: seq<string>)
    requires NormalizedUpTo(inters0, inters, order) && KeyOrder(order, inters0.Keys)
    ensures inters.Keys == inters0.Keys
    ensures forall k :: k in inters ==> inters[k] == inters0[k].(needsNormalization := false)
  {
  }

  /** In a list without repetition, the `i`-th key is not among the ones before it. */
  lemma NotYetVisited(order: seq<string>, i: nat)
    requires i < |order|
    requires forall a, b :: 0 <= a < b < |order| ==> order[a] != order[b]
    ensures order[i] !in order[..i]
  {
  }

  /** Only commands and end times differ from the records `lights0`. */
  ghost predicate Rescheduled(lights0: Lights, lights: Lights)
  {
    && lights.Keys == lights0.Keys
    && forall n :: n in lights ==> SameButSchedule(lights[n], lights0[n])
  }

  /** One intersection's tick keeps the light table `Rescheduled`. */
  lemma RescheduledStep(lights0: Lights, lights1: Lights, lights2: Lights, inter: Intersection,
                        cache: seq<Entry>, count: int, oneWay: int, cfg: Config, now: int)
    requires Rescheduled(lights0, lights1) && MembersKnown(inter, lights1)
    requires forall e :: e in cache ==> e.0 in inter.trafficLightNames
    requires TickApplied(inter, lights1, cache, count, lights2, oneWay, cfg, now)
    ensures Rescheduled(lights0, lights2)
  {
    var watched := WatchdogApplied(lights1, cache, WatchdogFires(AllRed(inter.trafficLightNames, lights1), count),
                                   oneWay, cfg, now);
    forall n | n in lights2
      ensures SameButSchedule(lights2[n], lights0[n])
    {
      if n in inter.trafficLightNames {
        assert SameButSchedule(lights2[n], watched[n]);
        assert SameButSchedule(watched[n], lights1[n]);
      }
    }
  }

  /** The all-red counter of an intersection (`operator[]` reads 0 when absent). */
  function CounterOf(counters: map<string, int>, k: string): int
  {
    if k in counters then counters[k] else 0
  }

  /** No member of intersection `k` is listed by another intersection. */
  ghost predicate Isolated(inters: map<string, Intersection>, k: string)
    requires k in inters
  {
    forall k2, n :: k2 in inters && k2 != k && n in inters[k].trafficLightNames ==> n !in inters[k2].trafficLightNames
  }

  /** Intersection `k`'s members and all-red counter hold what its tick made
      of the lights `lights0` and the counters `counters0` of before the
      whole `cycle` tick. */
  ghost predicate TickedAlone(inters0: map<string, Intersection>, lights0: Lights, counters0: map<string, int>,
                              caches: map<string, seq<Entry>>, k: string, lights: Lights, counters: map<string, int>,
                              oneWay: int, cfg: Config, now: int)
  {
    && k in inters0 && k in caches
    && MembersKnown(inters0[k], lights0)
    && (forall e :: e in caches[k] ==> e.0 in inters0[k].trafficLightNames)
    && CounterOf(counters, k) == NextAllRedCount(AllRed(inters0[k].trafficLightNames, lights0), CounterOf(counters0, k))
    && MembersTicked(inters0[k], lights0, caches[k], CounterOf(counters0, k), lights, oneWay, cfg, now)
  }

  /** The counters of the intersections from the `i`-th on are those of before the tick. */
  ghost predicate CountersPending(counters0: map<string, int>, order: seq<string>, i: nat, counters: map<string, int>)
  {
    forall j :: i <= j < |order| ==> CounterOf(counters, order[j]) == CounterOf(counters0, order[j])
  }

  /** The members of the isolated intersections from the `i`-th on hold their records of before the tick. */
  ghost predicate MembersPending(inters0: map<string, Intersection>, lights0: Lights, order: seq<string>, i: nat,
                                 lights: Lights)
  {
    forall j, n ::
      i <= j < |order| && order[j] in inters0 && Isolated(inters0, order[j]) && n in inters0[order[j]].trafficLightNames
      ==> n in lights && n in lights0 && lights[n] == lights0[n]
  }

  /** The isolated intersections before the `i`-th are `TickedAlone`. */
  ghost predicate VisitedAlone(inters0: map<string, Intersection>, lights0: Lights, counters0: map<string, int>,
                               caches: map<string, seq<Entry>>, order: seq<string>, i: nat,
                               lights: Lights, counters: map<string, int>, oneWay: int, cfg: Config, now: int)
  {
    forall j :: 0 <= j < i && j < |order| && order[j] in inters0 && Isolated(inters0, order[j]) ==>
      TickedAlone(inters0, lights0, counters0, caches, order[j], lights, counters, oneWay, cfg, now)
  }

  /** The loop invariant of `Tick` for isolated intersections: after `i`
      intersections in key order, the ones visited are `TickedAlone`, and
      the ones to come still have their members' records and counters of
      before the tick. */
  ghost predicate TickedUpTo(inters0: map<string, Intersection>, lights0: Lights, counters0: map<string, int>,
                             caches: map<string, seq<Entry>>, order: seq<string>, i: nat,
                             lights: Lights, counters: map<string, int>, oneWay: int, cfg: Config, now: int)
  {
    && CountersPending(counters0, order, i, counters)
    && MembersPending(inters0, lights0, order, i, lights)
    && VisitedAlone(inters0, lights0, counters0, caches, order, i, lights, counters, oneWay, cfg, now)
  }

  /** Before the tick, nothing is visited and everything is pending. */
  lemma TickedNothing(inters0: map<string, Intersection>, lights0: Lights, counters0: map<string, int>,
                      caches: map<string, seq<Entry>>, order: seq<string>, oneWay: int, cfg: Config, now: int)
    requires forall k :: k in inters0 ==> MembersKnown(inters0[k], lights0)
    ensures TickedUpTo(inters0, lights0, counters0, caches, order, 0, lights0, counters0, oneWay, cfg, now)
  {
  }

  /** The isolated intersections other than the `i`-th share no member with it. */
  lemma OthersApart(inters0: map<string, Intersection>, order: seq<string>, i: nat)
    requires i < |order| && order[i] in inters0
    requires forall a, b :: 0 <= a < b < |order| ==> order[a] != order[b]
    ensures forall j, n ::
              0 <= j < |order| && j != i && order[j] in inters0 && Isolated(inters0, order[j]) &&
              n in inters0[order[j]].trafficLightNames
              ==> n !in inters0[order[i]].trafficLightNames
  {
    forall j, n | 0 <= j < |order| && j != i && order[j] in inters0 && Isolated(inters0, order[j]) &&
                  n in inters0[order[j]].trafficLightNames
      ensures n !in inters0[order[i]].trafficLightNames
    {
      assert order[j] != order[i];
    }
  }

  /** The `i`-th intersection's tick leaves the visited isolated ones as
      they were; with its own outcome, one more is visited. */
  lemma VisitedStep(inters0: map<string, Intersection>, lights0: Lights, counters0: map<string, int>,
                    caches: map<string, seq<Entry>>, order: seq<string>, i: nat,
                    lights: Lights, counters: map<string, int>, lights': Lights, counters': map<string, int>,
                    oneWay: int, cfg: Config, now: int)
    requires i < |order| && order[i] in inters0
    requires forall a, b :: 0 <= a < b < |order| ==> order[a] != order[b]
    requires VisitedAlone(inters0, lights0, counters0, caches, order, i, lights, counters, oneWay, cfg, now)
    requires lights'.Keys == lights.Keys
    requires forall n :: n in lights' && n !in inters0[order[i]].trafficLightNames ==> lights'[n] == lights[n]
    requires forall k :: k != order[i] ==> CounterOf(counters', k) == CounterOf(counters, k)
    requires Isolated(inters0, order[i]) ==>
               TickedAlone(inters0, lights0, counters0, caches, order[i], lights', counters', oneWay, cfg, now)
    ensures VisitedAlone(inters0, lights0, counters0, caches, order, i + 1, lights', counters', oneWay, cfg, now)
  {
    OthersApart(inters0, order, i);
    forall j | 0 <= j < i && order[j] in inters0 && Isolated(inters0, order[j])
      ensures TickedAlone(inters0, lights0, counters0, caches, order[j], lights', counters', oneWay, cfg, now)
    {
      assert order[j] != order[i];
      MembersTickedLocal(inters0[order[j]], lights0, lights0, caches[order[j]], CounterOf(counters0, order[j]),
                         lights, lights', oneWay, cfg, now);
    }
  }

  /** An isolated intersection's own tick makes it `TickedAlone`, since its
      members still hold their records of before the whole tick. */
  lemma CurrentAlone(inters0: map<string, Intersection>, lights0: Lights, counters0: map<string, int>,
                     caches: map<string, seq<Entry>>, k: string,
                     lights: Lights, counters: map<string, int>, lights': Lights, counters': map<string, int>,
                     oneWay: int, cfg: Config, now: int)
    requires k in inters0 && k in caches && MembersKnown(inters0[k], lights)
    requires forall e :: e in caches[k] ==> e.0 in inters0[k].trafficLightNames
    requires forall n :: n in inters0[k].trafficLightNames ==> n in lights0 && lights[n] == lights0[n]
    requires CounterOf(counters, k) == CounterOf(counters0, k)
    requires CounterOf(counters', k) == NextAllRedCount(AllRed(inters0[k].trafficLightNames, lights), CounterOf(counters, k))
    requires TickApplied(inters0[k], lights, caches[k], CounterOf(counters, k), lights', oneWay, cfg, now)
    ensures TickedAlone(inters0, lights0, counters0, caches, k, lights', counters', oneWay, cfg, now)
  {
    var names := inters0[k].trafficLightNames;
    assert AllRed(names, lights) == AllRed(names, lights0);
    MembersTickedLocal(inters0[k], lights, lights0, caches[k], CounterOf(counters0, k), lights', lights', oneWay, cfg, now);
  }

  /** A pending isolated intersection's members hold their records of before the tick. */
  lemma MembersPendingAt(inters0: map<string, Intersection>, lights0: Lights, order: seq<string>, i: nat, lights: Lights)
    requires i < |order| && order[i] in inters0 && Isolated(inters0, order[i])
    requires MembersPending(inters0, lights0, order, i, lights)
    ensures forall n :: n in inters0[order[i]].trafficLightNames ==> n in lights0 && lights[n] == lights0[n]
  {
  }

  /** The `i`-th intersection's tick leaves the later isolated ones pending. */
  lemma PendingStep(inters0: map<string, Intersection>, lights0: Lights, counters0: map<string, int>,
                    order: seq<string>, i: nat,
                    lights: Lights, counters: map<string, int>, lights': Lights, counters': map<string, int>)
    requires i < |order| && order[i] in inters0
    requires forall a, b :: 0 <= a < b < |order| ==> order[a] != order[b]
    requires CountersPending(counters0, order, i, counters) && MembersPending(inters0, lights0, order, i, lights)
    requires lights'.Keys == lights.Keys
    requires forall n :: n in lights' && n !in inters0[order[i]].trafficLightNames ==> lights'[n] == lights[n]
    requires forall k :: k != order[i] ==> CounterOf(counters', k) == CounterOf(counters, k)
    ensures CountersPending(counters0, order, i + 1, counters') && MembersPending(inters0, lights0, order, i + 1, lights')
  {
    OthersApart(inters0, order, i);
    forall j | i + 1 <= j < |order|
      ensures CounterOf(counters', order[j]) == CounterOf(counters0, order[j])
    {
      assert order[j] != order[i];
    }
  }

  /** The tick of the `i`-th intersection keeps `TickedUpTo` when it writes
      only its own members and its own counter, and leaves an isolated
      intersection `TickedAlone`. */
  lemma TickStep(inters0: map<string, Intersection>, lights0: Lights, counters0: map<string, int>,
                 caches: map<string, seq<Entry>>, order: seq<string>, i: nat,
                 lights: Lights, counters: map<string, int>, lights': Lights, counters': map<string, int>,
                 oneWay: int, cfg: Config, now: int)
    requires i < |order|
    requires forall a, b :: 0 <= a < b < |order| ==> order[a] != order[b]
    requires order[i] in inters0
    requires TickedUpTo(inters0, lights0, counters0, caches, order, i, lights, counters, oneWay, cfg, now)
    requires forall k :: k != order[i] ==> CounterOf(counters', k) == CounterOf(counters, k)
    requires lights'.Keys == lights.Keys
    requires forall n :: n in lights' && n !in inters0[order[i]].trafficLightNames ==> lights'[n] == lights[n]
    requires Isolated(inters0, order[i]) ==>
               TickedAlone(inters0, lights0, counters0, caches, order[i], lights', counters', oneWay, cfg, now)
    ensures TickedUpTo(inters0, lights0, counters0, caches, order, i + 1, lights', counters', oneWay, cfg, now)
  {
    VisitedStep(inters0, lights0, counters0, caches, order, i, lights, counters, lights', counters', oneWay, cfg, now);
    PendingStep(inters0, lights0, counters0, order, i, lights, counters, lights', counters');
  }

  /** One visit of `Tick`'s loop as `TickIntersection` states it keeps `TickedUpTo`. */
  lemma TickVisit(inters0: map<string, Intersection>, lights0: Lights, counters0: map<string, int>,
                  caches: map<string, seq<Entry>>, order: seq<string>, i: nat,
                  lights: Lights, counters: map<string, int>, lights': Lights, counters': map<string, int>,
                  oneWay: int, cfg: Config, now: int)
    requires i < |order|
    requires forall a, b :: 0 <= a < b < |order| ==> order[a] != order[b]
    requires order[i] in inters0 && order[i] in caches
    requires MembersKnown(inters0[order[i]], lights)
    requires forall e :: e in caches[order[i]] ==> e.0 in inters0[order[i]].trafficLightNames
    requires TickedUpTo(inters0, lights0, counters0, caches, order, i, lights, counters, oneWay, cfg, now)
    requires counters' == counters[order[i] := NextAllRedCount(AllRed(inters0[order[i]].trafficLightNames, lights),
                                                               CounterOf(counters, order[i]))]
    requires TickApplied(inters0[order[i]], lights, caches[order[i]], CounterOf(counters, order[i]), lights',
                         oneWay, cfg, now)
    ensures TickedUpTo(inters0, lights0, counters0, caches, order, i + 1, lights', counters', oneWay, cfg, now)
  {
    var k := order[i];
    assert forall x :: x != k ==> CounterOf(counters', x) == CounterOf(counters, x);
    if Isolated(inters0, k) {
      MembersPendingAt(inters0, lights0, order, i, lights);
      CurrentAlone(inters0, lights0, counters0, caches, k, lights, counters, lights', counters', oneWay, cfg, now);
    }
    TickStep(inters0, lights0, counters0, caches, order, i, lights, counters, lights', counters', oneWay, cfg, now);
  }

  /** After the last intersection, every isolated one is `TickedAlone`. */
  lemma TickedAll(inters0: map<string, Intersection>, lights0: Lights, counters0: map<string, int>,
                  caches: map<string, seq<Entry>>, order: seq<string>,
                  lights: Lights, counters: map<string, int>, oneWay: int, cfg: Config, now: int)
    requires KeyOrder(order, inters0.Keys)
    requires VisitedAlone(inters0, lights0, counters0, caches, order, |order|, lights, counters, oneWay, cfg, now)
    ensures forall k :: k in inters0 && Isolated(inters0, k) ==>
              TickedAlone(inters0, lights0, counters0, caches, k, lights, counters, oneWay, cfg, now)
  {
    forall k | k in inters0 && Isolated(inters0, k)
      ensures TickedAlone(inters0, lights0, counters0, caches, k, lights, counters, oneWay, cfg, now)
    {
      var j :| 0 <= j < |order| && order[j] == k;
    }
  }

  /** An intersection not yet visited still has its flags of before the tick. */
  lemma NotYetNormalized(inters0: map<string, Intersection>, inters: map<string, Intersection>,
                         order: seq<string>, i: nat)
    requires i < |order| && order[i] in inters
    requires forall a, b :: 0 <= a < b < |order| ==> order[a] != order[b]
    requires NormalizedUpTo(inters0, inters, order[..i])
    ensures inters[order[i]] == inters0[order[i]]
  {
    NotYetVisited(order, i);
  }

  /** The cached list of each intersection in `done` is its members sorted by priority. */
  ghost predicate CachedUpTo(cache: map<string, seq<Entry>>, inters: map<string, Intersection>, lights: Lights,
                             done: seq<string>)
  {
    forall k :: k in done && k in inters && MembersKnown(inters[k], lights) ==>
      k in cache && cache[k] == SortByPriority(Entries(inters[k].trafficLightNames, lights))
  }

  /** Caching one more intersection's sorted list keeps `CachedUpTo`. */
  lemma CachedStep(cache: map<string, seq<Entry>>, inters: map<string, Intersection>, lights: Lights,
                   done: seq<string>, k: string)
    requires CachedUpTo(cache, inters, lights, done) && k in inters && MembersKnown(inters[k], lights)
    ensures CachedUpTo(cache[k := SortByPriority(Entries(inters[k].trafficLightNames, lights))], inters, lights,
                       done + [k])
  {
  }

  /** Once every key is done, every intersection's list is cached. */
  lemma CachedAll(cache: map<string, seq<Entry>>, inters: map<string, Intersection>, lights: Lights,
                  order: seq<string>)
    requires CachedUpTo(cache, inters, lights, order) && KeyOrder(order, inters.Keys)
    ensures forall k :: k in inters && MembersKnown(inters[k], lights) ==>
              k in cache && cache[k] == SortByPriority(Entries(inters[k].trafficLightNames, lights))
  {
  }

  class Orchestrator {
    const config: Config
    /** The keys of `trafficLights` and `intersections` in `std::map` order. */
    const lightOrder: seq<string>
    const intersectionOrder: seq<string>
    const greenWaves: seq<GreenWaveGroup>
    /** The configured light names: the table never gains or loses a key. */
    const lightNames: set<string>

    var trafficLights: Lights
    var intersections: map<string, Intersection>
    var interestTimestamps: map<string, int>
    var rttHistory: seq<int>
    var allRedCounter: map<string, int>
    var sortedPriorityCache: map<string, seq<Entry>>
    var lastPriorityCommandTime: map<string, int>
    var cycleCount: nat
    /** An exception escaped `onData`: `std::terminate` has ended the orchestrator. */
    var halted: bool

    ghost predicate Valid()
      reads this
    {
      && trafficLights.Keys == lightNames
      && KeyOrder(lightOrder, lightNames)
      && WavesValid(greenWaves, lightNames)
      && TopologyValid(lightNames, intersections, intersectionOrder)
      && CacheValid(sortedPriorityCache, intersections)
      && |rttHistory| <= config.rttWindowSize
    }

    /** `loadTopology` on a fresh orchestrator: every command starts empty.
        Each intersection is filed under its own name, as the configuration
        loader files it. The model also requires every intersection and
        green-wave member to be a configured light; the loader does not
        check that, and the code meets an unknown member by inserting a
        default record into the light table or by throwing from `at`. */
    constructor (config: Config, lights: Lights, inters: map<string, Intersection>,
                 lightOrder: seq<string>, intersectionOrder: seq<string>, greenWaves: seq<GreenWaveGroup>)
      requires KeyOrder(lightOrder, lights.Keys) && KeyOrder(intersectionOrder, inters.Keys)
      requires forall k :: k in inters ==> inters[k].name == k && MembersKnown(inters[k], lights)
      requires forall w :: w in greenWaves ==> forall n :: n in w.trafficLightNames ==> n in lights
      ensures Valid()
      ensures trafficLights.Keys == lights.Keys
      ensures forall n :: n in lights ==> trafficLights[n] == lights[n].(command := "")
      ensures intersections == inters && this.greenWaves == greenWaves && this.config == config
      ensures interestTimestamps == map[] && rttHistory == [] && allRedCounter == map[]
      ensures sortedPriorityCache == map[] && lastPriorityCommandTime == map[] && cycleCount == 0
      ensures !halted
    {
      var cleared := ClearCommands(lights, lightOrder);
      this.config := config;
      this.lightOrder := lightOrder;
      this.intersectionOrder := intersectionOrder;
      this.greenWaves := greenWaves;
      this.lightNames := lights.Keys;
      trafficLights := cleared;
      intersections := inters;
      interestTimestamps := map[];
      rttHistory := [];
      allRedCounter := map[];
      sortedPriorityCache := map[];
      lastPriorityCommandTime := map[];
      cycleCount := 0;
      halted := false;
    }

    // -------------------------------------------------------------------
    // Polling (sendInterest, the round of runConsumer)
    // -------------------------------------------------------------------

    /** `sendInterest`: the time the Interest left is remembered by name. */
    method SendInterest(name: string, now: int)
      requires Valid()
      modifies this`interestTimestamps
      ensures Valid()
      ensures interestTimestamps == old(interestTimestamps)[name := now]
    {
      interestTimestamps := interestTimestamps[name := now];
    }

    /** One round of `runConsumer`: the round counter advances and every light
        the polling policy selects gets an Interest stamped `now`. */
    method ConsumerRound(now: int)
      requires Valid()
      modifies this`interestTimestamps, this`cycleCount
      ensures Valid()
      ensures cycleCount == old(cycleCount) + 1
      ensures forall n :: n in interestTimestamps <==>
                n in old(interestTimestamps) || (n in trafficLights && PolledThisRound(trafficLights[n], cycleCount))
      ensures forall n :: n in interestTimestamps ==>
                interestTimestamps[n] ==
                  if n in trafficLights && PolledThisRound(trafficLights[n], cycleCount) then now
                  else old(interestTimestamps)[n]
    {
      cycleCount := cycleCount + 1;
      var i := 0;
      while i < |lightOrder|
        invariant 0 <= i <= |lightOrder|
        invariant Valid()
        invariant cycleCount == old(cycleCount) + 1
        invariant forall n :: n in interestTimestamps <==>
                    n in old(interestTimestamps) ||
                    (n in lightOrder[..i] && PolledThisRound(trafficLights[n], cycleCount))
        invariant forall n :: n in interestTimestamps ==>
                    interestTimestamps[n] ==
                      if n in lightOrder[..i] && PolledThisRound(trafficLights[n], cycleCount) then now
                      else old(interestTimestamps)[n]
      {
        var name := lightOrder[i];
        TakeOneMore(lightOrder, i);
        if PolledThisRound(trafficLights[name], cycleCount) {
          SendInterest(name, now);
        }
        i := i + 1;
      }
      assert lightOrder[..i] == lightOrder;
    }

    // -------------------------------------------------------------------
    // RTT window
    // -------------------------------------------------------------------

    /** `recordRTT`: half the time since the Interest was sent is appended to
        the window (oldest entry dropped when full) and returned; 0 when no
        Interest under that name was sent. The timestamp stays. */
    method RecordRtt(name: string, now: int) returns (rtt: int)
      requires Valid()
      modifies this`rttHistory
      ensures Valid()
      ensures name !in interestTimestamps ==> rtt == 0 && rttHistory == old(rttHistory)
      ensures name in interestTimestamps ==>
                rtt == TruncDiv(now - interestTimestamps[name], 2) &&
                rttHistory == PushSample(old(rttHistory), rtt, config.rttWindowSize)
    {
      if name !in interestTimestamps {
        return 0;
      }
      rtt := TruncDiv(now - interestTimestamps[name], 2);
      rttHistory := rttHistory + [rtt];
      if |rttHistory| > config.rttWindowSize {
        rttHistory := rttHistory[1..];
      }
    }

    // -------------------------------------------------------------------
    // Fault model
    // -------------------------------------------------------------------

    /** `findIntersectionFor`: the first intersection, in key order, listing the light. */
    method FindIntersectionFor(light: string) returns (r: Option<string>)
      requires Valid()
      ensures r == FirstContaining(intersectionOrder, intersections, light)
    {
      var i := 0;
      while i < |intersectionOrder|
        invariant 0 <= i <= |intersectionOrder|
        invariant FirstContaining(intersectionOrder, intersections, light) ==
                  FirstContaining(intersectionOrder[i..], intersections, light)
      {
        var k := intersectionOrder[i];
        assert intersectionOrder[i..][0] == k;
        if intersections[k].Contains(light) {
          return Some(k);
        }
        assert intersectionOrder[i..][1..] == intersectionOrder[i + 1..];
        i := i + 1;
      }
      return None;
    }

    /** Marks the intersection holding `light`, if any, compromised. */
    method CompromiseIntersectionOf(light: string)
      requires Valid()
      modifies this`intersections
      ensures Valid()
      ensures match FirstContaining(intersectionOrder, old(intersections), light)
              case None => intersections == old(intersections)
              case Some(k) => intersections == old(intersections)[k := old(intersections)[k].(isCompromised := true)]
    {
      var inter := FindIntersectionFor(light);
      if inter.Some? {
        var k := inter.value;
        FlagsKeepTopology(lightNames, intersections, intersectionOrder, sortedPriorityCache,
                          k, intersections[k].(isCompromised := true));
        intersections := intersections[k := intersections[k].(isCompromised := true)];
      }
    }

    /** `onNack`: a known light becomes UNKNOWN at once and its intersection
        compromised; a nack for any other name changes nothing. */
    method OnNack(name: string)
      requires Valid()
      modifies this`trafficLights, this`intersections
      ensures Valid()
      ensures name !in old(trafficLights) ==>
                trafficLights == old(trafficLights) && intersections == old(intersections)
      ensures name in old(trafficLights) ==>
                && trafficLights == old(trafficLights)[name := old(trafficLights)[name].(state := "UNKNOWN")]
                && match FirstContaining(intersectionOrder, old(intersections), name)
                   case None => intersections == old(intersections)
                   case Some(k) => intersections == old(intersections)[k := old(intersections)[k].(isCompromised := true)]
    {
      if name in trafficLights {
        trafficLights := trafficLights[name := trafficLights[name].(state := "UNKNOWN")];
        CompromiseIntersectionOf(name);
      }
    }

    /** `onTimeout`: the timeout counter of a known light goes up; from the
        second timeout on the light is UNKNOWN and its intersection compromised. */
    method OnTimeout(name: string)
      requires Valid()
      modifies this`trafficLights, this`intersections
      ensures Valid()
      ensures name !in old(trafficLights) ==>
                trafficLights == old(trafficLights) && intersections == old(intersections)
      ensures name in old(trafficLights) ==>
                var counted := old(trafficLights)[name].(timeOutCounter := old(trafficLights)[name].timeOutCounter + 1);
                if counted.timeOutCounter >= 2 then
                  && trafficLights == old(trafficLights)[name := counted.(state := "UNKNOWN")]
                  && match FirstContaining(intersectionOrder, old(intersections), name)
                     case None => intersections == old(intersections)
                     case Some(k) => intersections == old(intersections)[k := old(intersections)[k].(isCompromised := true)]
                else
                  trafficLights == old(trafficLights)[name := counted] && intersections == old(intersections)
    {
      if name in trafficLights {
        var tl := trafficLights[name].(timeOutCounter := trafficLights[name].timeOutCounter + 1);
        trafficLights := trafficLights[name := tl];
        if tl.timeOutCounter >= 2 {
          trafficLights := trafficLights[name := tl.(state := "UNKNOWN")];
          CompromiseIntersectionOf(name);
        }
      }
    }

    /** The recovery check of `onData`: a reply from an UNKNOWN light whose
        compromised intersection has no other UNKNOWN member clears the
        compromise and asks for normalization. */
    method RecoverIfHealthy(name: string)
      requires Valid() && name in trafficLights
      modifies this`intersections
      ensures Valid()
      ensures intersections == Recovered(old(intersections), intersectionOrder, trafficLights, name)
    {
      if !trafficLights[name].IsUnknown() {
        return;
      }
      var inter := FindIntersectionFor(name);
      if inter.None? || !intersections[inter.value].isCompromised {
        return;
      }
      var k := inter.value;
      TopologyMembers(lightNames, trafficLights, intersections, intersectionOrder, k);
      var peers := intersections[k].trafficLightNames;
      var allLightsOk := ScanNoOtherUnknown(peers, trafficLights, name);
      if allLightsOk {
        FlagsKeepTopology(lightNames, intersections, intersectionOrder, sortedPriorityCache,
                          k, intersections[k].(isCompromised := false, needsNormalization := true));
        intersections := intersections[k := intersections[k].(isCompromised := false, needsNormalization := true)];
      }
    }

    /** `onData`: a status reply `STATE|remaining|priority` to the Interest
        `interestName`, carried in a Data packet named `dataName`. Unknown
        names are ignored; otherwise the recovery check runs first, and then
        the reply is applied. */
    method OnData(interestName: string, dataName: string, content: string, now: int)
      requires Valid()
      modifies this`trafficLights, this`intersections, this`interestTimestamps, this`rttHistory, this`halted
      ensures Valid()
      ensures interestName !in old(trafficLights) ==>
                && trafficLights == old(trafficLights) && intersections == old(intersections)
                && interestTimestamps == old(interestTimestamps) && rttHistory == old(rttHistory)
                && halted == old(halted)
      ensures interestName in old(trafficLights) ==>
                && intersections == Recovered(old(intersections), intersectionOrder, old(trafficLights), interestName)
                && StatusApplied(old(trafficLights), old(interestTimestamps), old(rttHistory),
                                 trafficLights, interestTimestamps, rttHistory,
                                 interestName, dataName, ReadStatus(content), now, config.rttWindowSize)
                && halted == (old(halted) || StatusHalts(old(interestTimestamps), interestName, ReadStatus(content)))
    {
      if interestName !in trafficLights {
        return;
      }
      RecoverIfHealthy(interestName);
      // reading the reply changes no state, so reading it ahead of the
      // timestamp check that the source makes first has the same effect
      var reading := ParseStatus(content);
      ApplyStatusReply(interestName, dataName, reading, now);
    }

    /** The second half of `onData`, given the reply as read. A reply
        without a recorded Interest, or one of fewer than three pieces,
        changes nothing; a remaining time `std::stoi` rejects ends the
        process before anything is written. Otherwise the Interest's
        timestamp is consumed, the RTT sample recorded, the state and end
        time (remaining time less the sample, clamped at 0) written, and a
        readable priority stored together with a reset timeout counter; a
        priority `std::stof` rejects ends the process right after the end
        time is written. */
    method ApplyStatusReply(interestName: string, dataName: string, reading: StatusReading, now: int)
      requires Valid() && interestName in trafficLights
      modifies this`trafficLights, this`interestTimestamps, this`rttHistory, this`halted
      ensures Valid()
      ensures StatusApplied(old(trafficLights), old(interestTimestamps), old(rttHistory),
                            trafficLights, interestTimestamps, rttHistory,
                            interestName, dataName, reading, now, config.rttWindowSize)
      ensures halted == (old(halted) || StatusHalts(old(interestTimestamps), interestName, reading))
    {
      if interestName !in interestTimestamps || reading.TooFewPieces? {
        return;
      }
      if reading.RemainingRejected? {
        halted := true;
        return;
      }
      var rtt := RecordRtt(dataName, now);
      interestTimestamps := interestTimestamps - {interestName};
      var tl := RepliedLight(trafficLights[interestName], reading.reply.state, reading.reply.remaining,
                             reading.reply.priority, rtt, now);
      trafficLights := trafficLights[interestName := tl];
      if reading.reply.priority.None? {
        halted := true;
      }
    }

    // -------------------------------------------------------------------
    // Priority commands
    // -------------------------------------------------------------------

    /** The loop of `getAveragePrioritySTL`, kept as sum and count so the
        comparison with the mean stays exact. */
    method AveragePriority() returns (sum: int, count: nat)
      requires Valid()
      ensures sum == PrioritySum(lightOrder, trafficLights) && count == |trafficLights|
    {
      sum := 0;
      count := 0;
      var i := 0;
      while i < |lightOrder|
        invariant 0 <= i <= |lightOrder| && count == i
        invariant sum == PrioritySum(lightOrder[..i], trafficLights)
      {
        assert lightOrder[..i + 1][..i] == lightOrder[..i];
        sum := sum + trafficLights[lightOrder[i]].priority;
        count := count + 1;
        i := i + 1;
      }
      assert lightOrder[..i] == lightOrder;
      KeyOrderCount(lightOrder, lightNames);
    }

    /** `assembleCommandFor`: appends the priority command to the light's
        command and records when a non-empty one was issued. */
    method AssembleCommandFor(name: string, now: int)
      requires Valid() && name in trafficLights
      modifies this`trafficLights, this`lastPriorityCommandTime
      ensures Valid()
      ensures var c := PriorityCommand(old(trafficLights)[name], PrioritySum(lightOrder, old(trafficLights)),
                                       |old(trafficLights)|, config.minPriority);
              && trafficLights == old(trafficLights)[name := old(trafficLights)[name].(command := old(trafficLights)[name].command + c)]
              && lastPriorityCommandTime == if c != "" then old(lastPriorityCommandTime)[name := now]
                                            else old(lastPriorityCommandTime)
    {
      var s := trafficLights[name];
      var sum, count := AveragePriority();
      var priorityCommand := PriorityCommand(s, sum, count, config.minPriority);
      if priorityCommand != "" {
        lastPriorityCommandTime := lastPriorityCommandTime[name := now];
      }
      UpdateKeys(trafficLights, name, s.(command := s.command + priorityCommand));
      trafficLights := trafficLights[name := s.(command := s.command + priorityCommand)];
    }

    // -------------------------------------------------------------------
    // Priority cache
    // -------------------------------------------------------------------

    /** `updatePriorityList`: the cache entry of a known intersection becomes
        its members' (name, priority) pairs, sorted by descending priority. */
    method UpdatePriorityList(interName: string)
      requires Valid()
      modifies this`sortedPriorityCache
      ensures Valid()
      ensures interName !in intersections ==> sortedPriorityCache == old(sortedPriorityCache)
      ensures interName in intersections ==>
                sortedPriorityCache == old(sortedPriorityCache)[interName :=
                  SortByPriority(Entries(intersections[interName].trafficLightNames, trafficLights))]
    {
      if interName !in intersections {
        return;
      }
      var names := intersections[interName].trafficLightNames;
      TopologyMembers(lightNames, trafficLights, intersections, intersectionOrder, interName);
      var list := CollectEntries(names, trafficLights);
      var sorted := SortByPriority(list);
      SortedEntriesNames(names, trafficLights);
      CacheUpdate(sortedPriorityCache, intersections, interName, sorted);
      sortedPriorityCache := sortedPriorityCache[interName := sorted];
    }

    /** The prologue of `cycle`: the cache is filled once for every intersection. */
    method PrepareCycle()
      requires Valid()
      modifies this`sortedPriorityCache
      ensures Valid()
      ensures forall k :: k in intersections ==>
                k in sortedPriorityCache &&
                sortedPriorityCache[k] == SortByPriority(Entries(intersections[k].trafficLightNames, trafficLights))
    {
      var i := 0;
      while i < |intersectionOrder|
        invariant 0 <= i <= |intersectionOrder|
        invariant Valid()
        invariant CachedUpTo(sortedPriorityCache, intersections, trafficLights, intersectionOrder[..i])
      {
        TakeOneMore(intersectionOrder, i);
        TopologyMembers(lightNames, trafficLights, intersections, intersectionOrder, intersectionOrder[i]);
        ghost var cache := sortedPriorityCache;
        UpdatePriorityList(intersectionOrder[i]);
        CachedStep(cache, intersections, trafficLights, intersectionOrder[..i], intersectionOrder[i]);
        i := i + 1;
      }
      assert intersectionOrder[..i] == intersectionOrder;
      CachedAll(sortedPriorityCache, intersections, trafficLights, intersectionOrder);
    }

    // -------------------------------------------------------------------
    // Arbitration
    // -------------------------------------------------------------------

    /** `generateSyncCommand`: the requester's record becomes the decision
        for it (normalization, then compromise, then follower alignment). */
    method GenerateSyncCommand(inter: Intersection, requester: string, now: int)
      requires requester in trafficLights && MembersKnown(inter, trafficLights)
      modifies this`trafficLights
      ensures trafficLights == old(trafficLights)[requester :=
                SyncDecision(inter, old(trafficLights), requester, OneWay(rttHistory), config, now)]
    {
      // `r` is a reference into the map in the source: one write at the end
      var r := SyncedRecord(inter, trafficLights, requester, TruncDiv(AverageRtt(rttHistory), 2), config, now);
      trafficLights := trafficLights[requester := r];
    }

    /** `forceCycleStart`: the head of the intersection's priority cache is
        sent GREEN for the base time less the one-way latency; an empty cache
        does nothing. */
    method ForceCycleStart(interName: string, now: int)
      requires Valid() && interName in sortedPriorityCache
      modifies this`trafficLights
      ensures Valid()
      ensures trafficLights == WatchdogApplied(old(trafficLights), old(sortedPriorityCache)[interName], true,
                                               OneWay(rttHistory), config, now)
    {
      var priorityList := sortedPriorityCache[interName];
      CacheEntriesKnown(interName);
      var avgRttOneWay := TruncDiv(AverageRtt(rttHistory), 2);
      trafficLights := ForcedGreen(trafficLights, priorityList, avgRttOneWay, config, now);
    }

    /** The cache names configured lights of the intersection. */
    lemma CacheEntriesKnown(interName: string)
      requires Valid() && interName in sortedPriorityCache
      ensures interName in intersections
      ensures forall e :: e in sortedPriorityCache[interName] ==>
                e.0 in intersections[interName].trafficLightNames && e.0 in trafficLights
    {
      TopologyMembers(lightNames, trafficLights, intersections, intersectionOrder, interName);
    }

    /** Phase 1 of a tick: the inactivity watchdog. An all-red check bumps the
        intersection's counter; at 3 the cycle is forced to start and the
        counter reset; any GREEN or YELLOW member resets it. */
    method RunWatchdog(interName: string, now: int)
      requires Valid() && interName in intersections && interName in sortedPriorityCache
      modifies this`trafficLights, this`allRedCounter
      ensures Valid()
      ensures var allRed := AllRed(intersections[interName].trafficLightNames, old(trafficLights));
              var count := CounterOf(old(allRedCounter), interName);
              && allRedCounter == old(allRedCounter)[interName := NextAllRedCount(allRed, count)]
              && trafficLights == WatchdogApplied(old(trafficLights), old(sortedPriorityCache)[interName],
                                                  WatchdogFires(allRed, count), OneWay(rttHistory), config, now)
    {
      TopologyMembers(lightNames, trafficLights, intersections, intersectionOrder, interName);
      CacheEntriesKnown(interName);
      var allLightsAreRed := ScanAllRed(intersections[interName].trafficLightNames, trafficLights);
      var count := CounterOf(allRedCounter, interName);
      if allLightsAreRed {
        allRedCounter := allRedCounter[interName := count + 1];
        if count + 1 >= 3 {
          ForceCycleStart(interName, now);
          allRedCounter := allRedCounter[interName := 0];
        }
      } else {
        allRedCounter := allRedCounter[interName := 0];
      }
    }

    /** Phase 2 of a tick: every member's command is cleared and decided
        afresh, in member order. A name the member list holds twice is
        visited twice, so its outcome is `AfterPhaseTwo` for as many visits
        as the list names it. */
    method SyncMembers(interName: string, now: int)
      requires Valid() && interName in intersections
      modifies this`trafficLights
      ensures Valid()
      ensures var inter := intersections[interName];
              && trafficLights.Keys == old(trafficLights).Keys
              && (forall n :: n in trafficLights ==> SameButSchedule(trafficLights[n], old(trafficLights)[n]))
              && (forall n :: n in trafficLights && n !in inter.trafficLightNames ==> trafficLights[n] == old(trafficLights)[n])
              && (forall n :: n in inter.trafficLightNames ==>
                    trafficLights[n] == AfterPhaseTwo(inter, old(trafficLights), n, multiset(inter.trafficLightNames)[n],
                                                      OneWay(rttHistory), config, now))
    {
      var inter := intersections[interName];
      var members := inter.trafficLightNames;
      TopologyMembers(lightNames, trafficLights, intersections, intersectionOrder, interName);
      ghost var before := trafficLights;
      var i := 0;
      while i < |members|
        invariant 0 <= i <= |members|
        invariant PhaseTwo(inter, before, trafficLights, members[..i], OneWay(rttHistory), config, now)
      {
        var name := members[i];
        PhaseTwoStep(inter, before, trafficLights, i, OneWay(rttHistory), config, now);
        trafficLights := trafficLights[name := trafficLights[name].(command := "")];
        GenerateSyncCommand(inter, name, now);
        i := i + 1;
      }
      assert members[..i] == members;
    }

    /** One intersection's share of a `cycle` tick: the watchdog (phase 1),
        a fresh decision for every member (phase 2) and the end of
        normalization (phase 3). */
    method TickIntersection(interName: string, now: int)
      requires Valid() && interName in intersections && interName in sortedPriorityCache
      modifies this`trafficLights, this`intersections, this`allRedCounter
      ensures Valid()
      ensures intersections == old(intersections)[interName :=
                old(intersections)[interName].(needsNormalization := false)]
      ensures var count := CounterOf(old(allRedCounter), interName);
              && allRedCounter == old(allRedCounter)[interName :=
                   NextAllRedCount(AllRed(old(intersections)[interName].trafficLightNames, old(trafficLights)), count)]
              && TickApplied(old(intersections)[interName], old(trafficLights), old(sortedPriorityCache)[interName],
                             count, trafficLights, OneWay(rttHistory), config, now)
    {
      CacheEntriesKnown(interName);
      RunWatchdog(interName, now);
      ghost var watched := trafficLights;
      SyncMembers(interName, now);
      TickAppliedIntro(intersections[interName], old(trafficLights), sortedPriorityCache[interName],
                       CounterOf(old(allRedCounter), interName), watched, trafficLights, OneWay(rttHistory), config, now);
      // phase 3: normalization is over once its commands exist (clearing a
      // flag that is already clear is the same as leaving it)
      var inter := intersections[interName];
      FlagsKeepTopology(lightNames, intersections, intersectionOrder, sortedPriorityCache,
                        interName, inter.(needsNormalization := false));
      intersections := intersections[interName := inter.(needsNormalization := false)];
    }

    /** One `cycle` tick: every intersection in key order. */
    method Tick(now: int)
      requires Valid()
      requires forall k :: k in intersections ==> k in sortedPriorityCache
      modifies this`trafficLights, this`intersections, this`allRedCounter
      ensures Valid()
      ensures intersections.Keys == old(intersections).Keys
      ensures forall k :: k in intersections ==>
                intersections[k] == old(intersections)[k].(needsNormalization := false)
      ensures trafficLights.Keys == old(trafficLights).Keys
      ensures forall n :: n in trafficLights ==> SameButSchedule(trafficLights[n], old(trafficLights)[n])
      ensures forall k :: k in old(intersections) && Isolated(old(intersections), k) ==>
                TickedAlone(old(intersections), old(trafficLights), old(allRedCounter), sortedPriorityCache, k,
                            trafficLights, allRedCounter, OneWay(rttHistory), config, now)
    {
      forall k | k in intersections
        ensures MembersKnown(intersections[k], trafficLights)
      {
        TopologyMembers(lightNames, trafficLights, intersections, intersectionOrder, k);
      }
      TickedNothing(intersections, trafficLights, allRedCounter, sortedPriorityCache, intersectionOrder,
                    OneWay(rttHistory), config, now);
      var i := 0;
      while i < |intersectionOrder|
        invariant 0 <= i <= |intersectionOrder|
        invariant Valid()
        invariant NormalizedUpTo(old(intersections), intersections, intersectionOrder[..i])
        invariant Rescheduled(old(trafficLights), trafficLights)
        invariant TickedUpTo(old(intersections), old(trafficLights), old(allRedCounter), sortedPriorityCache,
                             intersectionOrder, i, trafficLights, allRedCounter, OneWay(rttHistory), config, now)
      {
        var k := intersectionOrder[i];
        TakeOneMore(intersectionOrder, i);
        NotYetNormalized(old(intersections), intersections, intersectionOrder, i);
        NormalizedStep(old(intersections), intersections, intersectionOrder[..i], k);
        ghost var lightsBefore := trafficLights;
        ghost var countersBefore := allRedCounter;
        ghost var inter := intersections[k];
        TopologyMembers(lightNames, trafficLights, intersections, intersectionOrder, k);
        CacheEntriesKnown(k);
        ghost var count := CounterOf(allRedCounter, k);
        ghost var cache := sortedPriorityCache[k];
        TickIntersection(k, now);
        RescheduledStep(old(trafficLights), lightsBefore, trafficLights, inter, cache, count,
                        OneWay(rttHistory), config, now);
        TickVisit(old(intersections), old(trafficLights), old(allRedCounter), sortedPriorityCache, intersectionOrder, i,
                 lightsBefore, countersBefore, trafficLights, allRedCounter, OneWay(rttHistory), config, now);
        i := i + 1;
      }
      assert intersectionOrder[..i] == intersectionOrder;
      NormalizedAll(old(intersections), intersections, intersectionOrder);
      TickedAll(old(intersections), old(trafficLights), old(allRedCounter), sortedPriorityCache, intersectionOrder,
                trafficLights, allRedCounter, OneWay(rttHistory), config, now);
    }

    // -------------------------------------------------------------------
    // Green wave
    // -------------------------------------------------------------------

    /** `triggerGreenWave`: the first wave listing the base light sends every
        other member GREEN for the base time, its end time shifted from the
        base's by its offset in travel times; without such a wave nothing changes. */
    method TriggerGreenWave(base: string)
      requires Valid()
      modifies this`trafficLights
      ensures Valid()
      ensures match FirstWaveWith(greenWaves, base, 0)
              case None => trafficLights == old(trafficLights)
              case Some(w) =>
                var names := greenWaves[w].trafficLightNames;
                trafficLights == WaveApplied(old(trafficLights), names, base, IndexOf(names, base),
                                             old(trafficLights)[base].endTime, greenWaves[w].travelTimeMs,
                                             ForcedGreenCommand(config.greenBaseTimeMs), |names|)
    {
      var w := 0;
      while w < |greenWaves| && base !in greenWaves[w].trafficLightNames
        invariant 0 <= w <= |greenWaves|
        invariant FirstWaveWith(greenWaves, base, 0) == FirstWaveWith(greenWaves, base, w)
      {
        w := w + 1;
      }
      if w == |greenWaves| {
        return;
      }
      var wave := greenWaves[w];
      var names := wave.trafficLightNames;
      assert wave in greenWaves;
      var baseEnd := trafficLights[base].endTime;
      trafficLights := ApplyWave(trafficLights, names, base, IndexOf(names, base), baseEnd,
                                 wave.travelTimeMs, ForcedGreenCommand(config.greenBaseTimeMs));
    }

    // -------------------------------------------------------------------
    // Command requests
    // -------------------------------------------------------------------

    /** `onInterest`: the components after the first "command" component
        that has a successor name the light; a known light is answered with
        its current command, an unknown one is dropped, and a request
        without such a component has an invalid suffix. */
    method OnInterest(comps: seq<string>) returns (route: CommandRoute)
      requires Valid()
      ensures CommandIndex(comps, 0).None? ==> route == InvalidSuffix
      ensures CommandIndex(comps, 0).Some? ==>
                var name := PathOf(comps[CommandIndex(comps, 0).value + 1..]);
                route == if name in trafficLights then Reply(name, trafficLights[name].command)
                         else UnknownLight(name)
    {
      var found: Option<string> := None;
      var i := 0;
      while i < |comps| && found.None?
        invariant 0 <= i <= |comps|
        decreases |comps| - i, if found.None? then 1 else 0
        invariant found.None? ==> CommandIndex(comps, 0) == CommandIndex(comps, i)
        invariant found.Some? ==> CommandIndex(comps, 0).Some? &&
                                  found.value == PathOf(comps[CommandIndex(comps, 0).value + 1..])
      {
        if comps[i] == "command" && i + 1 < |comps| {
          var path := "";
          var j := i + 1;
          while j < |comps|
            invariant i + 1 <= j <= |comps|
            invariant path == PathOf(comps[i + 1..j])
          {
            assert comps[i + 1..j + 1][..j - i - 1] == comps[i + 1..j];
            path := path + "/" + comps[j];
            j := j + 1;
          }
          assert comps[i + 1..j] == comps[i + 1..];
          assert CommandIndex(comps, i) == Some(i);
          found := Some(path);
        } else {
          i := i + 1;
        }
      }
      if found.None? {
        return InvalidSuffix;
      }
      var name := found.value;
      if name !in trafficLights {
        return UnknownLight(name);
      }
      return Reply(name, trafficLights[name].command);
    }
  }

  /** A key order lists as many keys as the map holds. */
  lemma KeyOrderCount(order: seq<string>, keys: set<string>)
    requires KeyOrder(order, keys)
    ensures |order| == |keys|
  {
    var s := set i | 0 <= i < |order| :: order[i];
    assert s == keys;
    DistinctCardinality(order);
  }

  lemma {:induction false} DistinctCardinality(order: seq<string>)
    requires forall i, j :: 0 <= i < j < |order| ==> order[i] != order[j]
    ensures |set i | 0 <= i < |order| :: order[i]| == |order|
    decreases |order|
  {
    if order != [] {
      var init := order[..|order| - 1];
      DistinctCardinality(init);
      var last := order[|order| - 1];
      assert (set i | 0 <= i < |order| :: order[i]) == (set i | 0 <= i < |init| :: init[i]) + {last};
      assert last !in (set i | 0 <= i < |init| :: init[i]);
    }
  }
}
