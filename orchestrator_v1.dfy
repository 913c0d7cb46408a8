/** The earlier orchestrator of Orchestrator.cpp: status replies corrected
    by half the round trip, a priority review that tells the light of
    highest priority to "increase_time" and every other one to
    "do_nothing", and the routing of clock and command requests. The
    light table is an `unordered_map`, whose iteration order the callers
    supply as `order`; the JSON body arrives already read into a `Reply`. */
module OrchestratorV1 {
  import opened Wire

  /** The snapshot's light record (Orchestrator.hpp:14-21); `endTime` in ms. */
  datatype Light = Light(name: string, state: string, endTime: int, priority: int, command: string, intersection: bool)

  /** The value-initialised record `operator[]` inserts for a missing name. */
  const BLANK: Light := Light("", "", 0, 0, "", false)

  /** The optional "priority" member: missing, an integer, or a value that
      `get<int>` rejects. */
  datatype PriorityField = Absent | Present(value: int) | Malformed

  /** The members read from a reply's JSON body. */
  datatype Reply = Reply(state: string, remainingMs: int, priority: PriorityField)

  /** The remaining time less half the round trip, never below 0. */
  function CorrectedRemaining(remainingMs: int, rttMs: int): (c: int)
    ensures c >= 0
    ensures remainingMs - TruncDiv(rttMs, 2) >= 0 ==> c == remainingMs - TruncDiv(rttMs, 2)
  {
    Max0(remainingMs - TruncDiv(rttMs, 2))
  }

  /** `order` lists every key of the table exactly once. */
  ghost predicate Enumerates(order: seq<string>, keys: set<string>)
  {
    && (forall i :: 0 <= i < |order| ==> order[i] in keys)
    && (forall k :: k in keys ==> k in order)
    && (forall i, j :: 0 <= i < j < |order| ==> order[i] != order[j])
  }

  // ---------------------------------------------------------------------
  // reviewPriorities
  // ---------------------------------------------------------------------

  /** The running maximum of the first loop, from -1 and the empty name: a
      light replaces the current holder only with a strictly greater
      priority. */
  function Scan(order: seq<string>, lights: map<string, Light>): (int, string)
    requires forall i :: 0 <= i < |order| ==> order[i] in lights
  {
    if order == [] then (-1, "")
    else
      var s := Scan(order[..|order| - 1], lights);
      var last := order[|order| - 1];
      if lights[last].priority > s.0 then (lights[last].priority, last) else s
  }

  /** The scan finds the first light, in iteration order, of the strictly
      greatest priority, provided some priority exceeds -1; otherwise it
      keeps -1 and the empty name. */
  lemma {:induction false} ScanFirstMax(order: seq<string>, lights: map<string, Light>)
    requires forall i :: 0 <= i < |order| ==> order[i] in lights
    ensures var s := Scan(order, lights);
            s.0 >= -1 && (forall i :: 0 <= i < |order| ==> lights[order[i]].priority <= s.0)
    ensures var s := Scan(order, lights);
            s.0 == -1 ==> s.1 == ""
    ensures var s := Scan(order, lights);
            s.0 > -1 ==> exists j :: 0 <= j < |order| && order[j] == s.1 && lights[s.1].priority == s.0 &&
                                     forall i :: 0 <= i < j ==> lights[order[i]].priority < s.0
    decreases |order|
  {
    if order != [] {
      var init := order[..|order| - 1];
      ScanFirstMax(init, lights);
      var s := Scan(init, lights);
      var last := order[|order| - 1];
      if lights[last].priority > s.0 {
        assert forall i :: 0 <= i < |init| ==> lights[order[i]].priority < lights[last].priority by {
          forall i | 0 <= i < |init| ensures lights[order[i]].priority < lights[last].priority {
            assert order[i] == init[i];
          }
        }
        assert order[|order| - 1] == last;
      } else if s.0 > -1 {
        var j :| 0 <= j < |init| && init[j] == s.1 && lights[s.1].priority == s.0 &&
                 forall i :: 0 <= i < j ==> lights[init[i]].priority < s.0;
        assert order[j] == s.1;
        assert forall i :: 0 <= i < j ==> order[i] == init[i];
      }
      assert forall i :: 0 <= i < |init| ==> order[i] == init[i];
    }
  }

  /** The first loop of `reviewPriorities`. */
  method ScanPriorities(order: seq<string>, lights: map<string, Light>) returns (maxPriority: int, maxName: string)
    requires forall i :: 0 <= i < |order| ==> order[i] in lights
    ensures (maxPriority, maxName) == Scan(order, lights)
  {
    maxPriority := -1;
    maxName := "";
    var i := 0;
    while i < |order|
      invariant 0 <= i <= |order|
      invariant (maxPriority, maxName) == Scan(order[..i], lights)
    {
      TakeOneMore(order, i);
      assert order[..i + 1][..i] == order[..i];
      var name := order[i];
      if lights[name].priority > maxPriority {
        maxPriority := lights[name].priority;
        maxName := name;
      }
      i := i + 1;
    }
    assert order[..i] == order;
  }

  /** The table after the second loop: the chosen name is told to
      increase its time, every other light to do nothing. */
  function WithCommands(lights: map<string, Light>, chosen: string): (r: map<string, Light>)
    ensures r.Keys == lights.Keys
  {
    map n | n in lights :: lights[n].(command := if n == chosen then "increase_time" else "do_nothing")
  }

  /** After a review, exactly the light the scan chose (when there is one
      of priority above -1) carries "increase_time", every other light
      carries "do_nothing", and nothing else about any light changes. */
  lemma ReviewOutcome(order: seq<string>, lights: map<string, Light>)
    requires Enumerates(order, lights.Keys)
    ensures var s := Scan(order, lights);
            var r := WithCommands(lights, s.1);
            (forall n :: n in r ==> r[n] == lights[n].(command := r[n].command)) &&
            (forall n :: n in r ==> (r[n].command == "increase_time" <==> n == s.1)) &&
            (forall n :: n in r ==> (r[n].command == "do_nothing" <==> n != s.1))
    ensures var s := Scan(order, lights);
            s.0 > -1 ==> s.1 in lights && WithCommands(lights, s.1)[s.1].command == "increase_time"
  {
    ScanFirstMax(order, lights);
  }

  /** The second loop of `reviewPriorities`, over the iteration order. */
  method AssignCommands(order: seq<string>, lights: map<string, Light>, maxName: string) returns (r: map<string, Light>)
    requires Enumerates(order, lights.Keys)
    ensures r == WithCommands(lights, maxName)
  {
    r := lights;
    var i := 0;
    while i < |order|
      invariant 0 <= i <= |order| && r.Keys == lights.Keys
      invariant forall n :: n in lights ==>
                  r[n] == if n in order[..i] then WithCommands(lights, maxName)[n] else lights[n]
    {
      TakeOneMore(order, i);
      var name := order[i];
      if name == maxName {
        r := r[name := r[name].(command := "increase_time")];
      } else {
        r := r[name := r[name].(command := "do_nothing")];
      }
      i := i + 1;
    }
    assert order[..i] == order;
  }

  class Orchestrator {
    var lights: map<string, Light>
    /** Sending time of each pending request, by request name, in ms. */
    var interestTimestamps: map<string, int>
    /** The last clock reading served (a `uint64_t`). */
    var clockTimestampMs: nat

    constructor()
      ensures lights == map[] && interestTimestamps == map[] && clockTimestampMs == 0
    {
      lights := map[];
      interestTimestamps := map[];
      clockTimestampMs := 0;
    }

    /** `sendInterest`: the sending time is recorded under the request name. */
    method SendInterest(name: string, now: int)
      modifies this`interestTimestamps
      ensures interestTimestamps == old(interestTimestamps)[name := now]
    {
      interestTimestamps := interestTimestamps[name := now];
    }

    /** `reviewPriorities()`, with the table's iteration order. */
    method ReviewPriorities(order: seq<string>)
      requires Enumerates(order, lights.Keys)
      modifies this`lights
      ensures lights == WithCommands(old(lights), Scan(order, old(lights)).1)
    {
      var maxPriority, maxName := ScanPriorities(order, lights);
      lights := AssignCommands(order, lights, maxName);
    }

    /** `onData`: a reply with no recorded timestamp is dropped; otherwise
        the timestamp is consumed, and a body that parses updates the light
        named by `lightName` (inserting a blank record when the name is
        new) with its state and its end time corrected by half the round
        trip, then its priority when present, then the review runs. A body
        that does not parse throws inside the `try` and changes no light; a
        priority `get<int>` rejects throws after state and end time are
        written, before the review. `order` is the iteration order of the
        table once the light is in it. */
    method OnData(interestName: string, lightName: string, reply: Option<Reply>, now: int, order: seq<string>)
      requires Enumerates(order, lights.Keys + {lightName})
      modifies this`lights, this`interestTimestamps
      ensures interestName !in old(interestTimestamps) ==>
                lights == old(lights) && interestTimestamps == old(interestTimestamps)
      ensures interestName in old(interestTimestamps) ==> interestTimestamps == old(interestTimestamps) - {interestName}
      ensures interestName in old(interestTimestamps) && reply.None? ==> lights == old(lights)
      ensures interestName in old(interestTimestamps) && reply.Some? ==>
                var r := reply.value;
                var base := if lightName in old(lights) then old(lights)[lightName] else BLANK;
                var stamped := base.(state := r.state,
                                     endTime := now + CorrectedRemaining(r.remainingMs, now - old(interestTimestamps)[interestName]));
                lights == match r.priority
                          case Malformed => old(lights)[lightName := stamped]
                          case Absent => WithCommands(old(lights)[lightName := stamped], Scan(order, old(lights)[lightName := stamped]).1)
                          case Present(p) =>
                            WithCommands(old(lights)[lightName := stamped.(priority := p)],
                                         Scan(order, old(lights)[lightName := stamped.(priority := p)]).1)
    {
      if interestName !in interestTimestamps {
        return;
      }
      var rtt := now - interestTimestamps[interestName];
      interestTimestamps := interestTimestamps - {interestName};
      if reply.None? {
        return;
      }
      var r := reply.value;
      var correctedRemainingMs := r.remainingMs - TruncDiv(rtt, 2);
      if correctedRemainingMs < 0 {
        correctedRemainingMs := 0;
      }
      var tl := if lightName in lights then lights[lightName] else BLANK;
      tl := tl.(state := r.state, endTime := now + correctedRemainingMs);
      if r.priority.Malformed? {
        lights := lights[lightName := tl];
        return;
      }
      if r.priority.Present? {
        tl := tl.(priority := r.priority.value);
      }
      lights := lights[lightName := tl];
      ReviewPriorities(order);
    }

    /** `onInterest`: a request ending in "clock" is answered with the
        system clock in ms (which is also recorded, modulo 2^64); one whose last but one
        component is "command" is answered with the named light's command,
        or dropped for a name not in the table; anything else is dropped. */
    method OnInterest(comps: seq<string>, nowMs: int) returns (answer: Option<string>)
      modifies this`clockTimestampMs
      ensures |comps| >= 1 && comps[|comps| - 1] == "clock" ==>
                answer == Some(IntToString(nowMs)) && clockTimestampMs == nowMs % UINT64_MODULUS
      ensures !(|comps| >= 1 && comps[|comps| - 1] == "clock") ==>
                clockTimestampMs == old(clockTimestampMs) &&
                answer == if |comps| >= 2 && comps[|comps| - 2] == "command" && comps[|comps| - 1] in lights
                          then Some(lights[comps[|comps| - 1]].command) else None
    {
      if |comps| >= 1 && comps[|comps| - 1] == "clock" {
        clockTimestampMs := nowMs % UINT64_MODULUS;
        return Some(IntToString(nowMs));
      } else if |comps| >= 2 && comps[|comps| - 2] == "command" {
        var name := comps[|comps| - 1];
        if name !in lights {
          return None;
        }
        return Some(lights[name].command);
      }
      return None;
    }
  }
}
