/** Pure definitions behind the orchestrator of src/Orchestrator.cpp: the
    RTT window and its average, the command texts, the per-light decision
    of `generateSyncCommand`, the watchdog's forced start, the priority
    cache order, the green-wave offsets and the intersection lookup.
    Times are integer milliseconds. */
module Coordination {
  import opened Wire
  import opened Structs

  /** The `config::` constants the orchestrator reads. */
  datatype Config = Config(
    rttWindowSize: nat,
    yellowTimeMs: int,
    greenBaseTimeMs: int,
    recoveryRedTimeMs: int,
    minPriority: int)

  type Lights = map<string, TrafficLightState>

  // ---------------------------------------------------------------------
  // Map iteration order
  // ---------------------------------------------------------------------

  /** `std::string` comparison: lexicographic on characters. */
  predicate StringLess(a: string, b: string)
    decreases |a|
  {
    if |a| == 0 then |b| > 0
    else if |b| == 0 then false
    else a[0] < b[0] || (a[0] == b[0] && StringLess(a[1..], b[1..]))
  }

  /** `order` lists the keys of a `std::map` the way it iterates them:
      each key once, ascending. */
  predicate KeyOrder(order: seq<string>, keys: set<string>)
  {
    && (forall i, j :: 0 <= i < j < |order| ==> order[i] != order[j] && StringLess(order[i], order[j]))
    && (forall i :: 0 <= i < |order| ==> order[i] in keys)
    && (forall k :: k in keys ==> k in order)
  }

  /** Every member of the intersection is a configured light. */
  predicate MembersKnown(inter: Intersection, lights: Lights)
  {
    forall n :: n in inter.trafficLightNames ==> n in lights
  }

  /** Two records that differ at most in the command and the believed end time. */
  predicate SameButSchedule(a: TrafficLightState, b: TrafficLightState)
  {
    a == b.(command := a.command, endTime := a.endTime)
  }

  // ---------------------------------------------------------------------
  // RTT window
  // ---------------------------------------------------------------------

  function Sum(h: seq<int>): int
  {
    if h == [] then 0 else Sum(h[..|h| - 1]) + h[|h| - 1]
  }

  /** `getAverageRTT`: 0 for an empty window, otherwise the integer mean. */
  function AverageRtt(h: seq<int>): (avg: int)
    ensures h == [] ==> avg == 0
  {
    if h == [] then 0 else TruncDiv(Sum(h), |h|)
  }

  /** The one-way estimate used at the points of use: the average halved. */
  function OneWay(h: seq<int>): int
  {
    TruncDiv(AverageRtt(h), 2)
  }

  /** The window after `recordRTT` appends a sample: the oldest entry is
      dropped once the size exceeds the window. */
  function PushSample(h: seq<int>, sample: int, window: nat): (r: seq<int>)
    requires |h| <= window
    ensures |r| <= window
    ensures |r| > 0 ==> r[|r| - 1] == sample
    ensures |h| < window ==> r == h + [sample]
    ensures |h| == window ==> r == (h + [sample])[1..]
  {
    var grown := h + [sample];
    if |grown| > window then grown[1..] else grown
  }

  lemma {:induction false} SumBounds(h: seq<int>, lo: int, hi: int)
    requires forall i :: 0 <= i < |h| ==> lo <= h[i] <= hi
    ensures |h| * lo <= Sum(h) <= |h| * hi
    decreases |h|
  {
    if h != [] {
      var init := h[..|h| - 1];
      assert forall i :: 0 <= i < |init| ==> init[i] == h[i];
      SumBounds(init, lo, hi);
      assert |h| * lo == |init| * lo + lo;
      assert |h| * hi == |init| * hi + hi;
    }
  }

  lemma DivBounds(s: int, n: int, lo: int, hi: int)
    requires n > 0 && 0 <= lo && n * lo <= s <= n * hi
    ensures lo <= s / n <= hi
  {
    var q := s / n;
    assert q * n + s % n == s && 0 <= s % n < n;
    assert q * n <= s < (q + 1) * n;
    CancelLess(lo, q + 1, n);
    CancelAtMost(q, hi, n);
  }

  lemma CancelLess(a: int, b: int, n: int)
    requires n > 0 && a * n < b * n
    ensures a < b
  {
  }

  lemma CancelAtMost(a: int, b: int, n: int)
    requires n > 0 && a * n <= b * n
    ensures a <= b
  {
  }

  /** The mean of non-negative samples lies between their least and greatest value. */
  lemma AverageRttWithinSamples(h: seq<int>, lo: int, hi: int)
    requires h != [] && 0 <= lo
    requires forall i :: 0 <= i < |h| ==> lo <= h[i] <= hi
    ensures lo <= AverageRtt(h) <= hi
  {
    SumBounds(h, lo, hi);
    DivBounds(Sum(h), |h|, lo, hi);
  }

  // ---------------------------------------------------------------------
  // Command texts
  // ---------------------------------------------------------------------

  /** One `;type:value` segment of a command text. */
  function Segment(kind: string, value: string): string
  {
    ";" + kind + ":" + value
  }

  /** A segment's length, and its type's first letter right after the ';'. */
  lemma SegmentShape(kind: string, value: string)
    requires |kind| > 0
    ensures |Segment(kind, value)| == |kind| + |value| + 2 && Segment(kind, value)[1] == kind[0]
  {
  }

  /** ";set_state:RED;set_current_time:<recovery time>" */
  function NormalizationCommand(cfg: Config): string
  {
    Segment("set_state", "RED") + Segment("set_current_time", IntToString(cfg.recoveryRedTimeMs))
  }

  /** ";set_state:ALERT" */
  const ALERT_COMMAND: string := Segment("set_state", "ALERT")

  /** ";set_state:RED;set_current_time:<ms>" */
  function HoldRedCommand(ms: int): string
  {
    Segment("set_state", "RED") + Segment("set_current_time", IntToString(ms))
  }

  /** ";set_state:GREEN;set_time:<ms>" */
  function ForcedGreenCommand(ms: int): string
  {
    Segment("set_state", "GREEN") + Segment("set_time", IntToString(ms))
  }

  // ---------------------------------------------------------------------
  // generateSyncCommand
  // ---------------------------------------------------------------------

  /** The first member, in member order, that is GREEN or YELLOW. */
  function FirstActive(names: seq<string>, lights: Lights): (r: Option<string>)
    requires forall n :: n in names ==> n in lights
    ensures r.Some? ==> r.value in names && lights[r.value].IsActive()
    ensures r.None? <==> forall n :: n in names ==> !lights[n].IsActive()
    ensures r.Some? ==> exists j :: 0 <= j < |names| && names[j] == r.value &&
                          forall k :: 0 <= k < j ==> !lights[names[k]].IsActive()
  {
    if names == [] then None
    else if lights[names[0]].IsActive() then Some(names[0])
    else
      var r := FirstActive(names[1..], lights);
      assert forall n :: n in names[1..] ==> n in names;
      if r.Some? then
        ghost var j :| 0 <= j < |names[1..]| && names[1..][j] == r.value &&
                         forall k :: 0 <= k < j ==> !lights[names[1..][k]].IsActive();
        assert names[j + 1] == r.value;
        assert forall k :: 0 <= k < j + 1 ==> !lights[names[k]].IsActive() by {
          forall k | 0 <= k < j + 1 ensures !lights[names[k]].IsActive() {
            if k > 0 { assert names[k] == names[1..][k - 1]; }
          }
        }
        r
      else r
  }

  /** How long the requester has to hold RED behind the active member:
      the active member's remaining time, plus the yellow time when it is GREEN. */
  function ActiveRemaining(active: TrafficLightState, cfg: Config, now: int): int
  {
    (active.endTime - now) + (if active.state == "GREEN" then cfg.yellowTimeMs else 0)
  }

  /** The requester's record after `generateSyncCommand(inter, req)`, with
      `oneWay` the halved RTT average. */
  function SyncDecision(inter: Intersection, lights: Lights, req: string, oneWay: int, cfg: Config, now: int): (t: TrafficLightState)
    requires req in lights && MembersKnown(inter, lights)
    ensures SameButSchedule(t, lights[req])
  {
    var r := lights[req];
    if inter.needsNormalization then
      r.(command := NormalizationCommand(cfg), endTime := now + cfg.recoveryRedTimeMs)
    else if inter.isCompromised then
      r.(command := ALERT_COMMAND)
    else
      match FirstActive(inter.trafficLightNames, lights)
      case None => r
      case Some(a) =>
        // an active member is recognised through a non-empty name
        if a == "" || a == req then r
        else
          var remaining := ActiveRemaining(lights[a], cfg, now);
          var current := r.endTime - now;
          if Abs(current - remaining) > 1000 then
            r.(command := HoldRedCommand(Max0(remaining - oneWay)), endTime := now + remaining)
          else r
  }

  /** Normalization wins over every other case: RED for the recovery time. */
  lemma SyncNormalizationFirst(inter: Intersection, lights: Lights, req: string, oneWay: int, cfg: Config, now: int)
    requires req in lights && MembersKnown(inter, lights) && inter.needsNormalization
    ensures SyncDecision(inter, lights, req, oneWay, cfg, now).command == NormalizationCommand(cfg)
    ensures SyncDecision(inter, lights, req, oneWay, cfg, now).endTime == now + cfg.recoveryRedTimeMs
  {
  }

  /** A compromised intersection (without pending normalization) sends ALERT
      and leaves the believed end time alone. */
  lemma SyncCompromisedAlert(inter: Intersection, lights: Lights, req: string, oneWay: int, cfg: Config, now: int)
    requires req in lights && MembersKnown(inter, lights)
    requires !inter.needsNormalization && inter.isCompromised
    ensures SyncDecision(inter, lights, req, oneWay, cfg, now) == lights[req].(command := ALERT_COMMAND)
  {
  }

  /** Without an active member, and for the active member itself, nothing is
      written (an active member with the empty name counts as none). */
  lemma SyncQuietCases(inter: Intersection, lights: Lights, req: string, oneWay: int, cfg: Config, now: int)
    requires req in lights && MembersKnown(inter, lights)
    requires !inter.needsNormalization && !inter.isCompromised
    requires FirstActive(inter.trafficLightNames, lights).None? ||
             FirstActive(inter.trafficLightNames, lights).value in {req, ""}
    ensures SyncDecision(inter, lights, req, oneWay, cfg, now) == lights[req]
  {
  }

  /** A follower is realigned exactly when its remaining time is more than
      1000 ms away from the active member's (plus yellow when GREEN); then it is
      told to hold RED for that time less the one-way latency, clamped at 0,
      and its believed end time becomes the active member's. */
  lemma SyncFollowerAlignment(inter: Intersection, lights: Lights, req: string, oneWay: int, cfg: Config, now: int)
    requires req in lights && MembersKnown(inter, lights)
    requires !inter.needsNormalization && !inter.isCompromised
    requires FirstActive(inter.trafficLightNames, lights).Some?
    requires FirstActive(inter.trafficLightNames, lights).value !in {req, ""}
    ensures var a := FirstActive(inter.trafficLightNames, lights).value;
            var remaining := ActiveRemaining(lights[a], cfg, now);
            var t := SyncDecision(inter, lights, req, oneWay, cfg, now);
            && (Abs(lights[req].endTime - now - remaining) > 1000 ==>
                  t.command == HoldRedCommand(Max0(remaining - oneWay)) && t.endTime == now + remaining)
            && (Abs(lights[req].endTime - now - remaining) <= 1000 ==> t == lights[req])
            && Abs(t.endTime - now - remaining) <= 1000
            && (lights[req].command == "" ==> t == Aligned(lights[req], remaining, oneWay, now, 1))
  {
    var a := FirstActive(inter.trafficLightNames, lights).value;
    var remaining := ActiveRemaining(lights[a], cfg, now);
    FollowerRecord(inter, lights, req, a, oneWay, cfg, now);
    FollowerRecordCases(lights[req], SyncDecision(inter, lights, req, oneWay, cfg, now), remaining, oneWay, now);
  }

  /** `SyncDecision` in the follower case, unfolded once. */
  lemma FollowerRecord(inter: Intersection, lights: Lights, req: string, a: string, oneWay: int, cfg: Config, now: int)
    requires req in lights && MembersKnown(inter, lights)
    requires !inter.needsNormalization && !inter.isCompromised
    requires FirstActive(inter.trafficLightNames, lights) == Some(a) && a != req && a != ""
    ensures var r := lights[req];
            var remaining := ActiveRemaining(lights[a], cfg, now);
            SyncDecision(inter, lights, req, oneWay, cfg, now) ==
            if Abs(r.endTime - now - remaining) > 1000
            then r.(command := HoldRedCommand(Max0(remaining - oneWay)), endTime := now + remaining)
            else r
  {
  }

  /** The follower record's two cases, and its `Aligned` form without a command. */
  lemma FollowerRecordCases(r: TrafficLightState, t: TrafficLightState, remaining: int, oneWay: int, now: int)
    requires t == if Abs(r.endTime - now - remaining) > 1000
                  then r.(command := HoldRedCommand(Max0(remaining - oneWay)), endTime := now + remaining)
                  else r
    ensures Abs(r.endTime - now - remaining) > 1000 ==>
              t.command == HoldRedCommand(Max0(remaining - oneWay)) && t.endTime == now + remaining
    ensures Abs(r.endTime - now - remaining) <= 1000 ==> t == r
    ensures Abs(t.endTime - now - remaining) <= 1000
    ensures r.command == "" ==> t == Aligned(r, remaining, oneWay, now, 1)
  {
    if Abs(r.endTime - now - remaining) <= 1000 && r.command == "" {
      assert r.(command := "") == r;
    }
  }

  /** Writing the decision back and deciding again changes nothing more:
      the dead-band keeps a realigned follower from being told twice. */
  lemma SyncIdempotent(inter: Intersection, lights: Lights, req: string, oneWay: int, cfg: Config, now: int)
    requires req in lights && MembersKnown(inter, lights)
    ensures var t := SyncDecision(inter, lights, req, oneWay, cfg, now);
            SyncDecision(inter, lights[req := t], req, oneWay, cfg, now) == t
  {
    var t := SyncDecision(inter, lights, req, oneWay, cfg, now);
    var lights' := lights[req := t];
    assert MembersKnown(inter, lights');
    FirstActiveStable(inter.trafficLightNames, lights, lights');
    if !inter.needsNormalization && !inter.isCompromised {
      match FirstActive(inter.trafficLightNames, lights)
      case None =>
      case Some(a) =>
        if a != req && a != "" {
          assert lights'[a] == lights[a];
        }
    }
  }

  /** Changing commands and end times never changes who is active. */
  lemma {:induction false} FirstActiveStable(names: seq<string>, l1: Lights, l2: Lights)
    requires forall n :: n in names ==> n in l1 && n in l2
    requires forall n :: n in names ==> l1[n].state == l2[n].state
    ensures FirstActive(names, l1) == FirstActive(names, l2)
  {
    if names != [] {
      assert forall n :: n in names[1..] ==> n in names;
      FirstActiveStable(names[1..], l1, l2);
    }
  }

  // ---------------------------------------------------------------------
  // Watchdog
  // ---------------------------------------------------------------------

  /** All members RED, ALERT, UNKNOWN or anything but GREEN/YELLOW. */
  predicate AllRed(names: seq<string>, lights: Lights)
    requires forall n :: n in names ==> n in lights
  {
    forall n :: n in names ==> !lights[n].IsActive()
  }

  /** The all-red counter after one watchdog check: incremented on an
      all-red tick, reset at the threshold 3 (after the forced start) and
      on any GREEN/YELLOW member. */
  function NextAllRedCount(allRed: bool, count: int): (c: int)
    ensures !allRed ==> c == 0
    ensures allRed && count + 1 < 3 ==> c == count + 1
    ensures allRed && count + 1 >= 3 ==> c == 0
  {
    if allRed then (if count + 1 >= 3 then 0 else count + 1) else 0
  }

  /** The watchdog fires on this tick. */
  predicate WatchdogFires(allRed: bool, count: int)
  {
    allRed && count + 1 >= 3
  }

  /** Started from 0, the counter stays within 0..2, and it fires on the
      third consecutive all-red tick. */
  lemma WatchdogThirdTick()
    ensures !WatchdogFires(true, 0) && NextAllRedCount(true, 0) == 1
    ensures !WatchdogFires(true, 1) && NextAllRedCount(true, 1) == 2
    ensures WatchdogFires(true, 2) && NextAllRedCount(true, 2) == 0
    ensures forall c :: 0 <= c <= 2 ==> 0 <= NextAllRedCount(true, c) <= 2 && NextAllRedCount(false, c) == 0
  {
  }

  /** The leader's record after `forceCycleStart`. */
  function ForcedStart(leader: TrafficLightState, oneWay: int, cfg: Config, now: int): (t: TrafficLightState)
    ensures SameButSchedule(t, leader)
    ensures t.command == ForcedGreenCommand(Max0(cfg.greenBaseTimeMs - oneWay))
    ensures t.endTime == now + cfg.greenBaseTimeMs
  {
    leader.(command := ForcedGreenCommand(Max0(cfg.greenBaseTimeMs - oneWay)), endTime := now + cfg.greenBaseTimeMs)
  }

  // ---------------------------------------------------------------------
  // Priority cache
  // ---------------------------------------------------------------------

  type Entry = (string, int)

  /** Descending by priority (the comparator `a.second > b.second`). */
  predicate SortedDescending(list: seq<Entry>)
  {
    forall i, j :: 0 <= i < j < |list| ==> list[i].1 >= list[j].1
  }

  /** The entries `updatePriorityList` pushes, in member order. */
  function Entries(names: seq<string>, lights: Lights): (r: seq<Entry>)
    requires forall n :: n in names ==> n in lights
    ensures |r| == |names|
    ensures forall i :: 0 <= i < |names| ==> r[i] == (names[i], lights[names[i]].priority)
  {
    if names == [] then []
    else Entries(names[..|names| - 1], lights) + [(names[|names| - 1], lights[names[|names| - 1]].priority)]
  }

  function InsertDescending(e: Entry, list: seq<Entry>): (r: seq<Entry>)
    requires SortedDescending(list)
    ensures SortedDescending(r)
    ensures multiset(r) == multiset(list) + multiset{e}
    ensures forall i :: 0 <= i < |r| ==> r[i] == e || r[i] in list
  {
    if list == [] then [e]
    else if e.1 >= list[0].1 then [e] + list
    else
      var rest := InsertDescending(e, list[1..]);
      assert list == [list[0]] + list[1..];
      InsertBelowHead(e, list, rest);
      [list[0]] + rest
  }

  lemma InsertBelowHead(e: Entry, list: seq<Entry>, rest: seq<Entry>)
    requires SortedDescending(list) && list != [] && e.1 < list[0].1
    requires SortedDescending(rest)
    requires forall i :: 0 <= i < |rest| ==> rest[i] == e || rest[i] in list[1..]
    ensures SortedDescending([list[0]] + rest)
  {
    forall i | 0 <= i < |rest| ensures rest[i].1 <= list[0].1 {
      if rest[i] != e {
        var j :| 0 <= j < |list[1..]| && list[1..][j] == rest[i];
        assert list[j + 1] == rest[i];
      }
    }
  }

  /** The cache order: a permutation of the entries, descending by priority
      (ties in one admissible order; `std::sort` leaves tie order open). */
  function SortByPriority(list: seq<Entry>): (r: seq<Entry>)
    ensures SortedDescending(r)
    ensures multiset(r) == multiset(list)
  {
    if list == [] then []
    else
      assert list == [list[0]] + list[1..];
      InsertDescending(list[0], SortByPriority(list[1..]))
  }

  /** The head of the cache carries a priority no smaller than any member's. */
  lemma CacheHeadIsMaximal(names: seq<string>, lights: Lights)
    requires forall n :: n in names ==> n in lights
    requires names != []
    ensures var c := SortByPriority(Entries(names, lights));
            c != [] && c[0].0 in names &&
            forall n :: n in names ==> lights[n].priority <= c[0].1 && c[0].1 == lights[c[0].0].priority
  {
    var es := Entries(names, lights);
    var c := SortByPriority(es);
    assert es[0] in multiset(es);
    assert |c| > 0;
    assert c[0] in multiset(c);
    assert c[0] in es;
    forall n | n in names ensures lights[n].priority <= c[0].1 {
      var i :| 0 <= i < |names| && names[i] == n;
      assert es[i] in multiset(c);
      var j :| 0 <= j < |c| && c[j] == es[i];
      if j > 0 { assert c[0].1 >= c[j].1; }
    }
  }

  // ---------------------------------------------------------------------
  // Green wave
  // ---------------------------------------------------------------------

  /** The end time of the wave member `offset` positions after the base. */
  function WaveEnd(baseEnd: int, travel: int, offset: int): int
  {
    baseEnd + offset * travel
  }

  /** The lights after `triggerGreenWave` has visited the first `upto`
      positions of the wave: every member other than the base gets the GREEN
      command and the base's end time shifted by its offset in travel times. */
  function WaveApplied(lights: Lights, names: seq<string>, base: string, baseIndex: int,
                       baseEnd: int, travel: int, command: string, upto: nat): (r: Lights)
    requires upto <= |names|
    requires forall n :: n in names ==> n in lights
    ensures r.Keys == lights.Keys
    decreases upto
  {
    if upto == 0 then lights
    else
      var prev := WaveApplied(lights, names, base, baseIndex, baseEnd, travel, command, upto - 1);
      var f := names[upto - 1];
      if f == base then prev
      else prev[f := prev[f].(command := command, endTime := WaveEnd(baseEnd, travel, upto - 1 - baseIndex))]
  }

  /** The wave writes only members other than the base, and only those visited. */
  lemma {:induction false} WaveUntouched(lights: Lights, names: seq<string>, base: string, baseIndex: int,
                                         baseEnd: int, travel: int, command: string, upto: nat)
    requires upto <= |names|
    requires forall n :: n in names ==> n in lights
    ensures var r := WaveApplied(lights, names, base, baseIndex, baseEnd, travel, command, upto);
            forall n :: n in lights && (n == base || n !in names[..upto]) ==> r[n] == lights[n]
    decreases upto
  {
    if upto > 0 {
      WaveUntouched(lights, names, base, baseIndex, baseEnd, travel, command, upto - 1);
      assert names[..upto] == names[..upto - 1] + [names[upto - 1]];
    }
  }

  lemma DistinctIndex(names: seq<string>, i: int, j: int)
    requires 0 <= i < |names| && 0 <= j < |names| && names[i] == names[j]
    requires forall i, j :: 0 <= i < j < |names| ==> names[i] != names[j]
    ensures i == j
  {
  }

  /** With distinct members, the member at position j (other than the base at
      position b) ends at baseEnd + (j - b) * travel with the GREEN command. */
  lemma {:induction false} WaveOffsetAt(lights: Lights, names: seq<string>, b: int, baseEnd: int,
                                        travel: int, command: string, upto: nat, j: int)
    requires upto <= |names| && 0 <= b < |names| && 0 <= j < upto && j != b
    requires forall n :: n in names ==> n in lights
    requires forall i, j :: 0 <= i < j < |names| ==> names[i] != names[j]
    ensures WaveApplied(lights, names, names[b], b, baseEnd, travel, command, upto)[names[j]]
            == lights[names[j]].(command := command, endTime := WaveEnd(baseEnd, travel, j - b))
    decreases upto
  {
    var prev := WaveApplied(lights, names, names[b], b, baseEnd, travel, command, upto - 1);
    var r := WaveApplied(lights, names, names[b], b, baseEnd, travel, command, upto);
    var f := names[upto - 1];
    if j == upto - 1 {
      assert f != names[b] by {
        if f == names[b] {
          DistinctIndex(names, j, b);
        }
      }
      assert r == prev[f := prev[f].(command := command, endTime := WaveEnd(baseEnd, travel, j - b))];
      WaveUntouched(lights, names, names[b], b, baseEnd, travel, command, upto - 1);
      assert f !in names[..upto - 1] by {
        forall i | 0 <= i < upto - 1 ensures names[i] != f {
          assert names[i] != names[upto - 1];
        }
      }
      assert prev[f] == lights[f];
    } else {
      WaveOffsetAt(lights, names, b, baseEnd, travel, command, upto - 1, j);
      assert names[j] != f;
      assert r[names[j]] == prev[names[j]];
    }
  }

  /** Every member visited so far, other than the base, carries its offset. */
  lemma WaveOffsets(lights: Lights, names: seq<string>, b: int, baseEnd: int,
                    travel: int, command: string, upto: nat)
    requires upto <= |names| && 0 <= b < |names|
    requires forall n :: n in names ==> n in lights
    requires forall i, j :: 0 <= i < j < |names| ==> names[i] != names[j]
    ensures var r := WaveApplied(lights, names, names[b], b, baseEnd, travel, command, upto);
            forall j :: 0 <= j < upto && j != b ==>
              r[names[j]] == lights[names[j]].(command := command, endTime := WaveEnd(baseEnd, travel, j - b))
  {
    forall j | 0 <= j < upto && j != b
      ensures WaveApplied(lights, names, names[b], b, baseEnd, travel, command, upto)[names[j]]
              == lights[names[j]].(command := command, endTime := WaveEnd(baseEnd, travel, j - b))
    {
      WaveOffsetAt(lights, names, b, baseEnd, travel, command, upto, j);
    }
  }

  // ---------------------------------------------------------------------
  // Intersection lookup
  // ---------------------------------------------------------------------

  /** `findIntersectionFor`: the first intersection in key order listing the light. */
  function FirstContaining(order: seq<string>, inters: map<string, Intersection>, light: string): (r: Option<string>)
    requires forall k :: k in order ==> k in inters
    ensures r.Some? ==> r.value in order && inters[r.value].Contains(light)
    ensures r.None? <==> forall k :: k in order ==> !inters[k].Contains(light)
    ensures r.Some? ==> exists j :: 0 <= j < |order| && order[j] == r.value &&
                          forall i :: 0 <= i < j ==> !inters[order[i]].Contains(light)
  {
    if order == [] then None
    else if inters[order[0]].Contains(light) then Some(order[0])
    else
      var r := FirstContaining(order[1..], inters, light);
      assert forall k :: k in order[1..] ==> k in order;
      if r.Some? then
        ghost var j :| 0 <= j < |order[1..]| && order[1..][j] == r.value &&
                         forall i :: 0 <= i < j ==> !inters[order[1..][i]].Contains(light);
        assert order[j + 1] == r.value;
        assert forall i :: 0 <= i < j + 1 ==> !inters[order[i]].Contains(light) by {
          forall i | 0 <= i < j + 1 ensures !inters[order[i]].Contains(light) {
            if i > 0 { assert order[i] == order[1..][i - 1]; }
          }
        }
        r
      else r
  }

  /** Flag changes keep the lookup's answer: it reads only the member lists. */
  lemma {:induction false} FirstContainingFlags(order: seq<string>, i1: map<string, Intersection>,
                                                i2: map<string, Intersection>, light: string)
    requires forall k :: k in order ==> k in i1 && k in i2
    requires forall k :: k in order ==> i1[k].trafficLightNames == i2[k].trafficLightNames
    ensures FirstContaining(order, i1, light) == FirstContaining(order, i2, light)
  {
    if order != [] {
      assert forall k :: k in order[1..] ==> k in order;
      FirstContainingFlags(order[1..], i1, i2, light);
    }
  }

  // ---------------------------------------------------------------------
  // Polling policy
  // ---------------------------------------------------------------------

  /** `runConsumer`: a healthy light is polled every round, an UNKNOWN one
      only on rounds whose count is a multiple of 5. */
  predicate PolledThisRound(t: TrafficLightState, cycleCount: nat)
  {
    !t.IsUnknown() || cycleCount % 5 == 0
  }

  /** Of any five consecutive rounds, an UNKNOWN light is polled in exactly one. */
  lemma UnknownPolledOncePerFive(t: TrafficLightState, c: nat)
    requires t.IsUnknown()
    ensures |set r: nat | c <= r < c + 5 && PolledThisRound(t, r)| == 1
  {
    var k: nat := c + (5 - c % 5) % 5;
    assert k % 5 == 0;
    var polled := set r: nat | c <= r < c + 5 && PolledThisRound(t, r);
    forall r: nat | c <= r < c + 5 && PolledThisRound(t, r) ensures r == k {
      assert r % 5 == 0;
    }
    assert polled == {k};
  }

  /** The lights after phase 1 of a tick: the watchdog's forced start, if it
      fires and the cache has a head. */
  function WatchdogApplied(lights: Lights, cache: seq<Entry>, fires: bool, oneWay: int, cfg: Config, now: int): (r: Lights)
    requires forall e :: e in cache ==> e.0 in lights
    ensures r.Keys == lights.Keys
    ensures forall n :: n in r ==> SameButSchedule(r[n], lights[n])
  {
    if fires && cache != [] then
      lights[cache[0].0 := ForcedStart(lights[cache[0].0], oneWay, cfg, now)]
    else lights
  }

  /** A follower's record after phase 2, from its record `t` before phase 2,
      when its name came up `visits` times in the member list. More than
      1000 ms away from the active member's remaining time, the first
      decision tells it to hold RED for that time less the one-way latency,
      clamped at 0, and moves its end time there; a second decision then
      finds it inside the dead-band and only clears the command again.
      Inside the dead-band the command is cleared and nothing else changes. */
  function Aligned(t: TrafficLightState, remaining: int, oneWay: int, now: int, visits: nat): TrafficLightState
  {
    if Abs(t.endTime - now - remaining) > 1000 then
      t.(command := if visits == 1 then HoldRedCommand(Max0(remaining - oneWay)) else "", endTime := now + remaining)
    else t.(command := "")
  }

  /** An aligned follower differs only in its schedule and ends up within
      1000 ms of the active member; a follower listed once carries a
      command exactly when it was outside the dead-band, and that command
      is the hold-red one. */
  lemma AlignedCases(t: TrafficLightState, remaining: int, oneWay: int, now: int, visits: nat)
    requires visits >= 1
    ensures var r := Aligned(t, remaining, oneWay, now, visits);
            && SameButSchedule(r, t)
            && Abs(r.endTime - now - remaining) <= 1000
            && (r.command != "" <==> visits == 1 && Abs(t.endTime - now - remaining) > 1000)
            && (visits == 1 && Abs(t.endTime - now - remaining) > 1000 ==>
                  r.command == HoldRedCommand(Max0(remaining - oneWay)) && r.endTime == now + remaining)
            && (Abs(t.endTime - now - remaining) <= 1000 ==> r.endTime == t.endTime)
  {
    assert |HoldRedCommand(Max0(remaining - oneWay))| > 0;
  }

  /** The record of member `m` after phase 2 of a tick, relative to the
      lights `before` phase 2 began, when its name came up `visits` times:
      normalization gives the recovery command and end time, a compromised
      intersection ALERT, a follower of an active member is `Aligned`, and
      every other member only loses its command. */
  function AfterPhaseTwo(inter: Intersection, before: Lights, m: string, visits: nat,
                         oneWay: int, cfg: Config, now: int): (t: TrafficLightState)
    requires MembersKnown(inter, before) && m in before
    ensures SameButSchedule(t, before[m])
  {
    var r := before[m];
    if inter.needsNormalization then
      r.(command := NormalizationCommand(cfg), endTime := now + cfg.recoveryRedTimeMs)
    else if inter.isCompromised then
      r.(command := ALERT_COMMAND)
    else match FirstActive(inter.trafficLightNames, before)
      case None => r.(command := "")
      case Some(a) =>
        if a == "" || a == m then r.(command := "")
        else Aligned(r, ActiveRemaining(before[a], cfg, now), oneWay, now, visits)
  }

  /** Outside the follower case, a member keeps the end time it had before phase 2. */
  lemma KeptEndTime(inter: Intersection, before: Lights, n: string, visits: nat, oneWay: int, cfg: Config, now: int)
    requires MembersKnown(inter, before) && n in before
    requires !inter.needsNormalization
    requires inter.isCompromised || FirstActive(inter.trafficLightNames, before).None? ||
             FirstActive(inter.trafficLightNames, before).value in {"", n}
    ensures AfterPhaseTwo(inter, before, n, visits, oneWay, cfg, now).endTime == before[n].endTime
  {
  }

  /** Part way through phase 2, after the members `done`: each of them holds
      its outcome for the times it came up so far, every other member is as
      it was `before` phase 2. */
  ghost predicate DecidedSoFar(inter: Intersection, before: Lights, lights: Lights, done: seq<string>,
                               oneWay: int, cfg: Config, now: int)
    requires MembersKnown(inter, before) && MembersKnown(inter, lights)
  {
    forall n :: n in inter.trafficLightNames ==>
      lights[n] == if n in done then AfterPhaseTwo(inter, before, n, multiset(done)[n], oneWay, cfg, now) else before[n]
  }

  /** One iteration of phase 2: clearing member `m`'s command and deciding
      again gives its outcome for one more time it came up. */
  lemma SyncStep(inter: Intersection, before: Lights, lights: Lights, done: seq<string>, m: string,
                 oneWay: int, cfg: Config, now: int)
    requires MembersKnown(inter, before) && MembersKnown(inter, lights) && m in inter.trafficLightNames
    requires DecidedSoFar(inter, before, lights, done, oneWay, cfg, now)
    ensures var cleared := lights[m := lights[m].(command := "")];
            SyncDecision(inter, cleared, m, oneWay, cfg, now) ==
            AfterPhaseTwo(inter, before, m, multiset(done)[m] + 1, oneWay, cfg, now)
  {
    var names := inter.trafficLightNames;
    var k := multiset(done)[m];
    assert m in done <==> k > 0;
    var cleared := lights[m := lights[m].(command := "")];
    assert MembersKnown(inter, cleared);
    assert forall n :: n in names ==> cleared[n].state == before[n].state;
    FirstActiveStable(names, before, cleared);
    if !inter.needsNormalization && !inter.isCompromised {
      match FirstActive(names, before)
      case None =>
      case Some(a) =>
        if a != "" && a != m {
          assert cleared[a] == lights[a];
          if a in done {
            KeptEndTime(inter, before, a, multiset(done)[a], oneWay, cfg, now);
          }
          SyncStepFollower(inter, before, cleared, m, a, k, oneWay, cfg, now);
        }
    }
  }

  /** A follower without a command is decided as if it came up once. */
  lemma FollowerDecision(inter: Intersection, lights: Lights, req: string, a: string, oneWay: int, cfg: Config, now: int)
    requires req in lights && MembersKnown(inter, lights)
    requires !inter.needsNormalization && !inter.isCompromised
    requires FirstActive(inter.trafficLightNames, lights) == Some(a) && a != "" && a != req
    requires lights[req].command == ""
    ensures SyncDecision(inter, lights, req, oneWay, cfg, now) ==
            Aligned(lights[req], ActiveRemaining(lights[a], cfg, now), oneWay, now, 1)
  {
    SyncFollowerAlignment(inter, lights, req, oneWay, cfg, now);
  }

  /** The follower case of `SyncStep`: the member with a cleared command,
      decided for the (k+1)-th time, is aligned to the active member's
      remaining time from before phase 2. */
  lemma SyncStepFollower(inter: Intersection, before: Lights, cleared: Lights, m: string, a: string, k: nat,
                         oneWay: int, cfg: Config, now: int)
    requires MembersKnown(inter, before) && MembersKnown(inter, cleared) && m in inter.trafficLightNames
    requires !inter.needsNormalization && !inter.isCompromised
    requires FirstActive(inter.trafficLightNames, cleared) == Some(a) && a != "" && a != m && a in before
    requires ActiveRemaining(cleared[a], cfg, now) == ActiveRemaining(before[a], cfg, now)
    requires var remaining := ActiveRemaining(before[a], cfg, now);
             cleared[m] == (if k == 0 then before[m] else Aligned(before[m], remaining, oneWay, now, k)).(command := "")
    ensures SyncDecision(inter, cleared, m, oneWay, cfg, now) ==
            Aligned(before[m], ActiveRemaining(before[a], cfg, now), oneWay, now, k + 1)
  {
    FollowerDecision(inter, cleared, m, a, oneWay, cfg, now);
    AlignAgain(before[m], cleared[m], ActiveRemaining(before[a], cfg, now), oneWay, now, k);
  }

  /** Aligning a record once more: from the record with its command
      cleared, or from its k-th alignment with the command cleared. */
  lemma AlignAgain(t: TrafficLightState, c: TrafficLightState, remaining: int, oneWay: int, now: int, k: nat)
    requires c == (if k == 0 then t else Aligned(t, remaining, oneWay, now, k)).(command := "")
    ensures Aligned(c, remaining, oneWay, now, 1) == Aligned(t, remaining, oneWay, now, k + 1)
  {
  }

  /** Every member's record after one intersection's tick, relative to the
      lights before it (`prior`): the watchdog's write, then each member's
      phase-2 outcome. */
  ghost predicate MembersTicked(inter: Intersection, prior: Lights, cache: seq<Entry>, count: int,
                                after: Lights, oneWay: int, cfg: Config, now: int)
    requires MembersKnown(inter, prior)
    requires forall e :: e in cache ==> e.0 in inter.trafficLightNames
  {
    var before := WatchdogApplied(prior, cache, WatchdogFires(AllRed(inter.trafficLightNames, prior), count),
                                  oneWay, cfg, now);
    forall n :: n in inter.trafficLightNames ==>
      n in after && after[n] == AfterPhaseTwo(inter, before, n, multiset(inter.trafficLightNames)[n], oneWay, cfg, now)
  }

  /** One intersection's tick as a whole, from the lights before it
      (`prior`) to the lights after it: non-members untouched, every member
      `MembersTicked`. */
  ghost predicate TickApplied(inter: Intersection, prior: Lights, cache: seq<Entry>, count: int,
                              after: Lights, oneWay: int, cfg: Config, now: int)
    requires MembersKnown(inter, prior)
    requires forall e :: e in cache ==> e.0 in inter.trafficLightNames
  {
    && after.Keys == prior.Keys
    && (forall n :: n in after && n !in inter.trafficLightNames ==> after[n] == prior[n])
    && MembersTicked(inter, prior, cache, count, after, oneWay, cfg, now)
  }

  /** The watchdog followed by phase 2 make up `TickApplied`. */
  lemma TickAppliedIntro(inter: Intersection, prior: Lights, cache: seq<Entry>, count: int,
                         watched: Lights, after: Lights, oneWay: int, cfg: Config, now: int)
    requires MembersKnown(inter, prior)
    requires forall e :: e in cache ==> e.0 in inter.trafficLightNames
    requires watched == WatchdogApplied(prior, cache, WatchdogFires(AllRed(inter.trafficLightNames, prior), count),
                                        oneWay, cfg, now)
    requires after.Keys == watched.Keys
    requires forall n :: n in after && n !in inter.trafficLightNames ==> after[n] == watched[n]
    requires forall n :: n in inter.trafficLightNames ==>
               after[n] == AfterPhaseTwo(inter, watched, n, multiset(inter.trafficLightNames)[n], oneWay, cfg, now)
    ensures TickApplied(inter, prior, cache, count, after, oneWay, cfg, now)
  {
  }

  /** Phase 2's outcome for a member depends on the members' records only. */
  lemma AfterPhaseTwoLocal(inter: Intersection, b1: Lights, b2: Lights, m: string, visits: nat,
                           oneWay: int, cfg: Config, now: int)
    requires MembersKnown(inter, b1) && MembersKnown(inter, b2) && m in inter.trafficLightNames
    requires forall n :: n in inter.trafficLightNames ==> b1[n] == b2[n]
    ensures AfterPhaseTwo(inter, b1, m, visits, oneWay, cfg, now) == AfterPhaseTwo(inter, b2, m, visits, oneWay, cfg, now)
  {
    FirstActiveStable(inter.trafficLightNames, b1, b2);
  }

  /** `MembersTicked` depends on the members' records before and after only. */
  lemma MembersTickedLocal(inter: Intersection, p1: Lights, p2: Lights, cache: seq<Entry>, count: int,
                           a1: Lights, a2: Lights, oneWay: int, cfg: Config, now: int)
    requires MembersKnown(inter, p1) && MembersKnown(inter, p2)
    requires forall e :: e in cache ==> e.0 in inter.trafficLightNames
    requires forall n :: n in inter.trafficLightNames ==> p1[n] == p2[n] && n in a2 && (n in a1 ==> a1[n] == a2[n])
    requires MembersTicked(inter, p1, cache, count, a1, oneWay, cfg, now)
    ensures MembersTicked(inter, p2, cache, count, a2, oneWay, cfg, now)
  {
    var names := inter.trafficLightNames;
    assert AllRed(names, p1) == AllRed(names, p2);
    var fires := WatchdogFires(AllRed(names, p1), count);
    var w1 := WatchdogApplied(p1, cache, fires, oneWay, cfg, now);
    var w2 := WatchdogApplied(p2, cache, fires, oneWay, cfg, now);
    assert forall n :: n in names ==> w1[n] == w2[n];
    forall n | n in names
      ensures a2[n] == AfterPhaseTwo(inter, w2, n, multiset(names)[n], oneWay, cfg, now)
    {
      AfterPhaseTwoLocal(inter, w1, w2, n, multiset(names)[n], oneWay, cfg, now);
    }
  }

  /** What one tick leaves in the members' records, given the lights before
      it (`prior`), its priority cache entry and the all-red counter it read:
      the intersection-wide cases. */
  lemma TickOutcome(inter: Intersection, prior: Lights, cache: seq<Entry>, count: int,
                    after: Lights, oneWay: int, cfg: Config, now: int)
    requires MembersKnown(inter, prior)
    requires forall e :: e in cache ==> e.0 in inter.trafficLightNames
    requires MembersTicked(inter, prior, cache, count, after, oneWay, cfg, now)
    // normalization first: every member RED for the recovery time
    ensures inter.needsNormalization ==>
              forall n :: n in inter.trafficLightNames ==>
                after[n].command == NormalizationCommand(cfg) && after[n].endTime == now + cfg.recoveryRedTimeMs
    // then a compromised intersection: every member ALERT
    ensures !inter.needsNormalization && inter.isCompromised ==>
              forall n :: n in inter.trafficLightNames ==> after[n].command == ALERT_COMMAND
    // all red: no member carries a command, the forced GREEN included
    ensures !inter.needsNormalization && !inter.isCompromised && AllRed(inter.trafficLightNames, prior) ==>
              forall n :: n in inter.trafficLightNames ==> after[n].command == ""
    // no member changes state, priority or anything but command and end time
    ensures forall n :: n in inter.trafficLightNames ==> SameButSchedule(after[n], prior[n])
  {
    var fires := WatchdogFires(AllRed(inter.trafficLightNames, prior), count);
    var before := WatchdogApplied(prior, cache, fires, oneWay, cfg, now);
    assert MembersKnown(inter, before);
  }

  /** The same tick seen from its leading member: the forced leader, and
      an active member with its followers. */
  lemma TickLeaders(inter: Intersection, prior: Lights, cache: seq<Entry>, count: int,
                    after: Lights, oneWay: int, cfg: Config, now: int)
    requires MembersKnown(inter, prior)
    requires forall e :: e in cache ==> e.0 in inter.trafficLightNames
    requires MembersTicked(inter, prior, cache, count, after, oneWay, cfg, now)
    // the forced leader keeps the GREEN base end time the watchdog gave it
    ensures !inter.needsNormalization && WatchdogFires(AllRed(inter.trafficLightNames, prior), count) && cache != [] ==>
              after[cache[0].0].endTime == now + cfg.greenBaseTimeMs
    // an active member only loses its command; every other member is aligned to it
    ensures !inter.needsNormalization && !inter.isCompromised &&
            FirstActive(inter.trafficLightNames, prior).Some? && FirstActive(inter.trafficLightNames, prior).value != "" ==>
              var a := FirstActive(inter.trafficLightNames, prior).value;
              var remaining := ActiveRemaining(prior[a], cfg, now);
              && after[a] == prior[a].(command := "")
              && forall n :: n in inter.trafficLightNames && n != a ==>
                   && after[n] == Aligned(prior[n], remaining, oneWay, now, multiset(inter.trafficLightNames)[n])
                   && Abs(after[n].endTime - now - remaining) <= 1000
  {
    var names := inter.trafficLightNames;
    var fires := WatchdogFires(AllRed(names, prior), count);
    var before := WatchdogApplied(prior, cache, fires, oneWay, cfg, now);
    assert MembersKnown(inter, before);
    FirstActiveStable(names, prior, before);
    if fires && cache != [] {
      assert cache[0] in cache;
      var leader := cache[0].0;
      assert before[leader].endTime == now + cfg.greenBaseTimeMs;
    }
    if FirstActive(names, prior).Some? {
      assert !fires;
      assert before == prior;
      var a := FirstActive(names, prior).value;
      if a != "" && !inter.needsNormalization && !inter.isCompromised {
        TickFollowers(inter, prior, after, a, oneWay, cfg, now);
      }
    }
  }

  /** The followers of an active member after a tick in which the watchdog
      did not fire: each one `Aligned`, within 1000 ms of the active member. */
  lemma TickFollowers(inter: Intersection, prior: Lights, after: Lights, a: string, oneWay: int, cfg: Config, now: int)
    requires MembersKnown(inter, prior) && a in prior
    requires FirstActive(inter.trafficLightNames, prior) == Some(a) && a != ""
    requires !inter.needsNormalization && !inter.isCompromised
    requires forall n :: n in inter.trafficLightNames ==>
               n in after && after[n] == AfterPhaseTwo(inter, prior, n, multiset(inter.trafficLightNames)[n], oneWay, cfg, now)
    ensures var remaining := ActiveRemaining(prior[a], cfg, now);
            && after[a] == prior[a].(command := "")
            && forall n :: n in inter.trafficLightNames && n != a ==>
                 && after[n] == Aligned(prior[n], remaining, oneWay, now, multiset(inter.trafficLightNames)[n])
                 && Abs(after[n].endTime - now - remaining) <= 1000
  {
    var names := inter.trafficLightNames;
    var remaining := ActiveRemaining(prior[a], cfg, now);
    forall n | n in names && n != a
      ensures after[n] == Aligned(prior[n], remaining, oneWay, now, multiset(names)[n])
      ensures Abs(after[n].endTime - now - remaining) <= 1000
    {
      AlignedCases(prior[n], remaining, oneWay, now, multiset(names)[n]);
    }
  }

  // ---------------------------------------------------------------------
  // Priority command chain (assembleCommandFor)
  // ---------------------------------------------------------------------

  /** The sum of the priorities of the lights, in key order. */
  function PrioritySum(names: seq<string>, lights: Lights): int
    requires forall n :: n in names ==> n in lights
  {
    if names == [] then 0
    else PrioritySum(names[..|names| - 1], lights) + lights[names[|names| - 1]].priority
  }

  /** `priority >= sum / count` over the reals; false when there are no lights
      (the float mean is then NaN). */
  predicate AtLeastAverage(priority: int, sum: int, count: nat)
  {
    count > 0 && priority * count >= sum
  }

  /** The command `assembleCommandFor` writes: ";set_time:DEFAULT",
      ";set_state:GREEN;set_time:DEFAULT", ";set_state:ALERT",
      ";increase_time:5000", ";decrease_time:3000" or nothing. */
  function PriorityCommand(t: TrafficLightState, sum: int, count: nat, minPriority: int): string
  {
    if t.priority < minPriority && !t.IsUnknown() && !t.IsAlert() then Segment("set_time", "DEFAULT")
    else if t.IsAlert() then Segment("set_state", "GREEN") + Segment("set_time", "DEFAULT")
    else if t.IsUnknown() then Segment("set_state", "ALERT")
    else if t.state == "GREEN" && AtLeastAverage(t.priority, sum, count) then Segment("increase_time", "5000")
    else if t.state == "RED" && AtLeastAverage(t.priority, sum, count) then Segment("decrease_time", "3000")
    else ""
  }

  /** The chain's outcomes: UNKNOWN lights are held in ALERT, ALERT lights are
      released to GREEN at the default time, healthy low-priority lights are
      reset to the default time, and only GREEN (RED) lights at or above the
      mean get more (less) time; a YELLOW light never gets a time change. */
  lemma PriorityCommandCases(t: TrafficLightState, sum: int, count: nat, minPriority: int)
    ensures t.IsUnknown() ==> PriorityCommand(t, sum, count, minPriority) == Segment("set_state", "ALERT")
    ensures t.IsAlert() ==>
              PriorityCommand(t, sum, count, minPriority) == Segment("set_state", "GREEN") + Segment("set_time", "DEFAULT")
    ensures !t.IsUnknown() && !t.IsAlert() && t.priority < minPriority ==>
              PriorityCommand(t, sum, count, minPriority) == Segment("set_time", "DEFAULT")
    ensures PriorityCommand(t, sum, count, minPriority) == Segment("increase_time", "5000") <==>
              t.state == "GREEN" && t.priority >= minPriority && AtLeastAverage(t.priority, sum, count)
    ensures PriorityCommand(t, sum, count, minPriority) == Segment("decrease_time", "3000") <==>
              t.state == "RED" && t.priority >= minPriority && AtLeastAverage(t.priority, sum, count)
    ensures t.state == "YELLOW" && t.priority >= minPriority ==> PriorityCommand(t, sum, count, minPriority) == ""
  {
    SegmentShape("increase_time", "5000");
    SegmentShape("decrease_time", "3000");
    SegmentShape("set_time", "DEFAULT");
    SegmentShape("set_state", "GREEN");
    SegmentShape("set_state", "ALERT");
  }

  /** A light whose priority is at least everyone's is at least the mean. */
  lemma {:induction false} MaximalIsAtLeastAverage(names: seq<string>, lights: Lights, p: int)
    requires forall n :: n in names ==> n in lights && lights[n].priority <= p
    ensures PrioritySum(names, lights) <= |names| * p
    decreases |names|
  {
    if names != [] {
      var init := names[..|names| - 1];
      assert forall n :: n in init ==> n in names;
      MaximalIsAtLeastAverage(init, lights, p);
      assert names[|names| - 1] in names;
      assert |names| * p == |init| * p + p;
    }
  }

  // ---------------------------------------------------------------------
  // Recovery (onData on a previously UNKNOWN light)
  // ---------------------------------------------------------------------

  /** No member other than `self` is UNKNOWN. */
  predicate NoOtherUnknown(names: seq<string>, lights: Lights, self: string)
    requires forall n :: n in names ==> n in lights
  {
    forall p :: p in names && p != self ==> !lights[p].IsUnknown()
  }

  /** The intersections after the recovery check of `onData` for `name`. */
  function Recovered(inters: map<string, Intersection>, order: seq<string>, lights: Lights, name: string): (r: map<string, Intersection>)
    requires name in lights
    requires forall k :: k in order ==> k in inters
    requires forall k :: k in inters ==> MembersKnown(inters[k], lights)
    ensures r.Keys == inters.Keys
    ensures forall k :: k in r ==> r[k].name == inters[k].name && r[k].trafficLightNames == inters[k].trafficLightNames
  {
    if !lights[name].IsUnknown() then inters
    else match FirstContaining(order, inters, name)
      case None => inters
      case Some(k) =>
        assert MembersKnown(inters[k], lights);
        if inters[k].isCompromised && NoOtherUnknown(inters[k].trafficLightNames, lights, name)
        then inters[k := inters[k].(isCompromised := false, needsNormalization := true)]
        else inters
  }

  /** Recovery happens exactly when the light was UNKNOWN, its intersection is
      compromised and no other member is UNKNOWN; it then touches only that
      intersection, and its next decision for every member is the RED baseline. */
  lemma RecoveryCondition(inters: map<string, Intersection>, order: seq<string>, lights: Lights, name: string,
                          oneWay: int, cfg: Config, now: int)
    requires name in lights
    requires forall k :: k in order ==> k in inters
    requires forall k :: k in inters ==> MembersKnown(inters[k], lights)
    ensures var r := Recovered(inters, order, lights, name);
            var f := FirstContaining(order, inters, name);
            && (r != inters <==>
                 lights[name].IsUnknown() && f.Some? && inters[f.value].isCompromised &&
                 NoOtherUnknown(inters[f.value].trafficLightNames, lights, name))
            && (r != inters ==>
                 && !r[f.value].isCompromised && r[f.value].needsNormalization
                 && (forall k :: k in r && k != f.value ==> r[k] == inters[k])
                 && (forall m :: m in r[f.value].trafficLightNames ==>
                       SyncDecision(r[f.value], lights, m, oneWay, cfg, now).command == NormalizationCommand(cfg)))
  {
    var r := Recovered(inters, order, lights, name);
    var f := FirstContaining(order, inters, name);
    if lights[name].IsUnknown() && f.Some? && inters[f.value].isCompromised &&
       NoOtherUnknown(inters[f.value].trafficLightNames, lights, name) {
      assert r[f.value].isCompromised != inters[f.value].isCompromised;
      assert MembersKnown(r[f.value], lights);
    }
  }

  // ---------------------------------------------------------------------
  // Command routing (onInterest)
  // ---------------------------------------------------------------------

  /** The first position at or after `from` holding a "command" component
      that has at least one component after it. */
  function CommandIndex(comps: seq<string>, from: nat): (r: Option<nat>)
    requires from <= |comps|
    ensures r.Some? ==> from <= r.value && r.value + 1 < |comps| && comps[r.value] == "command"
    ensures r.Some? ==> forall j :: from <= j < r.value ==> comps[j] != "command"
    ensures r.None? ==> forall j :: from <= j < |comps| - 1 ==> comps[j] != "command"
    decreases |comps| - from
  {
    if from == |comps| then None
    else if comps[from] == "command" && from + 1 < |comps| then Some(from)
    else CommandIndex(comps, from + 1)
  }

  /** The URI of a sequence of components: "/" before each one. */
  function PathOf(comps: seq<string>): (p: string)
    ensures comps != [] ==> |p| > 0 && p[0] == '/'
  {
    if comps == [] then "" else PathOf(comps[..|comps| - 1]) + "/" + comps[|comps| - 1]
  }

  /** An Interest `<prefix>/command/<light components>` addresses the light
      whose URI the components spell, when the prefix has no "command" part. */
  lemma {:induction false} CommandRouteReachesLight(prefix: seq<string>, light: seq<string>, from: nat)
    requires light != [] && from <= |prefix|
    requires forall j :: 0 <= j < |prefix| ==> prefix[j] != "command"
    ensures CommandIndex(prefix + ["command"] + light, from) == Some(|prefix|)
    decreases |prefix| - from
  {
    var comps := prefix + ["command"] + light;
    if from < |prefix| {
      assert comps[from] == prefix[from];
      CommandRouteReachesLight(prefix, light, from + 1);
    } else {
      assert comps[from] == "command";
    }
  }

  // ---------------------------------------------------------------------
  // Green-wave lookup (triggerGreenWave)
  // ---------------------------------------------------------------------

  /** The first wave at or after `from` listing `base`. */
  function FirstWaveWith(waves: seq<GreenWaveGroup>, base: string, from: nat): (r: Option<nat>)
    requires from <= |waves|
    ensures r.Some? ==> from <= r.value < |waves| && base in waves[r.value].trafficLightNames
    ensures r.Some? ==> forall j :: from <= j < r.value ==> base !in waves[j].trafficLightNames
    ensures r.None? ==> forall j :: from <= j < |waves| ==> base !in waves[j].trafficLightNames
    decreases |waves| - from
  {
    if from == |waves| then None
    else if base in waves[from].trafficLightNames then Some(from)
    else FirstWaveWith(waves, base, from + 1)
  }

  /** `std::find`: the first position of `x`. */
  function IndexOf(names: seq<string>, x: string): (i: nat)
    requires x in names
    ensures i < |names| && names[i] == x && x !in names[..i]
  {
    if names[0] == x then 0
    else
      var i := IndexOf(names[1..], x);
      assert names[1..][..i] == names[1..i + 1];
      1 + i
  }

  /** An example of `WaveOffsets`: a follower two positions after the
      base, with 5000 ms between neighbours, ends 10000 ms after the base. */
  lemma WaveTwoPositionsLater(lights: Lights, names: seq<string>, b: int, baseEnd: int, command: string)
    requires 0 <= b && b + 2 < |names|
    requires forall n :: n in names ==> n in lights
    requires forall i, j :: 0 <= i < j < |names| ==> names[i] != names[j]
    ensures WaveApplied(lights, names, names[b], b, baseEnd, 5000, command, |names|)[names[b + 2]].endTime
            == baseEnd + 10000
  {
    WaveOffsets(lights, names, b, baseEnd, 5000, command, |names|);
  }
}
