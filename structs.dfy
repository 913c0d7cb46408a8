/** The light and intersection records shared by the orchestrator and the
    node (include/Structs.hpp). Fields that src/Orchestrator.cpp,
    src/SmartTrafficLight.cpp and src/YamlParser.cpp use but the header as
    shown does not declare (cycle, columns, lines, intensity, isCompromised,
    needsNormalization) are included with the defaults the code relies on. */
module Structs {
  import Enums

  /** One light as the orchestrator sees it; `endTime` is in milliseconds. */
  datatype TrafficLightState = TrafficLightState(
    name: string,
    state: string,
    endTime: int,
    priority: int,
    command: string,
    intersection: bool,
    timeOutCounter: int,
    cycle: int,
    columns: int,
    lines: int,
    intensity: Enums.Status)
  {
    /** `isUnknown()`. */
    predicate IsUnknown() { state == "UNKNOWN" }

    /** `isAlert()`. */
    predicate IsAlert() { state == "ALERT" }

    /** The display states in which a light holds right of way. */
    predicate IsActive() { state == "GREEN" || state == "YELLOW" }
  }

  /** A value-initialised record, the one `operator[]` inserts into a light
      table that lacks the name: an empty name and the member defaults. */
  function DefaultTrafficLightState(): (t: TrafficLightState)
    ensures t.name == "" && t.state == "RED" && t.priority == 0 && t.timeOutCounter == 0
    ensures t.command == "" && !t.intersection
    ensures !t.IsUnknown() && !t.IsAlert() && !t.IsActive()
  {
    TrafficLightState("", "RED", 0, 0, "", false, 0, 0, 0, 0, Enums.NONE)
  }

  datatype Intersection = Intersection(
    name: string,
    trafficLightNames: seq<string>,
    isCompromised: bool,
    needsNormalization: bool)
  {
    /** `contains(name)`: `std::find` reaches the name. */
    predicate Contains(n: string) { n in trafficLightNames }
  }

  /** A green-wave group: ordered members and the travel time between neighbours. */
  datatype GreenWaveGroup = GreenWaveGroup(name: string, trafficLightNames: seq<string>, travelTimeMs: int)

  /** A node command token, `type:value`. */
  datatype Command = Command(kind: string, value: string)

  /** A light is never UNKNOWN and ALERT at once. */
  lemma UnknownAndAlertExclusive(t: TrafficLightState)
    ensures !(t.IsUnknown() && t.IsAlert())
    ensures t.IsActive() ==> !t.IsUnknown() && !t.IsAlert()
  {
  }

  /** `contains` holds exactly for the names listed, at some position. */
  lemma ContainsIsMembership(i: Intersection, n: string)
    ensures i.Contains(n) <==> exists k :: 0 <= k < |i.trafficLightNames| && i.trafficLightNames[k] == n
  {
  }
}
