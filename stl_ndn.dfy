/** The two free parsers of the node's standalone front end (src/STLNDN.cpp),
    over the enumerations of the older `traffic` namespace, extended by the
    NONE colour that this front end uses. */
module StlNdn {

  datatype Color = GREEN | YELLOW | RED | NONE

  datatype Status = NONE | WEAK | MEDIUM | INTENSE

  /** Enumerator values of `traffic::Status` (SmartTrafficLight.hpp). */
  function StatusValue(s: Status): (v: int)
    ensures 1 <= v <= 8
  {
    match s
    case NONE => 1
    case WEAK => 2
    case MEDIUM => 5
    case INTENSE => 8
  }

  /** `parseColor`: the three phase names, anything else NONE. */
  function ParseColor(s: string): (c: Color)
    ensures c == GREEN <==> s == "GREEN"
    ensures c == YELLOW <==> s == "YELLOW"
    ensures c == RED <==> s == "RED"
    ensures c == Color.NONE <==> s !in {"GREEN", "YELLOW", "RED"}
  {
    if s == "GREEN" then GREEN
    else if s == "YELLOW" then YELLOW
    else if s == "RED" then RED
    else Color.NONE
  }

  /** `parseStatus`: the four class names; an unrecognised text gives NONE. */
  function ParseStatus(s: string): (r: Status)
    ensures r == WEAK <==> s == "WEAK"
    ensures r == MEDIUM <==> s == "MEDIUM"
    ensures r == INTENSE <==> s == "INTENSE"
    ensures r == Status.NONE <==> s !in {"WEAK", "MEDIUM", "INTENSE"}
  {
    if s == "NONE" then Status.NONE
    else if s == "WEAK" then WEAK
    else if s == "MEDIUM" then MEDIUM
    else if s == "INTENSE" then INTENSE
    else Status.NONE
  }

  /** An unknown class name and "NONE" parse alike. */
  lemma UnknownStatusIsNone(s: string)
    requires s !in {"NONE", "WEAK", "MEDIUM", "INTENSE"}
    ensures ParseStatus(s) == ParseStatus("NONE")
  {
  }
}
