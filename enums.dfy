/** The colour and intensity enumerations of the current node and their
    string parsers (include/Enums.hpp). */
module Enums {

  /** Intensity class of the simulated arrivals. */
  datatype Status = NONE | LOW | MEDIUM | HIGH

  /** Signal colours; the first three are the phases of the cycle. */
  datatype Color = GREEN | YELLOW | RED | ALERT | UNKNOWN

  /** The enumerator values `static_cast<int>` reads. */
  function StatusValue(s: Status): (v: int)
    ensures 1 <= v <= 8
  {
    match s
    case NONE => 1
    case LOW => 2
    case MEDIUM => 5
    case HIGH => 8
  }

  /** The ordinal of a colour, which is also its index in the phase table. */
  function ColorIndex(c: Color): (i: nat)
    ensures i < 5
    ensures i < 3 <==> c == GREEN || c == YELLOW || c == RED
  {
    match c
    case GREEN => 0
    case YELLOW => 1
    case RED => 2
    case ALERT => 3
    case UNKNOWN => 4
  }

  /** `static_cast<Color>(index)`. */
  function ColorOfIndex(i: nat): (c: Color)
    requires i < 5
    ensures ColorIndex(c) == i
  {
    if i == 0 then GREEN else if i == 1 then YELLOW else if i == 2 then RED
    else if i == 3 then ALERT else UNKNOWN
  }

  /** `parseColor`: the three phase names map to their colour, every other
      text (including "ALERT" and "UNKNOWN") to ALERT. */
  function ParseColor(s: string): (c: Color)
    ensures c != UNKNOWN
    ensures c == GREEN <==> s == "GREEN"
    ensures c == YELLOW <==> s == "YELLOW"
    ensures c == RED <==> s == "RED"
  {
    if s == "GREEN" then GREEN
    else if s == "YELLOW" then YELLOW
    else if s == "RED" then RED
    else ALERT
  }

  /** `parseIntensity`: LOW, MEDIUM, HIGH by name, anything else NONE. */
  function ParseIntensity(s: string): (r: Status)
    ensures r == LOW <==> s == "LOW"
    ensures r == MEDIUM <==> s == "MEDIUM"
    ensures r == HIGH <==> s == "HIGH"
    ensures r == NONE <==> s !in {"LOW", "MEDIUM", "HIGH"}
  {
    if s == "LOW" then LOW
    else if s == "MEDIUM" then MEDIUM
    else if s == "HIGH" then HIGH
    else NONE
  }

  /** The intensity values grow strictly with the class. */
  lemma StatusValuesIncrease()
    ensures StatusValue(NONE) == 1 && StatusValue(LOW) == 2
    ensures StatusValue(MEDIUM) == 5 && StatusValue(HIGH) == 8
    ensures StatusValue(NONE) < StatusValue(LOW) < StatusValue(MEDIUM) < StatusValue(HIGH)
  {
  }

  /** Index and colour are inverse to each other. */
  lemma ColorIndexRoundTrip(c: Color)
    ensures ColorOfIndex(ColorIndex(c)) == c
  {
  }

  /** Parsing a colour name back from its phase gives the phase. */
  lemma ParseColorPhases()
    ensures ParseColor("GREEN") == GREEN && ParseColor("YELLOW") == YELLOW && ParseColor("RED") == RED
    ensures ParseColor("UNKNOWN") == ALERT && ParseColor("ALERT") == ALERT
  {
  }
}
