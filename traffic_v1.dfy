/** The earlier traffic light of SmartTrafficLight.cpp (namespace `traffic`):
    a fixed 24/3/24 s table whose green and red times are traded in steps
    of 6 s on a priority request, and the phase loop of `start`. The
    snapshot's colours are the three phase colours of the current node and
    its intensity classes are those of src/STLNDN.cpp (1, 2, 5, 8). */
module TrafficV1 {
  import opened Wire
  import opened Enums
  import StlNdn
  import opened TrafficNode

  /** The step by which a request trades green against red. */
  const TRADE_STEP: int := 6
  const MIN_SPLIT: int := 12
  const MAX_SPLIT: int := 36
  /** Green plus red in the constructor's table. */
  const CYCLE_SPLIT: int := 48

  /** The constructor's table. */
  function InitialTable(): seq<Phase>
  {
    [Phase("green", 24), Phase("yellow", 3), Phase("red", 24)]
  }

  /** `changeTime(isgreen)` on the green and red times: a non-green request
      moves 6 s from red to green while green is under 36 and red over 12;
      a green request moves 6 s from green to red while red is under 36 and
      green over 12; otherwise nothing changes. */
  function Traded(green: int, red: int, isGreen: bool): (int, int)
  {
    if green < MAX_SPLIT && red > MIN_SPLIT && !isGreen then (green + TRADE_STEP, red - TRADE_STEP)
    else if red < MAX_SPLIT && green > MIN_SPLIT && isGreen then (green - TRADE_STEP, red + TRADE_STEP)
    else (green, red)
  }

  /** The splits reachable from 24/24: green and red add up to 48, each
      stays within 12..36, on the 6-second grid. */
  predicate Balanced(green: int, red: int)
  {
    green + red == CYCLE_SPLIT && MIN_SPLIT <= green <= MAX_SPLIT && green % TRADE_STEP == 0
  }

  /** Each guard of `changeTime`, and the fallback: a trade happens exactly
      when its guard holds, moves 6 s in the requested direction, and
      always keeps green plus red. */
  lemma TradedCases(green: int, red: int, isGreen: bool)
    ensures Traded(green, red, isGreen).0 + Traded(green, red, isGreen).1 == green + red
    ensures !isGreen ==>
              Traded(green, red, isGreen) == if green < MAX_SPLIT && red > MIN_SPLIT then (green + 6, red - 6) else (green, red)
    ensures isGreen ==>
              Traded(green, red, isGreen) == if red < MAX_SPLIT && green > MIN_SPLIT then (green - 6, red + 6) else (green, red)
  {
  }

  /** Trading keeps a balanced split balanced, so green and red never leave 12..36. */
  lemma TradedKeepsBalanced(green: int, red: int, isGreen: bool)
    requires Balanced(green, red)
    ensures Balanced(Traded(green, red, isGreen).0, Traded(green, red, isGreen).1)
    ensures MIN_SPLIT <= Traded(green, red, isGreen).1 <= MAX_SPLIT
  {
  }

  /** The constructor's split is balanced. */
  lemma InitialBalanced()
    ensures Balanced(InitialTable()[0].seconds, InitialTable()[2].seconds)
  {
  }

  /** `reviewRequest(other)` on the split: only a light of lower priority
      yields, a GREEN one by lengthening red, a RED one by lengthening
      green; YELLOW never changes the split. */
  function Reviewed(green: int, red: int, priority: int, other: int, color: Color): (int, int)
  {
    if priority < other && color == GREEN then Traded(green, red, true)
    else if priority < other && color == RED then Traded(green, red, false)
    else (green, red)
  }

  lemma ReviewedCases(green: int, red: int, priority: int, other: int, color: Color)
    requires Balanced(green, red)
    ensures priority >= other || color == YELLOW ==> Reviewed(green, red, priority, other, color) == (green, red)
    ensures priority < other && color == GREEN ==> Reviewed(green, red, priority, other, color).0 <= green
    ensures priority < other && color == RED ==> Reviewed(green, red, priority, other, color).0 >= green
    ensures Balanced(Reviewed(green, red, priority, other, color).0, Reviewed(green, red, priority, other, color).1)
  {
    TradedKeepsBalanced(green, red, true);
    TradedKeepsBalanced(green, red, false);
  }

  class Light {
    var colors: seq<Phase>
    var columns: int
    var lines: int
    var capacity: int
    var vehicles: int
    var fullCycleVehicles: int
    var timeLeft: int
    var priority: int
    var intensity: StlNdn.Status
    var currentColor: Color
    var startColor: Color

    /** The table keeps its rows and a balanced split, the colours are
        phase colours, and the queue stays between 0 and the capacity. */
    predicate Valid()
      reads this`colors, this`vehicles, this`capacity, this`currentColor, this`startColor
    {
      && |colors| == 3
      && colors[0].name == "green" && colors[1] == Phase("yellow", 3) && colors[2].name == "red"
      && Balanced(colors[0].seconds, colors[2].seconds)
      && ColorIndex(currentColor) < 3 && ColorIndex(startColor) < 3
      && 0 <= vehicles <= Max0(capacity)
    }

    /** The constructor. The statement meant to set both colours is a
        comma expression that assigns only `start_color`, so the current
        colour keeps its initialiser GREEN. `time_left` has no initialiser
        and is left unconstrained. */
    constructor(columns: int, lines: int, intensityLevel: StlNdn.Status, startColor: Color)
      requires ColorIndex(startColor) < 3
      ensures Valid()
      ensures colors == InitialTable() && this.columns == columns && this.lines == lines
      ensures capacity == columns * lines && intensity == intensityLevel
      ensures this.startColor == startColor && currentColor == GREEN
      ensures vehicles == 0 && fullCycleVehicles == 0 && priority == 0
    {
      colors := InitialTable();
      this.columns := columns;
      this.lines := lines;
      capacity := columns * lines;
      vehicles := 0;
      fullCycleVehicles := 0;
      timeLeft := 0;
      priority := 0;
      intensity := intensityLevel;
      currentColor := GREEN;
      this.startColor := startColor;
    }

    /** `changeTime(isgreen)`. */
    method ChangeTime(isGreen: bool)
      requires Valid()
      modifies this`colors
      ensures Valid()
      ensures var r := Traded(old(colors)[0].seconds, old(colors)[2].seconds, isGreen);
              colors == old(colors)[0 := old(colors)[0].(seconds := r.0)][2 := old(colors)[2].(seconds := r.1)]
    {
      TradedKeepsBalanced(colors[0].seconds, colors[2].seconds, isGreen);
      if colors[0].seconds < MAX_SPLIT && colors[2].seconds > MIN_SPLIT && !isGreen {
        colors := colors[0 := colors[0].(seconds := colors[0].seconds + TRADE_STEP)];
        colors := colors[2 := colors[2].(seconds := colors[2].seconds - TRADE_STEP)];
      } else if colors[2].seconds < MAX_SPLIT && colors[0].seconds > MIN_SPLIT && isGreen {
        colors := colors[2 := colors[2].(seconds := colors[2].seconds + TRADE_STEP)];
        colors := colors[0 := colors[0].(seconds := colors[0].seconds - TRADE_STEP)];
      }
    }

    /** `reviewRequest(otherPriority)`. */
    method ReviewRequest(otherPriority: int)
      requires Valid()
      modifies this`colors
      ensures Valid()
      ensures var r := Reviewed(old(colors)[0].seconds, old(colors)[2].seconds, priority, otherPriority, currentColor);
              colors == old(colors)[0 := old(colors)[0].(seconds := r.0)][2 := old(colors)[2].(seconds := r.1)]
    {
      if priority < otherPriority && currentColor == GREEN {
        ChangeTime(true);
      } else if priority < otherPriority && currentColor == RED {
        ChangeTime(false);
      } else {
        assert colors == colors[0 := colors[0].(seconds := colors[0].seconds)][2 := colors[2].(seconds := colors[2].seconds)];
      }
    }

    /** `generateTraffic()` with the engine yielding `roll`. */
    method GenerateTraffic(roll: nat)
      requires Valid()
      modifies this`vehicles, this`fullCycleVehicles
      ensures Valid()
      ensures Traffic(vehicles, fullCycleVehicles) ==
              Arrival(Traffic(old(vehicles), old(fullCycleVehicles)), Road(capacity, columns, StlNdn.StatusValue(intensity)), roll)
    {
      if Pick(1, 10, roll) < StlNdn.StatusValue(intensity) && vehicles < capacity {
        vehicles := vehicles + 1;
        fullCycleVehicles := fullCycleVehicles + 1;
      }
    }

    /** The body of the countdown loop after `generateTraffic()`, with the
        engine yielding `pass` for the drain; gives the new settle count. A
        RED second also recomputes the priority. */
    method Settle(count: nat, pass: nat, redPriority: int) returns (next: nat)
      requires Valid() && columns >= 0
      modifies this`vehicles, this`fullCycleVehicles, this`priority
      ensures Valid()
      ensures (Traffic(vehicles, fullCycleVehicles), next) ==
              Settled(Traffic(old(vehicles), old(fullCycleVehicles)), count, currentColor, columns, pass)
      ensures priority == if currentColor == RED then redPriority else old(priority)
    {
      next := count;
      if currentColor != RED {
        if currentColor == GREEN && count == 0 {
          fullCycleVehicles := 0;
        }
        if vehicles > 0 && count >= 2 {
          var toPass := Pick(0, Min(vehicles, columns), pass);
          vehicles := vehicles - toPass;
        } else {
          next := count + 1;
        }
      } else {
        next := 0;
        priority := redPriority;
      }
    }

    /** One round of the `while (true)` loop of `start`: the indexed phase
        counted down one second per draw, then the following index.
        `redPriority` stands for what `calculatePriority` (float
        arithmetic) yields on the RED seconds. */
    method RunPhase(index: nat, draws: seq<Draw>, redPriority: int) returns (next: nat)
      requires Valid() && columns >= 0 && index < 3 && |draws| >= colors[index].seconds
      modifies this`currentColor, this`timeLeft, this`vehicles, this`fullCycleVehicles, this`priority
      ensures Valid()
      ensures next == (index + 1) % 3 && currentColor == ColorOfIndex(index) && timeLeft == 0
      ensures Traffic(vehicles, fullCycleVehicles) ==
              PhaseRun(Traffic(old(vehicles), old(fullCycleVehicles)), 0, ColorOfIndex(index),
                       Road(capacity, columns, StlNdn.StatusValue(intensity)), draws[..colors[index].seconds])
      ensures priority == if index == 2 then redPriority else old(priority)
    {
      ghost var start := Traffic(vehicles, fullCycleVehicles);
      ghost var road := Road(capacity, columns, StlNdn.StatusValue(intensity));
      ghost var steps := colors[index].seconds;
      var color := ColorOfIndex(index);
      currentColor := color;
      timeLeft := colors[index].seconds;
      var count: nat := 0;
      var k := 0;
      while timeLeft > 0
        invariant Valid() && 0 <= k <= steps && timeLeft == steps - k
        invariant currentColor == color
        invariant priority == if index == 2 && k > 0 then redPriority else old(priority)
        invariant PhaseRun(start, 0, color, road, draws[..steps]) ==
                  PhaseRun(Traffic(vehicles, fullCycleVehicles), count, color, road, draws[k..steps])
        decreases timeLeft
      {
        ghost var s := Second(Traffic(vehicles, fullCycleVehicles), count, color, road, draws[k]);
        assert draws[k..steps][0] == draws[k] && draws[k..steps][1..] == draws[k + 1..steps];
        GenerateTraffic(draws[k].arrival);
        count := Settle(count, draws[k].pass, redPriority);
        assert Traffic(vehicles, fullCycleVehicles) == s.0 && count == s.1;
        timeLeft := timeLeft - 1;
        k := k + 1;
      }
      assert draws[k..steps] == [];
      next := (index + 1) % 3;
    }
  }
}
