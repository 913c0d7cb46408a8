# TrafficLightNDN — a verified model of its coordination logic

TrafficLightNDN runs simulated traffic lights as services on Named Data
Networking (NDN). A central orchestrator polls every light for its status.
It keeps a fault model (nacks, timeouts, recovery) and arbitrates each
intersection once a second. It then serves each light a command text that
the light's node parses and applies to its phase table.

This project models that logic in Dafny and proves properties of the model.
It covers five parts:

- the orchestrator of `src/Orchestrator.cpp`: the fault model, the RTT
  window and its correction, status parsing, `generateSyncCommand`, the
  watchdog, the priority commands, the green wave and one `cycle` tick;
- the node of `src/SmartTrafficLight.cpp`: `loadConfig`, the command parser
  and interpreter, the phase cycle and the clock correction of `onData`;
- the two older snapshots `SmartTrafficLight.cpp` (the bounded green/red
  trade) and `Orchestrator.cpp` (max-priority command assignment, RTT
  clamp, request routing);
- the records and parsers of `include/Structs.hpp`, `include/Enums.hpp`,
  `include/LogLevel.hpp` and the two free parsers of `src/STLNDN.cpp`;
- cross-component lemmas (module `Protocol`) about what each side makes of
  the other's texts.

Times are integer milliseconds, except the node's phase table and
`time_left`, which the node counts in seconds. The current time is always a
parameter (`now`). Random draws are parameters too: draws by `generateNumber`
(a `Draw` per simulated second) and the priority `calculatePriority` yields.
A `std::map` is a Dafny `map` plus a constant `seq` of its keys in ascending
order, and `Valid()` ties the two together. The older orchestrator's
`unordered_map` is given its iteration order as a parameter. Behaviour of
the code that is easy to misread, and that the model reproduces:

- RTT samples are halved when stored and halved again where they are used.
- The GREEN command the watchdog writes in phase 1 of a tick is erased in
  phase 2 of the same tick.
- The recovery flags of `onData` change before the timestamp and the
  payload are checked.
- The priority cache is built once, before the tick loop.
- The node reads every time command in seconds, while the orchestrator
  writes milliseconds.
- An exception from `std::stoi` or `std::stof` outside the two `try`
  blocks ends the process through `std::terminate`. The model records this
  in a `halted` field of the orchestrator and of the node.

Modules, one per source file: `Wire` (parsing and rendering helpers of the
C++ library), `Enums`, `Logging`, `StlNdn`, `Structs`, `Coordination` (the
pure definitions behind `src/Orchestrator.cpp`), `Orchestration` (its
class), `TrafficNode`, `TrafficV1`, `OrchestratorV1` and `Protocol`.

## Model

| member | source | states |
|---|---|---|
| Wire.TruncDiv | src/Orchestrator.cpp:288 | C++ signed `/`: the quotient rounds toward zero, so it has the sign of the dividend |
| Wire.Max0 | src/Orchestrator.cpp:329 | the clamp `if (x < 0) x = 0`: at least 0 and at least x, and x itself when x is not negative |
| Wire.Min | src/SmartTrafficLight.cpp:72 | `std::min`: at most both arguments and equal to one of them |
| Wire.Max | src/SmartTrafficLight.cpp:272 | `std::max`: at least both arguments and equal to one of them |
| Wire.SplitAll | src/Orchestrator.cpp:212-214 | the pieces between delimiters: at least one piece, and no piece holds the delimiter |
| Wire.Split | src/SmartTrafficLight.cpp:234 | what repeated `std::getline` yields: no piece holds the delimiter, and no pieces come exactly from the empty text |
| Wire.SplitAllJoin | src/Orchestrator.cpp:212-214 | splitting loses nothing: joining the pieces with the delimiter gives back the text |
| Wire.SplitAllNoDelimiter | src/SmartTrafficLight.cpp:234 | a text without the delimiter is one piece |
| Wire.SplitAllPrefix | src/SmartTrafficLight.cpp:234 | a delimiter-free piece followed by the delimiter starts the piece list |
| Wire.SplitLastPiece | src/SmartTrafficLight.cpp:234 | `getline` drops the last piece exactly when it is empty |
| Wire.Tokenize | src/Orchestrator.cpp:211-214 | the tokenizing loop yields exactly the `getline` pieces |
| Wire.StoI | src/SmartTrafficLight.cpp:260 | `std::stoi`: results stay within the 32-bit range; it succeeds exactly when the leading integer exists and fits |
| Wire.StoULL | src/SmartTrafficLight.cpp:200 | `std::stoull`: results are below 2^64 |
| Wire.StoFTruncated | src/Orchestrator.cpp:232 | `std::stof` stored into an `int`: the leading integer; a bare fraction gives 0; no digit means it throws |
| Wire.IntToString | src/Orchestrator.cpp:291 | `std::to_string`: non-empty and made of digits, after a '-' for negative numbers |
| Wire.IntToStringParses | src/Orchestrator.cpp:335 | reading a rendered number gives the number back |
| Wire.StoIRoundTrip | src/Orchestrator.cpp:352 | `std::stoi(std::to_string(n)) == n` for every 32-bit n |
| Wire.IntToStringPlain | src/Orchestrator.cpp:335 | a rendered number holds no ';', ':' or '\|' |
| Wire.FindChar | src/SmartTrafficLight.cpp:235 | `find(c)`: the first position of c, or none exactly when c does not occur |
| Enums.StatusValue | include/Enums.hpp:6 | the Status values lie between 1 and 8 |
| Enums.StatusValuesIncrease | include/Enums.hpp:6 | NONE 1 < LOW 2 < MEDIUM 5 < HIGH 8 |
| Enums.ColorIndex | include/Enums.hpp:8-14 | ordinals below 5; exactly GREEN, YELLOW and RED have an ordinal below 3 |
| Enums.ColorOfIndex | include/Enums.hpp:8-14 | `static_cast<Color>` inverts the ordinal |
| Enums.ColorIndexRoundTrip | include/Enums.hpp:8-14 | ordinal and colour are inverse to each other |
| Enums.ParseColor | include/Enums.hpp:16-22 | the three phase names map to their colours (both directions); never UNKNOWN |
| Enums.ParseColorPhases | include/Enums.hpp:16-22 | "UNKNOWN" and "ALERT" both parse to ALERT; the phase names parse to their colours |
| Enums.ParseIntensity | include/Enums.hpp:24-29 | LOW, MEDIUM and HIGH by name (both directions); every other text gives NONE |
| Logging.LevelValue | include/LogLevel.hpp:5-10 | the level values lie between 0 and 3 |
| Logging.LevelOrder | include/LogLevel.hpp:5-10 | NONE 0, ERROR 1, INFO 2, DEBUG 3 |
| Logging.UpperChar | include/LogLevel.hpp:14 | `::toupper` moves exactly 'a'..'z' to the capitals and returns no lower-case letter |
| Logging.ToUpper | include/LogLevel.hpp:13-14 | the copy has the same length, with each character upper-cased |
| Logging.ParseLogLevel | include/LogLevel.hpp:12-20 | DEBUG, INFO and ERROR exactly when the upper-cased text is that name |
| Logging.ToUpperIdempotent | include/LogLevel.hpp:13-14 | upper-casing twice is upper-casing once |
| Logging.ParseLogLevelIgnoresCase | include/LogLevel.hpp:12-20 | texts equal up to case parse alike |
| Logging.ParseLogLevelLowerCase | include/LogLevel.hpp:12-20 | an example of `ParseLogLevelIgnoresCase`: "debug", "Info" and "error" are recognised |
| StlNdn.StatusValue | SmartTrafficLight.hpp:13 | the intensity values of the `traffic` namespace lie between 1 and 8 |
| StlNdn.ParseColor | src/STLNDN.cpp:234-239 | the three phase names map to their colours (both directions); any other text gives NONE |
| StlNdn.ParseStatus | src/STLNDN.cpp:241-247 | WEAK, MEDIUM and INTENSE by name (both directions); every other text gives NONE |
| StlNdn.UnknownStatusIsNone | src/STLNDN.cpp:242-246 | an unrecognised text parses like "NONE" |
| Structs.DefaultTrafficLightState | include/Structs.hpp:8-15 | the value-initialised record that `operator[]` inserts: an empty name, state "RED", priority 0, timeout counter 0, empty command; neither UNKNOWN nor ALERT |
| Structs.UnknownAndAlertExclusive | include/Structs.hpp:17-23 | no record is both UNKNOWN and ALERT; an active record is neither |
| Structs.ContainsIsMembership | include/Structs.hpp:30-32 | `contains(n)` holds exactly when n is at some position of the member list |
| Coordination.PushSample | src/Orchestrator.cpp:507-511 | the window never exceeds its size and ends with the new sample; the oldest entry is dropped only when the window was full |
| Coordination.AverageRttWithinSamples | src/Orchestrator.cpp:526-530 | the integer mean of non-negative samples lies between their least and greatest values |
| Coordination.FirstActive | src/Orchestrator.cpp:303-309 | the first GREEN or YELLOW member in member order; none exactly when no member is active |
| Coordination.SyncDecision | src/Orchestrator.cpp:285-338 | `generateSyncCommand` changes only the requester's command and end time |
| Coordination.SyncNormalizationFirst | src/Orchestrator.cpp:290-294 | normalization wins: RED for the recovery time, with that end time |
| Coordination.SyncCompromisedAlert | src/Orchestrator.cpp:295-298 | otherwise a compromised intersection sends ALERT and keeps the end time |
| Coordination.SyncQuietCases | src/Orchestrator.cpp:311-317 | without an active member, and for the active member itself, nothing is written |
| Coordination.SyncFollowerAlignment | src/Orchestrator.cpp:321-337 | a follower is told to hold RED for the active member's remaining time (plus yellow when GREEN) less the one-way latency, clamped at 0, exactly when it is more than 1000 ms off, and is left as it was otherwise; its end time then matches, and a follower without a command gets exactly its `Aligned` record for one visit |
| Coordination.SyncIdempotent | src/Orchestrator.cpp:333-337 | deciding again after the write changes nothing: the dead-band stops a second realignment |
| Coordination.FirstActiveStable | src/Orchestrator.cpp:303-309 | changing commands and end times never changes who is active |
| Coordination.NextAllRedCount | src/Orchestrator.cpp:104-112 | the counter goes up on an all-red tick, resets at 3 and resets on any active member |
| Coordination.WatchdogThirdTick | src/Orchestrator.cpp:78-112 | from 0 the counter stays within 0..2 and fires on the third consecutive all-red tick |
| Coordination.ForcedStart | src/Orchestrator.cpp:348-353 | the leader gets GREEN for the base time less the one-way latency, clamped at 0, and an end time of now plus the base time; nothing else changes |
| Coordination.Entries | src/Orchestrator.cpp:277-279 | one (name, priority) pair per member, in member order |
| Coordination.InsertDescending | src/Orchestrator.cpp:280-282 | inserting keeps the list descending and adds exactly the entry to the multiset |
| Coordination.SortByPriority | src/Orchestrator.cpp:280-282 | the cache is a permutation of the entries, descending by priority |
| Coordination.CacheHeadIsMaximal | src/Orchestrator.cpp:341-344 | the head of the cache is a member whose priority is at least every member's |
| Coordination.WaveApplied | src/Orchestrator.cpp:552-571 | the wave keeps the key set of the light table |
| Coordination.WaveUntouched | src/Orchestrator.cpp:552-571 | the wave writes only members other than the base, and only the ones it has visited |
| Coordination.WaveOffsetAt | src/Orchestrator.cpp:561-570 | with distinct members, the member at position j ends at base end + (j − b) × travel, with the GREEN command |
| Coordination.WaveOffsets | src/Orchestrator.cpp:552-571 | every visited member other than the base carries its offset |
| Coordination.WaveTwoPositionsLater | src/Orchestrator.cpp:561-570 | an example of `WaveOffsets`: at 5000 ms between neighbours, the member two positions after the base ends 10000 ms after it |
| Coordination.FirstContaining | src/Orchestrator.cpp:516-524 | `findIntersectionFor`: the first intersection in key order that lists the light; none exactly when no intersection lists it |
| Coordination.FirstContainingFlags | src/Orchestrator.cpp:516-524 | the lookup reads only the member lists, so changing flags keeps its answer |
| Coordination.UnknownPolledOncePerFive | src/Orchestrator.cpp:472-484 | an UNKNOWN light is polled in exactly one of any five consecutive rounds |
| Coordination.WatchdogApplied | src/Orchestrator.cpp:104-109 | phase 1 changes only commands and end times and keeps the key set |
| Coordination.SyncStep | src/Orchestrator.cpp:117-121 | clearing a member's command and deciding again gives its `AfterPhaseTwo` outcome for one more visit of its name, whichever members were visited before |
| Coordination.SyncStepFollower | src/Orchestrator.cpp:321-337 | a follower visited k times, its command cleared, is `Aligned` for k + 1 visits against the active member's remaining time from before phase 2 |
| Coordination.KeptEndTime | src/Orchestrator.cpp:295-317 | outside the follower case, a member's phase-2 outcome keeps the end time it had before phase 2 |
| Coordination.AlignedCases | src/Orchestrator.cpp:321-337 | an aligned follower differs only in its schedule and ends within 1000 ms of the active member; it carries a command exactly when its name is listed once and it was more than 1000 ms off; that command is the hold-red one for the remaining time less the one-way latency, with the end time moved to match; inside the dead-band the end time is kept |
| Coordination.AfterPhaseTwo | src/Orchestrator.cpp:117-121 | a member's record after phase 2 differs from its record before phase 2 only in its command and end time |
| Coordination.AfterPhaseTwoLocal | src/Orchestrator.cpp:285-337 | phase 2's outcome for a member depends on the records of the intersection's members only |
| Coordination.MembersTickedLocal | src/Orchestrator.cpp:90-121 | one intersection's tick outcome depends on the records of its members only, before and after |
| Coordination.TickAppliedIntro | src/Orchestrator.cpp:95-121 | phase 1 followed by phase 2 make up one intersection's tick |
| Coordination.TickOutcome | src/Orchestrator.cpp:95-121 | after a tick: normalization gives every member the recovery command; otherwise compromise gives every member ALERT; otherwise an all-red start leaves every command empty, the forced GREEN included; only commands and end times change |
| Coordination.TickLeaders | src/Orchestrator.cpp:104-121 | the forced leader ends `greenBaseTimeMs` after now; with an active member, that member only loses its command, and every other member is `Aligned` for as many times as it is listed, ending within 1000 ms of it |
| Coordination.PriorityCommandCases | src/Orchestrator.cpp:242-252 | UNKNOWN gives ALERT; ALERT gives GREEN at the default time; a healthy light of low priority gets the default time; increase (decrease) exactly for GREEN (RED) lights at or above the mean; YELLOW gets nothing |
| Coordination.MaximalIsAtLeastAverage | src/Orchestrator.cpp:261-269 | a priority at least everyone's is at least the mean |
| Coordination.Recovered | src/Orchestrator.cpp:176-195 | the recovery check keeps every intersection's name and members |
| Coordination.RecoveryCondition | src/Orchestrator.cpp:176-195 | recovery happens exactly when the light was UNKNOWN, its intersection is compromised and no other member is UNKNOWN; it touches only that intersection, and every member's next decision is the recovery command |
| Coordination.CommandIndex | src/Orchestrator.cpp:368-379 | the first "command" component that has a successor, with none before it |
| Coordination.PathOf | src/Orchestrator.cpp:372-376 | the URI of the components starts with '/' |
| Coordination.CommandRouteReachesLight | src/Orchestrator.cpp:368-379 | `<prefix>/command/<light>` routes to the light's components when the prefix has no "command" part |
| Coordination.FirstWaveWith | src/Orchestrator.cpp:536-542 | the first wave that lists the base; none exactly when no wave lists it |
| Coordination.IndexOf | src/Orchestrator.cpp:537-549 | `std::find`: a position holding x, with no x before it |
| Orchestration.RepliedLight | src/Orchestrator.cpp:224-233 | exactly the state and the end time now + max(0, remaining − RTT) are written, and when the priority reads, the priority and a zero timeout counter too; the end time is at least now and at least now + remaining − RTT |
| Orchestration.ParseStatus | src/Orchestrator.cpp:207-232 | the tokenizing loop and the conversions give `ReadStatus` of the content: too few pieces, a remaining time `std::stoi` rejects, or the three fields |
| Orchestration.CollectEntries | src/Orchestrator.cpp:277-279 | the collecting loop yields `Entries` of the members |
| Orchestration.ForcedGreen | src/Orchestrator.cpp:340-353 | the body of `forceCycleStart` on the light table, an empty list included |
| Orchestration.ClearCommands | src/Orchestrator.cpp:22-25 | every command is cleared and nothing else changes |
| Orchestration.SyncedRecord | src/Orchestrator.cpp:285-338 | the method yields `SyncDecision` |
| Orchestration.FindActive | src/Orchestrator.cpp:303-309 | the scan yields `FirstActive` |
| Orchestration.ScanAllRed | src/Orchestrator.cpp:95-102 | the scan is true exactly when no member is GREEN or YELLOW |
| Orchestration.ScanNoOtherUnknown | src/Orchestrator.cpp:181-187 | the scan is true exactly when no other member is UNKNOWN |
| Orchestration.ApplyWave | src/Orchestrator.cpp:552-571 | the loop yields `WaveApplied` over every member |
| Orchestration.RescheduledStep | src/Orchestrator.cpp:90-133 | one intersection's tick keeps the whole table changed only in commands and end times |
| Orchestration.NormalizedAll | src/Orchestrator.cpp:128-132 | after the loop over every intersection, none is still waiting for normalization |
| Orchestration.Orchestrator.constructor | src/Orchestrator.cpp:19-27 | `loadTopology` on a fresh orchestrator, for a topology whose members are configured lights: the given lights with every command empty, the given intersections and waves, all windows and counters empty, not halted |
| Orchestration.Orchestrator.SendInterest | src/Orchestrator.cpp:454-458 | the sending time is recorded under the Interest's name |
| Orchestration.Orchestrator.ConsumerRound | src/Orchestrator.cpp:465-485 | the round counter advances; exactly the lights the polling policy selects get a fresh timestamp |
| Orchestration.Orchestrator.RecordRtt | src/Orchestrator.cpp:496-514 | half the elapsed time is appended to the window and returned; with no timestamp, 0 and no change |
| Orchestration.Orchestrator.FindIntersectionFor | src/Orchestrator.cpp:516-524 | the loop yields `FirstContaining` in key order |
| Orchestration.Orchestrator.CompromiseIntersectionOf | src/Orchestrator.cpp:412-416 | only the light's intersection, if any, becomes compromised |
| Orchestration.Orchestrator.OnNack | src/Orchestrator.cpp:401-419 | a known light becomes UNKNOWN and its intersection compromised; an unknown name changes nothing |
| Orchestration.Orchestrator.OnTimeout | src/Orchestrator.cpp:422-443 | the timeout counter goes up; from two timeouts on the light is UNKNOWN and its intersection compromised; below two nothing else changes |
| Orchestration.Orchestrator.RecoverIfHealthy | src/Orchestrator.cpp:176-195 | the intersections become `Recovered` |
| Orchestration.Orchestrator.OnData | src/Orchestrator.cpp:165-234 | an unknown name changes nothing; otherwise the recovery check runs, then the reply is applied, and the orchestrator halts exactly when the reply to a recorded Interest throws in `std::stoi` or `std::stof` |
| Orchestration.Orchestrator.ApplyStatusReply | src/Orchestrator.cpp:197-234 | no timestamp, or fewer than three pieces, changes nothing; a remaining time `std::stoi` rejects halts with nothing written; otherwise the timestamp is consumed, the sample recorded and the record becomes `RepliedLight`, halting after the end time when `std::stof` rejects the priority |
| Orchestration.Orchestrator.AveragePriority | src/Orchestrator.cpp:261-269 | the sum of priorities in key order and the number of lights |
| Orchestration.Orchestrator.AssembleCommandFor | src/Orchestrator.cpp:236-259 | the priority command is appended; the time is recorded only for a non-empty one |
| Orchestration.Orchestrator.UpdatePriorityList | src/Orchestrator.cpp:271-283 | a known intersection's cache becomes its sorted entries; an unknown name changes nothing |
| Orchestration.Orchestrator.PrepareCycle | src/Orchestrator.cpp:80-82 | every intersection's cache holds its sorted entries |
| Orchestration.Orchestrator.GenerateSyncCommand | src/Orchestrator.cpp:285-338 | the requester's record becomes the decision taken with the halved RTT average |
| Orchestration.Orchestrator.ForceCycleStart | src/Orchestrator.cpp:340-356 | the head of the cache gets the forced start; an empty cache does nothing |
| Orchestration.Orchestrator.RunWatchdog | src/Orchestrator.cpp:95-112 | phase 1: the counter is updated and the forced start applied exactly when the watchdog fires |
| Orchestration.Orchestrator.SyncMembers | src/Orchestrator.cpp:117-121 | phase 2: every member ends as its `AfterPhaseTwo` outcome from the table before the phase, for as many visits as the member list names it; non-members are untouched |
| Orchestration.Orchestrator.TickIntersection | src/Orchestrator.cpp:90-133 | the intersection's normalization flag is cleared, its all-red counter advances by `NextAllRedCount`, and the lights are `TickApplied`: non-members untouched, each member the watchdog's write followed by its phase-2 outcome |
| Orchestration.Orchestrator.Tick | src/Orchestrator.cpp:84-134 | one tick over every intersection in key order: normalization is over everywhere, only commands and end times change, and every intersection that shares no member with another ends `TickedAlone`: its members as its own tick makes them from the lights before the tick, its counter advanced |
| Orchestration.Orchestrator.TriggerGreenWave | src/Orchestrator.cpp:532-575 | the first wave that lists the base gets the offsets; without such a wave nothing changes |
| Orchestration.Orchestrator.OnInterest | src/Orchestrator.cpp:359-399 | a known light is answered with its command; an unknown one is dropped; no "command" component means an invalid suffix |
| TrafficNode.PhaseTableShape | src/SmartTrafficLight.cpp:29-33 | three rows named after their colours; green + yellow lasts as long as red; the three cover the cycle to within one second |
| TrafficNode.WithPhaseTime | src/SmartTrafficLight.cpp:277-282 | only the row of the colour changes, and only when the table has that row |
| TrafficNode.LoadedTableColours | src/SmartTrafficLight.cpp:284-290 | on a loaded table ALERT and UNKNOWN change no row and default to 10 s; each phase colour gets its configured time |
| TrafficNode.CommandOf | src/SmartTrafficLight.cpp:235-241 | a segment without ':' gives nothing; otherwise the type is the text before the first ':' and the value everything after it |
| TrafficNode.CommandsOfAppend | src/SmartTrafficLight.cpp:234-243 | the commands of joined segment lists are the joined commands, in order |
| TrafficNode.CommandsOfOne | src/SmartTrafficLight.cpp:235-242 | one segment gives its command, or nothing without ':' |
| TrafficNode.SplitRendered | src/SmartTrafficLight.cpp:234 | a rendered command list splits into its segments |
| TrafficNode.CommandsOfSegments | src/SmartTrafficLight.cpp:234-243 | the segments of carried commands parse back to those commands |
| TrafficNode.CommandOfPiece | src/SmartTrafficLight.cpp:235-241 | a carried command's segment reads back as that command |
| TrafficNode.ParseRendered | src/SmartTrafficLight.cpp:229-246 | parsing a `;`-joined command list gives back the list |
| TrafficNode.SplitRenderedPieces | src/SmartTrafficLight.cpp:234 | `getline` yields an empty piece, then the segments |
| TrafficNode.SplitKeepsLast | src/SmartTrafficLight.cpp:234 | a last piece that is not empty is kept |
| TrafficNode.SplitRenderedAll | src/SmartTrafficLight.cpp:234 | all pieces of a rendered list: an empty piece before the segments |
| TrafficNode.DoNothingParsesEmpty | src/SmartTrafficLight.cpp:219-220 | "do_nothing" parses to no command, so the early return changes nothing |
| TrafficNode.NoSeparatorParsesEmpty | src/SmartTrafficLight.cpp:235-237 | a text without ':' parses to no command |
| TrafficNode.ParseCommands | src/SmartTrafficLight.cpp:229-246 | the loop yields `ParsedCommands` |
| TrafficNode.CommandEffects | src/SmartTrafficLight.cpp:248-275 | `set_state` changes only the colour, mapped like `parseColor`; time commands keep the colour and write the new time into its row; `DEFAULT` takes the snapshot's time; decrease never goes below 1; other types change nothing; failure exactly when the number does not parse |
| TrafficNode.Pick | src/SmartTrafficLight.cpp:97-101 | a draw lies within the range |
| TrafficNode.PickReaches | src/SmartTrafficLight.cpp:97-101 | every value of the range is some draw |
| TrafficNode.PhaseRunBounds | src/SmartTrafficLight.cpp:62-84 | the queue stays between 0 and the larger of its start and the capacity; it grows by at most 1 and shrinks by at most `columns` per second; in RED it never shrinks |
| TrafficNode.SecondDrains | src/SmartTrafficLight.cpp:70-75 | one second drains at most `min(vehicles, columns)` |
| TrafficNode.SecondBounds | src/SmartTrafficLight.cpp:64-81 | one second's share of the phase bounds |
| TrafficNode.Signed64 | src/SmartTrafficLight.cpp:210 | `static_cast<int64_t>`: within the 64-bit signed range, equal to x or x − 2^64 |
| TrafficNode.CorrectedCentralTime | src/SmartTrafficLight.cpp:206 | `uint64_t` arithmetic: below 2^64 |
| TrafficNode.ProjectedEnd | src/SmartTrafficLight.cpp:209 | `uint64_t` arithmetic: below 2^64 |
| TrafficNode.ClockAdjustedCases | src/SmartTrafficLight.cpp:208-217 | once set, the stamp stays; a drift within 1000 ms changes nothing; a larger drift adds its whole seconds, toward its sign; the first reading records the projected end |
| TrafficNode.ClockAdjustmentWidens | src/SmartTrafficLight.cpp:208-214 | the adjustment has the sign of the drift, so re-projecting with the same reading widens the drift by the added thousands |
| TrafficNode.Node.constructor | include/SmartTrafficLight.hpp:61-73 | the member defaults: UNKNOWN colours, zero counters and times, empty tables, not halted; `intensity` has no initialiser in the header, so NONE is a chosen value |
| TrafficNode.Node.LoadConfig | src/SmartTrafficLight.cpp:16-35 | name, start colour parsed from the state, road figures, capacity `columns × lines`, the phase table and its snapshot |
| TrafficNode.Node.UpdateColorVectorTime | src/SmartTrafficLight.cpp:277-282 | the table becomes `WithPhaseTime` of the colour and the time |
| TrafficNode.Node.ApplyCommand | src/SmartTrafficLight.cpp:248-275 | the controls become `CommandApplied`, or stay as they were where `std::stoi` throws, and exactly then the node halts |
| TrafficNode.Node.ApplyCommands | src/SmartTrafficLight.cpp:223-225 | the controls become `CommandsRun` of the commands, and the node halts exactly when `CommandsHalt` holds |
| TrafficNode.CommandsRunAppend | src/SmartTrafficLight.cpp:223-225 | running a + b: when a runs through, b starts from its outcome and the whole halts exactly when b does; when a halts, b is never reached and the whole halts |
| TrafficNode.Node.GenerateTraffic | src/SmartTrafficLight.cpp:103-112 | one arrival below the intensity, unless the queue is full |
| TrafficNode.Node.Settle | src/SmartTrafficLight.cpp:66-81 | the drain and settle count of one second |
| TrafficNode.Node.Cycle | src/SmartTrafficLight.cpp:44-88 | in ALERT one arrival, with index and remaining time kept; otherwise the indexed phase is counted down through the draws and the next index is `(index + 1) % 3` |
| TrafficNode.Node.SendInterest | src/SmartTrafficLight.cpp:165-169 | the sending time is recorded under the request name |
| TrafficNode.Node.OnClock | src/SmartTrafficLight.cpp:197-217 | a reading `std::stoull` rejects changes nothing; otherwise the corrected reading adjusts the clock |
| TrafficNode.Node.OnCommand | src/SmartTrafficLight.cpp:218-226 | "do_nothing" changes nothing; anything else is parsed and run, halting exactly when `CommandsHalt` holds |
| TrafficNode.Node.OnData | src/SmartTrafficLight.cpp:177-227 | no timestamp means nothing changes; otherwise the timestamp is consumed and the clock branch (checked first) or the command branch runs; only a throwing command halts the node |
| TrafficV1.TradedCases | SmartTrafficLight.cpp:94-110 | each guard of `changeTime` moves 6 s in its direction exactly when it holds; otherwise nothing changes; green + red is kept |
| TrafficV1.TradedKeepsBalanced | SmartTrafficLight.cpp:94-110 | a balanced split (sum 48, each within 12..36) stays balanced |
| TrafficV1.InitialBalanced | SmartTrafficLight.cpp:11-13 | the constructor's 24/24 split is balanced |
| TrafficV1.ReviewedCases | SmartTrafficLight.cpp:59-65 | only a lower priority acts: GREEN gives up green, RED gains green, YELLOW changes nothing; the split stays balanced |
| TrafficV1.Light.constructor | SmartTrafficLight.cpp:8-18 | the 24/3/24 table and the road figures; the comma expression leaves the current colour GREEN |
| TrafficV1.Light.ChangeTime | SmartTrafficLight.cpp:94-110 | the green and red rows become `Traded` of the request |
| TrafficV1.Light.ReviewRequest | SmartTrafficLight.cpp:59-65 | the green and red rows become `Reviewed` of the priorities and colour |
| TrafficV1.Light.GenerateTraffic | SmartTrafficLight.cpp:79-88 | one arrival below the intensity, unless the queue is full |
| TrafficV1.Light.Settle | SmartTrafficLight.cpp:31-50 | the drain of one second; a RED second recomputes the priority |
| TrafficV1.Light.RunPhase | SmartTrafficLight.cpp:20-57 | one round of `start`: the phase counted down through the draws and the next index `(index + 1) % 3`, the queue within 0..capacity |
| OrchestratorV1.CorrectedRemaining | Orchestrator.cpp:69-72 | the remaining time less half the round trip, and never below 0 |
| OrchestratorV1.ScanFirstMax | Orchestrator.cpp:92-99 | the scan finds the first light, in iteration order, of the strictly greatest priority; with every priority at most −1 it keeps −1 and the empty name |
| OrchestratorV1.ScanPriorities | Orchestrator.cpp:92-99 | the running-maximum loop yields `Scan` |
| OrchestratorV1.WithCommands | Orchestrator.cpp:104-111 | the second loop keeps the key set |
| OrchestratorV1.ReviewOutcome | Orchestrator.cpp:104-111 | after a review exactly the chosen light says "increase_time" and every other light "do_nothing"; nothing else changes |
| OrchestratorV1.AssignCommands | Orchestrator.cpp:104-111 | the loop yields `WithCommands` |
| OrchestratorV1.Orchestrator.SendInterest | Orchestrator.cpp:177-181 | the sending time is recorded under the name |
| OrchestratorV1.Orchestrator.ReviewPriorities | Orchestrator.cpp:90-112 | the table becomes `WithCommands` of the scan's choice |
| OrchestratorV1.Orchestrator.OnData | Orchestrator.cpp:44-88 | no timestamp means nothing changes; otherwise the timestamp is consumed; a body that does not parse changes no light; otherwise the named light (blank when new) gets the state and corrected end time, a priority `get<int>` rejects stops before the review, and the review runs |
| OrchestratorV1.Orchestrator.OnInterest | Orchestrator.cpp:114-149 | "clock" is answered with the clock reading, which is recorded modulo 2^64; `command/<name>` is answered with a known light's command; anything else is dropped |
| Protocol.ParsesToOne | src/SmartTrafficLight.cpp:229-246 | a one-segment text parses to that command |
| Protocol.ParsesToTwo | src/SmartTrafficLight.cpp:229-246 | a two-segment text parses to those two commands, in order |
| Protocol.SegmentParses | src/SmartTrafficLight.cpp:229-246 | one `;type:value` segment parses to its command |
| Protocol.PairParses | src/SmartTrafficLight.cpp:229-246 | two segments parse to their two commands |
| Protocol.NumberNotDefault | src/SmartTrafficLight.cpp:257 | a rendered number is never the word DEFAULT |
| Protocol.HoldRedParses | src/Orchestrator.cpp:335 | the hold-red text reads as `set_state:RED` and `set_current_time:<ms>` |
| Protocol.HoldRedEffect | src/SmartTrafficLight.cpp:248-275 | the node has no `set_current_time`: hold-red and recovery texts only turn the light RED, and never halt the node |
| Protocol.ForcedGreenParses | src/Orchestrator.cpp:352 | the forced-green text reads as `set_state:GREEN` and `set_time:<ms>` |
| Protocol.ForcedGreenEffect | src/SmartTrafficLight.cpp:255-264 | the node holds GREEN for as many seconds as the orchestrator meant milliseconds; the node halts exactly when the number is out of the 32-bit range, with only the colour changed |
| Protocol.AlertEffect | src/Orchestrator.cpp:296 | the alert text puts the light in ALERT and changes nothing else, and the node does not halt |
| Protocol.DefaultTimeEffect | src/Orchestrator.cpp:243 | `;set_time:DEFAULT` restores the current colour's snapshot time, and the node does not halt |
| Protocol.ReleaseEffect | src/Orchestrator.cpp:245 | the release text turns the light GREEN at the snapshot's green time, and the node does not halt |
| Protocol.IncreaseEffect | src/Orchestrator.cpp:249 | `;increase_time:5000` adds 5000 seconds at the node, and the node does not halt |
| Protocol.DecreaseEffect | src/Orchestrator.cpp:251 | `;decrease_time:3000` removes 3000 seconds at the node, never going below 1, and the node does not halt |
| Protocol.PriorityCommandEffect | src/Orchestrator.cpp:236-259 | what each priority command does at the node, case by case (milliseconds read as seconds), and the node does not halt |
| Protocol.ReviewCommandsInert | Orchestrator.cpp:104-111 | "increase_time" and "do_nothing" hold no ':', so the current node finds no command in the older review |
| Protocol.ClockRoundTrip | Orchestrator.cpp:139 | the older orchestrator's clock text, read by `std::stoull`, gives back every 64-bit reading |
| Protocol.StatusRoundTrip | src/Orchestrator.cpp:207-232 | `state\|remaining\|priority` reads back as its three fields |
| Protocol.BarePriorityUnread | src/SmartTrafficLight.cpp:147-150 | the node's reply, a bare priority with no '\|', reads as too few pieces: the orchestrator never applies it and does not halt on it |

## Left out

- NDN transport is not modelled: faces, key chains, validators, schedulers, `expressInterest`, `put`, `produce`, `produceCommand`, interest creation and producer registration. Replies arrive as parameters, and answers are return values.
- Threads, the mutex, `sleep_for` and the cycle loop's timing are not modelled. One tick is one sequential method (`Orchestration.Orchestrator.Tick`), and one `cycle(index)` call is one method (`TrafficNode.Node.Cycle`).
- `runConsumer` of the older `Orchestrator.cpp` is left out. It holds `mutex_` while it calls `sendInterest`, which locks the same mutex again, so the round never completes.
- The node's own `runConsumer` and `onInterest` are not modelled as methods. Each sends or answers without touching the modelled state. What their texts meet at the orchestrator is stated in `Protocol.BarePriorityUnread`.
- Random numbers (`generateNumber`, mt19937) are draw parameters. `Pick` maps a draw onto the range.
- Floating point is not modelled. `calculatePriority` is a parameter of `TrafficV1.Light.Settle` and `RunPhase`. `getAveragePrioritySTL` is kept as a sum and a count (`AtLeastAverage` compares exactly). `std::stof` reads only plain decimals: no exponent, inf, nan or hex.
- JSON parsing in the older `onData` (nlohmann) is not modelled. The body arrives as an `Option<Reply>`. A parse or type failure of `state` or `remaining` is `None`, and a `priority` that `get<int>` rejects is `Malformed`.
- YAML configuration loading (`src/YamlParser.cpp`) is not part of this model. The topology arrives in `Orchestration.Orchestrator.constructor`.
- `Orchestration.Orchestrator.constructor`: it requires every intersection member and every green-wave member to be a configured light, and the model keeps the light table's keys fixed. The loader copies the member lists unchecked (src/YamlParser.cpp:47-54). `updatePriorityList` then reads an unconfigured member with `operator[]`, which inserts a default record (`Structs.DefaultTrafficLightState`) and adds a key (src/Orchestrator.cpp:278). `triggerGreenWave` reads a wave member with `at`, which throws for an unconfigured one (src/Orchestrator.cpp:557). The model covers neither.
- `Orchestration.Orchestrator.constructor` takes the green waves as a parameter. `main/mainOrchestrator.cpp:16-20` passes the loader's waves to a four-argument `loadTopology`, but the shown `loadTopology` (src/Orchestrator.cpp:19-27, include/Orchestrator.hpp:32-33) takes two arguments and never assigns `m_greenWaves`, which `triggerGreenWave` reads (src/Orchestrator.cpp:536). The model stores the waves it is given.
- `interest.getName().at(-2)` in the older `onData` throws on a one-component name. The light name is a parameter instead.
- `loadTopology` of the older `Orchestrator.cpp` is left out. Its mock records have six initialisers that do not match the fields of its struct.
- 32-bit overflow of the `int` fields (`time_left`, priorities, end-time arithmetic) is not modelled, and neither is the signed 64-bit overflow of the difference in the node's `onData` (src/SmartTrafficLight.cpp:210), which is undefined behaviour. Integers are unbounded, except the `uint64_t` clock arithmetic and `std::stoi`'s range, which are written out.
- The node's `onNack`, `onTimeout` and `onRegisterFailed` only log, and all `setup`/`run` functions only wire I/O.
- `Protocol.HoldRedEffect`: this describes the code as written. The node ignores `set_current_time`, the text that `generateSyncCommand` and normalization send.
- `Protocol.IncreaseEffect`, `Protocol.DecreaseEffect`, `Protocol.ForcedGreenEffect`: the node reads these values as seconds, but the orchestrator writes milliseconds. The model keeps both units as written.
- `Protocol.BarePriorityUnread`: the node answers a status request with a bare priority. `src/Orchestrator.cpp` expects `STATE|remaining|priority`, so no such reply is ever applied.
- The node asks for `<central>/command` with nothing after "command". `src/Orchestrator.cpp` only routes a "command" component that has a successor, so that request gets an invalid-suffix answer (`Coordination.CommandIndex`).
- `Orchestration.Orchestrator.Tick`: a light that several intersections list is stated only to keep everything but its command and end time. The exact outcome is stated for intersections that share no member with another.
- `TrafficNode.Node.Cycle`: outside ALERT it requires an index inside the phase table. A configured state that is no phase colour gives `start_color` ALERT, and `run` starts `cycle` with index 3 (src/SmartTrafficLight.cpp:38). A later `set_state` to a phase colour then makes `cycle` read `colors_vector[3]` out of bounds (line 56). That undefined read is not modelled.
- Once `halted` is set, the model's operations still run. Nothing is promised for them, since the process they would belong to has ended.
- `Coordination.SortByPriority`: ties are put in one admissible order. `std::sort` leaves their order open, so this is stated as a permutation that is sorted descending.
