# Trip planner core, modelled in Dafny

The program is a browser-based trip planner. The user selects cities, picks a velocity window and a time shift, and presses solve. This project models its integer and sequence logic.

**The solve pipeline** (`src/solver.ts`):
- A distance matrix and a timezone-offset matrix are built over the selected cities.
- The offset matrix is shifted into a matrix of leg durations, folding negative values once by adding a day.
- A speed matrix is derived from distance and duration.
- A sparse graph of the city pairs whose speed lies in the window is built, each edge with a cost.
- An external constraint solver picks edges, and each solution it reports is walked from the first city into a route table.
- The route table prints each leg's duration as `"Hhrs Mmins"`, parses those strings back, and prints their total.

**The selection list and search box** (`src/main.ts`):
- Cities are added without duplicates (by name and country code) and removed by first occurrence.
- Search results are capped at ten.
- The arrow keys move a wrapping cursor over the results.
- Country codes become flag emoji, through a cache.
- Three preset buttons set the velocity window.

**The clock widget** (`src/clock.ts`):
- A 24-hour time input sets a 12-hour hour plus AM/PM.
- A button toggles AM/PM.
- The display writes `HH:MM` and turns the two hands.

## Modules

- `Base`: `Option` (JavaScript's `undefined`/`NaN`) and `Result` (an operation that throws).
- `JsMath`: JavaScript's `%` (truncating) and `Math.round`.
- `JsText`: number-to-string, `parseInt`, `trim`, `padStart`, `split` and `includes`, over `seq<char>`.
- `Cities`: the city record.
- `Matrices`: the distance, time, duration and speed matrices.
- `ModelBuilder`: `createModelData`, written as a method with the source's two nested loops.
- `Route`: the route walk of `parseSolution`, the duration strings, and the total computed in `generateRouteHtml`.
- `Pipeline`: the solve button end to end.
- `Selection`, `Search`, `Flags`, `Presets`: the pieces of `src/main.ts`.
- `Clock`: `src/clock.ts`.

Outside dependencies are parameters:
- the geodesic distance `geo`;
- the timezone offset `offsetOf`;
- the fuzzy search index;
- the solver's run, a `SolverRun`: either the 0/1 edge selections it reported plus its final status, or the error message it raised.

Where the code's behaviour is surprising, the model follows the code:
- A duration is folded only once: a negative shifted offset gets one day added. It is not reduced modulo a day, so values of a day or more stay as they are, and values below minus one day stay negative.
- The route has at most one leg fewer than the selected cities. While the selection stays unchanged during the solve, no closing leg back to the start is added.
- Leg durations are printed as `"Hhrs"` or `"Hhrs Mmins"`, not as clock times.
- The time shift comes from a numeric input field, not from the two clocks.

## Model

| member | source | states |
|---|---|---|
| Matrices.DistanceMatrix | src/solver.ts:8-14 | square over the cities, zero on the diagonal, the geodesic between distinct cities elsewhere |
| Matrices.DistanceMatrixSymmetric | src/solver.ts:8-14 | a symmetric non-negative geodesic gives a symmetric non-negative matrix |
| Matrices.TimeMatrix | src/solver.ts:16-20 | square, zero diagonal, antisymmetric, and additive along any three cities (offsets read at one instant) |
| Matrices.DurationEntry | src/solver.ts:24-27 | shifted value when non-negative, else one day more; non-negative iff shift+value >= -1440; at least a day iff shift+value is; agrees with the modulo-a-day value only on [-1440, 1440) |
| Matrices.DurationMatrix | src/solver.ts:22-29 | same shape as the time matrix, every entry the duration entry of its offset |
| Matrices.SpeedEntry | src/solver.ts:33-37 | zero on the diagonal and for a zero duration, else the rounded km/h; non-negative over a positive duration; a positive speed implies a positive duration |
| Matrices.SpeedMatrix | src/solver.ts:31-39 | same shape as the distance matrix, every entry its speed entry |
| ModelBuilder.CreateModelData | src/solver.ts:49-71 | n is the city count, num_edges equals the lengths of E and c, 1-indexed edges with distinct ends; every edge in the window with its cost; every in-window pair present; strictly row-major order |
| ModelBuilder.ScanRow | src/solver.ts:60-67 | one row of the scan keeps the edge list sound, complete and sorted up to the next row |
| ModelBuilder.Push | src/solver.ts:63-66 | appending the in-window pair at the loop position keeps the loop state one position further |
| Route.FirstSelected | src/solver.ts:137-143 | the first edge from the given position on whose source is the current city and whose x is 1, or none when no such edge exists |
| Route.Walk | src/solver.ts:136-163 | at most the step bound; starts at the given city; each hop takes the first selected edge and leaves where the previous arrived; stops early only when no selected edge leaves |
| Route.Reconstruct | src/solver.ts:133-163 | at most n-1 hops, starting at city 0, chained, each by first selected edge; fewer only when the last city has no selected edge |
| Route.ParseSolution | src/solver.ts:128-167 | one leg per hop of the reconstructed walk, with the hop's city names, printed cost and speed |
| Route.LegsChain | src/solver.ts:133-163 | at most one leg fewer than the cities, the first from city 0, each leg's start the previous leg's end |
| Route.FormatDuration | src/solver.ts:147-153 | at least four characters; starts with a digit for non-negative minutes and with '-' for negative ones; ends in "hrs" exactly when the JavaScript remainder by 60 is not positive |
| Route.ParseDuration | src/solver.ts:97-105 | NaN exactly when one space-separated piece is NaN; a string without spaces reads as its single piece |
| Route.DurationRoundTrip | src/solver.ts:97-105 | for every m >= 0 the duration string built from m parses back to exactly m |
| Route.SplitFormatted | src/solver.ts:147-153 | the duration string splits at spaces into the hours piece and, only when the remainder is positive, the minutes piece |
| Route.HoursPieceReads | src/solver.ts:100-101 | the hours piece reads back as the whole hours, in minutes |
| Route.MinutesPieceReads | src/solver.ts:102-103 | the minutes piece reads back as the remaining minutes |
| Route.NegativeDurationMisread | src/solver.ts:147-153 | -30 minutes prints as "-1hrs" and reads back as -60: the round trip needs m >= 0 |
| Route.LegDurationsReadBack | src/solver.ts:145-157 | every leg's duration string reads back as the cost of the edge it follows, when non-negative |
| Route.RouteTotal | src/solver.ts:95-106 | an empty table totals 0; the total is NaN exactly when one leg's duration reads as NaN |
| Route.TotalDurationString | src/solver.ts:114-119 | the total row, read back as a leg duration is, gives the total again: NaN for a NaN total, the number for a non-negative one |
| Route.SumOfKnown | src/solver.ts:96-106 | a running total over known values is their sum |
| Route.SumUnknownIff | src/solver.ts:99-106 | the running total is NaN exactly when one of its pieces is NaN, in both directions |
| Route.RouteTotalIsSumOfCosts | src/solver.ts:95-119 | with non-negative costs the total is the sum of the route's edge costs, printed like a leg duration |
| Pipeline.TableIsRoute | src/solver.ts:220-228 | each solution's table starts at the first city, chains, names only selected cities, has at most n-1 legs, every speed inside the window |
| Pipeline.CostsNonNegative | src/solver.ts:65 | over a non-negative geodesic every edge cost is non-negative |
| Pipeline.LegsReadBack | src/solver.ts:97-105 | with non-negative costs every leg's duration reads back as a non-negative number |
| Pipeline.TotalReadsBack | src/solver.ts:114-119 | with non-negative costs the table's total is a known non-negative number |
| Pipeline.Solve | src/solver.ts:186-264 | fewer than 2 cities iff the select-two prompt; otherwise the model built has the selection's size, only in-window edges costed as createModelData costs them, every in-window pair, row-major order; a failed run shows its message; a finished one gives, per solution, exactly the table parseSolution makes of it, plus the status; every table is a route in the window; under a non-negative geodesic every total is known and is the sum of the route's edge costs |
| JsText.ParseIntOfDecimal | src/solver.ts:101-103 | parseInt reads back the decimal text of any integer followed by a non-digit |
| JsText.TrimEmptyIffBlank | src/main.ts:92 | a query trims to nothing exactly when it is all white space |
| Selection.IsSelected | src/main.ts:147-151 | a city in the list is selected; nothing is selected in an empty list |
| Selection.SelectCity | src/main.ts:138-151 | the city is selected afterwards; the list is unchanged if one with its name and country code was there, else the city is appended |
| Selection.SelectKeepsUnique | src/main.ts:138-151 | selecting preserves uniqueness of (name, country code) |
| Selection.SelectIdempotent | src/main.ts:138-151 | selecting twice equals selecting once |
| Selection.IndexOf | src/main.ts:154 | -1 iff absent, else the first position holding the city |
| Selection.RemoveCity | src/main.ts:153-159 | unchanged when the city is absent; otherwise one entry shorter, with one copy of the city fewer in the multiset |
| Selection.RemoveSpec | src/main.ts:153-159 | no-op when absent; else exactly the first occurrence is deleted, order kept, one copy fewer in the multiset |
| Selection.RemoveUndoesSelect | src/main.ts:138-159 | removing a newly selected city restores the list |
| Selection.RemoveKeepsUnique | src/main.ts:153-159 | removing preserves uniqueness |
| Search.SearchCities | src/main.ts:91-94 | empty before the index exists or for a blank query, else the first min(10, matches) results of the index |
| Search.NextIndex | src/main.ts:198 | ArrowDown keeps a cursor in [0, itemCount) in range, one further, wrapping from the last result to the first |
| Search.PrevIndex | src/main.ts:204 | ArrowUp keeps a cursor in [0, itemCount) in range, one back, wrapping from the first result to the last |
| Search.ArrowsInverse | src/main.ts:198-204 | ArrowUp undoes ArrowDown and vice versa |
| Search.OnKey | src/main.ts:188-216 | nothing happens with no results; Enter chooses the result under the cursor; arrows keep the cursor in range |
| Search.DownThenUp | src/main.ts:196-206 | the handler's ArrowDown then ArrowUp, or the reverse, restores the cursor |
| Flags.Flag | src/main.ts:57-63 | succeeds iff the code has at least two UTF-16 units, else TypeError; a flag is two characters |
| Flags.FlagFailsIff | src/main.ts:57-58 | throws exactly for the empty code and a single BMP character |
| Flags.FlagOfLetters | src/main.ts:57-63 | for two ASCII letters of either case, two regional indicators in [0x1F1E6, 0x1F1FF] that decode to the upper-cased letters |
| Flags.FlagIgnoresCase | src/main.ts:57-63 | two letter codes get the same flag iff their letters agree up to case |
| Flags.CountryCodeToEmoji | src/main.ts:51-67 | with a sound cache the answer equals a fresh computation and the cache stays sound; a success is cached; other entries kept, and no key other than the code is added |
| Presets.PresetWindow | src/main.ts:278-316 | every preset's minimum is positive and at most its maximum |
| Presets.ApplyPreset | src/main.ts:282-291 | a preset sets exactly its window and leaves the time shift alone |
| Presets.PresetFieldsReadBack | src/main.ts:290-291 | the preset's field texts read back through the change handler as the window |
| Presets.ParseNumericInput | src/main.ts:218-220 | 0 exactly when no digit follows the leading white space and optional sign, or the number there is 0 |
| Presets.ParseNumericOfDecimal | src/main.ts:218-220 | a field holding an integer's decimal text, followed by any non-digit, reads as that integer |
| Presets.PresetCostIsDuration | src/solver.ts:63-65 | under a preset window every kept edge has positive speed, so its cost is its duration |
| Clock.Toggle | src/clock.ts:105-107 | the meridiem flips, hour and minute unchanged |
| Clock.ToggleInvolution | src/clock.ts:105-107 | toggling twice restores the state |
| Clock.Hour12 | src/clock.ts:199 | for an hour of the day, a 12-hour hour in 1..12 on the same place of the dial (equal modulo 12) |
| Clock.TwelveHourRoundTrip | src/clock.ts:197-199 | for hours 0..23: 12-hour hour in 1..12, PM iff h >= 12, and the hour-hand's 24-hour hour recovers h |
| Clock.OnTimeInput | src/clock.ts:190-207 | an empty value changes nothing; otherwise meridiem and 12-hour hour come from the text before ':'; no ':' means a NaN minute |
| Clock.TimeInputSetsClock | src/clock.ts:190-207 | typing HH:MM sets (hour12, minute, meridiem) and the hour hand then shows hour HH |
| Clock.InputRedisplayedAsTwelveHour | src/clock.ts:91-93 | after input the field shows the 12-hour hour, equal to the typed value exactly for hours 1..12 |
| Clock.FormatTimeShape | src/clock.ts:91-93 | for hour and minute below 100 the text is 5 characters, two digits, ':', two digits, reading back as hour and minute |
| Clock.Hour24 | src/clock.ts:97 | for a non-negative hour, an hour of the day 0..23, in the afternoon half exactly for PM |
| Clock.HourAngle | src/clock.ts:97 | defined exactly when the minute is; for a time of day within the first two turns, [0, 720) degrees |
| Clock.MinuteAngleRange | src/clock.ts:98 | a minute 0..59 gives a multiple of 6 in [0, 354] that divides back to the minute |
| Clock.ToggleTurnsHourHand | src/clock.ts:97 | the PM hour angle is the AM one plus 360 degrees; the minute angle is unchanged |
| Clock.InitialDisplay | src/clock.ts:215-217 | the clocks start showing 12:00 and 02:00, hour hands at 360 and 420 degrees, minute hands at 0 |

## Left out

- Vincenty geodesic distance (`geodesy` library, floating point): a parameter `geo`.
- Timezone offsets from `luxon`: a parameter `offsetOf`, read at one instant. The source calls `DateTime.now()` separately for each offset, so a run that spans an offset change could see two instants. That is not modelled.
- The MiniZinc solver, loading `tsp.mzn`, and the asynchronous solution stream: external I/O, replaced by the `SolverRun` value.
- HTML markup, DOM events, OpenLayers and the clock-hand dragging (floating-point `atan2` geometry).
- `src/mapService.ts`, `src/types.ts` and the build configuration are not part of this model.
- The Fuse fuzzy search and its population ordering: an uninterpreted function from query to results.
- Floating point: distances, speeds and angles are exact reals and integers. `Math.round` of a duration is the identity, because offsets and shifts are integers here.
- `setupSpeedMinInput` and `setupSpeedMaxInput` read their initial values with plain `parseInt`, which can give `NaN`. Only the change handlers' `parseNumericInput` is modelled.
- Matrices.DistanceMatrixSymmetric: symmetry and non-negativity follow from a symmetric, non-negative `geo`. The geodesic is not modelled.
- Route.LegDurationsReadBack: stated for non-negative costs only. Negative minutes do not survive the round trip (`Route.NegativeDurationMisread`). In the program no cost is negative: a negative duration gives a speed of at most 0 over a non-negative distance, and such an edge costs 0 (`Pipeline.CostsNonNegative`). Only a negative geodesic, which the distance library never returns, would make one.
- Route.RouteTotalIsSumOfCosts: same restriction to non-negative costs.
- Pipeline.Solve: totals are promised only over a non-negative geodesic, because that is what makes the costs non-negative.
- Pipeline.Solve: the model passes one snapshot of the selection to both the matrices and `parseSolution`. The source reads the live `state.selectedCities` array when each solution arrives, and `selectCity` and `removeCity` may change it during the asynchronous solve. The walk's bound is `cities.length - 1` of the live array, and the names are looked up in it by the model's indices. A city added meanwhile makes the walk take one more step; when the selected edges form a circuit, that step is the closing leg back to the first city. A city removed meanwhile makes the walk take one fewer step and shifts the names, so legs can carry the wrong cities; an index past the shortened array makes `cities[nextCityIndex]` undefined, and reading its `name` throws a TypeError. None of this is modelled.
- Pipeline.Solve: overlapping runs are not modelled. A second click clears the route container, but the first run keeps writing into it: its later solutions, its status, and an error message that replaces everything. The container can then hold a mix of both runs. `Outcome` describes one run on its own.
- Console logging is not modelled: the warning when no selected edge leaves a city (the early stop itself is the last clause of `Route.Reconstruct`) and the error logged when the run fails.
- JsText.ParseInt: parseInt's loss of precision beyond 2^53 is not modelled. It matters for user-typed text: `parseNumericInput` reads the time shift and the speed window from input fields, and `setupSpeedMinInput` and `setupSpeedMaxInput` read the initial window, so a number typed with more than 15 or so digits is read exactly here but rounded by the program.
- JsText.ParseInt: the `0x` hexadecimal prefix that `parseInt` honours without a radix is not modelled. The calls without a radix read duration strings the program printed and the time input's `HH:MM`, which never hold it; `parseNumericInput` passes radix 10, which the model follows.
- Flags.UpperUnit: `toUpperCase` changes only `a`-`z`. Non-ASCII case mapping, including results longer than one character, is not modelled.
- Selection.IndexOf: `indexOf` compares object references; the model compares values. The two agree on every call the program makes: the only caller is the Remove button (src/main.ts:171), which passes the list's own entry, and `Selection.SelectKeepsUnique`/`Selection.RemoveKeepsUnique` show the list never holds a second entry with the same name and country code, so no equal record precedes it. A value-equal record that is a different object would give -1 in the program and its position in the model; the program never passes one.
- Clock.HourAngle: the hour angle is an exact real. The source's floating-point division by 60 is not modelled.
