# Container shipping optimiser: a Dafny model

This project models the deterministic core of a tool that plans shipping for
purchase-order (PO) lines. Each line goes into weekly container capacity that
carriers offer between two ports. The tool runs in two steps:

1. **Preparation.** `preprocess_data` in `src/preprocessing.py` does four things:
   - It checks that both tables have their required columns.
   - It computes each PO line's per-unit volume.
   - It gives each capacity record a departure date, read from its `YYYY-Www` token, and an arrival date.
   - It expands each capacity record into one container slot per available unit. Each slot has its own Shipment ID.
2. **Optimisation.** `optimize_shipping` in `src/optimizer.py` does four things:
   - It lists the feasible (PO line, Shipment ID) routes.
   - It declares a mixed-integer program. Each feasible route gets a quantity variable, each Shipment ID a binary "use" variable, and each line an "unmet" variable. It adds a demand-balance equation per line and a volume and a weight inequality per Shipment ID.
   - It hands the program to a solver.
   - It turns the solver's values into the result table. That table holds one row per route whose solver value is positive, then one row per line whose unmet solver value is positive.

The model follows the source module by module:

| Dafny module | what it holds |
|---|---|
| `Common` | `Option`/`Result`, Python's `int()` on a float (truncation), decimal rendering of naturals, de-duplication in first-occurrence order (the key order of a Python dict) |
| `Records` | PO lines, capacity records, slots, route keys, and the first-row lookup by Shipment ID (`.iloc[0]`) |
| `WeekDates` | `parse_week_year_to_date`: Python's `int()` on the two fields and `strptime` with `%Y-W%W-%w` on a proleptic Gregorian calendar |
| `Preprocessing` | the schema check, the volume column, the date columns, the expansion loop, and the whole preparation step |
| `Feasibility` | the nested loop that lists feasible routes |
| `Formulation` | the loops that declare the variables, the constraint set as a predicate over a candidate solution, and the objective |
| `Interpretation` | the two emission loops that build the result table, the constraint names the capacity loop registers, and `optimize_shipping` end to end for given solver values |

Dates are whole day numbers counted as Python's `date.toordinal` counts them. A date lies between day 1 (1 January of year 1) and day 3652059 (31 December 9999); date arithmetic that leaves this range raises OverflowError. Money, volumes and weights are exact reals.

Where the source itself is imperative, the model is too:
- the route enumeration, the variable declarations, the unit expansion and the result emission are `method`s with `while` loops;
- each method is proved equal to a specification function;
- the lemmas state properties of those specification functions.

The model follows the code in two places where a reader might expect otherwise:
- A week token is read under the C library's `%W` convention. Week 1 starts on the year's first Monday; this is not ISO 8601 week numbering.
- Solver values become quantities through `int()`, which truncates toward zero rather than rounding.

## Model

| member | source | states |
|---|---|---|
| Common.Trunc | src/optimizer.py:128 | `int()` of a float lies within one unit below a non-negative argument, or within one unit above a negative one |
| Common.TruncOfWhole | src/optimizer.py:128 | `int()` of a whole-number value is that number |
| Common.DecimalString | src/preprocessing.py:91 | the rendering of a natural is a non-empty string of decimal digits, at least two long from 10 upward |
| Common.DigitsValueOfDecimal | src/preprocessing.py:13 | reading back the digits of a rendered natural gives the natural |
| Common.DecimalStringInjective | src/preprocessing.py:91 | distinct naturals render to distinct strings |
| Common.Dedup | src/optimizer.py:24-26 | the keys a dict ends up with hold exactly the listed items, each once |
| Common.DedupOfDistinct | src/optimizer.py:24-26 | a list without repeats keeps its order and length as dict keys |
| Records.Ids | src/optimizer.py:28 | the Shipment ID column has one entry per slot, in slot order |
| Records.FirstIndex | src/optimizer.py:41 | the lookup by Shipment ID selects the first slot carrying that ID |
| Records.SlotWithId | src/optimizer.py:41 | the lookup by Shipment ID returns a slot carrying that ID, and no earlier slot carries it |
| Records.SlotWithUniqueId | src/optimizer.py:70 | with unique Shipment IDs the lookup returns the one slot carrying the ID |
| WeekDates.Representable | src/preprocessing.py:14 | a day number is a date exactly when it lies from day 1 to 31 December 9999 |
| WeekDates.Jan1 | src/preprocessing.py:14 | 1 January of year `y` is the proleptic Gregorian day `365 (y - 1)` plus the leap days before it plus one, so it lies after day `365 (y - 1)` and no later than `366 (y - 1) + 1` |
| WeekDates.Jan1Next | src/preprocessing.py:14 | successive New Year's days are 366 days apart after a leap year and 365 otherwise |
| WeekDates.Weekday | src/preprocessing.py:14 | a day's weekday is one of Monday = 0 through Sunday = 6 |
| WeekDates.WeekdayShift | src/preprocessing.py:14 | moving by whole weeks keeps the weekday |
| WeekDates.MondayOnOrAfter | src/preprocessing.py:14 | the result is a Monday within six days on or after the given day |
| WeekDates.FirstMonday | src/preprocessing.py:14 | the year's first Monday falls within its first seven days |
| WeekDates.MondayOfWeek | src/preprocessing.py:14 | `%W` week `w` names a Monday; week 0's Monday is on or up to six days before 1 January; week `w >= 1` is `w - 1` weeks after the first Monday |
| WeekDates.ConsecutiveWeeks | src/preprocessing.py:14 | weeks 1 to 53 are exactly seven days apart |
| WeekDates.WeekZeroMeetsWeekOne | src/preprocessing.py:14 | when 1 January is a Monday, weeks 0 and 1 both name 1 January |
| WeekDates.StripLeading | src/preprocessing.py:13 | `int()` drops leading characters that are all blanks and keeps the rest as a suffix, which starts with a non-blank when non-empty |
| WeekDates.StripTrailing | src/preprocessing.py:13 | `int()` drops trailing characters that are all blanks and keeps the rest as a prefix, which ends with a non-blank when non-empty |
| WeekDates.StripUnblanked | src/preprocessing.py:13 | stripping leaves a token without blanks at either end unchanged |
| WeekDates.ParseInt | src/preprocessing.py:13 | `int()` of a text made only of blanks, the empty text included, raises |
| WeekDates.ParseIntOfDigits | src/preprocessing.py:13 | `int()` of a non-empty run of ASCII digits is the number they spell |
| WeekDates.ParseIntOfSignedDigits | src/preprocessing.py:13 | `int()` of a minus sign followed by digits is the negated number |
| WeekDates.ParseIntOfNonDigit | src/preprocessing.py:13 | `int()` raises for a blank-free token that starts with neither a sign nor a digit |
| WeekDates.ParseIntOfDecimal | src/preprocessing.py:13 | `int()` reads back a rendered natural |
| WeekDates.ParseIntOfNegated | src/preprocessing.py:13 | `int()` reads a minus sign followed by a rendered natural as its negation |
| WeekDates.StrptimeAccepts | src/preprocessing.py:14 | `strptime` accepts a year from 1000 to 9999 (`%Y` wants four digits) with a week from 0 to 53, except week 53 of 9999 |
| WeekDates.StrptimeRange | src/preprocessing.py:14 | the accepted pairs are exactly those matching the two patterns whose Monday is no later than 31 December 9999, the last day `date.fromordinal` accepts |
| WeekDates.AcceptedWeeks | src/preprocessing.py:14 | among the pairs matching the patterns, only 9999 week 53 has its Monday past 31 December 9999 |
| WeekDates.LastWeeksOf9999 | src/preprocessing.py:14 | weeks 1 to 53 of 9999 start on 4 January 9999 and every seventh day after, so week 53 starts three days after 31 December 9999 |
| WeekDates.AcceptedMondayRepresentable | src/preprocessing.py:14 | an accepted week's Monday is a representable date, from day 1 to 31 December 9999 |
| WeekDates.ParseWeekYear | src/preprocessing.py:11-14 | a token that parses yields a Monday that is a representable date |
| WeekDates.TwoDigitRendering | src/preprocessing.py:13 | naturals from 10 to 99 render to two characters |
| WeekDates.FourDigitRendering | src/preprocessing.py:13 | naturals from 1000 to 9999 render to four characters |
| WeekDates.ParseFromParts | src/preprocessing.py:13-14 | once the first four and the last two characters read as a year and a week that `strptime` accepts (year 1000 to 9999, week 0 to 53, not 9999 week 53), the token yields that week's Monday |
| WeekDates.WeekDigits | src/preprocessing.py:13 | a week from 0 to 99 written as two zero-padded digits reads back as that week |
| WeekDates.WellFormedTokenParts | src/preprocessing.py:13 | in `YYYY-Www`, the first four characters read as the year and the last two as the week |
| WeekDates.ParseWellFormedToken | src/preprocessing.py:11-14 | a well-formed `YYYY-Www` token (year 1000 to 9999, week written as two digits from `00` to `53`, other than `9999-W53`) yields the Monday of that `%W` week |
| WeekDates.LastWeekOf9999Refused | src/preprocessing.py:14 | `9999-W53` is refused: its Monday would fall after 31 December 9999 |
| WeekDates.Render2025 | src/preprocessing.py:13 | 2025 renders as "2025" |
| WeekDates.SingleDigitWeekRefused | src/preprocessing.py:13 | `2025-W5` is refused: its last two characters `W5` are not an integer |
| WeekDates.Week25Of2025 | src/preprocessing.py:12-14 | `2025-W25` is Monday 23 June 2025 |
| WeekDates.Week52Of9999 | src/preprocessing.py:12-14 | `9999-W52` is Monday 27 December 9999, four days before the last representable date |
| Preprocessing.ComputeVolume | src/preprocessing.py:7-9 | volume × 10⁶ is length × width × height; it is non-negative for non-negative dimensions and zero exactly when some dimension is zero |
| Preprocessing.WithVolumes | src/preprocessing.py:72-74 | each PO line keeps every field except its volume, which becomes its computed volume |
| Preprocessing.MissingColumns | src/preprocessing.py:66-69 | the reported set is empty exactly when every required column is present; it holds only required, absent columns, and together with the present columns covers all required ones |
| Preprocessing.CheckSchema | src/preprocessing.py:52-69 | the check passes exactly when both tables have their required columns; the PO table is checked first, and the failure names its non-empty missing set |
| Preprocessing.ArrivalDate | src/preprocessing.py:80-82 | arrival minus transit days is departure, so arrival is on or after departure exactly when transit is non-negative |
| Preprocessing.Departures | src/preprocessing.py:79 | one parse result per capacity row, each the result for that row's own Week_Year token |
| Preprocessing.DateFromOk | src/preprocessing.py:79 | the apply over given parse results, before any arrival is range-checked, succeeds exactly when every result is a date |
| Preprocessing.DateFromRows | src/preprocessing.py:79-82 | on success, row `i` keeps its record, takes the date of result `i`, and arrives transit days later |
| Preprocessing.DateFromError | src/preprocessing.py:79 | on failure, the error is the one of the first failed result, every earlier result being a date |
| Preprocessing.ArrivalsRepresentable | src/preprocessing.py:80-82 | every arrival is a representable date |
| Preprocessing.DateCapacity | src/preprocessing.py:79-82 | the capacity table's date columns: the first parse error if a token does not parse, otherwise an arrival-range error if some departure plus transit days is not a date, otherwise the dated rows; its properties are the lemmas below |
| Preprocessing.DateFromDatable | src/preprocessing.py:79-82 | the parse results fill the columns with every arrival a date exactly when each row's result is a date whose arrival is a date too |
| Preprocessing.DateCapacityOk | src/preprocessing.py:79-82 | dating the capacity table succeeds exactly when every row's token parses and its departure plus transit days is a representable date |
| Preprocessing.DateCapacityRows | src/preprocessing.py:79-82 | on success, every row keeps its record, gets the date its token parses to, and arrives transit days later on a representable date |
| Preprocessing.DateCapacityError | src/preprocessing.py:79-82 | on failure, a parse error is that of the first row whose token does not parse; an arrival-range error comes only when every token parses, and some row's arrival is then not a date |
| Preprocessing.FirstUnparsableWeek | src/preprocessing.py:79 | a parse error reported by dating is that of the first row whose token does not parse, every earlier token parsing |
| Preprocessing.SomeArrivalOutOfRange | src/preprocessing.py:80-82 | an arrival-range error means every token parsed and some row's departure plus transit days is not a date |
| Preprocessing.OneRowOutOfRange | src/preprocessing.py:80-82 | a one-row table whose token parses but whose arrival is not a date gives the arrival-range error |
| Preprocessing.LateArrivalRefused | src/preprocessing.py:79-82 | a row for `9999-W52` with 5 transit days is refused, because its arrival falls after 31 December 9999 |
| Preprocessing.UnitsOf | src/preprocessing.py:87 | a row expands into its `Available Units` copies, or into one when it has no such entry |
| Preprocessing.BaseId | src/preprocessing.py:88 | the base ID joins the five fields with four underscores, so its length is theirs plus four |
| Preprocessing.BaseIdEnds | src/preprocessing.py:88 | the base ID starts with the week token and `_`, and ends with `_` and the container type |
| Preprocessing.MakeSlot | src/preprocessing.py:88-92 | the `i`-th copy keeps the row's record and dates; its Base Shipment ID is the joined base and its Shipment ID is the base, `-` and `i` |
| Preprocessing.SlotsOf | src/preprocessing.py:89-93 | a row yields as many slots as its positive unit count, or none, with suffixes ascending from 1 |
| Preprocessing.Expanded | src/preprocessing.py:85-95 | every slot of the expanded table carries the base ID of its own record as its Base Shipment ID |
| Preprocessing.ExpandByUnits | src/preprocessing.py:85-93 | the loop's output is every row's slots, row after row |
| Preprocessing.ExpandedLength | src/preprocessing.py:86-89 | the expansion has exactly the total of the rows' slot counts |
| Preprocessing.ExpandedPrefix | src/preprocessing.py:85-93 | expanding a table is expanding any prefix and then the rest |
| Preprocessing.ExpandedSingleton | src/preprocessing.py:89-93 | a one-row table expands to that row's slots |
| Preprocessing.ExpandedFrom | src/preprocessing.py:86-93 | the expansion of a suffix begins with the slots of its first row |
| Preprocessing.ExpandedAt | src/preprocessing.py:86-93 | row `r`'s `k`-th copy sits right after the slots of rows before `r`, with suffix `k + 1` |
| Preprocessing.SlotIdsDistinctWithinRow | src/preprocessing.py:89-91 | Shipment IDs cut from one row are pairwise distinct |
| Preprocessing.SameBaseFieldsCollide | src/preprocessing.py:88 | two rows agreeing on the five joined fields produce a repeated Shipment ID |
| Preprocessing.Preprocess | src/preprocessing.py:51-97 | a schema failure is reported first, then the dating error (the first unparsable week token, or an arrival that is not a date); otherwise the result is the PO table with volumes and the expanded, dated capacity table |
| Feasibility.Feasible | src/optimizer.py:14-18 | a slot serves a PO line when both ports match and it departs on or after the line's Export ETA |
| Feasibility.PairsForRow | src/optimizer.py:13-19 | each pair listed for a PO row belongs to that row and a slot inside the scanned range |
| Feasibility.FeasiblePairs | src/optimizer.py:12-19 | each listed pair indexes a scanned PO row and an existing slot |
| Feasibility.RoutesOf | src/optimizer.py:19 | each listed pair becomes a route for its PO row and its slot's Shipment ID, in order |
| Feasibility.RouteList | src/optimizer.py:11-19 | every listed route names an existing PO row and an existing Shipment ID |
| Feasibility.FindFeasibleRoutes | src/optimizer.py:11-19 | the nested loop produces exactly the specified route list |
| Feasibility.PairsForRowMembers | src/optimizer.py:13-19 | within one PO row, a slot is listed exactly when it is scanned and feasible |
| Feasibility.FeasiblePairsMembers | src/optimizer.py:12-19 | a (PO row, slot) pair is listed exactly when both ports match and departure is on or after the Export ETA |
| Feasibility.PairsForRowAscending | src/optimizer.py:13-19 | one PO row's pairs are in increasing slot order |
| Feasibility.FeasiblePairsAscending | src/optimizer.py:12-19 | the pairs are strictly ordered by PO row, then by slot row |
| Feasibility.RouteListMembers | src/optimizer.py:11-19 | a route is listed exactly when some slot with that Shipment ID is feasible for that PO row |
| Feasibility.RouteListDistinct | src/optimizer.py:11-19 | with unique Shipment IDs no route is listed twice |
| Formulation.DeclareAssignVariables | src/optimizer.py:24-26 | the `assign` keys are the routes in first-listing order; each route's upper bound is its line's demand |
| Formulation.DeclareUseVariables | src/optimizer.py:28-29 | the `use` keys are the distinct Shipment IDs in first-occurrence order |
| Formulation.DeclareUnmetVariables | src/optimizer.py:32-34 | each PO row's `unmet` upper bound is its demand |
| Formulation.Domains | src/optimizer.py:24-34 | a candidate solution gives a value to exactly the declared variables: one `assign` per route, one `use` per Shipment ID, one `unmet` per line |
| Formulation.WithinBounds | src/optimizer.py:26-33 | each `assign` lies between 0 and its line's demand, each `use` is 0 or 1, and each `unmet` lies between 0 and its line's demand |
| Formulation.DemandBalanced | src/optimizer.py:61-66 | for every line, the sum of its routes' `assign` plus its `unmet` equals its demand |
| Formulation.Load | src/optimizer.py:74-81 | a container's load is the sum over lines of `assign` (0 for a missing route) times the line's volume or weight |
| Formulation.WithinCapacity | src/optimizer.py:69-84 | for every Shipment ID, its volume and weight loads are at most its first slot's capacities times `use` |
| Formulation.Satisfies | src/optimizer.py:24-84 | a candidate solution meets every variable domain, bound and constraint the program declares |
| Formulation.AllUnmet | src/optimizer.py:24-34 | the fallback solution gives a value to exactly the declared variables |
| Formulation.AssignedToZero | src/optimizer.py:63 | with every assignment zero, the quantity assigned to a line is zero |
| Formulation.LoadZero | src/optimizer.py:74-81 | with every assignment zero, each container's load is zero |
| Formulation.AlwaysFeasible | src/optimizer.py:24-84 | the all-unmet solution meets every bound and constraint exactly when no demand is negative; a negative demand rules out every solution |
| Formulation.AssignedToNoKeys | src/optimizer.py:63 | a line without routes is assigned nothing |
| Formulation.UnroutedLineIsUnmet | src/optimizer.py:61-66 | in any solution, a line without routes has its whole demand unmet |
| Formulation.LoadNonNegative | src/optimizer.py:74-81 | with non-negative quantities and sizes a container's load is non-negative |
| Formulation.LoadCoversTerm | src/optimizer.py:74-81 | with non-negative quantities and sizes, a container's load is at least any one line's share |
| Formulation.IdleContainerCarriesNothing | src/optimizer.py:69-84 | with non-negative sizes, a container with `use = 0` carries none of a line with positive volume or weight |
| Formulation.ZeroSizeCargoNeedsNoContainer | src/optimizer.py:83-84 | cargo of zero volume and zero weight can be fully assigned to a container with `use = 0` |
| Formulation.Pow | src/optimizer.py:44 | the multiplier raised to a natural priority level, by repeated multiplication |
| Formulation.PowNonNegative | src/optimizer.py:44 | a non-negative multiplier raised to a priority level is non-negative |
| Formulation.LateDays | src/optimizer.py:43 | late days are non-negative and at least arrival minus Import ETA, and are one of those two values |
| Formulation.LateCoefficient | src/optimizer.py:43-44 | the per-unit late penalty, in exact arithmetic, is zero when the slot arrives by the Import ETA, and non-negative for non-negative rates |
| Formulation.LateCost | src/optimizer.py:39-45 | the late-penalty part of the objective: each route's late coefficient times its `assign`, summed over the routes |
| Formulation.ContainerCost | src/optimizer.py:49-51 | the container part: each distinct Shipment ID's first-slot price times its `use`, summed; non-negative for non-negative prices and `use` |
| Formulation.UnmetCost | src/optimizer.py:54-56 | the unmet part: each line's `unmet` times its Unmet Penalty, summed; non-negative for non-negative values and penalties |
| Formulation.Objective | src/optimizer.py:36-58 | the objective is the late-penalty, container and unmet parts added together |
| Formulation.LateCostZero | src/optimizer.py:39-45 | with nothing assigned the late-penalty terms sum to zero |
| Formulation.ContainerCostZero | src/optimizer.py:49-51 | with no container used the container-price terms sum to zero |
| Formulation.FallbackCost | src/optimizer.py:36-58 | the all-unmet solution's objective is the unmet-penalty cost of the whole demand |
| Interpretation.Emitted | src/optimizer.py:93-94 | only keys with a positive value are emitted, no more than there are keys |
| Interpretation.EmittedMembers | src/optimizer.py:93-94 | a key is emitted exactly when its value is present and positive |
| Interpretation.AssignmentRow | src/optimizer.py:95-136 | an assignment row carries its PO line, the slot, the used-container flag, the truncated quantity, COGS × quantity, the slot's late days against the line's Import ETA, a late penalty equal to the late coefficient × quantity, and zero unmet columns |
| Interpretation.UnmetRow | src/optimizer.py:140-174 | an unmet row carries its PO line and has no shipment and nothing assigned; its unmet quantity is `int(u)`, its COGS value is that quantity × COGS, and its penalty is `int(u × rate)` |
| Interpretation.AssignmentRows | src/optimizer.py:93-136 | one assignment row per emitted route |
| Interpretation.UnmetRows | src/optimizer.py:138-174 | the unmet rows of the lines, in line order, one for each line with a positive unmet value |
| Interpretation.ResultTable | src/optimizer.py:90-176 | the result table: the assignment rows of the emitted routes, then the unmet rows |
| Interpretation.KeysGiveEmittedInRange | src/optimizer.py:93-96 | every emitted route names an existing PO row, an existing Shipment ID and a solver value |
| Interpretation.AppendRoute | src/optimizer.py:98-103 | emitting one more route appends one row, flagged exactly when its Shipment ID has not been seen |
| Interpretation.EmitAssignmentRows | src/optimizer.py:90-136 | the first emission loop, with its set of seen Shipment IDs, produces exactly the specified assignment rows |
| Interpretation.EmitUnmetRows | src/optimizer.py:138-174 | the second emission loop produces exactly the specified unmet rows |
| Interpretation.InterpretSolution | src/optimizer.py:90-176 | the result table is the assignment rows followed by the unmet rows |
| Interpretation.UsedTotalAppend | src/optimizer.py:132 | the `Used Container` column of two row lists sums to the sum of their two totals |
| Interpretation.UnmetRowsUnflagged | src/optimizer.py:170 | unmet rows contribute nothing to the `Used Container` sum |
| Interpretation.AssignmentFlagsCountIds | src/optimizer.py:91-101 | the flags on assignment rows sum to the number of distinct Shipment IDs among them |
| Interpretation.UsedContainerCount | src/optimizer.py:91-101 | the whole table's `Used Container` column sums to the number of distinct Shipment IDs with a positive assignment |
| Interpretation.UnmetRowsShape | src/optimizer.py:157-171 | unmet rows have no shipment, nothing assigned, no flag and a non-negative unmet quantity |
| Interpretation.UnmetLines | src/optimizer.py:138-139 | the lines that get an unmet row are existing lines whose unmet value is positive |
| Interpretation.UnmetLinesOrdered | src/optimizer.py:138-139 | a line gets an unmet row exactly when its unmet value is positive, and those lines are listed in strictly increasing order |
| Interpretation.UnmetRowsLayout | src/optimizer.py:138-174 | the `j`-th unmet row is the row of the `j`-th line with a positive unmet value |
| Interpretation.UnmetRowsMembers | src/optimizer.py:138-174 | every line with a positive unmet value gets its unmet row; every unmet row is the row of some line with a positive unmet value; there are at most as many as lines |
| Interpretation.AssignmentRowAt | src/optimizer.py:93-136 | the table's `j`-th row, below the number of emitted routes, is the `j`-th emitted route's row: its PO line, its first slot, its truncated value, and the first-use flag |
| Interpretation.UnmetRowAt | src/optimizer.py:138-174 | every row after the assignment rows is an unmet row |
| Interpretation.ValuesOf | src/optimizer.py:87 | the solver reports a value for exactly the variables of the solution |
| Interpretation.ShippedToOfEmitted | src/optimizer.py:93-94 | dropping non-positive keys does not change the quantity shipped for a line |
| Interpretation.ShippedToIsAssignedTo | src/optimizer.py:63 | for a solution with non-negative quantities, the reported quantities for a line sum to its assigned total |
| Interpretation.ReportedBalance | src/optimizer.py:61-66 | for a solution meeting every constraint, a line's reported shipped quantity plus its reported unmet quantity is its demand |
| Interpretation.UnroutedLineReport | src/optimizer.py:138-139 | a line without routes gets no assignment row; for a solution meeting every constraint its unmet row reports the whole demand |
| Interpretation.AssignmentRowsFeasible | src/optimizer.py:93-96 | with unique Shipment IDs, every assignment row pairs its line with a slot that is feasible for it |
| Interpretation.TruncatedReport | src/optimizer.py:171-173 | a value of 4.999 reports 4 units; an unmet value of 3 at rate 0.5 reports a penalty of 1 (the truncated product) |
| Interpretation.RepeatAt | src/optimizer.py:69-84 | the capacity loop's first repeated Shipment ID sits at a position whose ID already appeared before it |
| Interpretation.RepeatAtFirst | src/optimizer.py:69-84 | no repeat is found exactly when the scanned IDs are distinct; a repeat found is the first, all IDs before it being distinct |
| Interpretation.RepeatAtStable | src/optimizer.py:69-84 | once a repeat is found, scanning further IDs reports the same one |
| Interpretation.NameOfId | src/optimizer.py:83-84 | the names `VolCap_<id>` and `WtCap_<id>` are registered exactly for the IDs the loop has visited |
| Interpretation.AddCapacityConstraints | src/optimizer.py:69-84 | the capacity loop is refused at `VolCap_<id>` for the first Shipment ID that repeats, and completes when the IDs are distinct |
| Interpretation.Optimized | src/optimizer.py:4-176 | the call succeeds exactly when the expanded table is non-empty and its Shipment IDs are distinct, and then returns the result table over the feasible routes |
| Interpretation.RefusedName | src/optimizer.py:69-84 | a refusal on a non-empty table names the volume constraint of the first Shipment ID that appeared earlier |
| Interpretation.OptimizeShipping | src/optimizer.py:4-176 | `optimize_shipping` for given solver values returns what `Optimized` specifies |
| Interpretation.OptimizeShippingWithDefaults | src/optimizer.py:4 | with no rates given, the late penalty per day is 2 and the priority multiplier is 2 |

## Left out

- Loading the CSV files and their column types (src/preprocessing.py:19-49) is left out. The tables are taken as already-loaded records plus the set of column names each table has.
- Parsing of the PO dates `Export ETA` and `Import ETA` (src/preprocessing.py:77-78) is left out. They are taken as day numbers.
- Building the model in PuLP and calling `model.solve()` (src/optimizer.py:5, 58, 87) are left out. The solver's values are an input. The model does not claim the values are optimal, and it does not state results that depend on optimality. Variable names are not modelled. Constraint names are modelled only as far as PuLP refuses a name it already holds; the rewriting PuLP applies to names with special characters is not modelled, so two IDs that differ only in such characters are taken as distinct.
- Floating point is left out. COGS, volumes, weights, prices, rates and solver values are exact reals, so `/ 1e6` is exact division.
- `print` diagnostics (src/optimizer.py:21, 47, 52) and the `__main__` blocks have no counterpart.
- The two schema `assert`s are modelled as an error result. Running Python with `-O` would strip them; that is not modelled.
- The volume and date columns that the source adds to the DataFrames in place are modelled as new sequences. Each output row keeps the whole PO line and slot records rather than the selected columns by name.
- An empty expanded capacity table (every `Available Units` zero or negative) has no columns in pandas, so reading its `Shipment ID` column raises KeyError. `Interpretation.Optimized` returns `MissingShipmentIdColumn` for an empty slot list to stand for that.
- Preprocessing.DateCapacity: the date range is Python's `date` range. pandas can hold the date columns as `datetime64[ns]`, whose range (21 September 1677 to 11 April 2262) is narrower. Which range applies depends on the pandas version and the dtype it infers, so the narrower bound is not modelled.
- WeekDates.ParseInt: only ASCII blanks, an optional sign and ASCII digits are modelled. `int()` also accepts `_` between digits and non-ASCII digits and spaces; those are not modelled.
- Preprocessing.UnitsOf: a record without an `Available Units` entry expands to one slot, as `row.get(..., 1)` does. The schema check guarantees the column exists. A blank cell, which pandas reads as NaN and `int()` rejects, is not modelled.
- Formulation.LateCoefficient: priority levels are natural numbers. A negative level, which gives a fractional factor under Python's `**`, is not modelled.
- Formulation.LateCoefficient: the coefficient is exact. With integer rates (the defaults, or whole numbers from the app) the priority level arrives as a 64-bit numpy integer. Then `multiplier ** level` and the products at src/optimizer.py:44 wrap around modulo 2**64 once they pass 2**63 - 1; for example, level 62 with the default rates and one day late gives -2**63. That wrap-around is not modelled. The model agrees with the source while every intermediate product stays below 2**63, and the non-negativity clause holds of the source only in that range.
- Interpretation.AssignmentRow: the `Late Penalty` column is `LateCoefficient` times `int(value)` in exact arithmetic. The 64-bit wrap-around the source can hit at src/optimizer.py:131 with integer rates is not modelled, for the reason given for `Formulation.LateCoefficient`.
- Formulation.IdleContainerCarriesNothing: stated only for non-negative volumes and weights. With a negative size, a positive load from one line can offset another, so the source makes no such promise.
- Interpretation.ReportedBalance: stated for solver values that are exactly the integers of a solution meeting every constraint. Values off by a solver tolerance are truncated as `Interpretation.TruncatedReport` shows, and the balance can then fail by a unit.
