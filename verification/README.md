# bahnstat timetable reconciliation, in Dafny

bahnstat records departures and arrivals of a railway station from a remote
timetable service. That service describes each stop visit in pieces spread
over three feeds:

- the hourly plan snapshot (`plan`);
- the full change feed (`fchg`);
- the recent change feed (`rchg`).

The client in `src/bahnstat/dbtimetableclient.py` puts these pieces back
together. It keeps a cache of stop records keyed by stop id. It merges each
feed record into the cached record field by field, with present fields of the
later record winning. It decides when the cheap recent-change refresh is enough
and when the cache must be rebuilt from the plan. It then builds a board of the
departures and arrivals visible at a given time, sorted by planned time.

The statistics pages in `src/bahnstat/htmlstatgen.py` add three decisions per
row:

- the jump mark a row falls under (`highest_smaller`);
- the class of a delay cell (`DELAY`);
- the classes of a row: few data, long-distance or regional.

The modules follow the source:

- `Optional`: optional values, and the "change wins when present" rule the merges use.
- `Decimal`: decimal digit strings, `int()` and `'{}'` / `'{:02}'` formatting.
- `Calendar`: instants, `datetime` dates at minute resolution, `_parse_fulltime`,
  and rounding down to the hour.
- `TimetableEvent`: `DbTimetableEvent` and its derived values:
  - status, actual time, platform, delay and completeness;
  - the hide-after instant;
  - `merged`, destination and origin;
  - the `|`-separated paths.
- `TimetableStop`: `DbTimetableStop`:
  - the id format and its parser;
  - the trip code;
  - completeness, the hide-after instant, and `merged`.
- `ChangeIntegration`: `_TimetableChangeIntegrator` as the class `ChangeIntegrator`:
  - `_integrate_changes` as a loop proved against the specification `Integrated`;
  - the refresh policy of `stops_with_changes`.
- `TimetableBoard`: `DbTimetableClient` as the class `TimetableClient`:
  - `_timeslices` as a loop;
  - the `_departures` and `_arrivals` generators as one loop over a filter-map
    specification;
  - `DbTimetableBoard` with a stable sort.
- `HtmlStatistics`: `highest_smaller` as a loop, `DELAY`'s class choice, and the row classes.

Three behaviours of the code shape the model:

- A record whose id is not cached yet is added only if it is complete. This also
  holds for records of the plan snapshot (`src/bahnstat/dbtimetableclient.py:357`).
  So every cached stop is complete. `ChangeIntegrator.Valid` keeps this as the
  invariant `AllComplete`. A record of an unknown stop that is still incomplete is
  dropped, not kept waiting for completion.
- Destination and origin come from the planned path only. The changed path is
  never consulted (`src/bahnstat/dbtimetableclient.py:212-228`).
  `TimetableEvent.EndpointsIgnoreChangedPath` states this.
- Merging two stops replaces the whole trip label when the change carries one
  (`src/bahnstat/dbtimetableclient.py:286-289`).

## Model

| member | source | states |
|---|---|---|
| Optional.Override | src/bahnstat/dbtimetableclient.py:166-204 | a field of a merge is the change's value when the change has one, else the base's |
| Optional.OverrideAssociative | src/bahnstat/dbtimetableclient.py:166-204 | applying two changes one after the other equals applying their merge once |
| Decimal.Value | src/bahnstat/dbtimetableclient.py:245-247 | `int()` of n decimal digits is below 10^n |
| Decimal.NatToStringRoundTrip | src/bahnstat/dbtimetableclient.py:257-260 | `int('{}'.format(n)) == n` for every natural number |
| Decimal.Pad2RoundTrip | src/bahnstat/dbtimetableclient.py:257-260 | `int('{:02}'.format(n)) == n` for n below 100 |
| Decimal.ValueAppend | src/bahnstat/dbtimetableclient.py:242-247 | the value of concatenated digit strings is the first value shifted by the second's length plus the second |
| Calendar.ToInstant | src/bahnstat/dbtimetableclient.py:18 | a valid date and time is a non-negative instant on a whole minute, whose minutes within the hour are the minute field |
| Calendar.FloorHourIsCalendarHour | src/bahnstat/dbtimetableclient.py:406 | building a datetime without minutes is rounding the instant down to the hour |
| Calendar.ParseFullTime | src/bahnstat/dbtimetableclient.py:14-18 | an accepted time string is ten digits, and the date is valid and between the years 2000 and 2099 |
| Calendar.ParseFullTimeOfTimeField | src/bahnstat/dbtimetableclient.py:14-18 | parsing the rendered `YYMMDDHHmm` of a time in 2000..2099 gives that time back |
| Calendar.TimeFieldOfParseFullTime | src/bahnstat/dbtimetableclient.py:14-18 | rendering a parsed time gives the accepted string back |
| TimetableEvent.SplitPath | src/bahnstat/dbtimetableclient.py:122-130 | splitting the path attribute at bars gives parts that contain no bar |
| TimetableEvent.JoinOfSplit | src/bahnstat/dbtimetableclient.py:122-130 | joining the split parts with bars gives the attribute back |
| TimetableEvent.SplitOfJoin | src/bahnstat/dbtimetableclient.py:122-130 | splitting the bar-joined path gives every bar-free path back |
| TimetableEvent.Status | src/bahnstat/dbtimetableclient.py:64-71 | the changed status wins, then the planned one, else `'p'` |
| TimetableEvent.ActualTime | src/bahnstat/dbtimetableclient.py:55-62 | absent exactly when both times are absent; the changed time wins |
| TimetableEvent.Platform | src/bahnstat/dbtimetableclient.py:73-80 | absent exactly when both platforms are absent; the changed platform wins |
| TimetableEvent.Delay | src/bahnstat/dbtimetableclient.py:46-53 | an infinite delay only for a cancelled event |
| TimetableEvent.DelayIsShownMinusPlanned | src/bahnstat/dbtimetableclient.py:46-62 | the delay is infinite iff the event is cancelled without a changed time; otherwise the shown time is the planned time plus the delay in minutes |
| TimetableEvent.NoStatusNotCancelled | src/bahnstat/dbtimetableclient.py:64-84 | with no status the event counts as planned and is neither cancelled nor infinitely late |
| TimetableEvent.HideAfter | src/bahnstat/dbtimetableclient.py:90-108 | hidden no earlier than the planned and the shown time; a kept event is hidden at the later of the two; a cancelled one five minutes after the latest of its planned, shown and cancellation times |
| TimetableEvent.HideAfterTimestamp | src/bahnstat/dbtimetableclient.py:90-108 | the stepwise computation of `end` equals `HideAfter` |
| TimetableEvent.Merge | src/bahnstat/dbtimetableclient.py:164-206 | each of the ten fields is the change's when present, else the base's |
| TimetableEvent.MergeIdempotent | src/bahnstat/dbtimetableclient.py:164-206 | merging an event with itself changes nothing |
| TimetableEvent.MergeAssociative | src/bahnstat/dbtimetableclient.py:164-206 | merging changes one at a time equals merging their merge |
| TimetableEvent.MergeReapplied | src/bahnstat/dbtimetableclient.py:164-206 | a change merged twice has the effect of merging it once |
| TimetableEvent.MergeEmpty | src/bahnstat/dbtimetableclient.py:164-206 | an event with no fields is a neutral element on both sides |
| TimetableEvent.MergeKeepsComplete | src/bahnstat/dbtimetableclient.py:86-88 | a merge is complete if either side is, and only if each required field is present on some side |
| TimetableEvent.MergeStatus | src/bahnstat/dbtimetableclient.py:64-71 | a change without status keeps the base's status; a changed status in the change wins |
| TimetableEvent.MergeActualTime | src/bahnstat/dbtimetableclient.py:55-62 | a changed time in the change becomes the shown time; a change with no times keeps the base's shown time |
| TimetableEvent.Cancelled | src/bahnstat/dbtimetableclient.py:82-84 | cancelled iff the changed status is `'c'`, or there is no changed status and the planned status is `'c'` |
| TimetableEvent.Complete | src/bahnstat/dbtimetableclient.py:86-88 | defined as having a planned path and a planned time; a complete event has a shown time, a destination and an origin |
| TimetableEvent.Destination | src/bahnstat/dbtimetableclient.py:212-217 | present iff there is a planned path, and then its last station |
| TimetableEvent.Origin | src/bahnstat/dbtimetableclient.py:223-228 | present iff there is a planned path, and then its first station |
| TimetableEvent.EndpointsIgnoreChangedPath | src/bahnstat/dbtimetableclient.py:212-228 | destination and origin do not depend on the changed path |
| TimetableStop.RenderId | src/bahnstat/dbtimetableclient.py:255-260 | the id `trip-YYMMDDHHmm-stop` has at least 14 characters and starts with a minus iff the trip number is negative |
| TimetableStop.Id | src/bahnstat/dbtimetableclient.py:255-260 | the id of a stop parses back to its trip number, start and stop number |
| TimetableStop.ParseId | src/bahnstat/dbtimetableclient.py:241-247 | the id pattern, None when it does not match or the date is impossible; an accepted id has at least 14 characters, and a negative trip number only after a leading minus |
| TimetableStop.ParseFields | src/bahnstat/dbtimetableclient.py:242-247 | a string of digits, dash, ten-digit time, dash, digits parses into the values of its three fields |
| TimetableStop.ParseRenderedId | src/bahnstat/dbtimetableclient.py:240-260 | parsing the rendered id of a stop gives back its trip number, start and stop number |
| TimetableStop.IdInjective | src/bahnstat/dbtimetableclient.py:255-260 | two stops have the same id string iff they have the same trip number, start and stop number |
| TimetableStop.TripCodeIsIdField | src/bahnstat/dbtimetableclient.py:444-445 | the trip code is the number the ten-digit start field of the id reads as |
| TimetableStop.StopComplete | src/bahnstat/dbtimetableclient.py:262-266 | complete iff the stop has a label and an arrival or a departure with both a planned path and a planned time |
| TimetableStop.StopHideAfter | src/bahnstat/dbtimetableclient.py:268-280 | at least the hide-after instant of each complete part and of year 1, and equal to one of them |
| TimetableStop.StopHideAfterIsLatestPart | src/bahnstat/dbtimetableclient.py:268-280 | the hide-after instant of the one complete part, or the later of both |
| TimetableStop.MergePart | src/bahnstat/dbtimetableclient.py:291-307 | both parts present are merged, otherwise the present one is kept |
| TimetableStop.MergeStop | src/bahnstat/dbtimetableclient.py:282-309 | the identity is kept, the label is replaced when the change has one, both parts are merged |
| TimetableStop.MergeStopIdempotent | src/bahnstat/dbtimetableclient.py:282-309 | merging a stop with itself changes nothing |
| TimetableStop.MergeStopAssociative | src/bahnstat/dbtimetableclient.py:282-309 | merging changes one at a time equals merging their merge |
| TimetableStop.MergeStopReapplied | src/bahnstat/dbtimetableclient.py:282-309 | a change merged twice has the effect of merging it once |
| TimetableStop.MergeStopKeepsComplete | src/bahnstat/dbtimetableclient.py:262-266 | merging into or from a complete stop gives a complete stop |
| ChangeIntegration.IntegrateOne | src/bahnstat/dbtimetableclient.py:354-358 | a known id is merged in place, an unknown complete record is appended, an unknown incomplete record is dropped; the table stays well-formed |
| ChangeIntegration.Integrated | src/bahnstat/dbtimetableclient.py:350-360 | integration keeps every cached id and the insertion order of the old ids |
| ChangeIntegration.IntegrateChanges | src/bahnstat/dbtimetableclient.py:350-360 | the copy-and-update loop computes `Integrated` |
| ChangeIntegration.IntegratedAppend | src/bahnstat/dbtimetableclient.py:368-373 | integrating one feed after another equals integrating their concatenation |
| ChangeIntegration.IntegratedUntouched | src/bahnstat/dbtimetableclient.py:350-360 | a stop no record of the feed mentions is left as it was |
| ChangeIntegration.IntegratedNewKeys | src/bahnstat/dbtimetableclient.py:357-358 | every newly cached id comes from a complete record of the feed |
| ChangeIntegration.IntegratedCompleteness | src/bahnstat/dbtimetableclient.py:354-358 | complete stops stay complete, and new stops are complete |
| ChangeIntegration.IntegratedAllComplete | src/bahnstat/dbtimetableclient.py:350-360 | a cache of complete stops stays a cache of complete stops |
| ChangeIntegration.IntegrateOneReapplied | src/bahnstat/dbtimetableclient.py:354-358 | integrating the same record twice has the effect of integrating it once |
| ChangeIntegration.Values | src/bahnstat/dbtimetableclient.py:377 | the cached stops in insertion order, each cached stop exactly once |
| ChangeIntegration.UseIncremental | src/bahnstat/dbtimetableclient.py:364 | the incremental path needs the requested slices to equal the stored ones and a refresh less than 90 s before `now` |
| ChangeIntegration.FirstCallRebuilds | src/bahnstat/dbtimetableclient.py:346-364 | with no previous refresh the incremental path is never taken |
| ChangeIntegration.PlanTableAllComplete | src/bahnstat/dbtimetableclient.py:368-371 | the table built from the plan snapshots holds only complete stops |
| ChangeIntegration.PlanTableKeys | src/bahnstat/dbtimetableclient.py:368-371 | every id of that table is the id of a complete record of a requested slice |
| ChangeIntegration.RebuiltKeys | src/bahnstat/dbtimetableclient.py:368-373 | every id of a rebuilt cache comes from a requested plan slice or the full change feed |
| ChangeIntegration.FetchPlans | src/bahnstat/dbtimetableclient.py:368-371 | fails iff a requested slice has no plan; otherwise integrates the plans of all requested slices, each once, in some order |
| ChangeIntegration.Rebuild | src/bahnstat/dbtimetableclient.py:367-375 | fails iff a plan or the full change feed is missing; otherwise plan slices then full changes, giving a well-formed table of complete stops |
| ChangeIntegration.ChangeIntegrator.constructor | src/bahnstat/dbtimetableclient.py:344-348 | no refresh time, no slices, an empty cache |
| ChangeIntegration.ChangeIntegrator.StopsWithChanges | src/bahnstat/dbtimetableclient.py:362-377 | same slices and under 90 s: recent changes integrated, slices kept; otherwise a rebuild that replaces cache and slices; on success the refresh time is `now` and the result lists the cache; a failed fetch changes nothing |
| TimetableBoard.TrainName | src/bahnstat/dbtimetableclient.py:439-442 | the train name starts with the category and a space |
| TimetableBoard.Listed | src/bahnstat/dbtimetableclient.py:430-437 | a part is listed iff the stop and the part are complete and `now` lies between its shown time minus the look-ahead and its hide-after instant, both ends included |
| TimetableBoard.DepartureOf | src/bahnstat/dbtimetableclient.py:428-448 | a departure is produced iff the stop and its departure are complete, not yet hidden and within the look-ahead; its fields are planned time, train name, destination, station, trip code, trip number and delay |
| TimetableBoard.ArrivalOf | src/bahnstat/dbtimetableclient.py:450-470 | the same for arrivals, with the origin |
| TimetableBoard.Collect | src/bahnstat/dbtimetableclient.py:429-448 | the generator loop yields the filter-map of the stops, in order |
| TimetableBoard.DeparturesListed | src/bahnstat/dbtimetableclient.py:428-448 | a departure is listed iff it is the record of a listed departure of some stop |
| TimetableBoard.ArrivalsListed | src/bahnstat/dbtimetableclient.py:450-470 | an arrival is listed iff it is the record of a listed arrival of some stop |
| TimetableBoard.ListedUntilHideAfter | src/bahnstat/dbtimetableclient.py:433-434 | a part is still listed at its hide-after instant and not one second later |
| TimetableBoard.ListedFromLookahead | src/bahnstat/dbtimetableclient.py:436-437 | a part is listed from exactly the look-ahead before its shown time |
| TimetableBoard.NotCancelledHidesAtLaterTime | src/bahnstat/dbtimetableclient.py:96-108 | a running train is listed until both its planned and its shown time have passed |
| TimetableBoard.CancelledListedFiveMoreMinutes | src/bahnstat/dbtimetableclient.py:101-106 | a cancelled train stays listed for five minutes after its shown time |
| TimetableBoard.InsertSorted | src/bahnstat/dbtimetableclient.py:385-386 | an insertion into a sorted list keeps it sorted |
| TimetableBoard.InsertPermutes | src/bahnstat/dbtimetableclient.py:385-386 | an insertion adds exactly the inserted element |
| TimetableBoard.SortBy | src/bahnstat/dbtimetableclient.py:385-386 | `sorted(key=...)` returns a sorted permutation of its input |
| TimetableBoard.SortStable | src/bahnstat/dbtimetableclient.py:385-386 | the sort keeps the relative order of elements with the same key |
| TimetableBoard.MakeBoard | src/bahnstat/dbtimetableclient.py:379-386 | the board keeps raw stops and range; both lists are permutations of the input sorted by planned time, stable for equal times |
| TimetableBoard.TimeSlices | src/bahnstat/dbtimetableclient.py:402-412 | the loop collects exactly the whole hours from the hour of the range start up to, not including, the range end |
| TimetableBoard.CurrentHourRequested | src/bahnstat/dbtimetableclient.py:414-418 | the hour holding the current time is always requested |
| TimetableBoard.DefaultWindowSlices | src/bahnstat/dbtimetableclient.py:394-418 | with one hour each way, the previous and the current hour are requested, plus the next one unless the time is on a full hour |
| TimetableBoard.BuildBoard | src/bahnstat/dbtimetableclient.py:423-426 | the board from the listed departures and arrivals of the given stops |
| TimetableBoard.TimetableClient.constructor | src/bahnstat/dbtimetableclient.py:394-400 | the station, windows and a fresh, empty change integrator |
| TimetableBoard.TimetableClient.CurrentBoard | src/bahnstat/dbtimetableclient.py:414-426 | the requested slices are the whole hours of the window around the current time; with the same slices and a refresh under 90 s ago, the recent changes are integrated into the old cache and the slices are kept, failing iff that feed is missing; otherwise the cache is rebuilt from the plans of those slices, in some order, and then the full changes, and the slices are stored, failing iff a plan or the full change feed is missing; on success the board is built from the new cache at the current time and the refresh time is `now`; a failed fetch leaves the cache as it was |
| HtmlStatistics.HighestSmaller | src/bahnstat/htmlstatgen.py:91-97 | none iff no element is at most the target; otherwise an element at most the target and at least every other such element |
| HtmlStatistics.DelayClass | src/bahnstat/htmlstatgen.py:75-83 | no class iff no value; on time iff a finite delay below five; delayed iff infinite or at least five |
| HtmlStatistics.DelayClassMonotone | src/bahnstat/htmlstatgen.py:75-83 | a larger delay is never shown as more punctual |
| HtmlStatistics.TripRowClasses | src/bahnstat/htmlstatgen.py:227-235 | lowdata iff the count is under half the dates; exactly one of long-distance (name starts with IC, EC or NJ) and regional |
| HtmlStatistics.DepartureRowLowdata | src/bahnstat/htmlstatgen.py:294-297 | departure rows use the same lowdata rule as trip rows |
| HtmlStatistics.LongDistanceByCategory | src/bahnstat/htmlstatgen.py:232-235 | a board train name is long-distance iff its category starts with IC, EC or NJ |

## Left out

- The HTTP client `_ApiClient` and its `lru_cache` are not modelled. The three
  feeds are the parameter `Feeds`: a plan per hour slice, and the two change feeds.
  A missing plan or feed stands for a failed request, which leaves the cache untouched.
- XML reading (`from_domnode` and `getAttribute`) is not modelled. A record is
  given as its fields. Only the string forms are modelled: the id, `_parse_fulltime`
  and the `|` paths.
- `time.monotonic()` is the parameter `now`, in whole seconds. Its fractional
  part is dropped.
- Instants are whole seconds since 0001-01-01, and feed times carry whole minutes.
  The microseconds of the current time passed to `current_board` are dropped.
  Because of both truncations, the strict comparisons of the freshness test and
  of the hide-after and look-ahead tests can decide differently within one second
  (`src/bahnstat/dbtimetableclient.py:364`, `:433`, `:436`, `:455`, `:458`).
  Date arithmetic beyond the year 9999 is not modelled.
- TimetableEvent.Delay: the float division of two `timedelta`s is integer division
  of seconds by 60. It is exact for the whole-minute times the feeds carry, as
  `DelayIsShownMinusPlanned` states. `float('inf')` is the value `Infinite`.
- TimetableStop.ParseId: a failed regular-expression `assert` is the value None.
  Its contract states the length and sign of accepted ids. Beyond that it is pinned
  by the round trip `ParseRenderedId`, not by a description of every accepted string.
- ChangeIntegration.StopTable: the dict is keyed by trip number, start and stop
  number instead of the id string. `IdInjective` shows that the two keyings agree.
- ChangeIntegration.FetchPlans: Python's iteration order over a set is the ghost
  out-parameter `order`. The contracts hold for every order.
- TimetableBoard.TrainName: its contract states only the category prefix. The full
  `'{} {} ({})'` / `'{} {}'` format is its definition.
- TimetableBoard.SortBy: Python's `sorted` is modelled by a stable insertion sort.
  Only its result is specified: a sorted, stable permutation.
- HtmlStatistics.DelayClass: the `'{:.0f}'` formatting of the number is not modelled.
  Delay statistics are exact reals, so NaN cannot occur.
- HtmlStatistics.HighestSmaller: times of day are integers, and the jump-mark rows
  written around it are page assembly.
- Page assembly in `htmlstatgen.py` is not part of this model: `station_list`, the
  `trip_list` and `dep_list` bodies, and `html.escape`.
- Also not part of this model: the database layer `database.py`, the EFA parser
  `efaxmlparser.py`, the poll loops of the runners, `sdnotify.py`, the record module
  `datatypes.py`, `holidays_bw.py` and the command-line scripts.
