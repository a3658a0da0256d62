# preggapp screens in Dafny

A model of the two working screens of the preggapp mobile app, with proofs
about what they do.

- The **contraction timer** (`ContractionsScreen.tsx`). Each tap appends a
  millisecond timestamp to a log. The whole log is written back to storage
  under the key `tapTimes` as a JSON array, and it is restored when the
  screen mounts. The list shows one row per tap:
  - an odd row is a contraction (Схватка) and an even row is a break
    (Пауза);
  - each row shows how long its interval lasted, as `mm:ss`;
  - each row carries labour-phase labels chosen from the interval's length.
- The **push counter** (`PushCountScreen.tsx`). Storage holds one decimal
  count per date and hour, under the key `date-hour`. The screen loads the
  24 hours of the selected date as raw counts and as each hour's percentage
  of the day. Pressing a bar adds one push to the current hour, but only
  when the selected date is today. A calendar picks another date that is
  not in the future.

Files, one module each:

| file | module | what it holds |
|---|---|---|
| `optional.dfy` | `Optional` | `Option` |
| `millis.dfy` | `Millis` | the second and the minute in milliseconds |
| `js_text.dfy` | `JsText` | JavaScript's integer `toString`, `parseInt(s, 10)` and `padStart` |
| `key_value_store.dfy` | `KeyValueStore` | AsyncStorage as a `map<string, string>` |
| `tap_json.dfy` | `TapJson` | `JSON.stringify` / `JSON.parse` of an integer array |
| `phases.dfy` | `Phases` | the six phase tests and an independent band table |
| `duration_format.dfy` | `DurationFormat` | `formatDuration` and a reader of its `mm:ss` text |
| `contractions_screen.dfy` | `ContractionsScreen` | tap log, persistence, rows and labels |
| `push_counts.dfy` | `PushCounts` | the key scheme, reads and writes, and the day view |
| `push_count_screen.dfy` | `PushCountScreen` | screen state, push gate, calendar |

The clock is a parameter, not something the model reads. That covers
`Date.now()` on the contraction screen, and on the push screen the `Now`
value: the current hour, today's date string and the `isPastDate`
comparison. Storage is a value passed in and returned, and every call to it
succeeds.

Where the JavaScript differs from plain integers, the model spells it out:

- `%` takes the sign of the dividend;
- `Math.floor` of a division by a positive constant;
- `parseInt` skips leading white space and reads the longest digit prefix;
  its NaN result is `None`;
- `tapTimes[-1]` is `undefined`, so every comparison on the first row is
  false.

The restore on mount follows the code. The parse of the stored log sits
inside the `try` (`ContractionsScreen.tsx:92-100`). So a value that does
not parse is only logged, and the screen keeps its state.

## Model

| member | source | states |
|---|---|---|
| Phases.MatchesIffClassified | ContractionsScreen.tsx:12-74 | each of the six duration tests holds exactly when the band table puts the duration in that phase for that kind |
| Phases.BreakRanges | ContractionsScreen.tsx:12-43 | a break is initial for 5 to 30 minutes, active for 3 to 5 minutes and transition for 2 to 3 minutes, all bounds inclusive (both directions) |
| Phases.BreakBoundariesOverlap | ContractionsScreen.tsx:18-40 | a break of exactly 5 minutes is both initial and active; one of exactly 3 minutes is both active and transition |
| Phases.BreakGaps | ContractionsScreen.tsx:12-43 | a break gets no phase label exactly when it is shorter than 2 minutes or longer than 30 minutes |
| Phases.ContractionRanges | ContractionsScreen.tsx:45-74 | a contraction is initial for 15 to 40 seconds, active for 40 to 60 seconds and transition above 60 seconds (both directions) |
| Phases.ContractionCoverage | ContractionsScreen.tsx:45-74 | a contraction has some phase exactly when it lasts at least 15 seconds; active and transition never both apply |
| Phases.ContractionExamples | ContractionsScreen.tsx:67-74 | a 100-second contraction is transition only; a 10-second one has no phase |
| ContractionsScreen.ParityExclusive | ContractionsScreen.tsx:12-74 | break labels appear only on even rows after the first; contraction labels appear only on odd rows; no row has both |
| ContractionsScreen.PhaseShownIffClassified | ContractionsScreen.tsx:12-74 | a row's test for (kind, phase) holds exactly when the row is not the first, the row has that kind by parity, and the band table classifies its interval in that phase |
| ContractionsScreen.HandleTap | ContractionsScreen.tsx:76-88 | a tap appends the current time and keeps the old log as a prefix; the first row is hidden; the stored `tapTimes` entry is the JSON of the new log; no other key changes |
| ContractionsScreen.HandleTapPersists | ContractionsScreen.tsx:78-84 | the entry written by a tap parses back to exactly the log held in memory |
| ContractionsScreen.LoadTapTimes | ContractionsScreen.tsx:90-104 | an absent or empty entry leaves the screen unchanged; so does one that fails to parse; one that parses replaces the log and hides the first row |
| ContractionsScreen.RestoreAfterTap | ContractionsScreen.tsx:76-104 | after a tap, a remount restores exactly the log held in memory, whatever the screen showed before |
| ContractionsScreen.TapAllAppends | ContractionsScreen.tsx:76-78 | after a run of taps at t1 ... tN, the log is the old log followed by t1 ... tN |
| ContractionsScreen.TapAllPersists | ContractionsScreen.tsx:81-84 | after a non-empty run of taps, the stored entry parses to the log in memory |
| ContractionsScreen.TapLogFromScratch | ContractionsScreen.tsx:5-6 | starting from the empty screen, taps at t1 ... tN leave [t1, ..., tN] both in memory and in storage |
| ContractionsScreen.FirstRowHiddenInvariant | ContractionsScreen.tsx:86-96 | once the log is non-empty, the first row stays hidden across taps and restores |
| ContractionsScreen.Gaps | ContractionsScreen.tsx:124-127 | entry i - 1 of the gap list is tap i minus tap i - 1 |
| ContractionsScreen.CalculateDurations | ContractionsScreen.tsx:121-133 | there is one text per interval, so one fewer than there are taps |
| ContractionsScreen.CalculateDurationsEntry | ContractionsScreen.tsx:121-133 | entry i - 1 is the `mm:ss` text of the interval closed by tap i |
| ContractionsScreen.RenderedRowLasted | ContractionsScreen.tsx:144-184 | a later row is drawn with its kind by parity, its start at the previous tap, its end at its own tap, and its length as `formatDuration` of the gap |
| ContractionsScreen.PhaseLabelsMembers | ContractionsScreen.tsx:156-175 | the row's six tests put a phase label in the row exactly when the row closes an interval of some kind whose duration test for that phase accepts it |
| ContractionsScreen.RenderedRowPhases | ContractionsScreen.tsx:150-175 | a later row carries exactly the phases that the band table gives its interval for the row's kind |
| ContractionsScreen.FirstRowNeverRendered | ContractionsScreen.tsx:145-148 | while the first row is hidden and the log is non-empty, row 0 renders nothing |
| ContractionsScreen.LabelsFollowParity | ContractionsScreen.tsx:200-218 | the live caption names the kind of the running interval; the button says "Закончить схватку" exactly when the log length is odd |
| ContractionsScreen.LiveTextShape | ContractionsScreen.tsx:200-208 | the live line is the running interval's kind word and ": ", followed by text that, for a non-negative time, reads back as its whole minutes and left-over seconds |
| DurationFormat.JsRemainder | ContractionsScreen.tsx:137 | the remainder is the dividend minus the divisor times the quotient rounded toward zero, so it has the sign of the dividend and is smaller than the divisor in magnitude |
| DurationFormat.MinutesSecondsSplit | ContractionsScreen.tsx:136-137 | the seconds field is below 60, and minutes * 60 + seconds is the duration's whole seconds |
| DurationFormat.TwoDigitsOfNat | ContractionsScreen.tsx:139-141 | a padded field is all digits, at least two long, exactly two below 100, and reads back as its number |
| DurationFormat.FormatDurationRoundTrip | ContractionsScreen.tsx:135-142 | for a non-negative length, the text reads back as (length div 60000) minutes and ((length mod 60000) div 1000) seconds, and those make up the whole seconds; the ':' is third from the end |
| DurationFormat.NegativeDurationText | ContractionsScreen.tsx:135-142 | a length of -1500 ms prints as "-1:-2" |
| TapJson.DecodeEncode | ContractionsScreen.tsx:83-95 | `JSON.parse` of `JSON.stringify(xs)` is `xs` for every integer list |
| JsText.ParseIntOfIntToString | PushCountScreen.tsx:28-41 | `parseInt(n.toString(), 10)` is `n` for every integer |
| JsText.PadStartShape | ContractionsScreen.tsx:139-141 | `padStart` keeps the text as a suffix and fills only in front |
| JsText.PadStartZerosValue | ContractionsScreen.tsx:139-141 | padding a numeral with '0' keeps it all digits and keeps its value |
| PushCounts.PushKeyInjective | PushCountScreen.tsx:27-39 | two (date, hour) pairs share a key only when they are equal |
| PushCounts.StorePushCount | PushCountScreen.tsx:24-34 | the hour's key now holds the count's decimal text; every other key keeps its value, and the key set gains only the hour's key |
| PushCounts.GetPushCount | PushCountScreen.tsx:36-48 | a missing entry reads as 0 |
| PushCounts.GetAfterStore | PushCountScreen.tsx:24-48 | reading an hour after storing a count gives that count; every other (date, hour) reads as before |
| PushCounts.StoreReadsBack | PushCountScreen.tsx:24-48 | the same, for every other (date, hour) at once |
| PushCounts.ReadDayCounts | PushCountScreen.tsx:55-58 | reads hours 0..23 as stored, with their total; fails only if some hour reads as NaN |
| PushCounts.DayPercentages | PushCountScreen.tsx:60-66 | each hour gets its share of the total in percent, or 0 when the total is 0; keys are exactly 0..23 |
| PushCounts.LoadPushCountsForDate | PushCountScreen.tsx:50-72 | the view is the day's stored counts with their percentages; it exists exactly when every hour is a number; an empty day gives all zeros |
| PushCounts.ReloadAfterStore | PushCountScreen.tsx:94-97 | reloading a shown day after one hour's count was raised by one gives a day view whose counts are the old ones with only that hour raised |
| PushCounts.PercentagesSumTo100 | PushCountScreen.tsx:62-66 | on a day with pushes the 24 percentages add up to exactly 100 |
| PushCounts.PercentagesBounded | PushCountScreen.tsx:62-66 | with no negative counts every percentage lies in [0, 100] |
| PushCounts.EmptyStoreReadable | PushCountScreen.tsx:39-41 | in an empty store every hour of every date reads as a non-negative number |
| PushCounts.StoreKeepsReadable | PushCountScreen.tsx:24-34 | storing a non-negative count keeps every hour of every date readable as a non-negative number |
| PushCounts.ReadableLoads | PushCountScreen.tsx:50-66 | a readable store always loads to a full day view with non-negative counts |
| PushCountScreen.PushGateIsToday | PushCountScreen.tsx:147-151 | since today is never in the future, a bar accepts pushes exactly when the selected date is today |
| PushCountScreen.Mount | PushCountScreen.tsx:108-129 | mounting selects today, closes the calendar and shows today's stored day; a readable store always loads |
| PushCountScreen.HandlePush | PushCountScreen.tsx:83-102 | the current hour of the selected date reads back as its shown count plus one; every other (date, hour) reads as before and every other storage key keeps its value; the reloaded view shows the store, with exactly that hour raised by one; readability is kept |
| PushCountScreen.PressBar | PushCountScreen.tsx:145-151 | a press outside the gate changes nothing; storage changes only when the selected date is today; inside the gate, today's current hour goes up by one; no other storage key changes |
| PushCountScreen.DayPress | PushCountScreen.tsx:168-174 | a date that `isPastDate` accepts becomes selected and loaded, and the calendar closes; any other press changes nothing |
| PushCountScreen.ToggleCalendar | PushCountScreen.tsx:121-123 | the calendar's visibility flips; the date and the view stay |

## Left out

- Timers are not modelled. The one-second `liveDuration` interval (`ContractionsScreen.tsx:106-119`) becomes a plain argument of `LiveText`. The delayed `scrollToEnd` (`ContractionsScreen.tsx:87`) is not modelled at all.
- Dates as text are not modelled: `toLocaleString`, `toISOString().split('T')[0]`, `getHours()` and `new Date(date) <= new Date()`. Timestamps stay numbers, and today, the hour and `isPastDate` are parameters.
- Layout is not modelled: styles, list inversion, keys, the hour label padding, and the bar width `percentage / 1.5`.
- Asynchrony is not modelled. Each `await` completes before the next step, so a tap made before the mount-time restore finishes, or a push made before the day view loads, is not modelled.
- Storage failures are not modelled. The `catch` branches only log, and the model's store never fails.
- `currentPushCount` (`PushCountScreen.tsx:21`, `112-116`) is not modelled. It is loaded on mount and never shown.
- The two mount effects (`PushCountScreen.tsx:108-129`) both select today and load it. `Mount` does this once, which gives the same state.
- Numbers are unbounded integers, and percentages are exact reals rather than doubles. So precision loss above 2^53 and rounding in `/ totalPushes * 100` are not modelled.
- JsText.ParseInt: only ASCII and the vertical-tab and form-feed characters count as leading white space, not the Unicode spaces JavaScript also skips.
- JsText.IntToString: does not produce the exponent form JavaScript uses from 1e21 upwards.
- TapJson.Decode: accepts only the canonical text that `JSON.stringify` writes for an integer array. Other valid JSON (white space, fractions, a non-array) is treated as a parse failure, and the source would instead store whatever the parse returns.
- PushCounts.LoadPushCountsForDate: when an hour reads as NaN, the result is `None`. The source would still show the other raw counts, with NaN percentages.
- PushCountScreen.HandlePush: requires a loaded day, so in the model a day with an unreadable hour cannot be pushed. The source still renders 24 bars for such a day (its percentages are NaN), and a press on one still calls `handlePush`.
- PushCountScreen.PressBar: requires a loaded day for the same reason, so it too leaves out pushes on a day with an unreadable hour.
- The source comment on the active break phase says "5 minutes to 2 minutes". The code tests 3 to 5 minutes, and the model follows the code.
- `TabsScreen.tsx`, `App.tsx` and `RadarChartBasic.js` are navigation and charting. They are not part of this model.
