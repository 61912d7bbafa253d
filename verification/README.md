# Calendar assistant post-processing, modelled in Dafny

A calendar application lets users describe events in free text ("lunch with
Sam tomorrow at noon"). A language model extracts structured events from that
text. This project models the deterministic logic around the model calls and
proves properties of it:

- **`calendar-ai` edge function** (`calendar_time.dfy`, `calendar_ai.dfy`):
  - `createLocalDateTime` finds `H:MM [AM|PM]` in a time string and converts
    it to the 24-hour clock. It then writes a local `YYYY-MM-DDTHH:MM:00`
    timestamp with no `Z`.
  - The response interpreter sends the model's parsed JSON down one of two
    paths. A reply with an `events` array takes the multi-event path. Any other
    reply takes the single-event path, where it is reconciled field by field
    with the event being edited.
  - A reply that does not parse, or whose processing throws, becomes a
    low-confidence reply that asks for more details.
- **Colour scheme** (`colors.dfy`):
  - the `EVENT_COLORS` table and its three lookups;
  - `suggestEventColor`, which scores the eight colours by keyword hits in
    nested loops and returns the first colour with the highest score.
- **Client AI service** (`assistant.dfy`):
  - the fallback results of `parseEventDescription`;
  - the JSON-span extraction, merge, completeness flag and leftover message of
    `handleFollowUp`, with its variables updated step by step;
  - the timestamp extraction and five-item cap of
    `generateSchedulingSuggestions`.
- **Event-card store** (`event_store.dfy`): a class with the store's two
  fields. Its methods `OpenEventCard`, `CloseEventCard` and `Reset` keep the
  invariant "the drawer is shown exactly when an event is selected".

Shared JavaScript string behaviour is in `text.dfy`:

- `String(n)` and `padStart(2, '0')`;
- `parseInt` on digit strings;
- `trim`;
- ASCII `toLowerCase`;
- `includes`;
- the first-occurrence `replace`.

`wrappers.dfy` holds the `Option` type.

JSON values that the code reads as strings are absent, `null` or a string
(`CalendarAi.JsField`). A `null` is falsy but is not `undefined`.

Behaviour of the code worth knowing:

- An empty `events` array still selects the multi-event path. The test at
  supabase/functions/calendar-ai/index.ts:205 is
  `parsed.events && Array.isArray(parsed.events)`, and `[]` is truthy
  (`CalendarAi.EmptyEventsArray`).
- The confidence of a reply is passed through as the model gave it. Only an
  absent, `null` or zero value is replaced, by 80 (index.ts:225, 232, 281).
- Hours are not range-checked. `"13:00 PM"` becomes hour 25 (index.ts:46-52).
- From hour 100 on, `padStart(2, '0')` keeps all the digits, so `"88:00 PM"`
  becomes `T100:00:00`, three hour digits (index.ts:59-62, `Text.TwoDigits`).
- In the editing reconciler (index.ts:262-270) the title, the times and the
  colour fall back when the new value is falsy. Location and description fall
  back only when they are `undefined`, so an empty string or a `null` from the
  reply replaces the original (`CalendarAi.EmptyLocationKept`,
  `CalendarAi.NullLocationKept`).
- A `startDate` that does not parse, with a time string that holds no `H:MM`,
  makes `toISOString` throw (index.ts:38-43). That throw is inside the same
  `try` as `JSON.parse` (index.ts:201-300), so the reply is the parse-failure
  reply (`CalendarAi.InvalidDateWithoutTime`).
- An `events` element that is `null` throws when its `startDate` is read
  (index.ts:210). This also gives the parse-failure reply
  (`CalendarAi.NullElementFallsBack`). So does a reply that parses to `null`,
  because reading `parsed.events` then throws.

## Model

| member | source | states |
|---|---|---|
| `Text.NatToString` | supabase/functions/calendar-ai/index.ts:58-62 | `String(n)` of a natural is a non-empty digit string with no leading zero from 10 on, one character below 10 and two from 10 to 99 |
| `Text.NatToStringRoundTrip` | supabase/functions/calendar-ai/index.ts:58-62 | reading back the decimal text of `n` gives `n` |
| `Text.IntToString` | supabase/functions/calendar-ai/index.ts:58 | `String(year)` of a negative year is `-` followed by the digits of its magnitude, otherwise it is the digits |
| `Text.PadStart2` | supabase/functions/calendar-ai/index.ts:59-62 | `padStart(2, '0')` leaves strings of length 2 or more alone, and left-fills shorter ones with `0` up to length 2, keeping the original as the suffix |
| `Text.TwoDigitValue` | supabase/functions/calendar-ai/index.ts:46-47 | `parseInt` of two digits is ten times the first plus the second, below 100 |
| `Text.TwoDigits` | supabase/functions/calendar-ai/index.ts:59-62 | the field is all digits; two of them below 100; from 10 on it is the plain decimal text, so from 100 on it has three or more digits |
| `Text.TwoDigitsRoundTrip` | supabase/functions/calendar-ai/index.ts:59-62 | for `n < 100` the padded field is two digits that read back as `n` |
| `Text.DecimalValue` | supabase/functions/calendar-ai/index.ts:46-47 | `parseInt` of a digit string is a natural below 10 to the power of its length |
| `Text.TrimStart` | src/lib/ai/openai.ts:116 | the result is a suffix of the input, everything removed is white space, and the result does not start with white space |
| `Text.TrimEnd` | src/lib/ai/openai.ts:116 | the result is a prefix of the input, everything removed is white space, and the result does not end with white space |
| `Text.Trim` | src/lib/ai/openai.ts:116 | `trim()` yields a string that is empty or starts and ends with a non-space character |
| `Text.TrimRemovesOnlySpace` | src/lib/ai/openai.ts:116 | `trim()` yields a contiguous slice of the input, and only white space lies on either side of it |
| `Text.LowerChar` | src/lib/utils/colors.ts:100 | `A`–`Z` map to `a`–`z` and every other character is unchanged |
| `Text.Lower` | src/lib/utils/colors.ts:100 | `toLowerCase` keeps the length and lowers each character in place |
| `Text.Contains` | src/lib/utils/colors.ts:121 | `includes` of the empty pattern holds, and a pattern that is found is no longer than the text |
| `Text.IndexOf` | src/lib/ai/openai.ts:116 | the first index from `from` on where the pattern occurs; no occurrence before it; `None` exactly when it occurs nowhere |
| `Text.ReplaceFirst` | src/lib/ai/openai.ts:116 | `replace` with a string pattern leaves the text unchanged when the pattern does not occur |
| `CalendarTime.SkipSpaces` | supabase/functions/calendar-ai/index.ts:41 | `\s*` consumes only white space, and stops at the end or at a non-space |
| `CalendarTime.Capture` | supabase/functions/calendar-ai/index.ts:41 | the captured hour is one or two digits and the minutes exactly two digits; the capture starts at the match position and the hour spans the digits read |
| `CalendarTime.CaptureReadsText` | supabase/functions/calendar-ai/index.ts:41 | the captured `hour:minutes` is the text at the match position, and the meridiem is what follows the optional white space after the minutes |
| `CalendarTime.MeridiemAt` | supabase/functions/calendar-ai/index.ts:41 | the optional `(AM|PM)` group under the `i` flag: AM exactly when the two characters at the position are `a` or `A` then `m` or `M`, PM likewise with `p`, and nothing otherwise |
| `CalendarTime.MatchAt` | supabase/functions/calendar-ai/index.ts:41 | a match attempted at `i` starts at `i` and has well-formed captures |
| `CalendarTime.MatchAtReadsDigits` | supabase/functions/calendar-ai/index.ts:41 | a match at `i` reads `hour:minutes` from the text there, takes a one-digit hour only when no two-digit hour fits, and fails exactly when neither one digit nor two digits followed by `:dd` start at `i` |
| `CalendarTime.FindTime` | supabase/functions/calendar-ai/index.ts:41 | the unanchored regex returns the leftmost match: nothing matches before it, and `None` means nothing matches anywhere |
| `CalendarTime.NoMatchIffNoPattern` | supabase/functions/calendar-ai/index.ts:41-44 | the regex fails exactly when the string contains no digit–colon–two-digits |
| `CalendarTime.MinuteValue` | supabase/functions/calendar-ai/index.ts:47 | the minutes value is below 100 (it is not range-checked to 59) |
| `CalendarTime.HourValue` | supabase/functions/calendar-ai/index.ts:46 | the parsed hour is below 100, and below 10 when one digit was captured |
| `CalendarTime.To24Hour` | supabase/functions/calendar-ai/index.ts:50-55 | for every hour, with no range check: PM gives 12 for 12 and the hour plus 12 otherwise; AM gives 0 for 12 and the hour otherwise; without AM/PM the hour is kept |
| `CalendarTime.DatePrefix` | supabase/functions/calendar-ai/index.ts:57-60 | an invalid date prints `NaN-NaN-NaN`; a valid one starts with `String(year)` and a dash |
| `CalendarTime.LocalDateTime` | supabase/functions/calendar-ai/index.ts:36-66 | without a time match the result is the date's own ISO string, and `toISOString` throws exactly when the date is invalid as well |
| `CalendarTime.CreateLocalDateTime` | supabase/functions/calendar-ai/index.ts:36-66 | the step-by-step conversion, with `hours` reassigned in place, equals `LocalDateTime` |
| `CalendarTime.TwelveHourClock` | supabase/functions/calendar-ai/index.ts:50-55 | for hours 1–12, AM gives `h mod 12` and PM gives `h mod 12 + 12`, always below 24 |
| `CalendarTime.TwelveHourClockInjective` | supabase/functions/calendar-ai/index.ts:50-55 | two distinct 12-hour readings never give the same 24-hour hour |
| `CalendarTime.TimestampLayout` | supabase/functions/calendar-ai/index.ts:57-65 | for a converted hour below 100, the output is `year-MM-DDTHH:MM:00`: four two-digit fields that read back as month, day, converted hour and minutes, seconds `00`, and nothing after them (no `Z`) |
| `CalendarTime.ConcatLayout` | supabase/functions/calendar-ai/index.ts:65 | each field of the template literal sits at a fixed offset after the year |
| `CalendarTime.FirstOfMarch2024` | supabase/functions/calendar-ai/index.ts:58-60 | year 2024, month 3, day 1 print as `2024-03-01` |
| `CalendarTime.Match24Hour` | supabase/functions/calendar-ai/index.ts:41-47 | `"14:30"` matches at 0 with hour 14, minutes 30 and no AM/PM |
| `CalendarTime.MatchAfternoon` | supabase/functions/calendar-ai/index.ts:41-48 | `"2:15 PM"` matches at 0 with a one-digit hour 2, minutes 15 and PM |
| `CalendarTime.MatchMidnight` | supabase/functions/calendar-ai/index.ts:41-48 | `"12:00 AM"` matches at 0 with hour 12, minutes 0 and AM |
| `CalendarTime.MatchHourOutOfRange` | supabase/functions/calendar-ai/index.ts:41-48 | `"13:00 PM"` matches with hour 13 and PM: the regex takes any two digits |
| `CalendarTime.Example24Hour` | supabase/functions/calendar-ai/index.ts:36-66 | `"14:30"` on 2024-03-01 gives `2024-03-01T14:30:00` |
| `CalendarTime.ExampleAfternoon` | supabase/functions/calendar-ai/index.ts:51-52 | `"2:15 PM"` gives hour 14 |
| `CalendarTime.ExampleMidnight` | supabase/functions/calendar-ai/index.ts:53-54 | `"12:00 AM"` gives hour 00 |
| `CalendarTime.ExampleHourOutOfRange` | supabase/functions/calendar-ai/index.ts:46-52 | hours are not range-checked: `"13:00 PM"` gives hour 25 |
| `CalendarTime.UnanchoredMatch` | supabase/functions/calendar-ai/index.ts:41 | in `"at 7:05pm sharp"` the leftmost match starts at index 3 and reads 7, 05, PM (the `i` flag accepts `pm`) |
| `CalendarTime.ExampleUnanchored` | supabase/functions/calendar-ai/index.ts:41-65 | text around the time is ignored: `"at 7:05pm sharp"` gives `T19:05:00` |
| `CalendarAi.OrElse` | supabase/functions/calendar-ai/index.ts:224 | a string field defaults to the fallback unless it is a non-empty string |
| `CalendarAi.Show` | supabase/functions/calendar-ai/index.ts:283 | a string field prints as itself, `null` as `null` and an absent field as `undefined` |
| `CalendarAi.UnlessFalsy` | supabase/functions/calendar-ai/index.ts:264-266 | a truthy new value is kept, otherwise the original; the result is truthy exactly when either is |
| `CalendarAi.UnlessAbsent` | supabase/functions/calendar-ai/index.ts:267-268 | any new value but `undefined` is kept, `null` and `''` included, otherwise the original; the result is absent exactly when both are |
| `CalendarAi.ConfidenceOr80` | supabase/functions/calendar-ai/index.ts:225 | the confidence is the reply's unless that is absent, `null` or zero, then 80; never 0 |
| `CalendarAi.EventTime` | supabase/functions/calendar-ai/index.ts:207-216 | a time stays `''` unless both `startDate` and that time field are truthy, and then it is `createLocalDateTime` of them |
| `CalendarAi.ProcessEvent` | supabase/functions/calendar-ai/index.ts:206-227 | one element throws exactly when it is `null` or one of its times throws; otherwise it keeps title, description and location, its times are the `createLocalDateTime` texts (or `''`), its colour defaults to `blue` and its confidence is the reply's defaulting to 80 |
| `CalendarAi.ProcessEvents` | supabase/functions/calendar-ai/index.ts:206-227 | the `map` fails exactly when some element throws; otherwise it has the same length, and element `i` is the processing of input element `i` |
| `CalendarAi.NotUnderstoodReply` | supabase/functions/calendar-ai/index.ts:289-299 | the fallback reply has confidence 20, the original input, and exactly one question, which contains the input in double quotes |
| `CalendarAi.MultiReply` | supabase/functions/calendar-ai/index.ts:229-239 | the multi-event reply carries the processed events and the input, confidence defaulting to 80, questions to `[]`, and the chat message or `I've scheduled <n> events for you.` with `n` the number of events |
| `CalendarAi.SingleReply` | supabase/functions/calendar-ai/index.ts:254-288 | the single-event reply carries the input; without editing, title, location and description are the reply's and the times are the computed ones; confidence defaults to 80 and questions to `[]`; the chat message defaults to `I've updated` or `I've scheduled` followed by the quoted title and the start time as JavaScript prints them |
| `CalendarAi.Interpret` | supabase/functions/calendar-ai/index.ts:201-300 | a failed parse gives the fallback reply; a multi-event reply only comes from an `events` array and a single-event reply only from a parsed reply without one; every other reply is exactly the fallback reply; the input is always `originalInput` |
| `CalendarAi.BuildEventTime` | supabase/functions/calendar-ai/index.ts:243-252 | the `let` that starts as `''` and is overwritten under the guard equals `EventTime` |
| `CalendarAi.ReconcileSingle` | supabase/functions/calendar-ai/index.ts:254-288 | the six `final*` variables, overwritten in the editing branch, build the single-event reply |
| `CalendarAi.InterpretResponse` | supabase/functions/calendar-ai/index.ts:201-300 | the body of the inner `try` (parse, multi-event path, both times, reconciliation, `catch`) equals `Interpret` |
| `CalendarAi.Handle` | supabase/functions/calendar-ai/index.ts:76-81 | 400 exactly when the input is empty; for a non-empty input, 500 when the model call is rejected (lines 189-194) or returns no content (lines 196-199), with the thrown message as details (lines 301-309), and otherwise exactly the interpreted reply; the prompt-assembly throws listed under Left out are not modelled |
| `CalendarAi.MultiEventPath` | supabase/functions/calendar-ai/index.ts:205-236 | the multi-event reply comes exactly when `events` is an array with no `null` or throwing element; it has the same length and order, `isMultipleEvents` true, per-event title, start and end as `createLocalDateTime` gives them, colour defaulting to `blue` when falsy and the reply confidence defaulting to 80 |
| `CalendarAi.EmptyEventsArray` | supabase/functions/calendar-ai/index.ts:205 | `events: []` still takes the multi-event path and yields no events |
| `CalendarAi.SingleEventPath` | supabase/functions/calendar-ai/index.ts:242-288 | without an events array the reply is a single event with `isMultipleEvents` false, confidence defaulting to 80 and questions to `[]`; without editing, its times are the `createLocalDateTime` texts, empty unless the date and that time are given |
| `CalendarAi.EditReconciliation` | supabase/functions/calendar-ai/index.ts:262-270 | when editing: title, start and end fall back when falsy; location and description only when absent; colour is the reply's, else the original's, else `blue` |
| `CalendarAi.EmptyLocationKept` | supabase/functions/calendar-ai/index.ts:267 | an empty-string location from the reply overrides the original location |
| `CalendarAi.NullLocationKept` | supabase/functions/calendar-ai/index.ts:267 | a `null` location from the reply is not `undefined`, so it replaces the original location |
| `CalendarAi.NullTitleFallsBack` | supabase/functions/calendar-ai/index.ts:264 | a `null` title is falsy, so the original title is kept |
| `CalendarAi.NullElementFallsBack` | supabase/functions/calendar-ai/index.ts:206-210 | a `null` element of `events` makes the `map` throw, and the reply is the fallback reply |
| `CalendarAi.ColorWithoutEditing` | supabase/functions/calendar-ai/index.ts:255-260 | without editing, the fields are copied from the reply and the colour is the reply's, or `blue` when that is falsy |
| `CalendarAi.StandupExample` | supabase/functions/calendar-ai/index.ts:262-270 | renaming "Standup" in "Room A" keeps the room |
| `CalendarAi.ParseFailure` | supabase/functions/calendar-ai/index.ts:289-299 | a non-JSON reply gives confidence 20, one question quoting the input, and no `isMultipleEvents` |
| `CalendarAi.NoonHasNoTime` | supabase/functions/calendar-ai/index.ts:41-43 | `"noon"` has no `H:MM`, so on an invalid date `toISOString` throws |
| `CalendarAi.SingleEventThrowFallsBack` | supabase/functions/calendar-ai/index.ts:246-252 | a throw while building either single-event time gives the same reply as a parse failure |
| `CalendarAi.InvalidNoonThrows` | supabase/functions/calendar-ai/index.ts:246-248 | an invalid `startDate` with start time `"noon"` makes the start time throw |
| `CalendarAi.InvalidDateWithoutTime` | supabase/functions/calendar-ai/index.ts:38-43 | an invalid date with an unmatched time yields the parse-failure reply |
| `Colors.Ordinal` | src/lib/utils/colors.ts:115-117 | each colour's position in key order, which `Object.entries` follows |
| `Colors.EventColors` | src/lib/utils/colors.ts:2-75 | every entry of the table has a non-empty name and three concepts |
| `Colors.GetEventColorClasses` | src/lib/utils/colors.ts:79-88 | exactly the bg, border, text, hover and badge strings of the table entry |
| `Colors.GetEventColorName` | src/lib/utils/colors.ts:90-92 | the entry's `name` |
| `Colors.NameIsCapitalisedKey` | src/lib/utils/colors.ts:2-75 | every display name is its key with the first letter upper-cased |
| `Colors.GetEventColorConcepts` | src/lib/utils/colors.ts:94-96 | the entry's concepts, three for every colour |
| `Colors.MatchText` | src/lib/utils/colors.ts:100 | the matched text is the lower-cased title, one space, then the lower-cased description or nothing |
| `Colors.Keywords` | src/lib/utils/colors.ts:103-112 | each colour has seven or eight keywords |
| `Colors.KeywordNonEmpty` | src/lib/utils/colors.ts:103-112 | no keyword is empty, so none occurs in the empty text |
| `Colors.CountHits` | src/lib/utils/colors.ts:119-125 | a colour's score never exceeds its number of keywords |
| `Colors.CountHitsStep` | src/lib/utils/colors.ts:120-124 | one inner-loop step adds one exactly when that keyword occurs |
| `Colors.Score` | src/lib/utils/colors.ts:115-125 | `scores[color]` counts the colour's keywords found in the text, so it is at most eight |
| `Colors.MaxScore` | src/lib/utils/colors.ts:128 | `Math.max` is at least every score and equal to one of them |
| `Colors.Winners` | src/lib/utils/colors.ts:129-131 | every colour the filter keeps has the maximum score and lies at or after the start; the list is empty exactly when no colour from there has it, and no colour before the first kept one has it |
| `Colors.WinnersKeepEveryMaximum` | src/lib/utils/colors.ts:129-131 | every colour with the maximum score is kept by the filter |
| `Colors.WinnersInOrder` | src/lib/utils/colors.ts:129-131 | the kept colours are in strictly increasing key order, so each appears once |
| `Colors.BlueDefaultUnreachable` | src/lib/utils/colors.ts:134 | the filtered list is never empty, so the `'blue'` default is dead code |
| `Colors.PickColor` | src/lib/utils/colors.ts:127-134 | the pick has the highest score, and every colour before it scores strictly less |
| `Colors.SuggestEventColor` | src/lib/utils/colors.ts:98-135 | the nested scoring loops followed by the pick return the suggestion for the lower-cased `title description` text |
| `Colors.PickedIsSuggestion` | src/lib/utils/colors.ts:127-134 | the pick over the loop's scores is a suggestion for the text |
| `Colors.SuggestionUnique` | src/lib/utils/colors.ts:127-134 | arg-max with ties to the earliest colour determines one colour |
| `Colors.NoHitsGivesYellow` | src/lib/utils/colors.ts:128-134 | a text without any keyword gets yellow |
| `Colors.CaseInsensitive` | src/lib/utils/colors.ts:100 | titles equal up to case give the same matched text |
| `Colors.LowerConcat` | src/lib/utils/colors.ts:100 | lower-casing the joined text lower-cases each part |
| `Colors.HitCounts` | src/lib/utils/colors.ts:121-122 | a keyword that occurs gives its colour a score of at least one |
| `Colors.OnlyHitsCount` | src/lib/utils/colors.ts:119-125 | when only one keyword occurs, a colour's score is the number of times that keyword appears in its list |
| `Colors.MatchingIndicesSnoc` | src/lib/utils/colors.ts:120 | appending a keyword adds one position exactly when it is the one searched for |
| `Colors.MeetingScore` | src/lib/utils/colors.ts:105-106 | with only `meeting` present, orange and blue score 1 and the rest 0 |
| `Colors.MeetingGoesToOrange` | src/lib/utils/colors.ts:105-134 | orange and blue then tie, and orange, declared first, wins |
| `Assistant.NotUnderstoodQuestion` | src/lib/ai/openai.ts:55 | the question contains the input in double quotes |
| `Assistant.ParseEventDescription` | src/lib/ai/openai.ts:38-65 | `originalInput` is always the input; a failed call or empty content gives exactly confidence 0 and the rephrase question; non-JSON gives confidence 20 and one question quoting the input; parsed JSON is spread with `originalInput` overriding |
| `Assistant.LastIndexOf` | src/lib/ai/openai.ts:109 | the last `}` before a bound, or none in that range |
| `Assistant.JsonSpan` | src/lib/ai/openai.ts:109 | the greedy match runs from the first `{` to the last `}`, with no `{` before it and no `}` after it |
| `Assistant.NoSpanIffNoBracePair` | src/lib/ai/openai.ts:109-110 | there is no match exactly when no `}` follows any `{` |
| `Assistant.ReplaceSpan` | src/lib/ai/openai.ts:116 | `replace(jsonMatch[0], '')` removes exactly the matched stretch, because no earlier occurrence can start before the first `{` |
| `Assistant.Extract` | src/lib/ai/openai.ts:109-112 | an extraction lies inside the reply |
| `Assistant.Leftover` | src/lib/ai/openai.ts:116-126 | the leftover message is never empty |
| `Assistant.FollowUp` | src/lib/ai/openai.ts:96-137 | a failed call or empty content gives exactly the trouble message with the partial data and `isComplete` false (lines 130-137); a complete reply needs content with a span that parses; the message is never empty |
| `Assistant.FollowUpParsedLeftover` | src/lib/ai/openai.ts:110-119 | with a span that parses, the reply is the leftover, the merge and the essentials check |
| `Assistant.LeftoverByReplace` | src/lib/ai/openai.ts:116-126 | the leftover equals `trim` of the `replace`, or the default question when that is empty |
| `Assistant.FollowUpParsed` | src/lib/ai/openai.ts:111-119 | the reply in the terms the method computes (replace, trim, spread, truthy checks) |
| `Assistant.HandleFollowUp` | src/lib/ai/openai.ts:96-137 | the method, which updates `message`, `updatedEventData` and `isComplete` step by step, returns `FollowUp` |
| `Assistant.FollowUpWithoutExtraction` | src/lib/ai/openai.ts:104-123 | without a parsable span the message is the reply itself, the data is unchanged and `isComplete` is false |
| `Assistant.FollowUpWithExtraction` | src/lib/ai/openai.ts:111-126 | with a parsable span the data is the extracted object spread over the partial data; `isComplete` holds iff the extracted title, startTime and endTime are truthy; the message is the rest of the reply trimmed, or the default question |
| `Assistant.CompleteHasEssentials` | src/lib/ai/openai.ts:119 | a complete follow-up's merged data has a truthy title, start and end |
| `Assistant.EarlierFieldsKept` | src/lib/ai/openai.ts:113 | a field of the partial data stays, with the extracted value where the extraction sets it |
| `Assistant.MatchPositions` | src/lib/ai/openai.ts:174-175 | the global regex finds matches in increasing, non-overlapping positions; the first is leftmost, and there are none exactly when nothing matches |
| `Assistant.MatchPositionsMissNothing` | src/lib/ai/openai.ts:174-175 | no timestamp starts in a gap between two consecutive matches or after the last match |
| `Assistant.NoMatchInGap` | src/lib/ai/openai.ts:174-175 | a timestamp cannot start between the end of one match and the start of the next |
| `Assistant.NothingAfterLast` | src/lib/ai/openai.ts:174-175 | the search resumed after the last match finds nothing more |
| `Assistant.AllDateTimes` | src/lib/ai/openai.ts:175 | `match` with the global flag gives one text per match, in order, each the 19 characters at its position; the list is empty exactly when no timestamp occurs |
| `Assistant.GenerateSchedulingSuggestions` | src/lib/ai/openai.ts:171-181 | at most 5 suggestions: the first `min(n, 5)` matches, each a `dddd-dd-ddTdd:dd:dd` slice, in order; none on failure or without a match |
| `Assistant.SuggestionsAreTimestamps` | src/lib/ai/openai.ts:174-177 | every slice taken at a match position is a timestamp |
| `EventStore.Opened` | src/lib/stores/eventStore.ts:17-23 | the `openEventCard` updater selects the event and keeps the drawer invariant |
| `EventStore.Closed` | src/lib/stores/eventStore.ts:24-30 | the `closeEventCard` updater yields the initial state from any state |
| `EventStore.Apply` | src/lib/stores/eventStore.ts:17-36 | each action leaves the drawer invariant true; opening selects its event; closing and resetting give the initial state |
| `EventStore.Run` | src/lib/stores/eventStore.ts:10-36 | no actions leave the state as it was; after at least one action the drawer invariant holds |
| `EventStore.RunKeepsConsistent` | src/lib/stores/eventStore.ts:10-36 | no sequence of open, close and reset breaks "drawer shown iff an event is selected" |
| `EventStore.LastActionDecides` | src/lib/stores/eventStore.ts:17-36 | after a sequence of actions, the state depends only on the last action |
| `EventStore.CloseAndResetIdempotent` | src/lib/stores/eventStore.ts:24-36 | close and reset are idempotent and give the same state |
| `EventStore.Store.constructor` | src/lib/stores/eventStore.ts:10-13 | the store starts with no selected event and the drawer closed |
| `EventStore.Store.OpenEventCard` | src/lib/stores/eventStore.ts:17-23 | sets the selected event, opens the drawer, and keeps the invariant |
| `EventStore.Store.CloseEventCard` | src/lib/stores/eventStore.ts:24-30 | clears the selection, closes the drawer, and returns to the initial state |
| `EventStore.Store.Reset` | src/lib/stores/eventStore.ts:31-36 | returns to the initial state from any state |

## Left out

- The OpenAI calls, `Deno.serve`, CORS headers and HTTP response construction are not modelled. The model's output is an input: a rejected call with its message, no content, or text handed to `JSON.parse`. Network and foreign API.
- Prompt assembly (supabase/functions/calendar-ai/index.ts:83-187, src/lib/ai/openai.ts:22-26, 77-84, 153-159) is not modelled. It builds natural-language templates; the ways it can throw are listed under `CalendarAi.Handle` and under `CallFailed` below.
- `JSON.parse` is not modelled.
  - In the edge function it is the `ParseOutcome` input: a failure, or a record of optional fields.
  - In the client service it is a function parameter that gives an object or a failure.
  - A reply that parses to a non-object value other than `null` (a number, an array) is not distinguished from an object.
  - A field the code reads as a string is absent, `null` or a string. A number or an object in such a field is not modelled.
- `new Date(dateStr)`, its local calendar fields and `toISOString` depend on the host time zone and are not modelled. The caller supplies the year, month, day and the ISO string, or `InvalidDate`. An invalid date prints `NaN` in each field.
- `createLocalDateTime` accepts a `timezone` argument and never reads it (supabase/functions/calendar-ai/index.ts:36). `CalendarTime.CreateLocalDateTime` takes the same parameter and does not read it either; the function `CalendarTime.LocalDateTime` that specifies it has no such parameter.
- `Text.Lower`: `toLowerCase` is modelled for ASCII letters only. Unicode case mapping is outside the model.
- Numbers are modelled as Dafny `real`, so floating-point rounding of the confidence is not modelled.
- `CalendarAi.ConfidenceOr80`: `confidence` is modelled as an optional number and `questions` as an optional list of strings (`Option<real>`, `Option<seq<string>>`). The code passes either through `||` whatever its JSON type, so a string such as `"90"` or a non-empty object would reach the reply unchanged; values of other types are not modelled.
- `Text.ReplaceFirst`: its own contract covers only the case with no occurrence. The case `handleFollowUp` uses, with the matched span, is proved separately by `Assistant.ReplaceSpan`.
- `Assistant.FollowUp`: its own contract states the failure reply, when the reply can be complete, and that the message is never empty. The path with content is stated by `Assistant.FollowUpWithExtraction`, `Assistant.FollowUpWithoutExtraction` and `Assistant.EarlierFieldsKept`.
- `Assistant.Extract`: its own contract bounds the span only. What the span is comes from `Assistant.JsonSpan`.
- In `parseEventDescription` and `handleFollowUp`, `CallFailed` stands for any throw before the reply is read. That covers a rejected model call, and also `context.currentDate.toISOString()` in the prompt, which throws on an invalid date (src/lib/ai/openai.ts:24). Both give the same reply, so which step threw is not distinguished.
- `CalendarAi.Handle`: the request body is given as the input and the context, already read. Prompt assembly throws into the same outer `catch` (index.ts:301-309), so each of these also gives a 500 for a non-empty input, and none is modelled: a body that `req.json()` cannot read (supabase/functions/calendar-ai/index.ts:74); a missing `context`, when the prompt reads `context.timezone` (index.ts:91); a time zone that `toLocaleString` does not know, which raises a `RangeError` (index.ts:92); a missing `context.workingHours` (index.ts:93); a truthy `conversation` that is not an array while `isFollowUp` is set, whose `forEach` is not a function (index.ts:113-114); a `null` element of that `conversation`, whose `role` is read (index.ts:115); a truthy `previousEvents` that is not an array but has a positive `length`, such as a non-empty string, whose `map` is not a function (index.ts:127-128); and a `null` element of `previousEvents`, whose `title` is read (index.ts:129). `Handle` takes prompt assembly to succeed.
- `Colors.Keywords`: its own contract states the list lengths. The keywords themselves are given only by the table. That they are spelt in lower case, so that each can match the lower-cased text, is not proved.
- `Colors.EventColors`: its own contract states the name and the number of concepts. The CSS class strings are given only by the table.
- `console.error` logging and `lines = responseText.split('\n')` (src/lib/ai/openai.ts:103) are not modelled. The latter is computed and never used.
- Svelte's `subscribe` and the subscriber notifications of the writable store are not modelled. `eventStoreActions` only re-exports the three methods.
- Aliasing of the `Event` object held by the store is not modelled. Events are values.
