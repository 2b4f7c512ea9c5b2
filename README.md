# Restaurant site and admin panel: a Dafny model of the core

This project models the core of a restaurant web site, its admin panel and its prompt generator:

- **Menu editor** (admin panel).
  - Hierarchical IDs such as `cat.sub.item`.
  - Conversion between the nested menu and the flat form of four maps, and the clean-up of the menu before it is sent to the backend (`menuDataUtils.js`).
  - The editor state and the change badges (`useMenuState.js`).
  - The add, update, delete, undo and move handlers (`useEntityOperations.js`).
  - Menu validation (`useMenuValidation.js`).
- **Form helpers** (admin panel): the field validators (`validationUtils.js`), the image-upload checks (`imageValidationUtils.js`), the opening-hours editor (`ScheduleForm.jsx`), the gallery editor (`MultiImageForm.jsx`) and the hexadecimal colour codec (`CustomColorPicker.jsx`).
- **Public site.**
  - The translation core: localized URLs, locale detection, flattening of translation files, lookup with fallback, parameters and statistics (`src/i18n/core.js`).
  - The locale middleware (`src/middleware/i18n.js`).
  - The opening-hours rules of the contact repository and the contact service.
  - The pure helpers of the authentication service: the bearer token, the retry loop for rate-limited calls, the wait and its wording, and the mapping of errors to responses.
- **Prompt generator** (`agent.py`): the selector that parses the requested user-story IDs, picks the table rows with those IDs, reports the IDs no row has and cleans the cells shown in the prompt.

There is one Dafny module per source file.

Shared modules model the JavaScript built-ins the code relies on:

- `Strings`: `trim`, `split`, `join`, `indexOf` and `replace`.
- `Numbers`: `parseFloat`, `Number` and `parseInt`.
- `Sorting`: the stable `Array.prototype.sort`.
- `OrderedMaps`: a `Map` that keeps insertion order.
- `Sequences`: `filter`.
- `Grouping`: grouping a list by key into a dictionary.
- `Wrappers`: `null` as `Option`.

How the source's forms are modelled:

- Code that updates an object in place is modelled as a class with `modifies` clauses. Examples: the editor state, the gallery form, the translation store and the schedules the contact repository sorts.
- Loops are modelled as methods with loop invariants. Each method is proved against a function that specifies it.
- Pure helpers are modelled as functions, with lemmas stating what they promise.
- A React `setState(prev => ...)` is modelled as an update of the class's fields within one handler.

## Model

| member | source | states |
|---|---|---|
| Agent.LStrip | agent.py:35 | the result is a suffix of the text that starts with a non-space character or is empty, and everything cut off is Python white space |
| Agent.RStrip | agent.py:35 | the result is a prefix of the text that ends with a non-space character or is empty, and everything cut off is Python white space |
| Agent.StripMeans | agent.py:35 | `strip()` keeps the middle stretch of the text: what lies before and after it is white space, and the stretch neither starts nor ends with white space |
| Agent.StripAt | agent.py:35 | the stretch `strip()` keeps starts where `lstrip()`'s result starts and is as long as `rstrip()`'s result |
| Agent.StripNoOp | agent.py:35 | a text with no white space at either end is left unchanged by `strip()` |
| Agent.StripKeeps | agent.py:35 | `strip()` adds no character: every character of the result occurs in the text |
| Agent.RequestedIdsMeans | agent.py:35 | there is one requested ID per comma-separated piece, an empty piece included; each ID is its piece stripped and holds no comma; when stripping changes no piece, joining the IDs with commas gives back the text |
| Agent.RequestedIds | agent.py:35 | the requested IDs, as `RequestedIdsMeans` states |
| Agent.SelectStoriesNone | agent.py:39-45 | the selection is `None` exactly when the `ID_US` column is missing or no row's ID, as text, is among the requested IDs |
| Agent.SelectedRows | agent.py:39 | the selected rows are the table's rows whose ID is requested, each as often as in the table and in table order |
| Agent.MissingIds | agent.py:48-51 | a requested ID is reported missing exactly when no row of the table has it; each missing ID is listed as often as it was requested, and in request order |
| Agent.SelectStories | agent.py:39-50 | the selected rows and the missing IDs, as `SelectStoriesNone`, `SelectedRows` and `MissingIds` state |
| Agent.EmptyIdMatchesNan | agent.py:39 | IDs are compared as text, so a row whose ID cell is empty is selected by the requested ID "nan" |
| Agent.Clean | agent.py:181 | a missing cell contributes the empty text to the prompt |
| Agent.CleanRow | agent.py:177-181 | `datos` holds exactly the sheet's columns, each mapped to its cleaned cell |
| Agent.FieldShown | agent.py:184-193 | the prompt shows a column's cleaned cell, the empty text for an empty cell, and "N/A" for a column the sheet does not have |
| AuthService.ExtractTokenFromHeader | src/services/AuthService.js:235-243 | there is no token exactly when the header is missing or empty |
| AuthService.TokenOfBearerHeader | src/services/AuthService.js:238-240 | the token of a "Bearer " header is everything after the seven-character prefix |
| AuthService.TokenOfPlainHeader | src/services/AuthService.js:242 | a non-empty header without the prefix is its own token, so extracting again changes nothing |
| AuthService.ParseIntOfNum | src/services/AuthService.js:322 | `parseInt` of a whole number is that number |
| AuthService.MatchFrom | src/services/AuthService.js:327 | the search finds the leftmost "retry after " followed by a digit at or after the start, or reports that there is none |
| AuthService.ExtractRetryAfterPriority | src/services/AuthService.js:318-345 | the four sources in order: a truthy `details.retryAfter` decides alone; else a message holding "retry after" and a match gives the captured number, whatever the header says; else a truthy `X-RateLimit-Reset-In` header is parsed; else the wait is 60 seconds |
| AuthService.ExtractRetryAfter | src/services/AuthService.js:318-345 | the seconds to wait after a 429, taken from the four sources in the order `ExtractRetryAfterPriority` states |
| AuthService.RetryAfterFromMessage | src/services/AuthService.js:326-330 | without details, a message "… retry after N …" with no earlier match yields N |
| AuthService.ExtractFromMessage | src/services/AuthService.js:326-330 | without details, a message that contains "retry after" and matches yields the number the regex captures |
| AuthService.FirstMatch | src/services/AuthService.js:327 | a match with none before it is the leftmost match |
| AuthService.RetryAfterFromDetails | src/services/AuthService.js:321-323 | a non-zero `details.retryAfter` number wins over the message and the headers |
| AuthService.DelayChoice | src/services/AuthService.js:280-282 | the wait is the server's retry-after in milliseconds when that is a non-zero number, and otherwise exactly `min(baseDelay · 2^attempt, maxDelay)` |
| AuthService.BackoffIsPower | src/services/AuthService.js:281 | doubling the base delay once per attempt is `baseDelay * Math.pow(2, attempt)` |
| AuthService.Delay | src/services/AuthService.js:280-282 | the wait before a retry, by the rule `DelayChoice` states |
| AuthService.Retrying | src/services/AuthService.js:263-294 | a run from `attempt` makes at least one call and at most `maxRetries + 1` calls in all |
| AuthService.RetryingMeans | src/services/AuthService.js:263-294 | every call before the last failed with 429 and was followed by its wait; the last call's result or error is what comes out; a 429 is given up on only at the last allowed call |
| AuthService.WithRetryMeans | src/services/AuthService.js:253-297 | `withRetry` makes at most `maxRetries + 1` calls, retries only 429, waits by the retry-after or back-off rule before each retry, and throws a 429 only after the last allowed call |
| AuthService.NoRetryOnOtherErrors | src/services/AuthService.js:270-272 | a first call that fails with anything but 429 ends the run with that error, after one call and no wait |
| AuthService.RetryingStep | src/services/AuthService.js:275-292 | a 429 before the last allowed call is followed by its wait and the next call |
| AuthService.WithRetry | src/services/AuthService.js:253-297 | the loop gives the outcome, the number of calls and the waits that `WithRetrySpec` defines, whose meaning `WithRetryMeans` states |
| AuthService.WithRetrySpec | src/services/AuthService.js:253-297 | the outcome, calls and waits of `withRetry`, whose meaning `WithRetryMeans` and `NoRetryOnOtherErrors` state |
| AuthService.RetryDelay | src/services/AuthService.js:280-282 | the wait computed in the loop body is the wait rule's |
| AuthService.CeilMinutes | src/services/AuthService.js:367 | `Math.ceil(seconds / 60)` is the number of whole minutes that cover the seconds |
| AuthService.FormatRetryTimeWording | src/services/AuthService.js:361-370 | under a minute the wait is worded in seconds; from a minute on it is worded in the whole minutes that cover it, plural above one |
| AuthService.FormatRetryTime | src/services/AuthService.js:361-370 | the wording of a wait: "unos momentos" for none or 0, else as `FormatRetryTimeWording` states |
| AuthService.CreateRateLimitMessage | src/services/AuthService.js:378-381 | the rate-limit message names the action and the wait as `FormatRetryTime` words it |
| AuthService.HandleError | src/services/AuthService.js:406-454 | a 429 is reported as rate-limited with the extracted wait and the rate-limit message; 400, 401, 403, 404 and 500 get their own messages; any other status gets the connection-error message |
| ContactRepository.TimeToMinutes | src/repositories/ContactRepository.js:275-280 | a missing or empty time is 0 minutes |
| ContactRepository.TimeOfClock | src/repositories/ContactRepository.js:275-280 | "HH:MM" with digits on both sides is 60·HH + MM minutes |
| ContactRepository.TimeOfTwoParts | src/repositories/ContactRepository.js:278-279 | a time that splits on ':' into two parts is the first part in hours plus the second in minutes, a part that is not a number counting as 0 |
| ContactRepository.TimeOfNonNumeric | src/repositories/ContactRepository.js:279 | when neither part is a number the time is midnight, 0 minutes |
| ContactRepository.FindDay | src/repositories/ContactRepository.js:229-231 | the lookup finds the first schedule whose lower-cased day name is the one asked for, or reports that none has it |
| ContactRepository.DayOf | src/repositories/ContactRepository.js:128-134 | there is a schedule for a day of the week exactly when the lookup by its English name finds one |
| ContactRepository.SpansInjective | src/repositories/ContactRepository.js:147-148 | a list of ranges can be read back from its spans, since each span carries its range; the ranges sorted through their spans are therefore recovered exactly |
| ContactRepository.StartsNoLaterIsPreorder | src/repositories/ContactRepository.js:238 | the comparator on start minutes is a total preorder, so the stable sort is well defined |
| ContactRepository.ByStart | src/repositories/ContactRepository.js:238 | the ranges ordered by start minutes are the same ranges, as many, sorted |
| ContactRepository.SortByStart | src/repositories/ContactRepository.js:237-238 | the sorted ranges are the day's ranges ordered by start, ties kept in their order |
| ContactRepository.SortedSpansAgain | src/repositories/ContactRepository.js:237-238 | sorting ranges again, sorted already or not, gives the same order |
| ContactRepository.SortByStartAgain | src/repositories/ContactRepository.js:237-238 | sorting by start is idempotent |
| ContactRepository.Later | src/repositories/ContactRepository.js:242-244 | the ranges kept are exactly those that start strictly after the moment |
| ContactRepository.LaterFirstIsEarliest | src/repositories/ContactRepository.js:242-250 | in ranges sorted by start, the first range after the moment starts no later than any other range after it |
| ContactRepository.OfferTimeIsEarliest | src/repositories/ContactRepository.js:237-263 | a day offers an opening exactly when it has a qualifying range (today: one not yet started; later days: any), and the time offered is the start of a qualifying range that starts no later than any other |
| ContactRepository.OfferTime | src/repositories/ContactRepository.js:237-263 | the start time a day offers, as `OfferTimeIsEarliest` states |
| ContactRepository.DayAhead | src/repositories/ContactRepository.js:226 | the day `i` days ahead is a day of the week, 0 to 6 |
| ContactRepository.OpeningAt | src/repositories/ContactRepository.js:226-263 | an opening found `i` days ahead names that day and its index, and is marked as today only when `i` is 0 |
| ContactRepository.OpeningAtIsEarliest | src/repositories/ContactRepository.js:226-263 | the day `i` days ahead offers an opening exactly when it has an open schedule with a qualifying range, and the opening's time is the start of the earliest such range |
| ContactRepository.Offers | src/repositories/ContactRepository.js:225 | seven days are examined, today first |
| ContactRepository.FirstOfferIsFirst | src/repositories/ContactRepository.js:225-267 | the search gives nothing exactly when no remaining day offers an opening; otherwise it gives the offer of the first day that has one |
| ContactRepository.NextOpeningIsFirst | src/repositories/ContactRepository.js:221-268 | `getNextOpening` returns null exactly when none of the seven days offers an opening, and otherwise the offer of the first such day from today |
| ContactRepository.SearchedStopsAtOffer | src/repositories/ContactRepository.js:225-267 | the search looks at the days up to and including the first with an opening, and at all seven when none has one |
| ContactRepository.NextOpening | src/repositories/ContactRepository.js:221-268 | the opening `getNextOpening` returns, on the schedules' contents; `NextOpeningIsFirst` states it is the first day's offer |
| ContactRepository.FindDaySameNames | src/repositories/ContactRepository.js:229-231 | the day lookup reads only the day names |
| ContactRepository.OfferTimeOfSorted | src/repositories/ContactRepository.js:237-238 | a day's offer depends on its ranges only through their order by start |
| ContactRepository.SameOffers | src/repositories/ContactRepository.js:237-238 | sorting some days' ranges in place changes no day's offer |
| ContactRepository.SortRanges | src/repositories/ContactRepository.js:237-238 | the day's ranges are replaced by their stable sort on start time, and nothing else of the day changes |
| ContactRepository.SortFoundDay | src/repositories/ContactRepository.js:229-238 | the schedule found for the day, and every alias of it, ends with its ranges sorted by start, and the spans read are the day's ranges in that order |
| ContactRepository.ExamineDay | src/repositories/ContactRepository.js:226-264 | one pass of the loop gives what the day `i` days ahead offers (`OpeningAt` of the schedules as loaded) and adds that day's schedule, when it has ranges, to the schedules sorted in place |
| ContactRepository.GetNextOpening | src/repositories/ContactRepository.js:221-268 | the loop returns `NextOpening` of the schedules as loaded (its meaning stated by `NextOpeningIsFirst`); exactly the schedules found, with ranges, for the days looked at (today up to the day of the opening, or all seven) have their ranges sorted by start in place, and every other schedule is unchanged |
| ContactRepository.FirstCovering | src/repositories/ContactRepository.js:146-150 | the loop stops at the first range, in list order, whose start and end enclose the moment, or finds none |
| ContactRepository.FirstCoveringIs | src/repositories/ContactRepository.js:146-150 | a range that encloses the moment, with none before it doing so, is the one the loop stops at |
| ContactRepository.StatusOpenIff | src/repositories/ContactRepository.js:136-174 | the restaurant is open or closing soon exactly when today's schedule is open and one of its ranges encloses the moment |
| ContactRepository.StatusOf | src/repositories/ContactRepository.js:136-195 | today's status: closed without an open schedule with ranges, else `RangeStatus`; `StatusOpenIff` states it |
| ContactRepository.RangeStatus | src/repositories/ContactRepository.js:146-195 | the status rules for an open day's ranges, stated by `StatusInsideRange`, `StatusOpeningSoonIff` and `StatusOpeningSoonIsEarliest` |
| ContactRepository.StatusInsideRange | src/repositories/ContactRepository.js:146-173 | the first enclosing range decides: closing soon with the minutes left when at most 30 remain, open otherwise, with its end time as closing time |
| ContactRepository.UpcomingIsEarliest | src/repositories/ContactRepository.js:177-179 | the first of the later ranges, by start, starts after the moment and no later than any other range that does |
| ContactRepository.NoUpcoming | src/repositories/ContactRepository.js:177-181 | with no later range, every range starts at or before the moment |
| ContactRepository.StatusOpeningSoonIff | src/repositories/ContactRepository.js:176-195 | opening soon means no range encloses the moment and some range starts within the next 60 minutes |
| ContactRepository.StatusOpeningSoonIsEarliest | src/repositories/ContactRepository.js:181-194 | when opening soon, the status carries the minutes until, and the start time of, the earliest range that starts after the moment |
| ContactRepository.ScanRanges | src/repositories/ContactRepository.js:146-195 | the loop over today's ranges gives `RangeStatus`, whose rules the lemmas above state |
| ContactRepository.UpcomingStatus | src/repositories/ContactRepository.js:176-195 | once no range encloses the moment, the opening-soon check gives `RangeStatus` |
| ContactRepository.CurrentStatus | src/repositories/ContactRepository.js:119-202 | today's status follows the rules above; the next opening is searched for only when the status is closed, and then exactly the schedules that search examined are sorted by start; otherwise no schedule changes |
| ContactService.TimeOfParts | src/services/ContactService.js:109-112 | a time "a:b" is `Number(a)` hours and `Number(b)` minutes, NaN when either part is not a number |
| ContactService.TimeWithoutColon | src/services/ContactService.js:110-111 | without a ':' there is no minute part and the time is NaN |
| ContactService.TimeOfEmptySides | src/services/ContactService.js:110-111 | ":" is 0 minutes, since `Number("")` is 0 |
| ContactService.TimeToMinutes | src/services/ContactService.js:109-112 | `Number(hours) * 60 + Number(minutes)`, NaN as None; `TimeOfParts`, `TimeWithoutColon` and `TimeOfEmptySides` state it |
| ContactService.DayOpening | src/services/ContactService.js:126-180 | an opening found `i` days ahead is on that day, marked today only when `i` is 0, at the start of a meal the open day serves; a closed day offers nothing |
| ContactService.GetNextOpeningData | src/services/ContactService.js:118-195 | the loop returns `NextOpeningFrom` from today, whose meaning `NextOpeningMeans` states |
| ContactService.NextOpeningFromMeans | src/services/ContactService.js:126-195 | the search from `i` on gives the opening of the first day that offers one, and the "check the schedule" answer exactly when no day from `i` to 6 does |
| ContactService.NextOpeningMeans | src/services/ContactService.js:118-195 | `getNextOpeningData` gives the first day from today that offers an opening, and "check the schedule" only when none of the seven days does |
| ContactService.NextOpeningToday | src/services/ContactService.js:136-154 | today offers lunch while its start is still ahead, else dinner while its start is still ahead |
| ContactService.LaterDayPrefersLunch | src/services/ContactService.js:155-178 | a later open day offers its lunch whenever it serves lunch, whatever the time, and otherwise its dinner |
| ContactService.RestaurantStatus | src/services/ContactService.js:22-102 | closed today exactly when the day is closed; open or closing soon exactly when the time is in a served meal's window; closing soon exactly when such a window ends within 30 minutes, with the minutes left counted to the end of lunch when the time is in lunch; on an open day outside both windows: opening soon at the lunch start when lunch starts within the hour, else at the dinner start when dinner starts within the hour and lunch is over, else closed with the next opening; an opening-soon status always names one of those two starts |
| ContactService.StatusKey | src/services/ContactService.js:22-102 | the translation key of a status |
| ContactService.StatusKeyDistinguishes | src/services/ContactService.js:22-102 | two statuses share a translation key exactly when they are of the same kind |
| ContactService.OpeningKey | src/services/ContactService.js:126-186 | the translation key of a next opening |
| ContactService.OpeningKeyDistinguishes | src/services/ContactService.js:126-186 | the key tells today's opening, another day's and none apart |
| ContactService.OpeningDayParam | src/services/ContactService.js:159-173 | only an opening on another day names its day, as `contact.days.<name>` |
| ContactService.ClosingSoonBound | src/services/ContactService.js:53-63 | when lunch ends before dinner starts, "closing soon" carries between 0 and 30 minutes left |
| ContactService.ClosingSoonOverlap | src/services/ContactService.js:53-57 | more than 30 minutes left while "closing soon" happens only when the time is in both windows, dinner ends soon and lunch does not |
| ContactService.OpeningSoonBound | src/services/ContactService.js:74-93 | "opening soon" names the start of a meal that is more than 0 and at most 60 minutes ahead |
| ContactService.GetDaySchedule | src/services/ContactService.js:234-270 | null exactly for a closed day; otherwise the slots are the windows of the meals the day serves, lunch first |
| ContactService.IsOpenOnDay | src/services/ContactService.js:234-238 | a day is open when its schedule entry says so; `GetDaySchedule` states what that decides |
| ContactService.GetOpeningHoursSpecification | src/services/ContactService.js:318-348 | the loop over the week builds the list of entries `EntriesUpTo` defines |
| ContactService.SchemaDayIndex | src/services/ContactService.js:326 | a schema.org day name's position in the week, when it is one |
| ContactService.DayEntriesMeans | src/services/ContactService.js:322-345 | each entry of a day carries that day's name and the window of a meal the open day serves |
| ContactService.EntriesUpToMeans | src/services/ContactService.js:318-348 | every entry belongs to an open day that serves the meal whose window it gives, and the entries run from Sunday onwards |
| ContactService.OpenDayListed | src/services/ContactService.js:322-345 | every meal an open day serves has its entry in the list |
| ContactService.EntriesAfter | src/services/ContactService.js:322-345 | the entries of the first days stay at the front as later days are added |
| Strings.HexDigitValue | admin/src/components/common/CustomColorPicker.jsx:52-54 | a hexadecimal digit, in either case, is worth less than 16 |
| CustomColorPicker.HexChar | admin/src/components/common/CustomColorPicker.jsx:62 | `toString(16)` writes a value under 16 as a lower-case digit worth that value |
| CustomColorPicker.HexCharOfValue | admin/src/components/common/CustomColorPicker.jsx:52-62 | writing a digit's value back gives the digit in lower case |
| CustomColorPicker.PairValue | admin/src/components/common/CustomColorPicker.jsx:52-54 | `parseInt(pair, 16)` of two hexadecimal digits is under 256 |
| CustomColorPicker.HexBody | admin/src/components/common/CustomColorPicker.jsx:51 | the regex captures six hexadecimal digits that are the whole input, or the input after one '#' |
| CustomColorPicker.HexToRgb | admin/src/components/common/CustomColorPicker.jsx:50-57 | the result is null unless the input is exactly six hexadecimal digits with an optional leading '#'; each channel is 0 to 255 |
| CustomColorPicker.NatToHex | admin/src/components/common/CustomColorPicker.jsx:62 | `toString(16)` of a natural number is at least one lower-case hexadecimal digit |
| CustomColorPicker.ChannelOfByte | admin/src/components/common/CustomColorPicker.jsx:61-64 | a channel from 0 to 255 is written as exactly two digits, its high and low hexadecimal digits |
| CustomColorPicker.ChannelZeroPadded | admin/src/components/common/CustomColorPicker.jsx:63 | a channel under 16 is written with a leading '0' |
| CustomColorPicker.RgbToHexShape | admin/src/components/common/CustomColorPicker.jsx:60-65 | for channels from 0 to 255 the result is '#' and six lower-case hexadecimal digits |
| CustomColorPicker.HexToRgbOfRgbToHex | admin/src/components/common/CustomColorPicker.jsx:50-65 | reading back what `rgbToHex` writes gives the three channels |
| CustomColorPicker.ChannelReadBack | admin/src/components/common/CustomColorPicker.jsx:52-64 | a channel written by `rgbToHex` reads back as itself |
| CustomColorPicker.RgbToHexOfHexToRgb | admin/src/components/common/CustomColorPicker.jsx:50-65 | writing back what `hexToRgb` reads gives '#' and the input's six digits in lower case |
| CustomColorPicker.RgbToHex | admin/src/components/common/CustomColorPicker.jsx:60-65 | '#' and each channel written in two hexadecimal digits; `RgbToHexShape` and the two round trips state it |
| CustomColorPicker.Channel | admin/src/components/common/CustomColorPicker.jsx:61-64 | one channel in hexadecimal, padded to two digits; `ChannelOfByte` and `ChannelZeroPadded` state it |
| CustomColorPicker.PairChannel | admin/src/components/common/CustomColorPicker.jsx:52-64 | a pair of digits read and written again is the pair in lower case |
| CustomColorPicker.HexToRgbIgnoresCase | admin/src/components/common/CustomColorPicker.jsx:51 | under the regex's `i` flag, the case of the letters does not change the result |
| CustomColorPicker.LowerKeepsHex | admin/src/components/common/CustomColorPicker.jsx:51 | lowering the case keeps hexadecimal digits hexadecimal and makes nothing else one |
| CustomColorPicker.PairsLower | admin/src/components/common/CustomColorPicker.jsx:52-54 | six digits in lower case read as the same three channels |
| EntityOperations.HierarchicalId | admin/src/hooks/useEntityOperations.js:160-176 | an update's hierarchical ID exists whenever the entity ID is truthy |
| EntityOperations.ParentHId | admin/src/hooks/useEntityOperations.js:112-125 | a category has no parent ID |
| EntityOperations.Lookup | admin/src/hooks/useEntityOperations.js:179-180 | `map.get(id)` finds a value exactly when the ID is present, and it is the map's value |
| EntityOperations.ChildList | admin/src/hooks/useEntityOperations.js:118 | the parent's stored child list, or the empty list when it has none |
| EntityOperations.DefaultEntity | admin/src/hooks/useEntityOperations.js:13-49 | a new entity carries its ID and orderIndex, the state 'new', no previous state and an empty name |
| EntityOperations.WithMap | admin/src/hooks/useEntityOperations.js:75-90 | the setter of one entity type replaces that map and leaves the other maps, the children, the tracking and the originals as they were |
| EntityOperations.NewEntityId | admin/src/hooks/useEntityOperations.js:108 | a new ID is a non-empty temporary ID, prefix and timestamp |
| EntityOperations.Add | admin/src/hooks/useEntityOperations.js:106-149 | adding keeps every insertion-ordered map of the state well formed (each key listed once, the key list in step with the values); what it does is stated by the lemmas below |
| EntityOperations.NormalizeEmpty | admin/src/hooks/useEntityOperations.js:209-210 | null and undefined compare as '' |
| EntityOperations.Update | admin/src/hooks/useEntityOperations.js:157-246 | updating keeps every insertion-ordered map of the state well formed (each key listed once, the key list in step with the values); what it does is stated by the lemmas below |
| EntityOperations.DeleteEntity | admin/src/hooks/useEntityOperations.js:257-316 | deleting keeps every insertion-ordered map of the state well formed (each key listed once, the key list in step with the values); what it does is stated by the lemmas below |
| EntityOperations.UndoDelete | admin/src/hooks/useEntityOperations.js:326-361 | the corrected undo keeps every insertion-ordered map of the state well formed (each key listed once, the key list in step with the values); what it does is stated by the lemmas below |
| EntityOperations.UndoDeleteAsWritten | admin/src/hooks/useEntityOperations.js:326-361 | the undo as written keeps every insertion-ordered map of the state well formed (each key listed once, the key list in step with the values); what it does is stated by the lemmas below |
| EntityOperations.IndexIn | admin/src/hooks/useEntityOperations.js:389 | `indexOf` gives the first position of the ID in the list, or -1 when it is absent |
| EntityOperations.FindEntry | admin/src/hooks/useEntityOperations.js:387 | `findIndex` gives the first entry with the ID, or -1 when none has it |
| EntityOperations.Swap | admin/src/hooks/useEntityOperations.js:448 | the two positions are exchanged and every other position is kept |
| EntityOperations.Move | admin/src/hooks/useEntityOperations.js:366-454 | moving keeps every insertion-ordered map of the state well formed (each key listed once, the key list in step with the values); what it does is stated by the lemmas below |
| EntityOperations.MoveCategory | admin/src/hooks/useEntityOperations.js:398-415 | a category move keeps every insertion-ordered map of the state well formed |
| EntityOperations.MoveChild | admin/src/hooks/useEntityOperations.js:416-452 | a subcategory or item move keeps every insertion-ordered map of the state well formed |
| EntityOperations.AddAppendsChild | admin/src/hooks/useEntityOperations.js:115-145 | a new subcategory or item goes to the end of its parent's child list with its sibling count as orderIndex and the state 'new'; only an item is tracked, as 'create' |
| EntityOperations.AddAppendsCategory | admin/src/hooks/useEntityOperations.js:112-114 | a new category goes to the end of the categories map with the map's size as orderIndex; nothing else changes |
| EntityOperations.UpdateNeedsIds | admin/src/hooks/useEntityOperations.js:162-176 | an update without the parent IDs it needs changes nothing |
| EntityOperations.UpdateBackToOriginal | admin/src/hooks/useEntityOperations.js:192-227 | an update of an existing entity back to its loaded values, null and undefined comparing as '', makes it 'normal' and untracks it |
| EntityOperations.UpdateMarksEdited | admin/src/hooks/useEntityOperations.js:231-245 | any other update keeps a new entity 'new' and makes an existing one 'edited' and tracked as 'edit'; a new subcategory or item given a non-blank name is tracked as 'create' |
| EntityOperations.DeleteNewRemoves | admin/src/hooks/useEntityOperations.js:276-300 | deleting a new entity removes it from its map, from its parent's child list (keeping the other children) or from the children map, and from the tracking |
| EntityOperations.DeleteExistingMarks | admin/src/hooks/useEntityOperations.js:302-313 | deleting an existing entity keeps it marked 'deleted' with its previous state saved, and tracks 'delete' |
| EntityOperations.UndoDeleteRestores | admin/src/hooks/useEntityOperations.js:302-360 | with the corrected undo, deleting an existing entity and undoing it gives back the same menu, the tracking map included |
| EntityOperations.UndoDeleteAsWrittenForgetsEdit | admin/src/hooks/useEntityOperations.js:351-360 | as written, undoing the deletion of an edited entity leaves it 'edited' but untracked, so its badge depends only on its children and the editor may report no changes |
| EntityOperations.MoveOutOfRange | admin/src/hooks/useEntityOperations.js:392-394 | a move whose target position is outside the list changes nothing |
| EntityOperations.MoveChildSwaps | admin/src/hooks/useEntityOperations.js:416-452 | moving a subcategory or item swaps the two child-list entries and the two orderIndex values; the list keeps its elements and the map its keys |
| EntityOperations.MoveCategorySwaps | admin/src/hooks/useEntityOperations.js:398-415 | moving a category exchanges the orderIndex values of the two neighbours in orderIndex order and marks them 'edited' unless new; nothing else changes |
| EntityOperations.CategoryListEntries | admin/src/hooks/useEntityOperations.js:371-372 | the category display list holds the categories map's entries, as many, ordered by orderIndex |
| EntityOperations.SetEntityMap | admin/src/hooks/useEntityOperations.js:75-90 | the setter replaces one entity map and nothing else |
| EntityOperations.HandleAdd | admin/src/hooks/useEntityOperations.js:106-149 | the handler leaves the editor in the state `Add` specifies and returns the new ID |
| EntityOperations.HandleUpdate | admin/src/hooks/useEntityOperations.js:157-246 | the handler leaves the editor in the state `Update` specifies |
| EntityOperations.HandleDelete | admin/src/hooks/useEntityOperations.js:257-316 | the confirm body leaves the editor in the state `DeleteEntity` specifies |
| EntityOperations.HandleUndoDelete | admin/src/hooks/useEntityOperations.js:326-361 | the handler leaves the editor in the state of the corrected `UndoDelete` |
| EntityOperations.HandleMove | admin/src/hooks/useEntityOperations.js:366-454 | the handler leaves the editor in the state `Move` specifies |
| EntityOperations.HandleMoveCategory | admin/src/hooks/useEntityOperations.js:369-415 | moving a category leaves the editor in the state `MoveCategory` specifies |
| EntityOperations.HandleMoveChild | admin/src/hooks/useEntityOperations.js:373-452 | moving a subcategory or item leaves the editor in the state `MoveChild` specifies |
| MenuState.HasRealChangesIff | admin/src/hooks/useMenuState.js:65 | `hasRealChanges()` holds exactly when some hierarchical ID is tracked |
| MenuState.VisualState | admin/src/hooks/useMenuState.js:77-89 | the badge is 'new' for a new entity; otherwise 'deleted' exactly when tracked as 'delete', 'edited' when tracked as 'edit' or 'create', and for an untracked entity 'edited' exactly when some tracked ID lies below it, 'normal' otherwise |
| MenuState.TrackedMarksAncestors | admin/src/hooks/useMenuState.js:67-88 | a tracked change to an entity shows every untracked, non-new ancestor as 'edited' |
| MenuState.EnrichPrefix | admin/src/hooks/useMenuState.js:97-118 | after the first n entries of a `forEach`, the copy is a well-formed map with exactly those keys, in the same order |
| MenuState.EnrichPrefixValues | admin/src/hooks/useMenuState.js:97-118 | each copied entry is the original entry with its badge |
| MenuState.EnrichPrefixNext | admin/src/hooks/useMenuState.js:98-101 | one `forEach` callback sets the next key to the entry with its badge |
| MenuState.Enriched | admin/src/hooks/useMenuState.js:91-121 | an enriched map is well formed and keeps the keys of the map in their order |
| MenuState.EnrichedChangesOnlyState | admin/src/hooks/useMenuState.js:97-118 | an enriched map has the same keys and differs from the map only in `_state`, which becomes the badge |
| MenuState.LoadedMenu | admin/src/hooks/useMenuState.js:32-44 | after a load the originals equal the loaded maps and the tracking map is empty |
| MenuState.MenuState.constructor | admin/src/hooks/useMenuState.js:9-20 | the hook starts with every map empty |
| MenuState.MenuState.Load | admin/src/hooks/useMenuState.js:23-46 | non-empty backend data is loaded; otherwise the mock data once loading has finished without error; otherwise nothing changes; a load flattens the menu, copies its maps as the originals and clears the tracking |
| MenuState.MenuState.SetState | admin/src/hooks/useMenuState.js:129-132 | the setters replace the whole state |
| MenuState.MenuState.TrackChange | admin/src/hooks/useMenuState.js:49-55 | the tracking map gets the ID set to the change type and nothing else changes |
| MenuState.MenuState.UntrackChange | admin/src/hooks/useMenuState.js:57-63 | the tracking map loses the ID and nothing else changes |
| MenuState.MenuState.HasChildChanges | admin/src/hooks/useMenuState.js:67-74 | the scan answers whether some tracked ID lies strictly below the given one |
| MenuState.MenuState.CalculateVisualState | admin/src/hooks/useMenuState.js:77-89 | the method returns the badge `VisualState` defines |
| MenuState.MenuState.EnrichWithVisualState | admin/src/hooks/useMenuState.js:91-121 | each returned map is the corresponding entity map enriched with badges |
| MenuState.MenuState.EnrichMap | admin/src/hooks/useMenuState.js:97-102 | one `forEach` copies the whole map with badges, in its order |
| MenuState.MenuState.EnrichEntry | admin/src/hooks/useMenuState.js:98-101 | one callback extends the copy by the next entry with its badge |
| MenuValidation.NameError | admin/src/hooks/useMenuValidation.js:15-17 | a name gets the 3-character message exactly when it is missing or its trimmed text is shorter than 3 characters; any string shorter than 3 characters is refused; a truthy non-string, on which the source throws, gets the message too |
| MenuValidation.PriceError | admin/src/hooks/useMenuValidation.js:45-52 | an undefined, null or empty price gets 'required'; one whose `parseFloat` is NaN or negative gets 'positive number'; otherwise no error; a number is accepted exactly when it is not negative |
| MenuValidation.CollectFrom | admin/src/hooks/useMenuValidation.js:54-74 | every key of an error object comes from an entry and holds the errors of the last entry with that ID, since a later assignment overwrites an earlier one |
| MenuValidation.CollectHas | admin/src/hooks/useMenuValidation.js:54-74 | every entry with errors puts its ID among the keys |
| MenuValidation.CollectStep | admin/src/hooks/useMenuValidation.js:54-56 | one `forEach` step adds its entry's ID, or nothing when the entry has no errors |
| MenuValidation.ItemErrorsOf | admin/src/hooks/useMenuValidation.js:39-56 | an item has an error object exactly when its name or its price fails, and the object holds exactly those two results |
| MenuValidation.ItemEntries | admin/src/hooks/useMenuValidation.js:35-37 | the inner `forEach` looks at every item ID of the child list, in order, skipping missing items |
| MenuValidation.SubcategoryErrorsOf | admin/src/hooks/useMenuValidation.js:26-65 | a subcategory has an error object exactly when its name fails or one of its items has errors; `items` is attached only when not empty |
| MenuValidation.SubcategoryEntries | admin/src/hooks/useMenuValidation.js:22-24 | the middle `forEach` looks at every subcategory ID of the child list, in order, skipping missing ones |
| MenuValidation.CategoryErrorsOf | admin/src/hooks/useMenuValidation.js:13-74 | a category has an error object exactly when its name fails or one of its subcategories has errors; `subcategories` is attached only when not empty |
| MenuValidation.CategoryEntries | admin/src/hooks/useMenuValidation.js:12 | the outer `forEach` looks at every category in the map's insertion order |
| MenuValidation.Validate | admin/src/hooks/useMenuValidation.js:9-78 | an empty categories map has no errors; `ValidateNonEmpty` and `ValidateKeys` state the shape of the tree for any menu |
| MenuValidation.ItemsErrorsNonEmpty | admin/src/hooks/useMenuValidation.js:54-56 | no empty item error object is attached |
| MenuValidation.SubcategoriesErrorsNonEmpty | admin/src/hooks/useMenuValidation.js:59-65 | no empty subcategory error object is attached, at any depth |
| MenuValidation.ValidateNonEmpty | admin/src/hooks/useMenuValidation.js:9-78 | every error object in the tree has at least one field |
| MenuValidation.ValidateKeys | admin/src/hooks/useMenuValidation.js:12-74 | every category with an error has its ID as a key of the tree; a too-short name is reported with the name message when no other category shares the ID |
| MenuValidation.ValidationErrors | admin/src/hooks/useMenuValidation.js:80-88 | outside editing mode the errors are `{}` |
| MenuValidation.ValidateItems | admin/src/hooks/useMenuValidation.js:35-57 | the loop builds the items' error object `Collect(ItemEntries(...))`, described by `ItemErrorsOf` and `CollectFrom` |
| MenuValidation.ValidateSubcategories | admin/src/hooks/useMenuValidation.js:22-66 | the loop builds the subcategories' error object `Collect(SubcategoryEntries(...))`, described by `SubcategoryErrorsOf` and `CollectFrom` |
| MenuValidation.ValidateMenuData | admin/src/hooks/useMenuValidation.js:9-78 | the nested loops build the error tree `Validate` defines, described by `ValidateNonEmpty` and `ValidateKeys` |
| ValidationUtils.BlankResult | admin/src/utils/validationUtils.js:13-18 | a blank value gets the 'required' message exactly when the field is required, and null otherwise |
| ValidationUtils.LengthText | admin/src/utils/validationUtils.js:190-191 | the text a length setting is rendered as has no '{', so it cannot create a placeholder |
| ValidationUtils.FormatWithoutPlaceholders | admin/src/utils/validationUtils.js:188-194 | a message without placeholders is returned unchanged |
| ValidationUtils.FormatBoundsWithoutPlaceholders | admin/src/utils/validationUtils.js:191-193 | the `{maxLength}`, `{min}` and `{max}` replacements leave a message without '{' unchanged |
| ValidationUtils.FormatMinLength | admin/src/utils/validationUtils.js:188-194 | a message with one `{minLength}` and no other '{' gets the configured length in its place, 'undefined' when there is none |
| ValidationUtils.ValidateTextField | admin/src/utils/validationUtils.js:12-31 | a blank value gets the blank answer; otherwise the trimmed length is checked against minLength and then against a non-zero maxLength, and the value is valid exactly when neither bound is broken |
| ValidationUtils.ValidatePriceField | admin/src/utils/validationUtils.js:39-62 | undefined, null and '' get the blank answer; a value `parseFloat` cannot read gets 'invalid'; a value below min gets the formatted min message; a value at least min and above a non-zero max gets the formatted max message; the value is valid exactly when it parses, is at least min and is at most a non-zero max |
| ValidationUtils.ValidateUrlField | admin/src/utils/validationUtils.js:120-134 | a non-blank value is valid exactly when the URL constructor accepts it; otherwise it gets 'invalid' |
| ValidationUtils.IsEmailMatchesPattern | admin/src/utils/validationUtils.js:78 | the single-scan email check accepts exactly the strings of the form name@domain.tld with three non-empty parts free of spaces and '@' |
| ValidationUtils.IsEmailToPattern | admin/src/utils/validationUtils.js:78 | every string `IsEmail` accepts splits into the three parts of the pattern |
| ValidationUtils.PatternToIsEmail | admin/src/utils/validationUtils.js:78 | every string of the pattern's form is accepted by `IsEmail` |
| ValidationUtils.ValidateEmailField | admin/src/utils/validationUtils.js:70-84 | a non-blank value is valid exactly when its trimmed text matches the email pattern; otherwise it gets 'invalid' |
| ValidationUtils.DigitsOnly | admin/src/utils/validationUtils.js:106 | removing the non-digits leaves only digits, every digit of the value and no more characters than the value had |
| ValidationUtils.ValidatePhoneField | admin/src/utils/validationUtils.js:92-112 | a trimmed value outside the phone shape gets 'invalid'; a value of the right shape with fewer digits than minLength gets the formatted minLength message; the value is valid exactly when it has the shape and, counting the digits of the untrimmed value, at least minLength digits |
| ValidationUtils.PhoneRejectsOtherChars | admin/src/utils/validationUtils.js:101 | any character other than a digit, a space, '-', '(' or ')' refuses the number, a '+' anywhere but the start included |
| ValidationUtils.ValidatePostalCodeField | admin/src/utils/validationUtils.js:142-158 | a non-blank value is valid exactly when its trimmed text is exactly five digits; otherwise it gets 'invalid' |
| ValidationUtils.TwoDigits | admin/src/utils/validationUtils.js:174 | a number below 100 is written with exactly two digits |
| ValidationUtils.IsTimeIff | admin/src/utils/validationUtils.js:174 | the time pattern accepts exactly the times from 00:00 to 23:59 written as HH:MM |
| ValidationUtils.TimeOfPattern | admin/src/utils/validationUtils.js:174 | every accepted string is the hour below 24 and the minute below 60 its digits spell |
| ValidationUtils.PatternOfTime | admin/src/utils/validationUtils.js:174 | every hour below 24 and minute below 60, written as HH:MM, is accepted |
| ValidationUtils.ValidateTimeField | admin/src/utils/validationUtils.js:166-180 | a non-blank value is valid exactly when its trimmed text matches the time pattern; otherwise it gets 'invalid' |
| ImageValidation.UnitMultiplier | admin/src/utils/imageValidationUtils.js:22-30 | a recognised unit has two letters and is worth 1024, 1024² or 1024³ bytes |
| ImageValidation.NumberMatch | admin/src/utils/imageValidationUtils.js:16 | a match of `\d+(?:\.\d+)?` splits the number into digits and optional fractional digits that rebuild it |
| ImageValidation.UnitSplit | admin/src/utils/imageValidationUtils.js:16 | a text ends in two unit characters preceded by spaces and the number before them |
| ImageValidation.SizeMatch | admin/src/utils/imageValidationUtils.js:16 | a match of the size pattern splits the text into number, fraction, spaces and unit that rebuild it |
| ImageValidation.TrimEndAfter | admin/src/utils/imageValidationUtils.js:16 | the spaces between number and unit are the ones trimmed off the number |
| ImageValidation.NoDotInDigits | admin/src/utils/imageValidationUtils.js:16 | the integer digits hold no '.', so the fraction starts at the first '.' |
| ImageValidation.NumberMatchComplete | admin/src/utils/imageValidationUtils.js:16 | every number of the pattern's form is matched, with the same pieces |
| ImageValidation.SizeMatchComplete | admin/src/utils/imageValidationUtils.js:16 | every size text of the pattern's form is matched, with the same pieces |
| ImageValidation.SizeValue | admin/src/utils/imageValidationUtils.js:21-30 | the byte count of a matched size is never negative |
| ImageValidation.ParseSize | admin/src/utils/imageValidationUtils.js:11-31 | the result is never negative and is 0 for a missing or empty string and for trimmed text the pattern does not match |
| ImageValidation.ParseSizeOf | admin/src/utils/imageValidationUtils.js:11-31 | a size written as digits, optional fraction, optional spaces and a unit in any case is worth its decimal value times the unit |
| ImageValidation.SizeTextTrimmed | admin/src/utils/imageValidationUtils.js:16 | a size text of the pattern's form is non-empty and unchanged by trimming |
| ImageValidation.ParseSizeOfMatch | admin/src/utils/imageValidationUtils.js:16-30 | a matched trimmed text is worth the value of its pieces |
| ImageValidation.FileExtension | admin/src/utils/imageValidationUtils.js:53-64 | the extension is non-empty exactly when the name has a '.' that is not its last character, and it is then the lower-cased text after a '.', holding no '.' itself |
| ImageValidation.ValidateImageFile | admin/src/utils/imageValidationUtils.js:72-119 | no file is refused; without settings only the MIME type decides; an extension error wins over the size; a size limit that parses to 0 is no limit; with a passing extension and a positive size limit, the file is valid exactly when its size is within the limit, and otherwise refused as 'too large' with the limit and the size; 'too large' only for a file over a positive limit whose extension passed |
| ImageValidation.Partition | admin/src/utils/imageValidationUtils.js:136-145 | every file lands in exactly one of the valid files and the errors |
| ImageValidation.PartitionFilters | admin/src/utils/imageValidationUtils.js:136-145 | the valid files are exactly the passing files in their original order, and every error names a failing file |
| ImageValidation.ImageFilesResult | admin/src/utils/imageValidationUtils.js:127-174 | an empty batch gets 'no files'; the batch is valid exactly when some file is returned as valid; the batch is refused as 'total too large', with no valid files, exactly when the request limit is set, some file passes and the passing files together exceed a positive limit, and the error carries their total; the returned valid files are the passing files |
| ImageValidation.TotalTooLargeRefuses | admin/src/utils/imageValidationUtils.js:148-158 | when the files that pass alone together exceed a positive request limit, the whole batch is refused with their total, whatever the failing files are |
| ImageValidation.ValidateImageFiles | admin/src/utils/imageValidationUtils.js:127-174 | the method returns the result `ImageFilesResult` defines |
| ImageValidation.PartitionFiles | admin/src/utils/imageValidationUtils.js:132-145 | the `for` loop computes the partition `Partition` defines |
| ImageValidation.PartitionStep | admin/src/utils/imageValidationUtils.js:137-144 | one iteration pushes the file to the valid files or its name and error to the errors |
| ImageValidation.SumSizes | admin/src/utils/imageValidationUtils.js:149 | the `reduce` sums the sizes of the valid files |
| MenuDataUtils.BuildHierarchicalId | admin/src/utils/menuDataUtils.js:8-12 | with a truthy item ID the key is category.subcategory.item; else with a truthy subcategory ID it is category.subcategory; else it is the category ID itself |
| MenuDataUtils.PartOrNull | admin/src/utils/menuDataUtils.js:22-24 | a part is null exactly when it is missing or empty |
| MenuDataUtils.ParseHierarchicalId | admin/src/utils/menuDataUtils.js:17-27 | a falsy ID parses to four nulls; any other ID gets a level |
| MenuDataUtils.ParseBuildItem | admin/src/utils/menuDataUtils.js:8-27 | parsing an item key built from plain IDs gives back the three IDs and the level 'item' |
| MenuDataUtils.SplitItemKey | admin/src/utils/menuDataUtils.js:20 | splitting an item key built from plain IDs at '.' gives its three IDs |
| MenuDataUtils.ParseThreeParts | admin/src/utils/menuDataUtils.js:20-26 | a key of three non-empty parts parses to those parts and the level 'item' |
| MenuDataUtils.ParseBuildSubcategory | admin/src/utils/menuDataUtils.js:8-27 | parsing a subcategory key gives back its two IDs and the level 'subcategory' |
| MenuDataUtils.ParseBuildCategory | admin/src/utils/menuDataUtils.js:8-27 | parsing a category key gives back its ID and the level 'category' |
| MenuDataUtils.ItemHIdInjective | admin/src/utils/menuDataUtils.js:9 | item keys built from plain IDs determine the IDs they were built from |
| MenuDataUtils.SubcategoryHIdInjective | admin/src/utils/menuDataUtils.js:10 | subcategory keys built from plain IDs determine the IDs they were built from |
| MenuDataUtils.IsDescendantOf | admin/src/utils/menuDataUtils.js:46-48 | a key lies below another exactly when it starts with that key and a '.', and then they differ |
| MenuDataUtils.DescendantIrreflexive | admin/src/utils/menuDataUtils.js:46-48 | no key lies below itself |
| MenuDataUtils.DescendantTransitive | admin/src/utils/menuDataUtils.js:46-48 | lying below is transitive |
| MenuDataUtils.ParentIds | admin/src/utils/menuDataUtils.js:32-41 | a key has one parent key fewer than it has parts |
| MenuDataUtils.GetParentHierarchicalIds | admin/src/utils/menuDataUtils.js:32-41 | the loop returns the parent keys `ParentIds` defines |
| MenuDataUtils.ParentIdsAreAncestors | admin/src/utils/menuDataUtils.js:32-48 | every parent key is an ancestor of the key, and each is the parent of the next |
| MenuDataUtils.ParentIdIsAncestor | admin/src/utils/menuDataUtils.js:36-38 | the join of the first k+1 parts is an ancestor of the key |
| MenuDataUtils.ParentIdExtends | admin/src/utils/menuDataUtils.js:36-38 | each parent key lies below the one before it |
| MenuDataUtils.EmptyFlatMenu | admin/src/utils/menuDataUtils.js:54-57 | the four empty maps are well formed |
| MenuDataUtils.StateOrNormal | admin/src/utils/menuDataUtils.js:70 | a missing `_state` becomes 'normal'; a present one is kept |
| MenuDataUtils.AvailableOrTrue | admin/src/utils/menuDataUtils.js:112 | an undefined `available` becomes true; any other value is kept |
| MenuDataUtils.FlatCategory | admin/src/utils/menuDataUtils.js:64-72 | the stored category keeps its ID, has no parent, and gets the state or 'normal' |
| MenuDataUtils.FlatSubcategory | admin/src/utils/menuDataUtils.js:84-93 | the stored subcategory keeps its ID, its parent is the category, and it gets the state or 'normal' |
| MenuDataUtils.FlatItem | admin/src/utils/menuDataUtils.js:105-118 | the stored item keeps its ID, its parent is the subcategory, its category is recorded, and it gets the state or 'normal' and `available` or true |
| MenuDataUtils.ItemHIds | admin/src/utils/menuDataUtils.js:96-102 | the item key list has one key per item, each built from the category, subcategory and item IDs |
| MenuDataUtils.SubcategoryHIds | admin/src/utils/menuDataUtils.js:75-81 | the subcategory key list has one key per subcategory, each built from the two IDs |
| MenuDataUtils.StoreSubcategories | admin/src/utils/menuDataUtils.js:77-124 | storing subcategories leaves the categories map alone |
| MenuDataUtils.FlattenMenuData | admin/src/utils/menuDataUtils.js:53-132 | the outer `forEach` computes the flat form `Flatten` defines |
| MenuDataUtils.FlattenCategory | admin/src/utils/menuDataUtils.js:59-128 | one category pass computes what `StoreCategory` defines |
| MenuDataUtils.FlattenSubcategories | admin/src/utils/menuDataUtils.js:77-124 | the subcategory pass computes what `StoreSubcategories` defines and the list of subcategory keys |
| MenuDataUtils.FlattenSubcategory | admin/src/utils/menuDataUtils.js:78-123 | one subcategory pass computes what `StoreSubcategory` defines and returns its key |
| MenuDataUtils.FlattenItems | admin/src/utils/menuDataUtils.js:98-119 | the item pass computes what `StoreItems` defines and the list of item keys |
| MenuDataUtils.StoreItemsValid | admin/src/utils/menuDataUtils.js:98-119 | storing items keeps the item map well formed |
| MenuDataUtils.StoreSubcategoriesValid | admin/src/utils/menuDataUtils.js:77-124 | storing subcategories keeps every map well formed |
| MenuDataUtils.FlattenValid | admin/src/utils/menuDataUtils.js:53-132 | the flat form of any nested menu has well-formed maps |
| MenuDataUtils.FlattenHolds | admin/src/utils/menuDataUtils.js:53-132 | for a menu whose IDs are plain and unique among siblings, the flat form holds every category, subcategory and item under its key, with child lists in nested order and no entry for entities without children |
| MenuDataUtils.FlattenNoEmptyChildLists | admin/src/utils/menuDataUtils.js:121-128 | the children map never holds an empty list |
| MenuDataUtils.ByOrderIndexIsTotalPreorder | admin/src/utils/menuDataUtils.js:142 | the comparison by orderIndex is a total preorder, so the sort is well defined |
| MenuDataUtils.PresentKeys | admin/src/utils/menuDataUtils.js:149-157 | the keys kept are no more than the listed ones, and each is present in the map |
| MenuDataUtils.PresentKeysAll | admin/src/utils/menuDataUtils.js:150-157 | when every key is present nothing is skipped |
| MenuDataUtils.NestItems | admin/src/utils/menuDataUtils.js:152-171 | one nested item per present item key, in list order |
| MenuDataUtils.NestSubcategories | admin/src/utils/menuDataUtils.js:145-183 | one nested subcategory per present subcategory key, in list order |
| MenuDataUtils.NestCategories | admin/src/utils/menuDataUtils.js:144-195 | one nested category per sorted entry |
| MenuDataUtils.UnflattenMenuData | admin/src/utils/menuDataUtils.js:137-198 | the method returns the nested menu `Unflatten` defines |
| MenuDataUtils.UnflattenCategories | admin/src/utils/menuDataUtils.js:144-195 | the category pass nests each sorted entry |
| MenuDataUtils.UnflattenCategory | admin/src/utils/menuDataUtils.js:145-194 | one category pass builds the category with its subcategories |
| MenuDataUtils.UnflattenSubcategories | admin/src/utils/menuDataUtils.js:148-183 | the subcategory pass skips missing subcategories |
| MenuDataUtils.UnflattenSubcategory | admin/src/utils/menuDataUtils.js:149-182 | one subcategory pass builds the subcategory with its items |
| MenuDataUtils.UnflattenItems | admin/src/utils/menuDataUtils.js:155-171 | the item pass skips missing items |
| MenuDataUtils.UnflattenSorted | admin/src/utils/menuDataUtils.js:140-144 | one category per entry of the map, ordered by orderIndex |
| MenuDataUtils.UnflattenComplete | admin/src/utils/menuDataUtils.js:141-195 | every category of the map is nested, with the children listed under its key |
| MenuDataUtils.UnflattenFlattenOrder | admin/src/utils/menuDataUtils.js:53-198 | unflattening the flat form of a menu already in orderIndex order keeps the categories' order |
| MenuDataUtils.UnflattenFlatten | admin/src/utils/menuDataUtils.js:53-198 | unflattening the flat form of a well-formed menu in orderIndex order gives back the menu, with `available` and `_state` defaulted |
| MenuDataUtils.UnflattenFlattenEach | admin/src/utils/menuDataUtils.js:53-198 | position by position, the round trip gives back each category with defaults filled in |
| MenuDataUtils.UnflattenFlattenAt | admin/src/utils/menuDataUtils.js:53-198 | the round trip gives back the category at any one position |
| MenuDataUtils.FlattenStoresCategories | admin/src/utils/menuDataUtils.js:59-72 | the flat form stores the flat entry of every category |
| MenuDataUtils.CleanId | admin/src/utils/menuDataUtils.js:208-231 | an ID is sent as null exactly when it is temporary, and unchanged otherwise |
| MenuDataUtils.PriceOf | admin/src/utils/menuDataUtils.js:234 | `parseFloat` of a number is the number, of a string its parsed prefix, of anything else NaN |
| MenuDataUtils.ProcessNoTempIds | admin/src/utils/menuDataUtils.js:203-248 | no temporary ID reaches the backend, at any level |
| MenuDataUtils.ProcessCategoryIds | admin/src/utils/menuDataUtils.js:204-208 | an ID reaches the backend exactly when a category that is not deleted carries it and it is not temporary |
| MenuDataUtils.DeletedCount | admin/src/utils/menuDataUtils.js:205 | at most every category is deleted |
| MenuDataUtils.ProcessDropsDeleted | admin/src/utils/menuDataUtils.js:204-206 | the backend gets one category per category not marked deleted |
| MenuDataUtils.ProcessKeepsClean | admin/src/utils/menuDataUtils.js:203-248 | without deleted or temporary categories nothing is dropped and every ID is kept, in order |
| MenuDataUtils.ProcessKeepsLiveCategories | admin/src/utils/menuDataUtils.js:203-206 | the backend receives the categories not marked deleted, in order, each processed, and nothing else |
| MenuDataUtils.ProcessKeepsLiveSubcategories | admin/src/utils/menuDataUtils.js:215-244 | a category's subcategories are sent only when it has some; then they are its subcategories not marked deleted, in order, each processed, and nothing else |
| MenuDataUtils.ProcessKeepsLiveItems | admin/src/utils/menuDataUtils.js:227-240 | a subcategory's items are sent only when it has some; then they are its items not marked deleted, in order, each processed, and nothing else |
| MenuDataUtils.ProcessMenuDataForBackend | admin/src/utils/menuDataUtils.js:203-248 | the payload for the backend, whose shape `ProcessKeepsLiveCategories`, `ProcessKeepsLiveSubcategories`, `ProcessKeepsLiveItems` and `ProcessNoTempIds` state |
| I18nCore.DropLeadingSlashes | src/i18n/core.js:200 | `/^\/+/` removes exactly the leading run of slashes: the rest is a suffix that does not start with '/' |
| I18nCore.DropTrailingSlashes | src/i18n/core.js:423 | `/\/+$/` removes exactly the trailing run of slashes: the rest is a prefix that does not end with '/' |
| I18nCore.CleanPath | src/i18n/core.js:200 | the cleaned path neither starts nor ends with '/'; a path that already does neither is kept; a missing path is '' |
| I18nCore.GetRelativeUrl | src/i18n/core.js:198-209 | the URL starts with '/'; the default locale gets '/' and the clean path; any other locale gets '/locale' or '/locale/path' |
| I18nCore.LocalizeUrl | src/i18n/core.js:418-438 | the base URL without trailing slashes goes before the relative URL, except that the default locale's root is the bare base URL, or '/' when there is none |
| I18nCore.Segments | src/i18n/core.js:462 | `split('/').filter(Boolean)` gives non-empty segments without '/' |
| I18nCore.SegmentsOfPath | src/i18n/core.js:462-471 | the segments of '/' and the joined parts are the parts |
| I18nCore.SegmentsOfRoot | src/i18n/core.js:462-465 | '/' has no segment |
| I18nCore.SegmentsOfParts | src/i18n/core.js:462 | non-empty slash-free parts joined under '/' come back as the segments |
| I18nCore.SplitOfPath | src/i18n/core.js:462 | such a path splits into an empty piece and the parts |
| I18nCore.PathAsJoin | src/i18n/core.js:471 | '/' followed by the joined parts is the join of an empty piece and the parts |
| I18nCore.SegmentsOfSplit | src/i18n/core.js:462 | filtering out the empty first piece leaves the parts |
| I18nCore.DetectLocaleIn | src/i18n/core.js:461-479 | a locale other than the default is detected exactly when the first segment is a supported non-default locale, and the clean path then holds the remaining segments; otherwise the default locale and the pathname, or '/' for a path without segments |
| I18nCore.DetectLocaleFromPath | src/i18n/core.js:461-479 | detection with the site's locales always gives a supported locale |
| I18nCore.SlashConcat | src/i18n/core.js:208 | the two ways of writing '/locale/path' agree |
| I18nCore.LocaleIsSegment | src/i18n/core.js:5-48 | every configured locale code is a non-empty segment without '/' |
| I18nCore.DetectRelativeUrl | src/i18n/core.js:461-479 | for a non-default locale and a path of non-empty slash-free segments, detecting the locale of its relative URL gives back the locale and the path under '/' |
| I18nCore.DetectOfSegments | src/i18n/core.js:461-476 | a path whose segments are a non-default locale and then some parts is detected as that locale and those parts |
| I18nCore.SegmentsOfPrefixedPath | src/i18n/core.js:462 | a prefixed path has the prefix and the parts as segments |
| I18nCore.DetectPrefixed | src/i18n/core.js:468-476 | a path whose first segment is a supported non-default locale is detected as that locale |
| I18nCore.JoinedIsClean | src/i18n/core.js:200 | joined non-empty slash-free parts are left alone by cleaning |
| I18nCore.NoEdgeSlash | src/i18n/core.js:200 | text that starts and ends with slash-free parts has no slash at either end |
| I18nCore.RelativeUrlAsPath | src/i18n/core.js:208 | the relative URL of a non-default locale is the locale followed by the parts |
| I18nCore.PrefixValuesStep | src/i18n/core.js:232 | `Object.assign` copies the source's keys one after another |
| I18nCore.UnionUpdate | src/i18n/core.js:232-234 | setting a key after merging equals merging the updated source |
| I18nCore.AssignPrefix | src/i18n/core.js:232 | assigning the first n keys keeps the map well formed and adds those entries over the target |
| I18nCore.Assign | src/i18n/core.js:232 | `Object.assign` keeps the map well formed and lets every source entry win over the target |
| I18nCore.KeysUnderAssign | src/i18n/core.js:232 | merging a table whose keys lie under a longer prefix keeps every key under the shorter one |
| I18nCore.KeysUnderSet | src/i18n/core.js:234 | storing at a key under the prefix keeps every key under it |
| I18nCore.KeyPrefixExtends | src/i18n/core.js:229 | a dotted child key, and the prefix below it, extend the parent's key prefix |
| I18nCore.FlattenPrefix | src/i18n/core.js:225-239 | the flattening of the first n entries is well formed and holds no object values |
| I18nCore.FlattenPrefixUnder | src/i18n/core.js:229 | every flat key starts with the prefix and a dot, or is bare at the top |
| I18nCore.FlattenUnderStep | src/i18n/core.js:228-236 | one more entry keeps every key under the prefix |
| I18nCore.FlattenObject | src/i18n/core.js:225-239 | the flat table is well formed and holds no object values |
| I18nCore.FlattenObjectUnder | src/i18n/core.js:229 | every flat key of an object lies under its key prefix |
| I18nCore.FlattenStep | src/i18n/core.js:228-236 | one entry more: a nested non-array object is flattened under its dotted key and merged in; any other value is stored at its dotted key |
| I18nCore.FlattenStepNested | src/i18n/core.js:231-232 | a nested object entry is flattened under its dotted key and merged in |
| I18nCore.FlattenStepLeaf | src/i18n/core.js:233-234 | any other entry is stored at its dotted key |
| I18nCore.Flatten | src/i18n/core.js:225-239 | the loop into the accumulator computes the flattening `FlattenObject` defines |
| I18nCore.KeepsValue | src/i18n/core.js:232-234 | a key the later entries leave alone keeps its value |
| I18nCore.FlattenKeep | src/i18n/core.js:228-236 | entries that cannot write a key leave its value as an earlier entry left it |
| I18nCore.FlattenKeepValue | src/i18n/core.js:228-236 | one entry that cannot write a key keeps its value |
| I18nCore.FlattenKeepStep | src/i18n/core.js:228-236 | one entry that cannot write a key leaves it as it was |
| I18nCore.AssignKeeps | src/i18n/core.js:232 | a key the merged table lacks keeps its value |
| I18nCore.SetKeeps | src/i18n/core.js:234 | storing another key keeps a key's value |
| I18nCore.NotUnderDotted | src/i18n/core.js:229 | a dot-free key does not lie under a sibling's dotted key |
| I18nCore.DistinctDotted | src/i18n/core.js:229 | two different dot-free keys cannot both begin the same flat key |
| I18nCore.FlattenLeaf | src/i18n/core.js:225-239 | a non-object value whose key is dot-free, non-empty and not repeated later ends up at its dotted key |
| I18nCore.LeafNotWritten | src/i18n/core.js:228-236 | no later sibling overwrites such a leaf |
| I18nCore.FlattenNested | src/i18n/core.js:231-232 | every flat key of a nested object whose key is simple and not repeated later ends up, with its value, in the enclosing flattening |
| I18nCore.NestedNotWritten | src/i18n/core.js:228-236 | no later sibling overwrites the keys of such a nested object |
| I18nCore.IndexEntries | src/i18n/core.js:228 | `Object.entries` of an array gives its indices as keys, in order |
| I18nCore.TableOf | src/i18n/core.js:137-146 | a missing file or one that is not an object gives the empty table; the table is well formed |
| I18nCore.LoadTable | src/i18n/core.js:136-154 | loading one locale computes the table `TableOf` defines |
| I18nCore.LoadedTables | src/i18n/core.js:135-157 | loading the first n locales gives exactly those locales, each with its table |
| I18nCore.LoadedTablesStep | src/i18n/core.js:135-146 | each locale's load sets its own entry |
| I18nCore.LoadedTablesValid | src/i18n/core.js:135-157 | loading keeps every table well formed |
| I18nCore.Placeholder | src/i18n/core.js:295 | a placeholder starts with '{' |
| I18nCore.ReplaceParams | src/i18n/core.js:291-300 | the loop applies each parameter in turn, as `Substituted` defines |
| I18nCore.SubstitutedWithoutBraces | src/i18n/core.js:291-300 | a text without braces is returned unchanged |
| I18nCore.SubstitutedOne | src/i18n/core.js:291-300 | a single placeholder between brace-free text is replaced by the value |
| I18nCore.Substituted | src/i18n/core.js:291-300 | each `{{key}}` replaced by its value, parameter by parameter; `SubstitutedWithoutBraces` and `SubstitutedOne` state what it does |
| I18nCore.WithParams | src/i18n/core.js:280-285 | without parameters the value is returned as found; with parameters a string is substituted and any other value raises |
| I18nCore.MissingKeys | src/i18n/core.js:338 | the missing keys are exactly the default keys the locale lacks |
| I18nCore.NamespacePrefix | src/i18n/core.js:358-363 | the namespace view of the first n keys is well formed |
| I18nCore.NamespaceOf | src/i18n/core.js:354-365 | the namespace view is well formed |
| I18nCore.NamespaceStep | src/i18n/core.js:358-363 | a key under the prefix is stored without it; any other key is skipped |
| I18nCore.NamespacePrefixExact | src/i18n/core.js:358-363 | after the first n keys the view holds exactly their entries under the prefix, re-keyed |
| I18nCore.NamespaceExact | src/i18n/core.js:348-366 | the view holds exactly the entries under 'namespace.', with the prefix removed and the same values |
| I18nCore.I18n.constructor | src/i18n/core.js:79-93 | the core starts with no table, not loaded and not loading |
| I18nCore.I18n.LoadAllTranslations | src/i18n/core.js:112-128 | once loaded, a second call changes nothing; otherwise every locale's table is loaded, loaded becomes true and loading false |
| I18nCore.I18n.AllTranslations | src/i18n/core.js:305-307 | an unknown locale gives the empty table |
| I18nCore.I18n.Found | src/i18n/core.js:264-278 | the locale's own truthy value wins; otherwise the default locale's truthy value, otherwise none |
| I18nCore.I18n.GetTranslation | src/i18n/core.js:248-286 | the key itself before loading, for an unknown locale or when neither the locale nor the default has a truthy value; otherwise the found value with the parameters substituted |
| I18nCore.I18n.GetStats | src/i18n/core.js:320-343 | one entry per locale with its number of keys; the default locale misses nothing; every other locale misses exactly the default keys it lacks |
| I18nCore.I18n.Totals | src/i18n/core.js:323-329 | the first loop records every locale's size with nothing missing |
| I18nCore.I18n.AddMissing | src/i18n/core.js:332-340 | the second loop fills in the missing keys of every locale but the default |
| I18nCore.I18n.GetNamespaceTranslations | src/i18n/core.js:348-366 | `{}` before loading; afterwards the namespace view of the locale's table |
| I18nMiddleware.SomePrefix | src/middleware/i18n.js:83 | `some(startsWith)` holds exactly when one of the prefixes begins the path |
| I18nMiddleware.ShouldIgnorePath | src/middleware/i18n.js:8-84 | a path is ignored exactly when one of the seven ignore prefixes begins it |
| I18nMiddleware.DetectLocaleFromPath | src/middleware/i18n.js:4-44 | the result is one of 'es', 'en', 'ca'; a non-default locale is detected exactly when it is the first segment, and the clean path then holds the remaining segments; otherwise 'es' with the pathname, or '/' for a path without segments |
| I18nMiddleware.CodeAndQuality | src/middleware/i18n.js:62 | without ';q=' the trimmed entry is the code and the quality is '1'; the code never contains ';q=' |
| I18nMiddleware.ParseRange | src/middleware/i18n.js:61-64 | an entry's code is its part before the first '-', lower-cased, so it holds no '-' |
| I18nMiddleware.ParseRangeWithoutQuality | src/middleware/i18n.js:62-63 | an entry without ';q=' has quality 1, and a plain code is read as itself in lower case |
| I18nMiddleware.ByQualityIsPreorder | src/middleware/i18n.js:65 | ordering by quality, with a quality that does not parse last, is a total preorder |
| I18nMiddleware.FirstSupported | src/middleware/i18n.js:68-74 | the loop returns a supported locale, the default when no entry names one |
| I18nMiddleware.DetectPreferredLocale | src/middleware/i18n.js:51-75 | the preferred locale is supported, and the default for a missing or empty header |
| I18nMiddleware.FirstSupportedIsBest | src/middleware/i18n.js:68-72 | in a list sorted by quality the first supported code belongs to a supported entry whose quality no other supported entry exceeds |
| I18nMiddleware.SortKeepsMembers | src/middleware/i18n.js:65 | sorting keeps the header's entries |
| I18nMiddleware.SortedChoiceIsBest | src/middleware/i18n.js:59-72 | sorting and taking the first supported code picks a supported entry of highest quality |
| I18nMiddleware.SortedChoiceWithoutSupported | src/middleware/i18n.js:68-74 | without a supported entry the default is chosen |
| I18nMiddleware.PreferredWithoutSupported | src/middleware/i18n.js:51-75 | a header naming no supported locale gives 'es' |
| I18nMiddleware.PreferredIsHighest | src/middleware/i18n.js:51-75 | a header naming a supported locale gives the code of a supported entry of highest quality |
| I18nMiddleware.PreferredOf | src/middleware/i18n.js:59-75 | the first supported code after sorting by quality, whose choice `SortedChoiceIsBest` and `SortedChoiceWithoutSupported` state |
| I18nMiddleware.LocalizeUrl | src/middleware/i18n.js:187-197 | the path gets a leading '/'; the default locale adds no prefix; any other locale turns '/' into '/locale' and prefixes other paths with '/locale' |
| I18nMiddleware.GetAlternateUrls | src/middleware/i18n.js:200-208 | one localized URL per supported locale and no other key |
| I18nMiddleware.LocaleIsSegment | src/middleware/i18n.js:4 | every locale code is a non-empty segment without '/' |
| I18nMiddleware.SlashShape | src/middleware/i18n.js:194 | the two ways of writing '/locale/path' agree |
| I18nMiddleware.LocalizedAsPath | src/middleware/i18n.js:187-197 | the localized path of a non-default locale is the locale followed by the parts |
| I18nMiddleware.DetectLocalizedUrl | src/middleware/i18n.js:187-197 | detecting the locale of a path localized for a non-default locale gives back the locale and the path |
| MultiImageForm.Numbered | admin/src/components/settings/MultiImageForm.jsx:68-73 | the reordered list has one entry per kept image |
| MultiImageForm.NotifyChangePartitions | admin/src/components/settings/MultiImageForm.jsx:62-77 | every image is either reported deleted or kept for the reordered list, counted with repetition |
| MultiImageForm.NotifyChangeMembers | admin/src/components/settings/MultiImageForm.jsx:66-67 | the uploads are exactly the new images with a file, and the deletions exactly the deleted images |
| MultiImageForm.NotifyChangeNumbers | admin/src/components/settings/MultiImageForm.jsx:68-73 | the reordered entries name the images that are not deleted, in order, numbered 0, 1, 2, ... |
| MultiImageForm.NotifyChange | admin/src/components/settings/MultiImageForm.jsx:62-77 | the summary handed to `onChange`, whose parts `NotifyChangeMembers`, `NotifyChangePartitions` and `NotifyChangeNumbers` state |
| MultiImageForm.IndexOfId | admin/src/components/settings/MultiImageForm.jsx:138-139 | `findIndex` gives the first image with the ID, or none when no image has it |
| MultiImageForm.FindById | admin/src/components/settings/MultiImageForm.jsx:152 | `find` succeeds exactly when some image has the ID, and returns such an image |
| MultiImageForm.Spliced | admin/src/components/settings/MultiImageForm.jsx:144-146 | the two splices keep the number of images; `SplicedSwaps` states that they exchange the image with its neighbour |
| MultiImageForm.Renumbered | admin/src/components/settings/MultiImageForm.jsx:149-163 | the map keeps the number of images; `MovePermutes` and `MarkAt` state how each image is renumbered and marked |
| MultiImageForm.RenumberedStep | admin/src/components/settings/MultiImageForm.jsx:149-163 | renumbering a longer prefix adds the next image, renumbered by its position, at the end |
| MultiImageForm.SplicedSwaps | admin/src/components/settings/MultiImageForm.jsx:144-146 | moving an image by one place exchanges it with its neighbour |
| MultiImageForm.MoveNoOpIff | admin/src/components/settings/MultiImageForm.jsx:137-142 | the move does nothing exactly when no image has the ID, or the first image with it is first and moved up or last and moved down |
| MultiImageForm.MovePermutes | admin/src/components/settings/MultiImageForm.jsx:137-163 | after a move every image is renumbered by its new position and is otherwise the image from the exchanged position; new and deleted images keep their state; any other image is 'edited' afterwards exactly when it was already or the first image before the move with its ID had an order other than its new position |
| MultiImageForm.MovedImages | admin/src/components/settings/MultiImageForm.jsx:137-163 | what `handleMoveImage` sets the images to; `MoveNoOpIff`, `MovePermutes` and `MoveMarksExchanged` state it |
| MultiImageForm.MoveMarksExchanged | admin/src/components/settings/MultiImageForm.jsx:149-163 | in a list numbered by position with distinct IDs, a move leaves every other image as it was and marks the two exchanged images 'edited' unless they are new or deleted |
| MultiImageForm.MarkAt | admin/src/components/settings/MultiImageForm.jsx:152-161 | an image numbered by its position is marked exactly when it lands elsewhere |
| MultiImageForm.FindsOwnImage | admin/src/components/settings/MultiImageForm.jsx:152 | with distinct IDs, looking an image up by its ID finds that image |
| MultiImageForm.DeletedImages | admin/src/components/settings/MultiImageForm.jsx:169-177 | deleting keeps the number of images; `DeleteReports` states what happens to each image |
| MultiImageForm.UndoneImages | admin/src/components/settings/MultiImageForm.jsx:179-187 | undoing keeps the number of images; `UndoAfterDelete` states when it gives back the images as they were |
| MultiImageForm.DeleteReports | admin/src/components/settings/MultiImageForm.jsx:169-177 | after a deletion the images with the ID are marked and reported deleted and left out of the reordered list; the other images are unchanged |
| MultiImageForm.UndoAfterDelete | admin/src/components/settings/MultiImageForm.jsx:169-187 | undoing a deletion gives back the images exactly when each image with the ID was in the state the undo restores: an 'edited' image comes back 'normal' |
| MultiImageForm.Gallery.constructor | admin/src/components/settings/MultiImageForm.jsx:1-59 | the form holds the given images |
| MultiImageForm.Gallery.MoveImage | admin/src/components/settings/MultiImageForm.jsx:137-167 | the handler sets the images `MovedImages` defines and reports them, or changes nothing when it returns early |
| MultiImageForm.Gallery.DeleteImage | admin/src/components/settings/MultiImageForm.jsx:169-177 | the handler sets the images `DeletedImages` defines and reports them |
| MultiImageForm.Gallery.UndoDelete | admin/src/components/settings/MultiImageForm.jsx:179-187 | the handler sets the images `UndoneImages` defines and reports them |
| ScheduleForm.ListedCovered | admin/src/components/contact/ScheduleForm.jsx:27-45 | an hour on the calendar is covered by some range of some open day |
| ScheduleForm.CoveredListed | admin/src/components/contact/ScheduleForm.jsx:27-45 | every hour covered by a range of an open day is on the calendar |
| ScheduleForm.SortedHours | admin/src/components/contact/ScheduleForm.jsx:44 | sorting the distinct hours numerically gives a strictly increasing list |
| ScheduleForm.AddHours | admin/src/components/contact/ScheduleForm.jsx:37-39 | the hour loop adds exactly the hours from first to last, without duplicates |
| ScheduleForm.AddRangeHours | admin/src/components/contact/ScheduleForm.jsx:33-39 | one range adds exactly the hours it covers; a NaN start or end hour adds none |
| ScheduleForm.CoversBetween | admin/src/components/contact/ScheduleForm.jsx:34-39 | a range covers the hours between its start and end hour, and none when either is NaN |
| ScheduleForm.AddDayHours | admin/src/components/contact/ScheduleForm.jsx:31-40 | one open day adds exactly the hours some of its ranges cover, without duplicates |
| ScheduleForm.GetAllHours | admin/src/components/contact/ScheduleForm.jsx:27-45 | the result holds exactly the hours covered by a range of an open day, each once, in increasing order |
| ScheduleForm.FindDay | admin/src/components/contact/ScheduleForm.jsx:49 | the found schedule is for the day; with none found no schedule is for it |
| ScheduleForm.OverlapCovered | admin/src/components/contact/ScheduleForm.jsx:55-67 | with whole-hour times, an hour a range overlaps is an hour it covers |
| ScheduleForm.OpenHourListed | admin/src/components/contact/ScheduleForm.jsx:27-68 | with whole-hour times, every hour shown open has a row on the calendar |
| ScheduleForm.IsHourOpen | admin/src/components/contact/ScheduleForm.jsx:48-68 | a cell of the weekly grid is open when the first schedule of that day is open and one of its ranges overlaps the hour; `OpenHourListed` relates it to the listed hours |
| ScheduleForm.EndHourShownClosed | admin/src/components/contact/ScheduleForm.jsx:27-68 | a range ending on the hour gives that hour a row, shown closed for that range |
| ScheduleForm.DayIndex | admin/src/components/contact/ScheduleForm.jsx:24 | the index of the day in the week order, -1 exactly for a name outside the week |
| ScheduleForm.SortedSchedulesOrder | admin/src/components/contact/ScheduleForm.jsx:147-149 | the same schedules, in week order, with schedules of one day keeping their order |
| ScheduleForm.SortedSchedules | admin/src/components/contact/ScheduleForm.jsx:147-149 | the schedules in week order, as `SortedSchedulesOrder` states |
| ScheduleForm.StringLeTotal | admin/src/components/contact/ScheduleForm.jsx:173-176 | the time comparison orders any two strings |
| ScheduleForm.StringLeTransitive | admin/src/components/contact/ScheduleForm.jsx:173-176 | the time comparison is transitive |
| ScheduleForm.StringLeAntisymmetric | admin/src/components/contact/ScheduleForm.jsx:173-176 | two strings ordered both ways are equal |
| ScheduleForm.TimesLeOrder | admin/src/components/contact/ScheduleForm.jsx:173-176 | the comparator on (start, end) is a total, antisymmetric order |
| ScheduleForm.NormalizeSortedRanges | admin/src/components/contact/ScheduleForm.jsx:172-177 | reading the times of the sorted ranges gives the sorted times |
| ScheduleForm.KeyIffSameTimes | admin/src/components/contact/ScheduleForm.jsx:172-179 | two days share a pattern key exactly when they hold the same trimmed times, counted with repetition |
| ScheduleForm.PatternsOfGroups | admin/src/components/contact/ScheduleForm.jsx:200-203 | the patterns are the keys in first-seen order, each with its dictionary entry |
| ScheduleForm.PatternsOf | admin/src/components/contact/ScheduleForm.jsx:162-204 | the patterns of the open days, whose days and ranges `PatternDays`, `PatternRanges` and `PatternsOfGroups` state |
| ScheduleForm.FileDay | admin/src/components/contact/ScheduleForm.jsx:166-198 | one loop pass files the day under its key: a new key is appended with the day's sorted ranges, a known key gains the day |
| ScheduleForm.GroupSchedulesByPattern | admin/src/components/contact/ScheduleForm.jsx:162-204 | the loop builds exactly the specified patterns of the open days with ranges |
| ScheduleForm.RangeLeOrder | admin/src/components/contact/ScheduleForm.jsx:183-188 | the ranges' comparator is a total preorder |
| ScheduleForm.EachOpenDayInOnePattern | admin/src/components/contact/ScheduleForm.jsx:162-204 | every open day with ranges is listed under the pattern of its key, and no key appears twice |
| ScheduleForm.PatternDays | admin/src/components/contact/ScheduleForm.jsx:179-197 | a day is listed under a pattern exactly when an open day of that name has the pattern's key |
| ScheduleForm.PatternRanges | admin/src/components/contact/ScheduleForm.jsx:181-195 | a pattern's ranges are the sorted ranges of a day with its key: at least one, and their times are the key |
| ScheduleForm.DayToggle | admin/src/components/contact/ScheduleForm.jsx:206-228 | schedules of the day are opened with the pattern's ranges when checked and closed with none when unchecked; others are kept |
| ScheduleForm.InSortedSchedules | admin/src/components/contact/ScheduleForm.jsx:147-149 | every schedule appears in the week-ordered list |
| ScheduleForm.FromSortedSchedules | admin/src/components/contact/ScheduleForm.jsx:147-149 | every schedule of the week-ordered list is one of the schedules |
| ScheduleForm.OpenedWithPattern | admin/src/components/contact/ScheduleForm.jsx:210-216 | a day opened with a pattern's ranges has that pattern's key |
| ScheduleForm.ToggleOnJoinsPattern | admin/src/components/contact/ScheduleForm.jsx:206-228 | after checking a day it is listed under a pattern with the key, and the other days are untouched |
| ScheduleForm.GroupedDayListed | admin/src/components/contact/ScheduleForm.jsx:147-204 | every open day with ranges is listed under the pattern of its key after week ordering |
| ScheduleForm.ToggleOffLeavesPatterns | admin/src/components/contact/ScheduleForm.jsx:217-224 | after unchecking a day no pattern lists it, and the other days are untouched |
| ScheduleForm.ToggledOffNotListed | admin/src/components/contact/ScheduleForm.jsx:217-224 | no pattern lists a day that was just unchecked |
| ScheduleForm.AddRange | admin/src/components/contact/ScheduleForm.jsx:246-264 | every schedule keeps its place; the pattern's days gain a new range at the end |
| ScheduleForm.AppendedTimes | admin/src/components/contact/ScheduleForm.jsx:247-252 | the new range adds the times 09:00-17:00 once |
| ScheduleForm.AddRangeKeepsPatternTogether | admin/src/components/contact/ScheduleForm.jsx:246-264 | each edited day gains 09:00-17:00 once, two edited days that shared a key still share one, other schedules are untouched |
| ScheduleForm.KeyOfAppend | admin/src/components/contact/ScheduleForm.jsx:246-264 | adding the same range to two lists with one key keeps their keys equal |
| ScheduleForm.FirstClosed | admin/src/components/contact/ScheduleForm.jsx:279 | the first closed schedule: closed, with every earlier one open; none only when all are open |
| ScheduleForm.AddNewPatternOpensFirstClosed | admin/src/components/contact/ScheduleForm.jsx:277-298 | with all days open nothing changes; otherwise exactly the schedules of the earliest closed day in week order are opened with one 09:00-17:00 range |
| ScheduleForm.AllOpenUnchanged | admin/src/components/contact/ScheduleForm.jsx:279-280 | with no closed day every day is open and nothing changes |
| ScheduleForm.FirstClosedDay | admin/src/components/contact/ScheduleForm.jsx:279 | the first closed day in week order is closed and no closed day precedes it |
| ScheduleForm.OpensDay | admin/src/components/contact/ScheduleForm.jsx:280-296 | the schedules of that day are opened with one new range, the others kept |
| ScheduleForm.EditAt | admin/src/components/contact/ScheduleForm.jsx:234-238 | editing a range keeps the number of ranges; `RangeChangeEditsShownRow` states which range changes and how |
| ScheduleForm.RemoveAt | admin/src/components/contact/ScheduleForm.jsx:269 | removing an existing index drops exactly that range; another index changes nothing |
| ScheduleForm.RangeChangeAsWritten | admin/src/components/contact/ScheduleForm.jsx:230-244 | every schedule keeps its place (as written, the row index applies to the stored order) |
| ScheduleForm.DeleteRangeAsWritten | admin/src/components/contact/ScheduleForm.jsx:266-275 | every schedule keeps its place (as written, the row index applies to the stored order) |
| ScheduleForm.RangeChange | admin/src/components/contact/ScheduleForm.jsx:230-244 | every schedule keeps its place; the row index applies to the order the rows show |
| ScheduleForm.DeleteRange | admin/src/components/contact/ScheduleForm.jsx:266-275 | every schedule keeps its place; the row index applies to the order the rows show |
| ScheduleForm.SortedRangesTimes | admin/src/components/contact/ScheduleForm.jsx:172-179 | a day's ranges in shown order have the times of its key |
| ScheduleForm.SameKeySameRows | admin/src/components/contact/ScheduleForm.jsx:172-195 | two days with one key show the same times on every row |
| ScheduleForm.RangeChangeKeepsPatternTogether | admin/src/components/contact/ScheduleForm.jsx:230-244 | after editing a row, two edited days that shared a key still share one |
| ScheduleForm.DeleteRangeKeepsPatternTogether | admin/src/components/contact/ScheduleForm.jsx:266-275 | after deleting a row, two edited days that shared a key still share one |
| ScheduleForm.EditedDayHasKey | admin/src/components/contact/ScheduleForm.jsx:162-204 | with one schedule per day, a day a pattern handler edits has the pattern's key |
| ScheduleForm.RangeChangeEditsShownRow | admin/src/components/contact/ScheduleForm.jsx:230-244 | in each edited day, the range shown on the row gets the new field, and the other ranges are kept |
| ScheduleForm.DeleteRangeRemovesShownRow | admin/src/components/contact/ScheduleForm.jsx:266-275 | each edited day loses exactly the range shown on the row, which has the row's times |
| ScheduleForm.ShownRow | admin/src/components/contact/ScheduleForm.jsx:172-195 | the range an edited day shows on a pattern's row has that row's times |
| ScheduleForm.SampleSorted | admin/src/components/contact/ScheduleForm.jsx:183-188 | both sample days show the afternoon range on row 0, whatever their stored order |
| ScheduleForm.SampleKeys | admin/src/components/contact/ScheduleForm.jsx:179 | the two sample days share a key, so one pattern lists both |
| ScheduleForm.RangeChangeAsWrittenEditsOtherRange | admin/src/components/contact/ScheduleForm.jsx:230-244 | as written, editing row 0 changes Monday's evening range but Tuesday's afternoon range, splitting the pattern |
| ScheduleForm.RangeChangeAsWrittenAt | admin/src/components/contact/ScheduleForm.jsx:232-240 | as written, a day of the pattern gets its stored ranges with the row index edited |
| ScheduleForm.RangeChangeEditsAfternoon | admin/src/components/contact/ScheduleForm.jsx:230-244 | corrected, the same edit changes the afternoon range of both days |
| ScheduleForm.RangeChangeAt | admin/src/components/contact/ScheduleForm.jsx:230-244 | corrected, a day of the pattern gets its shown ranges with the row index edited |
| ScheduleForm.DeleteRangeAsWrittenRemovesOtherRange | admin/src/components/contact/ScheduleForm.jsx:266-275 | as written, deleting row 0 removes Monday's evening range but Tuesday's afternoon range, splitting the pattern |
| ScheduleForm.DeleteRangeRemovesAfternoon | admin/src/components/contact/ScheduleForm.jsx:266-275 | corrected, the same deletion removes the afternoon range from both days |
| Sorting.SortSorted | admin/src/utils/menuDataUtils.js:142 | `Array.prototype.sort` with a total-preorder comparator gives an ordered permutation of its input |
| Sorting.SortStable | admin/src/utils/menuDataUtils.js:142 | the sort is stable: entries with the same `orderIndex` keep their insertion order |
| Sorting.SortOfSorted | admin/src/hooks/useEntityOperations.js:372 | sorting entries already in order leaves them as they are |
| Sorting.SortFirstIsLeast | src/repositories/ContactRepository.js:178-179 | the first element of a sorted result is not after any element, as `sort(...)[0]` relies on |
| Sorting.FilterKeepsOrder | src/repositories/ContactRepository.js:238-242 | filtering sorted ranges leaves them sorted |
| Sorting.SortedUnique | admin/src/components/contact/ScheduleForm.jsx:172-179 | two ordered lists with the same elements are equal under an antisymmetric comparator |
| Sorting.SortUnique | admin/src/components/contact/ScheduleForm.jsx:172-179 | under an antisymmetric comparator, two lists sort alike exactly when they hold the same elements |
| Sorting.MapSort | admin/src/components/contact/ScheduleForm.jsx:172-188 | mapping then sorting equals sorting then mapping when the comparator reads through the map |
| Strings.Trim | admin/src/utils/validationUtils.js:20 | `trim` gives a string no longer than the input with no white space at either end; `TrimMeans` states which string |
| Strings.TrimMeans | admin/src/utils/validationUtils.js:20 | `trim` keeps a stretch of the input, and everything cut off before and after that stretch is white space |
| Strings.TrimEmptyIff | admin/src/utils/validationUtils.js:13 | a value trims to empty exactly when it is made only of white space |
| Strings.TrimNoOp | admin/src/utils/validationUtils.js:20 | a string without white space at either end trims to itself |
| Strings.LastIndexOf | admin/src/utils/imageValidationUtils.js:57-63 | the last index holding the character, or -1 when absent |
| Strings.Split | admin/src/utils/menuDataUtils.js:20 | `split` on a one-character separator: at least one piece, none holding the separator, a single piece exactly when the separator is absent |
| Strings.JoinSplit | admin/src/utils/menuDataUtils.js:20-37 | splitting and joining again on the same separator gives back the string |
| Strings.SplitJoin | admin/src/utils/menuDataUtils.js:8-20 | joining parts free of the separator and splitting again gives back the parts |
| Strings.ToLower | admin/src/utils/imageValidationUtils.js:63 | `toLowerCase` on the ASCII letters |
| Strings.DigitsValueOfNatToString | admin/src/utils/menuDataUtils.js:8-12 | the decimal rendering of a number reads back to the number |
| Numbers.ParseFloat | admin/src/utils/validationUtils.js:47 | `parseFloat` gives NaN exactly when no decimal literal follows the leading white space and optional sign |
| Numbers.ParseInt | admin/src/components/contact/ScheduleForm.jsx:33 | `parseInt(s)` without a radix: after the leading white space and optional sign, a "0x" or "0X" prefix gives NaN exactly when no hexadecimal digit follows it, and otherwise NaN comes exactly when no decimal digit follows |
| Numbers.ParseIntHex | src/services/AuthService.js:322 | after "0x" or "0X", with or without a '-' in front, the hexadecimal digits are read as a number |
| Numbers.ParseIntHexSample | src/services/AuthService.js:322 | `parseInt("0x1A")` is 26 |
| Numbers.ParseIntHexNaN | src/services/AuthService.js:322 | `parseInt("0xZ")` is NaN |
| Numbers.ParseIntDecimal | src/services/AuthService.js:329 | a text of decimal digits is read as its decimal value, the "0x" rule never applying to it |
| Numbers.ParseIntNegativeDecimal | src/services/AuthService.js:322 | a '-' followed by decimal digits is read as the negative of their value |
| Numbers.ParseIntOfIntToString | admin/src/utils/menuDataUtils.js:17-27 | reading back the rendering of an integer gives the integer |
| Numbers.NumberOfNatToString | src/services/ContactService.js:110 | reading back the rendering of a natural number as a number gives the number |
| Grouping.KeysOfMeans | admin/src/components/contact/ScheduleForm.jsx:179-193 | the `patterns` list holds each key of an admitted day exactly once |
| Grouping.FirstWithMeans | admin/src/components/contact/ScheduleForm.jsx:181-192 | a key's entry comes from the earliest day with that key |
| Grouping.NamesWithMeans | admin/src/components/contact/ScheduleForm.jsx:197 | a day is listed under a key exactly when an admitted day of that name has the key |
| Grouping.InOneGroup | admin/src/components/contact/ScheduleForm.jsx:162-204 | every admitted day is named under its own key, which is listed once |
| Grouping.GroupsAt | admin/src/components/contact/ScheduleForm.jsx:181-197 | a key's entry holds the first day's ranges and the names of all its days |
| Grouping.GroupStep | admin/src/components/contact/ScheduleForm.jsx:165-198 | one more day appends a new key with a fresh entry, or adds the day to a known key's entry |
| Grouping.KeysOfGroups | admin/src/components/contact/ScheduleForm.jsx:200-203 | the listed keys are exactly the keys of the dictionary |
| OrderedMaps.OrderedMap.Set | admin/src/hooks/useEntityOperations.js:130 | `Map.set`: a new key goes to the end, a present one keeps its place, and the value is stored |
| OrderedMaps.OrderedMap.Delete | admin/src/hooks/useEntityOperations.js:280 | `Map.delete`: the key is gone, the other entries keep their values and order |
| OrderedMaps.WithoutAt | admin/src/hooks/useEntityOperations.js:280 | deleting a key that occurs once cuts it out of its position, so the other keys keep their insertion order |
| OrderedMaps.OrderedMap.Entries | admin/src/hooks/useEntityOperations.js:371-372 | `entries()` lists each key once, in insertion order, with its value |
| OrderedMaps.SizeIsCardinality | admin/src/hooks/useEntityOperations.js:108 | the map's size counts its keys |
| OrderedMaps.DistinctAppend | admin/src/hooks/useEntityOperations.js:130 | appending a new key keeps the keys distinct |
| Sequences.Filter | admin/src/utils/menuDataUtils.js:205 | `filter` keeps exactly the elements that pass, and is no longer than its input |
| Sequences.FilterCount | admin/src/components/settings/MultiImageForm.jsx:254-255 | each element is kept as often as it occurs when it passes, and not at all otherwise |
| Sequences.FilterEmpty | admin/src/hooks/useEntityOperations.js:289 | filtering leaves nothing exactly when no element passes |
| Sequences.FilterConcat | admin/src/components/settings/MultiImageForm.jsx:66-69 | filtering distributes over concatenation |

## Left out

- Input and output are not modelled: the clock, `Date.now()`, timers, `fetch`, the browser's `File` objects, the DOM and JSX rendering. The current day and time, the new range's ID, a file's name, type and size, and the answer of each retried call are parameters.
- `formatBytes` (imageValidationUtils.js) is not modelled, because it formats floating-point numbers. Error messages are modelled as structured values with their parameters, not as the Spanish text.
- These translation-core functions are not modelled: `getCurrentOrigin`, `getAbsoluteUrl`, `getAlternateUrls`, `hasTranslation`, the language getters, `formatDate`, `formatNumber` and `formatCurrency` (they use `Intl`), the flag rendering (HTML) and `init`.
- The asynchronous de-duplication of loading through `loadPromise` is not modelled. Loading is one synchronous pass over the locales, and a file that fails to load is an absent table.
- The middleware's `onRequest`, `buildLocalizedUrl` and `getLocaleFromUrl` are not modelled, because they work on `URL` objects, redirects and response headers. The path and `Accept-Language` rules they apply are modelled.
- The translation core's locales are es, en and val; the middleware's are es, en and ca. Each module keeps its own list, as the code does.
- These gallery-form parts are not modelled: `handleAddImage`, `handleFileSelect`, `loadGalleryImages` and `handleToggleExpand` (they read files and the network or only toggle the view), and `_previewUrl`. A missing `onChange` callback is not modelled: the form always reports its changes.
- The HSV conversions of the colour picker are not modelled, because they are floating-point arithmetic. Only the hexadecimal codec is modelled.
- ScheduleForm compares times with `localeCompare`. The model compares them by code point. The two agree on "HH:MM" strings.
- ScheduleForm's pattern key is `JSON.stringify` of the sorted trimmed times. The model uses the list of times, which identifies the same patterns.
- ScheduleForm: a missing `scheduleRanges` is modelled as the empty list.
- ScheduleForm: a `rangeIndex` outside a day's ranges leaves that day's ranges unchanged. The source would write a range holding only the edited field.
- EntityOperations.Move: with no entity at the given ID the model changes nothing. In the category case the source throws while destructuring `undefined`, which also leaves the state unchanged.
- agent.py's Excel reading, prompt template and file writing are not modelled. A cell is modelled as the text Python's `str()` gives for its value, so the formatting of numbers is not modelled. Duplicate column names are not modelled either.
- Numbers.ParseFloat: the contract states only when the result is NaN. The value read is stated for rendered numbers by `NumberOfNatToString`.
- Numbers.ParseInt: the contract states only when the result is NaN. The value read is stated for rendered integers by `ParseIntOfIntToString` and for hexadecimal text by `ParseIntHex`. The model keeps every digit, where a JavaScript number rounds values beyond 2^53.
- MenuValidation.NameError: a truthy `nameKey` that is not a string (a number, `true`, an object) makes the source throw a TypeError at `.trim()`, which ends the validation. The model reports the name message for it instead, so an editor whose data holds such a name is not modelled.
- Strings.Trim: the function's own contract states only the length bound and the two ends. That the result is the input with its leading and trailing white space cut off is stated by the lemma `TrimMeans`, so that the many proofs using `Trim` do not carry that quantified fact.
- Numbers.ParseFloat and Numbers.ToNumber read only optional sign, digits and one decimal point. An exponent ("1e3"), "Infinity" and the 0x, 0b and 0o literals of `Number` are not read: `parseFloat("1e3")` is 1000 in JavaScript and 1 in the model, so a price written with an exponent can pass or fail a maximum differently.
- Strings are sequences of Unicode scalar values. JavaScript's `length` counts UTF-16 code units, so a text with a character outside the Basic Multilingual Plane (an emoji) is one shorter in the model than in the source, and the minimum-length checks can differ on it.
- Strings.ToLower folds only the ASCII letters A to Z; `toLowerCase` folds all of Unicode. Day names, file extensions and language codes with other capital letters are compared differently.
- I18nCore.Substituted replaces the literal text `{{key}}`. The source builds a regular expression from the key and uses the value as a replacement pattern, so a key holding regular-expression metacharacters, or a value holding `$&` or `$1`, behaves differently there. An all-digit key such as `1` makes the pattern `{{1}}` read as one '{' quantified by `{1}` and then '}', so the source replaces the text `{}` and leaves `{{1}}` alone.
- OrderedMaps keep insertion order for every key. `Object.keys` and `Object.entries` list integer-like keys ("404") first in ascending order, so with such keys the order of `flattenObject`'s output and of the missing keys in `getStats` can differ.
- I18nMiddleware.PreferredOf sorts an entry whose quality does not parse last. In the source the comparator then returns NaN, which the engine treats like 0, so such an entry keeps an order that depends on the sorting algorithm ("en;q=abc, ca;q=0.5" gives "en" there and "ca" in the model).
- EntityOperations.Update merges only the four fields of `Updates` (name, description, price, availability); the spread in the source merges any field. A truthy `nameKey` that is not a string makes the source throw at `.trim()`; the model treats it as no content.
- AuthService.WithRetry takes `maxRetries`, `baseDelay` and `maxDelay` as arguments: the defaults 2, 1000 and 30000 and the `onRetry(attempt + 1, delay / 1000, retryAfter)` callback are not modelled.
- AuthService: `JsValue.Num` holds only whole numbers, so `parseInt` of a fractional number (`parseInt(1.5)` is 1) is not modelled.
- MenuDataUtils: `orderIndex` is a whole number, so a missing `orderIndex`, which makes the source's sort comparator return NaN, cannot occur in the model.
- Floating-point numbers are modelled as exact reals. A JavaScript number that is not a finite real (NaN) is `None`.

## Findings

| source | as written | input that shows it | evidently intended | confidence | as-written member | corrected member |
|---|---|---|---|---|---|---|
| admin/src/hooks/useEntityOperations.js:351-360 | undoing a deletion always removes the entity's change tracking, even when the restored state is 'edited' | edit an existing item, delete it, then undo: the item is 'edited' but untracked, so its badge and `hasRealChanges` forget the edit (`UndoDeleteAsWrittenForgetsEdit`) | the undo restores the tracking the entity had before the deletion (`UndoDeleteRestores`) | not executed | EntityOperations.UndoDeleteAsWritten | EntityOperations.UndoDelete |
| admin/src/components/contact/ScheduleForm.jsx:230-244 | the row index comes from the pattern's sorted ranges but is applied to each day's ranges in stored order | Monday stores [20:00-23:00, 13:00-16:00] and Tuesday [13:00-16:00, 20:00-23:00]; setting row 0's start to 12:00 edits Monday's evening range and Tuesday's afternoon range, which splits the pattern (`RangeChangeAsWrittenEditsOtherRange`) | the range shown on the row is edited in every day of the pattern (`RangeChangeEditsShownRow`, `RangeChangeKeepsPatternTogether`) | not executed | ScheduleForm.RangeChangeAsWritten | ScheduleForm.RangeChange |
| admin/src/components/contact/ScheduleForm.jsx:266-275 | the row index of a deletion is applied to each day's ranges in stored order | same two days: deleting row 0 (13:00-16:00) removes Monday's evening range and Tuesday's afternoon range (`DeleteRangeAsWrittenRemovesOtherRange`) | the range shown on the row is removed from every day of the pattern (`DeleteRangeRemovesShownRow`, `DeleteRangeKeepsPatternTogether`) | not executed | ScheduleForm.DeleteRangeAsWritten | ScheduleForm.DeleteRange |
