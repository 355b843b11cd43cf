# Tracking sessions and meeting logs, modelled in Dafny

This project models the in-memory core of a field-workforce tracking backend. It has three record stores. Each is a sequence of records plus an id counter that only goes up.

- **Tracking sessions** (`server/routes/tracking.ts`). Each session has a GPS route and a running total distance. The handlers create, update (a shallow merge, with an end time and duration derived on completion), append a location, list, get and delete sessions.
- **Meeting history** (`server/routes/tracking.ts`). This store is append-only. Adding an entry validates it and converts legacy customer fields into a contact list. Reading returns one page.
- **Meeting logs** (`server/routes/meetings.ts`). The handlers create, update (end time derived on completion, blank discussion refused), list, get and delete meeting logs.

Each store is a Dafny `class`. Its array is a `seq` field and its counter a `nat` field, and the handlers are methods that reassign them. Each method's postcondition states the whole new state and the result. It also states the invariants the method keeps. Ids stay distinct and each was issued by the counter. In the session store, every session's total distance stays equal to the length of its route (`AllTallied`). The one exception is an update whose payload itself sets `route` or `totalDistance`.

The pure parts are functions with lemmas about them: `findIndex`, `filter`, the stable most-recent-first `sort`, `slice`, page arithmetic, id formatting, `trim`, and the route accumulator. The Haversine `calculateDistance` is a parameter, `dist`, given to the session store when it is built. The route facts therefore hold whatever that function returns.

Modules, one per file: `Common` (common.dfy), `Text` (text.dfy), `Ids` (ids.dfy), `Lists` (lists.dfy), `Route` (route.dfy), `Sessions` (sessions.dfy), `Details` (details.dfy), `History` (history.dfy), `Meetings` (meetings.dfy).

Conventions:
- Time is an integer count of milliseconds. The handlers' `new Date()` is the parameter `now`.
- A request field is an `Option`. A string field is "truthy" (`Truthy`) when it is present and not empty, as JavaScript's `!x` tests it.
- An update payload field that is `Some` replaces the stored field; `None` leaves it alone.

## Model

| member | source | states |
|---|---|---|
| `Common.OrAbsent` | server/routes/meetings.ts:87 | `leadId \|\| undefined`: the field is kept exactly when it is truthy, and is then unchanged |
| `Common.OrEmpty` | server/routes/tracking.ts:307-310 | `x \|\| ""`: the result is empty exactly when the field is falsy, and is otherwise the field's own value |
| `Common.StampedAt` | server/routes/tracking.ts:93-96 | `{...loc, timestamp: now}`: the timestamp is `now` and every other field is the caller's |
| `Text.TrimStart` | server/routes/tracking.ts:288 | the leading part of `trim()`: what remains is a suffix of the input that is empty or starts with a non-whitespace character, and everything removed is whitespace |
| `Text.TrimEnd` | server/routes/meetings.ts:117 | the trailing part of `trim()`: what remains is a prefix of the input that is empty or ends with a non-whitespace character, and everything removed is whitespace |
| `Text.TrimEmptyIffBlank` | server/routes/tracking.ts:288 | `!s.trim()` holds exactly when every character of `s` is ECMAScript whitespace |
| `Ids.Decimal` | server/routes/tracking.ts:90 | `String(n)` is a non-empty string of decimal digits with no leading zero, unless it is "0". It has 1 digit below 10, at most 2 below 100 and at most 3 below 1000 |
| `Ids.PadStart` | server/routes/tracking.ts:90 | `padStart(3, "0")`: the result has the width, ends with the input, and the added characters are all `0` |
| `Ids.FormatIdShape` | server/routes/tracking.ts:90 | an id `FormatId(prefix, n)` is the prefix followed by at least three digits, and by exactly three when `n < 1000` |
| `Ids.FormattedExamples` | server/routes/meetings.ts:77 | counter 1 gives `session_001`, 12 gives `history_012`, 1000 gives `meeting_1000` |
| `Ids.ParseFormatted` | server/routes/tracking.ts:90 | an id `prefix + String(n).padStart(3, "0")` parses back to `n` |
| `Ids.FormatIdInjective` | server/routes/meetings.ts:77 | two counter values give the same id only if they are equal |
| `Ids.FreshId` | server/routes/tracking.ts:315 | the counter's current value gives an id that was never issued before, and issuing it extends the issued set |
| `Lists.IndexOf` | server/routes/tracking.ts:116-121 | `findIndex` by id: -1 exactly when no record has the id, otherwise the first index that has it |
| `Lists.Select` | server/routes/tracking.ts:29-54 | `filter`: every kept element passes the predicate and comes from the input, and every passing input element is kept |
| `Lists.SelectAppend` | server/routes/tracking.ts:29-54 | filtering a concatenation is the concatenation of the filtered parts, so the kept elements stay in input order |
| `Lists.SelectCount` | server/routes/meetings.ts:19-44 | a passing element is kept as many times as it occurs in the input, and a failing one not at all |
| `Lists.SelectAll` | server/routes/tracking.ts:26 | with no filter applied, the "filtered" list is the store itself |
| `Lists.Take` | server/routes/tracking.ts:63-65 | `slice(0, limit)`: the result is the prefix of length `min(limit, n)` |
| `Lists.SortDesc` | server/routes/tracking.ts:57-60 | the sort by `b - a`: the result is ordered most recent first and is a permutation of the input |
| `Lists.SortStable` | server/routes/meetings.ts:47-50 | the sort is stable: records with equal keys keep their relative order |
| `Lists.SortSelect` | server/routes/meetings.ts:19-50 | the sorted, filtered list contains exactly the store's records that pass the filter |
| `Lists.SortSorted` | server/routes/tracking.ts:243-246 | sorting an already sorted list changes nothing, so repeated unfiltered lists leave the store as it is |
| `Lists.RemoveAt` | server/routes/tracking.ts:221 | `splice(i, 1)`: one element fewer, the others kept in order, and the multiset loses exactly the removed record |
| `Lists.IssueNext` | server/routes/tracking.ts:89-102 | pushing a record with the counter's next id keeps ids distinct and issued, with the counter one higher |
| `Lists.IssuedRemove` | server/routes/meetings.ts:153-159 | deleting keeps ids distinct and issued, and no remaining record has the deleted id |
| `Lists.IssuedSort` | server/routes/meetings.ts:47-50 | sorting the store in place keeps ids distinct and issued |
| `Lists.TotalPages` | server/routes/tracking.ts:259 | `Math.ceil(total / limit)`: the pages cover `total`, and every page before the last is full |
| `Lists.PageOf` | server/routes/tracking.ts:249-253 | the page is `s[(page-1)*limit ..]`, truncated to `limit` entries and to the end of `s` |
| `Lists.PageNonEmpty` | server/routes/tracking.ts:249-259 | a page has entries exactly when its number is at most `totalPages` |
| `Lists.PageSorted` | server/routes/tracking.ts:243-253 | a page of the sorted list is itself sorted and contains only records from the list |
| `Route.PathLengthIsLegSum` | server/routes/tracking.ts:176-185 | the running total (legs added in travel order) equals the sum of `Dist` over consecutive route pairs |
| `Route.WithTimestamp` | server/routes/tracking.ts:167-170 | an appended sample keeps the caller's timestamp if present, and otherwise gets `now` |
| `Route.Accumulate` | server/routes/tracking.ts:173-185 | one append puts the sample at the end of the route. It adds `Dist(previous last, sample)` to the total when the route was non-empty, and adds nothing when it was empty. No other field changes |
| `Route.AccumulateTallied` | server/routes/tracking.ts:173-185 | an append keeps `totalDistance` equal to the length of the route |
| `Route.AccumulateAllTallied` | server/routes/tracking.ts:173-185 | after any run of appends, the route is the old route followed by the samples, the total is still the route's length, and no other field changes |
| `Route.CreatedThenAppended` | server/routes/tracking.ts:97-98 | a session created with `route = [start]` and total 0, then only appended to, has `appends + 1` points and total `PathLength([start] + samples)` |
| `Route.TwoAppends` | server/routes/tracking.ts:176-185 | two appends give `Dist(P0,P1) + Dist(P1,P2)`, not `Dist(P0,P2)` |
| `Sessions.Matches` | server/routes/tracking.ts:29-54 | the session filter: the employee, status and inclusive date-bound filters each apply only when given, so with none given every session passes |
| `Sessions.ListingFacts` | server/routes/tracking.ts:57-65 | the listed sessions all match the query, are most recent first, and with no limit are exactly the matching ones |
| `Sessions.DurationSeconds` | server/routes/tracking.ts:133 | `Math.floor((end - start) / 1000)`: the largest whole number of seconds not above the elapsed time, negative gaps included |
| `Sessions.Updated` | server/routes/tracking.ts:124-139 | when the payload's status is "completed" and there is no stored end time, the end time is `now` and the duration is derived from the stored start time, overriding the payload. Otherwise end time and duration come from the payload if present, else from the stored session. Every other field is shallow-merged |
| `Sessions.RecompleteKeepsTiming` | server/routes/tracking.ts:124-127 | completing a session a second time changes neither its end time nor its duration |
| `Sessions.UpdatedTallied` | server/routes/tracking.ts:136-139 | an update whose payload leaves `route` and `totalDistance` alone keeps the total equal to the route's length |
| `Sessions.SessionStore.constructor` | server/routes/tracking.ts:10-11 | the store starts empty, with the counter at 1 |
| `Sessions.SessionStore.Create` | server/routes/tracking.ts:79-109 | a missing employee id or start location gives a validation error and leaves store and counter alone. Otherwise one session is appended: the next id, `route = [caller's startLocation]`, `startLocation` re-stamped at `now`, total 0, status "active". Ids stay fresh, the new session is tallied, and a tallied store stays tallied |
| `Sessions.SessionStore.Update` | server/routes/tracking.ts:111-146 | an unknown id gives not-found with no change. Otherwise only the first matching session is replaced, by `Updated`. The counter never moves. Ids stay fresh when the payload carries no `id`. The store stays tallied when the payload carries neither `route` nor `totalDistance` |
| `Sessions.SessionStore.AddLocation` | server/routes/tracking.ts:148-192 | a missing location is reported before an unknown id, and neither error changes the store. Otherwise only the matching session changes, by `Accumulate` of the timestamped sample. Each tallied session stays tallied |
| `Sessions.SessionStore.Appended` | server/routes/tracking.ts:164-185 | the step-by-step timestamp default, `push` and `totalDistance +=` give exactly `Accumulate`, and the route ends with the timestamped sample |
| `Sessions.SessionStore.ReplaceAt` | server/routes/tracking.ts:136-139 | writing one slot changes only that session. It keeps ids fresh when the id is unchanged, and keeps sessions tallied when the new one is |
| `Sessions.SessionStore.List` | server/routes/tracking.ts:23-77 | returns the sessions passing every given filter (inclusive date bounds), most recent first, at most `limit` of them, with `total` equal to the returned count. With no filter the store itself is left sorted; otherwise it is unchanged. Ids stay fresh and the store stays tallied |
| `Sessions.SessionStore.SortStore` | server/routes/tracking.ts:57-60 | sorting the store array in place gives `SortDesc` of it, keeping ids fresh and the store tallied |
| `Sessions.SessionStore.Get` | server/routes/tracking.ts:194-208 | not-found exactly when no session has the id, otherwise the first session with it |
| `Sessions.SessionStore.Delete` | server/routes/tracking.ts:210-227 | an unknown id gives not-found with no change. Otherwise the first matching session is spliced out, the rest keep their order, and with fresh ids no session with that id remains. The store stays tallied |
| `Sessions.SessionStore.RemoveStoreAt` | server/routes/tracking.ts:221 | `splice(i, 1)` on the store keeps ids fresh, removes the id, and keeps the store tallied |
| `Details.DiscussionMissingIffBlank` | server/routes/meetings.ts:117 | `!discussion \|\| !discussion.trim()` holds exactly when the discussion is absent or whitespace-only |
| `Details.LegacyContact` | server/routes/tracking.ts:304-311 | the contact synthesised from the legacy fields carries the two name fields. Email, mobile, designation and department each keep the caller's value when it is truthy and are `""` otherwise |
| `Details.WithContacts` | server/routes/tracking.ts:295-312 | the stored details always have a non-empty contact list. It is the caller's own when present, otherwise the one legacy contact. Nothing else changes |
| `History.Validate` | server/routes/tracking.ts:281-312 | accepted exactly when session id, employee id and details are present, the discussion is not blank, and there are contacts or both legacy name fields. Each refusal carries the message of the first check that fails: missing fields, then a blank discussion, then no contact |
| `History.ForEmployee` | server/routes/tracking.ts:236-240 | the employee filter applies only when an employee id is given, so without one every entry passes |
| `History.PagingFacts` | server/routes/tracking.ts:243-259 | a page holds only the employee's entries, most recent first, and is non-empty exactly up to `totalPages` |
| `History.HistoryStore.constructor` | server/routes/tracking.ts:14-21 | the history starts empty, with the counter at 1 |
| `History.HistoryStore.Add` | server/routes/tracking.ts:269-334 | a refused request changes neither entries nor counter. An accepted one appends exactly one entry: the next `history_` id, the normalised details, timestamp `now`, falsy `leadId` dropped. Ids stay fresh |
| `History.HistoryStore.List` | server/routes/tracking.ts:230-267 | returns the page `[(page-1)*limit, page*limit)` of the employee's entries, most recent first. `total` counts them before paging and `totalPages = ceil(total/limit)`. Page and limit default to 1 and 10. With no employee filter the store itself is left sorted |
| `Meetings.Updated` | server/routes/meetings.ts:111-125 | when the payload's status is "completed" and there is no stored end time, the end time is `now`. Otherwise an end time in the payload wins, and without one the stored one stays. Every other field, the optional `clientName`, `notes`, `leadId`, `leadInfo` and `meetingDetails` included, is the payload's value when present and the stored one otherwise |
| `Meetings.Matches` | server/routes/meetings.ts:19-44 | the meeting filter: the employee, status and inclusive date-bound filters each apply only when given, so with none given every meeting passes |
| `Meetings.RecompleteKeepsEndTime` | server/routes/meetings.ts:111-113 | an end time set by completion is not recomputed by a later completion |
| `Meetings.AcceptedDetailsHaveDiscussion` | server/routes/meetings.ts:116-125 | a payload that passes the check never stores meeting details with a blank discussion over ones that had a discussion |
| `Meetings.MeetingStore.constructor` | server/routes/meetings.ts:9-11 | the store starts empty, with the counter at 1 |
| `Meetings.MeetingStore.Create` | server/routes/meetings.ts:64-98 | a missing employee id or location gives a validation error and no change. Otherwise one meeting is appended: the next `meeting_` id, status "in-progress", `startTime` and `location.timestamp` both `now`, falsy `leadId` dropped |
| `Meetings.MeetingStore.Update` | server/routes/meetings.ts:100-132 | the unknown-id check comes first. A payload with a blank discussion is then refused with no change, even though the end time was already derived. Otherwise only the first matching meeting is replaced, by `Updated` |
| `Meetings.MeetingStore.List` | server/routes/meetings.ts:13-62 | returns exactly the meetings passing every given filter, most recent first, with `total` equal to their count. With no filter the store itself is left sorted |
| `Meetings.MeetingStore.Get` | server/routes/meetings.ts:134-148 | not-found exactly when no meeting has the id, otherwise the first meeting with it |
| `Meetings.MeetingStore.Delete` | server/routes/meetings.ts:150-165 | an unknown id gives not-found with no change. Otherwise the first matching meeting is spliced out, the rest keep their order, and with fresh ids no meeting with that id remains |

### Source behaviours the model reproduces

- Completion is triggered by the payload's `status`, not by the merged status.
- `addLocationToRoute` reports a missing location before an unknown session id.
- `route[0]` is the caller's original start location, possibly without a timestamp. The `startLocation` field is a re-stamped copy.
- The list handlers sort the store array itself when no filter is given, because the "filtered" variable then refers to the store.
- The session list's `total` counts the sessions after `limit` is applied. The history list's `total` counts entries before paging.
- An update payload may set `endTime`, `duration`, `id`, `route` or `totalDistance` directly, and the merge keeps them. The server's derivation only takes over on the completion transition. So the model promises unique ids and a tallied total only for updates that leave those fields alone.

## Left out

- `calculateDistance` (server/routes/tracking.ts:337-355) is the store's `dist` parameter. The Haversine trigonometry is not modelled, so neither are its zero-distance and symmetry properties.
- Floating point: distances and totals are reals. The route length is a left fold, which is the same sequence of additions as the running total, but IEEE rounding is not modelled.
- ISO-8601 strings and `new Date(...)` parsing: timestamps and date filters are integers. The two `new Date()` calls in a create handler are one `now`.
- `History.HistoryStore.List` requires page and limit to be at least 1. `parseInt` of query strings (NaN, 0 or negative values, and `slice` counting from the end) is not modelled.
- Payloads that set a field to `null`, and payload keys outside the record's known fields, are not modelled. A payload field is either present with a value or absent.
- A location object without `lat`/`lng` (which would make the distance NaN) is not modelled. A present location always has coordinates, and the only check is the one the source makes: `!location`.
- Object identity: records are values. The handlers mutate session objects in place and return references to them, but no later request can observe that sharing.
- `server/routes/employees.ts` is not part of this model. It does network I/O with a timeout, random placement, and float-based city labelling. `server/index.ts` (HTTP wiring) is not part of this model either.
- Logging, response shaping, the `catch` paths that answer 500, and concurrency (the server handles one request at a time).
