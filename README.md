# GitHub webhook event normaliser, modelled in Dafny

This project models the decision logic of a small webhook receiver (`app.py`). The receiver takes a GitHub
webhook, meaning the `X-GitHub-Event` header and a JSON body. It turns the webhook into one canonical event
record (`push`, `pull_request` or `merge`), or it answers `pong`, or it ignores the event. Records are
appended to an event store. The model covers five parts:

- the branch reference resolver `ref_to_branch`;
- timestamp parsing `parse_github_timestamp`;
- display formatting `format_timestamp`;
- the two handlers `handle_push` and `handle_pull_request`;
- the dispatch and insert decision of the `/webhook` endpoint.

Modules, leaves first:

- `Optional` (`optional.dfy`): `Option`, used for JSON fields that may be present or absent.
- `Text` (`text.dfy`): decimal digits and padding. It also holds Python's `str.startswith` and `str.replace`.
  `str.replace` replaces every non-overlapping occurrence, scanning from the left.
- `Branch` (`branch.dfy`): `ref_to_branch`.
- `Timestamps` (`timestamps.dfy`): the instant type and `parse_github_timestamp`.
- `Display` (`display.dfy`): `format_timestamp`.
- `Events` (`events.dfy`): the payload as optional fields, the record, and the two handlers.
- `Webhook` (`webhook.dfy`): the endpoint's reply, plus a class `EventStore`. Its method `Receive` appends to
  a `seq<Record>`.

The clock is a parameter. The push handler reads the wall clock twice: once for `timestamp` (app.py:89) and
once for `created_at` (app.py:90). The pull-request handler always reads it once for `created_at`
(app.py:115, 133). It reads it a second time only when the event timestamp falls back to the clock: the
`utcnow()` at app.py:107 for an empty `merged_at`, or the parser's `utcnow()` (app.py:48, 54) reached from
app.py:107 or 125. When `merged_at` or `created_at` parses, that reading does not happen. The handlers take
two instants, `first` and `second`. `first` stands for the fallback reading when there is one, and `second`
for `created_at`.
An `Instant` is a `DateTime` whose fields form a valid calendar date and time, which every Python `datetime`
does.

Where the code differs from its docstring (app.py:58) or from what its names suggest, the model follows the code:

- Both `ref_to_branch` (app.py:30) and the push handler (app.py:81) use `str.replace`. This removes EVERY
  `refs/heads/`, not only a leading prefix: `refs/heads/refs/heads/x` gives `x`
  (`Branch.RemovesEveryOccurrence`).
- The day is rendered with `%d` (app.py:67), so it is zero-padded. The first of the month reads `01st`,
  not `1st` as the docstring shows (`Display.FirstOfMonthReads01st`).
- The push handler's author and repository defaults apply only when the field is absent (`.get(key, default)`).
  A present empty `pusher.name` is stored as `""`. So a push record's author can be empty. Only
  pull-request and merge authors are guaranteed non-empty (`Webhook.WellFormed`).

## Model

| member | source | states |
|---|---|---|
| `Text.Padded` | app.py:67 | a number below 10^w is written in exactly w decimal digits that read back as that number |
| `Text.PaddedOfDigits` | app.py:67 | every w-digit string is the w-digit padding of the number it denotes (the converse of `Padded`) |
| `Text.Decimal` | app.py:71 | unpadded decimal (`f"{hour}"`): digits that read back as the number, no leading zero, one digit below 10, two digits below 100 |
| `Text.ReplaceAll` | app.py:81 | `str.replace`: removing a pattern never lengthens the string; a same-length replacement keeps its length |
| `Text.ReplaceAllAbsent` | app.py:81 | a string that does not contain the pattern is returned unchanged |
| `Text.ReplaceAllLeading` | app.py:30 | a leading occurrence is replaced and scanning resumes right after it |
| `Text.ReplaceCharAppend` | app.py:51 | replacing a one-character pattern (`Z`) distributes over concatenation |
| `Text.CharAbsent` | app.py:51 | a character absent from a string is not a substring of it |
| `Branch.RefToBranch` | app.py:26-30 | an absent or empty ref gives "unknown"; a non-empty ref outside `refs/heads/` is returned unchanged; a `refs/heads/` ref loses at least the prefix |
| `Branch.StripsPrefix` | app.py:30 | `refs/heads/` + x gives x when x does not itself contain `refs/heads/` |
| `Branch.BarePrefixIsEmpty` | app.py:30 | `refs/heads/` alone gives the empty name, not "unknown" |
| `Branch.RemovesEveryOccurrence` | app.py:30 | every occurrence is removed: `refs/heads/refs/heads/x` gives `x` |
| `Timestamps.DaysInMonth` | app.py:51 | the Gregorian month length: 29 exactly for February of a leap year, 28 for other Februaries, 30 for April, June, September and November |
| `Timestamps.Stem` | app.py:50 | `YYYY-MM-DDTHH:MM:SS` is 19 characters long and contains no `Z` |
| `Timestamps.FieldsOf` | app.py:51 | the fields a well-shaped string spells out fit their widths |
| `Timestamps.IsoStringShaped` | app.py:51 | rendering a date-time gives a well-shaped string that spells out that date-time |
| `Timestamps.ShapedIsIsoString` | app.py:51 | a well-shaped string is the rendering of the fields it spells out |
| `Timestamps.ParseIso` | app.py:51 | a successful parse returns the one instant whose rendering is the input; a failure means the input is mis-shaped or not a valid calendar date and time |
| `Timestamps.ParseIsoRoundTrip` | app.py:51 | parsing a rendering gives back the date-time when it is valid, and fails otherwise |
| `Timestamps.ParseGitHubTimestamp` | app.py:45-54 | an absent or empty string gives `now`; any other result is the instant that the string, with `Z` rewritten to `+00:00`, spells out |
| `Timestamps.RewriteZone` | app.py:51 | rewriting `Z` turns GitHub's `...Z` form into the `...+00:00` form |
| `Timestamps.ParseGitHubRoundTrip` | app.py:47-54 | a `YYYY-MM-DDTHH:MM:SSZ` timestamp yields exactly its UTC fields when they are a valid date and time, and `now` otherwise |
| `Timestamps.ParseIsoFormAccepted` | app.py:51 | the `+00:00` form parses too, since the rewrite leaves it unchanged |
| `Timestamps.UnparseableFallsBack` | app.py:53-54 | text that is not a timestamp gives `now` |
| `Timestamps.LeapDay` | app.py:51-54 | 29 February parses exactly in leap years and falls back to `now` otherwise |
| `Display.MonthName` | app.py:67 | `%B`: an English month name of 3 to 9 letters |
| `Display.Suffix` | app.py:61-66 | the two "th" ranges and the `["st","nd","rd"][day % 10 - 1]` lookup agree with the ordinal rule: 11 to 20 take "th", otherwise the last digit picks "st", "nd", "rd" or "th" |
| `Display.SuffixIndexInRange` | app.py:66 | outside the "th" ranges every day ends in 1, 2 or 3, so the index is never -1 |
| `Display.SuffixTable` | app.py:62-66 | "st" exactly on 1, 21, 31; "nd" on 2, 22; "rd" on 3, 23; "th" on every other day, including 11, 12, 13 |
| `Display.DisplayHour` | app.py:68 | `hour % 12 or 12` is in 1..12 and agrees with the hour modulo 12 |
| `Display.Meridiem` | app.py:70 | "AM" exactly when the hour is below 12, else "PM" |
| `Display.TwelveHourClockInverse` | app.py:68-70 | the 12-hour hour plus the meridiem recover the 24-hour hour; 0 and 12 show as 12, 13 as 1 |
| `Display.DayPart` | app.py:67 | `%d<suffix> ` is five characters: the two-digit day, its suffix, a space |
| `Display.MiddlePart` | app.py:67-71 | `%B %Y - <h>` is the month name, a space, the four-digit year, " - " and the unpadded 12-hour hour (0 shows as 12) |
| `Display.TailPart` | app.py:71-72 | `:<mm> <AM or PM> UTC` is ten characters: a colon, the two-digit minute, a space, the meridiem, " UTC" |
| `Display.FormatTimestamp` | app.py:57-72 | the rendering is, field by field: the zero-padded day, its suffix, a space, the month name, a space, the four-digit year, " - ", the unpadded 12-hour hour (0 shows as 12), a colon, the two-digit minute, a space, AM exactly before noon and PM otherwise, " UTC" |
| `Display.DayZeroPadded` | app.py:67 | the rendering starts with '0' exactly on days 1 to 9 |
| `Display.FirstOfMonthReads01st` | app.py:67 | the first of a month reads "01st" |
| `Display.MonthNamesDistinct` | app.py:67 | different months have different `%B` names |
| `Display.WordEndsAtSpace` | app.py:67 | a space-free word followed by a space ends at the first space after its start |
| `Display.FormatDeterminesParts` | app.py:67-72 | equal renderings have equal day parts, middle parts and tails |
| `Display.SplitEqual` | app.py:72 | `f"{date_str} - {time_str} UTC"` pieced from parts of fixed outer length splits back uniquely |
| `Display.DayPartDeterminesDay` | app.py:67 | equal `%d<suffix> ` parts share the day |
| `Display.TailPartDeterminesMinute` | app.py:69-72 | equal `:<mm> <AM or PM> UTC` tails share the minute and AM or PM |
| `Display.MiddlePartDeterminesMonth` | app.py:67 | equal middle parts name the same month |
| `Display.MiddlePartDeterminesYearAndShownHour` | app.py:67-71 | equal middle parts of one month share the year and the shown 12-hour hour |
| `Display.DecimalInjective` | app.py:71 | `{hour}` without padding spells different numbers differently |
| `Display.PaddedInjective` | app.py:67-71 | `%d`, `%Y` and `{minute:02d}` spell different numbers differently |
| `Display.SameShownHour` | app.py:68-70 | the same 12-hour hour and the same meridiem mean the same 24-hour hour |
| `Display.FormatDeterminesAllButSeconds` | app.py:57-72 | two instants with the same rendering share year, month, day, hour and minute; only the seconds are lost |
| `Optional.Option.GetOr` | app.py:78 | `.get(key, default)`: the value when present, the default when absent |
| `Events.FirstFilled` | app.py:105 | `a or b or fallback`: the first non-empty candidate, else the fallback; never empty when the fallback is not |
| `Events.HandlePush` | app.py:77-91 | always a push record with no from-branch; author and repository default to "unknown-user" and "unknown-repo" when absent; an absent ref gives "" (not "unknown"); the branch is the ref with every `refs/heads/` removed wherever it occurs; so a ref without `refs/heads/` is kept, and a `refs/heads/` ref resolves as `ref_to_branch` does; timestamp is the first clock reading, created_at the second |
| `Events.HandlePullRequest` | app.py:94-135 | a record exactly for closed-and-merged or opened/synchronize; merge exactly for closed-and-merged; the author is the first non-empty of merger (or opener) login and sender login, else "Unknown", so never empty; both branches via `ref_to_branch`; repository is `full_name` or ""; the merge timestamp is the parsed `merged_at`, the submission timestamp the parsed `created_at` (each falling back to the first clock reading); created_at is the second reading |
| `Events.Normalize` | app.py:177-181 | push always gives a push record; pull_request gives one exactly when it is classified; any other event type gives none |
| `Events.PushBranchIsRemainder` | app.py:81 | a push of `refs/heads/` + x names branch x when x has no further `refs/heads/` |
| `Events.PushBranchDiffersFromResolver` | app.py:80-81 | push and `ref_to_branch` differ on a ref with `refs/heads/` after its start: `x/refs/heads/y` gives `x/y` on push and stays whole in the resolver |
| `Events.PushBranchAgreesWithResolver` | app.py:80-81 | push's raw replace and `ref_to_branch` agree on every non-empty ref that is under `refs/heads/` or free of it |
| `Events.MergerWins` | app.py:105 | a non-empty `merged_by.login` is the merge author |
| `Events.MergeAuthorFallback` | app.py:105 | without a merger login the sender login is used, and "Unknown" without either |
| `Events.ClosedUnmergedIgnored` | app.py:97-99 | closed with `merged` false or missing gives no record |
| `Events.EmptyPushDefaults` | app.py:78-91 | an empty body pushed gives author "unknown-user", repository "unknown-repo", branch "" |
| `Events.EmptyPullRequestIgnored` | app.py:96-99 | an empty body as pull_request gives no record |
| `Events.PushScenario` | app.py:77-91 | alice pushing `refs/heads/main` to repo1 gives the push record for branch main |
| `Events.OpenedScenario` | app.py:117-134 | bob opening feature into main gives a pull_request record by bob from feature to main |
| `Events.MergedScenario` | app.py:99-116 | carol merging gives a merge record by carol, timestamped with the clock when `merged_at` is absent |
| `Webhook.Respond` | app.py:177-191 | pong exactly for ping; push is always stored; pull_request is stored exactly when classified; every other type is ignored; stored exactly when the normaliser gives a record |
| `Webhook.NormalizedWellFormed` | app.py:83-134 | every normalised record has a from-branch exactly when it is not a push, and a non-empty author when it is not a push |
| `Webhook.ClosedUnmergedRepliesIgnored` | app.py:185-191 | a closed, unmerged pull request is answered "ignored" |
| `Webhook.EventStore.constructor` | app.py:22 | the store starts empty |
| `Webhook.EventStore.Receive` | app.py:171-191 | replies as `Respond`; the store grows by exactly one record exactly when the reply is "stored", that record is the handler's output, and otherwise it is unchanged; every stored record stays well formed |

## Left out

- The MongoDB client, `insert_one` as a network call, and the `find().sort().limit(100)` query (app.py:20-23, 147). The store is modelled only as an append-only `seq<Record>`.
- `get_events` reshaping (app.py:144-168): `_id` stringification, `isoformat()+"Z"` and the `str(ts)` fallback. This is mechanical serialisation of stored documents.
- Flask routing, header and body access, `jsonify`, `render_template` and the `/` page (app.py:138-141, 170-173). The malformed-body-as-`{}` rule is modelled by `Events.EmptyPayload`.
- The `/debug-insert` route (app.py:32-41). It is a test back door with no logic.
- Logging (`print`), environment loading and `app.run` (app.py:11-18, 23, 175, 187, 190, 193-194).
- Crash paths on wrongly typed payload values, such as a JSON `null` `repository` in a push (AttributeError at app.py:78). Fields are modelled only as present or absent.
- JSON `null` is modelled as an absent field. This matches the source only at its `or {}` and `or` sites (app.py:96, 105, 114, 123, 132).
- Events.HandlePush: a JSON `null` `repository.name` or `pusher.name` is stored as `null` by `.get(key, default)` (app.py:78-79). The model stores the default instead. A `null` `ref` raises AttributeError at app.py:81. The model gives "" instead.
- Events.HandlePullRequest: a JSON `null` `repository.full_name` is stored as `null` (app.py:114, 132). The model stores "". A `null` `base` or `head` raises AttributeError at app.py:101-102 and 119-120. The model resolves it as an absent ref.
- Microseconds and the aware/naive `datetime` distinction are not modelled. A parsed timestamp carries a UTC offset; `utcnow()` does not.
- The ordering of `created_at` across insertions. It comes from the wall clock, and the model takes the clock readings as parameters without constraining their order.
- The `isinstance(dt, datetime)` guard of `format_timestamp` (app.py:59-60). The model's input is always an instant.
- Timestamps.ParseIso: accepts only the layout `YYYY-MM-DDTHH:MM:SS+00:00`, which is what GitHub's `...Z` becomes after the rewrite. Other strings that `datetime.fromisoformat` accepts are treated as unparseable and fall back to `now`: dates alone, fractional seconds, other offsets, other separators.
- Display.FormatTimestamp: always writes the year in four digits. For years below 1000, `%Y` is platform-dependent.
- Text.ReplaceAll: models `str.replace` only for a non-empty pattern, which is all the source uses.
