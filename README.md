# Appointment booking: the logic behind the admin screens

This project models the parts of the appointment-booking application that
compute something. The rest of the application is database queries and
React views.

- **The `Appointment` model** (`appointment.dfy`): the stored attributes of
  an appointment, its five-valued status, and the three getters that compare
  it with the current time: upcoming, past, and cancellable (pending or
  confirmed, and strictly more than 24 hours before the start).
- **The cancel and confirm actions** (`appointments_controller.dfy`). Each
  one overwrites the status without looking at the old status or at the
  24-hour rule. `cancel` also stores the reason, or `""` when none is given.
- **Pagination** (`pagination.dfy`):
  - `buildQueryString` copies the caller's filters into a `URLSearchParams`.
    Values that are `undefined`, `""` or `null` are dropped. It then sets
    `page` and serialises the params as `application/x-www-form-urlencoded`.
  - The `Pagination` component works out the "from–to" range, the previous
    and next links, and the strip of page numbers with ellipses (at most
    seven slots).
  - `URLSearchParams` is a class whose list of pairs `set` updates in place,
    following the `set` and serializer algorithms of the WHATWG URL Standard.
- **The dashboard repository** (`dashboard_repository.dfy`):
  - `formatTime` gives a 12-hour clock label such as "9:05 PM".
  - `getInitials` takes the first letter of each name.
  - The Monday-based week offset.
  - The rows of today's list, with their fallbacks ("Customer", "?", "—",
    pending).
  - Today's confirmed and pending counts.
  - The guard on the completion rate.
  - The weekly grid: a loop that skips appointments without a start time or
    outside days 0..6.
  - `getDashboardData`, which puts all of these together.
- **The calendar repository** (`calendar_repository.dfy`): the month's
  appointments are grouped by date key in one loop. A second loop then puts
  a badge with the day's count on the first item of each day.
- **The admin layout** (`admin_layout.dfy`):
  - Sidebar highlighting: an entry is active on its own path and on every
    path below it.
  - The page title.
  - The user's initials.
  - The defaults shown when the header has no user details.
- **Duration and price labels** (`services_index.dfy`, `explore_services.dfy`):
  - The two `formatDuration` variants.
  - The zero case of `formatPrice`.

`text.dfy` holds the JavaScript string operations these rely on:

- `String(n)`;
- `padStart`;
- `trim`, with ECMAScript's white-space set;
- `toUpperCase`;
- `split` and `join`;
- `slice`;
- `%`, which truncates toward zero.

Most are proved against a reference property: `split` is undone by `join`
and `join` by `split`, a numeral reads back as its number, and `%` is
characterised by its sign, its bound and the divisibility of the dividend
minus the remainder, which leave exactly one candidate. `toUpperCase` is
only defined character by character, on ASCII letters.

Instants are integer milliseconds, as `Date.getTime()` gives them. The
clock reading `now` is a parameter. The results of the date library are
inputs, never computed: the hour, minute and day of the week of a start
time, its day index within the week, its date key, and the month label.
Queries are inputs too: a list stands for the rows a query returns, in the
order it returns them.

Two facts about the code shape the model:

- **No scheduler.** Nothing in the code checks availability, time-off,
  buffers or advance notice before an appointment is stored, so none of
  that is modelled. The transitions in `AppointmentsController` are
  unguarded, and `TransitionsIgnorePriorStatus` states that outright.
- **The cancellation window is strict.** The getter requires
  `hoursUntilStart > 24`, so at exactly 24 hours before the start an
  appointment is not cancellable. `CancellationBoundary` states this
  boundary.

The sidebar and the title match on Inertia's `page.url`, which keeps the
query string, so a paginated list page such as "/appointments?page=2"
highlights no entry and is titled "Dashboard" (`QueryStringUnmatched`).

## Model

Some functions of the model carry no contract of their own. Their rows name
the lemmas about them instead:

- `Appointment.IsUpcoming` and `IsPast`: `NotUpcomingAndPast`, `CanBeCancelled`.
- `FormatTime`: `FormatTimeParts`, `FormatTimeRoundTrip`, `FormatTimeInjective`.
- `Hour12`: `Hour12Range`.
- `CustomerName` and `MapUpcomingToday`: `CustomerFallback`, `UpcomingTodayFallbacks`.
- `CountStatus`: `CountsWithinTotal`.
- `WeeklyItems`: `WeeklyItemsAppend`, `WeeklyItemsSpec`.
- `Strip`: `PageNumbers`, `ShortStrip`, `LongStrip`, `StripIncreasing`, `StripHasCurrent`, `StripEllipses`.
- `Collected`: `CollectedNamed`.
- `Grouped` and `Stamped`: `GroupedStep`, `GroupedKeys`, `GroupedTotal`, `MonthBadges`.
- `PageTitle`: `PageTitleSpec`, `PageTitleExamples`, `QueryStringUnmatched`.
- both `ParseDuration` functions: the `FormatDurationRoundTrip` lemmas.


| member | source | states |
|---|---|---|
| Appointments.Appointment.constructor | app/Models/Appointment.ts:11-23 | a new appointment holds exactly the given attributes |
| Appointments.Appointment.CanBeCancelled | app/Models/Appointment.ts:56-67 | a cancellable appointment is upcoming; a completed, cancelled or no-show appointment is never cancellable |
| Appointments.CancellableEarlier | app/Models/Appointment.ts:57-67 | eligibility is only lost as time passes: cancellable now implies cancellable at every earlier moment |
| Appointments.CancellationBoundary | app/Models/Appointment.ts:60-66 | for a pending or confirmed appointment: cancellable iff now < start − 24h; not cancellable at exactly 24 hours, cancellable one millisecond earlier |
| Appointments.NotUpcomingAndPast | app/Models/Appointment.ts:42-54 | an appointment that does not end before it starts is never both upcoming and past |
| AppointmentsController.ReasonOrEmpty | app/Http/Controllers/AppointmentsController.ts:124 | a given non-empty reason is kept; a missing or empty reason becomes "" |
| AppointmentsController.CancelledAttributes | app/Http/Controllers/AppointmentsController.ts:123-129 | status becomes cancelled, the reason is stored, every other attribute is unchanged |
| AppointmentsController.ConfirmedAttributes | app/Http/Controllers/AppointmentsController.ts:139-142 | status becomes confirmed; every other attribute, the cancellation reason included, is unchanged |
| AppointmentsController.Cancel | app/Http/Controllers/AppointmentsController.ts:123-134 | the appointment's attributes become exactly the cancelled attributes of its old ones |
| AppointmentsController.Confirm | app/Http/Controllers/AppointmentsController.ts:139-147 | the appointment's attributes become exactly the confirmed attributes of its old ones |
| AppointmentsController.TransitionsIdempotent | app/Http/Controllers/AppointmentsController.ts:123-142 | cancelling twice with the same reason equals cancelling once; confirming twice equals confirming once |
| AppointmentsController.TransitionsIgnorePriorStatus | app/Http/Controllers/AppointmentsController.ts:123-142 | the result does not depend on the prior status or reason; confirm revives a cancelled appointment and keeps its old reason |
| Pagination.Without | resources/js/Components/ui/pagination.tsx:32 | removes every pair of the name and keeps the pairs of every other name in order |
| Pagination.ReplaceFirst | resources/js/Components/ui/pagination.tsx:32 | on a list holding the name: exactly one pair of it is left, with the new value; other names unchanged |
| Pagination.SetPair | resources/js/Components/ui/pagination.tsx:32-36 | `set`: afterwards the name has exactly one pair, with the new value, and every other name keeps its pairs in order |
| Pagination.SearchParams.constructor | resources/js/Components/ui/pagination.tsx:28 | new params are empty |
| Pagination.SearchParams.Set | resources/js/Components/ui/pagination.tsx:32-36 | the list becomes the `set` of the old list |
| Pagination.Utf8 | resources/js/Components/ui/pagination.tsx:37 | a character encodes as 1 to 4 bytes, each below 256, and as its own single byte iff it is ASCII |
| Pagination.PairString | resources/js/Components/ui/pagination.tsx:37 | every serialised pair holds "=" |
| Pagination.Serialize | resources/js/Components/ui/pagination.tsx:37-38 | the serialisation is empty iff there are no pairs |
| Pagination.EncodePlain | resources/js/Components/ui/pagination.tsx:37 | ASCII letters, digits and "-" are written as they are |
| Pagination.CollectedNamed | resources/js/Components/ui/pagination.tsx:29-35 | a filter name appears iff some entry gives it a value other than undefined, "" or null, and then exactly once with the last such value |
| Pagination.QueryPairs | resources/js/Components/ui/pagination.tsx:28-36 | the params hold exactly one `page` pair, with the requested page, and are never empty |
| Pagination.BuildQueryString | resources/js/Components/ui/pagination.tsx:23-39 | the URL is the base path, "?", and the serialised params; the fallback branch is never taken |
| Pagination.QueryParamsOfLink | resources/js/Components/ui/pagination.tsx:29-36 | in a link, `page` is the requested page whatever the filters held, and any other name appears iff a kept filter carries it, with its last value |
| Pagination.PagePairString | resources/js/Components/ui/pagination.tsx:36-38 | the page pair is written "page=" followed by the page number |
| Pagination.RangeBounds | resources/js/Components/ui/pagination.tsx:56-57 | "to" never exceeds the total; from ≤ to iff the page size is positive and the page starts inside the results |
| Pagination.Pages | resources/js/Components/ui/pagination.tsx:71 | the run lo..hi, one slot per page in order |
| Pagination.PageNumbers | resources/js/Components/ui/pagination.tsx:69-82 | the loop builds exactly the reference strip |
| Pagination.ShortStrip | resources/js/Components/ui/pagination.tsx:70-71 | with at most 7 pages the strip is 1..lastPage |
| Pagination.LongStrip | resources/js/Components/ui/pagination.tsx:72-82 | with more than 7 pages the strip has 3..7 slots, starts with 1, ends with the last page, and shows exactly the first page, the last page and the in-range neighbours of the current page |
| Pagination.StripIncreasing | resources/js/Components/ui/pagination.tsx:69-82 | the page numbers shown are strictly increasing |
| Pagination.StripHasCurrent | resources/js/Components/ui/pagination.tsx:75-81 | a current page in range is always shown |
| Pagination.StripEllipses | resources/js/Components/ui/pagination.tsx:74-80 | the leading ellipsis appears iff current > 3; the trailing one iff current < last − 2 |
| Pagination.Render | resources/js/Components/ui/pagination.tsx:47-82 | nothing is shown iff total ≤ 0 or the last page is at most 1; otherwise from/to as computed, previous link iff current > 1 and next link iff current < last, each pointing to the neighbouring page with the filters kept, and the reference strip |
| DashboardRepository.MinuteText | app/Repositories/DashboardRepository.ts:12 | always two digits that read back as the minute |
| DashboardRepository.Hour12Range | app/Repositories/DashboardRepository.ts:10-11 | the 12-hour hour lies in 1..12 and agrees with the hour modulo 12; it is 12 exactly at midnight and noon |
| DashboardRepository.FormatTimeParts | app/Repositories/DashboardRepository.ts:6-13 | the label holds the 12-hour hour, two minute digits and AM before noon or PM from noon on |
| DashboardRepository.FormatTimeRoundTrip | app/Repositories/DashboardRepository.ts:6-13 | the label decodes back to the hour and minute it was made from |
| DashboardRepository.FormatTimeInjective | app/Repositories/DashboardRepository.ts:6-13 | different times of day get different labels |
| DashboardRepository.GetInitials | app/Repositories/DashboardRepository.ts:15-19 | at most two characters, never empty |
| DashboardRepository.GetInitialsSpec | app/Repositories/DashboardRepository.ts:15-19 | "?" when both names are blank or missing; otherwise the upper-cased first non-blank character of each name |
| DashboardRepository.WeekStartOffset | app/Repositories/DashboardRepository.ts:176-180 | the offset lies in 0..6; going back by it lands on a Monday, and six days later is a Sunday |
| DashboardRepository.CustomerFallback | app/Repositories/DashboardRepository.ts:197-208 | blank names give "Customer" and "?"; otherwise the trimmed "first last", which is non-empty, and the initials of the names |
| DashboardRepository.UpcomingTodayFallbacks | app/Repositories/DashboardRepository.ts:197-212 | a row keeps the id; service "—" and status pending when missing; time "—" iff there is no start time, else the 12-hour label |
| DashboardRepository.CountsWithinTotal | app/Repositories/DashboardRepository.ts:92-98 | confirmed plus pending never exceed today's total |
| DashboardRepository.CompletionRate | app/Repositories/DashboardRepository.ts:130-131 | 0 when there were no appointments; in 0..100 when completed ≤ total; 100 when all were completed |
| DashboardRepository.RoundQuotientPercent | app/Repositories/DashboardRepository.ts:131 | rounding a ratio in [0, 100] stays in 0..100 |
| DashboardRepository.WeeklyItem | app/Repositories/DashboardRepository.ts:225-230 | a grid item keeps its appointment's day, which lies in 0..6, and its "H:MM" time reads back as the start hour and minute |
| DashboardRepository.MapWeeklyAppointments | app/Repositories/DashboardRepository.ts:215-234 | the loop returns exactly the reference list of grid items |
| DashboardRepository.WeeklyItemsAppend | app/Repositories/DashboardRepository.ts:219-233 | the items of two runs are those of the first followed by those of the second, so input order is kept |
| DashboardRepository.WeeklyItemsSpec | app/Repositories/DashboardRepository.ts:215-234 | no more items than appointments; every item has day 0..6 and comes from an appointment on the grid; every appointment on the grid gives its item |
| DashboardRepository.GetDashboardData | app/Repositories/DashboardRepository.ts:68-157 | the counts are those of the lists; confirmed + pending ≤ today's total; the completion rate is guarded; today's rows map the list one to one; the weekly list is the reference list |
| CalendarRepository.ItemsOn | app/Repositories/CalendarRepository.ts:51-62 | a day has no more items than there are appointments |
| CalendarRepository.GroupedStep | app/Repositories/CalendarRepository.ts:51-62 | one more appointment leaves the dictionary unchanged when it has no start time; otherwise its item goes at the end of its day's list, which is created if missing |
| CalendarRepository.GroupByDate | app/Repositories/CalendarRepository.ts:49-62 | the first loop builds exactly the reference grouping |
| CalendarRepository.StampBadges | app/Repositories/CalendarRepository.ts:64-70 | the second loop, whatever the order of the keys, gives exactly the reference badge stamping |
| CalendarRepository.GetAppointmentsForMonth | app/Repositories/CalendarRepository.ts:31-80 | year, month and label are passed through; the dictionary is the stamped grouping of the rows |
| CalendarRepository.GroupedKeys | app/Repositories/CalendarRepository.ts:51-62 | a date is a key iff some appointment starts on it; no day's list is empty |
| CalendarRepository.ItemsOnAppend | app/Repositories/CalendarRepository.ts:51-62 | a day's list keeps input order |
| CalendarRepository.GroupedTotal | app/Repositories/CalendarRepository.ts:51-62 | the lists together hold one item per appointment with a start time: none lost, none invented |
| CalendarRepository.MonthBadges | app/Repositories/CalendarRepository.ts:49-70 | after stamping, each day keeps its length and service names; the first item's badge is the day's count; no other item has a badge |
| CalendarRepository.ItemsUnbadged | app/Repositories/CalendarRepository.ts:61 | grouped items carry no badge |
| AdminLayout.FindActive | resources/js/Components/Admin/AdminLayout.tsx:62-65 | finds the first active entry, or none iff no entry is active |
| AdminLayout.ActiveNested | resources/js/Components/Admin/AdminLayout.tsx:113-115 | two entries active for one path are equal or one lies below the other |
| AdminLayout.NavHrefs | resources/js/Components/Admin/AdminLayout.tsx:34-42 | the sidebar paths are distinct single segments |
| AdminLayout.AtMostOneActive | resources/js/Components/Admin/AdminLayout.tsx:113-115 | no two sidebar entries are active for the same path |
| AdminLayout.PageTitleSpec | resources/js/Components/Admin/AdminLayout.tsx:61-67 | the title is the name of the active entry, and "Dashboard" when none is active |
| AdminLayout.PageTitleExamples | resources/js/Components/Admin/AdminLayout.tsx:61-67 | "/appointments/7/edit" gives "Appointments"; "/appointmentsX" activates nothing and gives "Dashboard" |
| AdminLayout.QueryStringUnmatched | resources/js/Components/Admin/AdminLayout.tsx:47-67 | matching is on the whole page URL, query string included: "/appointments?page=2" highlights nothing and gives "Dashboard" |
| AdminLayout.UserInitials | resources/js/Components/Admin/AdminLayout.tsx:53-58 | at most two characters, with no lower-case ASCII letter |
| AdminLayout.UserInitialsOfWords | resources/js/Components/Admin/AdminLayout.tsx:53-58 | for words without spaces joined by single spaces: the upper-cased first characters of the words, in order, first two kept |
| AdminLayout.UserInitialsTrailingSpace | resources/js/Components/Admin/AdminLayout.tsx:53-55 | a trailing space, which makes an empty last word, changes nothing |
| AdminLayout.UserInitialsLeadingSpace | resources/js/Components/Admin/AdminLayout.tsx:53-55 | a leading space, which makes an empty first word, changes nothing |
| AdminLayout.UserInitialsOneWord | resources/js/Components/Admin/AdminLayout.tsx:51-58 | a one-word name gives its upper-cased first character; "User" gives "U" |
| AdminLayout.OrDefault | resources/js/Components/Admin/AdminLayout.tsx:50-52 | a given non-empty value is returned as it is; otherwise the result is the fallback; the result is empty only when the fallback is empty and no non-empty value was given, so the header's non-empty defaults never show an empty field |
| AdminLayout.LayoutHeader | resources/js/Components/Admin/AdminLayout.tsx:47-67 | a given non-empty business name, user name and e-mail are the ones shown; none of the three is ever empty; the initials are those of the shown name; the title is the page title |
| AdminLayout.HeaderDefaults | resources/js/Components/Admin/AdminLayout.tsx:48-58 | without details: "My Business", "User", "admin@example.com", initials "U" |
| ServicesIndex.FormatDuration | resources/js/Pages/Services/Index.tsx:54-61 | the label has an hour part iff the duration is at least an hour |
| ServicesIndex.DurationParts | resources/js/Pages/Services/Index.tsx:55-57 | for durations ≥ 0: minutes in 0..59, hours·60 + minutes is the duration, hours > 0 iff duration ≥ 60 |
| ServicesIndex.FormatDurationShape | resources/js/Pages/Services/Index.tsx:54-61 | "<m>m" under an hour; "<h>h " with a trailing space on the hour; "<h>h <m>m" otherwise |
| ServicesIndex.FormatDurationRoundTrip | resources/js/Pages/Services/Index.tsx:54-61 | every label of a duration ≥ 0 reads back as that duration |
| ServicesIndex.FormatDurationInjective | resources/js/Pages/Services/Index.tsx:54-61 | different durations ≥ 0 get different labels |
| ServicesIndex.NegativeDurations | resources/js/Pages/Services/Index.tsx:55-60 | a negative duration shows only its truncated remainder, so −5 and −65 share "-5m" |
| ServicesIndex.FormatDurationNumber | resources/js/Pages/Services/Index.tsx:54-61 | on an integer the label has an hour part iff the duration is ≥ 60; on NaN the label is one no integer duration produces |
| ServicesIndex.NaNNotALabel | resources/js/Pages/Services/Index.tsx:54-61 | no integer duration is labelled "NaNm" |
| ServicesIndex.ListedDurationAsWritten | resources/js/Pages/Services/Index.tsx:162 | the cell as written shows "NaNm" on every row, a text no duration produces |
| ServicesIndex.ListedDuration | resources/js/Pages/Services/Index.tsx:162 | the intended cell: the label of the row's `duration_minutes`, which reads back as that duration when it is ≥ 0 |
| ExploreServices.FormatDuration | resources/js/Pages/Explore/Services.tsx:33-38 | the label has an hour part iff the duration is at least an hour, for every integer |
| ExploreServices.FormatDurationShape | resources/js/Pages/Explore/Services.tsx:35-37 | from an hour on: "<h>h" with no trailing text on the hour, else "<h>h <m>m" with m in 1..59; hours·60 + minutes is the duration |
| ExploreServices.FormatDurationRoundTrip | resources/js/Pages/Explore/Services.tsx:33-38 | every label of a duration ≥ 0 reads back as that duration |
| ExploreServices.FormatDurationInjective | resources/js/Pages/Explore/Services.tsx:33-38 | different durations ≥ 0 get different labels |
| ExploreServices.LabelsDiffer | resources/js/Pages/Explore/Services.tsx:33-38 | the two pages disagree: "45 min" against "45m", "2h" against "2h "; they agree on "1h 30m" |
| ExploreServices.FormatPrice | resources/js/Pages/Explore/Services.tsx:23-31 | the text is "Free" or the formatter's text, and it is "Free" iff the price is zero or the formatter itself wrote "Free" |
| Text.SplitJoin | resources/js/Components/Admin/AdminLayout.tsx:53-56 | `join` undoes `split`, and no part holds the separator |
| Text.JoinSplit | resources/js/Components/Admin/AdminLayout.tsx:53-56 | `split` undoes `join` when no part holds the separator |
| Text.TrimmedStart | app/Repositories/DashboardRepository.ts:16-17 | a trimmed name is empty iff the name is all white space; its first character is the first non-blank one |
| Text.ParseNatToString | app/Repositories/DashboardRepository.ts:12 | a decimal numeral reads back as its number |
| Text.JsRem | resources/js/Pages/Services/Index.tsx:56 | `%` has the sign of the dividend (or is 0), lies strictly between −b and b, and the divisor divides the dividend minus the remainder |
| Text.JsRemUnique | resources/js/Pages/Services/Index.tsx:56 | those three facts determine the remainder: it is Dafny's `%` on a dividend ≥ 0 and the negated remainder of the negated dividend otherwise |

## Findings

| source | as written | input that shows it | evidently intended | confidence | as-written member | corrected member |
|---|---|---|---|---|---|---|
| resources/js/Pages/Services/Index.tsx:162 | the cell shows `formatDuration(service.duration)`, but the rows the controller passes (app/Http/Controllers/ServicesController.ts:22-26) are service records whose duration column is `duration_minutes` (app/Models/Service.ts:14); the model defines no `duration` accessor, so the value is `undefined` | any service, e.g. one with `duration_minutes` 90: the cell reads "NaNm" instead of "1h 30m" | `formatDuration(service.duration_minutes)` | not executed; high, assuming no serialiser renames the column | ServicesIndex.ListedDurationAsWritten | ServicesIndex.ListedDuration |

## Left out

- Database access is not modelled: the queries, their `where` filters and their ordering. The rows a query returns are inputs. Business scoping, soft deletion and the model relationships are left out too.
- HTTP is not modelled: requests, redirects, flash messages and Inertia page rendering.
- The date library is not modelled. Carbon and `Date` are used for parsing, `getHour`, `getMinute`, `getDayOfWeek`, `diffInDays`, `toDateString`, month bounds and `format("MMMM yyyy")`. Their results are inputs, so the claim that the offset lands on a Monday is stated about day-of-week numbers.
- Appointments.Appointment.CanBeCancelled: `hoursUntilStart` is a floating-point quotient, modelled exactly as `start − now > 86 400 000` ms. The two agree for every difference below 2^53 ms.
- DashboardRepository.CompletionRate: `Math.round` of a floating-point percentage is modelled as exact round-half-up on rationals. Floating-point error at exact halves is not modelled.
- ExploreServices.FormatPrice: the `Intl.NumberFormat` currency text is a parameter. Only the zero case is computed.
- DashboardRepository.GetInitials: the bound of two characters rests on the ASCII-only case mapping. The program upper-cases with full Unicode mapping, so a name starting with a letter such as "ß" becomes "SS", and `getInitials` can return up to four characters.
- Text.ToUpper: upper-cases ASCII letters only. Full Unicode case mapping (for example "ß" to "SS") is not modelled.
- Strings are sequences of code points, not UTF-16 code units. So `n[0]` and `charAt(0)` on a character outside the Basic Multilingual Plane, and lone surrogates in URL encoding, are not modelled.
- Pagination.Render: only integer page numbers, page sizes and totals are modelled. `Number(per_page)` coercion and non-integer values are left out.
- Pagination.CollectedNamed: `Object.entries` order is taken to be the order of the given sequence. JavaScript lists integer-like keys first, and that ordering is not modelled.
- The markup of the pagination component is not modelled: which button is highlighted, disabled buttons, and the link of every page button. Each page button's link is `BuildQueryString` applied to that page.
- ServicesIndex.FormatDurationRoundTrip: proved only for durations ≥ 0. The label is meant for a service's `duration_minutes`, which the service request validates as an integer ≥ 1 (app/Http/Requests/ServiceRequest.ts:18-20). The list page as written passes a field its rows do not have (see Findings), and `ListedDuration` models the intended cell. For negative input, ServicesIndex.NegativeDurations states what happens.
- ExploreServices.FormatDurationRoundTrip: proved only for durations ≥ 0. The explore page formats `duration_minutes` (app/Http/Controllers/ExploreController.ts:30), which the service request validates as an integer ≥ 1.
- CalendarRepository.StampBadges: `Object.keys` visits keys in insertion order. The model visits them in any order and proves the result does not depend on it.
- The sidebar's open/closed state and the rest of the layout markup are not modelled.
- The theme toggle and the icons are not modelled.
- DashboardRepository.GetDashboardData: the fixed "+0%" percentage strings are set, but no contract states them. They are constants with no logic behind them.
