# dailybites meal planner: a Dafny model of its planning and expense core

dailybites is a Next.js meal planner. A user plans breakfast, lunch and dinner per
calendar day. The plan is stored as one menu document per (user, date). A user may
also keep one recurring template, which says what to eat on days without a stored
plan: one list for every day ("daily"), or one item per weekday ("weekly"). Spending
is the sum of the planned items' prices. The profile page compares it with a monthly
budget.

This project models the deterministic logic under the UI and database plumbing:

- **Calendar** (`calendar_dates.dfy`, `calendar_view.dfy`):
  - the `yyyy-MM-dd` key and the token-replacing `formatDate`;
  - `isSameDay`;
  - the month grid and `hasMenu`;
  - quick navigation;
  - `getMenuForDay`, which fills each empty slot of a day from the recurring template and writes the result back into the day's entry of the `menus` map, in place.
- **Expense report route** (`expenses.dfy`): selects the user's menus in an inclusive string range of dates, sorts them by date, and totals each day with a defensive price parse.
- **Menu route** (`menus.dfy`): a class over the collection. GET lists the user's menus as a date-keyed map. POST upserts by (user, date).
- **Recurring-meal route** (`recurring.dfy`): a class over the collection. POST normalises prices and upserts one template per user. GET returns found, 404 or 401.
- **Create page** (`create.dfy`): the submit loop expands the form into one menu request per day. The form's state updates and the price input are modelled too.
- **Profile page** (`profile.dfy`): the expense total, the budget analysis and the per-meal subtotal.
- **Client** (`client.dfy`): `createMenu`'s client-side total and the expense records it posts. As written its follow-up POST goes to a route with no `POST` handler, so it always rejects (see Findings).
- **Shared foundations:**
  - `dates.dfy`: Gregorian dates with a 0-based month, as `getMonth` gives them.
  - `text.dfy`: decimal rendering, padding, first-occurrence replace and string order.
  - `jsnumber.dfy`: a `parseFloat` on the decimal forms and `Math.round`.
  - `schema.dfy`: the shared records.
  - `wrappers.dfy`: `Option`.

Conventions:

- **Stateful code is imperative Dafny.** Each route is a class whose `docs` field is the collection, in natural order. `findOne` is the first match. The calendar is a class holding its `menus`, template, month and selected day. Loops (the GET fold, the price normalisation, the grid, the resolution, the submit loop) are methods whose results are tied to specification functions.
- **Environment as parameters.** The authenticated user is an `Option<UserId>` (None means no token). The clock is a `Timestamp` parameter. A call that may fail is a parameter saying whether it failed.
- **Prices** are `Num(real) | Text(string)`. Stored documents are schemaless, so a price may arrive as text.

Behaviour of the code that the model keeps, which a reader might not expect:

- **Daily fallback in the calendar.** The fallback is `{name: items[0]}`: the whole template item wrapped as the name, with no price. It is not the template item itself.
- **Weekly fallback in the calendar.** It indexes the template list by position `(getDay() + 6) % 7`, not by day name. An index past the list gives `{name: undefined}`.
- **Reversed date range.** A reversed range in the expense report is no error. It yields an empty report.
- **Year in the calendar key.** The calendar's key does not pad the year.
- **Store representation.** The stores are sequences rather than maps. GET's "the later duplicate wins" and POST's "uniqueness is preserved" can then both be stated.

## Model

| member | source | states |
|---|---|---|
| Dates.DaysInMonth | components/calendar.tsx:160-162 | the last day of a month is 28..31: 31 exactly for the seven long months, 30 for the four short ones, and 29 in February iff the year is a leap year |
| Dates.NextDay | components/calendar.tsx:30-34 | the next day is a valid date strictly after the given one, and no valid date lies strictly between the two: it is the earliest later date, across month and year ends |
| Dates.AddDays | components/calendar.tsx:30-34 | `addDays(d, n)` for n >= 0: n steps of the next day, always a valid date (its order and weekday are stated by the lemmas below) |
| Dates.AddDaysSucc | components/calendar.tsx:30-34 | adding n + 1 days is taking the day after n days later |
| Dates.Weekday | components/calendar.tsx:69 | `getDay()` is in 0..6, Sunday first |
| Dates.WeekdayOfNextDay | components/calendar.tsx:69 | the weekday advances by one from each day to the next, across month and year ends |
| Dates.KnownMonday | components/calendar.tsx:64-69 | 15 January 2024 has `getDay()` 1, a Monday, fixing the weekday count to the real calendar |
| Dates.AddDaysIncreasing | components/calendar.tsx:30-34 | adding more days gives a strictly later date, so the days `addDays` produces never repeat |
| Dates.WeekdayAfter | components/calendar.tsx:30-34 | n days later the weekday is n places further round the week |
| Dates.WeekdayInMonth | components/calendar.tsx:164-166 | day k of a month falls k - 1 places after the weekday of the 1st |
| Text.ReplaceFirst | components/calendar.tsx:75-80 | `String.replace` with a string pattern changes only the first occurrence and leaves a text without one unchanged |
| Text.IndexOfFrom | components/calendar.tsx:75-80 | the search finds the first occurrence of the pattern at or after a position, or reports that there is none |
| Text.NatToString | components/calendar.tsx:72 | `String(n)` is the shortest decimal numeral of n, reading back as n |
| Text.IntToString | components/calendar.tsx:79-80 | `String(i)` of a negative number is a minus sign followed by the numeral of its magnitude |
| Text.PadStart2 | components/calendar.tsx:72 | `padStart(2, "0")` leaves a text of two or more characters alone and left-fills a shorter one with zeros to length 2 |
| Text.Pad2 | components/calendar.tsx:72 | a number below 100 becomes a two-digit numeral reading back as that number |
| Text.LexLeReflexive | app/api/user/expenses/route.ts:41 | a date lies within the range that starts and ends at it |
| Text.LexLeTotal | app/api/user/expenses/route.ts:39-42 | any two dates are comparable as strings |
| Text.LexLeTransitive | app/api/user/expenses/route.ts:39-42 | the string order of `$gte`/`$lte`/`sort` is transitive |
| Text.LexLeAntisymmetric | app/api/user/expenses/route.ts:39-42 | two dates each at most the other are the same string |
| JsNumber.ParseFloatOfNatToString | app/api/user/expenses/route.ts:50 | parsing a whole number's decimal text gives that number back |
| JsNumber.ParseFloat | app/api/user/expenses/route.ts:50 | `Number.parseFloat`: skip leading white space, read an optional sign and the longest decimal numeral with optional exponent, ignore the rest; NaN (`None`) when there is no digit (its behaviour is stated by the lemmas below) |
| JsNumber.ParseFloatOfWord | app/api/user/expenses/route.ts:50 | any text whose first character is not white space, a sign, a dot or a digit is NaN, so the price coercion makes it 0 |
| JsNumber.ParseFloatSkipsSpace | app/api/user/expenses/route.ts:50 | any run of leading white space leaves the parse unchanged |
| JsNumber.ParseFloatOfDecimalText | app/api/user/expenses/route.ts:50 | any `whole.frac` numeral, after any leading white space and before any text that cannot continue it, reads as its decimal value |
| JsNumber.ParseFloatOfWholeText | app/api/user/expenses/route.ts:50 | any all-digit numeral, after any leading white space and before any text that cannot continue it, reads as its value |
| JsNumber.ParseFloatOfPriceText | app/api/user/expenses/route.ts:50 | an instance of the above: `" 12.50 Rs"` reads as 12.5 |
| JsNumber.Round | app/profile/page.tsx:162-165 | `Math.round` lands within half a unit of its argument |
| CalendarDates.DateKeyParts | components/calendar.tsx:71-73 | the key is the unpadded year, a dash, the two-digit 1-based month, a dash and the two-digit day, with those digit groups reading back as the month and the day |
| CalendarDates.GridKeyIsFormatKey | components/calendar.tsx:182-185 | the key `hasMenu` builds for a grid day equals `formatDate(date, "yyyy-MM-dd")` for that date |
| CalendarDates.DateKeySameDay | components/calendar.tsx:83-89 | two dates share a key exactly when `isSameDay` holds for them |
| CalendarDates.ReplaceChain | components/calendar.tsx:75-80 | the five first-occurrence replacements, each applied to the output of the one before (its effect on the header is stated by FormatDateMangledHeader) |
| CalendarDates.FormatDate | components/calendar.tsx:49-81 | `formatDate`: the `yyyy-MM-dd` pattern gives the key, any other pattern goes through the replacement chain |
| CalendarDates.IsSameDay | components/calendar.tsx:83-89 | same year, month and day of the month (DateKeySameDay ties it to key equality) |
| CalendarDates.FirstDayOfMonth | components/calendar.tsx:164-166 | the first day's weekday is in 0..6 |
| CalendarDates.BuildGrid | components/calendar.tsx:174-180 | the grid is `firstDay` blanks followed by 1..daysInMonth, in order |
| CalendarDates.GridColumnIsWeekday | components/calendar.tsx:174-180 | every day cell sits in the column of its own weekday (Sunday first) and holds a day of the month |
| CalendarDates.QuickNavOffset | components/calendar.tsx:134-152 | a button moves 0, 1, 3, 7 or 14 days, and an unknown label behaves like "Today" |
| CalendarDates.DaysAhead | components/calendar.tsx:130-158 | moving n days ahead stays on today iff n = 0, and shifts the weekday by n |
| CalendarDates.QuickNavTarget | components/calendar.tsx:130-158 | a button selects today iff its offset is 0, and the selected day's weekday is shifted by the offset |
| CalendarDates.FormatDateMangledHeader | components/calendar.tsx:75-80 | as written, 15 January 2024 under "EEEE, MMMM d, yyyy" renders "Mon15ay, January d, 2024" (see Findings) |
| CalendarDates.FormatTokensHeader | components/calendar.tsx:297 | the single-pass formatter renders the header as weekday, comma, month name, day, comma, year |
| CalendarDates.FormatTokensMonthHeading | components/calendar.tsx:227 | the single-pass formatter renders "MMMM yyyy" as month name, space, year |
| CalendarDates.FormatTokensKey | components/calendar.tsx:71-73 | the single-pass formatter renders "yyyy-MM-dd" as the calendar key |
| CalendarView.FillSlot | components/calendar.tsx:194-202 | one slot of the resolution: kept when it has items, else the daily or weekly fallback, else unchanged (stated by FallbackForEmptySlot and FillSlotIdempotent) |
| CalendarView.Resolve | components/calendar.tsx:192-205 | the `forEach` over breakfast, lunch and dinner, throwing at the first missing slot object (stated by ResolveUpToSlots and ResolveCrashes) |
| CalendarView.MenuForKey | components/calendar.tsx:187-208 | what `getMenuForDay` returns for a key: the stored or default menu, resolved when a template is loaded, `None` when it throws |
| CalendarView.StoreAfterKey | components/calendar.tsx:190-205 | the menus map after `getMenuForDay`: only the key's own entry, when it exists and a template is loaded, takes the resolved menu |
| CalendarView.Calendar.HasMenu | components/calendar.tsx:182-185 | `hasMenu(day)`: the displayed month's key for the day is in the menus |
| CalendarView.IndexOf | components/calendar.tsx:198-200 | `indexOf` gives the first index holding the value, or -1 exactly when it is absent |
| CalendarView.WeeklyIndex | components/calendar.tsx:189-200 | the Monday-first position of the day with `getDay()` = wd is (wd + 6) mod 7 |
| CalendarView.At | components/calendar.tsx:196-201 | indexing a list gives an item exactly inside its bounds, `undefined` outside |
| CalendarView.Calendar.GetMenuForDay | components/calendar.tsx:187-208 | the result and the new `menus` are the effective menu and the store after resolution; a missing slot object throws, keeping the writes made before it |
| CalendarView.Calendar.ResolveEntry | components/calendar.tsx:190-207 | the resolution of one key and weekday: the result and the new map are the specification's, and the other fields are unchanged |
| CalendarView.Calendar.constructor | components/calendar.tsx:91-99 | the calendar starts from the given menus (stored items shown as listed), month and selected day, and the fetched template if any |
| CalendarView.Calendar.HandleDateSelect | components/calendar.tsx:124-128 | the date becomes selected and the route is `/menu/` plus its key; nothing else changes |
| CalendarView.Calendar.HandleQuickNav | components/calendar.tsx:130-158 | selects today plus the button's offset, and switches the shown month to it only when the month numbers differ |
| CalendarView.CrashPersists | components/calendar.tsx:193-204 | once the `forEach` has thrown, the later meal types change nothing |
| CalendarView.ResolveUpToSlots | components/calendar.tsx:193-204 | after k steps a slot is filled in iff it and every earlier slot object exist, and a throw happens iff one of the first k is missing |
| CalendarView.ResolveCrashes | components/calendar.tsx:194 | the resolution throws exactly when one of the day's slot objects is missing |
| CalendarView.ResolveFillsEverySlot | components/calendar.tsx:193-204 | without a throw, every slot is the filled-in version of the original one, independently per slot |
| CalendarView.ResolveKeepsFilled | components/calendar.tsx:194 | a slot that already has items is never replaced |
| CalendarView.FallbackForEmptySlot | components/calendar.tsx:195-202 | an empty slot becomes `{name: items[0]}` for a daily plan and `{name: items[(weekday+6)%7]}` for a weekly one; other plan types leave it empty |
| CalendarView.FillSlotIdempotent | components/calendar.tsx:194-202 | filling a slot twice is filling it once |
| CalendarView.ResolveIdempotent | components/calendar.tsx:187-208 | resolving an already resolved menu neither throws nor changes it |
| CalendarView.GetMenuForDayTouchesOnlyItsDay | components/calendar.tsx:190-205 | only the day's own entry is rewritten; a day without an entry, or a user without a template, leaves the map unchanged |
| CalendarView.GetMenuForDayStable | components/calendar.tsx:187-208 | asking again after a call that did not throw gives the same menu and writes nothing new |
| CalendarView.HasMenuIsStoredKey | components/calendar.tsx:182-185 | `hasMenu(day)` holds exactly when the menus have an entry under that date's `yyyy-MM-dd` key |
| ExpenseRoute.Query | app/api/user/expenses/route.ts:39-41 | `Menu.find` with the user and the inclusive string range, in collection order (stated by QueryCount and QueryExact) |
| ExpenseRoute.ItemsTotal | app/api/user/expenses/route.ts:49-52 | the item prices coerced and added left to right (stated by ItemsTotalAppend, ItemsTotalPermutation and UnparseablePriceAddsZero) |
| ExpenseRoute.SlotTotal | app/api/user/expenses/route.ts:49-52 | an absent slot or item list counts 0, otherwise the item total |
| ExpenseRoute.DailyTotal | app/api/user/expenses/route.ts:46-54 | `dailyTotal`: breakfast, lunch and dinner slot totals added |
| ExpenseRoute.Report | app/api/user/expenses/route.ts:45-63 | one expense per menu, in order, with its date, daily total and slots as stored |
| ExpenseRoute.QueryCount | app/api/user/expenses/route.ts:39-41 | each document the filter selects is returned as often as it is stored, and no other document is returned |
| ExpenseRoute.QueryExact | app/api/user/expenses/route.ts:39-41 | the query returns exactly the user's menus dated between the bounds (inclusive, as strings), each as often as stored |
| ExpenseRoute.Insert | app/api/user/expenses/route.ts:42 | insertion adds exactly one copy of the menu |
| ExpenseRoute.SortByDate | app/api/user/expenses/route.ts:42 | sorting is a permutation |
| ExpenseRoute.SortByDateSorted | app/api/user/expenses/route.ts:42 | the sorted menus are in ascending date order |
| ExpenseRoute.InsertSorted | app/api/user/expenses/route.ts:42 | inserting into date-sorted menus keeps them sorted |
| ExpenseRoute.ItemsTotalPermutation | app/api/user/expenses/route.ts:49-52 | the item total does not depend on the items' order |
| ExpenseRoute.ItemsTotalAppend | app/api/user/expenses/route.ts:49-52 | the total of two lists joined is the sum of their totals |
| ExpenseRoute.ItemsTotalInsert | app/api/user/expenses/route.ts:49-52 | an item inserted anywhere in a list adds exactly its own coerced price to the total |
| ExpenseRoute.UnparseablePriceAddsZero | app/api/user/expenses/route.ts:50 | an item with any text price that parses as NaN, inserted at any position of any list, leaves the total unchanged |
| ExpenseRoute.Get | app/api/user/expenses/route.ts:25-27 | no token gives 401 and no body |
| ExpenseRoute.ReportContents | app/api/user/expenses/route.ts:39-65 | the report is 200 with one expense per selected menu (date, daily total, slots as stored), ascending by date, covering exactly the user's menus in range |
| ExpenseRoute.ReversedRangeIsEmpty | app/api/user/expenses/route.ts:39-42 | a start after the end gives an empty report, not an error |
| MenuRoute.FindFrom | app/api/menus/route.ts:75-78 | the lookup returns the first document of the user with that date, or none when there is none |
| MenuRoute.MenuStore.Get | app/api/menus/route.ts:22-47 | 401 without a token; otherwise 200 with the user's menus keyed by date |
| MenuRoute.MenuStore.Post | app/api/menus/route.ts:55-106 | 401 leaves the store unchanged; otherwise the store is the upsert, with 200 and the updated menu or 201 and the new one |
| MenuRoute.UserMenus | app/api/menus/route.ts:39 | `Menu.find({userId})` in collection order (stated by UserMenusOwn) |
| MenuRoute.DateIndex | app/api/menus/route.ts:42-45 | the `reduce` into a date-keyed object, later menus overwriting earlier ones (stated by the three DateIndex lemmas) |
| MenuRoute.Created | app/api/menus/route.ts:94-102 | the new document: the user, the request's date and slots, `createdAt = updatedAt = now` |
| MenuRoute.Upsert | app/api/menus/route.ts:75-104 | the collection after a POST: the first match overwritten, or a new document appended (stated by the Upsert lemmas) |
| MenuRoute.DateIndexKeys | app/api/menus/route.ts:42-45 | the map has a key exactly for each date of a listed menu |
| MenuRoute.DateIndexValues | app/api/menus/route.ts:42-45 | each value is a listed menu carrying its key as its date |
| MenuRoute.DateIndexLaterWins | app/api/menus/route.ts:42-45 | for a duplicated date the later menu wins |
| MenuRoute.UserMenusOwn | app/api/menus/route.ts:39 | the listing holds exactly the user's own menus |
| MenuRoute.UpsertExisting | app/api/menus/route.ts:80-90 | an existing menu keeps its user, date and `createdAt`, takes the request's three slots and `updatedAt = now`; the rest is unchanged |
| MenuRoute.UpsertAbsent | app/api/menus/route.ts:93-104 | with no match, one menu is appended with the request's slots and `createdAt = updatedAt = now` |
| MenuRoute.UpsertTouchesOnlyItsKey | app/api/menus/route.ts:75-104 | every other (user, date) document is unchanged |
| MenuRoute.UpsertKeepsUnique | app/api/menus/route.ts:75-104 | one menu per (user, date) stays one menu per (user, date) |
| MenuRoute.ReadYourWrite | app/api/menus/route.ts:75-104 | after the upsert the lookup finds a menu with the request's slots and `updatedAt = now` |
| MenuRoute.FindFromAt | app/api/menus/route.ts:75-78 | a match with none before it is what the lookup returns |
| MenuRoute.UpsertIdempotent | app/api/menus/route.ts:80-91 | repeating a POST leaves every document's content as after the first, including the first `createdAt` |
| RecurringRoute.NormalizeItem | app/api/recurring-meals/route.ts:65-70 | a normalised item has a numeric price and is otherwise unchanged; a numeric price stays as it was |
| RecurringRoute.NormalizeItems | app/api/recurring-meals/route.ts:65-70 | the list keeps its length and each item is normalised in place |
| RecurringRoute.NormalizePrices | app/api/recurring-meals/route.ts:65-70 | the loop over the three meal types yields the normalised meals |
| RecurringRoute.NormalizedUpToSpec | app/api/recurring-meals/route.ts:65-70 | after the first k meal types only those have normalised items; the rest are untouched |
| RecurringRoute.NormalizedPrices | app/api/recurring-meals/route.ts:65-70 | after normalisation every price is a number, each plan keeps its type and length, and item i is item i normalised |
| RecurringRoute.NormalizeNumericUnchanged | app/api/recurring-meals/route.ts:65-70 | meals whose prices are already numbers are left unchanged |
| RecurringRoute.Normalized | app/api/recurring-meals/route.ts:65-70 | the meals with every item list normalised (stated by NormalizedPrices) |
| RecurringRoute.Upsert | app/api/recurring-meals/route.ts:73-91 | the collection after a POST: the user's first template updated, or a new one appended (stated by the Upsert lemmas) |
| RecurringRoute.FindFrom | app/api/recurring-meals/route.ts:73 | the lookup returns the user's first template, or none |
| RecurringRoute.TemplateStore.Post | app/api/recurring-meals/route.ts:45-98 | 401 leaves the store unchanged; otherwise the store is the upsert of the normalised meals and the reply is 200 with the user's saved template |
| RecurringRoute.TemplateStore.Get | app/api/recurring-meals/route.ts:100-128 | 401 without a token, 404 without a template, else 200 with the user's template |
| RecurringRoute.FindFromAt | app/api/recurring-meals/route.ts:73 | a match with none before it is what the lookup returns |
| RecurringRoute.UpsertExisting | app/api/recurring-meals/route.ts:73-80 | an existing template takes the meals, duration and `updatedAt = now` and keeps its user and `createdAt` |
| RecurringRoute.UpsertAbsent | app/api/recurring-meals/route.ts:81-91 | with no template one is appended with `createdAt = updatedAt = now` |
| RecurringRoute.UpsertOtherUsers | app/api/recurring-meals/route.ts:73-91 | other users' templates are unchanged |
| RecurringRoute.UpsertKeepsOnePerUser | app/api/recurring-meals/route.ts:73-91 | one template per user stays one template per user |
| RecurringRoute.ReadYourWrite | app/api/recurring-meals/route.ts:73-93 | after the upsert the user's template holds the new meals, duration and `updatedAt`, at the old index or at the end |
| CreateMenu.FindByDay | app/menu/create/page.tsx:60 | `find` returns the first item tagged with the day, or none exactly when no item carries the tag |
| CreateMenu.SlotFor | app/menu/create/page.tsx:55-93 | one slot of a day's request (stated by SlotRule) |
| CreateMenu.DayRequest | app/menu/create/page.tsx:50-94 | the `menuData` for one date: its key and the three slots for the date's weekday name |
| CreateMenu.Submit | app/menu/create/page.tsx:43-104 | the requests sent are the expansion of the first `SentCount` days, so they stop right after a failing call; the page goes to the dashboard exactly when no call failed |
| CreateMenu.Expansion | app/menu/create/page.tsx:49-94 | a period of n days expands into n requests |
| CreateMenu.ExpansionAt | app/menu/create/page.tsx:49-95 | request i of the expansion is the request built for day start + i |
| CreateMenu.ExpansionPrefix | app/menu/create/page.tsx:49-98 | the requests sent before a failure are the leading requests of the whole period |
| CreateMenu.SentCount | app/menu/create/page.tsx:49-98 | a call throwing at index i < n stops the loop after i + 1 requests; otherwise all n go out |
| CreateMenu.ExpansionDates | app/menu/create/page.tsx:49-54 | day i is dated start + i, and no two submitted days share a date |
| CreateMenu.SlotRule | app/menu/create/page.tsx:55-93 | a daily slot copies the list verbatim; otherwise exactly one item: for any index i tagged with the day and no earlier index so tagged, the item at i; with no tagged item, the blank item |
| CreateMenu.ChangeType | app/menu/create/page.tsx:106-117 | the slot takes the new type, with one blank item for daily or seven blanks tagged Monday..Sunday otherwise; other slots are unchanged |
| CreateMenu.ApplyEdit | app/menu/create/page.tsx:124 | an edit sets its one field and keeps the others and the day tag |
| CreateMenu.ChangeItem | app/menu/create/page.tsx:119-127 | only the item at the index is edited; length, type and other slots are kept, and an index outside the list changes nothing |
| CreateMenu.EnteredPrice | app/menu/create/page.tsx:245 | the entered price is the parsed number, or 0 when the text is not a number |
| CreateMenu.EnteredPriceOfNumber | app/menu/create/page.tsx:245 | typing any whole number's decimal text enters that number |
| CreateMenu.EnteredPriceOfWord | app/menu/create/page.tsx:245 | typing any text that starts with no space, sign, dot or digit enters 0 |
| CreateMenu.FirstFailure | app/menu/create/page.tsx:49-98 | the index of the first day whose `createMenu` rejects: none exactly when every call resolves, else a rejecting index with every earlier call resolving |
| CreateMenu.Outcomes | app/menu/create/page.tsx:95 | whether each day's `await createMenu` resolves, from its menu POST's answer and the expense route's methods |
| CreateMenu.SubmitAsWrittenStopsAfterFirstDay | app/menu/create/page.tsx:49-100 | as written, the first call already rejects: one request is sent and the dashboard is never reached (see Findings) |
| CreateMenu.SubmitCompletesWithExpensePost | app/menu/create/page.tsx:49-97 | with a route that accepts the expense POST and every call answered ok, all n days are sent and the page reaches the dashboard |
| CreateMenu.EditsKeepTags | app/menu/create/page.tsx:119-127 | edits never move a weekly item's day tag |
| CreateMenu.TagOfWeekday | app/menu/create/page.tsx:15 | the Monday-first tag at (weekday + 6) mod 7 is the day's name, and no other tag is |
| CreateMenu.WeeklySlotIsDayItem | app/menu/create/page.tsx:51-66 | for a weekly plan the form built, each day gets the item entered under its own name |
| ProfilePage.TotalExpense | app/profile/page.tsx:78 | the amounts of the expenses added in order (stated by TotalOfReport) |
| ProfilePage.PeriodDays | app/profile/page.tsx:153 | the day count of the period, both ends counted (stated by the PeriodDays lemmas) |
| ProfilePage.TotalOfReport | app/profile/page.tsx:78 | the page's total is the sum of the server's day totals over the reported menus |
| ProfilePage.CeilDiv | app/profile/page.tsx:153 | the ceiling of a / b is the least r with a <= r * b |
| ProfilePage.PeriodDaysWholeDays | app/profile/page.tsx:153 | two instants k whole days apart span k + 1 days |
| ProfilePage.PeriodDaysPartialDay | app/profile/page.tsx:153 | part of a further day counts as a whole day |
| ProfilePage.ExactFigures | app/profile/page.tsx:152-159 | the figures exist iff the period has days; remaining = period budget - total, and projected * days = total * daysInMonth |
| ProfilePage.BudgetAnalysis | app/profile/page.tsx:152-168 | the four displayed figures are within half a unit of the exact ones; `daysInPeriod` is unrounded |
| ProfilePage.FullMonthBudget | app/profile/page.tsx:156 | a period as long as the month gets exactly the monthly budget |
| ProfilePage.IndicatorsAsWritten | app/profile/page.tsx:308-320 | the two red indicators as the page decides them, on the rounded figures |
| ProfilePage.ExactIndicators | app/profile/page.tsx:308-320 | the same two indicators decided on the unrounded figures |
| ProfilePage.ExactIndicatorsAgree | app/profile/page.tsx:308-320 | before rounding both red indicators hold exactly when the total exceeds the prorated budget |
| ProfilePage.DisagreeingExample | app/profile/page.tsx:152-168 | the figures of the Findings example, exact and rounded |
| ProfilePage.RoundedIndicatorsDisagree | app/profile/page.tsx:156-165 | as written, one input shows the projection red and the remaining budget green (see Findings) |
| ProfilePage.MealSubtotal | app/profile/page.tsx:345 | with numeric prices the subtotal is a number |
| ProfilePage.MealSubtotalMatchesServer | app/profile/page.tsx:345 | with numeric prices the meal subtotal equals the server's slot total |
| MenuClient.ExpenseWrites | lib/api.ts:46-71 | no expense write when the menu POST fails; otherwise the full record (date, total, slots as sent), then `{date, amount}` with the same total |
| MenuClient.CreateMenuSucceeds | lib/api.ts:46-91 | `createMenu` resolves only if the menu POST succeeded |
| MenuClient.ClientItemsTotal | lib/api.ts:52 | the client's item sum, `None` once a text price has entered it (stated by ClientItemsTotalMatches and TextPriceSpoilsTotal) |
| MenuClient.TotalPrice | lib/api.ts:49-54 | `totalPrice`: the three slot sums added, `None` once any is not a number |
| MenuClient.PostOk | app/api/user/expenses/route.ts:20 | a POST answers ok only when the route exports a `POST` handler and it succeeds; the expense route exports only `GET` |
| MenuClient.CreateMenuAlwaysRejects | lib/api.ts:71-91 | as written, every `createMenu` call rejects, because `updateUserExpense` posts to a route without a `POST` handler (see Findings) |
| MenuClient.ClientItemsTotalMatches | lib/api.ts:52 | with numeric prices the client's item sum is the server's |
| MenuClient.TextPriceSpoilsTotal | lib/api.ts:52 | one text price turns the client's sum into a non-number |
| MenuClient.TotalPriceMatchesServer | lib/api.ts:49-54 | with numeric prices the posted amount equals the `dailyTotal` of the menu the POST stored |

## Left out

- Authentication (JWT verification, cookies) is left out: the user id is a parameter, and None stands for a missing token.
- Invalid tokens and the 500 replies after an exception are not modelled.
- The database, `connectToDatabase` and document `_id`s are left out: a collection is a sequence in natural order.
- Mongoose's schema casting is left out. The template schema keeps only `name` and `price` of an item, so it drops `description`, `recipe` and `day` on save. The model keeps the whole item.
- `fetch`, React state, effects and rendering are left out.
  - The submit loop's `createMenu` failures are a parameter (`failAt`) of `CreateMenu.Submit`, and so are the menu POST's outcomes. `CreateMenu.FirstFailure` and `CreateMenu.Outcomes` say which `failAt` the code as written produces.
  - The calendar's template fetch is a constructor argument.
  - The `onDayClick` callback is not modelled.
- Time zones are left out. `new Date("yyyy-MM-dd")` is UTC, while `format` and `getDay` are local. The model takes the local calendar date to be the one written.
- date-fns `format(…, "yyyy")` pads years below 1000. The create page's key is modelled with the calendar's unpadded key, so the two agree only for years 1000 and later.
- The calendar's `addMonths`/`subMonths` (previous and next month) are left out. `setMonth` overflow semantics are not part of this model.
- IEEE-754 arithmetic is left out: prices and totals are exact reals.
  - NaN and Infinity appear only as `None` (a failed parse, a zero-day period).
  - `parseFloat` reads decimal numerals only: `Infinity` and hexadecimal forms are not part of this model.
- CalendarDates.QuickNavTarget: does not state that the week buttons keep the weekday. The lemma `CalendarDates.DaysAhead` states it for any multiple of seven.
- ProfilePage.MealSubtotal: a non-empty text price makes the JavaScript sum a string. The model gives `None` there and does not model the string value.
- MenuClient.CreateMenuSucceeds: only says that success needs the menu POST to succeed. The first expense POST's reply is not checked by the code. The follow-up POST's answer is a parameter, and `MenuClient.PostOk` gives its value for the route as written.
- Each request reads the clock once: every `new Date()` in one request is taken as the same instant. The source reads it twice for `createdAt` and `updatedAt` of a new document (app/api/menus/route.ts:100-101 and app/api/recurring-meals/route.ts:87-88), so `MenuRoute.Created` and `RecurringRoute.Upsert` state them equal where the real values may differ by a millisecond.
- The calendar's per-slot dots (components/calendar.tsx:257-265) are not modelled. `CalendarView.HasMenuIsStoredKey` states the `hasMenu` condition only, not that a slot must be non-empty after resolution for its dot to show.
- The per-date menu route (GET/PUT/DELETE by date) and the activity route are not part of this model.

## Findings

| source | as written | input that shows it | evidently intended | confidence | as-written member | corrected member |
|---|---|---|---|---|---|---|
| components/calendar.tsx:75-80 | `formatDate` replaces `MMMM`, `MM`, `EEEE`, `d`, `yyyy` one after another on the growing string. The `d` step therefore hits the `d` inside the weekday name just inserted, not the pattern's `d` | 15 January 2024 (a Monday) with "EEEE, MMMM d, yyyy" renders "Mon15ay, January d, 2024" | each token of the pattern replaced once, in one pass: "Monday, January 15, 2024" | not executed; high | CalendarDates.FormatDateMangledHeader | CalendarDates.FormatTokensHeader |
| app/profile/page.tsx:161-167 | the two red/green indicators compare the rounded remaining budget with 0 and the rounded projection with the budget | monthly budget 3000, a 10-day period in April (30 days), 1000.30 spent: remaining -0.30 rounds to 0 (green), while the projection 3000.90 rounds to 3001 (red) | both indicators decided on the unrounded figures, where they always agree | not executed; medium | ProfilePage.RoundedIndicatorsDisagree | ProfilePage.ExactIndicatorsAgree |
| lib/api.ts:71-91 | `createMenu` awaits `updateUserExpense`, which POSTs to `/api/user/expenses` and throws unless the reply is ok. That route exports only `GET` (app/api/user/expenses/route.ts:20), so the reply is 405 | any submit of the create form: the first day's menu is stored, its `createMenu` rejects, the loop stops after day 0 and the page shows the error instead of going to the dashboard | the expense POST accepted, so every day is sent and the page reaches the dashboard | not executed; high | CreateMenu.SubmitAsWrittenStopsAfterFirstDay | CreateMenu.SubmitCompletesWithExpensePost |
