# Personal finance controller, modelled in Dafny

This project models the finance controller of a small personal-finance
service. Each user keeps income and expense entries, and each entry has a
title, an amount, a type, a category and a creation time. The controller:

- lists and creates entries;
- updates and deletes them behind an ownership check;
- answers a search/filter listing;
- computes four aggregates: a summary, statistics per category, statistics
  per month of a year, and a report over a date period.

The model lifts the decision and aggregation logic out of the HTTP and
database plumbing. The store is a sequence of entries given as input. Each
handler is a function or method from its parsed request parameters (and
the store) to an `Outcome`:

- `Ok(value)`;
- `ValidationError(reason)`, the 400 answers;
- `NotFound`, the 404 answer, for absent and foreign entries alike;
- `ServerError`, the 500 answer, which the model gives only for a query holding an Invalid Date.

Modules, one file each:

| file | module | what it holds |
|---|---|---|
| `calendar.dfy` | `Calendar` | the time axis: month starts, the UTC month of an instant, and ISO month-start dates that may be invalid |
| `ledger.dfy` | `Ledger` | entries, outcomes, the eight categories, filtering (`Where`), summing (`Total`), case-insensitive substring search |
| `filter.dfy` | `Filter` | the selection object built field by field (a method over a `Query` record), what it matches, a declarative reference definition of the intended selection, and the listing sorted newest first |
| `summary.dfy` | `Summary` | income/expense/balance totals, and the period report with its date validation |
| `category.dfy` | `CategoryStats` | the per-category dictionary, built by a loop that updates a `map` |
| `monthly.dfy` | `MonthlyStats` | the twelve monthly slots, filled by a loop that updates an `array` in place |
| `entries.dfy` | `Entries` | listing, creation with its validation, the ownership gate, update (as written and corrected) and delete |

The selection object is built step by step like the handler builds it. Its
meaning is stated against an independent reference. `DateWindow` chooses
the time window in effect:

1. explicit start/end dates win;
2. otherwise a month wins, in the given year or the current one;
3. otherwise a year wins;
4. otherwise time is not restricted.

`Selected` then states which entries are meant to be listed.
`BuildQuery` proves that the object matches exactly those entries.

The listing copies any non-empty `type` into the selection as an equality
test (`src/controllers/financeController.js:120-122`). Unlike creation
(lines 26-28), it does not check the value against income/expense, and
neither does the model.

## Model

| member | source | states |
|---|---|---|
| Filter.BuildQuery | src/controllers/financeController.js:116-171 | the owner condition is always present; the object holds only valid dates exactly when the window in effect exists; when it does, it matches an entry exactly when `Selected` holds for that window; given start/end dates replace the whole `createdAt` condition with inclusive bounds |
| Filter.AddYearWindow | src/controllers/financeController.js:125-129 | with a year, `createdAt` becomes `[Jan 1 of year, Jan 1 of year+1)` from the two ISO dates; every other field is unchanged |
| Filter.AddMonthWindow | src/controllers/financeController.js:132-144 | with a month, `$gte`/`$lt` are overwritten with the month's start and the next month's start (December rolls into January of year+1, no year means the current year); `$lte` and every other field are unchanged |
| Filter.AddAmountRange | src/controllers/financeController.js:147-151 | the amount condition appears only when a bound is given, and it carries exactly the given bounds |
| Filter.AddDateRange | src/controllers/financeController.js:166-171 | given start/end dates replace `createdAt` with `$gte` start and `$lte` end, each only when given |
| Filter.TimeBoundsMeaning | src/controllers/financeController.js:124-171 | the `createdAt` condition left after the three date steps is valid iff the window in effect exists, and then it accepts exactly the instants of that window |
| Filter.QueryMeaning | src/controllers/financeController.js:116-171 | the final object matches exactly the entries of the reference selection |
| Filter.YearAloneIsHalfOpenYear | src/controllers/financeController.js:125-129 | a year alone selects `MonthStart(y,1) <= t < MonthStart(y+1,1)` |
| Filter.DecemberRollsOver | src/controllers/financeController.js:138-141 | month 12 ends on Jan 1 of year+1 |
| Filter.MonthDefaultsToCurrentYear | src/controllers/financeController.js:136 | a month without a year is taken in the current year |
| Filter.MonthsPartitionYear | src/controllers/financeController.js:125-144 | every month window lies inside its year window, and every instant of the year lies in the window of its own UTC month |
| Filter.ExplicitDatesWin | src/controllers/financeController.js:166-171 | with a start or end date, year, month and current year make no difference to the window |
| Filter.LoneStartDateHasNoUpperBound | src/controllers/financeController.js:167-169 | a lone start date gives the window `[start, ∞)`, inclusive at the start |
| Filter.KeywordIgnoresCase | src/controllers/financeController.js:154-158 | keywords that differ only in letter case select the same entries |
| Filter.KeywordExample | src/controllers/financeController.js:154-158 | `foo` matches the title `Foobar` and the category `food` |
| Filter.InsertKeepsNewestFirst | src/controllers/financeController.js:174 | inserting into a newest-first sequence keeps it newest first |
| Filter.SortNewestFirst | src/controllers/financeController.js:174 | the result is ordered by `createdAt` descending and is a permutation of the input |
| Filter.FilterFinance | src/controllers/financeController.js:101-179 | a window with an invalid date is a store failure; otherwise the answer is newest first and holds exactly the selected entries, each as often as in the store |
| Summary.Summarize | src/controllers/financeController.js:192-200 | balance is total income minus total expense |
| Summary.FinanceSummary | src/controllers/financeController.js:183-210 | always answers; income and expense are the sums of the amounts of the user's entries of that type; balance is their difference |
| Summary.SummarizeAppend | src/controllers/financeController.js:192-200 | the summary of two sequences together is the sum of their summaries |
| Summary.SummarizePermutation | src/controllers/financeController.js:192-200 | the summary does not depend on the order the store returns entries in |
| Summary.SummarizeSnoc | src/controllers/financeController.js:192-200 | one more entry adds its amount to the total of its own type only, and to neither for any other type |
| Summary.TotalsCoverAllAmounts | src/controllers/financeController.js:192-200 | when every entry is income or expense, the two totals together are the sum of all amounts |
| Summary.InPeriod | src/controllers/financeController.js:303-306 | an entry is selected iff it is the user's and `start <= createdAt <= end` |
| Summary.PeriodReport | src/controllers/financeController.js:281-325 | a missing date, an unparsable date and a start after the end are each refused with their own reason, in that order of precedence (both directions stated); otherwise both date texts are echoed and the totals are the summary over the inclusive period |
| Summary.ReportValidationIgnoresStore | src/controllers/financeController.js:287-300 | the refusals do not depend on the store |
| Summary.PeriodIsInclusive | src/controllers/financeController.js:303-306 | entries stamped exactly at the start and exactly at the end are both included |
| CategoryStats.CategoryStats | src/controllers/financeController.js:221-228 | a key exists exactly for the categories that occur; each total is the sum of that category's amounts and each count the number of its entries |
| CategoryStats.GetCategoryStats | src/controllers/financeController.js:213-234 | the same over the user's entries, and it always answers |
| CategoryStats.StatStep | src/controllers/financeController.js:222-227 | one more entry adds its category to the keys, its amount to that category's total and one to its count, and changes no other category |
| CategoryStats.StatsOfSnoc | src/controllers/financeController.js:222-227 | the dictionary after one more entry is the old one with only that entry's slot updated, starting from zero for a new category |
| CategoryStats.AbsentCategory | src/controllers/financeController.js:222-224 | a category that does not occur has total and count zero |
| CategoryStats.CategoriesOfMeaning | src/controllers/financeController.js:221-228 | the keys are exactly the categories of the entries |
| CategoryStats.StatOfMeaning | src/controllers/financeController.js:225-226 | a category's slot holds the sum and the number of its entries |
| CategoryStats.SumStatsRemove | src/controllers/financeController.js:221-228 | summing the slots over all keys may start from any key |
| CategoryStats.SumOfStats | src/controllers/financeController.js:221-228 | over all keys, the totals add up to the sum of every amount and the counts to the number of entries |
| CategoryStats.CategoryTotalsMatchSummary | src/controllers/financeController.js:221-228 | when every entry is income or expense, the category totals add up to total income plus total expense |
| MonthlyStats.InMonth | src/controllers/financeController.js:263 | an entry is kept iff its UTC month is `m` |
| MonthlyStats.Credit | src/controllers/financeController.js:264-271 | crediting keeps the month, and the balance is recomputed as income minus expense |
| MonthlyStats.MonthSlot | src/controllers/financeController.js:256-272 | slot `m` is month `m`, and its balance equals its income minus its expense |
| MonthlyStats.MonthTable | src/controllers/financeController.js:256-261 | there are exactly twelve slots, slot `j` holding month `j+1` |
| MonthlyStats.MonthSlotMeaning | src/controllers/financeController.js:256-272 | slot `m` holds the income, the expense and the balance of exactly the entries of UTC month `m` |
| MonthlyStats.MonthSummarySnoc | src/controllers/financeController.js:262-272 | one more entry grows month `m`'s totals by its amount, by type, iff it is of month `m` |
| MonthlyStats.TableMeaning | src/controllers/financeController.js:256-272 | each of the twelve slots summarises its own month |
| MonthlyStats.EmptyTable | src/controllers/financeController.js:256-261 | before any entry the twelve slots are `{month, 0, 0, 0}` in month order |
| MonthlyStats.TableSnoc | src/controllers/financeController.js:262-272 | processing an entry changes only the slot of its UTC month |
| MonthlyStats.MonthlySlots | src/controllers/financeController.js:256-272 | the loop over the in-place array yields twelve slots in month order, each summarising its own month |
| MonthlyStats.InYear | src/controllers/financeController.js:247-253 | an entry is selected iff it is the user's and lies in `[Jan 1 of year, Jan 1 of year+1)` |
| MonthlyStats.GetMonthlyStats | src/controllers/financeController.js:237-278 | a missing year is refused first, before any store access; a year whose boundary dates are invalid is a store failure; otherwise the answer is the twelve slots over the user's entries of that year |
| MonthlyStats.SumFieldBump | src/controllers/financeController.js:262-271 | changing one slot's field by `d` changes that field's sum over the slots by `d` |
| MonthlyStats.TableSumsSnoc | src/controllers/financeController.js:262-271 | one more entry adds its amount to the twelve-slot sum of its own type |
| MonthlyStats.MonthsAddUpToYear | src/controllers/financeController.js:256-272 | the twelve incomes add up to the year's total income, and the twelve expenses to its total expense |
| MonthlyStats.MonthOfYearIsListing | src/controllers/financeController.js:247-253 | month `m` of the year's entries is exactly what the filtered listing selects for `?year=y&month=m`, in the same order |
| MonthlyStats.MonthSlotAgreesWithListing | src/controllers/financeController.js:237-278 | slot `m` of year `y` equals the summary of the listing for `?year=y&month=m` |
| Entries.ListFinances | src/controllers/financeController.js:7-15 | the answer holds exactly the user's entries |
| Entries.CreateFinance | src/controllers/financeController.js:18-48 | refused for a falsy field (including amount 0), then for a type other than income/expense, then for a category outside the eight (each iff, in that precedence); otherwise the new entry carries the body's fields, the requester as owner, and the store's id and time |
| Entries.AmountZeroIsMissing | src/controllers/financeController.js:22-24 | a zero amount counts as missing, while a negative amount is accepted |
| Entries.CreationUpdatesSummary | src/controllers/financeController.js:36-42 | a created entry has a known type and category; storing it adds its amount to the owner's total of its type and leaves other users' summaries unchanged |
| Entries.CreatedEntriesAreCounted | src/controllers/financeController.js:26-32 | in a store of created entries, income plus expense accounts for every amount |
| Entries.FindById | src/controllers/financeController.js:56 | the answer, when present, is a stored entry with that id; it is absent iff no entry has that id |
| Entries.Authorize | src/controllers/financeController.js:59-61 | only an existing entry owned by the requester passes; an absent id and a foreign entry both give not-found |
| Entries.GateSeparatesUsers | src/controllers/financeController.js:59 | two different users never both pass the gate for the same id |
| Entries.ReplaceById | src/controllers/financeController.js:64-68 | the store keeps its length, and only positions holding the id change |
| Entries.ApplyPatchAsWritten | src/controllers/financeController.js:64-68 | the id is kept, while an owner or a creation time named in the body overwrites the entry's own |
| Entries.UpdateFinanceAsWritten | src/controllers/financeController.js:51-74 | not-found unless the gate passes; otherwise the whole body is applied to the entry in the store |
| Entries.OwnerCanBeReassignedAsWritten | src/controllers/financeController.js:64-68 | an owner's update with body `{user: "bob"}` hands the entry to another user, and it vanishes from the owner's listing |
| Entries.ApplyPatch | src/controllers/financeController.js:64-68 | only title, amount, type and category may change; id, owner and creation time are kept |
| Entries.UpdateFinance | src/controllers/financeController.js:51-74 | the gate, then only the whitelisted fields applied |
| Entries.UpdateKeepsOwnership | src/controllers/financeController.js:64-68 | with the whitelist no entry changes id, owner or creation time, and entries with other ids are untouched |
| Entries.DeleteFinance | src/controllers/financeController.js:77-95 | not-found unless the gate passes; otherwise the store loses exactly the entries with that id and nothing else |
| Entries.WhereDrops | src/controllers/financeController.js:90 | removing an entry that is present makes the store strictly shorter |
| Entries.DeleteSparesOtherUsers | src/controllers/financeController.js:90 | with unique ids, every other user's entries stay as they were, in order |
| Entries.DeleteUpdatesSummary | src/controllers/financeController.js:90 | with unique ids, deleting removes the entry's amount from the owner's total of its type |
| Entries.RemoveUnique | src/controllers/financeController.js:90 | with unique ids, deletion removes exactly the entry at its position |
| Calendar.NextMonthStart | src/controllers/financeController.js:138-141 | the next month starts later; after December it is January of the next year |
| Calendar.UtcMonth | src/controllers/financeController.js:263 | a month number 1..12 |
| Calendar.MonthStartIncreasing | src/controllers/financeController.js:137-141 | month starts increase strictly in (year, month) order |
| Calendar.UtcMonthInWindow | src/controllers/financeController.js:263 | an instant inside month `m`'s window has UTC month `m` |
| Calendar.YearWindowSplitsIntoMonths | src/controllers/financeController.js:247-263 | an instant of the year lies in the window of its own UTC month |
| Calendar.IsoMonthStart | src/controllers/financeController.js:126-127 | the date `YYYY-MM-01` is valid iff the year has four digits and the month is 1..12, and then it is that month's start |
| Ledger.Where | src/controllers/financeController.js:193 | filtering never lengthens a sequence |
| Ledger.WhereMembership | src/controllers/financeController.js:193 | an entry is kept iff it is present and passes the test |
| Ledger.WherePermutation | src/controllers/financeController.js:193 | filtering inputs that are permutations of each other gives outputs that are permutations of each other |
| Ledger.TotalPermutation | src/controllers/financeController.js:194 | the sum of the amounts does not depend on the order |
| Ledger.Total | src/controllers/financeController.js:194 | a single entry sums to its own amount, and non-negative amounts give a non-negative sum |
| Ledger.OfKind | src/controllers/financeController.js:193 | an entry is kept iff it is present and has the given type |
| Ledger.ContainsIgnoringCase | src/controllers/financeController.js:156-157 | an exact occurrence is also a case-insensitive one, and the empty keyword occurs in every text |
| Filter.MentionsKeyword | src/controllers/financeController.js:155-158 | an exact occurrence in the title or in the category is enough for the keyword to match |
| Filter.Matches | src/controllers/financeController.js:174 | only the requester's entries match, and an object holding an Invalid Date matches nothing |
| Ledger.OwnedBy | src/controllers/financeController.js:189 | an entry is kept iff it is the user's |

## Left out

- I/O and the store: the Express request/response objects, HTTP status codes and messages, and the MongoDB calls are left out. The store is a sequence of entries given as input. The connection module `src/config/db.js` and the routing in `src/routes/financeRoutes.js` and `src/app.js` are not part of this model.
- Store-assigned values: ids and creation times are parameters of `CreateFinance`.
- Store failures in every handler, such as the store being unreachable or an id the store cannot cast, are not modelled. `ServerError` stands only for a query holding an Invalid Date. An uncastable id therefore gives `NotFound` in the model, where the source answers 500.
- The calendar: the calendar is uniform, with every month the same length. Only three properties are used: month starts increase, month 13 rolls into January, and an instant's UTC month is the month whose window holds it. Real Gregorian month lengths and time zones are not modelled.
- Date parsing: `new Date(text)` is an already-parsed `Instant` (a valid instant or Invalid Date). Dates built from `year` and `month` are valid iff the year has four digits and the month is 1..12. This assumes the year and month texts are canonical decimals, and it does not model what a JavaScript engine's lenient parser accepts beyond that.
- The current year (`new Date().getFullYear()`) is a parameter.
- `Number()` coercion: numeric query parameters arrive as integers. `None` stands for absent or empty, and all other text is truthy. A non-numeric `year`, `month` or amount is not modelled.
- Body fields of a creation request arrive with their stored types. A string amount such as `"0"` is truthy in the source, so it passes the check at line 22. The model does not capture this, because `Entries.Nonzero` sees only numbers.
- Amounts: amounts are mathematical integers. JavaScript floating-point arithmetic is not modelled.
- The keyword is a literal, case-insensitive substring test with ASCII case folding. The `$regex` semantics of the unescaped keyword, such as metacharacters and Unicode case folding, are not modelled.
- Mongo matching details: a query parameter given as an array, and type casting inside the store's matcher, are not modelled.
- `req.user.id` and `req.user._id` are treated as the same user id.
- Filter.SortNewestFirst: it fixes one order for entries with equal `createdAt`. The store's order for ties is unspecified, so the listing's contract states only the order by `createdAt` and the multiset of entries.
- CategoryStats.CategoryStats: the dictionary is a `map` from category text to its slot. JavaScript object-key quirks, such as a category named like an `Object.prototype` member, are not modelled.
- Entries.UpdateFinanceAsWritten: the body is the six entry fields the store would accept. Mongo's update operators, schema casting and validators (`runValidators` is off in the source) are not modelled, so an update is not validated.
- Entries.ApplyPatchAsWritten: it assumes the store accepts a `createdAt` in an update body. The entry schema is not part of this model. Under Mongoose's `timestamps` option `createdAt` is immutable and dropped from updates, and then only the owner half of the finding below stands.
- Entries.DeleteSparesOtherUsers, Entries.DeleteUpdatesSummary, Entries.UpdateKeepsOwnership and Entries.RemoveUnique: these assume unique ids, as the store's primary key guarantees. `DeleteFinance` itself removes every entry with the id.
- Concurrency between requests is not modelled. Each handler is one atomic step on the store.

## Findings

| source | as written | input that shows it | evidently intended | confidence | as-written member | corrected member |
|---|---|---|---|---|---|---|
| src/controllers/financeController.js:64-68 | the whole request body is passed to the update, so the owner (`user`) can be overwritten | alice owns entry `e1` and sends an update with body `{user: "bob"}`: the gate passes, the entry now belongs to bob, and it is gone from alice's listing | owners are immutable and only title, amount, type and category are updatable | medium, not executed | Entries.OwnerCanBeReassignedAsWritten | Entries.UpdateKeepsOwnership |
