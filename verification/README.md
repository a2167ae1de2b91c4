# Hotel room-service call dashboard: a Dafny model of its core

The dashboard lets a sales executive call hotel rooms one after another.
Each call is one session of the **call panel**:
- enter a room number;
- choose the call's outcome (answered, or one of three missed-call variants);
- for an answered call, say whether the guest orders;
- if they do, build a cart from the menu and save the order.

Every completed session produces exactly one immutable **call record**, which goes at the end of the day's **record log**. The **daily report** computes its figures from that log on every read:
- calls, answered calls and orders;
- the differences between them;
- revenue;
- the conversion rate as a rounded percentage;
- the five best-selling items.

The log is cleared by a **daily reset**. This runs automatically at most once per calendar date from 04:00 on, while the setting is enabled, and can also be run by hand.

The model is purely functional. Each module holds one piece:

| module | file | what it holds |
|---|---|---|
| `Text` | Text.dfy | JavaScript `String.prototype.trim` white space, and the decimal string of a clock reading |
| `Types` | Types.dfy | menu items, outcomes, statuses, order lines, call records, daily stats; line totals and the record consistency predicate `ValidRecord` |
| `CartOps` | Cart.dfy | adding to and removing from the cart |
| `CallFlow` | CallFlow.dfy | the call panel's session, its handlers, and `Dispatch`, which is the panel as the operator can drive it |
| `Report` | Report.dfy | the seven report figures |
| `TopSellers` | TopSellers.dfy | the per-name tally, the stable descending sort, the top five |
| `DailyReset` | DailyReset.dfy | the periodic reset check and the manual reset |
| `Dashboard` | Dashboard.dfy | the whole dashboard state driven by a sequence of events |

How the source's concepts are represented:
- **Handlers.** Each handler is a function from the session (and its arguments) to the new session and the record it emits, if any.
- **Clock.** The clock reading is a parameter, read once per handler.
- **Date.** The browser's date string for today is a parameter, compared only for equality.
- **Hour.** The hour is a parameter in 0..23.
- **Money.** Prices, quantities and totals are natural numbers, because the catalog's prices are all whole amounts.

## Model

| member | source | states |
|---|---|---|
| Types.ValidRecordStatus | types.ts:12-38 | for a consistent record, the status is determined: `NoResponse` for a missed call; for an answered one, `Ordered` exactly when it has lines. A record that is not `Ordered` has total 0 |
| Types.LinesTotalConcat | App.tsx:180 | the price-times-quantity sum over two concatenated line lists is the sum of the two sums |
| Text.BlankIffAllSpace | App.tsx:119-122 | `trim()` yields the empty string exactly when every character is ECMAScript white space or a line terminator |
| Text.DecimalRoundTrip | App.tsx:131 | the record id, which is the clock reading in decimal, reads back as that clock reading |
| Text.DecimalStringInjective | App.tsx:131-133 | two clock readings give the same decimal id string exactly when they are equal |
| CartOps.AddToCart | App.tsx:165-173 | if the item's id is already in the cart, only that line gains one unit; length, order, ids and item snapshots are unchanged. Otherwise a quantity-1 line is appended. Either way the id is in the cart afterwards, and distinct ids with positive quantities are preserved |
| CartOps.RemoveFromCart | App.tsx:175-177 | the id is absent afterwards; the cart never grows; removing an absent id leaves the cart unchanged |
| CartOps.AddNewTotal | App.tsx:165-180 | adding a new item raises the cart total by its price |
| CartOps.AddExistingTotal | App.tsx:165-180 | adding an item already in the cart raises the total by that line's stored unit price |
| CartOps.AddTwiceMerges | App.tsx:165-173 | adding the same new item twice yields one line of quantity 2 at the end |
| CartOps.RemoveDeletesLine | App.tsx:175-180 | removing line k's id deletes exactly line k, keeps the other lines in order, lowers the total by that line's amount, and keeps the cart well-formed |
| CartOps.RemoveKeepsWellFormed | App.tsx:175-177 | removal keeps ids distinct and quantities positive |
| CartOps.AddThenRemove | App.tsx:165-177 | removing a freshly added item's id restores the cart |
| CallFlow.EditRoomNumber | App.tsx:216-220 | typing replaces the room number and leaves the step and the cart alone |
| CallFlow.HandleCallAttempt | App.tsx:119-122 | a room number that is empty or all white space leaves the state unchanged; any other advances to the outcome step and keeps the number as typed |
| CallFlow.HandleOutcome | App.tsx:124-143 | `Picked` emits nothing and moves to the order question. A missed outcome emits one record (id the clock reading in decimal, that outcome, `NoResponse`, no lines, total 0, attempt 1, the session's room number, the clock reading as timestamp) and returns to the initial state |
| CallFlow.HandleOrderCheck | App.tsx:145-163 | "yes" emits nothing and moves to the menu. "No" emits one `Picked`/`NotOrdered` record with no lines, total 0, attempt 1, the session's room number, and the clock reading as id (in decimal) and timestamp, and returns to the initial state |
| CallFlow.SubmitOrder | App.tsx:179-193 | emits one `Picked`/`Ordered` record whose lines are the cart, whose total is the cart's price-times-quantity sum, with attempt 1, the session's room number, and the clock reading as id (in decimal) and timestamp; then returns to the initial state |
| CallFlow.Dispatch | App.tsx:110-378 | an action the panel does not offer changes nothing. A record is emitted exactly when an offered action completes the session; then the panel is back at room entry and the record carries the room number, the clock reading, its decimal id and attempt 1. Each offered action that does not complete applies its handler: typing sets the room number; "Initiate Call" advances unless the number is all white space; `Picked` and "yes" advance; adding and removing change only the cart; "Cancel" returns to room entry with no record |
| CallFlow.DispatchPreservesInv | App.tsx:110-193 | every offered action keeps the session invariant: well-formed cart; non-blank room number past entry; cart empty off the menu step |
| CallFlow.EmittedRecordValid | App.tsx:124-193 | every record emitted from a reachable session is consistent: its total matches its lines, it has lines exactly when `Ordered`, and it is `NoResponse` exactly when missed |
| CallFlow.SubmitValidIffNonEmpty | App.tsx:376-378 | called on its own, the submit handler yields a consistent record exactly when the cart is non-empty, which is what the disabled "Save Order" button ensures |
| CallFlow.EmittedIdsDistinct | App.tsx:131-182 | two records emitted by the panel have the same id exactly when they were made at the same clock reading, and the id reads back as that reading |
| Report.RoundPercent | App.tsx:542 | over the rationals, the result is within one half of `100 * part / whole`, with halves rounded up (which is `Math.round`). An empty log gives 0, and a part no larger than the whole gives a value in 0..100 |
| Report.ComputeStats | App.tsx:535-553 | there is one call per record; not-answered = calls − answered and not-ordered = answered − orders; answered and orders are each at most the number of calls; the empty log reports all zeros; otherwise the conversion rate r satisfies r − 1/2 ≤ 100 · orders / calls < r + 1/2, the round-half-up percentage |
| Report.StatsAppend | App.tsx:535-553 | one more record moves calls by 1, answered and orders by its own outcome and status, and revenue by its total |
| Report.RevenueIsLinesRevenue | App.tsx:541 | for a log of consistent records, revenue equals the sum of price times quantity over every logged line |
| Report.ValidLogStats | App.tsx:535-553 | for a log of consistent records: orders ≤ answered ≤ calls, both differences are non-negative, and the conversion rate is in 0..100 |
| TopSellers.TotalQtyIsQtyOfAllLines | App.tsx:558-562 | summing a name's quantities record by record equals summing them over all lines flattened in log order |
| TopSellers.BumpCounts | App.tsx:560 | `counts[name] = (counts[name] \|\| 0) + q` adds q to that name's entry and changes no other |
| TopSellers.TallyNames | App.tsx:557-563 | the tally has exactly one entry per distinct ordered name |
| TopSellers.TallyCounts | App.tsx:557-563 | each tally entry holds the total ordered quantity of its name |
| TopSellers.TallyOrder | App.tsx:557-563 | the tally entries are in the order in which their names were first ordered |
| TopSellers.SortDescending | App.tsx:564 | the sort's output is in non-increasing count order (it is a permutation by `SortDesc`'s contract) |
| TopSellers.SortStable | App.tsx:564 | the sort is stable: for every count, entries with that count keep their relative order |
| TopSellers.TopItemsSpec | App.tsx:556-566 | at most five entries, distinct names, non-increasing counts, and each count is that name's total quantity across the log. Any ordered name left out sells no more than the fifth entry, which then exists |
| TopSellers.TopItemsTieOrder | App.tsx:556-566 | entries with equal counts are listed in the order their names were first ordered, and an ordered name left off the list with the same count as a listed entry was first ordered after that entry's name, so ties at the cut go to the earliest-ordered names |
| DailyReset.CheckReset | App.tsx:747-760 | the check changes something exactly when it is enabled, the hour is 4 or later, and the stamp is not today's date. Then the log is emptied and stamped with today; otherwise nothing changes |
| DailyReset.CheckResetOncePerDate | App.tsx:753-758 | after a check that fired, any further check on the same date is a no-op, at any hour and with the setting either way |
| DailyReset.CheckResetIdempotent | App.tsx:747-760 | repeating a check with the same arguments changes nothing more |
| DailyReset.HandleResetData | App.tsx:775-778 | a confirmed manual reset empties the log; declined, it changes nothing; the stamp is never touched |
| DailyReset.ManualResetKeepsAutoResetDue | App.tsx:747-778 | a manual reset does not use up the day's automatic reset |
| Dashboard.SaveRecord | App.tsx:771-773 | the log grows by one, the new record is last, and all earlier records stay as they were |
| Dashboard.Apply | App.tsx:747-788 | a panel action appends exactly the record it emits and touches neither the setting nor the stamp; any other event either keeps the log or empties it; only a check touches the stamp |
| Dashboard.ApplyPreservesInv | App.tsx:771-788 | every event keeps the log consistent and the session invariant |
| Dashboard.LogGrowth | App.tsx:771-773 | the log grows by at most one record per event, and by one exactly when an offered panel action completes a session |
| Dashboard.ReachableStats | App.tsx:535-553 | in every state reachable from a fresh start: orders ≤ answered ≤ calls, the conversion rate is in 0..100, and revenue is the sum over all logged lines |
| Dashboard.AtMostOneAutoResetPerDay | App.tsx:747-768 | over any interleaving of events whose checks all carry one date, the automatic reset fires at most once, and not at all if the stamp already holds that date |

## Left out

- **Storage.** `localStorage` is left out: restoring and persisting the log, the setting and the stamp, and `JSON` serialisation. This is browser storage. The stamp is modelled as a dashboard field. No rollback on a storage failure exists in the code, so none is modelled.
- **Scheduling.** The `setInterval`/`useEffect` scheduling of the reset check is left out. Every run of the check, whether on mount, every minute, or after the switch is flipped, is a `Tick` event the environment may issue at any point.
- **Host UI around the manual reset.** `window.confirm`, the toast and its `setTimeout` are host UI. The operator's answer to the confirmation is the `confirmed` parameter.
- **Other views.** Left out:
  - the CSV and printable-HTML export;
  - the bar-chart widths;
  - all rendering;
  - the sidebar;
  - the settings language select;
  - the menu browser's search and category filter, including the search term that `resetFlow` clears.
- **Menu catalog.** The static menu catalog is not modelled. Any `MenuItem` may be added to the cart.
- **Clock and date.** `Date.now()`, `new Date()`, `getHours` and `toDateString` are parameters, not a clock. Each handler reads the clock once, so `id` and `timestamp` come from the same reading. The source reads it twice, a moment apart.
- **Number input.** The room-number field is an `<input type="number">`, and the browser restricts what can be typed. The model accepts any string.
- **Strings.** Strings are sequences of Unicode scalar values, not JavaScript's UTF-16 code units. `Trim` uses the ECMAScript white-space and line-terminator set.
- Report.RoundPercent: computes the rounded percentage exactly, whereas the source rounds the floating-point value `orders / calls * 100`. The two differ where that product lands just below a half. Examples: 23 orders of 40 calls give 57.49999999999999, which `Math.round` takes to 57, where the model gives 58; 29 of 200 give 14 where the model gives 15. Floating-point arithmetic is not modelled.
- TopSellers.TopItemsTieOrder: states first-appearance order for all names, which is what JavaScript gives for names that are not canonical array indices. A name such as `"7"` would be enumerated first, in numeric order, by `Object.entries`. Menu item names are never of that form, so that ordering is not modelled. The tally `(counts[name] || 0) + q` also differs from JavaScript for names inherited from `Object.prototype`: for `"constructor"` or `"toString"` the sum becomes a string, and `"__proto__"` is never stored as an entry. Menu item names are never of those forms either, so the model tallies every name alike.
- **Wider numbers.** Quantities and prices are not bounded by the 2^53 range of JavaScript numbers, since no realistic day's log approaches it.
- **`currentOutcome`.** It is recorded by the outcome handler and cleared on reset. No record reads it, so it appears only in the session state and its invariant.
- **Cancel.** The cancel button exists only on the menu step (App.tsx:375). The model offers `Cancel` there only.
