# pennywise: a Dafny model of the finance backend's handlers

The pennywise backend is a set of REST handlers over one SQL database. This
project treats that database as an immutable value with three parts, and each
handler as a pure transition or query over it:

- the **transactions table**: a map from id to a record holding the
  description, the amount in integer cents, the category and the timestamp.
  The table also keeps the next value of its id sequence (`Ledger.Table`);
- the **goals table**: a map from week-start day to a goal row holding its id
  and amount in cents (`Goals.GoalTable`);
- the **chat log**: an append-only sequence of (session, role, content) rows.
  The order of the sequence is the `created_at` order (`Insights.ChatRow`).

Files and modules:

- `outcomes.dfy` (`Outcomes`): `Option`, `Result` (a value, or the text of
  the thrown error) and `Step` (the database after a handler, paired with the
  handler's answer).
- `calendar.dfy` (`Calendar`): instants are seconds since the Unix epoch (UTC).
  Days are day numbers, with day 0 = 1970-01-01, a Thursday. Weekdays use
  JavaScript's `getDay` numbering (0 = Sunday). `WeekStart` is the Monday
  computation of the goals handlers.
- `ledger.dfy` (`Ledger`): the transaction handlers `Add`, `List`, `Balance`,
  `Del` and `Update`. It also defines `Total`, the `SUM(amount)` over a map of
  rows.
- `goals.dfy` (`Goals`): the goal handlers `SetGoal` (upsert by week start)
  and `Status` (goal, spent and remaining for the current week).
- `insights.dfy` (`Insights`): `Generate` and its empty-data short-circuit,
  the session transcript `SessionHistory`, and one `Chat` turn. The language
  model and the agent are function parameters, with no meaning given to them.

`Ledger.Valid` is the table invariant that every stored id is below the id
sequence's next value; the empty table has it and every handler keeps it, so
`add` always inserts under a fresh id.

The current time and day are parameters: `now` for the timestamp column
default, `today` for the goal handlers. Amounts enter and leave the model as
integer cents.

Two behaviours of the code worth knowing, both modelled as written:

- `update` tests the amount for truthiness, not with `??`. So a request
  amount of 0 keeps the stored amount. An empty description or category does
  replace the stored value.
- The spending window is inclusive at both ends, from the week's Monday through
  its Sunday. `remaining` is not clamped, so it goes negative when spending
  exceeds the goal.

## Model

| member | source | states |
|---|---|---|
| `Ledger.Add` | transactions/transactions.ts:29-44 | inserts exactly one row under an id not used before. Every existing row is unchanged. The new row carries the given description, category and cents. Its timestamp is the given one, or the insertion time `now` when none is given. The id-freshness invariant is preserved |
| `Ledger.List` | transactions/transactions.ts:61-76 | returns every stored row exactly once, each with its stored values, and nothing else. Rows are in non-increasing timestamp order |
| `Ledger.Balance` | transactions/transactions.ts:86-88 | the balance of an empty table is 0 (the NULL sum falls back to 0) |
| `Ledger.Total` | transactions/transactions.ts:84 | the sum of the cents of every row: 0 for no rows, never negative when no amount is negative, never positive when no amount is positive |
| `Ledger.TotalRemove` | transactions/transactions.ts:84 | `SUM(amount)` does not depend on summation order: any row can be taken out first |
| `Ledger.BalanceIsSumOfListing` | transactions/transactions.ts:83-89 | the balance equals the sum of the cents of the rows `list` returns, in whatever order they come |
| `Ledger.BalanceAfterAdd` | transactions/transactions.ts:83-89 | after `add`, the balance has grown by exactly the added cents |
| `Ledger.Del` | transactions/transactions.ts:96-102 | removes the row with that id and keeps every other row unchanged. An absent id leaves the table exactly as it was. The answer is always "deleted" |
| `Ledger.DelIdempotent` | transactions/transactions.ts:96-101 | deleting the same id twice is the same as deleting it once |
| `Ledger.DelUndoesAdd` | transactions/transactions.ts:96-101 | deleting the row just added restores the previous rows |
| `Ledger.BalanceAfterDel` | transactions/transactions.ts:83-89 | after `del`, the balance drops by the deleted row's cents, or stays the same when the id was absent |
| `Ledger.Merge` | transactions/transactions.ts:126-129 | each provided field replaces the stored one and each omitted field is kept. An amount counts as provided only when it is nonzero |
| `Ledger.Update` | transactions/transactions.ts:118-146 | an absent id fails with "Transaction not found" and leaves the table unchanged. Otherwise only that row changes: it becomes the merge of the stored row and the patch. The answer is that row's new values under the same id |
| `Ledger.UpdateZeroAmountIsOmitted` | transactions/transactions.ts:127 | an update with amount 0 behaves exactly like one without an amount |
| `Ledger.UpdateEmptyPatchKeepsTable` | transactions/transactions.ts:126-129 | an update providing no field leaves the table unchanged |
| `Ledger.UpdateIdempotent` | transactions/transactions.ts:126-136 | applying the same update twice is the same as applying it once |
| `Ledger.BalanceAfterUpdate` | transactions/transactions.ts:131-136 | after `update`, the balance moves by the new cents minus the old cents of that row |
| `Calendar.Weekday` | goals/goals.ts:26 | the weekday in `getDay` numbering, 0 (Sunday) through 6 (Saturday), differing from the day number plus 4 by whole weeks; day 0, 1970-01-01, is a Thursday (4) |
| `Calendar.DayOf` | goals/goals.ts:61 | the day of an instant is the day whose 86400-second span contains it |
| `Calendar.WeekStart` | goals/goals.ts:26-28 | the week start is a Monday on or 0 to 6 days before today. A Sunday maps back exactly 6 days |
| `Calendar.WeekStartUnique` | goals/goals.ts:26-28 | the week start is the only Monday among the seven days ending today |
| `Calendar.WeekStartConstantOnWeek` | goals/goals.ts:49-51 | every day from a week start through the following Sunday computes the same week start, so `set` and `status` agree on the week |
| `Calendar.WeekEnd` | goals/goals.ts:52 | the window's last day is the Sunday six days after the week start, on or after today |
| `Goals.SetGoal` | goals/goals.ts:23-40 | upserts by the current week start. Afterwards that week's goal is the given cents and every other week's goal is unchanged. An existing row keeps its id, and a new row gets an id unused by any other goal |
| `Goals.GoalFor` | goals/goals.ts:54-57 | the goal of a week without a goal row is 0 |
| `Goals.Window` | goals/goals.ts:59-63 | exactly the transactions whose day d satisfies first <= d <= last, with their stored values |
| `Goals.WeekDays` | goals/goals.ts:51-52 | the goal window is exactly the seven days from the week's Monday through its Sunday |
| `Goals.Status` | goals/goals.ts:47-69 | the goal is that week's goal, or 0 when there is none. Spent is the total of the window's transactions, and 0 when no transaction falls in the window. remaining = goal - spent, unclamped, so it is negative when overspent |
| `Goals.StatusAfterSet` | goals/goals.ts:23-57 | after `set`, `status` on any day of the same week reports the new goal |
| `Goals.StatusAfterSetOtherWeek` | goals/goals.ts:30-36 | `set` leaves the goal reported for every other week unchanged |
| `Goals.SetGoalTwice` | goals/goals.ts:30-36 | a second `set` in the same week keeps one row with the same id and the later amount |
| `Goals.WindowTotalInsert` | goals/goals.ts:59-63 | a row added inside the window adds its cents to the window total. A row added outside the window leaves the total unchanged |
| `Goals.SpentAfterAdd` | goals/goals.ts:59-63 | adding a transaction changes this week's spent by its cents exactly when its day is one of the week's seven days |
| `Goals.WindowBoundaries` | goals/goals.ts:61 | the week's Monday and Sunday are counted. The day before the Monday and the day after the Sunday are not |
| `Goals.GoalScenario` | goals/goals.ts:65-69 | a goal of 10000 cents and a single 4000-cent purchase in that week report goal 10000, spent 4000, remaining 6000 |
| `Insights.Generate` | ai-insights/insights.ts:31-49 | no transactions answers "Not enough data for an insight."; otherwise the answer is the model's answer on the listed transactions |
| `Insights.GenerateIgnoresModelWhenEmpty` | ai-insights/insights.ts:32-35 | with no transactions, the answer is the same for every model, so the model is not consulted |
| `Insights.GenerateInsight` | ai-insights/insights.ts:32-35 | the handler lists the whole table, newest first. It answers the fixed text when the table is empty and the model's answer on that listing otherwise |
| `Insights.AsMessage` | ai-insights/insights.ts:89-96 | a row with role `human` becomes a human message and a row with role `ai` becomes an AI message, each with the row's content. A row with any other role is dropped |
| `Insights.SessionHistory` | ai-insights/insights.ts:82-97 | the transcript is no longer than the log. Every message comes from a human or ai row of that session |
| `Insights.HistoryOfConcat` | ai-insights/insights.ts:83-87 | the transcript of a concatenated log is the concatenation of the transcripts, so log order (`created_at ASC`) is kept |
| `Insights.HistoryIgnoresOtherSessions` | ai-insights/insights.ts:85 | rows of other sessions contribute nothing to a session's transcript |
| `Insights.HistoryOfOneRow` | ai-insights/insights.ts:89-96 | a single row contributes its human or AI message when it is of that session with one of those roles, and nothing otherwise |
| `Insights.AgentInput` | ai-insights/insights.ts:103-105 | the agent receives the session transcript followed by the new human message as the last element |
| `Insights.Chat` | ai-insights/insights.ts:99-121 | a failing agent, or one that returns no message, leaves the log unchanged. Otherwise the answer is the content of the agent's last message, and the log gains exactly two rows for the session, human then AI. The existing rows are unchanged |
| `Insights.ChatExtendsHistory` | ai-insights/insights.ts:110-117 | after a successful turn, the session's transcript is the old transcript plus the human message and the AI answer |
| `Insights.ChatLeavesOtherSessions` | ai-insights/insights.ts:110-117 | a turn leaves the transcript of every other session unchanged |

## Left out

- Ledger.Del: ids are natural numbers in the model, while `del` and `update` accept any JavaScript number. A negative or fractional id matches no row, so it behaves as an absent id does here: "deleted" with no change, or "Transaction not found".
- Float-to-cents conversion (`Math.trunc(amount * 100)`) and the `/ 100` back to decimal: these are IEEE-754 arithmetic. Amounts enter and leave the model as integer cents.
- Ledger.Merge: the truthiness test is taken on the cents value. A nonzero amount below one cent is truthy in the code but truncates to 0 cents; the model cannot tell it apart from 0.
- Ledger.Add: a timestamp given as the empty string is falsy in the code and takes the column default. The model's timestamps are numbers, so only an absent timestamp takes the default.
- JavaScript `Date` behaviour: month rollover in `setDate`, and the local-time `getDay` against the UTC `toISOString`. Days are plain day numbers with a known weekday.
- SQL engine details: `RETURNING`, casts, `bigint` overflow, and the time zone in which `timestamp::date` truncates (the model truncates in UTC). Ties in `ORDER BY` are left unspecified, as in SQL.
- The "Failed to create transaction", "Failed to update transaction" and "Failed to set goal" errors: in the abstract store an insert or update always returns its row. Those errors need a database failure or a concurrent delete.
- Goals.SetGoal: a new goal's id is the next value of the id sequence. The model does not consume a sequence value on conflict, as PostgreSQL does; goal ids are only required to be fresh.
- The Gemini and LangChain clients, the prompt text, the `get_transactions` tool and the model parameters: these are foreign calls. The model and the agent are function parameters; their errors are `Err` results, and their error texts are not the libraries'.
- Message content that is not plain text (LangChain allows lists of parts): message content is a string.
- The `created_at` column: the log's sequence order stands for `created_at` order. Equal `created_at` values are not modelled.
- Startup loading of the API key (`GEMINI_API_KEY`): this is environment configuration.
- The lost-update race between `update`'s read and its write: this is concurrency, and every handler here is one atomic transition.
- The HTTP routing layer, and categories/categories.ts, which returns a constant list.
