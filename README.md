# Expense store of Undiyal, modelled in Dafny

Undiyal is a mobile expense tracker. It keeps its expenses in one SQLite
table, `expenses`, which has five columns: an `AUTOINCREMENT` integer id, a
title, a `REAL` amount, a text date and a category. The app reaches the table
through five functions in `app/database.ts`:

- `initDatabase` creates the table if it does not exist.
- `addExpense` inserts a row stamped with `new Date().toISOString()`.
- `deleteExpense` deletes by id.
- `getExpenses` lists every row, newest first.
- `getMonthlyTotal` sums the amounts of the rows in the current year and month.

This project models that table and proves what these SQL statements guarantee.

Files and modules:

- `database.dfy`, module `Database`. The class `ExpenseDb` stands for the
  module-level SQLite handle `db`. Its fields are whether the table exists,
  the rows in rowid order, and the table's `sqlite_sequence` counter. A ghost
  set records every id ever assigned. `InitDatabase`, `AddExpense` and
  `DeleteExpense` are methods that change this state. `GetExpenses` and
  `GetMonthlyTotal` are functions of it. The module also holds the pure row
  operations behind them: `ORDER BY … DESC` (`SortDescBy`), `WHERE`
  (`Filter`), `SUM` with its NULL over no rows (`SqlSum`), the `?? 0` fallback
  (`MonthlyTotal`), and the query keys `String(year)` (`YearKey`) and
  `month.toString().padStart(2, "0")` (`MonthKey`).
- `iso_time.dfy`, module `IsoTime`. It defines calendar timestamps and
  `toISOString` (`ToIsoString`). It also models SQLite's reading of that text:
  `ParseIso`, `strftime('%Y')`, `strftime('%m')` and `datetime()`.
- `collation.dfy`, module `Collation`. It defines SQLite's BINARY text order,
  which `ORDER BY` uses on the `datetime()` text.
- `decimal.dfy`, module `Decimal`. It defines zero-padded digit fields,
  `Number.prototype.toString` and `String.prototype.padStart`.
- `results.dfy`, module `Results`. It defines `Option` (SQL NULL and `??`),
  plus `Result` and `Outcome` (a promise that resolves or is rejected).

The wall clock is a parameter. `AddExpense` takes the UTC timestamp it
stamps. `GetMonthlyTotal` takes the local year and month it queries. The two
are independent inputs, as they are in the source.

In four places the code behaves differently from what a reader of the app
might expect. The model follows the code:

- **Ties in the list.** `getExpenses` sorts by `datetime(date)`, and that text
  drops the milliseconds. Two expenses added within the same second can
  therefore come back in either order (`SameSecondEitherOrder`). They are not
  strictly newest first.
- **Time zones.** The monthly query takes the local year and month but matches
  them against UTC dates. The model keeps the query's year and month as inputs
  that are separate from the insert timestamp.
- **Negative totals.** The store does not validate amounts, so a monthly total
  can be negative.
- **Years outside 1000..9999.** `String(year)` is compared with the four-digit
  `strftime('%Y')`. For such a year the total is always 0
  (`MonthlyTotalOutsideFourDigitYears`).

`ScreenSession` is a client method. Using only the contracts, it shows that a
second `initDatabase` is harmless, that an empty table lists nothing and
totals 0, that a row with an empty title and a negative amount is stored as
given, and that deleting the same id twice succeeds both times.

## Model

| member | source | states |
|---|---|---|
| `Database.ExpenseDb.Open` | app/database.ts:12 | opening a database file that has no table yet: no table, no rows, counter 0, no id issued |
| `Database.ExpenseDb.InitDatabase` | app/database.ts:15-25 | `CREATE TABLE IF NOT EXISTS`: afterwards the table exists; an existing table keeps its rows, its counter and its issued ids, so repeated calls are safe |
| `Database.ExpenseDb.AddExpense` | app/database.ts:34-45 | before `initDatabase` it fails with no such table and changes nothing; at rowid 2^63-1 it fails with `SQLITE_FULL` and changes nothing; otherwise it appends exactly one row with id counter+1 and the given title, amount and category (no validation), dated `toISOString(now)`, leaves every earlier row as it was, and the new id is greater than every id ever issued, deleted ones included |
| `Database.ExpenseDb.DeleteExpense` | app/database.ts:47-52 | fails with no such table before `initDatabase`; otherwise succeeds, whether or not the id exists, and the rows become exactly those whose id differs, with the counter unchanged |
| `Database.ExpenseDb.GetExpenses` | app/database.ts:27-32 | fails with no such table before `initDatabase`; otherwise returns a permutation of the rows sorted descending by `datetime(date)`, and the empty list for an empty table |
| `Database.ExpenseDb.GetMonthlyTotal` | app/database.ts:54-64 | fails with no such table before `initDatabase`; otherwise it is the monthly total of the rows for the given year and month |
| `Database.SortKey` | app/database.ts:29 | the sort key `datetime(date)` is NULL exactly when the stored text is no time; otherwise it is the text's date and time to the second, with a space for the `T` |
| `Database.InsertDescBy` | app/database.ts:29 | inserting a row into a list sorted by `ORDER BY key DESC` keeps it sorted and adds exactly that row |
| `Database.SortDescBy` | app/database.ts:29 | `ORDER BY key DESC` yields a permutation of its input with no key later than that of an earlier row |
| `Database.NewestFirstIsChronological` | app/database.ts:29 | in the listed order, each stored time is at or before (to the second) the time of every entry above it |
| `Database.SameSecondEitherOrder` | app/database.ts:29 | two rows stamped within the same second are correctly ordered either way round, so their relative order is unspecified |
| `Database.WithoutId` | app/database.ts:49 | `DELETE … WHERE id = ?` keeps exactly the rows whose id differs and keeps ids ascending |
| `Database.DeleteIdempotent` | app/database.ts:47-52 | deleting an id twice leaves the same rows as deleting it once |
| `Database.DeleteAbsent` | app/database.ts:47-52 | deleting an id that no row has leaves the rows unchanged |
| `Database.YearKey` | app/database.ts:55-61 | `String(year)` of a non-negative year is its digits without leading zeros; of a negative year, a minus sign followed by those of its magnitude |
| `Database.MonthKey` | app/database.ts:56-61 | `month.toString().padStart(2, "0")` is a digit string denoting the month; a one-digit month gets one leading zero, a longer month is its plain digits |
| `Database.MonthKeyTwoDigits` | app/database.ts:56-61 | for months 1..12 the key `month.toString().padStart(2, "0")` is exactly two digits ("01".."12") whose value is the month |
| `Database.YearKeyFourDigits` | app/database.ts:55-61 | `String(year)` equals the four-digit `strftime('%Y')` field of `year` for years 1000..9999 and no four-digit field otherwise |
| `Database.InMonth` | app/database.ts:57-61 | a row matches the `WHERE` clause exactly when its date reads as a time and its first four characters are the year key and characters 5 and 6 the month key |
| `Database.Filter` | app/database.ts:58-60 | a `WHERE` clause keeps exactly the rows that satisfy it, each as many times as it occurs, and no other row |
| `Database.FilterAppend` | app/database.ts:58-60 | filtering a table with one more row adds that row at the end exactly when it satisfies the clause |
| `Database.TotalAppend` | app/database.ts:58 | one more row adds its amount to the sum |
| `Database.SqlSum` | app/database.ts:58 | `SUM` is NULL exactly over no rows; falling back to 0 gives the sum of the amounts |
| `Database.MonthlyTotal` | app/database.ts:57-63 | `result?.total ?? 0` is the sum of the amounts of the matching rows, 0 when none matches |
| `Database.FilterNone` | app/database.ts:58-60 | a `WHERE` clause that no row satisfies yields no rows |
| `Database.MonthlyTotalNoMatch` | app/database.ts:57-63 | with no matching row the total is 0 (the NULL `SUM` falls back to 0) |
| `Database.MonthlyTotalAppend` | app/database.ts:57-63 | adding a row raises the monthly total by its amount exactly when its date falls in the queried year and month, and leaves it unchanged otherwise |
| `Database.InMonthIsCalendarMonth` | app/database.ts:55-61 | for a four-digit year and a month 1..12, the string comparison in the `WHERE` clause holds exactly when the stored UTC timestamp has that year and month |
| `Database.MonthlyTotalIsCalendarTotal` | app/database.ts:54-64 | for a four-digit year and a month 1..12, the monthly total equals the sum of the amounts of the rows stamped in that UTC calendar month |
| `Database.StampedRowMonth` | app/database.ts:39-61 | for a four-digit year and a month 1..12, a row dated `toISOString(now)` is counted in the total for `now`'s UTC year and month, and in that of no other such year and month |
| `Database.MonthlyTotalOutsideFourDigitYears` | app/database.ts:55-61 | for a year outside 1000..9999 no row matches and the total is 0 |
| `IsoTime.ToIsoString` | app/database.ts:39 | `toISOString` of a timestamp with a four-digit year is 24 characters long |
| `IsoTime.ParseIso` | app/database.ts:60 | SQLite reads only valid calendar times from the stored text |
| `IsoTime.IsoRoundTrip` | app/database.ts:39 | SQLite reads back exactly the timestamp that `toISOString` wrote |
| `IsoTime.IsoInverse` | app/database.ts:60 | every text that SQLite reads as a timestamp is exactly the `toISOString` form of that timestamp |
| `IsoTime.IsoTextFields` | app/database.ts:39 | in a `toISOString` text the year is characters 0-3, the month characters 5-6, and the date and time to the second are characters 0-9 and 11-18 |
| `IsoTime.StrftimeYear` | app/database.ts:60 | `strftime('%Y', date)` is NULL exactly when the text is no time; otherwise it is the year as written, the first four characters |
| `IsoTime.StrftimeMonth` | app/database.ts:60 | `strftime('%m', date)` is NULL exactly when the text is no time; otherwise it is the month as written, characters 5 and 6 |
| `IsoTime.DateTime` | app/database.ts:29 | `datetime(date)` is NULL exactly when the text is no time; otherwise it is the date and the time to the second as written, with a space for the `T` |
| `IsoTime.DateTimeTextOrder` | app/database.ts:29 | comparing `datetime()` texts as strings is comparing the times to the second |
| `IsoTime.PadOrder` | app/database.ts:29 | fixed-width digit fields compare as strings in the same order as the numbers they denote |
| `IsoTime.FieldOrder` | app/database.ts:29 | a fixed-width field decides the string order unless the two fields are equal; then the rest of the text decides |
| `Collation.LexLeTotal` | app/database.ts:29 | the BINARY text order is total |
| `Collation.LexLeTransitive` | app/database.ts:29 | the BINARY text order is transitive |
| `Collation.LexLeAntisymmetric` | app/database.ts:29 | the BINARY text order is antisymmetric |
| `Collation.LexLeConcat` | app/database.ts:29 | for prefixes of equal length, the prefixes decide the order unless they are equal; then the rest decides |
| `Decimal.Pad` | app/database.ts:39 | a zero-padded field has exactly its width in characters, and all of them are digits |
| `Decimal.ValueOfPad` | app/database.ts:39 | reading a zero-padded field gives back the number written into it |
| `Decimal.PadOfValue` | app/database.ts:60 | rewriting the value of a digit field at its width gives back the same field |
| `Decimal.ToDecimal` | app/database.ts:61 | `Number.prototype.toString` of a non-negative integer below 10^21 is a non-empty string of digits that denotes the number and has no leading zero |
| `Decimal.ToDecimalIsPad` | app/database.ts:61 | `toString` writes the number zero-padded to its own digit count, which is the least width that holds the number |
| `Decimal.PadStart` | app/database.ts:61 | `padStart` keeps the string at the end, fills the front with the fill character and yields the larger of the two lengths |

## Left out

- The `expo-sqlite` API and its promises (`openDatabaseSync`, `execAsync`, `runAsync`, `getAllAsync`, `getFirstAsync`). The table is in-memory state, and calls run one after another, as the app issues them.
- Storage failures such as a full disk, a locked file or a corrupt file. The model covers only the two ways the statements themselves fail: a missing table and exhausted rowids.
- Reading the wall clock. The insert timestamp and the query's year and month are parameters.
- Database.ExpenseDb.Open: models a file that holds no table yet. A later app launch reopens a file that already has rows; the model covers that case because every method is specified for any state that satisfies `Valid()`.
- Database.ExpenseDb.AddExpense: requires a valid timestamp with a year in 0..9999. The six-digit extended years `toISOString` writes outside that range, and the `RangeError` it throws for an invalid date, are not modelled.
- IsoTime.ParseIso: models SQLite's parsing only for the `YYYY-MM-DDThh:mm:ss.sssZ` shape that the store writes. Any other text reads as NULL, although SQLite accepts more date shapes and normalises impossible days. The table never holds such text.
- Decimal.ToDecimal: models `toString` on exact non-negative integers. JavaScript writes numbers from 10^21 up in exponent form and cannot hold integers above 2^53 exactly; the store passes only a month 1..12 and a `Date` year (at most 275760), so neither case arises.
- Ids as JavaScript numbers. `expo-sqlite` hands INTEGER ids back as doubles, so an id above 2^53 would come back rounded, and `deleteExpense` of that rounded id could miss its row. The model's ids are exact integers up to 2^63-1; reaching 2^53 would take 2^53 inserts.
- Floating point. Amounts are Dafny `real`, and `SUM` is exact addition. Neither IEEE rounding nor the NOT NULL failure of a NaN amount is modelled.
- The tie order in `getExpenses`. SQLite leaves it unspecified. The body of `SortDescBy` fixes one order for equal keys (rowid order), and a caller that unfolds `GetExpenses` could derive it; SQLite does not promise that order, so the contracts state only a permutation sorted by `datetime(date)`.
- `rows ?? []` in `getExpenses`. `getAllAsync` always returns an array, so the fallback is never taken.
- Ids given to `deleteExpense` are integers. A fractional JavaScript number would match no row, which has the same effect as an absent id.
