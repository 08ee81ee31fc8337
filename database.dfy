/** The `expenses` table behind `app/database.ts`.

    The table is held by a `ExpenseDb` object, the model of the module-level
    SQLite handle `db`: whether `CREATE TABLE` has run, its rows in rowid
    order, and the table's `AUTOINCREMENT` counter (its row in
    `sqlite_sequence`). `initDatabase`, `addExpense` and `deleteExpense`
    change that state; `getExpenses` and `getMonthlyTotal` are functions of
    it. The wall clock is a parameter: the insert timestamp in UTC, the
    query's local year and month. */
module Database {
  import opened Results
  import opened Decimal
  import opened Collation
  import opened IsoTime

  /** The largest rowid SQLite assigns; after it, `AUTOINCREMENT` inserts fail. */
  const MaxRowId: int := 0x7FFF_FFFF_FFFF_FFFF

  /** One row of the table, as `getAllAsync` hands it back. */
  datatype Expense = Expense(id: int, title: string, amount: real, date: string, category: string)

  /** Why a statement is rejected: the table was never created
      (`no such table: expenses`), or the rowids are used up (`SQLITE_FULL`). */
  datatype DbError = NoSuchTable | Full

  predicate IdsIncreasing(rows: seq<Expense>) {
    forall i, j :: 0 <= i < j < |rows| ==> rows[i].id < rows[j].id
  }

  // ---------------------------------------------------------------------
  // getExpenses: SELECT * FROM expenses ORDER BY datetime(date) DESC

  /** The sort key of a row: `datetime(date)`, NULL when the text is no time. */
  function SortKey(e: Expense): (k: Option<string>)
    ensures k.Some? <==> ParseIso(e.date).Some?
    ensures k.Some? ==> |e.date| == 24 && k.value == e.date[..10] + " " + e.date[11..19]
  {
    DateTime(e.date)
  }

  /** The ascending order of `ORDER BY` on a key: NULL first, then text by BINARY collation. */
  predicate KeyLe(a: Option<string>, b: Option<string>) {
    match (a, b)
    case (None, _) => true
    case (Some(_), None) => false
    case (Some(x), Some(y)) => LexLe(x, y)
  }

  lemma KeyLeTotal(a: Option<string>, b: Option<string>)
    ensures KeyLe(a, b) || KeyLe(b, a)
  {
    if a.Some? && b.Some? {
      LexLeTotal(a.value, b.value);
    }
  }

  lemma KeyLeTransitive(a: Option<string>, b: Option<string>, c: Option<string>)
    requires KeyLe(a, b) && KeyLe(b, c)
    ensures KeyLe(a, c)
  {
    if a.Some? && b.Some? && c.Some? {
      LexLeTransitive(a.value, b.value, c.value);
    }
  }

  /** `ORDER BY key DESC`: no row has a later key than a row before it. */
  predicate SortedDescBy(rows: seq<Expense>, key: Expense -> Option<string>) {
    forall i, j :: 0 <= i < j < |rows| ==> KeyLe(key(rows[j]), key(rows[i]))
  }

  /** Puts `e` in front of the first row whose key is not later than its own. */
  function InsertDescBy(e: Expense, rows: seq<Expense>, key: Expense -> Option<string>): (r: seq<Expense>)
    requires SortedDescBy(rows, key)
    ensures SortedDescBy(r, key)
    ensures multiset(r) == multiset(rows) + multiset{e}
  {
    if rows == [] then [e]
    else if KeyLe(key(rows[0]), key(e)) then
      assert forall j :: 0 <= j < |rows| ==> KeyLe(key(rows[j]), key(e)) by {
        forall j | 0 <= j < |rows| ensures KeyLe(key(rows[j]), key(e)) {
          if j > 0 {
            KeyLeTransitive(key(rows[j]), key(rows[0]), key(e));
          }
        }
      }
      [e] + rows
    else
      var rest := InsertDescBy(e, rows[1..], key);
      assert forall x :: x in multiset(rest) ==> KeyLe(key(x), key(rows[0])) by {
        forall x | x in multiset(rest) ensures KeyLe(key(x), key(rows[0])) {
          if x == e {
            KeyLeTotal(key(e), key(rows[0]));
          } else {
            assert x in rows[1..];
          }
        }
      }
      assert rows == [rows[0]] + rows[1..];
      [rows[0]] + rest
  }

  /** The rows reordered by `ORDER BY key DESC`. */
  function SortDescBy(rows: seq<Expense>, key: Expense -> Option<string>): (r: seq<Expense>)
    ensures SortedDescBy(r, key)
    ensures multiset(r) == multiset(rows)
  {
    if rows == [] then []
    else
      assert rows == [rows[0]] + rows[1..];
      InsertDescBy(rows[0], SortDescBy(rows[1..], key), key)
  }

  /** Descending by `datetime(date)`. */
  predicate NewestFirst(rows: seq<Expense>) {
    SortedDescBy(rows, SortKey)
  }

  /** In a list sorted newest first, a later entry is no later in time, to the second. */
  lemma NewestFirstIsChronological(rows: seq<Expense>, i: int, j: int)
    requires NewestFirst(rows) && 0 <= i < j < |rows|
    requires ParseIso(rows[i].date).Some? && ParseIso(rows[j].date).Some?
    ensures SameOrEarlierSecond(ParseIso(rows[j].date).value, ParseIso(rows[i].date).value)
  {
    DateTimeTextOrder(ParseIso(rows[j].date).value, ParseIso(rows[i].date).value);
  }

  /** Two rows stamped within the same second may be listed in either order. */
  lemma SameSecondEitherOrder(a: Expense, b: Expense)
    requires ParseIso(a.date).Some? && ParseIso(b.date).Some?
    requires SameOrEarlierSecond(ParseIso(a.date).value, ParseIso(b.date).value)
    requires SameOrEarlierSecond(ParseIso(b.date).value, ParseIso(a.date).value)
    ensures NewestFirst([a, b]) && NewestFirst([b, a])
  {
    DateTimeTextOrder(ParseIso(a.date).value, ParseIso(b.date).value);
    DateTimeTextOrder(ParseIso(b.date).value, ParseIso(a.date).value);
  }

  // ---------------------------------------------------------------------
  // deleteExpense: DELETE FROM expenses WHERE id = ?

  /** The rows whose id is not `id`, in their order. */
  function WithoutId(rows: seq<Expense>, id: int): (r: seq<Expense>)
    ensures forall e :: e in r <==> e in rows && e.id != id
    ensures IdsIncreasing(rows) ==> IdsIncreasing(r)
  {
    if rows == [] then []
    else
      assert rows == [rows[0]] + rows[1..];
      var rest := WithoutId(rows[1..], id);
      if rows[0].id == id then rest else [rows[0]] + rest
  }

  /** Deleting an id twice leaves the table as deleting it once. */
  lemma {:induction false} DeleteIdempotent(rows: seq<Expense>, id: int)
    ensures WithoutId(WithoutId(rows, id), id) == WithoutId(rows, id)
  {
    if rows != [] {
      DeleteIdempotent(rows[1..], id);
      if rows[0].id != id {
        var once := WithoutId(rows, id);
        assert once == [rows[0]] + WithoutId(rows[1..], id);
        assert once[1..] == WithoutId(rows[1..], id);
      }
    }
  }

  /** Deleting an id no row has changes nothing. */
  lemma {:induction false} DeleteAbsent(rows: seq<Expense>, id: int)
    requires forall e :: e in rows ==> e.id != id
    ensures WithoutId(rows, id) == rows
  {
    if rows != [] {
      DeleteAbsent(rows[1..], id);
      assert rows == [rows[0]] + rows[1..];
    }
  }

  // ---------------------------------------------------------------------
  // getMonthlyTotal:
  //   SELECT SUM(amount) AS total FROM expenses
  //   WHERE strftime('%Y', date) = ? AND strftime('%m', date) = ?
  //   with the parameters String(year) and month.toString().padStart(2, "0")

  /** `String(year)` for an integer year. */
  function YearKey(year: int): (r: string)
    ensures year >= 0 ==> |r| >= 1 && AllDigits(r) && Value(r) == year && (|r| == 1 || r[0] != '0')
    ensures year < 0 ==>
      && |r| >= 2 && r[0] == '-' && AllDigits(r[1..]) && Value(r[1..]) == -year
      && (|r| == 2 || r[1] != '0')
  {
    if year < 0 then
      var digits := ToDecimal(-year);
      assert ("-" + digits)[1..] == digits;
      "-" + digits
    else ToDecimal(year)
  }

  /** `month.toString().padStart(2, "0")`. */
  function MonthKey(month: nat): (r: string)
    ensures AllDigits(r) && Value(r) == month
    ensures month < 10 ==> |r| == 2 && r[0] == '0'
    ensures month >= 10 ==> r == ToDecimal(month)
  {
    var digits := ToDecimal(month);
    if month < 10 then
      assert digits == [DigitChar(month)];
      var r := PadStart(digits, 2, '0');
      assert r == ['0', DigitChar(month)] && r[..1] == ['0'];
      r
    else
      PadStart(digits, 2, '0')
  }

  /** For every month of the year the key is its two-digit number, "01" to "12". */
  lemma MonthKeyTwoDigits(month: nat)
    requires 1 <= month <= 12
    ensures |MonthKey(month)| == 2 && AllDigits(MonthKey(month)) && Value(MonthKey(month)) == month
    ensures MonthKey(month) == Pad(month, 2)
  {
    ToDecimalIsPad(month);
    var k := |ToDecimal(month)|;
    if k == 1 {
      assert ToDecimal(month) == [DigitChar(month)];
      assert Pad(month, 2) == Pad(0, 1) + [DigitChar(month)];
    }
    ValueOfPad(month, 2);
  }

  /** A four-digit year is its own key; any other year's key is no four-digit text. */
  lemma YearKeyFourDigits(year: int)
    ensures 1000 <= year <= 9999 ==> YearKey(year) == Pad(year, 4)
    ensures (year < 1000 || year > 9999) ==> forall y: nat :: YearKey(year) != Pad(y, 4)
  {
    assert Pow10(3) == 1000 && Pow10(4) == 10000;
    if year >= 0 {
      ToDecimalIsPad(year);
      ToDecimalWidth(year, 4);
    } else {
      forall y: nat ensures YearKey(year) != Pad(y, 4) {
        assert YearKey(year)[0] == '-';
        assert IsDigit(Pad(y, 4)[0]);
      }
    }
  }

  /** The WHERE clause of `getMonthlyTotal` for one row. */
  function InMonth(e: Expense, year: int, month: nat): (b: bool)
    ensures b <==> && ParseIso(e.date).Some? && |e.date| == 24
                   && e.date[..4] == YearKey(year) && e.date[5..7] == MonthKey(month)
  {
    StrftimeYear(e.date) == Some(YearKey(year)) && StrftimeMonth(e.date) == Some(MonthKey(month))
  }

  /** The rows a WHERE clause keeps, in their order. */
  function Filter(rows: seq<Expense>, keep: Expense -> bool): (r: seq<Expense>)
    ensures forall e :: e in r <==> e in rows && keep(e)
    ensures forall e :: multiset(r)[e] == if keep(e) then multiset(rows)[e] else 0
  {
    if rows == [] then []
    else
      var init, last := rows[..|rows| - 1], rows[|rows| - 1];
      assert rows == init + [last];
      assert multiset(rows) == multiset(init) + multiset{last};
      var kept := Filter(init, keep);
      if keep(last) then
        assert multiset(kept + [last]) == multiset(kept) + multiset{last};
        kept + [last]
      else kept
  }

  lemma FilterNone(rows: seq<Expense>, keep: Expense -> bool)
    requires forall e :: e in rows ==> !keep(e)
    ensures Filter(rows, keep) == []
  {
  }

  function MatchingRows(rows: seq<Expense>, year: int, month: nat): seq<Expense> {
    Filter(rows, e => InMonth(e, year, month))
  }

  function Total(rows: seq<Expense>): real {
    if rows == [] then 0.0 else Total(rows[..|rows| - 1]) + rows[|rows| - 1].amount
  }

  /** SQL `SUM(amount)`: NULL over no rows. */
  function SqlSum(rows: seq<Expense>): (r: Option<real>)
    ensures r.None? <==> rows == []
    ensures r.GetOr(0.0) == Total(rows)
  {
    if rows == [] then None else Some(Total(rows))
  }

  /** `result?.total ?? 0`. */
  function MonthlyTotal(rows: seq<Expense>, year: int, month: nat): (r: real)
    ensures r == Total(MatchingRows(rows, year, month))
  {
    SqlSum(MatchingRows(rows, year, month)).GetOr(0.0)
  }

  /** With no matching row the total is 0, not NULL. */
  lemma MonthlyTotalNoMatch(rows: seq<Expense>, year: int, month: nat)
    requires forall e :: e in rows ==> !InMonth(e, year, month)
    ensures MonthlyTotal(rows, year, month) == 0.0
  {
  }

  lemma FilterAppend(rows: seq<Expense>, e: Expense, keep: Expense -> bool)
    ensures Filter(rows + [e], keep) == if keep(e) then Filter(rows, keep) + [e] else Filter(rows, keep)
  {
  }

  lemma TotalAppend(rows: seq<Expense>, e: Expense)
    ensures Total(rows + [e]) == Total(rows) + e.amount
  {
  }

  /** A row added to the table raises the total by its amount exactly when it matches. */
  lemma MonthlyTotalAppend(rows: seq<Expense>, e: Expense, year: int, month: nat)
    ensures MonthlyTotal(rows + [e], year, month)
         == MonthlyTotal(rows, year, month) + (if InMonth(e, year, month) then e.amount else 0.0)
  {
    FilterAppend(rows, e, x => InMonth(x, year, month));
    TotalAppend(MatchingRows(rows, year, month), e);
  }

  /** The month a row belongs to by its UTC timestamp. */
  predicate InCalendarMonth(e: Expense, year: int, month: int) {
    ParseIso(e.date).Some? && ParseIso(e.date).value.year == year && ParseIso(e.date).value.month == month
  }

  /** For a four-digit year and a month 1..12, the text comparison of the
      WHERE clause is the calendar comparison of the stored UTC time. */
  lemma InMonthIsCalendarMonth(e: Expense, year: int, month: nat)
    requires 1000 <= year <= 9999 && 1 <= month <= 12
    ensures InMonth(e, year, month) <==> InCalendarMonth(e, year, month)
  {
    YearKeyFourDigits(year);
    MonthKeyTwoDigits(month);
    assert Pow10(2) == 100 && Pow10(4) == 10000;
    if ParseIso(e.date).Some? {
      var t := ParseIso(e.date).value;
      PadInjective(t.year, year, 4);
      PadInjective(t.month, month, 2);
    }
  }

  /** Reference definition of the monthly total: the amounts of the rows
      stamped in that UTC calendar month, added up. */
  function CalendarMonthTotal(rows: seq<Expense>, year: int, month: int): real {
    if rows == [] then 0.0
    else
      var last := rows[|rows| - 1];
      CalendarMonthTotal(rows[..|rows| - 1], year, month)
        + (if InCalendarMonth(last, year, month) then last.amount else 0.0)
  }

  /** `getMonthlyTotal` adds up exactly the rows of the queried calendar month. */
  lemma {:induction false} MonthlyTotalIsCalendarTotal(rows: seq<Expense>, year: int, month: nat)
    requires 1000 <= year <= 9999 && 1 <= month <= 12
    ensures MonthlyTotal(rows, year, month) == CalendarMonthTotal(rows, year, month)
  {
    if rows == [] {
      assert MatchingRows(rows, year, month) == [];
    } else {
      var init, last := rows[..|rows| - 1], rows[|rows| - 1];
      assert rows == init + [last];
      MonthlyTotalIsCalendarTotal(init, year, month);
      MonthlyTotalAppend(init, last, year, month);
      InMonthIsCalendarMonth(last, year, month);
    }
  }

  /** A row stamped `now` falls in the monthly total of `now`'s UTC year and
      month, and in that of no other four-digit year and month. */
  lemma StampedRowMonth(e: Expense, now: Timestamp, year: int, month: nat)
    requires IsoTime.Valid(now) && e.date == ToIsoString(now)
    requires 1000 <= year <= 9999 && 1 <= month <= 12
    ensures InMonth(e, year, month) <==> year == now.year && month == now.month
  {
    IsoRoundTrip(now);
    InMonthIsCalendarMonth(e, year, month);
  }

  /** A year whose `String` form is not four digits matches no row. */
  lemma MonthlyTotalOutsideFourDigitYears(rows: seq<Expense>, year: int, month: nat)
    requires year < 1000 || year > 9999
    ensures MonthlyTotal(rows, year, month) == 0.0
  {
    YearKeyFourDigits(year);
    forall e | e in rows ensures !InMonth(e, year, month) {
      if ParseIso(e.date).Some? {
        assert StrftimeYear(e.date) == Some(Pad(ParseIso(e.date).value.year, 4));
      }
    }
    MonthlyTotalNoMatch(rows, year, month);
  }

  // ---------------------------------------------------------------------
  // The database handle

  class ExpenseDb {
    /** Whether `CREATE TABLE expenses` has run. */
    var hasTable: bool
    /** The rows, in rowid order. */
    var rows: seq<Expense>
    /** The table's entry in `sqlite_sequence`: the largest id ever assigned, 0 before any. */
    var lastId: int
    /** Every id ever assigned, including those of deleted rows. */
    ghost var issued: set<int>

    ghost predicate Valid()
      reads this
    {
      && 0 <= lastId <= MaxRowId
      && (!hasTable ==> rows == [] && lastId == 0 && issued == {})
      && (forall x :: x in issued ==> 1 <= x <= lastId)
      && (lastId > 0 ==> lastId in issued)
      && (forall e :: e in rows ==> e.id in issued && ParseIso(e.date).Some?)
      && IdsIncreasing(rows)
    }

    /** `SQLite.openDatabaseSync("undiyal.db")` on a device where the file holds no table yet. */
    constructor Open()
      ensures Valid() && !hasTable && rows == [] && lastId == 0 && issued == {}
    {
      hasTable := false;
      rows := [];
      lastId := 0;
      issued := {};
    }

    /** `initDatabase`: `CREATE TABLE IF NOT EXISTS`, so an existing table keeps its rows and counter. */
    method InitDatabase()
      requires Valid()
      modifies this
      ensures Valid() && hasTable
      ensures rows == old(rows) && lastId == old(lastId) && issued == old(issued)
    {
      hasTable := true;
    }

    /** `addExpense`: inserts one row stamped `now`, with a fresh id, and no check on its values. */
    method AddExpense(title: string, amount: real, category: string, now: Timestamp)
      returns (outcome: Outcome<DbError>)
      requires Valid() && IsoTime.Valid(now)
      modifies this
      ensures Valid() && hasTable == old(hasTable)
      ensures !old(hasTable) ==> outcome == Fail(NoSuchTable) && unchanged(this)
      ensures old(hasTable) && old(lastId) == MaxRowId ==> outcome == Fail(Full) && unchanged(this)
      ensures old(hasTable) && old(lastId) < MaxRowId ==>
        && outcome == Pass
        && lastId == old(lastId) + 1
        && rows == old(rows) + [Expense(lastId, title, amount, ToIsoString(now), category)]
        && issued == old(issued) + {lastId}
        && (forall x :: x in old(issued) ==> x < lastId)
    {
      if !hasTable {
        return Fail(NoSuchTable);
      }
      if lastId == MaxRowId {
        return Fail(Full);
      }
      var id := lastId + 1;
      var date := ToIsoString(now);
      IsoRoundTrip(now);
      rows := rows + [Expense(id, title, amount, date, category)];
      lastId := id;
      issued := issued + {id};
      outcome := Pass;
    }

    /** `deleteExpense`: removes the row with that id, if there is one; the counter stays. */
    method DeleteExpense(id: int) returns (outcome: Outcome<DbError>)
      requires Valid()
      modifies this
      ensures Valid() && hasTable == old(hasTable)
      ensures !old(hasTable) ==> outcome == Fail(NoSuchTable) && unchanged(this)
      ensures old(hasTable) ==>
        && outcome == Pass
        && rows == WithoutId(old(rows), id)
        && lastId == old(lastId) && issued == old(issued)
    {
      if !hasTable {
        return Fail(NoSuchTable);
      }
      var kept := WithoutId(rows, id);
      rows := kept;
      outcome := Pass;
    }

    /** `getExpenses`: every row, newest first. */
    function GetExpenses(): (r: Result<seq<Expense>, DbError>)
      reads this
      ensures r.Failure? <==> !hasTable
      ensures r.Failure? ==> r.error == NoSuchTable
      ensures r.Success? ==> NewestFirst(r.value) && multiset(r.value) == multiset(rows)
      ensures hasTable && rows == [] ==> r == Success([])
    {
      if hasTable then Success(SortDescBy(rows, SortKey)) else Failure(NoSuchTable)
    }

    /** `getMonthlyTotal` for the local `year` and `month` (1..12) read from the clock. */
    function GetMonthlyTotal(year: int, month: nat): (r: Result<real, DbError>)
      reads this
      ensures r.Failure? <==> !hasTable
      ensures r.Failure? ==> r.error == NoSuchTable
      ensures r.Success? ==> r.value == MonthlyTotal(rows, year, month)
    {
      if hasTable then Success(MonthlyTotal(rows, year, month)) else Failure(NoSuchTable)
    }
  }

  /** What the home screen can rely on, from the contracts alone: a second
      `initDatabase` is harmless, an empty table lists nothing and totals 0,
      an insert is stored without validation, and a delete may be repeated. */
  method ScreenSession(now: Timestamp, year: int, month: nat)
    requires IsoTime.Valid(now)
  {
    var db := new ExpenseDb.Open();
    var list := db.GetExpenses();
    assert list == Failure(NoSuchTable);
    db.InitDatabase();
    db.InitDatabase();
    list := db.GetExpenses();
    assert list == Success([]);
    var total := db.GetMonthlyTotal(year, month);
    assert total == Success(0.0);

    var added := db.AddExpense("", -5.0, "", now);
    assert added == Pass && db.lastId == 1;
    var row := Expense(1, "", -5.0, ToIsoString(now), "");
    list := db.GetExpenses();
    assert list.Success? && multiset(list.value) == multiset{row};

    var removed := db.DeleteExpense(1);
    removed := db.DeleteExpense(1);
    assert removed == Pass;
    list := db.GetExpenses();
    assert list == Success([]);
  }
}
