/**
 * Reconciliation of employee-exit rosters.
 *
 * A baseline roster and several new rosters are read; for every row the birth
 * month ("YYYY年MM月") and the age are derived from the 18-character resident
 * identity number; the new rows whose ID is not in the baseline are kept; the
 * output is grouped by a company priority list (baseline rows first, then the
 * new rows of that company), renumbered 1..n, and highlighted: red font for
 * the newly added rows, green fill for rows whose derived fields are empty.
 * A second operation re-derives the two columns of a single roster.
 *
 * The desktop and the web front end carry the same logic; this module models
 * it once. Reading and writing workbooks, the clock and the user interface
 * are outside the model: tables come in as sequences of rows and `today` is
 * a parameter.
 */
module Reconcile {

  // ---------------------------------------------------------------------
  // Wrappers and errors
  // ---------------------------------------------------------------------

  datatype Option<+T> = None | Some(value: T)

  datatype Result<+T, +E> = Success(value: T) | Failure(error: E)

  /** Why a run stops before any workbook is written. */
  datatype Error =
    | InvalidBirthdate  // an 18-character ID whose birth-date code is not a date
    | NoNewFiles        // the list of new rosters is empty: nothing to concatenate

  // ---------------------------------------------------------------------
  // Records
  // ---------------------------------------------------------------------

  /** The identity-number cell, read as text; a blank cell is `Missing`. */
  datatype Id = Text(s: string) | Missing

  /** The age column: empty, or a whole number of years. */
  datatype AgeCell = Blank | Years(n: int)

  /**
   * One roster row: the serial column, the identity number, the company,
   * the two derived columns (birth month and age) and every other column,
   * which the logic never inspects.
   */
  datatype Row = Row(serial: int, id: Id, company: string,
                     birthMonth: string, age: AgeCell, other: seq<string>)

  /** A calendar date as year, month and day numbers (not necessarily valid). */
  datatype Date = Date(year: nat, month: nat, day: nat)

  // ---------------------------------------------------------------------
  // Decimal digits
  // ---------------------------------------------------------------------

  predicate IsAsciiDigit(c: char) {
    '0' <= c <= '9'
  }

  predicate IsAsciiDigits(s: string) {
    forall i :: 0 <= i < |s| ==> IsAsciiDigit(s[i])
  }

  function DigitValue(c: char): nat
    requires IsAsciiDigit(c)
  {
    (c as int) - ('0' as int)
  }

  function DigitChar(d: nat): char
    requires d < 10
  {
    (('0' as int) + d) as char
  }

  /** The number a string of ASCII digits denotes. */
  function DecimalValue(s: string): nat
    requires IsAsciiDigits(s)
    decreases |s|
  {
    if s == [] then 0 else DecimalValue(s[..|s| - 1]) * 10 + DigitValue(s[|s| - 1])
  }

  /** Python's `int(text)`, restricted to plain ASCII digits: anything else raises. */
  function ParseInt(s: string): Option<nat> {
    if s != [] && IsAsciiDigits(s) then Some(DecimalValue(s)) else None
  }

  /** The last `width` decimal digits of `n`, zero-padded (`%0<width>d` for small `n`). */
  function PadDecimal(n: nat, width: nat): (r: string)
    ensures |r| == width && IsAsciiDigits(r)
  {
    if width == 0 then "" else PadDecimal(n / 10, width - 1) + [DigitChar(n % 10)]
  }

  /** Printing the value of a digit string back at its own width gives the string. */
  lemma {:induction false} PadDecimalOfDigits(s: string)
    requires IsAsciiDigits(s)
    ensures PadDecimal(DecimalValue(s), |s|) == s
  {
    if s != [] {
      var prefix, last := s[..|s| - 1], s[|s| - 1];
      PadDecimalOfDigits(prefix);
      var v := DecimalValue(s);
      assert v / 10 == DecimalValue(prefix) && v % 10 == DigitValue(last);
      assert DigitChar(DigitValue(last)) == last;
      assert s == prefix + [last];
    }
  }

  // ---------------------------------------------------------------------
  // Dates (proleptic Gregorian, as Python's datetime accepts them)
  // ---------------------------------------------------------------------

  predicate IsLeapYear(y: int) {
    y % 4 == 0 && (y % 100 != 0 || y % 400 == 0)
  }

  function DaysInMonth(y: int, m: int): nat
    requires 1 <= m <= 12
  {
    if m == 2 then (if IsLeapYear(y) then 29 else 28)
    else if m == 4 || m == 6 || m == 9 || m == 11 then 30
    else 31
  }

  /** The dates `datetime(year, month, day)` accepts: years 1..9999. */
  predicate IsValidDate(d: Date) {
    1 <= d.year <= 9999 && 1 <= d.month <= 12 && 1 <= d.day <= DaysInMonth(d.year, d.month)
  }

  // ---------------------------------------------------------------------
  // Birth date from the identity number
  // ---------------------------------------------------------------------

  /** The only IDs the extraction looks into: text of exactly 18 characters. */
  predicate HasIdLength(id: Id) {
    id.Text? && |id.s| == 18
  }

  /** The birth-date code (characters 6..13) is made of ASCII digits. */
  predicate HasDateDigits(s: string)
    requires |s| == 18
  {
    IsAsciiDigits(s[6..10]) && IsAsciiDigits(s[10..12]) && IsAsciiDigits(s[12..14])
  }

  /** The date the birth-date code spells, valid or not. */
  function DateCode(s: string): Date
    requires |s| == 18 && HasDateDigits(s)
  {
    Date(DecimalValue(s[6..10]), DecimalValue(s[10..12]), DecimalValue(s[12..14]))
  }

  /**
   * `extract_birthdate_from_id`: no birth date for anything that is not an
   * 18-character string; otherwise the year, month and day at offsets 6, 10
   * and 12, which must parse and form a valid date, or the run fails. The
   * check character is never examined.
   */
  function ExtractBirthdate(id: Id): Result<Option<Date>, Error> {
    if !HasIdLength(id) then Success(None)
    else
      var year := ParseInt(id.s[6..10]);
      var month := ParseInt(id.s[10..12]);
      var day := ParseInt(id.s[12..14]);
      if year.None? || month.None? || day.None? then Failure(InvalidBirthdate)
      else
        var d := Date(year.value, month.value, day.value);
        if IsValidDate(d) then Success(Some(d)) else Failure(InvalidBirthdate)
  }

  /** `strftime('%Y年%m月')`, with the year printed on four digits. */
  function BirthMonthText(d: Date): (r: string)
    ensures |r| == 8
    ensures IsAsciiDigits(r[..4]) && r[4] == '年' && IsAsciiDigits(r[5..7]) && r[7] == '月'
    ensures r[..4] == PadDecimal(d.year, 4) && r[5..7] == PadDecimal(d.month, 2)
  {
    PadDecimal(d.year, 4) + "年" + PadDecimal(d.month, 2) + "月"
  }

  lemma ExtractWithoutIdLength(id: Id)
    requires !HasIdLength(id)
    ensures ExtractBirthdate(id) == Success(None)
  {
  }

  /** The extraction fails exactly on 18-character IDs whose code is not a date. */
  lemma ExtractFailsIff(id: Id)
    ensures ExtractBirthdate(id).Failure? <==>
      HasIdLength(id) && !(HasDateDigits(id.s) && IsValidDate(DateCode(id.s)))
    ensures ExtractBirthdate(id).Failure? ==> ExtractBirthdate(id).error == InvalidBirthdate
  {
  }

  /**
   * Round trip: an 18-character ID whose code spells a valid date yields that
   * date, and the birth-month column prints back the year and month substrings.
   */
  lemma ExtractRoundTrip(s: string)
    requires |s| == 18 && HasDateDigits(s) && IsValidDate(DateCode(s))
    ensures ExtractBirthdate(Text(s)) == Success(Some(DateCode(s)))
    ensures BirthMonthText(DateCode(s)) == s[6..10] + "年" + s[10..12] + "月"
  {
    PadDecimalOfDigits(s[6..10]);
    PadDecimalOfDigits(s[10..12]);
  }

  /** Conversely, every extracted date is valid and comes from the ID's code. */
  lemma ExtractSound(id: Id, d: Date)
    requires ExtractBirthdate(id) == Success(Some(d))
    ensures HasIdLength(id) && HasDateDigits(id.s) && d == DateCode(id.s) && IsValidDate(d)
    ensures PadDecimal(d.year, 4) == id.s[6..10] && PadDecimal(d.month, 2) == id.s[10..12]
    ensures PadDecimal(d.day, 2) == id.s[12..14]
  {
    PadDecimalOfDigits(id.s[6..10]);
    PadDecimalOfDigits(id.s[10..12]);
    PadDecimalOfDigits(id.s[12..14]);
  }

  // ---------------------------------------------------------------------
  // Age
  // ---------------------------------------------------------------------

  /** `(a.month, a.day) < (b.month, b.day)` as Python compares tuples. */
  predicate MonthDayBefore(a: Date, b: Date) {
    a.month < b.month || (a.month == b.month && a.day < b.day)
  }

  /** `(a.year, a.month, a.day) <= (b.year, b.month, b.day)`. */
  predicate OnOrBefore(a: Date, b: Date) {
    a.year < b.year || (a.year == b.year && !MonthDayBefore(b, a))
  }

  /** `calculate_age`, with the clock's date passed in as `today`. */
  function Age(birth: Date, today: Date): int {
    today.year - birth.year - (if MonthDayBefore(today, birth) then 1 else 0)
  }

  /** By `today`, the `k`-th anniversary of `birth` has been reached. */
  predicate AnniversaryReached(birth: Date, k: int, today: Date) {
    var year := birth.year + k;
    year < today.year || (year == today.year && !MonthDayBefore(today, birth))
  }

  /** The age is the number of completed years: the last anniversary reached. */
  lemma AgeIsCompletedYears(birth: Date, today: Date, k: int)
    ensures AnniversaryReached(birth, Age(birth, today), today)
    ensures !AnniversaryReached(birth, Age(birth, today) + 1, today)
    ensures AnniversaryReached(birth, k, today) && !AnniversaryReached(birth, k + 1, today)
            ==> k == Age(birth, today)
  {
  }

  lemma AgeOnBirthday(birth: Date)
    ensures Age(birth, birth) == 0
  {
  }

  lemma AgeOneYearLater(birth: Date, today: Date)
    ensures Age(birth, today.(year := today.year + 1)) == Age(birth, today) + 1
  {
  }

  lemma AgeMonotone(birth: Date, earlier: Date, later: Date)
    requires OnOrBefore(earlier, later)
    ensures Age(birth, earlier) <= Age(birth, later)
  {
  }

  /** No guard: a birth date after `today` gives a negative age. */
  lemma AgeSign(birth: Date, today: Date)
    ensures OnOrBefore(birth, today) <==> Age(birth, today) >= 0
  {
  }

  // ---------------------------------------------------------------------
  // Derived columns
  // ---------------------------------------------------------------------

  /** The birth-month cell: the formatted date, or "" when there is none. */
  function BirthColumn(birth: Option<Date>): string {
    match birth
    case None => ""
    case Some(d) => BirthMonthText(d)
  }

  /** The age cell: the age on `today`, or blank when there is no birth date. */
  function AgeColumn(birth: Option<Date>, today: Date): AgeCell {
    match birth
    case None => Blank
    case Some(d) => Years(Age(d, today))
  }

  /** Both derived cells of one row, or the failure that aborts the run. */
  function DeriveRow(row: Row, today: Date): Result<Row, Error> {
    match ExtractBirthdate(row.id)
    case Failure(e) => Failure(e)
    case Success(birth) => Success(row.(birthMonth := BirthColumn(birth), age := AgeColumn(birth, today)))
  }

  /** The derived cells of `row` hold what its ID gives on `today`. */
  predicate IsDerived(row: Row, today: Date) {
    var birth := ExtractBirthdate(row.id);
    birth.Success? && row.birthMonth == BirthColumn(birth.value) && row.age == AgeColumn(birth.value, today)
  }

  /** A row whose ID is not an 18-character string gets two empty derived cells and nothing else changes. */
  lemma DeriveWithoutIdLength(row: Row, today: Date)
    requires !HasIdLength(row.id)
    ensures DeriveRow(row, today) == Success(row.(birthMonth := "", age := Blank))
  {
  }

  /** Two rows agree on every column but the two derived ones. */
  predicate SameRecord(a: Row, b: Row) {
    a.serial == b.serial && a.id == b.id && a.company == b.company && a.other == b.other
  }

  /** Some row's 18-character ID does not spell a date. */
  predicate HasBadBirthdate(rows: seq<Row>) {
    exists i :: 0 <= i < |rows| && ExtractBirthdate(rows[i].id).Failure?
  }

  /**
   * Assigning both derived columns of a table: the run fails iff some row's
   * ID fails the extraction; otherwise the same rows in the same order, with
   * only the two derived cells (re)assigned.
   */
  function DerivedColumns(rows: seq<Row>, today: Date): Result<seq<Row>, Error> {
    if rows == [] then Success([])
    else
      match DeriveRow(rows[0], today)
      case Failure(e) => Failure(e)
      case Success(first) =>
        match DerivedColumns(rows[1..], today)
        case Failure(e) => Failure(e)
        case Success(rest) => Success([first] + rest)
  }

  /** What assigning the derived columns means, row by row. */
  lemma DerivedColumnsSpec(rows: seq<Row>, today: Date)
    ensures DerivedColumns(rows, today).Failure? <==> HasBadBirthdate(rows)
    ensures DerivedColumns(rows, today).Failure? ==> DerivedColumns(rows, today).error == InvalidBirthdate
    ensures DerivedColumns(rows, today).Success? ==> |DerivedColumns(rows, today).value| == |rows|
    ensures DerivedColumns(rows, today).Success? ==>
      forall i :: 0 <= i < |rows| ==>
        SameRecord(DerivedColumns(rows, today).value[i], rows[i]) && IsDerived(DerivedColumns(rows, today).value[i], today)
  {
    DerivedColumnsFails(rows, today);
    DerivedColumnsError(rows, today);
    DerivedColumnsRows(rows, today);
  }

  /** The derivation fails exactly when some row's ID fails extraction. */
  lemma {:induction false} DerivedColumnsFails(rows: seq<Row>, today: Date)
    ensures DerivedColumns(rows, today).Failure? <==> HasBadBirthdate(rows)
  {
    if rows != [] {
      var rest := rows[1..];
      DerivedColumnsFails(rest, today);
      if HasBadBirthdate(rows) && DeriveRow(rows[0], today).Success? {
        var i :| 0 <= i < |rows| && ExtractBirthdate(rows[i].id).Failure?;
        assert i > 0 && rows[i] == rest[i - 1];
        assert HasBadBirthdate(rest);
      }
      if HasBadBirthdate(rest) {
        var i :| 0 <= i < |rest| && ExtractBirthdate(rest[i].id).Failure?;
        assert rest[i] == rows[i + 1];
      }
    }
  }

  /** A successful derivation keeps every row, in order, reassigning only its derived cells. */
  lemma {:induction false} DerivedColumnsRows(rows: seq<Row>, today: Date)
    ensures DerivedColumns(rows, today).Success? ==> |DerivedColumns(rows, today).value| == |rows|
    ensures DerivedColumns(rows, today).Success? ==>
      forall i :: 0 <= i < |rows| ==>
        SameRecord(DerivedColumns(rows, today).value[i], rows[i]) && IsDerived(DerivedColumns(rows, today).value[i], today)
  {
    if rows != [] && DerivedColumns(rows, today).Success? {
      var rest := rows[1..];
      DerivedColumnsRows(rest, today);
      var first := DeriveRow(rows[0], today).value;
      var tail := DerivedColumns(rest, today).value;
      var derived := DerivedColumns(rows, today).value;
      assert derived == [first] + tail;
      forall i | 0 <= i < |rows|
        ensures SameRecord(derived[i], rows[i]) && IsDerived(derived[i], today)
      {
        if i > 0 {
          assert derived[i] == tail[i - 1] && rows[i] == rest[i - 1];
        }
      }
    }
  }

  /** The only way a derivation fails is a bad birth date. */
  lemma {:induction false} DerivedColumnsError(rows: seq<Row>, today: Date)
    ensures DerivedColumns(rows, today).Failure? ==> DerivedColumns(rows, today).error == InvalidBirthdate
  {
    if rows != [] {
      DerivedColumnsError(rows[1..], today);
    }
  }

  /** Appending tables and deriving their columns commute; any failure aborts. */
  lemma {:induction false} DerivedColumnsAppend(a: seq<Row>, b: seq<Row>, today: Date)
    ensures DerivedColumns(a + b, today) ==
      if DerivedColumns(a, today).Success? && DerivedColumns(b, today).Success?
      then Success(DerivedColumns(a, today).value + DerivedColumns(b, today).value)
      else Failure(InvalidBirthdate)
  {
    DerivedColumnsSpec(a + b, today);
    if a == [] {
      assert a + b == b;
      if DerivedColumns(b, today).Success? {
        assert [] + DerivedColumns(b, today).value == DerivedColumns(b, today).value;
      }
    } else {
      assert (a + b)[0] == a[0] && (a + b)[1..] == a[1..] + b;
      DerivedColumnsAppend(a[1..], b, today);
      match DerivedColumns(a[1..], today)
      case Failure(_) =>
      case Success(rest) =>
        if DerivedColumns(b, today).Success? {
          var first := DeriveRow(a[0], today);
          if first.Success? {
            assert [first.value] + (rest + DerivedColumns(b, today).value)
                == ([first.value] + rest) + DerivedColumns(b, today).value;
          }
        }
    }
  }

  /** One step of the row-by-row derivation: the next row extends the result or aborts the whole table. */
  lemma DeriveStep(table: seq<Row>, i: nat, derived: seq<Row>, today: Date)
    requires i < |table|
    requires DerivedColumns(table[..i], today) == Success(derived)
    ensures DeriveRow(table[i], today).Failure? ==> DerivedColumns(table, today).Failure?
    ensures DeriveRow(table[i], today).Success? ==>
      DerivedColumns(table[..i + 1], today) == Success(derived + [DeriveRow(table[i], today).value])
  {
    var next := table[..i + 1];
    assert table[..i] + [table[i]] == next;
    DerivedSingleton(table[i], today);
    DerivedColumnsAppend(table[..i], [table[i]], today);
    if DeriveRow(table[i], today).Failure? {
      assert next + table[i + 1..] == table;
      DerivedColumnsAppend(next, table[i + 1..], today);
    }
  }

  /** Deriving the columns of an already derived table changes nothing. */
  lemma DerivedColumnsIdempotent(rows: seq<Row>, today: Date)
    requires DerivedColumns(rows, today).Success?
    ensures DerivedColumns(DerivedColumns(rows, today).value, today) == DerivedColumns(rows, today)
  {
    var once := DerivedColumns(rows, today).value;
    DerivedColumnsSpec(rows, today);
    DerivedColumnsSpec(once, today);
    assert !HasBadBirthdate(once) by {
      forall i | 0 <= i < |once| ensures ExtractBirthdate(once[i].id).Success? {
        assert IsDerived(once[i], today);
      }
    }
    var twice := DerivedColumns(once, today).value;
    forall i | 0 <= i < |once| ensures twice[i] == once[i] {
      assert SameRecord(twice[i], once[i]) && IsDerived(twice[i], today) && IsDerived(once[i], today);
    }
  }

  // ---------------------------------------------------------------------
  // Selecting rows
  // ---------------------------------------------------------------------

  /** The identity numbers that occur in a table. */
  function Ids(rows: seq<Row>): set<Id> {
    set i | 0 <= i < |rows| :: rows[i].id
  }

  /**
   * `combined[~combined['ID'].isin(baselineIds)]`: the rows whose ID is not
   * among the baseline's, each kept as often as it occurs (no deduplication).
   */
  function NewUnique(combined: seq<Row>, baselineIds: set<Id>): seq<Row> {
    if combined == [] then []
    else (if combined[0].id in baselineIds then [] else [combined[0]]) + NewUnique(combined[1..], baselineIds)
  }

  /** `rows[rows['company'] == company]`: that company's rows, in table order. */
  function Group(rows: seq<Row>, company: string): seq<Row> {
    if rows == [] then []
    else (if rows[0].company == company then [rows[0]] else []) + Group(rows[1..], company)
  }

  /** Each row is kept exactly as often as it occurs, unless its ID is a baseline ID. */
  lemma {:induction false} NewUniqueCount(combined: seq<Row>, baselineIds: set<Id>, x: Row)
    ensures multiset(NewUnique(combined, baselineIds))[x]
         == if x.id in baselineIds then 0 else multiset(combined)[x]
  {
    if combined != [] {
      assert combined == [combined[0]] + combined[1..];
      NewUniqueCount(combined[1..], baselineIds, x);
    }
  }

  /** Each row of the company is kept exactly as often as it occurs; no other row is. */
  lemma {:induction false} GroupCount(rows: seq<Row>, company: string, x: Row)
    ensures multiset(Group(rows, company))[x] == if x.company == company then multiset(rows)[x] else 0
  {
    if rows != [] {
      assert rows == [rows[0]] + rows[1..];
      GroupCount(rows[1..], company, x);
    }
  }

  /** The filter keeps relative order: it distributes over concatenation. */
  lemma {:induction false} NewUniqueAppend(a: seq<Row>, b: seq<Row>, baselineIds: set<Id>)
    ensures NewUnique(a + b, baselineIds) == NewUnique(a, baselineIds) + NewUnique(b, baselineIds)
  {
    if a == [] {
      assert a + b == b;
    } else {
      assert (a + b)[0] == a[0] && (a + b)[1..] == a[1..] + b;
      NewUniqueAppend(a[1..], b, baselineIds);
      var head := if a[0].id in baselineIds then [] else [a[0]];
      var rest := NewUnique(a[1..], baselineIds);
      assert NewUnique(a + b, baselineIds) == head + (rest + NewUnique(b, baselineIds));
      assert head + (rest + NewUnique(b, baselineIds)) == (head + rest) + NewUnique(b, baselineIds);
    }
  }

  /** A row is kept iff it occurs in the new rows and its ID is not a baseline ID. */
  lemma NewUniqueMembers(combined: seq<Row>, baselineIds: set<Id>)
    ensures forall x :: x in NewUnique(combined, baselineIds) <==> x in combined && x.id !in baselineIds
  {
    forall x ensures x in NewUnique(combined, baselineIds) <==> x in combined && x.id !in baselineIds {
      NewUniqueCount(combined, baselineIds, x);
    }
  }

  /** No kept row has a baseline ID: the new IDs and the baseline IDs are disjoint. */
  lemma NewUniqueDisjoint(combined: seq<Row>, baselineIds: set<Id>)
    ensures Ids(NewUnique(combined, baselineIds)) !! baselineIds
  {
    var r := NewUnique(combined, baselineIds);
    NewUniqueMembers(combined, baselineIds);
    forall i | 0 <= i < |r| ensures r[i].id !in baselineIds {
      assert r[i] in r;
    }
  }

  lemma {:induction false} GroupAppend(a: seq<Row>, b: seq<Row>, company: string)
    ensures Group(a + b, company) == Group(a, company) + Group(b, company)
  {
    if a == [] {
      assert a + b == b;
    } else {
      assert (a + b)[0] == a[0] && (a + b)[1..] == a[1..] + b;
      GroupAppend(a[1..], b, company);
      var head := if a[0].company == company then [a[0]] else [];
      var rest := Group(a[1..], company);
      assert Group(a + b, company) == head + (rest + Group(b, company));
      assert head + (rest + Group(b, company)) == (head + rest) + Group(b, company);
    }
  }

  /** Selecting a company from a company's rows: all of them, or none. */
  lemma GroupOfGroup(rows: seq<Row>, picked: string, company: string)
    ensures Group(Group(rows, picked), company) == if picked == company then Group(rows, company) else []
  {
    var inner := Group(rows, picked);
    if picked == company {
      GroupRowsBelong(rows, picked);
      GroupOfOwnRows(inner, company);
    } else {
      var r := Group(inner, company);
      assert multiset(r) == multiset{} by {
        forall x ensures multiset(r)[x] == 0 {
          GroupCount(inner, company, x);
          GroupCount(rows, picked, x);
        }
      }
      assert |r| == |multiset(r)|;
    }
  }

  lemma {:induction false} GroupOfOwnRows(rows: seq<Row>, company: string)
    requires forall i :: 0 <= i < |rows| ==> rows[i].company == company
    ensures Group(rows, company) == rows
  {
    if rows != [] {
      GroupOfOwnRows(rows[1..], company);
    }
  }

  lemma GroupRowsBelong(rows: seq<Row>, company: string)
    ensures forall i :: 0 <= i < |Group(rows, company)| ==> Group(rows, company)[i].company == company
  {
    var r := Group(rows, company);
    forall i | 0 <= i < |r| ensures r[i].company == company {
      GroupCount(rows, company, r[i]);
      assert multiset(r)[r[i]] > 0;
    }
  }

  // ---------------------------------------------------------------------
  // Merging by company order
  // ---------------------------------------------------------------------

  /** The concatenation of the new rosters, in the order they were given. */
  function Concat(tables: seq<seq<Row>>): seq<Row> {
    if tables == [] then [] else Concat(tables[..|tables| - 1]) + tables[|tables| - 1]
  }

  lemma {:induction false} ConcatAppend(a: seq<seq<Row>>, b: seq<seq<Row>>)
    ensures Concat(a + b) == Concat(a) + Concat(b)
  {
    if b == [] {
      assert a + b == a;
    } else {
      var init := b[..|b| - 1];
      assert (a + b)[..|a + b| - 1] == a + init;
      ConcatAppend(a, init);
    }
  }

  /**
   * The accumulated output after the company-order entries `order`: for each
   * entry in turn, the baseline rows of that company and then its new rows.
   */
  function Merged(baseline: seq<Row>, newRows: seq<Row>, order: seq<string>): seq<Row>
  {
    if order == [] then []
    else
      var company := order[|order| - 1];
      Merged(baseline, newRows, order[..|order| - 1]) + Group(baseline, company) + Group(newRows, company)
  }

  /** Blocks appear in company-order order. */
  lemma {:induction false} MergedAppend(baseline: seq<Row>, newRows: seq<Row>, first: seq<string>, second: seq<string>)
    ensures Merged(baseline, newRows, first + second)
         == Merged(baseline, newRows, first) + Merged(baseline, newRows, second)
  {
    if second == [] {
      assert first + second == first;
    } else {
      var whole := first + second;
      var init := second[..|second| - 1];
      assert whole[..|whole| - 1] == first + init;
      assert whole[|whole| - 1] == second[|second| - 1];
      MergedAppend(baseline, newRows, first, init);
      MergedLast(baseline, newRows, whole);
      MergedLast(baseline, newRows, second);
      var block := Group(baseline, second[|second| - 1]) + Group(newRows, second[|second| - 1]);
      var front := Merged(baseline, newRows, first);
      var back := Merged(baseline, newRows, init);
      assert Merged(baseline, newRows, whole) == (front + back) + block;
      assert (front + back) + block == front + (back + block);
    }
  }

  lemma MergedLast(baseline: seq<Row>, newRows: seq<Row>, order: seq<string>)
    requires order != []
    ensures Merged(baseline, newRows, order)
         == Merged(baseline, newRows, order[..|order| - 1])
            + (Group(baseline, order[|order| - 1]) + Group(newRows, order[|order| - 1]))
  {
  }

  /** `block` written `count` times in a row. */
  function Repeat(block: seq<Row>, count: nat): seq<Row> {
    if count == 0 then [] else Repeat(block, count - 1) + block
  }

  /**
   * The rows of one company in the output: its baseline rows, in baseline
   * order, followed by its new rows, in their order, once per occurrence of
   * the company in the order list (none for an unlisted company).
   */
  lemma {:induction false} MergedByCompany(baseline: seq<Row>, newRows: seq<Row>, order: seq<string>, company: string)
    ensures Group(Merged(baseline, newRows, order), company)
         == Repeat(Group(baseline, company) + Group(newRows, company), multiset(order)[company])
  {
    if order != [] {
      var init := order[..|order| - 1];
      var block := Group(baseline, company) + Group(newRows, company);
      var k := multiset(init)[company];
      MergedByCompany(baseline, newRows, init, company);
      MergedGroupStep(baseline, newRows, order, company);
      CountLast(order, company);
      if order[|order| - 1] == company {
        assert Repeat(block, k + 1) == Repeat(block, k) + block;
      } else {
        assert Repeat(block, k) + [] == Repeat(block, k);
      }
    }
  }

  /** Occurrences of `x` in a non-empty list: those before the last entry, plus one if the last entry is `x`. */
  lemma CountLast(order: seq<string>, x: string)
    requires order != []
    ensures multiset(order)[x]
         == multiset(order[..|order| - 1])[x] + (if order[|order| - 1] == x then 1 else 0)
  {
    assert order == order[..|order| - 1] + [order[|order| - 1]];
  }

  /** One more company-order entry adds one more block for that company and nothing for the others. */
  lemma {:induction false} MergedGroupStep(baseline: seq<Row>, newRows: seq<Row>, order: seq<string>, company: string)
    requires order != []
    ensures Group(Merged(baseline, newRows, order), company)
         == Group(Merged(baseline, newRows, order[..|order| - 1]), company)
            + (if order[|order| - 1] == company then Group(baseline, company) + Group(newRows, company) else [])
  {
    var last := order[|order| - 1];
    var prefix := Merged(baseline, newRows, order[..|order| - 1]);
    var fromBaseline := Group(baseline, last);
    var fromNew := Group(newRows, last);
    GroupAppend(prefix + fromBaseline, fromNew, company);
    GroupAppend(prefix, fromBaseline, company);
    var before := Group(prefix, company);
    var added := Group(fromBaseline, company) + Group(fromNew, company);
    assert Group(prefix + fromBaseline + fromNew, company) == before + added;
    GroupOfGroup(baseline, last, company);
    GroupOfGroup(newRows, last, company);
    if last == company {
      assert added == Group(baseline, company) + Group(newRows, company);
    } else {
      assert added == [];
    }
  }

  /**
   * Multiplicity: a row occurs in the output as often as it occurs in the
   * baseline and the new rows together, times the number of times its
   * company is listed.
   */
  lemma {:induction false} MergedCount(baseline: seq<Row>, newRows: seq<Row>, order: seq<string>, x: Row)
    ensures multiset(Merged(baseline, newRows, order))[x]
         == multiset(order)[x.company] * (multiset(baseline)[x] + multiset(newRows)[x])
  {
    var merged := Merged(baseline, newRows, order);
    var block := Group(baseline, x.company) + Group(newRows, x.company);
    var k := multiset(order)[x.company];
    MergedByCompany(baseline, newRows, order, x.company);
    GroupCount(merged, x.company, x);
    assert multiset(merged)[x] == multiset(Repeat(block, k))[x];
    RepeatCount(block, k, x);
    GroupCount(baseline, x.company, x);
    GroupCount(newRows, x.company, x);
    var times := multiset(block)[x];
    assert times == multiset(baseline)[x] + multiset(newRows)[x];
    assert multiset(merged)[x] == k * times;
  }

  lemma ProductCases(k: nat, n: nat)
    ensures k * n > 0 <==> k > 0 && n > 0
    ensures k == 1 ==> k * n == n
  {
  }

  lemma MultiplySucc(k: nat, n: nat)
    ensures (k + 1) * n == k * n + n
  {
  }

  lemma {:induction false} RepeatCount(block: seq<Row>, count: nat, x: Row)
    ensures multiset(Repeat(block, count))[x] == count * multiset(block)[x]
  {
    if count > 0 {
      RepeatCount(block, count - 1, x);
      assert multiset(Repeat(block, count))[x] == multiset(Repeat(block, count - 1))[x] + multiset(block)[x];
      MultiplySucc(count - 1, multiset(block)[x]);
    }
  }

  /** Every output row comes from the baseline or the new rows, and its company is listed. */
  lemma MergedMembers(baseline: seq<Row>, newRows: seq<Row>, order: seq<string>)
    ensures forall x :: x in Merged(baseline, newRows, order) <==>
      x.company in order && (x in baseline || x in newRows)
  {
    forall x ensures x in Merged(baseline, newRows, order) <==>
      x.company in order && (x in baseline || x in newRows)
    {
      MergedCount(baseline, newRows, order, x);
      ProductCases(multiset(order)[x.company], multiset(baseline)[x] + multiset(newRows)[x]);
    }
  }

  /**
   * When every row's company is listed exactly once, the output holds
   * exactly the baseline rows and the new rows, so its length is their sum.
   */
  lemma MergedIsPermutation(baseline: seq<Row>, newRows: seq<Row>, order: seq<string>)
    requires forall x :: x in baseline ==> multiset(order)[x.company] == 1
    requires forall x :: x in newRows ==> multiset(order)[x.company] == 1
    ensures multiset(Merged(baseline, newRows, order)) == multiset(baseline) + multiset(newRows)
    ensures |Merged(baseline, newRows, order)| == |baseline| + |newRows|
  {
    var m := Merged(baseline, newRows, order);
    forall x ensures multiset(m)[x] == (multiset(baseline) + multiset(newRows))[x] {
      MergedCount(baseline, newRows, order, x);
      ProductCases(multiset(order)[x.company], multiset(baseline)[x] + multiset(newRows)[x]);
    }
    assert multiset(m) == multiset(baseline) + multiset(newRows);
    assert |m| == |multiset(m)|;
  }

  /** Sum over the order-list entries of the matching baseline and new rows. */
  function MatchingRows(baseline: seq<Row>, newRows: seq<Row>, order: seq<string>): nat {
    if order == [] then 0
    else
      var company := order[|order| - 1];
      MatchingRows(baseline, newRows, order[..|order| - 1])
        + |Group(baseline, company)| + |Group(newRows, company)|
  }

  lemma {:induction false} MergedLength(baseline: seq<Row>, newRows: seq<Row>, order: seq<string>)
    ensures |Merged(baseline, newRows, order)| == MatchingRows(baseline, newRows, order)
  {
    if order != [] {
      MergedLength(baseline, newRows, order[..|order| - 1]);
    }
  }

  /**
   * Within the group of a company listed once, every baseline row precedes
   * every newly added row: after the first new row only new rows follow.
   */
  lemma BaselineBeforeNew(baseline: seq<Row>, combined: seq<Row>, order: seq<string>, company: string)
    requires multiset(order)[company] == 1
    ensures var group := Group(Merged(baseline, NewUnique(combined, Ids(baseline)), order), company);
      forall i, j :: 0 <= i < j < |group| && group[i].id !in Ids(baseline) ==> group[j].id !in Ids(baseline)
  {
    var ids := Ids(baseline);
    var unique := NewUnique(combined, ids);
    var kept := Group(baseline, company);
    var added := Group(unique, company);
    ListedOnce(baseline, unique, order, company);
    forall i | 0 <= i < |kept| ensures kept[i].id in ids {
      GroupCount(baseline, company, kept[i]);
      assert multiset(kept)[kept[i]] > 0;
      var k :| 0 <= k < |baseline| && baseline[k] == kept[i];
    }
    forall j | 0 <= j < |added| ensures added[j].id !in ids {
      GroupCount(unique, company, added[j]);
      assert multiset(added)[added[j]] > 0;
      NewUniqueCount(combined, ids, added[j]);
    }
    SplitGroup(kept, added, ids);
  }

  /** The group of a company listed once: its baseline rows, then its new rows. */
  lemma ListedOnce(baseline: seq<Row>, newRows: seq<Row>, order: seq<string>, company: string)
    requires multiset(order)[company] == 1
    ensures Group(Merged(baseline, newRows, order), company) == Group(baseline, company) + Group(newRows, company)
  {
    MergedByCompany(baseline, newRows, order, company);
    var block := Group(baseline, company) + Group(newRows, company);
    assert Repeat(block, 1) == [] + block == block;
  }

  lemma SplitGroup(kept: seq<Row>, added: seq<Row>, ids: set<Id>)
    requires forall i :: 0 <= i < |kept| ==> kept[i].id in ids
    requires forall j :: 0 <= j < |added| ==> added[j].id !in ids
    ensures var group := kept + added;
      forall i, j :: 0 <= i < j < |group| && group[i].id !in ids ==> group[j].id !in ids
  {
    var group := kept + added;
    forall i, j | 0 <= i < j < |group| && group[i].id !in ids ensures group[j].id !in ids {
      assert i >= |kept|;
      assert group[j] == added[j - |kept|];
    }
  }

  // ---------------------------------------------------------------------
  // Derivation happens before selection
  // ---------------------------------------------------------------------

  lemma IdsMember(rows: seq<Row>, x: Row)
    requires x in rows
    ensures x.id in Ids(rows)
  {
    var k :| 0 <= k < |rows| && rows[k] == x;
    assert rows[k].id in Ids(rows);
  }

  /** Deriving the columns keeps every ID, so the baseline ID set is the same. */
  lemma DerivedIds(raw: seq<Row>, today: Date)
    requires DerivedColumns(raw, today).Success?
    ensures Ids(DerivedColumns(raw, today).value) == Ids(raw)
  {
    DerivedColumnsSpec(raw, today);
    var derived := DerivedColumns(raw, today).value;
    forall id | id in Ids(derived) ensures id in Ids(raw) {
      var k :| 0 <= k < |derived| && derived[k].id == id;
      assert SameRecord(derived[k], raw[k]);
      assert raw[k].id in Ids(raw);
    }
    forall id | id in Ids(raw) ensures id in Ids(derived) {
      var k :| 0 <= k < |raw| && raw[k].id == id;
      assert SameRecord(derived[k], raw[k]);
      assert derived[k].id in Ids(derived);
    }
  }

  /** Every row of a derived table is an input row with its derived cells reassigned. */
  lemma DerivedSource(raw: seq<Row>, today: Date, x: Row) returns (y: Row)
    requires DerivedColumns(raw, today).Success?
    requires x in DerivedColumns(raw, today).value
    ensures y in raw && SameRecord(x, y)
  {
    DerivedColumnsSpec(raw, today);
    var derived := DerivedColumns(raw, today).value;
    var k :| 0 <= k < |derived| && derived[k] == x;
    y := raw[k];
  }

  /** Every row of a derived table carries the derivation of its own ID. */
  lemma DerivedMembers(raw: seq<Row>, today: Date)
    requires DerivedColumns(raw, today).Success?
    ensures forall x :: x in DerivedColumns(raw, today).value ==> IsDerived(x, today)
  {
    DerivedColumnsSpec(raw, today);
  }

  lemma DerivedSingleton(row: Row, today: Date)
    ensures DerivedColumns([row], today) ==
      match DeriveRow(row, today)
      case Success(r) => Success([r])
      case Failure(e) => Failure(e)
  {
    assert [row][1..] == [];
    match DeriveRow(row, today)
    case Success(r) => assert [r] + [] == [r];
    case Failure(_) =>
  }

  /** The new-row filter never looks at the derived columns: it commutes with deriving them. */
  lemma {:induction false} NewUniqueOfDerived(raw: seq<Row>, baselineIds: set<Id>, today: Date)
    requires DerivedColumns(raw, today).Success?
    ensures DerivedColumns(NewUnique(raw, baselineIds), today)
         == Success(NewUnique(DerivedColumns(raw, today).value, baselineIds))
  {
    if raw != [] {
      var first := DeriveRow(raw[0], today).value;
      var rest := DerivedColumns(raw[1..], today).value;
      assert DerivedColumns(raw, today).value == [first] + rest;
      NewUniqueOfDerived(raw[1..], baselineIds, today);
      var keep := if raw[0].id in baselineIds then [] else [raw[0]];
      DerivedSingleton(raw[0], today);
      DerivedColumnsAppend(keep, NewUnique(raw[1..], baselineIds), today);
      assert ([first] + rest)[0] == first && ([first] + rest)[1..] == rest;
      if keep == [] {
        assert DerivedColumns(keep, today) == Success([]);
        assert [] + NewUnique(rest, baselineIds) == NewUnique(rest, baselineIds);
      }
    }
  }

  /** Grouping never looks at the derived columns either. */
  lemma {:induction false} GroupOfDerived(raw: seq<Row>, company: string, today: Date)
    requires DerivedColumns(raw, today).Success?
    ensures DerivedColumns(Group(raw, company), today)
         == Success(Group(DerivedColumns(raw, today).value, company))
  {
    if raw != [] {
      var first := DeriveRow(raw[0], today).value;
      var rest := DerivedColumns(raw[1..], today).value;
      assert DerivedColumns(raw, today).value == [first] + rest;
      GroupOfDerived(raw[1..], company, today);
      var keep := if raw[0].company == company then [raw[0]] else [];
      DerivedSingleton(raw[0], today);
      DerivedColumnsAppend(keep, Group(raw[1..], company), today);
      assert ([first] + rest)[0] == first && ([first] + rest)[1..] == rest;
      if keep == [] {
        assert DerivedColumns(keep, today) == Success([]);
        assert [] + Group(rest, company) == Group(rest, company);
      }
    }
  }

  // ---------------------------------------------------------------------
  // Renumbering
  // ---------------------------------------------------------------------

  /** `df['serial'] = range(first, first + len(df))`: nothing but the serial changes. */
  function Renumbered(rows: seq<Row>, first: int): (r: seq<Row>)
    ensures |r| == |rows|
    ensures forall i :: 0 <= i < |rows| ==> r[i] == rows[i].(serial := first + i)
  {
    if rows == [] then [] else [rows[0].(serial := first)] + Renumbered(rows[1..], first + 1)
  }

  // ---------------------------------------------------------------------
  // Tables held in memory
  // ---------------------------------------------------------------------

  /** A roster sheet read into memory, whose columns are assigned in place. */
  class Frame {
    var rows: seq<Row>

    constructor (rows: seq<Row>)
      ensures this.rows == rows
    {
      this.rows := rows;
    }

    /**
     * Assigns the birth-month and age columns from the ID column, row by row;
     * a row whose 18-character ID is not a date raises and leaves the table
     * as it was.
     */
    method AssignDerivedColumns(today: Date) returns (ok: bool)
      modifies this
      ensures ok == DerivedColumns(old(rows), today).Success?
      ensures ok ==> rows == DerivedColumns(old(rows), today).value
      ensures !ok ==> rows == old(rows)
    {
      var table := rows;
      var derived: seq<Row> := [];
      var i := 0;
      while i < |table|
        invariant 0 <= i <= |table|
        invariant DerivedColumns(table[..i], today) == Success(derived)
        invariant rows == old(rows) == table
      {
        var row := DeriveRow(table[i], today);
        DeriveStep(table, i, derived, today);
        if row.Failure? {
          return false;
        }
        derived := derived + [row.value];
        i := i + 1;
      }
      assert table[..i] == table;
      assert DerivedColumns(table, today) == Success(derived);
      rows := derived;
      ok := true;
    }

    /** Overwrites the serial column with 1..n in row order. */
    method RenumberSerial()
      modifies this
      ensures rows == Renumbered(old(rows), 1)
    {
      var table := rows;
      var i := 0;
      while i < |table|
        invariant 0 <= i <= |table| == |old(rows)|
        invariant forall j :: 0 <= j < i ==> table[j] == old(rows)[j].(serial := j + 1)
        invariant forall j :: i <= j < |table| ==> table[j] == old(rows)[j]
      {
        table := table[i := table[i].(serial := i + 1)];
        i := i + 1;
      }
      rows := table;
    }
  }

  // ---------------------------------------------------------------------
  // Highlighting
  // ---------------------------------------------------------------------

  /** The two styles the run sets on a cell: red font and green fill. */
  datatype Style = Style(redFont: bool, greenFill: bool)

  const Plain := Style(false, false)

  /** A cell's style in a sheet's cell map; a cell never styled is plain. */
  function StyleIn(cells: map<(int, int), Style>, row: int, column: int): Style {
    if (row, column) in cells then cells[(row, column)] else Plain
  }

  /** The worksheet of the written workbook, keyed by (sheet row, column), both from 1. */
  class Sheet {
    var cells: map<(int, int), Style>

    constructor ()
      ensures cells == map[]
    {
      cells := map[];
    }

    function StyleAt(row: int, column: int): Style
      reads this
    {
      StyleIn(cells, row, column)
    }

    /** `cell.font = red_font`: the fill is left as it was. */
    method SetRedFont(row: int, column: int)
      modifies this
      ensures cells == old(cells)[(row, column) := old(StyleAt(row, column)).(redFont := true)]
    {
      cells := cells[(row, column) := StyleAt(row, column).(redFont := true)];
    }

    /** `cell.fill = green_fill`: the font is left as it was. */
    method SetGreenFill(row: int, column: int)
      modifies this
      ensures cells == old(cells)[(row, column) := old(StyleAt(row, column)).(greenFill := true)]
    {
      cells := cells[(row, column) := StyleAt(row, column).(greenFill := true)];
    }
  }

  /**
   * Membership in the new rows' ID values compares with `==`, under which a
   * missing (NaN) ID equals nothing, so a row without an ID is never new here.
   */
  predicate IsNewId(id: Id, newIds: set<Id>) {
    id.Text? && id in newIds
  }

  /** The style a data row earns: red iff its ID is a new ID, green iff a derived cell is empty. */
  function RowStyle(row: Row, newIds: set<Id>): Style {
    Style(IsNewId(row.id, newIds), row.birthMonth == "" || row.age == Blank)
  }

  /** The styles applied on top of a cell's earlier ones. */
  function Overlay(before: Style, applied: Style): Style {
    Style(before.redFont || applied.redFont, before.greenFill || applied.greenFill)
  }

  /** Data row `index` sits on sheet row `index + 2` (row 1 is the header). */
  predicate InStyledRange(row: int, column: int, count: int, width: int) {
    2 <= row < count + 2 && 1 <= column <= width
  }

  /**
   * The style of cell (`r`, `c`) once the first `done` data rows have been
   * styled on top of the cell map `before`.
   */
  function Highlighted(before: map<(int, int), Style>, rows: seq<Row>, newIds: set<Id>,
                       width: nat, done: nat, r: int, c: int): Style
    requires done <= |rows|
  {
    if InStyledRange(r, c, done, width) then Overlay(StyleIn(before, r, c), RowStyle(rows[r - 2], newIds))
    else StyleIn(before, r, c)
  }

  /**
   * The nested styling loop: every cell of sheet rows 2..n+1 and columns
   * 1..width gets its row's red font and green fill; no other cell changes.
   */
  method Highlight(sheet: Sheet, rows: seq<Row>, newIds: set<Id>, width: nat)
    modifies sheet
    ensures forall r, c ::
      sheet.StyleAt(r, c) == Highlighted(old(sheet.cells), rows, newIds, width, |rows|, r, c)
  {
    ghost var before := sheet.cells;
    for index := 0 to |rows|
      invariant forall r, c ::
        StyleIn(sheet.cells, r, c) == Highlighted(before, rows, newIds, width, index, r, c)
    {
      var row := rows[index];
      var isNewRow := IsNewId(row.id, newIds);
      var hasMissingValue := row.birthMonth == "" || row.age == Blank;
      for column := 1 to width + 1
        invariant forall r, c ::
          StyleIn(sheet.cells, r, c) ==
          (if r == index + 2 && 1 <= c < column then Overlay(StyleIn(before, r, c), RowStyle(row, newIds))
           else Highlighted(before, rows, newIds, width, index, r, c))
      {
        if isNewRow {
          sheet.SetRedFont(index + 2, column);
        }
        if hasMissingValue {
          sheet.SetGreenFill(index + 2, column);
        }
      }
    }
  }

  // ---------------------------------------------------------------------
  // The two operations
  // ---------------------------------------------------------------------

  /** The written workbook: its data rows and, for each, the style of its cells. */
  datatype Workbook = Workbook(rows: seq<Row>, styles: seq<Style>)

  function RowStyles(rows: seq<Row>, newIds: set<Id>): seq<Style> {
    seq(|rows|, i requires 0 <= i < |rows| => RowStyle(rows[i], newIds))
  }

  /** The style of sheet cell (`row`, `column`) of a workbook whose header is `width` wide. */
  function CellStyle(book: Workbook, width: nat, row: int, column: int): Style {
    if InStyledRange(row, column, |book.styles|, width) then book.styles[row - 2] else Plain
  }

  /**
   * What one merge run produces from the baseline roster, the new rosters
   * and the company order: derive both tables' columns (any bad ID aborts),
   * keep the new rows with IDs outside the baseline, group by company order,
   * renumber, and style each row.
   */
  function Process(baseline: seq<Row>, newFiles: seq<seq<Row>>, order: seq<string>, today: Date)
    : Result<Workbook, Error>
  {
    var original := DerivedColumns(baseline, today);
    if original.Failure? then Failure(original.error)
    else
      var combined := DerivedColumns(Concat(newFiles), today);
      if combined.Failure? then Failure(combined.error)
      else if newFiles == [] then Failure(NoNewFiles)
      else
        var unique := NewUnique(combined.value, Ids(original.value));
        var rows := Renumbered(Merged(original.value, unique, order), 1);
        Success(Workbook(rows, RowStyles(rows, Ids(unique))))
  }

  /**
   * `process_files`: the run as the source performs it, with the merged
   * table built by `MergeWorkbook` and the written sheet styled cell by cell.
   * On failure nothing is written.
   */
  method ProcessFiles(baseline: seq<Row>, newFiles: seq<seq<Row>>, order: seq<string>, width: nat, today: Date)
    returns (result: Result<Workbook, Error>, sheet: Sheet?)
    ensures result == Process(baseline, newFiles, order, today)
    ensures result.Success? <==> sheet != null
    ensures sheet != null ==> forall r, c :: sheet.StyleAt(r, c) == CellStyle(result.value, width, r, c)
  {
    var newIds;
    result, newIds := MergeWorkbook(baseline, newFiles, order, today);
    if result.Failure? {
      return result, null;
    }
    var output := new Sheet();
    Highlight(output, result.value.rows, newIds, width);
    forall r, c ensures output.StyleAt(r, c) == CellStyle(result.value, width, r, c) {
      FreshSheetStyle(result.value.rows, newIds, width, r, c);
    }
    return result, output;
  }

  /** Styling an empty sheet leaves each cell with exactly the style the workbook assigns it. */
  lemma FreshSheetStyle(rows: seq<Row>, newIds: set<Id>, width: nat, r: int, c: int)
    ensures Highlighted(map[], rows, newIds, width, |rows|, r, c)
         == CellStyle(Workbook(rows, RowStyles(rows, newIds)), width, r, c)
  {
  }

  /**
   * Everything `process_files` does before it writes the sheet: each table's
   * columns assigned in place, the new rows filtered and merged company by
   * company, and the serial column renumbered in place. `newIds` are the IDs
   * the red test looks up.
   */
  method MergeWorkbook(baseline: seq<Row>, newFiles: seq<seq<Row>>, order: seq<string>, today: Date)
    returns (result: Result<Workbook, Error>, newIds: set<Id>)
    ensures result == Process(baseline, newFiles, order, today)
    ensures result.Success? ==> result.value.styles == RowStyles(result.value.rows, newIds)
  {
    DerivedColumnsError(baseline, today);
    DerivedColumnsError(Concat(newFiles), today);
    var originalFrame := new Frame(baseline);
    var ok := originalFrame.AssignDerivedColumns(today);
    if !ok {
      return Failure(InvalidBirthdate), {};
    }
    var original := originalFrame.rows;

    var combined;
    ok, combined := DeriveNewFiles(newFiles, today);
    if !ok {
      return Failure(InvalidBirthdate), {};
    }
    if |newFiles| == 0 {
      return Failure(NoNewFiles), {};
    }
    var unique := NewUnique(combined, Ids(original));
    var merged := MergeByCompany(original, unique, order);

    var finalFrame := new Frame(merged);
    finalFrame.RenumberSerial();
    var rows := finalFrame.rows;
    newIds := Ids(unique);
    return Success(Workbook(rows, RowStyles(rows, newIds))), newIds;
  }

  /**
   * Reads and derives each new roster in turn and concatenates them; the
   * first bad ID stops the run.
   */
  method DeriveNewFiles(newFiles: seq<seq<Row>>, today: Date) returns (ok: bool, combined: seq<Row>)
    ensures ok <==> DerivedColumns(Concat(newFiles), today).Success?
    ensures ok ==> combined == DerivedColumns(Concat(newFiles), today).value
  {
    combined := [];
    for k := 0 to |newFiles|
      invariant DerivedColumns(Concat(newFiles[..k]), today) == Success(combined)
    {
      var frame := new Frame(newFiles[k]);
      ok := frame.AssignDerivedColumns(today);
      assert newFiles[..k + 1] == newFiles[..k] + [newFiles[k]];
      assert newFiles[..k + 1][..k] == newFiles[..k];
      DerivedColumnsAppend(Concat(newFiles[..k]), newFiles[k], today);
      if !ok {
        assert newFiles == newFiles[..k + 1] + newFiles[k + 1..];
        ConcatAppend(newFiles[..k + 1], newFiles[k + 1..]);
        DerivedColumnsAppend(Concat(newFiles[..k + 1]), Concat(newFiles[k + 1..]), today);
        return false, [];
      }
      combined := combined + frame.rows;
    }
    assert newFiles[..|newFiles|] == newFiles;
    ok := true;
  }

  /** The loop over the company order: each company's baseline rows, then its new rows. */
  method MergeByCompany(original: seq<Row>, unique: seq<Row>, order: seq<string>) returns (merged: seq<Row>)
    ensures merged == Merged(original, unique, order)
  {
    merged := [];
    for k := 0 to |order|
      invariant merged == Merged(original, unique, order[..k])
    {
      assert order[..k + 1][..k] == order[..k];
      merged := merged + Group(original, order[k]) + Group(unique, order[k]);
    }
    assert order[..|order|] == order;
  }

  /**
   * `update_age_file`: the same table with both derived columns (re)assigned
   * from the IDs, or the failure a bad ID raises.
   */
  method UpdateAgeFile(table: seq<Row>, today: Date) returns (result: Result<seq<Row>, Error>)
    ensures result == DerivedColumns(table, today)
  {
    DerivedColumnsSpec(table, today);
    var frame := new Frame(table);
    var ok := frame.AssignDerivedColumns(today);
    if ok {
      result := Success(frame.rows);
    } else {
      result := Failure(InvalidBirthdate);
    }
  }

  // ---------------------------------------------------------------------
  // Properties of a run
  // ---------------------------------------------------------------------

  lemma {:induction false} BadAppend(a: seq<Row>, b: seq<Row>)
    ensures HasBadBirthdate(a + b) <==> HasBadBirthdate(a) || HasBadBirthdate(b)
  {
    if HasBadBirthdate(a + b) {
      var i :| 0 <= i < |a + b| && ExtractBirthdate((a + b)[i].id).Failure?;
      if i >= |a| {
        assert (a + b)[i] == b[i - |a|];
      } else {
        assert (a + b)[i] == a[i];
      }
    }
    if HasBadBirthdate(a) {
      var i :| 0 <= i < |a| && ExtractBirthdate(a[i].id).Failure?;
      assert (a + b)[i] == a[i];
    }
    if HasBadBirthdate(b) {
      var i :| 0 <= i < |b| && ExtractBirthdate(b[i].id).Failure?;
      assert (a + b)[|a| + i] == b[i];
    }
  }

  lemma {:induction false} ConcatBad(tables: seq<seq<Row>>)
    ensures HasBadBirthdate(Concat(tables)) <==> exists k :: 0 <= k < |tables| && HasBadBirthdate(tables[k])
  {
    if tables != [] {
      var init := tables[..|tables| - 1];
      ConcatBad(init);
      BadAppend(Concat(init), tables[|tables| - 1]);
      if exists k :: 0 <= k < |tables| && HasBadBirthdate(tables[k]) {
        var k :| 0 <= k < |tables| && HasBadBirthdate(tables[k]);
        if k < |tables| - 1 {
          assert init[k] == tables[k];
        }
      }
    }
  }

  /**
   * A run fails exactly when some row of the baseline or of any new roster
   * (whatever its company, and even if it duplicates a baseline row) has an
   * 18-character ID that is not a date, or when there are no new rosters.
   */
  lemma ProcessFailsIff(baseline: seq<Row>, newFiles: seq<seq<Row>>, order: seq<string>, today: Date)
    ensures Process(baseline, newFiles, order, today).Failure? <==>
      HasBadBirthdate(baseline)
      || (exists k :: 0 <= k < |newFiles| && HasBadBirthdate(newFiles[k]))
      || newFiles == []
  {
    DerivedColumnsSpec(baseline, today);
    DerivedColumnsSpec(Concat(newFiles), today);
    ConcatBad(newFiles);
  }

  /** An impossible birth date (month 13, February 29 of a common year) anywhere aborts the run. */
  lemma ImpossibleDateAborts(baseline: seq<Row>, newFiles: seq<seq<Row>>, order: seq<string>, today: Date,
                             table: seq<Row>, i: nat)
    requires table == baseline || table in newFiles
    requires i < |table| && HasIdLength(table[i].id) && HasDateDigits(table[i].id.s)
    requires !IsValidDate(DateCode(table[i].id.s))
    ensures Process(baseline, newFiles, order, today) == Failure(InvalidBirthdate)
  {
    ExtractFailsIff(table[i].id);
    assert HasBadBirthdate(table);
    DerivedColumnsSpec(baseline, today);
    if table != baseline {
      var k :| 0 <= k < |newFiles| && newFiles[k] == table;
      ConcatBad(newFiles);
      DerivedColumnsSpec(Concat(newFiles), today);
    }
  }

  lemma TwoDigits(s: string)
    requires |s| == 2 && IsAsciiDigits(s)
    ensures DecimalValue(s) == DigitValue(s[0]) * 10 + DigitValue(s[1])
  {
    assert s[..1] == [s[0]] && s[..1][..0] == [];
    assert DecimalValue(s[..1]) == DigitValue(s[0]);
  }

  lemma FourDigits(s: string)
    requires |s| == 4 && IsAsciiDigits(s)
    ensures DecimalValue(s) == ((DigitValue(s[0]) * 10 + DigitValue(s[1])) * 10 + DigitValue(s[2])) * 10 + DigitValue(s[3])
  {
    assert s[..3][..2] == s[..2];
    TwoDigits(s[..2]);
  }

  /** The extraction of an 18-character ID once its three fields have been read. */
  lemma ExtractOfFields(s: string, year: nat, month: nat, day: nat)
    requires |s| == 18
    requires ParseInt(s[6..10]) == Some(year) && ParseInt(s[10..12]) == Some(month) && ParseInt(s[12..14]) == Some(day)
    ensures ExtractBirthdate(Text(s))
         == if IsValidDate(Date(year, month, day)) then Success(Some(Date(year, month, day))) else Failure(InvalidBirthdate)
  {
  }

  lemma ParseFour(s: string, value: nat)
    requires |s| == 4 && IsAsciiDigits(s)
    requires value == ((DigitValue(s[0]) * 10 + DigitValue(s[1])) * 10 + DigitValue(s[2])) * 10 + DigitValue(s[3])
    ensures ParseInt(s) == Some(value)
  {
    FourDigits(s);
  }

  lemma ParseTwo(s: string, value: nat)
    requires |s| == 2 && IsAsciiDigits(s)
    requires value == DigitValue(s[0]) * 10 + DigitValue(s[1])
    ensures ParseInt(s) == Some(value)
  {
    TwoDigits(s);
  }

  /** February 29 is a date in a leap year (2000 is one: divisible by 400). */
  lemma LeapDayAccepted()
    ensures ExtractBirthdate(Text("110105200002290019")) == Success(Some(Date(2000, 2, 29)))
  {
    var s := "110105200002290019";
    assert s[6..10] == "2000";
    assert s[10..12] == "02";
    assert s[12..14] == "29";
    ParseFour("2000", 2000);
    ParseTwo("02", 2);
    ParseTwo("29", 29);
    ExtractOfFields(s, 2000, 2, 29);
  }

  /** February 29 of 1900 (divisible by 100, not by 400) is not a date, so the run aborts. */
  lemma LeapDayOfCenturyRejected()
    ensures ExtractBirthdate(Text("110105190002290019")) == Failure(InvalidBirthdate)
  {
    var s := "110105190002290019";
    assert s[6..10] == "1900";
    assert s[10..12] == "02";
    assert s[12..14] == "29";
    ParseFour("1900", 1900);
    ParseTwo("02", 2);
    ParseTwo("29", 29);
    ExtractOfFields(s, 1900, 2, 29);
  }

  /** Month 13 is not a date. */
  lemma MonthThirteenRejected()
    ensures ExtractBirthdate(Text("110105199013010019")) == Failure(InvalidBirthdate)
  {
    var s := "110105199013010019";
    assert s[6..10] == "1990";
    assert s[10..12] == "13";
    assert s[12..14] == "01";
    ParseFour("1990", 1990);
    ParseTwo("13", 13);
    ParseTwo("01", 1);
    ExtractOfFields(s, 1990, 13, 1);
  }

  /** Unpacks a successful run into its stages. */
  lemma ProcessStages(baseline: seq<Row>, newFiles: seq<seq<Row>>, order: seq<string>, today: Date)
    returns (original: seq<Row>, combined: seq<Row>, unique: seq<Row>)
    requires Process(baseline, newFiles, order, today).Success?
    ensures DerivedColumns(baseline, today) == Success(original)
    ensures DerivedColumns(Concat(newFiles), today) == Success(combined)
    ensures unique == NewUnique(combined, Ids(original))
    ensures Process(baseline, newFiles, order, today).value.rows == Renumbered(Merged(original, unique, order), 1)
    ensures Process(baseline, newFiles, order, today).value.styles
         == RowStyles(Process(baseline, newFiles, order, today).value.rows, Ids(unique))
  {
    original := DerivedColumns(baseline, today).value;
    combined := DerivedColumns(Concat(newFiles), today).value;
    unique := NewUnique(combined, Ids(original));
  }

  /** The serial column of the output runs 1..n in output order. */
  lemma ProcessSerials(baseline: seq<Row>, newFiles: seq<seq<Row>>, order: seq<string>, today: Date)
    requires Process(baseline, newFiles, order, today).Success?
    ensures var rows := Process(baseline, newFiles, order, today).value.rows;
      forall i :: 0 <= i < |rows| ==> rows[i].serial == i + 1
  {
  }

  /** Every output row is a baseline row or a new row: derived, with only its serial changed. */
  lemma ProcessRowOrigin(baseline: seq<Row>, newFiles: seq<seq<Row>>, order: seq<string>, today: Date, i: nat)
    returns (source: Row)
    requires Process(baseline, newFiles, order, today).Success?
    requires i < |Process(baseline, newFiles, order, today).value.rows|
    ensures var row := Process(baseline, newFiles, order, today).value.rows[i];
      row == source.(serial := i + 1) && IsDerived(source, today) && source.company in order
    ensures source in DerivedColumns(baseline, today).value
         || source in NewUnique(DerivedColumns(Concat(newFiles), today).value, Ids(baseline))
  {
    var original, combined, unique := ProcessStages(baseline, newFiles, order, today);
    var merged := Merged(original, unique, order);
    source := merged[i];
    MergedMembers(original, unique, order);
    DerivedIds(baseline, today);
    DerivedMembers(baseline, today);
    DerivedMembers(Concat(newFiles), today);
    NewUniqueMembers(combined, Ids(original));
  }

  /**
   * Red rows: an output row has the red font exactly when it has an ID and
   * that ID is not among the baseline IDs, so no baseline row is ever red.
   */
  lemma ProcessRedRows(baseline: seq<Row>, newFiles: seq<seq<Row>>, order: seq<string>, today: Date)
    requires Process(baseline, newFiles, order, today).Success?
    ensures var book := Process(baseline, newFiles, order, today).value;
      |book.styles| == |book.rows| &&
      forall i :: 0 <= i < |book.rows| ==> (book.styles[i].redFont <==> book.rows[i].id.Text? && book.rows[i].id !in Ids(baseline))
  {
    var book := Process(baseline, newFiles, order, today).value;
    var original, combined, unique := ProcessStages(baseline, newFiles, order, today);
    DerivedIds(baseline, today);
    NewUniqueMembers(combined, Ids(original));
    NewUniqueDisjoint(combined, Ids(original));
    forall i | 0 <= i < |book.rows|
      ensures book.styles[i].redFont <==> book.rows[i].id.Text? && book.rows[i].id !in Ids(baseline)
    {
      var source := ProcessRowOrigin(baseline, newFiles, order, today, i);
      if source in unique {
        IdsMember(unique, source);
      } else {
        IdsMember(original, source);
      }
    }
  }

  /** Green rows: an output row has the green fill exactly when its ID is not an 18-character string. */
  lemma ProcessGreenRows(baseline: seq<Row>, newFiles: seq<seq<Row>>, order: seq<string>, today: Date)
    requires Process(baseline, newFiles, order, today).Success?
    ensures var book := Process(baseline, newFiles, order, today).value;
      |book.styles| == |book.rows| &&
      forall i :: 0 <= i < |book.rows| ==> (book.styles[i].greenFill <==> !HasIdLength(book.rows[i].id))
  {
    var book := Process(baseline, newFiles, order, today).value;
    forall i | 0 <= i < |book.rows|
      ensures book.styles[i].greenFill <==> !HasIdLength(book.rows[i].id)
    {
      var source := ProcessRowOrigin(baseline, newFiles, order, today, i);
      DerivedCellsEmptyIff(source, today);
    }
  }

  /** The derived cells are empty exactly when the ID is not an 18-character string. */
  lemma DerivedCellsEmptyIff(row: Row, today: Date)
    requires IsDerived(row, today)
    ensures (row.birthMonth == "" || row.age == Blank) <==> !HasIdLength(row.id)
  {
  }

  /**
   * Row count: when every baseline row's and every kept new row's company is
   * listed exactly once, the output has one row per baseline row and one per
   * kept new row.
   */
  lemma ProcessRowCount(baseline: seq<Row>, newFiles: seq<seq<Row>>, order: seq<string>, today: Date)
    requires Process(baseline, newFiles, order, today).Success?
    requires forall x :: x in baseline ==> multiset(order)[x.company] == 1
    requires forall x :: x in NewUnique(Concat(newFiles), Ids(baseline)) ==> multiset(order)[x.company] == 1
    ensures |Process(baseline, newFiles, order, today).value.rows|
         == |baseline| + |NewUnique(Concat(newFiles), Ids(baseline))|
  {
    var original, combined, unique := ProcessStages(baseline, newFiles, order, today);
    var raw := Concat(newFiles);
    DerivedColumnsSpec(baseline, today);
    DerivedColumnsSpec(raw, today);
    DerivedIds(baseline, today);
    NewUniqueOfDerived(raw, Ids(baseline), today);
    DerivedColumnsSpec(NewUnique(raw, Ids(baseline)), today);
    NewUniqueMembers(combined, Ids(original));
    forall x | x in original ensures multiset(order)[x.company] == 1 {
      var y := DerivedSource(baseline, today, x);
    }
    forall x | x in unique ensures multiset(order)[x.company] == 1 {
      var y := DerivedSource(NewUnique(raw, Ids(baseline)), today, x);
    }
    MergedIsPermutation(original, unique, order);
  }
}
