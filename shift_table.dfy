/**
 * The bulk dialog's shift resolution from the shift table: each row carries
 * `"HH:MM"` bounds, a window may wrap past midnight, and the first row in
 * list order that contains the current minute wins; no match gives null.
 */
module ShiftTable {
  import opened JsText
  import Shifts

  /** A row of the shift table as the dialog loads it. */
  datatype ShiftRow = ShiftRow(id: int, nombre: string, horaInicio: string, horaFin: string)

  /**
   * `const [h, m] = s.split(':').map(Number); h * 60 + m`: a missing minute
   * part is `undefined`, which `Number` turns into NaN, and NaN propagates.
   */
  function ClockMinutes(s: string): (r: JsNum)
    ensures r.Num? ==> r.n >= 0
  {
    var parts := Split(s, ':');
    JsMulAdd(NumberOfPart(parts, 0), 60, NumberOfPart(parts, 1))
  }

  /**
   * Whether a row's window contains the minute `now`. A window whose start is
   * not after its end is `[start, end]`; otherwise it wraps past midnight and
   * holds every minute from the start on and every minute up to the end.
   * All comparisons are JavaScript's: any comparison with NaN is false.
   */
  predicate Matches(row: ShiftRow, now: int) {
    var start := ClockMinutes(row.horaInicio);
    var end := ClockMinutes(row.horaFin);
    if JsLe(start, end) then JsLe(start, Num(now)) && JsLe(Num(now), end)
    else JsLe(start, Num(now)) || JsLe(Num(now), end)
  }

  /** Row `i` matches and no row before it does. */
  predicate IsFirstMatch(rows: seq<ShiftRow>, now: int, i: int) {
    && 0 <= i < |rows|
    && Matches(rows[i], now)
    && forall j :: 0 <= j < i ==> !Matches(rows[j], now)
  }

  /** The id of the first matching row, if any. */
  function FirstMatch(rows: seq<ShiftRow>, now: int): (r: Option<int>)
    ensures r.Some? ==> exists i :: 0 <= i < |rows| && Matches(rows[i], now) && rows[i].id == r.value
  {
    if rows == [] then None
    else if Matches(rows[0], now) then Some(rows[0].id)
    else FirstMatch(rows[1..], now)
  }

  /** `FirstMatch` finds the first matching row, and finds none only when no row matches. */
  lemma {:induction false} FirstMatchSpec(rows: seq<ShiftRow>, now: int)
    ensures FirstMatch(rows, now).None? <==> forall i :: 0 <= i < |rows| ==> !Matches(rows[i], now)
    ensures FirstMatch(rows, now).Some? ==>
      exists i :: IsFirstMatch(rows, now, i) && rows[i].id == FirstMatch(rows, now).value
  {
    if rows != [] && !Matches(rows[0], now) {
      FirstMatchSpec(rows[1..], now);
      if FirstMatch(rows, now).Some? {
        var i :| IsFirstMatch(rows[1..], now, i) && rows[1..][i].id == FirstMatch(rows, now).value;
        assert IsFirstMatch(rows, now, i + 1);
      } else {
        forall i | 0 <= i < |rows| ensures !Matches(rows[i], now) {
          if i > 0 { assert rows[i] == rows[1..][i - 1]; }
        }
      }
    } else if rows != [] {
      assert IsFirstMatch(rows, now, 0);
    }
  }

  /** Only one row is the first match: `FirstMatch` returns its id. */
  lemma {:induction false} FirstMatchUnique(rows: seq<ShiftRow>, now: int, i: int)
    requires IsFirstMatch(rows, now, i)
    ensures FirstMatch(rows, now) == Some(rows[i].id)
  {
    if i > 0 {
      assert !Matches(rows[0], now);
      assert IsFirstMatch(rows[1..], now, i - 1);
      FirstMatchUnique(rows[1..], now, i - 1);
    }
  }

  /**
   * `getTurnoPorHora`: walk the rows in order and return the id of the first
   * one whose window contains `now`; null when none does.
   */
  method ShiftByTime(rows: seq<ShiftRow>, now: int) returns (r: Option<int>)
    ensures r.None? <==> forall i :: 0 <= i < |rows| ==> !Matches(rows[i], now)
    ensures r.Some? ==> exists i :: IsFirstMatch(rows, now, i) && rows[i].id == r.value
    ensures r == FirstMatch(rows, now)
  {
    for i := 0 to |rows|
      invariant forall j :: 0 <= j < i ==> !Matches(rows[j], now)
      invariant FirstMatch(rows, now) == FirstMatch(rows[i..], now)
    {
      assert rows[i..][1..] == rows[i + 1..];
      if Matches(rows[i], now) {
        assert IsFirstMatch(rows, now, i);
        return Some(rows[i].id);
      }
    }
    return None;
  }

  /** A window that does not wrap holds exactly the minutes between its bounds, both included. */
  lemma PlainWindow(row: ShiftRow, now: int, start: int, end: int)
    requires ClockMinutes(row.horaInicio) == Num(start) && ClockMinutes(row.horaFin) == Num(end)
    requires start <= end
    ensures Matches(row, now) <==> start <= now <= end
  {
  }

  /** A wrapping window holds every minute except those strictly between its end and its start. */
  lemma WrappingWindow(row: ShiftRow, now: int, start: int, end: int)
    requires ClockMinutes(row.horaInicio) == Num(start) && ClockMinutes(row.horaFin) == Num(end)
    requires start > end
    ensures Matches(row, now) <==> !(end < now < start)
  {
  }

  /**
   * A start that does not parse makes the comparison `start <= end` false, so
   * the row is treated as wrapping and matches every minute up to its end.
   */
  lemma UnparsableStart(row: ShiftRow, now: int)
    requires ClockMinutes(row.horaInicio) == NaN
    ensures Matches(row, now) <==> JsLe(Num(now), ClockMinutes(row.horaFin))
  {
  }

  // ---------------------------------------------------------------------
  // Clock strings

  /** The `"HH:MM"` string of a minute of the day. */
  function FormatClock(m: int): (s: string)
    requires 0 <= m < Shifts.MinutesPerDay
    ensures |s| == 5 && s[2] == ':'
  {
    var h := m / 60;
    var mm := m % 60;
    [DigitChar(h / 10), DigitChar(h % 10), ':', DigitChar(mm / 10), DigitChar(mm % 10)]
  }

  /** A two-digit string is read as its decimal value. */
  lemma TwoDigits(a: int, b: int)
    requires 0 <= a < 10 && 0 <= b < 10
    ensures NumberOf([DigitChar(a), DigitChar(b)]) == Num(a * 10 + b)
  {
    var s := [DigitChar(a), DigitChar(b)];
    TrimOfTrimmed(s);
    assert s[..1] == [DigitChar(a)];
    assert [DigitChar(a)][..0] == [];
    assert DigitsValue([DigitChar(a)]) == a;
    assert DigitsValue(s) == DigitsValue(s[..1]) * 10 + b;
  }

  /** A clock string with one separator is read part by part. */
  lemma ClockOfParts(a: string, b: string)
    requires ':' !in a && ':' !in b
    ensures ClockMinutes(a + [':'] + b) == JsMulAdd(NumberOf(a), 60, NumberOf(b))
  {
    SplitAfter(a, b, ':');
    SplitNoSeparator(b, ':');
  }

  /** Round trip: a formatted minute parses back to itself. */
  lemma ClockRoundTrip(m: int)
    requires 0 <= m < Shifts.MinutesPerDay
    ensures ClockMinutes(FormatClock(m)) == Num(m)
  {
    var h, mm := m / 60, m % 60;
    var a := [DigitChar(h / 10), DigitChar(h % 10)];
    var b := [DigitChar(mm / 10), DigitChar(mm % 10)];
    assert FormatClock(m) == a + [':'] + b;
    ClockOfParts(a, b);
    TwoDigits(h / 10, h % 10);
    TwoDigits(mm / 10, mm % 10);
  }

  /** The same holds for the `"HH:MM:SS"` form: the seconds part is ignored. */
  lemma ClockWithSecondsRoundTrip(m: int, seconds: string)
    requires 0 <= m < Shifts.MinutesPerDay
    requires ':' !in seconds
    ensures ClockMinutes(FormatClock(m) + ":" + seconds) == Num(m)
  {
    var h, mm := m / 60, m % 60;
    var a := [DigitChar(h / 10), DigitChar(h % 10)];
    var b := [DigitChar(mm / 10), DigitChar(mm % 10)];
    assert FormatClock(m) + ":" + seconds == a + [':'] + (b + [':'] + seconds);
    SplitAfter(a, b + [':'] + seconds, ':');
    SplitAfter(b, seconds, ':');
    TwoDigits(h / 10, h % 10);
    TwoDigits(mm / 10, mm % 10);
  }

  // ---------------------------------------------------------------------
  // Agreement with the clock resolver

  /**
   * The scanner's fixed meal windows written as shift-table rows:
   * 04:00-08:30, 11:30-14:30 and 17:31-23:00.
   */
  const PolicyTable: seq<ShiftRow> := [
    ShiftRow(1, "Desayuno", FormatClock(240), FormatClock(510)),
    ShiftRow(2, "Almuerzo", FormatClock(690), FormatClock(870)),
    ShiftRow(3, "Cena", FormatClock(1051), FormatClock(1380))
  ]

  /** The bounds of the policy table, as text. */
  lemma PolicyTableText()
    ensures FormatClock(240) == "04:00" && FormatClock(510) == "08:30"
    ensures FormatClock(690) == "11:30" && FormatClock(870) == "14:30"
    ensures FormatClock(1051) == "17:31" && FormatClock(1380) == "23:00"
  {
  }

  /** A table whose rows, in order, carry the meal windows' ids and bounds. */
  predicate ListsMealWindows(rows: seq<ShiftRow>) {
    && |rows| == |Shifts.MealWindows|
    && forall k :: 0 <= k < |rows| ==>
      && rows[k].id == Shifts.MealWindows[k].shiftId
      && ClockMinutes(rows[k].horaInicio) == Num(Shifts.MealWindows[k].first)
      && ClockMinutes(rows[k].horaFin) == Num(Shifts.MealWindows[k].last)
  }

  /** The policy table lists the meal windows. */
  lemma PolicyTableListsMealWindows()
    ensures ListsMealWindows(PolicyTable)
  {
    forall k | 0 <= k < |PolicyTable|
      ensures ClockMinutes(PolicyTable[k].horaInicio) == Num(Shifts.MealWindows[k].first)
      ensures ClockMinutes(PolicyTable[k].horaFin) == Num(Shifts.MealWindows[k].last)
    {
      var w := Shifts.MealWindows[k];
      assert PolicyTable[k].horaInicio == FormatClock(w.first);
      assert PolicyTable[k].horaFin == FormatClock(w.last);
      ClockRoundTrip(w.first);
      ClockRoundTrip(w.last);
    }
  }

  /**
   * Over a table listing the fixed meal windows, the table resolver and the
   * clock resolver agree: the table yields the clock resolver's meal shift,
   * and null exactly where the clock resolver falls back to the cold ration.
   */
  lemma TableAgreesWithClock(rows: seq<ShiftRow>, m: int)
    requires ListsMealWindows(rows)
    ensures FirstMatch(rows, m) ==
      if Shifts.ResolveShift(m).id == 4 then None else Some(Shifts.ResolveShift(m).id)
  {
    Shifts.MealWindowsFacts(m);
    assert Shifts.MealWindows[0] == Shifts.Window(1, 240, 510);
    assert Shifts.MealWindows[1] == Shifts.Window(2, 690, 870);
    assert Shifts.MealWindows[2] == Shifts.Window(3, 1051, 1380);
    PlainWindow(rows[0], m, 240, 510);
    PlainWindow(rows[1], m, 690, 870);
    PlainWindow(rows[2], m, 1051, 1380);
    var r1, r2 := rows[1..], rows[1..][1..];
    assert r1[0] == rows[1] && r2[0] == rows[2] && r2[1..] == [];
    assert FirstMatch(r2, m) == if Matches(rows[2], m) then Some(3) else None;
    assert FirstMatch(r1, m) == if Matches(rows[1], m) then Some(2) else FirstMatch(r2, m);
  }
}
