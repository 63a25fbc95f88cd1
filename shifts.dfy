/**
 * The scanner screen's clock-driven meal shift: a fixed, total mapping from
 * the minute of the day to one of four shifts (breakfast, lunch, dinner and
 * the "cold ration" fallback), and the picker's id-to-name table.
 */
module Shifts {

  /** A meal shift as the scanner screen holds it: `{ id, nombre }`. */
  datatype Shift = Shift(id: int, nombre: string)

  const MinutesPerDay: int := 1440

  /** `getHours() * 60 + getMinutes()`. */
  function MinuteOfDay(hours: int, minutes: int): (m: int)
    requires 0 <= hours < 24 && 0 <= minutes < 60
    ensures 0 <= m < MinutesPerDay
    ensures m / 60 == hours && m % 60 == minutes
  {
    hours * 60 + minutes
  }

  /**
   * The shift for a minute of the day: three inclusive meal windows, an
   * explicit cold-ration branch for the gaps between them, and the cold
   * ration again for every other minute.
   */
  function ResolveShift(minutes: int): (s: Shift)
    ensures 1 <= s.id <= 4 && s.nombre == PickerName(s.id)
  {
    if 240 <= minutes <= 510 then Shift(1, "Desayuno")
    else if 690 <= minutes <= 870 then Shift(2, "Almuerzo")
    else if 1051 <= minutes <= 1380 then Shift(3, "Cena")
    else if (511 <= minutes <= 689) || (871 <= minutes <= 1050) then Shift(4, "Rancho Frio")
    else Shift(4, "Rancho Frio")
  }

  /** The name the shift picker gives an id: anything but 1, 2, 3 is the cold ration. */
  function PickerName(id: int): (name: string)
    ensures name in {"Desayuno", "Almuerzo", "Cena", "Rancho Frio"}
    ensures name == "Rancho Frio" <==> !(1 <= id <= 3)
  {
    if id == 1 then "Desayuno"
    else if id == 2 then "Almuerzo"
    else if id == 3 then "Cena"
    else "Rancho Frio"
  }

  /** An inclusive window of minutes claimed by one shift. */
  datatype Window = Window(shiftId: int, first: int, last: int)

  predicate InWindow(m: int, w: Window) {
    w.first <= m <= w.last
  }

  /** The three meal windows of the policy, in the order the resolver tests them. */
  const MealWindows: seq<Window> := [Window(1, 240, 510), Window(2, 690, 870), Window(3, 1051, 1380)]

  /** The gaps the resolver names explicitly as cold ration. */
  const ColdWindows: seq<Window> := [Window(4, 511, 689), Window(4, 871, 1050)]

  /** The meal windows never overlap, so no minute is claimed twice. */
  lemma MealWindowsDisjoint(m: int, i: int, j: int)
    requires 0 <= i < j < |MealWindows|
    ensures !(InWindow(m, MealWindows[i]) && InWindow(m, MealWindows[j]))
  {
  }

  /**
   * Every minute resolves to exactly one of the ids 1..4: to the id of the meal
   * window containing it, and to 4 exactly when no meal window does; the name
   * is the one the picker gives that id.
   */
  lemma ResolveShiftPartition(m: int)
    ensures 1 <= ResolveShift(m).id <= 4
    ensures forall k :: 0 <= k < |MealWindows| ==>
      (ResolveShift(m).id == MealWindows[k].shiftId <==> InWindow(m, MealWindows[k]))
    ensures ResolveShift(m).id == 4 <==> forall k :: 0 <= k < |MealWindows| ==> !InWindow(m, MealWindows[k])
    ensures ResolveShift(m).nombre == PickerName(ResolveShift(m).id)
  {
    MealWindowsFacts(m);
  }

  /** The three meal windows, spelled out one by one. */
  lemma MealWindowsFacts(m: int)
    ensures (forall k :: 0 <= k < |MealWindows| ==> !InWindow(m, MealWindows[k]))
      <==> !(240 <= m <= 510) && !(690 <= m <= 870) && !(1051 <= m <= 1380)
  {
    assert MealWindows[0] == Window(1, 240, 510);
    assert MealWindows[1] == Window(2, 690, 870);
    assert MealWindows[2] == Window(3, 1051, 1380);
  }

  /**
   * The explicit cold-ration branch changes nothing: a minute it names lies in
   * no meal window, and every minute of the day is in some window, so the
   * final fallback is only reached outside 04:00-23:00.
   */
  lemma ColdBranchIsFallback(m: int)
    requires 0 <= m < MinutesPerDay
    ensures (exists k :: 0 <= k < |ColdWindows| && InWindow(m, ColdWindows[k])) ==>
      forall k :: 0 <= k < |MealWindows| ==> !InWindow(m, MealWindows[k])
    ensures (forall k :: 0 <= k < |MealWindows| ==> !InWindow(m, MealWindows[k])) &&
      (forall k :: 0 <= k < |ColdWindows| ==> !InWindow(m, ColdWindows[k]))
      <==> m < 240 || m > 1380
  {
    MealWindowsFacts(m);
    assert ColdWindows[0] == Window(4, 511, 689);
    assert ColdWindows[1] == Window(4, 871, 1050);
  }

  /** Each window edge and the minute next to it. */
  lemma ShiftBoundaries()
    ensures ResolveShift(239).id == 4 && ResolveShift(240).id == 1
    ensures ResolveShift(510).id == 1 && ResolveShift(511).id == 4
    ensures ResolveShift(689).id == 4 && ResolveShift(690).id == 2
    ensures ResolveShift(870).id == 2 && ResolveShift(871).id == 4
    ensures ResolveShift(1050).id == 4 && ResolveShift(1051).id == 3
    ensures ResolveShift(1380).id == 3 && ResolveShift(1381).id == 4
  {
  }
}
