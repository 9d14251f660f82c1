/** The ANC checkup schedule and `calculateNextANCDate`
    (backend/cron/send_reminders.php). */
module AncSchedule {
  import opened Wrappers
  import opened Calendar

  /** Recommended checkup weeks, counted from the last menstrual period. */
  const Weeks: seq<int> := [8, 12, 16, 20, 24, 28, 30, 32, 34, 36, 37, 38, 39, 40]

  /** The last scheduled week. */
  const FinalWeek: int := 40

  predicate StrictlyIncreasing(s: seq<int>) {
    forall i, j :: 0 <= i < j < |s| ==> s[i] < s[j]
  }

  /** A sequence that rises at every step rises between any two positions. */
  lemma {:induction false} StepwiseIncreasing(s: seq<int>)
    requires forall i :: 0 <= i < |s| - 1 ==> s[i] < s[i + 1]
    ensures StrictlyIncreasing(s)
  {
    if |s| > 1 {
      StepwiseIncreasing(s[1..]);
      forall i, j | 0 <= i < j < |s|
        ensures s[i] < s[j]
      {
        if 0 < i {
          assert s[i] == s[1..][i - 1] && s[j] == s[1..][j - 1];
        } else if 1 < j {
          assert s[1] == s[1..][0] && s[j] == s[1..][j - 1];
        }
      }
    }
  }

  lemma WeeksStrictlyIncreasing()
    ensures StrictlyIncreasing(Weeks)
    ensures forall i :: 0 <= i < |Weeks| ==> Weeks[i] <= FinalWeek
  {
    StepwiseIncreasing(Weeks);
  }

  /** Index of the first element of `s` strictly greater than `x` — the
      `foreach` with an early `return`. */
  function FirstAbove(s: seq<int>, x: int): (r: Option<nat>)
    ensures r.Some? ==> r.value < |s| && s[r.value] > x
                        && forall j :: 0 <= j < r.value ==> s[j] <= x
    ensures r.None? ==> forall j :: 0 <= j < |s| ==> s[j] <= x
  {
    if |s| == 0 then None
    else if s[0] > x then Some(0)
    else match FirstAbove(s[1..], x)
      case None => None
      case Some(i) => Some(i + 1)
  }

  /** The week of the next checkup after `currentWeek`: the first scheduled
      week strictly after it, which, the schedule being increasing, is the
      smallest such week. None once week 40 is reached. */
  function NextAncWeek(currentWeek: int): (r: Option<int>)
    ensures r.Some? <==> currentWeek < FinalWeek
    ensures r.Some? ==> r.value in Weeks && r.value > currentWeek
    ensures r.Some? ==> forall w :: w in Weeks && w > currentWeek ==> r.value <= w
    ensures r.Some? ==> r.value >= 8
  {
    WeeksStrictlyIncreasing();
    match FirstAbove(Weeks, currentWeek)
    case None =>
      assert Weeks[|Weeks| - 1] == FinalWeek;
      None
    case Some(i) => Some(Weeks[i])
  }

  /** What `calculateNextANCDate` does: a visit date, `null`, or an
      exception from `new DateTime($lmpDate)`. */
  datatype NextVisit = VisitOn(day: Day) | NoFurtherVisit | UnparseableLmp

  /** `calculateNextANCDate($currentWeek, $lmpDate)`. The LMP text is only
      read once a later scheduled week exists, so a finished pregnancy never
      raises, whatever its LMP. */
  function NextAncDate(currentWeek: int, lmpDate: string): (r: NextVisit)
    ensures r.NoFurtherVisit? <==> currentWeek >= FinalWeek
    ensures r.UnparseableLmp? <==> currentWeek < FinalWeek && ParseDay(lmpDate).None?
    ensures r.VisitOn? ==>
      && ParseDay(lmpDate).Some?
      && NextAncWeek(currentWeek).Some?
      && r.day == ParseDay(lmpDate).value + 7 * NextAncWeek(currentWeek).value
    ensures r.VisitOn? ==> r.day >= 56
  {
    match NextAncWeek(currentWeek)
    case None => NoFurtherVisit
    case Some(week) =>
      match ParseDay(lmpDate)
      case None => UnparseableLmp
      case Some(lmp) => VisitOn(lmp + 7 * week)
  }

  /** The worked example, in any year: LMP on the first of January in week 6
      gives the week-8 visit on the 26th of February (2024-01-01 gives
      2024-02-26). */
  lemma WorkedExampleVisit(y: int)
    requires 1 <= y <= 9999
    ensures NextAncDate(6, IsoText(Date(y, 1, 1))) == VisitOn(ToOrdinal(Date(y, 2, 26)))
  {
    ParseIsoText(Date(y, 1, 1));
    assert NextAncWeek(6) == Some(8) by {
      assert Weeks[0] == 8;
    }
  }

  /** Across a leap day: LMP on the 20th of December in week 10 gives the
      week-12 visit on the 13th of March when the new year is a leap year
      (2023-12-20 gives 2024-03-13) and on the 14th otherwise. */
  lemma LeapYearVisit(y: int)
    requires 2 <= y <= 9999
    ensures NextAncDate(10, IsoText(Date(y - 1, 12, 20)))
            == VisitOn(ToOrdinal(Date(y, 3, if IsLeapYear(y) then 13 else 14)))
  {
    ParseIsoText(Date(y - 1, 12, 20));
    assert NextAncWeek(10) == Some(12) by {
      assert Weeks[1] == 12;
    }
    TwelveWeeksFromDecember20(y);
  }

  /** 84 days after the 20th of December is the 13th of March after a
      leap day and the 14th otherwise. */
  lemma TwelveWeeksFromDecember20(y: int)
    requires 2 <= y <= 9999
    ensures ToOrdinal(Date(y, 3, if IsLeapYear(y) then 13 else 14))
            == ToOrdinal(Date(y - 1, 12, 20)) + 84
  {
    var before := DaysBeforeYear(y - 1);
    assert DaysBeforeYear(y) == before + YearLength(y - 1);
    assert DaysBeforeMonth(y - 1, 12) + 31 == YearLength(y - 1);
    assert ToOrdinal(Date(y - 1, 12, 20)) + 12 == DaysBeforeYear(y);
    assert DaysBeforeMonth(y, 3) == 59 + (if IsLeapYear(y) then 1 else 0);
  }
}
