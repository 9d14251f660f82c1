/** The pure parts of the patient dashboard
    (frontend/dashboards/patient_dashboard.php): the pregnancy milestones,
    how the timeline labels them, and the countdown to the due date. */
module PatientDashboard {
  import opened Calendar

  /** One entry of `getTrimesterMilestones`. */
  datatype Milestone = Milestone(week: int, title: string, completed: bool)

  /** The milestone titles, in list order. */
  const MilestoneTitles: seq<string> := [
    "Pregnancy confirmed", "First prenatal visit", "End of first trimester",
    "Gender determination possible", "Anatomy scan", "Viability milestone",
    "Start of third trimester", "Frequent monitoring begins", "Full term approaches",
    "Due date"]

  /** `getTrimesterMilestones($currentWeek)`: ten milestones every four
      weeks from week 4 to week 40, each completed exactly when the current
      week has reached it. */
  function TrimesterMilestones(currentWeek: int): (ms: seq<Milestone>)
    ensures |ms| == 10 == |MilestoneTitles|
    ensures forall i :: 0 <= i < |ms| ==> ms[i].week == 4 * (i + 1) && ms[i].title == MilestoneTitles[i]
    ensures forall i :: 0 <= i < |ms| ==> (ms[i].completed <==> currentWeek >= ms[i].week)
  {
    seq(|MilestoneTitles|, i requires 0 <= i < |MilestoneTitles| =>
      Milestone(4 * (i + 1), MilestoneTitles[i], currentWeek >= 4 * (i + 1)))
  }

  /** The weeks are strictly ascending, and the completed milestones form a
      prefix of the list. */
  lemma MilestonesOrdered(currentWeek: int)
    ensures var ms := TrimesterMilestones(currentWeek);
            && (forall i, j :: 0 <= i < j < |ms| ==> ms[i].week < ms[j].week)
            && (forall i, j :: 0 <= i < j < |ms| && ms[j].completed ==> ms[i].completed)
  {
  }

  /** How many milestones of `ms` are completed. */
  function CompletedCount(ms: seq<Milestone>): (n: nat)
    ensures n <= |ms|
  {
    if |ms| == 0 then 0
    else CompletedCount(ms[..|ms| - 1]) + (if ms[|ms| - 1].completed then 1 else 0)
  }

  function Min(a: int, b: int): int { if a <= b then a else b }

  function Max(a: int, b: int): int { if a >= b then a else b }

  /** Among the first `k` milestones, as many are completed as there are
      whole four-week periods in the current week, capped at `k`. */
  lemma {:induction false} CompletedPrefixCount(currentWeek: int, k: nat)
    requires k <= 10
    ensures CompletedCount(TrimesterMilestones(currentWeek)[..k]) == Min(k, Max(0, currentWeek / 4))
  {
    if k > 0 {
      var ms := TrimesterMilestones(currentWeek);
      CompletedPrefixCount(currentWeek, k - 1);
      assert ms[..k][..k - 1] == ms[..k - 1];
      assert ms[..k][k - 1] == ms[k - 1];
    }
  }

  /** The number of completed milestones is min(10, max(0, week div 4)). */
  lemma CompletedMilestones(currentWeek: int)
    ensures CompletedCount(TrimesterMilestones(currentWeek)) == Min(10, Max(0, currentWeek / 4))
  {
    var ms := TrimesterMilestones(currentWeek);
    CompletedPrefixCount(currentWeek, 10);
    assert ms[..10] == ms;
  }

  /** The three labels of a timeline item. */
  datatype TimelineStatus = Completed | Current | Upcoming

  /** The label chosen in lines 234-243: the completed flag first, then
      whether the milestone's week is the current week. */
  function StatusOf(m: Milestone, currentWeek: int): TimelineStatus {
    if m.completed then Completed
    else if m.week == currentWeek then Current
    else Upcoming
  }

  /** A milestone of the list is labelled Completed when the current week
      has reached it and Upcoming otherwise: the Current label is never
      shown, since a milestone in the current week is already completed. */
  lemma TimelineNeverCurrent(currentWeek: int, i: nat)
    requires i < 10
    ensures var m := TrimesterMilestones(currentWeek)[i];
            StatusOf(m, currentWeek) == (if currentWeek >= m.week then Completed else Upcoming)
            && StatusOf(m, currentWeek) != Current
  {
  }

  const MicrosPerDay: nat := 86_400_000_000

  /** A clock reading: a day and the microseconds elapsed since its midnight,
      as `new DateTime()` carries them. */
  datatype Instant = Instant(day: Day, micro: nat)

  predicate ValidInstant(t: Instant) {
    t.micro < MicrosPerDay
  }

  function Micros(t: Instant): int {
    t.day * MicrosPerDay + t.micro
  }

  /** `$daysUntilEDD` (lines 47-56): the whole days of the interval between
      now and midnight starting the due date, as `DateTime::diff()->days`
      counts them, and 0 once that midnight has passed. */
  function DaysUntilEdd(now: Instant, edd: Day): (days: nat)
    requires ValidInstant(now)
    ensures Micros(Instant(edd, 0)) < Micros(now) ==> days == 0
    ensures Micros(Instant(edd, 0)) >= Micros(now) ==>
              days * MicrosPerDay <= Micros(Instant(edd, 0)) - Micros(now) < (days + 1) * MicrosPerDay
  {
    var diff := Micros(Instant(edd, 0)) - Micros(now);
    var days := (if diff < 0 then -diff else diff) / MicrosPerDay;
    if edd * MicrosPerDay < Micros(now) then 0 else Max(0, days)
  }

  /** In calendar terms: the days from today to the due date, one fewer
      once today's midnight is behind, never below zero. */
  lemma DaysUntilEddInDays(now: Instant, edd: Day)
    requires ValidInstant(now)
    ensures DaysUntilEdd(now, edd)
            == if edd < now.day || (edd == now.day && now.micro > 0) then 0
               else edd - now.day - (if now.micro > 0 then 1 else 0)
  {
    var d := DaysUntilEdd(now, edd);
    if edd > now.day || (edd == now.day && now.micro == 0) {
      var expected := edd - now.day - (if now.micro > 0 then 1 else 0);
      assert expected * MicrosPerDay <= Micros(Instant(edd, 0)) - Micros(now) < (expected + 1) * MicrosPerDay;
      UniqueQuotient(Micros(Instant(edd, 0)) - Micros(now), d, expected);
    }
  }

  /** A fraction of a second past midnight already costs a day: two days
      before the due date, at 00:00:00.3, the countdown shows 1. */
  lemma JustPastMidnight(today: Day)
    ensures DaysUntilEdd(Instant(today, 300_000), today + 2) == 1
  {
    DaysUntilEddInDays(Instant(today, 300_000), today + 2);
  }

  /** At most one whole-day count fits an interval. */
  lemma UniqueQuotient(x: int, a: int, b: int)
    requires a * MicrosPerDay <= x < (a + 1) * MicrosPerDay
    requires b * MicrosPerDay <= x < (b + 1) * MicrosPerDay
    ensures a == b
  {
    assert a * MicrosPerDay < (b + 1) * MicrosPerDay;
    assert b * MicrosPerDay < (a + 1) * MicrosPerDay;
  }

  /** The countdown never grows as time passes. */
  lemma DaysUntilEddMonotone(now: Instant, later: Instant, edd: Day)
    requires ValidInstant(now) && ValidInstant(later)
    requires Micros(now) <= Micros(later)
    ensures DaysUntilEdd(later, edd) <= DaysUntilEdd(now, edd)
  {
    DaysUntilEddInDays(now, edd);
    DaysUntilEddInDays(later, edd);
  }
}
