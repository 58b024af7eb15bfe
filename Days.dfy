/** The seven fixed days of the week plan, in calendar order. */
module Days {

  const DAYS: seq<string> := ["Monday", "Tuesday", "Wednesday", "Thursday", "Friday", "Saturday", "Sunday"]

  /** The `CASE day WHEN 'Monday' THEN 1 ... WHEN 'Sunday' THEN 7 END`
      ordering key of the recipe listing. A day outside the list gives SQL
      NULL, which sorts before every number; it is written 0 here. */
  function DayRank(day: string): (n: nat)
    ensures n <= |DAYS|
    ensures n == 0 <==> day !in DAYS
    ensures n > 0 ==> DAYS[n - 1] == day
  {
    if day == "Monday" then 1
    else if day == "Tuesday" then 2
    else if day == "Wednesday" then 3
    else if day == "Thursday" then 4
    else if day == "Friday" then 5
    else if day == "Saturday" then 6
    else if day == "Sunday" then 7
    else 0
  }

  /** No day name appears twice in `DAYS`. */
  lemma DaysDistinct()
    ensures forall i, j :: 0 <= i < j < |DAYS| ==> DAYS[i] != DAYS[j]
  {
    forall i, j | 0 <= i < j < |DAYS| ensures DAYS[i] != DAYS[j] {
      assert DayRank(DAYS[i]) == i + 1 && DayRank(DAYS[j]) == j + 1;
    }
  }
}
