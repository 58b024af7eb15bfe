/** The weekly plan: what `randomize_selected_days` must produce
    (main.py:109-129) and the text `_update_plan_text` shows for it
    (main.py:131-137). */
module Plan {
  import opened Wrappers
  import opened Seqs
  import opened Text
  import opened Days
  import opened Store

  /** `self.week_plan`: day name to `None` or the chosen `(id, name)`. */
  type WeekPlan = map<string, Option<Pick>>

  /** Some recipe of `day` is active. */
  predicate HasEligible(rs: seq<Recipe>, day: string)
  {
    exists row :: row in rs && row.day == day && row.active
  }

  /** `p` is the id and name of an active recipe of `day`. */
  predicate Eligible(rs: seq<Recipe>, day: string, p: Pick)
  {
    exists row :: row in rs && Offers(row, day, p)
  }

  /** What the generator may leave for one day: nothing exactly when the
      day is not selected or has no active recipe, and otherwise an active
      recipe of that very day. */
  ghost predicate DayFits(entry: Option<Pick>, day: string, selected: set<string>, rs: seq<Recipe>)
  {
    && (entry.None? <==> day !in selected || !HasEligible(rs, day))
    && (entry.Some? ==> Eligible(rs, day, entry.value))
  }

  /** A generated plan: the seven days as keys, each filled as `DayFits`
      allows. */
  ghost predicate PlanFits(plan: WeekPlan, selected: set<string>, rs: seq<Recipe>)
  {
    && (forall d :: d in plan <==> d in DAYS)
    && forall d :: d in plan ==> DayFits(plan[d], d, selected, rs)
  }

  /** A generated plan holds exactly seven entries, one per day: the
      days of `DAYS` are distinct. */
  lemma PlanHasSevenDays(plan: WeekPlan, selected: set<string>, rs: seq<Recipe>)
    requires PlanFits(plan, selected, rs)
    ensures |plan| == |DAYS|
  {
    assert plan.Keys == set d | d in DAYS;
    DaysDistinct();
    DistinctCard(DAYS);
  }

  /** The choice `random.choice` makes among the day's candidates is always
      acceptable, and an empty candidate list means the day is left empty. */
  lemma {:induction false} CandidatesFit(rs: seq<Recipe>, day: string, selected: set<string>, k: int)
    requires day in selected
    ensures ActiveOn(rs, day) == [] ==> DayFits(None, day, selected, rs)
    ensures 0 <= k < |ActiveOn(rs, day)| ==> DayFits(Some(ActiveOn(rs, day)[k]), day, selected, rs)
  {
    var c := ActiveOn(rs, day);
    if 0 <= k < |c| {
      assert c[k] in c;
      var row :| row in rs && Offers(row, day, c[k]);
      assert row.day == day && row.active;
    }
  }

  const NoRecipeText: string := "(No recipe assigned)"

  /** What the plan text shows after `day: `. */
  function Shown(plan: WeekPlan, day: string): string
  {
    if day in plan && plan[day].Some? then plan[day].value.name else NoRecipeText
  }

  function PlanLine(plan: WeekPlan, day: string): string
  {
    day + ": " + Shown(plan, day)
  }

  /** A line with its line break. */
  function PlanRow(plan: WeekPlan, day: string): string
  {
    PlanLine(plan, day) + "\n"
  }

  function PlanLines(plan: WeekPlan, days: seq<string>): string
  {
    if days == [] then [] else PlanRow(plan, days[0]) + PlanLines(plan, days[1..])
  }

  lemma {:induction false} PlanLinesAppend(plan: WeekPlan, days: seq<string>, day: string)
    ensures PlanLines(plan, days + [day]) == PlanLines(plan, days) + PlanRow(plan, day)
  {
    if days != [] {
      var head := PlanRow(plan, days[0]);
      assert (days + [day])[0] == days[0];
      assert PlanLines(plan, days + [day]) == head + PlanLines(plan, (days + [day])[1..]);
      DropAppend(days, day);
      PlanLinesAppend(plan, days[1..], day);
      AppendAssoc(head, PlanLines(plan, days[1..]), PlanRow(plan, day));
    } else {
      assert [] + [day] == [day];
      AppendEmpty(PlanRow(plan, day));
    }
  }

  /** The text `_update_plan_text` writes: one line per day of `DAYS`. */
  function PlanText(plan: WeekPlan): string
  {
    PlanLines(plan, DAYS)
  }

  /** No recipe name in the plan spans a line break. */
  predicate SingleLineNames(plan: WeekPlan)
  {
    forall d :: d in plan && plan[d].Some? ==> '\n' !in plan[d].value.name
  }

  lemma LineHasNoBreak(plan: WeekPlan, day: string)
    requires SingleLineNames(plan) && '\n' !in day
    ensures '\n' !in PlanLine(plan, day)
  {
    assert '\n' !in Shown(plan, day);
  }

  /** `lines` are the lines of `days`, followed by the empty remainder
      after the last line break. */
  predicate LinesOfDays(lines: seq<string>, plan: WeekPlan, days: seq<string>)
  {
    && |lines| == |days| + 1 && lines[|days|] == []
    && forall k :: 0 <= k < |days| ==> lines[k] == PlanLine(plan, days[k])
  }

  lemma {:induction false} PlanLinesSplit(plan: WeekPlan, days: seq<string>)
    requires SingleLineNames(plan)
    requires forall k :: 0 <= k < |days| ==> '\n' !in days[k]
    ensures LinesOfDays(Split(PlanLines(plan, days), '\n'), plan, days)
  {
    if days == [] {
      assert Split([], '\n') == [[]];
    } else {
      var line := PlanLine(plan, days[0]);
      var rest := PlanLines(plan, days[1..]);
      assert PlanLines(plan, days) == line + ['\n'] + rest;
      LineHasNoBreak(plan, days[0]);
      SplitFirst(line, rest, '\n');
      PlanLinesSplit(plan, days[1..]);
      LinesOfDaysCons(line, Split(rest, '\n'), plan, days);
    }
  }

  lemma LinesOfDaysCons(line: string, tail: seq<string>, plan: WeekPlan, days: seq<string>)
    requires days != [] && line == PlanLine(plan, days[0]) && LinesOfDays(tail, plan, days[1..])
    ensures LinesOfDays([line] + tail, plan, days)
  {
    var lines := [line] + tail;
    forall k | 0 < k < |days| ensures lines[k] == PlanLine(plan, days[k]) {
      assert lines[k] == tail[k - 1];
      assert days[1..][k - 1] == days[k];
    }
  }

  /** Read back line by line, the plan text has exactly seven lines, the
      k-th naming the k-th day of `DAYS` and its recipe or the placeholder,
      each ended by a line break. */
  lemma PlanTextLines(plan: WeekPlan)
    requires SingleLineNames(plan)
    ensures var lines := Split(PlanText(plan), '\n');
      && |lines| == |DAYS| + 1 && lines[|DAYS|] == []
      && forall k :: 0 <= k < |DAYS| ==> lines[k] == DAYS[k] + ": " + Shown(plan, DAYS[k])
  {
    PlanLinesSplit(plan, DAYS);
  }

  /** The loop of `randomize_selected_days` over `DAYS`. */
  method DrawPlan(selected: set<string>, rs: seq<Recipe>) returns (plan: WeekPlan)
    ensures PlanFits(plan, selected, rs)
  {
    plan := map[];
    for j := 0 to |DAYS|
      invariant forall d :: d in plan <==> d in DAYS[..j]
      invariant forall d :: d in plan ==> DayFits(plan[d], d, selected, rs)
    {
      var day := DAYS[j];
      if day in selected {
        var candidates := ActiveOn(rs, day);
        if candidates != [] {
          var k :| 0 <= k < |candidates|;
          CandidatesFit(rs, day, selected, k);
          plan := plan[day := Some(candidates[k])];
        } else {
          CandidatesFit(rs, day, selected, 0);
          plan := plan[day := None];
        }
      } else {
        plan := plan[day := None];
      }
      TakeOneMore(DAYS, j);
    }
    assert DAYS[..|DAYS|] == DAYS;
  }

  /** The loop of `_update_plan_text` over `DAYS`. */
  method RenderPlan(plan: WeekPlan) returns (text: string)
    ensures text == PlanText(plan)
  {
    text := "";
    for j := 0 to |DAYS|
      invariant text == PlanLines(plan, DAYS[..j])
    {
      var day := DAYS[j];
      var line;
      if day in plan && plan[day].Some? {
        line := day + ": " + plan[day].value.name + "\n";
      } else {
        line := day + ": " + NoRecipeText + "\n";
      }
      PlanLinesAppend(plan, DAYS[..j], day);
      TakeOneMore(DAYS, j);
      text := text + line;
    }
    assert DAYS[..|DAYS|] == DAYS;
  }
}
