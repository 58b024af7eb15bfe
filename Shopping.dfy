/** The shopping list of `update_shopping_list` (main.py:146-173): which
    recipes of the week plan use each ingredient, and the text shown for it. */
module Shopping {
  import opened Wrappers
  import opened Seqs
  import opened Text
  import opened Store
  import opened Plan

  /** `ingredient_map`: ingredient name to the names of the recipes using it. */
  type IngredientMap = map<string, set<string>>

  /** The recipe planned for `day` is joined to an ingredient named `i`. */
  predicate Supplies(plan: WeekPlan, ls: seq<Link>, xs: seq<Ingredient>, day: string, i: string)
  {
    day in plan && plan[day].Some? && i in IngredientNames(ls, xs, plan[day].value.id)
  }

  /** Every ingredient some planned recipe is joined to. */
  function Needed(plan: WeekPlan, ls: seq<Link>, xs: seq<Ingredient>): set<string>
  {
    set d, i | d in plan && plan[d].Some? && i in IngredientNames(ls, xs, plan[d].value.id) :: i
  }

  /** The names of the planned recipes joined to ingredient `i`. */
  function Users(plan: WeekPlan, ls: seq<Link>, xs: seq<Ingredient>, i: string): set<string>
  {
    set d | d in plan && Supplies(plan, ls, xs, d, i) :: plan[d].value.name
  }

  lemma NeededMembership(plan: WeekPlan, ls: seq<Link>, xs: seq<Ingredient>, i: string)
    ensures i in Needed(plan, ls, xs) <==> exists d :: Supplies(plan, ls, xs, d, i)
  {
    if exists d :: Supplies(plan, ls, xs, d, i) {
      var d :| Supplies(plan, ls, xs, d, i);
      assert d in plan && plan[d].Some? && i in IngredientNames(ls, xs, plan[d].value.id);
      assert i in Needed(plan, ls, xs);
    }
    if i in Needed(plan, ls, xs) {
      var d, j :| d in plan && plan[d].Some? && j in IngredientNames(ls, xs, plan[d].value.id) && i == j;
      assert Supplies(plan, ls, xs, d, i);
    }
  }

  /** The ingredient map the shopping list is built from: `i` is listed
      exactly when a planned recipe is joined to it, and lists recipe name
      `n` exactly when a day of the plan holds a recipe named `n` that is
      joined to `i`. A recipe planned on several days counts once. */
  function ShoppingMap(plan: WeekPlan, ls: seq<Link>, xs: seq<Ingredient>): (m: IngredientMap)
    ensures forall i :: i in m <==> exists d :: Supplies(plan, ls, xs, d, i)
    ensures forall i :: i in m ==> m[i] != {}
    ensures forall i, n :: i in m ==>
      (n in m[i] <==> exists d :: Supplies(plan, ls, xs, d, i) && plan[d].value.name == n)
  {
    var m := map i | i in Needed(plan, ls, xs) :: Users(plan, ls, xs, i);
    assert forall i :: i in m <==> exists d :: Supplies(plan, ls, xs, d, i) by {
      forall i ensures i in m <==> exists d :: Supplies(plan, ls, xs, d, i) {
        NeededMembership(plan, ls, xs, i);
      }
    }
    assert forall i :: i in m ==> m[i] != {} by {
      forall i | i in m ensures m[i] != {} {
        var d :| Supplies(plan, ls, xs, d, i);
        assert plan[d].value.name in Users(plan, ls, xs, i);
      }
    }
    m
  }

  /** The ingredient names a plan entry contributes. */
  function EntryNames(entry: Option<Pick>, ls: seq<Link>, xs: seq<Ingredient>): seq<string>
  {
    if entry.Some? then IngredientNames(ls, xs, entry.value.id) else []
  }

  /** The recipe name a plan entry contributes to ingredient `i`. */
  function EntryUser(entry: Option<Pick>, ls: seq<Link>, xs: seq<Ingredient>, i: string): set<string>
  {
    if entry.Some? && i in EntryNames(entry, ls, xs) then {entry.value.name} else {}
  }

  /** Adding one more day to the plan adds that day's ingredients... */
  lemma NeededStep(plan: WeekPlan, ls: seq<Link>, xs: seq<Ingredient>, d: string, e: Option<Pick>)
    requires d !in plan
    ensures Needed(plan[d := e], ls, xs) == Needed(plan, ls, xs) + (set x | x in EntryNames(e, ls, xs))
  {
    var after := plan[d := e];
    var lhs := Needed(after, ls, xs);
    var rhs := Needed(plan, ls, xs) + (set x | x in EntryNames(e, ls, xs));
    forall i ensures i in lhs <==> i in rhs {
      NeededMembership(after, ls, xs, i);
      NeededMembership(plan, ls, xs, i);
      if i in lhs {
        var d' :| Supplies(after, ls, xs, d', i);
        if d' != d {
          assert Supplies(plan, ls, xs, d', i);
        }
      }
      if i in Needed(plan, ls, xs) {
        var d' :| Supplies(plan, ls, xs, d', i);
        assert Supplies(after, ls, xs, d', i);
      }
      if i in EntryNames(e, ls, xs) {
        assert Supplies(after, ls, xs, d, i);
      }
    }
  }

  /** ... and adds that day's recipe name to each of them. */
  lemma UsersStep(plan: WeekPlan, ls: seq<Link>, xs: seq<Ingredient>, d: string, e: Option<Pick>, i: string)
    requires d !in plan
    ensures Users(plan[d := e], ls, xs, i) == Users(plan, ls, xs, i) + EntryUser(e, ls, xs, i)
  {
    var after := plan[d := e];
    var lhs := Users(after, ls, xs, i);
    var rhs := Users(plan, ls, xs, i) + EntryUser(e, ls, xs, i);
    forall u ensures u in lhs <==> u in rhs {
      if u in lhs {
        var d' :| d' in after && Supplies(after, ls, xs, d', i) && after[d'].value.name == u;
        if d' != d {
          assert Supplies(plan, ls, xs, d', i);
        }
      }
      if u in Users(plan, ls, xs, i) {
        var d' :| d' in plan && Supplies(plan, ls, xs, d', i) && plan[d'].value.name == u;
        assert Supplies(after, ls, xs, d', i);
      }
      if u in EntryUser(e, ls, xs, i) {
        assert Supplies(after, ls, xs, d, i);
      }
    }
  }

  /** An ingredient no planned recipe needs has no users. */
  lemma UsersOutside(plan: WeekPlan, ls: seq<Link>, xs: seq<Ingredient>, i: string)
    requires i !in Needed(plan, ls, xs)
    ensures Users(plan, ls, xs, i) == {}
  {
    NeededMembership(plan, ls, xs, i);
  }

  const NoRecipesMessage: string := "No recipes assigned to the weekly plan."
  const ShoppingHeader: string := "Shopping List:\n\n"

  /** One line of the list: an ingredient and the recipes that use it. */
  datatype ShoppingLine = ShoppingLine(ingredient: string, usedIn: seq<string>)

  /** A line for an ingredient of `m`, listing each of its recipe names
      once, in strictly increasing order. */
  ghost predicate LineOf(m: IngredientMap, line: ShoppingLine)
  {
    && line.ingredient in m
    && StrictlyIncreasing(line.usedIn)
    && forall n :: n in line.usedIn <==> n in m[line.ingredient]
  }

  /** The list in display order: ingredients in strictly increasing order,
      so each at most once, each line listing exactly
      that ingredient's recipe names, deduplicated and in strictly
      increasing order. */
  function ShoppingLines(m: IngredientMap): (r: seq<ShoppingLine>)
    ensures forall j, k :: 0 <= j < k < |r| ==> Less(r[j].ingredient, r[k].ingredient)
    ensures forall k :: 0 <= k < |r| ==> LineOf(m, r[k])
  {
    LinesOf(SortedSet(m.Keys), m)
  }

  /** Every ingredient of the map has a line. */
  lemma ShoppingLinesListed(m: IngredientMap, i: string)
    ensures i in m <==> exists k :: 0 <= k < |ShoppingLines(m)| && ShoppingLines(m)[k].ingredient == i
  {
    var keys := SortedSet(m.Keys);
    var r := ShoppingLines(m);
    if i in m {
      var k :| 0 <= k < |keys| && keys[k] == i;
      assert r[k].ingredient == i;
    }
  }

  /** One line per key, in the order of `keys`. */
  function LinesOf(keys: seq<string>, m: IngredientMap): (r: seq<ShoppingLine>)
    requires forall k :: 0 <= k < |keys| ==> keys[k] in m
    ensures |r| == |keys|
    ensures forall k :: 0 <= k < |r| ==> r[k].ingredient == keys[k] && LineOf(m, r[k])
  {
    if keys == [] then []
    else [ShoppingLine(keys[0], SortedSet(m[keys[0]]))] + LinesOf(keys[1..], m)
  }

  /** `f"- {ing} (Used in: {', '.join(names)})\n"`. */
  function RenderLine(line: ShoppingLine): string
  {
    "- " + line.ingredient + " (Used in: " + Join(line.usedIn, ", ") + ")\n"
  }

  function RenderLines(lines: seq<ShoppingLine>): string
  {
    if lines == [] then [] else RenderLines(lines[..|lines| - 1]) + RenderLine(lines[|lines| - 1])
  }

  /** The text of the shopping tab: the sentinel message for a plan that was
      never generated, and otherwise the header followed by one line per
      ingredient. The sentinel is produced for the empty plan and nothing
      else. */
  function ShoppingText(plan: WeekPlan, ls: seq<Link>, xs: seq<Ingredient>): (text: string)
    ensures text == NoRecipesMessage <==> plan == map[]
    ensures plan != map[] ==> |text| >= |ShoppingHeader| && text[..|ShoppingHeader|] == ShoppingHeader
  {
    if plan == map[] then NoRecipesMessage
    else
      var text := ShoppingHeader + RenderLines(ShoppingLines(ShoppingMap(plan, ls, xs)));
      assert text[0] != NoRecipesMessage[0];
      text
  }

  /** A generated plan in which no day received a recipe still shows the
      header, with no ingredient lines, and that text differs from the
      sentinel. */
  lemma UnassignedPlanShowsHeader(plan: WeekPlan, ls: seq<Link>, xs: seq<Ingredient>)
    requires plan != map[]
    requires forall d :: d in plan ==> plan[d].None?
    ensures ShoppingText(plan, ls, xs) == ShoppingHeader
    ensures ShoppingHeader != NoRecipesMessage
  {
    var m := ShoppingMap(plan, ls, xs);
    assert forall d, i :: !Supplies(plan, ls, xs, d, i);
    assert m.Keys == {};
    assert m == map[];
    assert ShoppingLines(m) == [];
    assert ShoppingHeader[0] != NoRecipesMessage[0];
  }

  /** In terms of the tables: ingredient `i` lists recipe name `n` exactly
      when some day of the plan holds a recipe `(rid, n)` with a link row to
      an ingredient row named `i`. */
  lemma ShoppingMapRows(plan: WeekPlan, ls: seq<Link>, xs: seq<Ingredient>, i: string, n: string)
    requires IngredientIdsIncreasing(xs)
    ensures (i in ShoppingMap(plan, ls, xs) && n in ShoppingMap(plan, ls, xs)[i]) <==>
      exists d, l :: d in plan && plan[d].Some? && plan[d].value.name == n
        && l in ls && l.recipeId == plan[d].value.id && Ingredient(l.ingredientId, i) in xs
  {
    var m := ShoppingMap(plan, ls, xs);
    if i in m && n in m[i] {
      var d :| Supplies(plan, ls, xs, d, i) && plan[d].value.name == n;
      NamesMembership(ls, xs, plan[d].value.id, i);
      var l :| l in ls && l.recipeId == plan[d].value.id && NameOf(xs, l.ingredientId) == Some(i);
      assert Ingredient(l.ingredientId, i) in xs;
    }
    if exists d, l :: d in plan && plan[d].Some? && plan[d].value.name == n
        && l in ls && l.recipeId == plan[d].value.id && Ingredient(l.ingredientId, i) in xs {
      var d, l :| d in plan && plan[d].Some? && plan[d].value.name == n
        && l in ls && l.recipeId == plan[d].value.id && Ingredient(l.ingredientId, i) in xs;
      var k :| 0 <= k < |xs| && xs[k] == Ingredient(l.ingredientId, i);
      NameOfRow(xs, k);
      NamesMembership(ls, xs, plan[d].value.id, i);
      assert Supplies(plan, ls, xs, d, i);
    }
  }

  /** The map after one recipe's turn of the loop: each of `names` gains
      `user`, created with it when new; every other entry is as it was. */
  function AddUser(m: IngredientMap, names: seq<string>, user: string): IngredientMap
  {
    map i | i in m.Keys + (set x | x in names) ::
      (if i in m then m[i] else {}) + (if i in names then {user} else {})
  }

  lemma AddNoUser(m: IngredientMap, names: seq<string>, user: string)
    requires names == []
    ensures AddUser(m, names, user) == m
  {
    var a := AddUser(m, names, user);
    assert (set x | x in names) == {};
    assert a.Keys == m.Keys;
    forall i | i in m ensures a[i] == m[i] {
      assert i !in names;
    }
  }

  lemma AddOneMore(m: IngredientMap, names: seq<string>, n: string, user: string)
    ensures var a := AddUser(m, names, user);
      AddUser(m, names + [n], user) == a[n := (if n in a then a[n] else {}) + {user}]
  {
    var a := AddUser(m, names, user);
    var b := AddUser(m, names + [n], user);
    var c := a[n := (if n in a then a[n] else {}) + {user}];
    forall i ensures i in names + [n] <==> i in names || i == n {
    }
    assert b.Keys == c.Keys;
    forall i | i in b ensures b[i] == c[i] {
    }
  }

  /** `for ing in ingredients: ingredient_map.setdefault(ing, set()).add(name)`. */
  method AddIngredients(m0: IngredientMap, names: seq<string>, user: string) returns (m: IngredientMap)
    ensures m == AddUser(m0, names, user)
  {
    m := m0;
    AddNoUser(m0, names[..0], user);
    for j := 0 to |names|
      invariant m == AddUser(m0, names[..j], user)
    {
      var ing := names[j];
      m := m[ing := (if ing in m then m[ing] else {}) + {user}];
      TakeOneMore(names, j);
      AddOneMore(m0, names[..j], ing, user);
    }
    assert names[..|names|] == names;
  }

  /** The loop invariant of the aggregation: `m` is the ingredient map of
      the days seen so far. */
  ghost predicate MapOf(m: IngredientMap, plan: WeekPlan, ls: seq<Link>, xs: seq<Ingredient>)
  {
    m.Keys == Needed(plan, ls, xs) && forall i :: i in m ==> m[i] == Users(plan, ls, xs, i)
  }

  /** One more day: a day without a recipe leaves the map alone, a day with
      one adds its recipe's name to each of its ingredients. */
  lemma AggregateStep(m: IngredientMap, plan: WeekPlan, ls: seq<Link>, xs: seq<Ingredient>, d: string, e: Option<Pick>)
    requires d !in plan && MapOf(m, plan, ls, xs)
    ensures e.None? ==> MapOf(m, plan[d := e], ls, xs)
    ensures e.Some? ==> MapOf(AddUser(m, EntryNames(e, ls, xs), e.value.name), plan[d := e], ls, xs)
  {
    NeededStep(plan, ls, xs, d, e);
    forall i ensures Users(plan[d := e], ls, xs, i) == Users(plan, ls, xs, i) + EntryUser(e, ls, xs, i) {
      UsersStep(plan, ls, xs, d, e, i);
    }
    if e.Some? {
      var names := EntryNames(e, ls, xs);
      forall i | i !in m ensures Users(plan, ls, xs, i) == {} {
        UsersOutside(plan, ls, xs, i);
      }
    }
  }

  /** Once every day is seen, the map is `ShoppingMap`. */
  lemma AggregateDone(m: IngredientMap, plan: WeekPlan, ls: seq<Link>, xs: seq<Ingredient>)
    requires MapOf(m, plan, ls, xs)
    ensures m == ShoppingMap(plan, ls, xs)
  {
  }

  /** The `for day, recipe in self.week_plan.items()` loop, over the days in
      any order: the ingredient map of the plan. */
  method Aggregate(plan: WeekPlan, ls: seq<Link>, xs: seq<Ingredient>) returns (m: IngredientMap)
    ensures m == ShoppingMap(plan, ls, xs)
  {
    m := map[];
    ghost var seen: WeekPlan := map[];
    var todo := plan.Keys;
    while todo != {}
      invariant todo <= plan.Keys
      invariant seen.Keys == plan.Keys - todo
      invariant forall d :: d in seen ==> seen[d] == plan[d]
      invariant MapOf(m, seen, ls, xs)
      decreases todo
    {
      var day :| day in todo;
      var entry := plan[day];
      AggregateStep(m, seen, ls, xs, day, entry);
      if entry.Some? {
        m := AddIngredients(m, IngredientNames(ls, xs, entry.value.id), entry.value.name);
      }
      seen := seen[day := entry];
      todo := todo - {day};
    }
    assert seen == plan;
    AggregateDone(m, plan, ls, xs);
  }

  /** The lines written after the header, one per ingredient. */
  method RenderList(lines: seq<ShoppingLine>) returns (text: string)
    ensures text == ShoppingHeader + RenderLines(lines)
  {
    text := ShoppingHeader;
    for k := 0 to |lines|
      invariant text == ShoppingHeader + RenderLines(lines[..k])
    {
      var line := lines[k];
      assert lines[..k + 1][..k] == lines[..k];
      text := text + RenderLine(line);
    }
    assert lines[..|lines|] == lines;
  }
}
