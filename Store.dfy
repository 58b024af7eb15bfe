/** The three tables of the recipe database created by `init_db`
    (main.py:7-47), held in memory in rowid order, and the SQL statements
    the application runs on them. */
module Store {
  import opened Wrappers
  import opened Form
  import opened Seqs
  import opened Text

  /** A row of `recipes (id, name, day, active)`. */
  datatype Recipe = Recipe(id: int, name: string, day: string, active: bool)

  /** A row of `ingredients (id, ingredient_name)`. */
  datatype Ingredient = Ingredient(id: int, name: string)

  /** A row of `ingredients_included (recipe_id, ingredient_id)`; the row's
      own id is never read and is not kept. */
  datatype Link = Link(recipeId: int, ingredientId: int)

  /** The `(id, name)` pair that `SELECT id, name FROM recipes` returns. */
  datatype Pick = Pick(id: int, name: string)

  /** The rowid of a row of `recipes` and of a row of `ingredients`. */
  function RecipeId(r: Recipe): int
  {
    r.id
  }

  function IngredientId(x: Ingredient): int
  {
    x.id
  }

  /** SQLite rowids, in either table, with `key` giving a row's id:
      positive and, in table order, strictly increasing. Written as a
      chain, each id above the one before it (the first above `floor`);
      `IdsOrdered` is the same condition for every pair of rows. */
  predicate IdsAbove<T>(xs: seq<T>, key: T -> int, floor: int)
  {
    xs == [] || (key(xs[0]) > floor && IdsAbove(xs[1..], key, key(xs[0])))
  }

  predicate IdsOrdered<T>(xs: seq<T>, key: T -> int, floor: int)
  {
    (forall k :: 0 <= k < |xs| ==> key(xs[k]) > floor)
    && forall i, j :: 0 <= i < j < |xs| ==> key(xs[i]) < key(xs[j])
  }

  lemma {:induction false} IdsChain<T>(xs: seq<T>, key: T -> int, floor: int)
    ensures IdsAbove(xs, key, floor) <==> IdsOrdered(xs, key, floor)
  {
    if xs != [] {
      IdsChain(xs[1..], key, key(xs[0]));
      if IdsOrdered(xs, key, floor) {
        assert IdsOrdered(xs[1..], key, key(xs[0])) by {
          forall k | 0 <= k < |xs| - 1 ensures key(xs[1..][k]) > key(xs[0]) {
            assert xs[1..][k] == xs[k + 1];
          }
        }
      }
      if IdsAbove(xs, key, floor) {
        forall i, j | 0 <= i < j < |xs| ensures key(xs[i]) < key(xs[j]) {
          assert xs[j] == xs[1..][j - 1];
          if i > 0 { assert xs[i] == xs[1..][i - 1]; }
        }
        forall k | 0 <= k < |xs| ensures key(xs[k]) > floor {
          if k > 0 { assert xs[k] == xs[1..][k - 1]; }
        }
      }
    }
  }

  predicate RecipeIdsIncreasing(rs: seq<Recipe>)
  {
    IdsAbove(rs, RecipeId, 0)
  }

  predicate IngredientIdsIncreasing(xs: seq<Ingredient>)
  {
    IdsAbove(xs, IngredientId, 0)
  }

  /** The rowid SQLite gives an inserted row: one more than the largest
      rowid in the table (the last one), or 1 for an empty table. */
  function NextRecipeId(rs: seq<Recipe>): (id: int)
    requires RecipeIdsIncreasing(rs)
    ensures id >= 1 && forall k :: 0 <= k < |rs| ==> rs[k].id < id
  {
    IdsChain(rs, RecipeId, 0);
    if rs == [] then 1 else rs[|rs| - 1].id + 1
  }

  function NextIngredientId(xs: seq<Ingredient>): (id: int)
    requires IngredientIdsIncreasing(xs)
    ensures id >= 1 && forall k :: 0 <= k < |xs| ==> xs[k].id < id
  {
    IdsChain(xs, IngredientId, 0);
    if xs == [] then 1 else xs[|xs| - 1].id + 1
  }

  /** A row with the next rowid keeps the table ordered. */
  lemma RecipeIdsAppend(rs: seq<Recipe>, row: Recipe)
    requires RecipeIdsIncreasing(rs) && row.id == NextRecipeId(rs)
    ensures RecipeIdsIncreasing(rs + [row])
  {
    IdsChain(rs, RecipeId, 0);
    IdsChain(rs + [row], RecipeId, 0);
  }

  lemma IngredientIdsAppend(xs: seq<Ingredient>, row: Ingredient)
    requires IngredientIdsIncreasing(xs) && row.id == NextIngredientId(xs)
    ensures IngredientIdsIncreasing(xs + [row])
  {
    IdsChain(xs, IngredientId, 0);
    IdsChain(xs + [row], IngredientId, 0);
  }

  /** Rows rewritten in place with their ids kept keep the table ordered. */
  lemma RecipeIdsKept(rs: seq<Recipe>, r: seq<Recipe>)
    requires RecipeIdsIncreasing(rs)
    requires |r| == |rs| && forall k :: 0 <= k < |rs| ==> r[k].id == rs[k].id
    ensures RecipeIdsIncreasing(r)
  {
    IdsChain(rs, RecipeId, 0);
    IdsChain(r, RecipeId, 0);
  }

  predicate HasRecipe(rs: seq<Recipe>, id: int)
  {
    exists r :: r in rs && r.id == id
  }

  /** `SELECT name, day, active FROM recipes WHERE id=?` with `fetchone()`. */
  function FindRecipe(rs: seq<Recipe>, id: int): (r: Option<Recipe>)
    ensures r.Some? ==> r.value in rs && r.value.id == id
    ensures r.None? <==> !HasRecipe(rs, id)
  {
    if rs == [] then None
    else if rs[0].id == id then Some(rs[0])
    else
      var r := FindRecipe(rs[1..], id);
      assert HasRecipe(rs[1..], id) ==> HasRecipe(rs, id);
      assert HasRecipe(rs, id) ==> HasRecipe(rs[1..], id) by {
        if HasRecipe(rs, id) {
          var x :| x in rs && x.id == id;
          assert x != rs[0];
        }
      }
      r
  }

  /** The `ingredient_name` of the ingredient row with rowid `id`, if any:
      one side of the join `ingredients.id = ingredients_included.ingredient_id`. */
  function NameOf(xs: seq<Ingredient>, id: int): (r: Option<string>)
    ensures r.Some? <==> exists x :: x in xs && x.id == id
    ensures r.Some? ==> Ingredient(id, r.value) in xs
  {
    if xs == [] then None
    else if xs[0].id == id then Some(xs[0].name)
    else
      var r := NameOf(xs[1..], id);
      assert (exists x :: x in xs && x.id == id) ==> exists x :: x in xs[1..] && x.id == id by {
        if exists x :: x in xs && x.id == id {
          var x :| x in xs && x.id == id;
          assert x != xs[0];
        }
      }
      r
  }

  /** With unique rowids the join finds exactly the row that has the id. */
  lemma NameOfRow(xs: seq<Ingredient>, k: int)
    requires IngredientIdsIncreasing(xs) && 0 <= k < |xs|
    ensures NameOf(xs, xs[k].id) == Some(xs[k].name)
  {
    IdsChain(xs, IngredientId, 0);
    NameOfOrderedRow(xs, k);
  }

  lemma {:induction false} NameOfOrderedRow(xs: seq<Ingredient>, k: int)
    requires (forall i, j :: 0 <= i < j < |xs| ==> xs[i].id < xs[j].id) && 0 <= k < |xs|
    ensures NameOf(xs, xs[k].id) == Some(xs[k].name)
  {
    if k > 0 {
      assert xs[1..][k - 1] == xs[k];
      assert xs[0].id < xs[k].id;
      NameOfOrderedRow(xs[1..], k - 1);
    }
  }

  /** Appending an ingredient row does not change the name of an id that
      the table already resolves. */
  lemma {:induction false} NameOfAppend(xs: seq<Ingredient>, row: Ingredient, id: int)
    requires NameOf(xs, id).Some?
    ensures NameOf(xs + [row], id) == NameOf(xs, id)
  {
    if xs[0].id != id {
      assert (xs + [row])[1..] == xs[1..] + [row];
      NameOfAppend(xs[1..], row, id);
    }
  }

  /** The `ingredient_name` column of some rows, in row order. */
  function RowNames(xs: seq<Ingredient>): (r: seq<string>)
    ensures |r| == |xs|
  {
    if xs == [] then [] else RowNames(xs[..|xs| - 1]) + [xs[|xs| - 1].name]
  }

  lemma RowNamesAppend(xs: seq<Ingredient>, row: Ingredient)
    ensures RowNames(xs + [row]) == RowNames(xs) + [row.name]
  {
    assert (xs + [row])[..|xs|] == xs;
  }

  /** `UPDATE recipes SET name=?, day=?, active=? WHERE id=?`. */
  function SetRecipeFields(rs: seq<Recipe>, id: int, name: string, day: string, active: bool): (r: seq<Recipe>)
    ensures |r| == |rs|
    ensures forall k :: 0 <= k < |rs| ==>
      r[k] == if rs[k].id == id then Recipe(id, name, day, active) else rs[k]
  {
    seq(|rs|, k requires 0 <= k < |rs| =>
      if rs[k].id == id then Recipe(id, name, day, active) else rs[k])
  }

  /** `UPDATE recipes SET active=? WHERE id=?`. */
  function SetRecipeActive(rs: seq<Recipe>, id: int, active: bool): (r: seq<Recipe>)
    ensures |r| == |rs|
    ensures forall k :: 0 <= k < |rs| ==>
      r[k] == if rs[k].id == id then rs[k].(active := active) else rs[k]
  {
    seq(|rs|, k requires 0 <= k < |rs| =>
      if rs[k].id == id then rs[k].(active := active) else rs[k])
  }

  /** `DELETE FROM recipes WHERE id=?`: the other rows, in their order. */
  function WithoutRecipe(rs: seq<Recipe>, id: int): (r: seq<Recipe>)
    ensures forall x :: x in r <==> x in rs && x.id != id
  {
    if rs == [] then []
    else
      var last := rs[|rs| - 1];
      assert rs == rs[..|rs| - 1] + [last];
      WithoutRecipe(rs[..|rs| - 1], id) + if last.id == id then [] else [last]
  }

  /** Appending a row keeps the ids ordered exactly when its id is above
      every earlier one and above the floor. */
  lemma OrderedAppend(rs: seq<Recipe>, row: Recipe, floor: int)
    requires IdsOrdered(rs, RecipeId, floor) && row.id > floor
    requires forall k :: 0 <= k < |rs| ==> rs[k].id < row.id
    ensures IdsOrdered(rs + [row], RecipeId, floor)
  {
    var r := rs + [row];
    forall i, j | 0 <= i < j < |r| ensures r[i].id < r[j].id {
      if j == |rs| { assert r[i] == rs[i]; } else { assert r[i] == rs[i] && r[j] == rs[j]; }
    }
  }

  /** Deleting rows keeps the remaining ids in increasing order. */
  lemma {:induction false} WithoutRecipeOrdered(rs: seq<Recipe>, id: int, floor: int)
    requires IdsOrdered(rs, RecipeId, floor)
    ensures IdsOrdered(WithoutRecipe(rs, id), RecipeId, floor)
  {
    if rs != [] {
      var last := rs[|rs| - 1];
      var init := rs[..|rs| - 1];
      assert IdsOrdered(init, RecipeId, floor);
      WithoutRecipeOrdered(init, id, floor);
      var front := WithoutRecipe(init, id);
      if last.id != id {
        forall k | 0 <= k < |front| ensures front[k].id < last.id {
          assert front[k] in init;
        }
        OrderedAppend(front, last, floor);
      } else {
        AppendEmpty(front);
      }
    }
  }

  /** `DELETE FROM ingredients_included WHERE recipe_id=?`: the links of the
      other recipes, in their order. */
  function WithoutLinks(ls: seq<Link>, rid: int): seq<Link>
  {
    if ls == [] then []
    else
      var last := ls[|ls| - 1];
      WithoutLinks(ls[..|ls| - 1], rid) + (if last.recipeId == rid then [] else [last])
  }

  /** Exactly the links of the other recipes remain. */
  lemma {:induction false} WithoutLinksMembership(ls: seq<Link>, rid: int)
    ensures forall l :: l in WithoutLinks(ls, rid) <==> l in ls && l.recipeId != rid
  {
    if ls != [] {
      var last := ls[|ls| - 1];
      assert ls == ls[..|ls| - 1] + [last];
      WithoutLinksMembership(ls[..|ls| - 1], rid);
    }
  }

  lemma WithoutLinksAppend(ls: seq<Link>, l: Link, rid: int)
    ensures WithoutLinks(ls + [l], rid) == WithoutLinks(ls, rid) + (if l.recipeId == rid then [] else [l])
  {
    assert (ls + [l])[..|ls|] == ls;
  }

  /** The names one link contributes to the join for recipe `rid`. */
  function LinkedName(l: Link, xs: seq<Ingredient>, rid: int): seq<string>
  {
    if l.recipeId == rid && NameOf(xs, l.ingredientId).Some? then [NameOf(xs, l.ingredientId).value] else []
  }

  /** `SELECT ingredient_name FROM ingredients JOIN ingredients_included
      ON ingredients.id = ingredients_included.ingredient_id
      WHERE ingredients_included.recipe_id=?`, one name per matching link,
      taken in link order (SQL promises no order; only the multiset is
      meaningful). */
  function IngredientNames(ls: seq<Link>, xs: seq<Ingredient>, rid: int): seq<string>
  {
    if ls == [] then []
    else IngredientNames(ls[..|ls| - 1], xs, rid) + LinkedName(ls[|ls| - 1], xs, rid)
  }

  /** A name is joined to `rid` exactly when some link of `rid` points at
      an ingredient row with that name. */
  lemma {:induction false} NamesMembership(ls: seq<Link>, xs: seq<Ingredient>, rid: int, n: string)
    ensures n in IngredientNames(ls, xs, rid) <==>
      exists l :: l in ls && l.recipeId == rid && NameOf(xs, l.ingredientId) == Some(n)
  {
    if ls != [] {
      var front, last := ls[..|ls| - 1], ls[|ls| - 1];
      assert ls == front + [last];
      NamesMembership(front, xs, rid, n);
      if exists l :: l in ls && l.recipeId == rid && NameOf(xs, l.ingredientId) == Some(n) {
        var l :| l in ls && l.recipeId == rid && NameOf(xs, l.ingredientId) == Some(n);
        if l != last {
          assert l in front;
        }
      }
    }
  }

  lemma NamesAppendLink(ls: seq<Link>, xs: seq<Ingredient>, rid: int, l: Link)
    ensures IngredientNames(ls + [l], xs, rid) == IngredientNames(ls, xs, rid) + LinkedName(l, xs, rid)
  {
    assert (ls + [l])[..|ls|] == ls;
  }

  /** Every link of `ls` points at an ingredient row of `xs`. */
  predicate Resolves(ls: seq<Link>, xs: seq<Ingredient>)
  {
    ls == [] || (Resolves(ls[..|ls| - 1], xs) && NameOf(xs, ls[|ls| - 1].ingredientId).Some?)
  }

  lemma ResolvesAppend(ls: seq<Link>, l: Link, xs: seq<Ingredient>)
    ensures Resolves(ls + [l], xs) <==> Resolves(ls, xs) && NameOf(xs, l.ingredientId).Some?
  {
    assert (ls + [l])[..|ls|] == ls;
  }

  lemma {:induction false} ResolvesMember(ls: seq<Link>, xs: seq<Ingredient>, l: Link)
    requires Resolves(ls, xs) && l in ls
    ensures NameOf(xs, l.ingredientId).Some?
  {
    if l != ls[|ls| - 1] {
      assert ls == ls[..|ls| - 1] + [ls[|ls| - 1]];
      ResolvesMember(ls[..|ls| - 1], xs, l);
    }
  }

  /** Appending an ingredient row keeps every link resolving. */
  lemma {:induction false} ResolvesGrow(ls: seq<Link>, xs: seq<Ingredient>, row: Ingredient)
    requires Resolves(ls, xs)
    ensures Resolves(ls, xs + [row])
  {
    if ls != [] {
      NameOfAppend(xs, row, ls[|ls| - 1].ingredientId);
      ResolvesGrow(ls[..|ls| - 1], xs, row);
    }
  }

  /** Deleting links keeps the rest resolving. */
  lemma {:induction false} ResolvesWithout(ls: seq<Link>, xs: seq<Ingredient>, rid: int)
    requires Resolves(ls, xs)
    ensures Resolves(WithoutLinks(ls, rid), xs)
  {
    if ls != [] {
      var last := ls[|ls| - 1];
      var w := WithoutLinks(ls[..|ls| - 1], rid);
      ResolvesWithout(ls[..|ls| - 1], xs, rid);
      if last.recipeId != rid {
        assert WithoutLinks(ls, rid) == w + [last];
        ResolvesAppend(w, last, xs);
      } else {
        assert WithoutLinks(ls, rid) == w;
      }
    }
  }

  /** Once every link resolves, appending an ingredient row changes no
      recipe's joined names. */
  lemma {:induction false} NamesAppendIngredient(ls: seq<Link>, xs: seq<Ingredient>, row: Ingredient, rid: int)
    requires Resolves(ls, xs)
    ensures IngredientNames(ls, xs + [row], rid) == IngredientNames(ls, xs, rid)
  {
    if ls != [] {
      NameOfAppend(xs, row, ls[|ls| - 1].ingredientId);
      NamesAppendIngredient(ls[..|ls| - 1], xs, row, rid);
    }
  }

  /** After the delete of an edit, the recipe has no joined names left. */
  lemma {:induction false} NamesWithoutLinks(ls: seq<Link>, xs: seq<Ingredient>, rid: int)
    ensures IngredientNames(WithoutLinks(ls, rid), xs, rid) == []
  {
    if ls != [] {
      var last := ls[|ls| - 1];
      var w := WithoutLinks(ls[..|ls| - 1], rid);
      NamesWithoutLinks(ls[..|ls| - 1], xs, rid);
      if last.recipeId != rid {
        assert WithoutLinks(ls, rid) == w + [last];
        NamesAppendLink(w, xs, rid, last);
      } else {
        assert WithoutLinks(ls, rid) == w;
      }
    }
  }

  /** Another recipe's joined names depend only on the links that are not
      `rid`'s. */
  lemma {:induction false} NamesOfOther(ls: seq<Link>, xs: seq<Ingredient>, rid: int, q: int)
    requires q != rid
    ensures IngredientNames(WithoutLinks(ls, rid), xs, q) == IngredientNames(ls, xs, q)
  {
    if ls != [] {
      var last := ls[|ls| - 1];
      var w := WithoutLinks(ls[..|ls| - 1], rid);
      NamesOfOther(ls[..|ls| - 1], xs, rid, q);
      if last.recipeId != rid {
        assert WithoutLinks(ls, rid) == w + [last];
        NamesAppendLink(w, xs, q, last);
      } else {
        assert WithoutLinks(ls, rid) == w;
        assert LinkedName(last, xs, q) == [];
      }
    }
  }

  /** One step of the save loop: a new ingredient row and a link of `rid`
      to a row named `n` add `n` to `rid`'s names and change no other
      recipe's. */
  lemma NamesAfterLink(ls: seq<Link>, xs: seq<Ingredient>, row: Ingredient, l: Link, rid: int, q: int, n: string)
    requires Resolves(ls, xs)
    requires l.recipeId == rid && NameOf(xs + [row], l.ingredientId) == Some(n)
    ensures q == rid ==> IngredientNames(ls + [l], xs + [row], q) == IngredientNames(ls, xs, q) + [n]
    ensures q != rid ==> IngredientNames(ls + [l], xs + [row], q) == IngredientNames(ls, xs, q)
  {
    NamesAppendLink(ls, xs + [row], q, l);
    NamesAppendIngredient(ls, xs, row, q);
    if q != rid {
      assert IngredientNames(ls, xs, q) + [] == IngredientNames(ls, xs, q);
    }
  }

  /** The edit form's ingredient text, the names joined with ", ", parses
      back to exactly those names. */
  lemma NamesRoundTrip(ls: seq<Link>, xs: seq<Ingredient>, rid: int)
    requires CleanNames(xs)
    ensures ParseIngredients(Join(IngredientNames(ls, xs, rid), ", ")) == IngredientNames(ls, xs, rid)
  {
    NamesAreClean(ls, xs, rid);
    ParseJoin(IngredientNames(ls, xs, rid));
  }

  /** Every link of `ls` belongs to a recipe of `rs`. */
  predicate Owned(ls: seq<Link>, rs: seq<Recipe>)
  {
    ls == [] || (Owned(ls[..|ls| - 1], rs) && HasRecipe(rs, ls[|ls| - 1].recipeId))
  }

  lemma OwnedAppend(ls: seq<Link>, l: Link, rs: seq<Recipe>)
    ensures Owned(ls + [l], rs) <==> Owned(ls, rs) && HasRecipe(rs, l.recipeId)
  {
    assert (ls + [l])[..|ls|] == ls;
  }

  lemma {:induction false} OwnedIff(ls: seq<Link>, rs: seq<Recipe>)
    ensures Owned(ls, rs) <==> forall l :: l in ls ==> HasRecipe(rs, l.recipeId)
  {
    if ls != [] {
      assert ls == ls[..|ls| - 1] + [ls[|ls| - 1]];
      OwnedIff(ls[..|ls| - 1], rs);
    }
  }

  lemma {:induction false} RowNamesConcat(a: seq<Ingredient>, b: seq<Ingredient>)
    ensures RowNames(a + b) == RowNames(a) + RowNames(b)
  {
    if b == [] {
      assert a + b == a;
    } else {
      var front := b[..|b| - 1];
      assert a + b == (a + front) + [b[|b| - 1]];
      RowNamesAppend(a + front, b[|b| - 1]);
      RowNamesConcat(a, front);
      assert b == front + [b[|b| - 1]];
      RowNamesAppend(front, b[|b| - 1]);
    }
  }

  /** What linking the names `done` to recipe `rid` leaves, starting from
      the tables `xs0` and `ls0`: the old ingredient rows followed by one
      row per name, in order; the other recipes' links as they were; the
      names `done` added after `rid`'s names; and every other recipe's
      names as they were. */
  ghost predicate LinkedAfter(xs0: seq<Ingredient>, ls0: seq<Link>, xs: seq<Ingredient>, ls: seq<Link>,
                              rid: int, done: seq<string>)
  {
    && |xs0| <= |xs| && xs[..|xs0|] == xs0
    && RowNames(xs[|xs0|..]) == done
    && WithoutLinks(ls, rid) == WithoutLinks(ls0, rid)
    && IngredientNames(ls, xs, rid) == IngredientNames(ls0, xs0, rid) + done
    && forall q :: q != rid ==> IngredientNames(ls, xs, q) == IngredientNames(ls0, xs0, q)
  }

  lemma LinkedAfterNone(xs: seq<Ingredient>, ls: seq<Link>, rid: int)
    ensures LinkedAfter(xs, ls, xs, ls, rid, [])
  {
    assert xs[|xs|..] == [];
  }

  /** Linking `d1` and then `d2` is linking `d1 + d2`. */
  lemma LinkedAfterTrans(xs0: seq<Ingredient>, ls0: seq<Link>, xs1: seq<Ingredient>, ls1: seq<Link>,
                         xs2: seq<Ingredient>, ls2: seq<Link>, rid: int, d1: seq<string>, d2: seq<string>)
    requires LinkedAfter(xs0, ls0, xs1, ls1, rid, d1)
    requires LinkedAfter(xs1, ls1, xs2, ls2, rid, d2)
    ensures LinkedAfter(xs0, ls0, xs2, ls2, rid, d1 + d2)
  {
    PrefixTrans(xs0, xs1, xs2);
    RowNamesConcat(xs1[|xs0|..], xs2[|xs1|..]);
    AppendAssoc(IngredientNames(ls0, xs0, rid), d1, d2);
  }

  /** Rewriting rows in place with their ids kept keeps every id. */
  lemma SameIdsHas(rs: seq<Recipe>, r: seq<Recipe>, q: int)
    requires |r| == |rs| && forall k :: 0 <= k < |rs| ==> r[k].id == rs[k].id
    ensures HasRecipe(r, q) <==> HasRecipe(rs, q)
  {
    if HasRecipe(rs, q) {
      var x :| x in rs && x.id == q;
      var k :| 0 <= k < |rs| && rs[k] == x;
      assert r[k] in r;
    }
    if HasRecipe(r, q) {
      var x :| x in r && x.id == q;
      var k :| 0 <= k < |r| && r[k] == x;
      assert rs[k] in rs;
    }
  }

  lemma HasRecipeAppend(rs: seq<Recipe>, row: Recipe, q: int)
    ensures HasRecipe(rs + [row], q) <==> HasRecipe(rs, q) || row.id == q
  {
    if HasRecipe(rs, q) {
      var x :| x in rs && x.id == q;
      assert x in rs + [row];
    }
    assert row in rs + [row];
  }

  lemma HasRecipeWithout(rs: seq<Recipe>, id: int, q: int)
    ensures HasRecipe(WithoutRecipe(rs, id), q) <==> HasRecipe(rs, q) && q != id
  {
    if HasRecipe(rs, q) && q != id {
      var x :| x in rs && x.id == q;
      assert x in WithoutRecipe(rs, id);
    }
  }

  /** Links owned by recipes that all survive stay owned. */
  lemma {:induction false} OwnedMore(ls: seq<Link>, rs: seq<Recipe>, rs2: seq<Recipe>)
    requires Owned(ls, rs)
    requires forall q :: HasRecipe(rs, q) ==> HasRecipe(rs2, q)
    ensures Owned(ls, rs2)
  {
    if ls != [] {
      OwnedMore(ls[..|ls| - 1], rs, rs2);
    }
  }

  /** Deleting the links of recipe `rid` keeps every other link owned, in
      any table that keeps every recipe but `rid`. */
  lemma {:induction false} OwnedWithout(ls: seq<Link>, rs: seq<Recipe>, rs2: seq<Recipe>, rid: int)
    requires Owned(ls, rs)
    requires forall q :: HasRecipe(rs, q) && q != rid ==> HasRecipe(rs2, q)
    ensures Owned(WithoutLinks(ls, rid), rs2)
  {
    if ls != [] {
      var last := ls[|ls| - 1];
      var w := WithoutLinks(ls[..|ls| - 1], rid);
      OwnedWithout(ls[..|ls| - 1], rs, rs2, rid);
      if last.recipeId != rid {
        OwnedAppend(w, last, rs2);
      } else {
        AppendEmpty(w);
      }
    }
  }

  /** A recipe id that no link's owner has has no joined names. */
  lemma NamesOfMissing(ls: seq<Link>, xs: seq<Ingredient>, rs: seq<Recipe>, rid: int)
    requires forall l :: l in ls ==> HasRecipe(rs, l.recipeId)
    requires !HasRecipe(rs, rid)
    ensures IngredientNames(ls, xs, rid) == []
  {
    var names := IngredientNames(ls, xs, rid);
    if names != [] {
      NamesMembership(ls, xs, rid, names[0]);
      assert false;
    }
  }

  /** When every link has an owner, the id the next insert receives has no
      links yet, so a new recipe starts without ingredients. */
  lemma FreshRecipeHasNoNames(ls: seq<Link>, xs: seq<Ingredient>, rs: seq<Recipe>)
    requires RecipeIdsIncreasing(rs) && Owned(ls, rs)
    ensures IngredientNames(ls, xs, NextRecipeId(rs)) == []
  {
    var next := NextRecipeId(rs);
    OwnedIff(ls, rs);
    assert !HasRecipe(rs, next);
    NamesOfMissing(ls, xs, rs, next);
  }

  /** Every row of the table holds a name the save form can produce. */
  predicate CleanNames(xs: seq<Ingredient>)
  {
    xs == [] || (CleanNames(xs[..|xs| - 1]) && IsIngredientName(xs[|xs| - 1].name))
  }

  lemma CleanNamesAppend(xs: seq<Ingredient>, row: Ingredient)
    ensures CleanNames(xs + [row]) <==> CleanNames(xs) && IsIngredientName(row.name)
  {
    assert (xs + [row])[..|xs|] == xs;
  }

  lemma {:induction false} CleanNamesMember(xs: seq<Ingredient>, x: Ingredient)
    requires CleanNames(xs) && x in xs
    ensures IsIngredientName(x.name)
  {
    if x != xs[|xs| - 1] {
      assert xs == xs[..|xs| - 1] + [xs[|xs| - 1]];
      CleanNamesMember(xs[..|xs| - 1], x);
    }
  }

  /** When every ingredient row has a name the save form can produce, so
      does every joined name. */
  lemma NamesAreClean(ls: seq<Link>, xs: seq<Ingredient>, rid: int)
    requires CleanNames(xs)
    ensures forall k :: 0 <= k < |IngredientNames(ls, xs, rid)| ==> IsIngredientName(IngredientNames(ls, xs, rid)[k])
  {
    var names := IngredientNames(ls, xs, rid);
    forall k | 0 <= k < |names| ensures IsIngredientName(names[k]) {
      NamesMembership(ls, xs, rid, names[k]);
      var l :| l in ls && l.recipeId == rid && NameOf(xs, l.ingredientId) == Some(names[k]);
      CleanNamesMember(xs, Ingredient(l.ingredientId, names[k]));
    }
  }

  lemma {:induction false} WithoutLinksTwice(ls: seq<Link>, rid: int)
    ensures WithoutLinks(WithoutLinks(ls, rid), rid) == WithoutLinks(ls, rid)
  {
    if ls != [] {
      var last := ls[|ls| - 1];
      var w := WithoutLinks(ls[..|ls| - 1], rid);
      WithoutLinksTwice(ls[..|ls| - 1], rid);
      if last.recipeId != rid {
        assert WithoutLinks(ls, rid) == w + [last];
        WithoutLinksAppend(w, last, rid);
      } else {
        assert WithoutLinks(ls, rid) == w;
      }
    }
  }

  /** `row` offers `p` for `day` to the plan generator: it is that recipe,
      on that day, and active. */
  predicate Offers(row: Recipe, day: string, p: Pick)
  {
    row.day == day && row.active && row.id == p.id && row.name == p.name
  }

  /** `SELECT id, name FROM recipes WHERE day=? AND active=1`. */
  function ActiveOn(rs: seq<Recipe>, day: string): (r: seq<Pick>)
    ensures forall p :: p in r <==> exists row :: row in rs && Offers(row, day, p)
    ensures r == [] <==> forall row :: row in rs ==> !(row.day == day && row.active)
  {
    if rs == [] then []
    else
      var front, last := rs[..|rs| - 1], rs[|rs| - 1];
      assert rs == front + [last];
      var r := ActiveOn(front, day)
        + (if last.day == day && last.active then [Pick(last.id, last.name)] else []);
      assert forall p :: p in r <==> exists row :: row in rs && Offers(row, day, p) by {
        forall p ensures p in r <==> exists row :: row in rs && Offers(row, day, p) {
          if p in ActiveOn(front, day) {
            var row :| row in front && Offers(row, day, p);
            assert row in rs;
          } else if p in r {
            assert Offers(last, day, p);
          }
          if exists row :: row in rs && Offers(row, day, p) {
            var row :| row in rs && Offers(row, day, p);
            if row != last {
              assert row in front;
            }
          }
        }
      }
      r
  }

  /** The recipe database. Each method is one SQL statement. */
  class Store {
    var recipes: seq<Recipe>
    var ingredients: seq<Ingredient>
    var links: seq<Link>

    /** What the database engine guarantees: unique rowids in order. */
    ghost predicate Valid()
      reads this
    {
      RecipeIdsIncreasing(recipes) && IngredientIdsIncreasing(ingredients)
    }

    /** Every link points at an existing ingredient row (the foreign key
        `ingredient_id`, which SQLite does not enforce by default). */
    ghost predicate LinksResolve()
      reads this
    {
      Resolves(links, ingredients)
    }

    /** Every link points at an existing recipe row (the foreign key
        `recipe_id`). */
    ghost predicate LinksOwned()
      reads this
    {
      Owned(links, recipes)
    }

    /** Every ingredient row holds a name the save form can produce. */
    ghost predicate NamesClean()
      reads this
    {
      CleanNames(ingredients)
    }

    /** The joined ingredient names of recipe `rid`. */
    function NamesOf(rid: int): seq<string>
      reads this
    {
      IngredientNames(links, ingredients, rid)
    }

    /** A freshly created database: three empty tables. */
    constructor ()
      ensures Valid() && LinksResolve() && LinksOwned() && NamesClean()
      ensures recipes == [] && ingredients == [] && links == []
    {
      recipes, ingredients, links := [], [], [];
    }

    /** `INSERT INTO recipes (name, day, active) VALUES (?, ?, ?)` and
        `lastrowid`. */
    method InsertRecipe(name: string, day: string, active: bool) returns (rid: int)
      requires Valid()
      modifies this
      ensures Valid()
      ensures rid == NextRecipeId(old(recipes))
      ensures recipes == old(recipes) + [Recipe(rid, name, day, active)]
      ensures ingredients == old(ingredients) && links == old(links)
    {
      rid := NextRecipeId(recipes);
      RecipeIdsAppend(recipes, Recipe(rid, name, day, active));
      recipes := recipes + [Recipe(rid, name, day, active)];
    }

    /** `UPDATE recipes SET name=?, day=?, active=? WHERE id=?`. */
    method UpdateRecipe(rid: int, name: string, day: string, active: bool)
      requires Valid()
      modifies this
      ensures Valid()
      ensures recipes == SetRecipeFields(old(recipes), rid, name, day, active)
      ensures ingredients == old(ingredients) && links == old(links)
    {
      RecipeIdsKept(recipes, SetRecipeFields(recipes, rid, name, day, active));
      recipes := SetRecipeFields(recipes, rid, name, day, active);
    }

    /** `UPDATE recipes SET active=? WHERE id=?`. */
    method UpdateActive(rid: int, active: bool)
      requires Valid()
      modifies this
      ensures Valid()
      ensures recipes == SetRecipeActive(old(recipes), rid, active)
      ensures ingredients == old(ingredients) && links == old(links)
    {
      RecipeIdsKept(recipes, SetRecipeActive(recipes, rid, active));
      recipes := SetRecipeActive(recipes, rid, active);
    }

    /** `DELETE FROM recipes WHERE id=?`. */
    method DeleteRecipe(rid: int)
      requires Valid()
      modifies this
      ensures Valid()
      ensures recipes == WithoutRecipe(old(recipes), rid)
      ensures ingredients == old(ingredients) && links == old(links)
    {
      var rest := WithoutRecipe(recipes, rid);
      IdsChain(recipes, RecipeId, 0);
      WithoutRecipeOrdered(recipes, rid, 0);
      IdsChain(rest, RecipeId, 0);
      recipes := rest;
    }

    /** `DELETE FROM ingredients_included WHERE recipe_id=?`. */
    method DeleteLinks(rid: int)
      requires Valid()
      modifies this
      ensures Valid()
      ensures links == WithoutLinks(old(links), rid)
      ensures recipes == old(recipes) && ingredients == old(ingredients)
    {
      links := WithoutLinks(links, rid);
    }

    /** `INSERT OR IGNORE INTO ingredients (ingredient_name) VALUES (?)`.
        `ingredient_name` carries no UNIQUE constraint, so nothing is ever
        ignored: a row is always appended, duplicate names included. */
    method InsertIngredient(name: string) returns (id: int)
      requires Valid()
      modifies this
      ensures Valid()
      ensures id == NextIngredientId(old(ingredients))
      ensures ingredients == old(ingredients) + [Ingredient(id, name)]
      ensures recipes == old(recipes) && links == old(links)
    {
      id := NextIngredientId(ingredients);
      IngredientIdsAppend(ingredients, Ingredient(id, name));
      ingredients := ingredients + [Ingredient(id, name)];
    }

    /** `SELECT id FROM ingredients WHERE ingredient_name=?` with
        `fetchone()`: the id of some row with that name (which one is not
        specified), or none when no row has it. */
    method FindIngredient(name: string) returns (found: Option<int>)
      requires Valid()
      ensures found.None? <==> forall x :: x in ingredients ==> x.name != name
      ensures found.Some? ==> NameOf(ingredients, found.value) == Some(name)
    {
      if exists k :: 0 <= k < |ingredients| && ingredients[k].name == name {
        var k :| 0 <= k < |ingredients| && ingredients[k].name == name;
        NameOfRow(ingredients, k);
        found := Some(ingredients[k].id);
      } else {
        found := None;
      }
    }

    /** `INSERT INTO ingredients_included (recipe_id, ingredient_id) VALUES (?, ?)`. */
    method InsertLink(rid: int, iid: int)
      requires Valid()
      modifies this
      ensures Valid()
      ensures links == old(links) + [Link(rid, iid)]
      ensures recipes == old(recipes) && ingredients == old(ingredients)
    {
      links := links + [Link(rid, iid)];
    }
  }
}
