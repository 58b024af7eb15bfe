/** `MealPlannerApp` (main.py:59-365) without its widgets: the week plan
    and the id of the recipe being edited, over the recipe database. Each
    button handler is a method; the values the widgets would hold are
    parameters and results. */
module App {
  import opened Wrappers
  import opened Seqs
  import opened Text
  import opened Form
  import opened Store
  import opened Plan
  import opened Shopping

  /** What the save button ends with: the error box, or the recipe saved. */
  datatype SaveOutcome = Rejected | Saved(rid: int)

  /** The four form fields the edit button fills. */
  datatype FormFields = FormFields(name: string, day: string, active: bool, ingredients: string)

  class MealPlannerApp {
    const db: Store
    var weekPlan: WeekPlan
    var editingId: Option<int>

    /** The database state that every handler keeps: unique rowids, every
        link resolving to an ingredient row, and every ingredient name one
        that parsing produces. */
    ghost predicate Valid()
      reads db
    {
      db.Valid() && db.LinksResolve() && db.NamesClean()
    }

    /** Every link belongs to an existing recipe and the recipe being
        edited exists. */
    ghost predicate Consistent()
      reads this, db
    {
      db.LinksOwned() && (IsEditing() ==> HasRecipe(db.recipes, editingId.value))
    }

    /** `if self.editing_recipe_id:`, Python truthiness: set and not 0. */
    predicate IsEditing()
      reads this
    {
      editingId.Some? && editingId.value != 0
    }

    /** `__init__`: an empty plan and nothing being edited. */
    constructor (store: Store)
      requires store.Valid() && store.LinksResolve() && store.NamesClean()
      ensures db == store && weekPlan == map[] && editingId == None
      ensures Valid()
      ensures store.LinksOwned() ==> Consistent()
    {
      db := store;
      weekPlan := map[];
      editingId := None;
    }

    /** One pass of the `for ing in ingredients:` loop of `save_recipe`:
        an ingredient row for `name`, the lookup of a row with that name,
        and a link of `rid` to it. In the terms of `LinkedAfter`: `name`
        is linked to `rid` and nothing else changes. */
    method LinkOne(rid: int, name: string)
      requires Valid() && IsIngredientName(name)
      modifies db
      ensures Valid()
      ensures db.recipes == old(db.recipes)
      ensures LinkedAfter(old(db.ingredients), old(db.links), db.ingredients, db.links, rid, [name])
      ensures old(db.LinksOwned()) && HasRecipe(db.recipes, rid) ==> db.LinksOwned()
    {
      ghost var xs, ls := db.ingredients, db.links;
      var iid := db.InsertIngredient(name);
      ghost var row := Ingredient(iid, name);
      ResolvesGrow(ls, xs, row);
      CleanNamesAppend(xs, row);
      var found := db.FindIngredient(name);
      assert db.ingredients[|xs|] == row;
      assert found.Some?;
      db.InsertLink(rid, found.value);
      ghost var l := Link(rid, found.value);
      ResolvesAppend(ls, l, xs + [row]);
      OwnedAppend(ls, l, db.recipes);
      WithoutLinksAppend(ls, l, rid);
      assert (xs + [row])[..|xs|] == xs;
      assert (xs + [row])[|xs|..] == [row];
      RowNamesAppend([], row);
      forall q | q != rid ensures IngredientNames(ls + [l], xs + [row], q) == IngredientNames(ls, xs, q) {
        NamesAfterLink(ls, xs, row, l, rid, q, name);
      }
      NamesAfterLink(ls, xs, row, l, rid, rid, name);
    }

    /** The `for ing in ingredients:` loop of `save_recipe`: every name of
        `names`, in order, gets an ingredient row and a link of `rid`. */
    method LinkIngredients(rid: int, names: seq<string>)
      requires Valid()
      requires forall k :: 0 <= k < |names| ==> IsIngredientName(names[k])
      modifies db
      ensures Valid()
      ensures db.recipes == old(db.recipes)
      ensures LinkedAfter(old(db.ingredients), old(db.links), db.ingredients, db.links, rid, names)
      ensures old(db.LinksOwned()) && HasRecipe(db.recipes, rid) ==> db.LinksOwned()
    {
      ghost var ings0, links0 := db.ingredients, db.links;
      LinkedAfterNone(ings0, links0, rid);
      var i := 0;
      while i < |names|
        invariant 0 <= i <= |names|
        invariant Valid()
        invariant db.recipes == old(db.recipes)
        invariant LinkedAfter(ings0, links0, db.ingredients, db.links, rid, names[..i])
        invariant old(db.LinksOwned()) && HasRecipe(db.recipes, rid) ==> db.LinksOwned()
      {
        ghost var xs, ls := db.ingredients, db.links;
        LinkOne(rid, names[i]);
        LinkedAfterTrans(ings0, links0, xs, ls, db.ingredients, db.links, rid, names[..i], [names[i]]);
        TakeOneMore(names, i);
        i := i + 1;
      }
      assert names[..i] == names;
    }

    /** `save_recipe`. A blank name or a day outside `DAYS` is refused and
        nothing changes. Otherwise the stripped name, the day, the flag and
        the parsed ingredient list are written as `StoreRecipe` says. */
    method SaveRecipe(nameText: string, dayText: string, activeFlag: bool, ingredientsText: string)
      returns (outcome: SaveOutcome)
      requires Valid()
      modifies this`editingId, db
      ensures Valid()
      ensures outcome.Rejected? <==> !FormAccepted(nameText, dayText)
      ensures outcome.Rejected? ==> unchanged(this) && unchanged(db)
      ensures outcome.Saved? ==> editingId == None
      ensures outcome.Saved? && old(IsEditing()) ==>
        outcome.rid == old(editingId.value)
        && db.recipes == SetRecipeFields(old(db.recipes), outcome.rid, Strip(nameText), dayText, activeFlag)
      ensures outcome.Saved? && !old(IsEditing()) ==>
        outcome.rid == NextRecipeId(old(db.recipes))
        && db.recipes == old(db.recipes) + [Recipe(outcome.rid, Strip(nameText), dayText, activeFlag)]
      ensures outcome.Saved? ==>
        |old(db.ingredients)| <= |db.ingredients|
        && db.ingredients[..|old(db.ingredients)|] == old(db.ingredients)
        && RowNames(db.ingredients[|old(db.ingredients)|..]) == ParseIngredients(ingredientsText)
      ensures outcome.Saved? ==> WithoutLinks(db.links, outcome.rid) == WithoutLinks(old(db.links), outcome.rid)
      ensures outcome.Saved? ==> forall q :: q != outcome.rid ==> db.NamesOf(q) == old(db.NamesOf(q))
      ensures outcome.Saved? ==>
        db.NamesOf(outcome.rid)
        == (if old(IsEditing()) then [] else old(db.NamesOf(outcome.rid))) + ParseIngredients(ingredientsText)
      ensures outcome.Saved? && old(db.LinksOwned()) ==> db.NamesOf(outcome.rid) == ParseIngredients(ingredientsText)
      ensures outcome.Saved? && old(Consistent()) ==> Consistent()
    {
      var name := Strip(nameText);
      var ingredients := ParseIngredients(ingredientsText);
      if !FormAccepted(nameText, dayText) {
        return Rejected;
      }
      var rid := StoreRecipe(name, dayText, activeFlag, ingredients);
      return Saved(rid);
    }

    /** The database part of `save_recipe`, for fields already checked.
        The recipe being edited is overwritten and its links dropped, or a
        new recipe is inserted; then every name is linked to it, and
        editing ends. Only the saved recipe's links change. Read back, the
        saved recipe's ingredients are the names just written, after the
        links its id already had: none when it was edited, and none for a
        new recipe when every link has an owner (`FreshRecipeHasNoNames`).
        An edit of a recipe that no longer exists leaves links without an
        owner. */
    method StoreRecipe(name: string, day: string, active: bool, names: seq<string>) returns (rid: int)
      requires Valid()
      requires forall k :: 0 <= k < |names| ==> IsIngredientName(names[k])
      modifies this`editingId, db
      ensures Valid()
      ensures editingId == None
      ensures old(IsEditing()) ==>
        rid == old(editingId.value)
        && db.recipes == SetRecipeFields(old(db.recipes), rid, name, day, active)
      ensures !old(IsEditing()) ==>
        rid == NextRecipeId(old(db.recipes))
        && db.recipes == old(db.recipes) + [Recipe(rid, name, day, active)]
      ensures |old(db.ingredients)| <= |db.ingredients|
        && db.ingredients[..|old(db.ingredients)|] == old(db.ingredients)
        && RowNames(db.ingredients[|old(db.ingredients)|..]) == names
      ensures WithoutLinks(db.links, rid) == WithoutLinks(old(db.links), rid)
      ensures forall q :: q != rid ==> db.NamesOf(q) == old(db.NamesOf(q))
      ensures db.NamesOf(rid) == (if old(IsEditing()) then [] else old(db.NamesOf(rid))) + names
      ensures old(db.LinksOwned()) ==> db.NamesOf(rid) == names
      ensures old(Consistent()) ==> Consistent()
      ensures (old(IsEditing()) && !old(HasRecipe(db.recipes, editingId.value)) && names != []) ==> !db.LinksOwned()
    {
      if IsEditing() {
        rid := editingId.value;
        ReplaceRecipe(rid, name, day, active);
        WithoutLinksTwice(old(db.links), rid);
      } else {
        if db.LinksOwned() {
          FreshRecipeHasNoNames(db.links, db.ingredients, db.recipes);
        }
        rid := AddRecipe(name, day, active);
      }
      LinkIngredients(rid, names);
      editingId := None;
      if old(IsEditing()) && !old(HasRecipe(db.recipes, editingId.value)) && names != [] {
        NamesMembership(db.links, db.ingredients, rid, names[0]);
        OwnedIff(db.links, db.recipes);
      }
    }

    /** The edit branch of `save_recipe`: the row of `rid` takes the new
        fields and the links of `rid` are dropped; no other recipe's
        ingredients change. */
    method ReplaceRecipe(rid: int, name: string, day: string, active: bool)
      requires Valid()
      modifies db
      ensures Valid()
      ensures db.recipes == SetRecipeFields(old(db.recipes), rid, name, day, active)
      ensures db.ingredients == old(db.ingredients)
      ensures db.links == WithoutLinks(old(db.links), rid)
      ensures db.NamesOf(rid) == []
      ensures forall q :: q != rid ==> db.NamesOf(q) == old(db.NamesOf(q))
      ensures forall q :: HasRecipe(db.recipes, q) <==> HasRecipe(old(db.recipes), q)
      ensures old(db.LinksOwned()) ==> db.LinksOwned()
    {
      db.UpdateRecipe(rid, name, day, active);
      db.DeleteLinks(rid);
      ResolvesWithout(old(db.links), old(db.ingredients), rid);
      NamesWithoutLinks(old(db.links), old(db.ingredients), rid);
      forall q | q != rid ensures db.NamesOf(q) == old(db.NamesOf(q)) {
        NamesOfOther(old(db.links), old(db.ingredients), rid, q);
      }
      forall q ensures HasRecipe(db.recipes, q) <==> HasRecipe(old(db.recipes), q) {
        SameIdsHas(old(db.recipes), db.recipes, q);
      }
      if old(db.LinksOwned()) {
        OwnedWithout(old(db.links), old(db.recipes), db.recipes, rid);
      }
    }

    /** The insert branch of `save_recipe`: a new row with the next id. */
    method AddRecipe(name: string, day: string, active: bool) returns (rid: int)
      requires Valid()
      modifies db
      ensures Valid()
      ensures rid == NextRecipeId(old(db.recipes))
      ensures db.recipes == old(db.recipes) + [Recipe(rid, name, day, active)]
      ensures db.ingredients == old(db.ingredients) && db.links == old(db.links)
      ensures forall q :: HasRecipe(db.recipes, q) <==> HasRecipe(old(db.recipes), q) || q == rid
      ensures old(db.LinksOwned()) ==> db.LinksOwned()
    {
      rid := db.InsertRecipe(name, day, active);
      forall q ensures HasRecipe(db.recipes, q) <==> HasRecipe(old(db.recipes), q) || q == rid {
        HasRecipeAppend(old(db.recipes), Recipe(rid, name, day, active), q);
      }
      if old(db.LinksOwned()) {
        OwnedMore(db.links, old(db.recipes), db.recipes);
      }
    }

    /** `_toggle_active_by_id`: only the `active` flag of that recipe
        changes. */
    method ToggleActive(rid: int, newState: bool)
      requires Valid()
      modifies db
      ensures Valid()
      ensures db.recipes == SetRecipeActive(old(db.recipes), rid, newState)
      ensures db.ingredients == old(db.ingredients) && db.links == old(db.links)
      ensures old(Consistent()) ==> Consistent()
    {
      db.UpdateActive(rid, newState);
      forall q ensures HasRecipe(db.recipes, q) <==> HasRecipe(old(db.recipes), q) {
        SameIdsHas(old(db.recipes), db.recipes, q);
      }
      if old(db.LinksOwned()) {
        OwnedMore(db.links, old(db.recipes), db.recipes);
      }
    }

    /** `_delete_recipe_by_id`: after the confirmation, the recipe row and
        its links go; nothing else changes. `editing_recipe_id` is left as
        it was, even when it names the deleted recipe. */
    method DeleteRecipe(rid: int, confirmed: bool)
      requires Valid()
      modifies db
      ensures Valid()
      ensures !confirmed ==> unchanged(db)
      ensures confirmed ==>
        db.recipes == WithoutRecipe(old(db.recipes), rid)
        && db.links == WithoutLinks(old(db.links), rid)
        && db.ingredients == old(db.ingredients)
      ensures confirmed ==> forall q :: HasRecipe(db.recipes, q) <==> HasRecipe(old(db.recipes), q) && q != rid
      ensures confirmed ==> db.NamesOf(rid) == []
      ensures confirmed ==> forall q :: q != rid ==> db.NamesOf(q) == old(db.NamesOf(q))
      ensures old(db.LinksOwned()) ==> db.LinksOwned()
      ensures confirmed && IsEditing() && editingId.value == rid ==> !Consistent()
    {
      if confirmed {
        db.DeleteRecipe(rid);
        db.DeleteLinks(rid);
        ResolvesWithout(old(db.links), db.ingredients, rid);
        NamesWithoutLinks(old(db.links), db.ingredients, rid);
        forall q | q != rid ensures db.NamesOf(q) == old(db.NamesOf(q)) {
          NamesOfOther(old(db.links), db.ingredients, rid, q);
        }
        forall q ensures HasRecipe(db.recipes, q) <==> HasRecipe(old(db.recipes), q) && q != rid {
          HasRecipeWithout(old(db.recipes), rid, q);
        }
        if old(db.LinksOwned()) {
          OwnedWithout(old(db.links), old(db.recipes), db.recipes, rid);
        }
      }
    }

    /** The corrected delete: as `DeleteRecipe`, and an edit of the deleted
        recipe ends with it, so that the next save cannot write links for a
        recipe that no longer exists. */
    method DeleteRecipeChecked(rid: int, confirmed: bool)
      requires Valid()
      modifies this`editingId, db
      ensures Valid()
      ensures !confirmed ==> unchanged(this) && unchanged(db)
      ensures confirmed ==>
        db.recipes == WithoutRecipe(old(db.recipes), rid)
        && db.links == WithoutLinks(old(db.links), rid)
        && db.ingredients == old(db.ingredients)
      ensures editingId == if confirmed && old(editingId) == Some(rid) then None else old(editingId)
      ensures old(Consistent()) ==> Consistent()
    {
      DeleteRecipe(rid, confirmed);
      if confirmed && editingId == Some(rid) {
        editingId := None;
      }
    }

    /** `_load_recipe_into_form`: for an existing recipe, its fields and its
        ingredient names joined with ", ", and editing starts on it; for a
        missing one the error box and nothing else. The ingredient text
        parses back to exactly the recipe's names. */
    method LoadRecipeIntoForm(rid: int) returns (form: Option<FormFields>)
      requires Valid()
      modifies this`editingId
      ensures form.None? <==> !HasRecipe(db.recipes, rid)
      ensures form.None? ==> editingId == old(editingId)
      ensures form.Some? ==>
        (editingId == Some(rid)
        && Recipe(rid, form.value.name, form.value.day, form.value.active) in db.recipes
        && form.value.ingredients == Join(db.NamesOf(rid), ", ")
        && ParseIngredients(form.value.ingredients) == db.NamesOf(rid))
      ensures old(Consistent()) ==> Consistent()
    {
      var row := FindRecipe(db.recipes, rid);
      if row.None? {
        return None;
      }
      editingId := Some(rid);
      var names := db.NamesOf(rid);
      NamesRoundTrip(db.links, db.ingredients, rid);
      form := Some(FormFields(row.value.name, row.value.day, row.value.active, Join(names, ", ")));
    }

    /** `_update_plan_text`: one line per day of `DAYS`. */
    method UpdatePlanText() returns (text: string)
      ensures text == PlanText(weekPlan)
    {
      text := RenderPlan(weekPlan);
    }

    /** `randomize_selected_days`: the plan is rebuilt for all seven days;
        an unselected day, or one without an active recipe, gets nothing,
        and any other gets one of its active recipes, picked as
        `random.choice` would. The plan text is redrawn. */
    method RandomizeSelectedDays(selected: set<string>) returns (text: string)
      modifies this`weekPlan
      ensures PlanFits(weekPlan, selected, db.recipes)
      ensures text == PlanText(weekPlan)
    {
      weekPlan := DrawPlan(selected, db.recipes);
      text := UpdatePlanText();
    }

    /** `update_shopping_list`: the sentinel for a plan never generated;
        otherwise, day by day, every ingredient of the planned recipe gains
        the recipe's name, and the header and one line per ingredient are
        written. */
    method UpdateShoppingList() returns (text: string)
      ensures text == ShoppingText(weekPlan, db.links, db.ingredients)
    {
      if weekPlan == map[] {
        return NoRecipesMessage;
      }
      var m := Aggregate(weekPlan, db.links, db.ingredients);
      text := RenderList(ShoppingLines(m));
    }
  }

  /** The stale edit left by `DeleteRecipe` on one concrete history. The
      only recipe, 1, is loaded into the form and deleted; the save that
      follows updates no row, appends `salt` as ingredient row 1 and links
      it to recipe 1. On those tables, written out here, id 1 is free
      again, so the next new recipe is given id 1 and reads back `salt`
      before any ingredient of its own. */
  lemma OrphanLinksInherited()
    ensures var afterDelete := WithoutRecipe([Recipe(1, "soup", "Monday", true)], 1);
      var afterSave := SetRecipeFields(afterDelete, 1, "soup", "Monday", true);
      var salt := Ingredient(NextIngredientId([]), "salt");
      afterSave == []
      && NextRecipeId(afterSave) == 1
      && IngredientNames([Link(1, salt.id)], [salt], NextRecipeId(afterSave)) == ["salt"]
  {
    var afterDelete := WithoutRecipe([Recipe(1, "soup", "Monday", true)], 1);
    assert afterDelete == [];
    var salt := Ingredient(NextIngredientId([]), "salt");
    assert salt.id == 1;
    assert IngredientNames([Link(1, 1)], [salt], 1) == IngredientNames([], [salt], 1) + LinkedName(Link(1, 1), [salt], 1);
  }
}
