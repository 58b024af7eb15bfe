# Weekly meal planner: a Dafny model

The planner is a small desktop application. It keeps recipes in an SQLite
database made of three tables:

- `recipes`: name, day of the week, active flag;
- `ingredients`: ingredient names;
- `ingredients_included`: links from a recipe to its ingredients.

The application offers these actions:

- draws a weekly plan, one active recipe per selected day;
- shows the plan as text;
- builds a shopping list from the plan;
- saves new or edited recipes from a form;
- loads a recipe back into that form;
- switches a recipe's active flag;
- deletes recipes;
- lists the recipe book, filtered by day and ordered.

The model keeps the application's state and the SQL statements it runs. It
leaves out the widgets.

- `Store.Store` is the database. Each table is a sequence of rows in rowid
  order. Each method is one SQL statement.
- `App.MealPlannerApp` is the application object:
  - it holds the week plan (`weekPlan`) and the id of the recipe being edited
    (`editingId`), both changed in place;
  - each button handler is a method;
  - what a widget would hold is a parameter or a result (the form fields,
    the ticked days, the confirmation answer, the text shown).
- The loops of the plan, the shopping list and the save action are methods
  with loop invariants, in `Plan`, `Shopping` and `App`. Each one is proved
  against a specification function: `PlanFits`, `PlanText`, `ShoppingMap`,
  `ShoppingText` and `LinkedAfter`.
- Everything that only computes a value is a function: parsing, validation,
  the join, sorting and rendering.

Modules:
- `Text`: what the application needs from Python's `str`:
  - `strip()`, with the whitespace set of `str.isspace`;
  - `split`, `join` and `<` on strings;
  - `sorted` of a set.
- `Seqs`: general facts about sequences and sets used by the proofs.
- `Days`: the seven days and the `CASE` order key.
- `Form`: parsing the ingredient field and the save guard.
- `Store`: the tables, the statements, and the join of a recipe to its
  ingredient names.
- `Plan`, `Shopping`, `Listing`: the three views.
- `App`: the handlers.

Two decisions in the code that are easy to miss:

- **`INSERT OR IGNORE` never ignores anything.** The `ingredients` table has
  no UNIQUE constraint, so every save appends one new ingredient row per
  name, duplicates included. The `SELECT id ... WHERE ingredient_name=?`
  that follows returns some row with that name. The model chooses that row
  nondeterministically and proves that any choice links the right name.
- **The order of the join is an assumption.** The join of a recipe to its
  ingredient names is modelled as the links in rowid order (`IngredientNames`).
  SQL promises no order without `ORDER BY`. Every statement about that
  order, for example the read-back sequence of a save, holds for this
  chosen order.

## Model

| member | source | states |
|---|---|---|
| Text.Strip | main.py:243 | `strip()` leaves no whitespace at either end |
| Text.StripSlice | main.py:243 | what `strip()` keeps is one slice of the input with only whitespace before and after it |
| Text.StripEmpty | main.py:248 | the stripped name is empty exactly when the field is all whitespace (the `not name` test) |
| Text.StripAfterSpace | main.py:246 | leading whitespace does not change what `strip()` keeps |
| Text.Split | main.py:246 | `split(",")` gives at least one piece and no piece holds the separator |
| Text.JoinSplit | main.py:246 | joining the pieces with the separator gives back the text |
| Text.SplitAround | main.py:246 | the pieces of `a + sep + b` are the pieces of `a` followed by those of `b` |
| Text.SplitWithoutSep | main.py:246 | text without the separator is a single piece |
| Text.LessIrreflexive | main.py:171 | no string sorts before itself |
| Text.LessAsymmetric | main.py:171 | two strings never sort before each other |
| Text.LessTransitive | main.py:171 | the string order is transitive |
| Text.LessConnected | main.py:171 | of two different strings one sorts first |
| Text.SortedSet | main.py:171-172 | `sorted()` of a set holds each element exactly once, in strictly increasing order, and nothing else |
| Days.DayRank | main.py:287-297 | the `CASE` key is 1 to 7, the position of the day in `DAYS`, and 0 (SQL NULL) for anything else |
| Days.DaysDistinct | main.py:49 | no day appears twice in `DAYS`, so a plan keyed by the days has seven entries (`Plan.PlanHasSevenDays`) |
| Form.KeepStripped | main.py:246 | the comprehension keeps at most one name per piece, each non-empty and stripped |
| Form.KeepStrippedAppend | main.py:246 | the comprehension keeps order: pieces of a concatenation give the concatenated results |
| Form.ParseIngredients | main.py:246 | every parsed name is non-empty, stripped and free of commas |
| Form.ParseOnePiece | main.py:246 | text without a comma parses to nothing when blank, else to its stripped self |
| Form.ParseAroundComma | main.py:246 | the names before a comma come, in order, before the names after it |
| Form.ParseJoin | main.py:246 | a list of parsed names joined with `", "` parses back to the same list |
| Form.FormAccepted | main.py:248-250 | the save goes ahead exactly when the name is not all whitespace and the day is one of `DAYS` |
| Store.NextRecipeId | main.py:13-14 | the rowid of the next insert is at least 1 and above every existing id |
| Store.NextIngredientId | main.py:23-24 | the same for ingredient rows |
| Store.FindRecipe | main.py:332-333 | the row returned has that id, and none is returned exactly when no row has it |
| Store.NameOf | main.py:342-343 | the join finds a name exactly when a row with that id exists, and the row holds that name |
| Store.NameOfRow | main.py:343 | with unique rowids, the join finds exactly the row's own name |
| Store.SetRecipeFields | main.py:256 | the UPDATE rewrites the fields of the rows with that id and keeps every other row |
| Store.SetRecipeActive | main.py:325 | the UPDATE rewrites only the active flag of the rows with that id |
| Store.WithoutRecipe | main.py:361 | the DELETE keeps exactly the rows with other ids |
| Store.WithoutRecipeOrdered | main.py:361 | deleting keeps the remaining ids increasing |
| Store.WithoutLinksMembership | main.py:362 | deleting links keeps exactly the links of other recipes |
| Store.WithoutLinksTwice | main.py:258 | deleting a recipe's links twice is deleting them once |
| Store.NamesMembership | main.py:340-345 | `n` is among a recipe's joined names exactly when a link of that recipe points at an ingredient row named `n` |
| Store.NamesWithoutLinks | main.py:258 | after its links are deleted, a recipe has no ingredient names |
| Store.NamesOfOther | main.py:362 | deleting one recipe's links leaves every other recipe's names as they were |
| Store.NamesAfterLink | main.py:264-267 | one more link adds its name at the end of its recipe's names and changes no other recipe's |
| Store.NamesRoundTrip | main.py:346 | the ingredient text put in the edit form parses back to exactly the recipe's names |
| Store.LinkedAfterTrans | main.py:263-267 | linking one list of names and then another is linking their concatenation |
| Store.OwnedIff | main.py:35 | every link's recipe exists exactly when each link of the table has its recipe |
| Store.OwnedWithout | main.py:361-362 | deleting a recipe together with its links leaves every remaining link with its recipe |
| Store.FreshRecipeHasNoNames | main.py:260-261 | when every link has its recipe, a new recipe's id has no links yet |
| Store.ActiveOn | main.py:118-119 | the query returns exactly the `(id, name)` of the active recipes of that day, and nothing exactly when there is none |
| Store.Store.constructor | main.py:7-47 | a new database has three empty tables and every invariant holds |
| Store.Store.InsertRecipe | main.py:260-261 | appends a row with the next rowid and returns that id |
| Store.Store.UpdateRecipe | main.py:256 | rewrites that recipe's fields in place; the other tables are unchanged |
| Store.Store.UpdateActive | main.py:325 | rewrites that recipe's flag in place; the other tables are unchanged |
| Store.Store.DeleteRecipe | main.py:361 | removes that recipe's rows; the other tables are unchanged |
| Store.Store.DeleteLinks | main.py:362 | removes that recipe's links; the other tables are unchanged |
| Store.Store.InsertIngredient | main.py:264 | always appends a row with that name and the next rowid |
| Store.Store.FindIngredient | main.py:265-266 | returns the id of a row with that name, or none exactly when no row has it |
| Store.Store.InsertLink | main.py:267 | appends the link |
| Plan.CandidatesFit | main.py:118-124 | any `random.choice` among the day's candidates is an active recipe of that day, and no candidates leaves the day empty |
| Plan.DrawPlan | main.py:116-126 | the plan has exactly the seven days as keys. A day is `None` exactly when it is unselected or has no active recipe. Otherwise it holds an active recipe of that day |
| Plan.PlanHasSevenDays | main.py:111-126 | a generated plan holds exactly seven entries, one per day of `DAYS` |
| Plan.PlanLinesAppend | main.py:133-137 | one more day adds its line at the end of the text |
| Plan.PlanTextLines | main.py:131-137 | when no planned recipe name contains a line break, the plan text has exactly seven lines, the k-th naming the k-th day and its recipe or `(No recipe assigned)` |
| Plan.RenderPlan | main.py:133-137 | the loop writes exactly the plan text |
| Shopping.ShoppingMap | main.py:154-166 | `i` is a key exactly when a planned recipe uses it, its set is non-empty, and it holds `n` exactly when a planned recipe named `n` uses `i` |
| Shopping.ShoppingMapRows | main.py:156-166 | in table terms: `i` lists `n` exactly when a day holds a recipe named `n` with a link to an ingredient row named `i` |
| Shopping.NeededStep | main.py:156-166 | one more day adds exactly its recipe's ingredients to the keys |
| Shopping.UsersStep | main.py:156-166 | one more day adds its recipe's name to each of its ingredients |
| Shopping.AddIngredients | main.py:165-166 | the inner loop adds the recipe's name to each of its ingredients, creating missing entries |
| Shopping.AggregateStep | main.py:156-166 | the loop invariant holds after one more day, planned or empty |
| Shopping.AggregateDone | main.py:154-167 | once every day is seen, the map built is the ingredient map of the plan |
| Shopping.Aggregate | main.py:154-167 | for any iteration order, the loop builds exactly the ingredient map of the plan |
| Shopping.ShoppingLines | main.py:171-172 | ingredients come in strictly increasing order. Each line lists exactly that ingredient's recipe names, deduplicated and sorted |
| Shopping.ShoppingLinesListed | main.py:171 | every ingredient of the map has a line |
| Shopping.RenderList | main.py:169-173 | the loop writes the header and then exactly the rendered lines |
| Shopping.ShoppingText | main.py:146-173 | the sentinel appears exactly when no plan was generated; otherwise the text starts with the header |
| Shopping.UnassignedPlanShowsHeader | main.py:147-173 | a plan with every day `None` shows the header alone, which differs from the sentinel |
| Listing.InOrderTotal | main.py:299-301 | any two rows can be ordered by the sort key |
| Listing.InOrderTransitive | main.py:299-301 | the row order is transitive |
| Listing.Insert | main.py:299-301 | inserting into a sorted list keeps it sorted and adds exactly that row |
| Listing.SortRows | main.py:299-301 | `ORDER BY` gives a sorted permutation of the rows |
| Listing.Filter | main.py:298-301 | `WHERE day=?` keeps each row of that day as often as the table has it, and no other; "All" keeps the table |
| Listing.ListRecipes | main.py:280-306 | each shown row appears as often as in the table. "All" is a permutation of the table ordered by day key and then name. A single day gives only that day's rows, ordered by name |
| App.MealPlannerApp.constructor | main.py:60-69 | an empty plan and no recipe being edited |
| App.MealPlannerApp.LinkOne | main.py:264-267 | one pass of the insert loop links its name to the recipe and changes no other recipe's names |
| App.MealPlannerApp.LinkIngredients | main.py:263-267 | the loop appends one row per name. No other recipe's names change. The recipe's names gain the list, in order |
| App.MealPlannerApp.SaveRecipe | main.py:242-278 | see the list after this table |
| App.MealPlannerApp.StoreRecipe | main.py:252-272 | the same, for fields already checked, and an edit of a missing recipe with at least one ingredient leaves links without a recipe |
| App.MealPlannerApp.ReplaceRecipe | main.py:255-258 | the edited row takes the new fields and loses its links; other recipes keep their names |
| App.MealPlannerApp.AddRecipe | main.py:259-261 | a new row with the next id; links and ingredients unchanged |
| App.MealPlannerApp.ToggleActive | main.py:322-327 | only that recipe's active flag changes |
| App.MealPlannerApp.DeleteRecipe | main.py:357-365 | see the list after this table |
| App.MealPlannerApp.DeleteRecipeChecked | main.py:357-365 | as `DeleteRecipe`, and editing ends when its recipe is deleted, so every link and the edited id keep an existing recipe |
| App.MealPlannerApp.LoadRecipeIntoForm | main.py:329-355 | a missing recipe gives the error and no change. An existing one fills the form with its row and its names joined by `", "`, which parse back to the same names. Editing starts on it |
| App.MealPlannerApp.UpdatePlanText | main.py:131-137 | writes exactly the plan text |
| App.MealPlannerApp.RandomizeSelectedDays | main.py:109-129 | the new plan fits the selection as `DrawPlan` states, and the text shown is its plan text |
| App.MealPlannerApp.UpdateShoppingList | main.py:146-173 | writes exactly the shopping text of the plan over the current tables |
| App.OrphanLinksInherited | main.py:255-267 | on the tables the stale save leaves, written out, the next new recipe reuses the deleted id and reads back the stray ingredient |

`App.MealPlannerApp.SaveRecipe` states:
- The save is refused exactly when the form is not accepted. A refused save
  changes nothing, `editing_recipe_id` included.
- An edit rewrites that row. A new recipe is appended with the next id.
- One ingredient row is appended per parsed name, in order.
- Only the saved recipe's links change.
- Read back, the recipe's names are the parsed list. After an edit this
  always holds. For a new recipe it holds whenever every link has its
  recipe.
- Editing ends.

`App.MealPlannerApp.DeleteRecipe` states:
- Without confirmation nothing changes.
- With confirmation, the row and its links are removed and nothing else
  changes.
- `editing_recipe_id` is kept even when it names the deleted recipe.

## Left out

- The widgets, message boxes, focus and `show_all_recipes` redraws:
  - the confirmation of a delete is the `confirmed` parameter;
  - the error box is the `Rejected` or `None` result;
  - the texts written to the text boxes are the methods' results.
- Opening, committing and closing the connection. Each statement takes
  effect at once, as it does for a single connection with no other writer.
- The schema upgrade of `init_db` (main.py:40-44), which adds `active` to an
  old table. The model starts from the current schema.
- `random.choice`: only which recipes it may return is modelled, not that
  the choice is uniform. The choice is nondeterministic.
- SELECT order without `ORDER BY`:
  - the join's order is taken as link rowid order;
  - the order of equal sort keys in the listing is left open;
  - the order of `week_plan.items()` in the shopping loop is arbitrary, which
    is stronger than Python's insertion order.
- The rowid of a link row, which is never read.
- Rowids of tables without `AUTOINCREMENT` follow SQLite's rule: the next id
  is one above the largest, so deleting the newest recipe frees its id for
  the next insert. Stating this rule as the largest id also relies on ids
  increasing along the table. SQLite's fallback is not modelled: when the
  largest rowid is 9223372036854775807 it picks a random unused id. The
  model's ids are unbounded integers.
- Other writers of the database file. The model takes three things as given; this
  program's statements keep all of them:
  - every link points at an existing ingredient row;
  - every ingredient name is a parsed one;
  - rowids increase.
- `str.isspace` is written out as its set of code points, with no Unicode
  database behind it. `<` on strings compares code points; SQLite's BINARY
  collation on UTF-8 gives the same order.
- Plan.PlanTextLines: proved only for plans whose recipe names have no
  line break. `strip()` and the save guard (main.py:243, main.py:248) let a
  name hold one inside it, and such a name makes the text longer than seven
  lines.
- Store.Store.FindIngredient: states that some row with the name is found,
  not which one `fetchone()` returns, since the query has no `ORDER BY`.

## Findings

| source | as written | input that shows it | evidently intended | confidence | as-written member | corrected member |
|---|---|---|---|---|---|---|
| main.py:357-365 | deleting the recipe that is loaded in the form leaves `editing_recipe_id` set; the next save then updates no row, links its ingredients to the deleted id, and reports success. When the deleted recipe was the newest, its id is free again, so the next new recipe is given that id and inherits the stray links: its read-back holds those ingredients before its own | Edit recipe 1, delete recipe 1, then save with ingredients `salt`: recipe 1 is not stored and a link to recipe 1 remains | deleting the recipe being edited ends the edit, so the next save inserts a new recipe and every link has its recipe; reporting the edited recipe as not found on save would do equally well | not executed | App.MealPlannerApp.DeleteRecipe | App.MealPlannerApp.DeleteRecipeChecked |

The as-written half is stated by these members:
- `DeleteRecipe`: after such a delete the state is no longer `Consistent`.
- `StoreRecipe`: saving an edit of a missing recipe with at least one
  ingredient leaves a link whose recipe does not exist. For a new recipe,
  the read-back is the names of the links its id already had, then the parsed
  names (`SaveRecipe` states the same).
- `App.OrphanLinksInherited`: on the tables the stale save leaves for the
  input in the table above, written out by hand (no recipe, ingredient row
  1 `salt`, a link from recipe 1 to it), the next new recipe is given id 1
  again and reads back `salt`. The lemma shows this join step only. That
  the stale save leaves these tables follows from the contracts of
  `DeleteRecipe` and `StoreRecipe`.

`DeleteRecipeChecked` clears the edit when its recipe is deleted, and it
keeps `Consistent`.
