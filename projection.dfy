/** First-party recipes as the client sees them (`routes/utils/user_utils.js`,
    `getRecipes`, `getPreviewRecipes`, `getFullRecipe`, `getRecipeDetails`):
    a recipe row, plus its ingredient and instruction rows, projected to
    the preview or the full shape. */
module Projection {
  import opened RecipeModel
  import opened Sql
  import opened Tables

  /** `who_made`/`when_prepare` are added for the family category only. */
  function FamilyNoteOf(row: RecipeRow, c: Category): (n: Option<FamilyNote>)
    ensures n.Some? <==> c == Family
    ensures n.Some? ==> n.value == FamilyNote(row.whoMade, row.whenPrepare)
  {
    if c == Family then Some(FamilyNote(row.whoMade, row.whenPrepare)) else None
  }

  /** The preview of one recipe row. */
  function PreviewOf(row: RecipeRow, c: Category): (v: RecipeView)
    ensures IsPreview(v)
    ensures v.family.Some? <==> c == Family
  {
    RecipeView(row.recipeId, row.recipeName, row.prepareTime, row.imageRecipe, Some(row.portions),
      row.likes, row.isVegan, row.isVegetarian, row.isGlutenFree, Some(row.summary), None, None,
      FamilyNoteOf(row, c))
  }

  /** The position of the first id without a row, or `|ids|` when every
      id has one. */
  function FirstMissing(rows: seq<RecipeRow>, ids: seq<RecipeId>): (k: nat)
    ensures k <= |ids|
    ensures forall j :: 0 <= j < k ==> RecipesWithId(rows, ids[j]) != []
    ensures k < |ids| ==> RecipesWithId(rows, ids[k]) == []
  {
    if ids == [] || RecipesWithId(rows, ids[0]) == [] then 0
    else
      var k := FirstMissing(rows, ids[1..]);
      assert forall j :: 1 <= j < k + 1 ==> ids[j] == ids[1..][j - 1];
      k + 1
  }

  /** `getPreviewRecipes(ids, category)`: one `SELECT` per id, then the first
      row of each result. A missing row fails the batch at the first such id. */
  function GetPreviewRecipes(t: Tables, ids: seq<RecipeId>, c: Category): (r: Result<seq<RecipeView>>)
    ensures r.Success? <==> forall id :: id in ids ==> RecipesWithId(t.RecipeTable(c), id) != []
    ensures r.Success? ==> |r.value| == |ids|
    ensures r.Success? ==> forall i :: 0 <= i < |ids| ==>
      && r.value[i] == PreviewOf(RecipesWithId(t.RecipeTable(c), ids[i])[0], c)
      && r.value[i].recipeId == ids[i]
  {
    var k := FirstMissing(t.RecipeTable(c), ids);
    if k < |ids| then
      assert ids[k] in ids;
      Failure(RowMissing(ids[k]))
    else
      assert forall id :: id in ids ==> RecipesWithId(t.RecipeTable(c), id) != [] by {
        forall id | id in ids ensures RecipesWithId(t.RecipeTable(c), id) != [] {
          var j :| 0 <= j < |ids| && ids[j] == id;
        }
      }
      var vs := seq(|ids|, i requires 0 <= i < |ids| => PreviewOf(RecipesWithId(t.RecipeTable(c), ids[i])[0], c));
      assert forall i :: 0 <= i < |ids| ==> vs[i].recipeId == ids[i] by {
        forall i | 0 <= i < |ids| ensures vs[i].recipeId == ids[i] {
          var rows := RecipesWithId(t.RecipeTable(c), ids[i]);
          assert rows[0] in rows;
        }
      }
      Success(vs)
  }

  /** `getRecipes(user_name, category)`: previews of every recipe the user owns. */
  function GetRecipes(t: Tables, user: string, c: Category): (r: Result<seq<RecipeView>>)
    ensures r.Success?
    ensures |r.value| == |RecipesOfUser(t.RecipeTable(c), user)|
    ensures forall i :: 0 <= i < |r.value| ==>
      && r.value[i].recipeId == RecipesOfUser(t.RecipeTable(c), user)[i].recipeId
      && IsPreview(r.value[i]) && (r.value[i].family.Some? <==> c == Family)
    ensures forall i :: 0 <= i < |r.value| ==>
      var rows := RecipesWithId(t.RecipeTable(c), RecipesOfUser(t.RecipeTable(c), user)[i].recipeId);
      rows != [] && r.value[i] == PreviewOf(rows[0], c)
  {
    var owned := RecipesOfUser(t.RecipeTable(c), user);
    var ids := seq(|owned|, i requires 0 <= i < |owned| => owned[i].recipeId);
    OwnedIdsHaveRows(t.RecipeTable(c), user, ids);
    GetPreviewRecipes(t, ids, c)
  }

  /** Every id of an owned recipe selects at least that row. */
  lemma OwnedIdsHaveRows(rows: seq<RecipeRow>, user: string, ids: seq<RecipeId>)
    requires |ids| == |RecipesOfUser(rows, user)|
    requires forall i :: 0 <= i < |ids| ==> ids[i] == RecipesOfUser(rows, user)[i].recipeId
    ensures forall id :: id in ids ==> RecipesWithId(rows, id) != []
  {
    var owned := RecipesOfUser(rows, user);
    forall id | id in ids ensures RecipesWithId(rows, id) != [] {
      var i :| 0 <= i < |ids| && ids[i] == id;
      assert owned[i] in owned;
      assert owned[i] in RecipesWithId(rows, id);
    }
  }

  /** `step.step_description` of each instruction row, in order. */
  function Descriptions(rows: seq<InstructionRow>): (r: seq<string>)
    ensures |r| == |rows|
    ensures forall i :: 0 <= i < |rows| ==> r[i] == rows[i].stepDescription
  {
    if rows == [] then [] else [rows[0].stepDescription] + Descriptions(rows[1..])
  }

  /** `{name, amount, unitLong}` of each ingredient row, in order. */
  function IngredientViews(rows: seq<IngredientRow>): (r: seq<Ingredient>)
    ensures |r| == |rows|
    ensures forall i :: 0 <= i < |rows| ==>
      r[i] == Ingredient(rows[i].ingredientName, rows[i].amount, rows[i].unitLong)
  {
    if rows == [] then []
    else [Ingredient(rows[0].ingredientName, rows[0].amount, rows[0].unitLong)] + IngredientViews(rows[1..])
  }

  /** `getRecipeDetails(recipe, ingre, steps, category)`: the full shape.
      All steps go into ONE instruction group; there is no `summary`. */
  function RecipeDetails(row: RecipeRow, ingre: seq<IngredientRow>, steps: seq<InstructionRow>, c: Category): (v: RecipeView)
    ensures IsFull(v) && v.summary.None?
    ensures v.recipeId == row.recipeId
    ensures v.family.Some? <==> c == Family
    ensures v.ingredients == Some(IngredientViews(ingre))
    ensures v.instructions == Some([InstructionGroup(Descriptions(steps))])
  {
    RecipeView(row.recipeId, row.recipeName, row.prepareTime, row.imageRecipe, Some(row.portions),
      row.likes, row.isVegan, row.isVegetarian, row.isGlutenFree, None,
      Some(IngredientViews(ingre)), Some([InstructionGroup(Descriptions(steps))]),
      FamilyNoteOf(row, c))
  }

  /** `steps` are the instruction rows of a recipe in ascending `instruction_id`. */
  ghost predicate InInstructionOrder(steps: seq<InstructionRow>, rows: seq<InstructionRow>) {
    SortedBy(steps, InstructionKey) && multiset(steps) == multiset(rows)
  }

  /** `getFullRecipe(recipe_id, category)`: the recipe row, its ingredient
      rows and its instruction rows `ORDER BY instruction_id`. */
  function GetFullRecipe(t: Tables, id: RecipeId, c: Category): (r: Result<RecipeView>)
    ensures r.Success? <==> RecipesWithId(t.RecipeTable(c), id) != []
    ensures r.Success? ==> IsFull(r.value) && r.value.recipeId == id && r.value.summary.None?
    ensures r.Success? ==> (r.value.family.Some? <==> c == Family)
    ensures r.Success? ==> r.value.ingredients == Some(IngredientViews(IngredientsOf(t.ingredients, id)))
    ensures r.Success? ==> exists steps ::
      && InInstructionOrder(steps, InstructionsOf(t.instructions, id))
      && r.value.instructions == Some([InstructionGroup(Descriptions(steps))])
  {
    var rows := RecipesWithId(t.RecipeTable(c), id);
    var ingre := IngredientsOf(t.ingredients, id);
    var steps := OrderBy(InstructionsOf(t.instructions, id), InstructionKey);
    if rows == [] then Failure(RowMissing(id))
    else
      assert rows[0] in rows;
      Success(RecipeDetails(rows[0], ingre, steps, c))
  }
}
