/** The MySQL tables the backend reads and writes, as sequences of rows in
    storage order, and the `WHERE` selections its statements make on them. */
module Tables {
  import opened RecipeModel

  /** A row of `personalrecipes` or `familyrecipes`. The personal table has
      no `who_made`/`when_prepare` columns; its rows carry empty strings
      there, which no operation reads. */
  datatype RecipeRow = RecipeRow(
    recipeId: RecipeId,
    userName: string,
    recipeName: string,
    imageRecipe: string,
    prepareTime: int,
    likes: int,
    isVegan: bool,
    isVegetarian: bool,
    isGlutenFree: bool,
    summary: string,
    portions: int,
    whoMade: string,
    whenPrepare: string)

  datatype IngredientRow = IngredientRow(recipeId: RecipeId, ingredientName: string, amount: real, unitLong: string)

  datatype InstructionRow = InstructionRow(recipeId: RecipeId, instructionId: int, stepDescription: string)

  datatype ViewedRow = ViewedRow(userName: string, recipeId: RecipeId, recipeType: string, viewAt: int)

  datatype FavoriteRow = FavoriteRow(userName: string, recipeId: RecipeId, recipeType: string)

  /** The state of the database at one moment. */
  datatype Tables = Tables(
    personalRecipes: seq<RecipeRow>,
    familyRecipes: seq<RecipeRow>,
    ingredients: seq<IngredientRow>,
    instructions: seq<InstructionRow>,
    viewedRecipes: seq<ViewedRow>,
    favoriteRecipes: seq<FavoriteRow>)
  {
    /** `${category}recipes` */
    function RecipeTable(c: Category): seq<RecipeRow> {
      match c
      case Personal => personalRecipes
      case Family => familyRecipes
    }
  }

  /** Key of `ORDER BY instruction_id`. */
  function InstructionKey(r: InstructionRow): int { r.instructionId }

  /** Key of `ORDER BY view_at DESC`. */
  function RecencyKey(r: ViewedRow): int { -r.viewAt }

  /** `viewedrecipes` is keyed by `(user_name, recipe_id)`. */
  ghost predicate ViewedKeysUnique(rows: seq<ViewedRow>) {
    forall i, j :: 0 <= i < j < |rows| ==>
      !(rows[i].userName == rows[j].userName && rows[i].recipeId == rows[j].recipeId)
  }

  /** `... WHERE recipe_id=<id>`: the rows whose `recipe_id` is `id`, in
      storage order. `idOf` reads the column from a row of the table. */
  function WithId<T(!new)>(rows: seq<T>, idOf: T -> RecipeId, id: RecipeId): (r: seq<T>)
    ensures forall x :: x in r <==> x in rows && idOf(x) == id
  {
    if rows == [] then []
    else (if idOf(rows[0]) == id then [rows[0]] else []) + WithId(rows[1..], idOf, id)
  }

  function RecipeRowId(x: RecipeRow): RecipeId { x.recipeId }

  function IngredientRecipeId(x: IngredientRow): RecipeId { x.recipeId }

  function InstructionRecipeId(x: InstructionRow): RecipeId { x.recipeId }

  /** `... FROM <recipes table> WHERE recipe_id=<id>` */
  function RecipesWithId(rows: seq<RecipeRow>, id: RecipeId): seq<RecipeRow> {
    WithId(rows, RecipeRowId, id)
  }

  /** `... FROM <recipes table> WHERE user_name=<user>` */
  function RecipesOfUser(rows: seq<RecipeRow>, user: string): (r: seq<RecipeRow>)
    ensures forall x :: x in r <==> x in rows && x.userName == user
  {
    if rows == [] then []
    else (if rows[0].userName == user then [rows[0]] else []) + RecipesOfUser(rows[1..], user)
  }

  /** `... FROM ingredients WHERE recipe_id=<id>` */
  function IngredientsOf(rows: seq<IngredientRow>, id: RecipeId): seq<IngredientRow> {
    WithId(rows, IngredientRecipeId, id)
  }

  /** `... FROM instructions WHERE recipe_id=<id>` */
  function InstructionsOf(rows: seq<InstructionRow>, id: RecipeId): seq<InstructionRow> {
    WithId(rows, InstructionRecipeId, id)
  }

  /** Rows appended under an id no earlier row has are selected exactly,
      in insertion order. */
  lemma {:induction false} WithIdAppend<T(!new)>(rows: seq<T>, added: seq<T>, idOf: T -> RecipeId, id: RecipeId)
    requires forall x :: x in rows ==> idOf(x) != id
    requires forall x :: x in added ==> idOf(x) == id
    ensures WithId(rows + added, idOf, id) == added
  {
    if rows == [] {
      WithIdAll(added, idOf, id);
      assert rows + added == added;
    } else {
      assert (rows + added)[1..] == rows[1..] + added;
      WithIdAppend(rows[1..], added, idOf, id);
    }
  }

  lemma {:induction false} WithIdAll<T(!new)>(rows: seq<T>, idOf: T -> RecipeId, id: RecipeId)
    requires forall x :: x in rows ==> idOf(x) == id
    ensures WithId(rows, idOf, id) == rows
  {
    if rows != [] {
      WithIdAll(rows[1..], idOf, id);
      assert rows == [rows[0]] + rows[1..];
    }
  }

  /** The database the statements run against. Each statement is its own
      transaction, so a multi-statement operation is not atomic. */
  class Database {
    var tables: Tables
    /** AUTO_INCREMENT counters of `personalrecipes` and `familyrecipes`. */
    var nextPersonalId: nat
    var nextFamilyId: nat

    ghost predicate Valid()
      reads this
    {
      && (forall r :: r in tables.personalRecipes ==> r.recipeId < nextPersonalId)
      && (forall r :: r in tables.familyRecipes ==> r.recipeId < nextFamilyId)
      && ViewedKeysUnique(tables.viewedRecipes)
    }

    function NextId(c: Category): nat
      reads this
    {
      match c
      case Personal => nextPersonalId
      case Family => nextFamilyId
    }

    constructor ()
      ensures Valid()
      ensures tables == Tables([], [], [], [], [], [])
      ensures nextPersonalId == 1 && nextFamilyId == 1
    {
      tables := Tables([], [], [], [], [], []);
      nextPersonalId := 1;
      nextFamilyId := 1;
    }
  }
}
