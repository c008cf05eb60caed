/** Vocabulary shared by the whole model: recipe identifiers, the recipe
    type names the backend compares against, the shapes handed back to the
    client, and the ways an operation can fail. */
module RecipeModel {

  type RecipeId = nat

  datatype Option<+T> = None | Some(value: T)

  /** Why an operation rejects. */
  datatype Error =
    | RowMissing(id: RecipeId)   // `recipe[0]` of an empty result set is undefined and its fields throw
    | BadStatement               // a SQL statement the database refuses
    | UpstreamError              // the recipe catalogue did not answer with a recipe
    | TypeNotFound               // 'Recipe type not found in last viewed recipes'

  datatype Result<+T> = Success(value: T) | Failure(error: Error) {
    predicate IsFailure() { Failure? }
    function PropagateFailure<U>(): Result<U> requires Failure? { Failure(error) }
    function Extract(): T requires Success? { value }
  }

  /** Values of the `recipe_type` column and route parameter. */
  const FamilyType := "family"
  const PersonalType := "personal"
  const ApiType := "api"
  const RandomType := "random"
  const FavoriteType := "favorite"
  const LastViewedType := "last_viewed"

  /** Activity tables the aggregation reads. */
  const ViewedTable := "viewedrecipes"
  const FavoriteTable := "favoriterecipes"

  /** The two first-party recipe categories, each stored in its own table. */
  datatype Category = Personal | Family

  /** One ingredient as the client sees it: `{name, amount, unitLong}`. */
  datatype Ingredient = Ingredient(name: string, amount: real, unitLong: string)

  /** One instruction set: `{steps: [...]}`. */
  datatype InstructionGroup = InstructionGroup(steps: seq<string>)

  /** `who_made` and `when_prepare`, which only family recipes carry. */
  datatype FamilyNote = FamilyNote(whoMade: string, whenPrepare: string)

  /** A recipe object returned to the client. The source builds several
      shapes (preview and full, first-party and catalogue); a key a shape
      does not have is `None` here. */
  datatype RecipeView = RecipeView(
    recipeId: RecipeId,
    recipeName: string,
    prepareTime: int,
    imageRecipe: string,
    portions: Option<int>,
    likes: int,
    isVegan: bool,
    isVegetarian: bool,
    isGlutenFree: bool,
    summary: Option<string>,
    ingredients: Option<seq<Ingredient>>,
    instructions: Option<seq<InstructionGroup>>,
    family: Option<FamilyNote>)

  /** A preview carries neither ingredients nor instructions. */
  predicate IsPreview(v: RecipeView) {
    v.ingredients.None? && v.instructions.None?
  }

  /** A full view carries both. */
  predicate IsFull(v: RecipeView) {
    v.ingredients.Some? && v.instructions.Some?
  }

  /** The position of the first `c` in `s`. */
  function IndexOf(s: string, c: char): (k: nat)
    requires c in s
    ensures k < |s| && s[k] == c && c !in s[..k]
  {
    if s[0] == c then 0 else 1 + IndexOf(s[1..], c)
  }
}
