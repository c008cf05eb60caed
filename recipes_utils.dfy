/** The catalogue side (`routes/utils/recipes_utils.js`): reshaping the
    recipe catalogue's JSON answers into the backend's recipe shape. The
    HTTP requests themselves are not modelled; what the catalogue answers
    for an id is the input `Catalog`. */
module RecipesUtils {
  import opened RecipeModel

  datatype Measure = Measure(amount: real, unitLong: string)
  datatype Measures = Measures(us: Measure, metric: Measure)
  datatype ApiIngredient = ApiIngredient(name: string, measures: Measures)
  datatype ApiStep = ApiStep(number: int, step: string)
  datatype ApiInstruction = ApiInstruction(name: string, steps: seq<ApiStep>)

  /** The fields of a catalogue recipe the backend reads. */
  datatype ApiRecipe = ApiRecipe(
    id: RecipeId,
    title: string,
    readyInMinutes: int,
    image: string,
    servings: int,
    aggregateLikes: int,
    vegan: bool,
    vegetarian: bool,
    glutenFree: bool,
    summary: string,
    extendedIngredients: seq<ApiIngredient>,
    analyzedInstructions: seq<ApiInstruction>)

  /** What `GET /recipes/{id}/information` answers; an id outside the map
      is a request that fails. */
  type Catalog = map<RecipeId, ApiRecipe>

  /** One entry of a complex-search answer. */
  datatype SearchResult = SearchResult(id: RecipeId, title: string)

  // ---------------------------------------------------------------- ingredients and steps

  /** `{name, amount, unitLong}` taken from the US measure. */
  function IngredientList(xs: seq<ApiIngredient>): (r: seq<Ingredient>)
    ensures |r| == |xs|
    ensures forall i :: 0 <= i < |xs| ==>
      r[i] == Ingredient(xs[i].name, xs[i].measures.us.amount, xs[i].measures.us.unitLong)
  {
    if xs == [] then []
    else [Ingredient(xs[0].name, xs[0].measures.us.amount, xs[0].measures.us.unitLong)] + IngredientList(xs[1..])
  }

  /** The `step` texts of one instruction set, in order. */
  function StepTexts(steps: seq<ApiStep>): (r: seq<string>)
    ensures |r| == |steps|
    ensures forall i :: 0 <= i < |steps| ==> r[i] == steps[i].step
  {
    if steps == [] then [] else [steps[0].step] + StepTexts(steps[1..])
  }

  /** One `{steps}` group per analysed instruction set. */
  function InstructionList(xs: seq<ApiInstruction>): (r: seq<InstructionGroup>)
    ensures |r| == |xs|
    ensures forall i :: 0 <= i < |xs| ==> r[i].steps == StepTexts(xs[i].steps)
  {
    if xs == [] then [] else [InstructionGroup(StepTexts(xs[0].steps))] + InstructionList(xs[1..])
  }

  // ---------------------------------------------------------------- summary clean-up

  /** No `<` is followed, anywhere later, by a `>`: nothing left that the
      tag pattern `<[^>]*>` can match. */
  ghost predicate NoTag(s: string) {
    forall i, j :: 0 <= i < j < |s| ==> !(s[i] == '<' && s[j] == '>')
  }

  /** `s.replace(/<[^>]*>/g, '')`: a `<` and everything up to the first `>`
      after it is removed; a `<` with no `>` after it stays. */
  function StripTags(s: string): (r: string)
    ensures forall c :: c in r ==> c in s
    ensures NoTag(r)
    decreases |s|
  {
    if s == [] then []
    else if s[0] == '<' && '>' in s then
      StripTags(s[IndexOf(s, '>') + 1..])
    else
      var rest := StripTags(s[1..]);
      assert forall c :: c in rest ==> c in s by {
        forall c | c in rest ensures c in s { assert c in s[1..]; }
      }
      [s[0]] + rest
  }

  /** Text without tags is left alone, so stripping twice strips nothing more. */
  lemma {:induction false} StripTagsIdempotent(s: string)
    requires NoTag(s)
    ensures StripTags(s) == s
  {
    if s != [] {
      if s[0] == '<' {
        assert '>' !in s by {
          forall j | 0 <= j < |s| ensures s[j] != '>' {
            if j > 0 { assert !(s[0] == '<' && s[j] == '>'); }
          }
        }
      }
      assert NoTag(s[1..]) by {
        forall i, j | 0 <= i < j < |s[1..]| ensures !(s[1..][i] == '<' && s[1..][j] == '>') {
          assert s[1..][i] == s[i + 1] && s[1..][j] == s[j + 1];
        }
      }
      StripTagsIdempotent(s[1..]);
      assert s == [s[0]] + s[1..];
    }
  }

  /** Text before the first `<` survives stripping unchanged. */
  lemma {:induction false} StripTagsKeepsPlainText(x: string, y: string)
    requires '<' !in x
    ensures StripTags(x + y) == x + StripTags(y)
  {
    if x != [] {
      assert (x + y)[0] == x[0] && (x + y)[1..] == x[1..] + y;
      assert '<' !in x[1..] by { assert forall c :: c in x[1..] ==> c in x; }
      StripTagsKeepsPlainText(x[1..], y);
      assert x == [x[0]] + x[1..];
    } else {
      assert x + y == y;
    }
  }

  /** A whole tag `<...>` is removed and the text after it is stripped on. */
  lemma StripTagsDropsTag(tag: string, y: string)
    requires '>' !in tag
    ensures StripTags(['<'] + tag + ['>'] + y) == StripTags(y)
  {
    var s := ['<'] + tag + ['>'] + y;
    assert s[|tag| + 1] == '>';
    var k := IndexOf(s, '>');
    assert k == |tag| + 1 by {
      assert s[..|tag| + 1] == ['<'] + tag;
    }
    assert s[k + 1..] == y;
  }

  /** Stripping keeps the text outside a tag, in order: for
      `x<tag>y` with no `<` in `x`, the result is `x` followed by the
      stripped `y`. */
  lemma StripTagsKeepsOutside(x: string, tag: string, y: string)
    requires '<' !in x && '>' !in tag
    ensures StripTags(x + ['<'] + tag + ['>'] + y) == x + StripTags(y)
  {
    assert x + ['<'] + tag + ['>'] + y == x + (['<'] + tag + ['>'] + y);
    StripTagsKeepsPlainText(x, ['<'] + tag + ['>'] + y);
    StripTagsDropsTag(tag, y);
  }

  /** `s.split(/(?<=\.)/)[0]`: the text up to and including the first `.`,
      or all of it when there is none. */
  function FirstSentence(s: string): (r: string)
    ensures r <= s
    ensures '.' in s ==> r != [] && r[|r| - 1] == '.' && '.' !in r[..|r| - 1]
    ensures '.' !in s ==> r == s
  {
    if '.' in s then s[..IndexOf(s, '.') + 1] else s
  }

  /** The `summary` the catalogue info carries. */
  function CleanSummary(summary: string): (r: string)
    ensures r <= StripTags(summary) && NoTag(r)
  {
    FirstSentence(StripTags(summary))
  }

  /** The cleaned summary is a prefix of the tag-free text that stops just
      after its first `.`, so it holds at most one `.`, and that one last. */
  lemma CleanSummaryShape(summary: string)
    ensures var r := CleanSummary(summary);
      && r <= StripTags(summary)
      && NoTag(r)
      && (forall i :: 0 <= i < |r| - 1 ==> r[i] != '.')
      && ('.' in StripTags(summary) <==> '.' in r)
      && ('.' in r ==> r[|r| - 1] == '.')
  {
    var stripped := StripTags(summary);
    var r := CleanSummary(summary);
    assert r == stripped[..|r|];
    if '.' in stripped {
      forall i | 0 <= i < |r| - 1 ensures r[i] != '.' {
        assert r[i] in r[..|r| - 1];
      }
    }
  }

  // ---------------------------------------------------------------- single recipe

  /** The object `getRecipeInformation` builds from a catalogue answer. */
  function RecipeInformation(a: ApiRecipe): (v: RecipeView)
    ensures IsFull(v) && v.family.None?
    ensures v.recipeId == a.id
    ensures v.summary == Some(CleanSummary(a.summary))
    ensures v.ingredients == Some(IngredientList(a.extendedIngredients))
    ensures v.instructions == Some(InstructionList(a.analyzedInstructions))
  {
    RecipeView(a.id, a.title, a.readyInMinutes, a.image, Some(a.servings), a.aggregateLikes,
      a.vegan, a.vegetarian, a.glutenFree, Some(CleanSummary(a.summary)),
      Some(IngredientList(a.extendedIngredients)), Some(InstructionList(a.analyzedInstructions)), None)
  }

  /** `getRecipeInformation(recipe_id)`: fetch, then reshape. */
  function GetRecipeInformation(api: Catalog, id: RecipeId): (r: Result<RecipeView>)
    ensures r.Success? <==> id in api
    ensures r.Success? ==> r.value == RecipeInformation(api[id])
  {
    if id in api then Success(RecipeInformation(api[id])) else Failure(UpstreamError)
  }

  /** `getRecipePreviewDetails(recipe_id)`: the requested id and seven
      fields of the full information; nothing else. */
  function GetRecipePreviewDetails(api: Catalog, id: RecipeId): (r: Result<RecipeView>)
    ensures r.Success? <==> id in api
    ensures r.Success? ==> var info := RecipeInformation(api[id]);
      && r.value.recipeId == id
      && r.value.recipeName == info.recipeName
      && r.value.prepareTime == info.prepareTime
      && r.value.imageRecipe == info.imageRecipe
      && r.value.likes == info.likes
      && r.value.isVegan == info.isVegan
      && r.value.isVegetarian == info.isVegetarian
      && r.value.isGlutenFree == info.isGlutenFree
      && IsPreview(r.value) && r.value.portions.None? && r.value.summary.None? && r.value.family.None?
  {
    var info :- GetRecipeInformation(api, id);
    Success(RecipeView(id, info.recipeName, info.prepareTime, info.imageRecipe, None, info.likes,
      info.isVegan, info.isVegetarian, info.isGlutenFree, None, None, None, None))
  }

  // ---------------------------------------------------------------- batches

  /** `getRecipesPreviewDetails(ids)`: one preview per id, in the order of
      the ids; one failed fetch fails the whole batch. */
  function GetRecipesPreviewDetails(api: Catalog, ids: seq<RecipeId>): (r: Result<seq<RecipeView>>)
    ensures r.Success? <==> forall id :: id in ids ==> id in api
    ensures r.Success? ==> |r.value| == |ids|
    ensures r.Success? ==> forall i :: 0 <= i < |ids| ==>
      r.value[i] == GetRecipePreviewDetails(api, ids[i]).value
  {
    if ids == [] then Success([])
    else
      var first := GetRecipePreviewDetails(api, ids[0]);
      var rest := GetRecipesPreviewDetails(api, ids[1..]);
      assert forall id :: id in ids <==> id == ids[0] || id in ids[1..];
      if first.Failure? then Failure(first.error)
      else if rest.Failure? then Failure(rest.error)
      else Success([first.value] + rest.value)
  }

  /** The per-recipe mapping of `getRecipesFullDetails`: as the information
      object, but without `summary`. */
  function FullDetails(a: ApiRecipe): (v: RecipeView)
    ensures v == RecipeInformation(a).(summary := None)
  {
    RecipeView(a.id, a.title, a.readyInMinutes, a.image, Some(a.servings), a.aggregateLikes,
      a.vegan, a.vegetarian, a.glutenFree, None,
      Some(IngredientList(a.extendedIngredients)), Some(InstructionList(a.analyzedInstructions)), None)
  }

  /** `getRecipesFullDetails(recipes_list)`: one full object per recipe, in order. */
  function GetRecipesFullDetails(xs: seq<ApiRecipe>): (r: seq<RecipeView>)
    ensures |r| == |xs|
    ensures forall i :: 0 <= i < |xs| ==> r[i] == FullDetails(xs[i])
  {
    if xs == [] then [] else [FullDetails(xs[0])] + GetRecipesFullDetails(xs[1..])
  }

  /** `searchRecipes`, after the search request: the result ids, then one
      preview per id. */
  function SearchRecipes(api: Catalog, results: seq<SearchResult>): (r: Result<seq<RecipeView>>)
    ensures r.Success? <==> forall i :: 0 <= i < |results| ==> results[i].id in api
    ensures r.Success? ==> |r.value| == |results|
    ensures r.Success? ==> forall i :: 0 <= i < |results| ==>
      && r.value[i] == GetRecipePreviewDetails(api, results[i].id).value
      && r.value[i].recipeId == results[i].id
  {
    var ids := seq(|results|, i requires 0 <= i < |results| => results[i].id);
    assert forall i :: 0 <= i < |results| ==> ids[i] == results[i].id && ids[i] in ids;
    GetRecipesPreviewDetails(api, ids)
  }
}
