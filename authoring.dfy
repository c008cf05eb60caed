/** Creating a recipe (`routes/utils/user_utils.js`, `createPersonalRecipe`,
    `createFamilyRecipe`): one INSERT for the recipe row, one multi-row
    INSERT for the numbered instructions, then one INSERT per ingredient.
    Each statement commits on its own, so a failing statement leaves the
    earlier ones in place. */
module Authoring {
  import opened RecipeModel
  import opened Sql
  import opened Tables
  import opened Projection

  // ---------------------------------------------------------------- quote doubling

  /** `s.replace(/'/g, "''")` */
  function Escape(s: string): (r: string)
    ensures |r| >= |s|
    ensures QuotesDoubled(r)
  {
    if s == [] then []
    else
      var rest := Escape(s[1..]);
      if s[0] == '\'' then
        assert ("''" + rest)[2..] == rest;
        "''" + rest
      else
        assert ([s[0]] + rest)[1..] == rest;
        [s[0]] + rest
  }

  /** Every `'` comes as a doubled pair, so the text stays inside one SQL
      string literal: it cannot close the literal early. */
  ghost predicate QuotesDoubled(s: string)
    decreases |s|
  {
    if s == [] then true
    else if s[0] != '\'' then QuotesDoubled(s[1..])
    else |s| >= 2 && s[1] == '\'' && QuotesDoubled(s[2..])
  }

  /** How the database reads the body of a string literal back: `''` is one `'`. */
  function Unescape(s: string): string
    decreases |s|
  {
    if s == [] then []
    else if |s| >= 2 && s[0] == '\'' && s[1] == '\'' then ['\''] + Unescape(s[2..])
    else [s[0]] + Unescape(s[1..])
  }

  /** The stored step text is the step text that was sent. */
  lemma {:induction false} UnescapeEscape(s: string)
    ensures Unescape(Escape(s)) == s
  {
    if s != [] {
      var rest := Escape(s[1..]);
      UnescapeEscape(s[1..]);
      if s[0] == '\'' {
        assert Escape(s) == "''" + rest;
        assert ("''" + rest)[2..] == rest;
      } else {
        assert Escape(s) == [s[0]] + rest;
        assert ([s[0]] + rest)[1..] == rest;
      }
      assert s == [s[0]] + s[1..];
    }
  }

  // ---------------------------------------------------------------- numbered instructions

  /** One `(recipe_id, instruction_id, '<step>')` tuple of the instructions INSERT. */
  datatype InstructionTuple = InstructionTuple(recipeId: RecipeId, instructionId: int, literal: string)

  /** The tuples for `steps`, numbered from 1. */
  function NumberedSteps(recipeId: RecipeId, steps: seq<string>): (tuples: seq<InstructionTuple>)
    ensures |tuples| == |steps|
    ensures forall k :: 0 <= k < |steps| ==>
      && tuples[k].recipeId == recipeId
      && tuples[k].instructionId == k + 1
      && Unescape(tuples[k].literal) == steps[k]
      && QuotesDoubled(tuples[k].literal)
  {
    assert forall k :: 0 <= k < |steps| ==> Unescape(Escape(steps[k])) == steps[k] by {
      forall k | 0 <= k < |steps| ensures Unescape(Escape(steps[k])) == steps[k] {
        UnescapeEscape(steps[k]);
      }
    }
    seq(|steps|, k requires 0 <= k < |steps| => InstructionTuple(recipeId, k + 1, Escape(steps[k])))
  }

  /** `RecipesInstructions.map(...)` with the `instruction_id` counter
      incremented once per step. */
  method InstructionTuples(recipeId: RecipeId, steps: seq<string>) returns (tuples: seq<InstructionTuple>)
    ensures |tuples| == |steps|
    ensures forall k :: 0 <= k < |steps| ==>
      && tuples[k].recipeId == recipeId
      && tuples[k].instructionId == k + 1
      && Unescape(tuples[k].literal) == steps[k]
      && QuotesDoubled(tuples[k].literal)
    ensures tuples == NumberedSteps(recipeId, steps)
  {
    var instructionId := 1;
    tuples := [];
    for i := 0 to |steps|
      invariant instructionId == i + 1
      invariant tuples == NumberedSteps(recipeId, steps[..i])
    {
      tuples := tuples + [InstructionTuple(recipeId, instructionId, Escape(steps[i]))];
      instructionId := instructionId + 1;
    }
    assert steps[..|steps|] == steps;
    forall k | 0 <= k < |steps| ensures Unescape(tuples[k].literal) == steps[k] {
      UnescapeEscape(steps[k]);
    }
  }

  /** The rows the database stores for the tuples. */
  function StoredInstructions(tuples: seq<InstructionTuple>): seq<InstructionRow> {
    seq(|tuples|, k requires 0 <= k < |tuples| =>
      InstructionRow(tuples[k].recipeId, tuples[k].instructionId, Unescape(tuples[k].literal)))
  }

  /** `INSERT INTO instructions (...) VALUES <tuples joined by ", ">`: with no
      tuple the statement ends in `VALUES ` and is refused. */
  function InsertInstructions(t: Tables, tuples: seq<InstructionTuple>): (r: Result<Tables>)
    ensures r.Success? <==> tuples != []
    ensures r.Success? ==> r.value == t.(instructions := t.instructions + StoredInstructions(tuples))
  {
    if tuples == [] then Failure(BadStatement)
    else Success(t.(instructions := t.instructions + StoredInstructions(tuples)))
  }

  /** The stored rows of a new recipe, selected `ORDER BY instruction_id`,
      come back as the original steps in their original order. */
  lemma StepsReadBack(recipeId: RecipeId, steps: seq<string>)
    ensures Descriptions(OrderBy(StoredInstructions(NumberedSteps(recipeId, steps)), InstructionKey)) == steps
  {
    var stored := StoredInstructions(NumberedSteps(recipeId, steps));
    assert SortedBy(stored, InstructionKey);
    OrderByKeepsSorted(stored, InstructionKey);
    forall k | 0 <= k < |steps| ensures Descriptions(stored)[k] == steps[k] {
      UnescapeEscape(steps[k]);
    }
  }

  // ---------------------------------------------------------------- the recipe row

  /** The values a create request supplies for the recipe row. The personal
      variant supplies no `who_made`/`when_prepare`. */
  datatype RecipeFields = RecipeFields(
    userName: string,
    recipeName: string,
    imageRecipe: string,
    prepareTime: int,
    likes: int,
    isVegan: bool,
    isVegetarian: bool,
    isGlutenFree: bool,
    summary: string,
    portions: int,
    whoMade: string,
    whenPrepare: string)

  /** A text value written between quotes without doubling: a `'` in it
      breaks the statement. */
  predicate Unquoted(s: string) {
    '\'' !in s
  }

  predicate FieldsUnquoted(f: RecipeFields, c: Category) {
    && Unquoted(f.userName) && Unquoted(f.recipeName) && Unquoted(f.imageRecipe) && Unquoted(f.summary)
    && (c == Family ==> Unquoted(f.whoMade) && Unquoted(f.whenPrepare))
  }

  /** The row the recipe INSERT stores under the new id. */
  function NewRow(id: RecipeId, f: RecipeFields, c: Category): (row: RecipeRow)
    ensures row.recipeId == id && row.userName == f.userName && row.recipeName == f.recipeName
    ensures c == Family ==> row.whoMade == f.whoMade && row.whenPrepare == f.whenPrepare
  {
    RecipeRow(id, f.userName, f.recipeName, f.imageRecipe, f.prepareTime, f.likes, f.isVegan,
      f.isVegetarian, f.isGlutenFree, f.summary, f.portions,
      if c == Family then f.whoMade else "", if c == Family then f.whenPrepare else "")
  }

  function AddRecipe(t: Tables, c: Category, row: RecipeRow): (r: Tables)
    ensures r.RecipeTable(c) == t.RecipeTable(c) + [row]
  {
    match c
    case Personal => t.(personalRecipes := t.personalRecipes + [row])
    case Family => t.(familyRecipes := t.familyRecipes + [row])
  }

  // ---------------------------------------------------------------- ingredients

  datatype IngredientInput = IngredientInput(name: string, amount: real, unitLong: string)

  /** The column list of the ingredient INSERT of `createFamilyRecipe`. */
  const IngredientColumns: seq<string> := ["recipe_id", "ingredient_name", "amount", "unitLong"]

  /** The column list of the ingredient INSERT of `createPersonalRecipe`, as written: `()`. */
  const PersonalIngredientColumnsAsWritten: seq<string> := []

  function IngredientRowOf(id: RecipeId, ing: IngredientInput): IngredientRow {
    IngredientRow(id, ing.name, ing.amount, ing.unitLong)
  }

  function IngredientRows(id: RecipeId, ings: seq<IngredientInput>): seq<IngredientRow> {
    seq(|ings|, k requires 0 <= k < |ings| => IngredientRowOf(id, ings[k]))
  }

  /** `INSERT INTO ingredients <columns> VALUES (<four values>)`: the column
      list must name as many columns as there are values. */
  function InsertIngredient(t: Tables, columns: seq<string>, id: RecipeId, ing: IngredientInput): (r: Result<Tables>)
    ensures r.Success? <==> |columns| == 4 && Unquoted(ing.name) && Unquoted(ing.unitLong)
    ensures r.Success? ==> r.value == t.(ingredients := t.ingredients + [IngredientRowOf(id, ing)])
  {
    if |columns| == 4 && Unquoted(ing.name) && Unquoted(ing.unitLong) then
      Success(t.(ingredients := t.ingredients + [IngredientRowOf(id, ing)]))
    else Failure(BadStatement)
  }

  /** The state after a statement sequence, and whether it completed. */
  datatype Outcome = Outcome(tables: Tables, result: Result<RecipeId>)

  predicate IngredientsAccepted(columns: seq<string>, ings: seq<IngredientInput>) {
    ings == [] || (|columns| == 4 && forall ing :: ing in ings ==> Unquoted(ing.name) && Unquoted(ing.unitLong))
  }

  /** `for (const ingredient of RecipesIngredients) await ...`: stops at the
      first refused statement, keeping the rows inserted before it. */
  function InsertIngredients(t: Tables, columns: seq<string>, id: RecipeId, ings: seq<IngredientInput>): (o: Outcome)
    ensures o.result.Success? <==> IngredientsAccepted(columns, ings)
    ensures o.result.Success? ==> o.result.value == id
    ensures o.result.Success? ==> o.tables == t.(ingredients := t.ingredients + IngredientRows(id, ings))
    ensures exists k :: 0 <= k <= |ings| && o.tables == t.(ingredients := t.ingredients + IngredientRows(id, ings[..k]))
    decreases |ings|
  {
    if ings == [] then
      assert t.ingredients + IngredientRows(id, ings[..0]) == t.ingredients;
      Outcome(t, Success(id))
    else
      var front, last := ings[..|ings| - 1], ings[|ings| - 1];
      var o := InsertIngredients(t, columns, id, front);
      var k :| 0 <= k <= |front| && o.tables == t.(ingredients := t.ingredients + IngredientRows(id, front[..k]));
      assert front[..k] == ings[..k];
      IngredientsAcceptedSnoc(columns, ings);
      if o.result.Failure? then o
      else
        IngredientRowsSnoc(id, ings);
        assert ings[..|ings|] == ings;
        match InsertIngredient(o.tables, columns, id, last)
        case Success(t2) =>
          assert t2.ingredients == t.ingredients + IngredientRows(id, ings);
          Outcome(t2, Success(id))
        case Failure(e) =>
          assert front[..|front|] == front;
          Outcome(o.tables, Failure(e))
  }

  /** Acceptance of a list is acceptance of its front and of its last item. */
  lemma IngredientsAcceptedSnoc(columns: seq<string>, ings: seq<IngredientInput>)
    requires ings != []
    ensures var last := ings[|ings| - 1];
      IngredientsAccepted(columns, ings) <==>
        IngredientsAccepted(columns, ings[..|ings| - 1]) && |columns| == 4 && Unquoted(last.name) && Unquoted(last.unitLong)
  {
    assert ings == ings[..|ings| - 1] + [ings[|ings| - 1]];
  }

  lemma IngredientRowsSnoc(id: RecipeId, ings: seq<IngredientInput>)
    requires ings != []
    ensures IngredientRows(id, ings) == IngredientRows(id, ings[..|ings| - 1]) + [IngredientRowOf(id, ings[|ings| - 1])]
  {
  }

  // ---------------------------------------------------------------- the whole creation

  /** The statements of one creation, run against `t` with the new id `id`. */
  function Create(t: Tables, id: RecipeId, c: Category, f: RecipeFields, steps: seq<string>,
                  ings: seq<IngredientInput>, columns: seq<string>): (o: Outcome)
    ensures o.result.Success? <==> FieldsUnquoted(f, c) && steps != [] && IngredientsAccepted(columns, ings)
    ensures o.result.Success? ==> o.result.value == id
    ensures !FieldsUnquoted(f, c) ==> o.tables == t
    ensures FieldsUnquoted(f, c) ==> o.tables.RecipeTable(c) == t.RecipeTable(c) + [NewRow(id, f, c)]
  {
    if !FieldsUnquoted(f, c) then Outcome(t, Failure(BadStatement))
    else
      var t1 := AddRecipe(t, c, NewRow(id, f, c));
      match InsertInstructions(t1, NumberedSteps(id, steps))
      case Failure(e) => Outcome(t1, Failure(e))
      case Success(t2) => InsertIngredients(t2, columns, id, ings)
  }

  /** The recipe-creation procedure, statement by statement, against the
      database with its AUTO_INCREMENT counter. */
  method CreateRecipe(db: Database, c: Category, f: RecipeFields, steps: seq<string>,
                      ings: seq<IngredientInput>, columns: seq<string>)
    returns (r: Result<RecipeId>)
    requires db.Valid()
    modifies db
    ensures db.Valid()
    ensures db.tables == Create(old(db.tables), old(db.NextId(c)), c, f, steps, ings, columns).tables
    ensures r == Create(old(db.tables), old(db.NextId(c)), c, f, steps, ings, columns).result
    ensures db.NextId(c) == old(db.NextId(c)) + (if FieldsUnquoted(f, c) then 1 else 0)
    ensures c == Personal ==> db.nextFamilyId == old(db.nextFamilyId)
    ensures c == Family ==> db.nextPersonalId == old(db.nextPersonalId)
  {
    if !FieldsUnquoted(f, c) {
      return Failure(BadStatement);
    }
    var id := InsertRecipeRow(db, c, f);
    // INSERT INTO instructions ...
    var tuples := InstructionTuples(id, steps);
    var inserted := InsertInstructions(db.tables, tuples);
    if inserted.Failure? {
      return Failure(inserted.error);
    }
    db.tables := inserted.value;
    // one INSERT INTO ingredients ... per ingredient
    r := InsertEachIngredient(db, columns, id, ings);
  }

  /** `INSERT INTO <category>recipes ...`, answering `result.insertId`. */
  method InsertRecipeRow(db: Database, c: Category, f: RecipeFields) returns (id: RecipeId)
    requires db.Valid()
    modifies db
    ensures db.Valid()
    ensures id == old(db.NextId(c))
    ensures db.tables == AddRecipe(old(db.tables), c, NewRow(id, f, c))
    ensures db.NextId(c) == id + 1
    ensures c == Personal ==> db.nextFamilyId == old(db.nextFamilyId)
    ensures c == Family ==> db.nextPersonalId == old(db.nextPersonalId)
  {
    id := db.NextId(c);
    db.tables := AddRecipe(db.tables, c, NewRow(id, f, c));
    if c == Personal {
      db.nextPersonalId := db.nextPersonalId + 1;
    } else {
      db.nextFamilyId := db.nextFamilyId + 1;
    }
  }

  /** `for (const ingredient of RecipesIngredients) await ...`, one statement
      at a time, stopping at the first refused one. */
  method InsertEachIngredient(db: Database, columns: seq<string>, id: RecipeId, ings: seq<IngredientInput>)
    returns (r: Result<RecipeId>)
    requires db.Valid()
    modifies db
    ensures db.Valid()
    ensures Outcome(db.tables, r) == InsertIngredients(old(db.tables), columns, id, ings)
    ensures db.nextPersonalId == old(db.nextPersonalId) && db.nextFamilyId == old(db.nextFamilyId)
  {
    ghost var t := db.tables;
    for i := 0 to |ings|
      invariant InsertIngredients(t, columns, id, ings[..i]) == Outcome(db.tables, Success(id))
      invariant db.tables == t.(ingredients := db.tables.ingredients)
      invariant db.nextPersonalId == old(db.nextPersonalId) && db.nextFamilyId == old(db.nextFamilyId)
      invariant db.Valid()
    {
      var next := InsertIngredient(db.tables, columns, id, ings[i]);
      IngredientStep(t, columns, id, ings, i, db.tables);
      if next.Failure? {
        FailureStops(t, columns, id, ings, i + 1);
        return Failure(next.error);
      }
      db.tables := next.value;
    }
    assert ings[..|ings|] == ings;
    r := Success(id);
  }

  /** One more ingredient statement, after the earlier ones succeeded. */
  lemma IngredientStep(t: Tables, columns: seq<string>, id: RecipeId, ings: seq<IngredientInput>, i: nat, ti: Tables)
    requires i < |ings|
    requires InsertIngredients(t, columns, id, ings[..i]) == Outcome(ti, Success(id))
    ensures InsertIngredients(t, columns, id, ings[..i + 1])
         == match InsertIngredient(ti, columns, id, ings[i])
            case Success(t3) => Outcome(t3, Success(id))
            case Failure(e) => Outcome(ti, Failure(e))
  {
    assert ings[..i + 1][..i] == ings[..i];
  }

  /** Once an ingredient statement has failed, the later ones never run. */
  lemma {:induction false} FailureStops(t: Tables, columns: seq<string>, id: RecipeId, ings: seq<IngredientInput>, n: nat)
    requires n <= |ings|
    requires InsertIngredients(t, columns, id, ings[..n]).result.Failure?
    ensures InsertIngredients(t, columns, id, ings) == InsertIngredients(t, columns, id, ings[..n])
    decreases |ings| - n
  {
    if n < |ings| {
      assert ings[..n + 1][..n] == ings[..n];
      FailureStops(t, columns, id, ings, n + 1);
    } else {
      assert ings[..n] == ings;
    }
  }

  /** `createPersonalRecipe`, with its ingredient INSERT naming its columns. */
  method CreatePersonalRecipe(db: Database, f: RecipeFields, steps: seq<string>, ings: seq<IngredientInput>)
    returns (r: Result<RecipeId>)
    requires db.Valid()
    modifies db
    ensures db.Valid()
    ensures db.tables == Create(old(db.tables), old(db.nextPersonalId), Personal, f, steps, ings, IngredientColumns).tables
    ensures r == Create(old(db.tables), old(db.nextPersonalId), Personal, f, steps, ings, IngredientColumns).result
    ensures db.nextPersonalId == old(db.nextPersonalId) + (if FieldsUnquoted(f, Personal) then 1 else 0)
    ensures db.nextFamilyId == old(db.nextFamilyId)
  {
    r := CreateRecipe(db, Personal, f, steps, ings, IngredientColumns);
  }

  /** `createPersonalRecipe` as written: `INSERT INTO ingredients () VALUES (...)`. */
  method CreatePersonalRecipeAsWritten(db: Database, f: RecipeFields, steps: seq<string>, ings: seq<IngredientInput>)
    returns (r: Result<RecipeId>)
    requires db.Valid()
    modifies db
    ensures db.Valid()
    ensures db.tables == Create(old(db.tables), old(db.nextPersonalId), Personal, f, steps, ings, PersonalIngredientColumnsAsWritten).tables
    ensures r == Create(old(db.tables), old(db.nextPersonalId), Personal, f, steps, ings, PersonalIngredientColumnsAsWritten).result
    ensures db.nextPersonalId == old(db.nextPersonalId) + (if FieldsUnquoted(f, Personal) then 1 else 0)
    ensures db.nextFamilyId == old(db.nextFamilyId)
  {
    r := CreateRecipe(db, Personal, f, steps, ings, PersonalIngredientColumnsAsWritten);
  }

  /** `createFamilyRecipe`. */
  method CreateFamilyRecipe(db: Database, f: RecipeFields, steps: seq<string>, ings: seq<IngredientInput>)
    returns (r: Result<RecipeId>)
    requires db.Valid()
    modifies db
    ensures db.Valid()
    ensures db.tables == Create(old(db.tables), old(db.nextFamilyId), Family, f, steps, ings, IngredientColumns).tables
    ensures r == Create(old(db.tables), old(db.nextFamilyId), Family, f, steps, ings, IngredientColumns).result
    ensures db.nextFamilyId == old(db.nextFamilyId) + (if FieldsUnquoted(f, Family) then 1 else 0)
    ensures db.nextPersonalId == old(db.nextPersonalId)
  {
    r := CreateRecipe(db, Family, f, steps, ings, IngredientColumns);
  }

  // ---------------------------------------------------------------- what creation promises

  /** With the ingredient INSERT as written in `createPersonalRecipe`, every
      personal recipe with an ingredient fails at its first ingredient, after
      the recipe row and its instructions are already stored. */
  lemma PersonalCreateAsWrittenFails(t: Tables, id: RecipeId, f: RecipeFields, steps: seq<string>, ings: seq<IngredientInput>)
    requires FieldsUnquoted(f, Personal) && steps != [] && ings != []
    ensures var o := Create(t, id, Personal, f, steps, ings, PersonalIngredientColumnsAsWritten);
      && o.result == Failure(BadStatement)
      && o.tables.personalRecipes == t.personalRecipes + [NewRow(id, f, Personal)]
      && o.tables.instructions == t.instructions + StoredInstructions(NumberedSteps(id, steps))
      && o.tables.ingredients == t.ingredients
  {
    var t2 := AddRecipe(t, Personal, NewRow(id, f, Personal)).(instructions := t.instructions + StoredInstructions(NumberedSteps(id, steps)));
    var o := InsertIngredients(t2, PersonalIngredientColumnsAsWritten, id, ings);
    var k :| 0 <= k <= |ings| && o.tables == t2.(ingredients := t2.ingredients + IngredientRows(id, ings[..k]));
    FailureStops(t2, PersonalIngredientColumnsAsWritten, id, ings, 1);
    assert ings[..1][..0] == [];
    assert InsertIngredients(t2, PersonalIngredientColumnsAsWritten, id, ings[..1]).tables == t2;
  }

  /** A recipe with no steps fails at the instructions INSERT, and its
      recipe row stays behind. */
  lemma NoStepsLeavesRecipeRow(t: Tables, id: RecipeId, c: Category, f: RecipeFields,
                               ings: seq<IngredientInput>, columns: seq<string>)
    requires FieldsUnquoted(f, c)
    ensures var o := Create(t, id, c, f, [], ings, columns);
      && o.result == Failure(BadStatement)
      && o.tables.RecipeTable(c) == t.RecipeTable(c) + [NewRow(id, f, c)]
      && o.tables.instructions == t.instructions
      && o.tables.ingredients == t.ingredients
  {
    assert NumberedSteps(id, []) == [];
  }

  /** What a completed creation has added to the tables. */
  lemma CreatedRows(t: Tables, id: RecipeId, c: Category, f: RecipeFields,
                    steps: seq<string>, ings: seq<IngredientInput>)
    requires Create(t, id, c, f, steps, ings, IngredientColumns).result.Success?
    ensures var o := Create(t, id, c, f, steps, ings, IngredientColumns).tables;
      && o.RecipeTable(c) == t.RecipeTable(c) + [NewRow(id, f, c)]
      && o.instructions == t.instructions + StoredInstructions(NumberedSteps(id, steps))
      && o.ingredients == t.ingredients + IngredientRows(id, ings)
  {
  }

  /** A completed creation under a fresh id reads back through
      `getFullRecipe` as what was sent: the fields, the ingredients in
      order, and the steps as one instruction group in order. */
  lemma ReadBackAfterCreate(t: Tables, id: RecipeId, c: Category, f: RecipeFields,
                            steps: seq<string>, ings: seq<IngredientInput>)
    requires Create(t, id, c, f, steps, ings, IngredientColumns).result.Success?
    requires forall r :: r in t.RecipeTable(c) ==> r.recipeId != id
    requires forall r :: r in t.instructions ==> r.recipeId != id
    requires forall r :: r in t.ingredients ==> r.recipeId != id
    ensures var v := GetFullRecipe(Create(t, id, c, f, steps, ings, IngredientColumns).tables, id, c);
      && v.Success?
      && v.value.recipeId == id && v.value.recipeName == f.recipeName
      && (c == Family ==> v.value.family == Some(FamilyNote(f.whoMade, f.whenPrepare)))
      && (c == Personal ==> v.value.family.None?)
      && v.value.instructions == Some([InstructionGroup(steps)])
      && v.value.ingredients == Some(seq(|ings|, k requires 0 <= k < |ings| => Ingredient(ings[k].name, ings[k].amount, ings[k].unitLong)))
  {
    var row := NewRow(id, f, c);
    var stored := StoredInstructions(NumberedSteps(id, steps));
    var added := IngredientRows(id, ings);
    var o := Create(t, id, c, f, steps, ings, IngredientColumns).tables;
    CreatedRows(t, id, c, f, steps, ings);
    WithIdAppend(t.RecipeTable(c), [row], RecipeRowId, id);
    WithIdAppend(t.instructions, stored, InstructionRecipeId, id);
    WithIdAppend(t.ingredients, added, IngredientRecipeId, id);
    var v := GetFullRecipe(o, id, c).value;
    assert v == RecipeDetails(row, added, OrderBy(stored, InstructionKey), c);
    StepsReadBack(id, steps);
    IngredientsReadBack(id, ings);
  }

  lemma IngredientsReadBack(id: RecipeId, ings: seq<IngredientInput>)
    ensures IngredientViews(IngredientRows(id, ings))
         == seq(|ings|, k requires 0 <= k < |ings| => Ingredient(ings[k].name, ings[k].amount, ings[k].unitLong))
  {
  }

  // ---------------------------------------------------------------- ids across the two recipe tables

  /** Every recipe, ingredient and instruction row has an id below `n`. */
  ghost predicate IdsBelow(t: Tables, n: RecipeId) {
    && (forall r :: r in t.personalRecipes ==> r.recipeId < n)
    && (forall r :: r in t.familyRecipes ==> r.recipeId < n)
    && (forall r :: r in t.ingredients ==> r.recipeId < n)
    && (forall r :: r in t.instructions ==> r.recipeId < n)
  }

  /** With the ingredient INSERT as written, a personal creation whose
      recipe and instruction statements run leaves both behind, whether or
      not it then fails on an ingredient. */
  lemma PersonalCreateAsWrittenCommits(t: Tables, id: RecipeId, f: RecipeFields, steps: seq<string>,
                                       ings: seq<IngredientInput>)
    requires FieldsUnquoted(f, Personal) && steps != []
    ensures var o := Create(t, id, Personal, f, steps, ings, PersonalIngredientColumnsAsWritten).tables;
      && o.personalRecipes == t.personalRecipes + [NewRow(id, f, Personal)]
      && o.instructions == t.instructions + StoredInstructions(NumberedSteps(id, steps))
  {
    if ings != [] {
      PersonalCreateAsWrittenFails(t, id, f, steps, ings);
    }
  }

  /** The two recipe tables number their rows independently (both counters
      start at 1), while `instructions` is shared and keyed by `recipe_id`
      alone. A family recipe and then a personal recipe created under the
      same id, each with the create the code has, leave the family steps
      in the personal recipe's read-back. */
  lemma CrossCategoryStepsMix(t: Tables, id: RecipeId,
                              family: RecipeFields, familySteps: seq<string>, familyIngs: seq<IngredientInput>,
                              personal: RecipeFields, personalSteps: seq<string>, personalIngs: seq<IngredientInput>)
    requires IdsBelow(t, id)
    requires Create(t, id, Family, family, familySteps, familyIngs, IngredientColumns).result.Success?
    requires FieldsUnquoted(personal, Personal) && personalSteps != []
    ensures var t1 := Create(t, id, Family, family, familySteps, familyIngs, IngredientColumns).tables;
      var t2 := Create(t1, id, Personal, personal, personalSteps, personalIngs, PersonalIngredientColumnsAsWritten).tables;
      && GetFullRecipe(t2, id, Personal).Success?
      && GetFullRecipe(t2, id, Personal).value.instructions != Some([InstructionGroup(personalSteps)])
  {
    var t1 := Create(t, id, Family, family, familySteps, familyIngs, IngredientColumns).tables;
    var t2 := Create(t1, id, Personal, personal, personalSteps, personalIngs, PersonalIngredientColumnsAsWritten).tables;
    var fromFamily := StoredInstructions(NumberedSteps(id, familySteps));
    var fromPersonal := StoredInstructions(NumberedSteps(id, personalSteps));
    CreatedRows(t, id, Family, family, familySteps, familyIngs);
    PersonalCreateAsWrittenCommits(t1, id, personal, personalSteps, personalIngs);
    assert t2.instructions == t.instructions + (fromFamily + fromPersonal);
    assert forall x :: x in t.instructions ==> x.recipeId != id;
    WithIdAppend(t.instructions, fromFamily + fromPersonal, InstructionRecipeId, id);
    var row := NewRow(id, personal, Personal);
    assert row in t2.personalRecipes;
    assert row in RecipesWithId(t2.RecipeTable(Personal), id);
    ReadBackStepCount(t2, id, Personal);
  }

  /** The read-back of a recipe holds one step per instruction row of its id. */
  lemma ReadBackStepCount(t: Tables, id: RecipeId, c: Category)
    requires RecipesWithId(t.RecipeTable(c), id) != []
    ensures GetFullRecipe(t, id, c).value.instructions
         == Some([InstructionGroup(Descriptions(OrderBy(InstructionsOf(t.instructions, id), InstructionKey)))])
    ensures |GetFullRecipe(t, id, c).value.instructions.value[0].steps| == |InstructionsOf(t.instructions, id)|
  {
  }

  /** With one id sequence shared by both recipe tables, a completed
      creation under the next id reads back as sent, and the next id after
      it is again fresh in every table. */
  lemma SharedIdsReadBack(t: Tables, n: RecipeId, c: Category, f: RecipeFields,
                          steps: seq<string>, ings: seq<IngredientInput>)
    requires IdsBelow(t, n)
    requires Create(t, n, c, f, steps, ings, IngredientColumns).result.Success?
    ensures var o := Create(t, n, c, f, steps, ings, IngredientColumns).tables;
      && IdsBelow(o, n + 1)
      && var v := GetFullRecipe(o, n, c);
      && v.Success?
      && v.value.recipeName == f.recipeName
      && v.value.instructions == Some([InstructionGroup(steps)])
      && v.value.ingredients == Some(seq(|ings|, k requires 0 <= k < |ings| => Ingredient(ings[k].name, ings[k].amount, ings[k].unitLong)))
  {
    assert forall r :: r in t.RecipeTable(c) ==> r.recipeId != n;
    ReadBackAfterCreate(t, n, c, f, steps, ings);
    CreateKeepsIdsBelow(t, n, c, f, steps, ings);
  }

  /** A completed creation under `n` adds rows with id `n` only. */
  lemma CreateKeepsIdsBelow(t: Tables, n: RecipeId, c: Category, f: RecipeFields,
                            steps: seq<string>, ings: seq<IngredientInput>)
    requires IdsBelow(t, n)
    requires Create(t, n, c, f, steps, ings, IngredientColumns).result.Success?
    ensures IdsBelow(Create(t, n, c, f, steps, ings, IngredientColumns).tables, n + 1)
  {
    CreatedRows(t, n, c, f, steps, ings);
    var o := Create(t, n, c, f, steps, ings, IngredientColumns).tables;
    assert forall r :: r in StoredInstructions(NumberedSteps(n, steps)) ==> r.recipeId == n;
    assert forall r :: r in IngredientRows(n, ings) ==> r.recipeId == n;
    if c == Personal {
      assert o.familyRecipes == t.familyRecipes;
    } else {
      assert o.personalRecipes == t.personalRecipes;
    }
  }
}
