/** The logic written inline in the user routes (`routes/user.js`): the
    request validation of the two create routes, the free-text
    instruction normalisation, and the decisions of the favourite-status
    and last-viewed lookups. The session's user name is a parameter. */
module UserRoutes {
  import opened RecipeModel
  import opened Tables
  import opened Aggregation
  import opened Authoring
  import RecipesUtils

  // ---------------------------------------------------------------- String.prototype.trim

  /** JavaScript's WhiteSpace and LineTerminator code points. */
  const JsSpaces: set<char> := {
    '\U{0009}', '\U{000A}', '\U{000B}', '\U{000C}', '\U{000D}', '\U{0020}', '\U{00A0}', '\U{1680}',
    '\U{2000}', '\U{2001}', '\U{2002}', '\U{2003}', '\U{2004}', '\U{2005}', '\U{2006}', '\U{2007}',
    '\U{2008}', '\U{2009}', '\U{200A}', '\U{2028}', '\U{2029}', '\U{202F}', '\U{205F}', '\U{3000}',
    '\U{FEFF}'}

  predicate IsJsSpace(c: char) {
    c in JsSpaces
  }

  /** Neither end of `s` is white space. */
  predicate Trimmed(s: string) {
    s == [] || (!IsJsSpace(s[0]) && !IsJsSpace(s[|s| - 1]))
  }

  /** The length of the white space at the front of `s`. */
  function Leading(s: string): (n: nat)
    ensures n <= |s|
    ensures forall i :: 0 <= i < n ==> IsJsSpace(s[i])
    ensures n == |s| || !IsJsSpace(s[n])
  {
    if s == [] || !IsJsSpace(s[0]) then 0
    else
      var n := Leading(s[1..]);
      assert forall i :: 1 <= i < n + 1 ==> s[i] == s[1..][i - 1];
      n + 1
  }

  /** The length of the white space at the back of `s`. */
  function Trailing(s: string): (n: nat)
    ensures n <= |s|
    ensures forall i :: |s| - n <= i < |s| ==> IsJsSpace(s[i])
    ensures n == |s| || !IsJsSpace(s[|s| - n - 1])
  {
    if s == [] || !IsJsSpace(s[|s| - 1]) then 0
    else
      var n := Trailing(s[..|s| - 1]);
      assert forall i :: 0 <= i < |s| - 1 ==> s[..|s| - 1][i] == s[i];
      n + 1
  }

  /** `s.trim()`: the slice of `s` left after dropping white space at both
      ends; only white space is dropped. */
  function Trim(s: string): (r: string)
    ensures Trimmed(r)
    ensures Leading(s) + |r| <= |s| && r == s[Leading(s)..Leading(s) + |r|]
    ensures forall k :: Leading(s) + |r| <= k < |s| ==> IsJsSpace(s[k])
  {
    var a := Leading(s);
    var n := Trailing(s[a..]);
    var b := |s| - n;
    assert forall k :: b <= k < |s| ==> s[k] == s[a..][k - a];
    assert a < b ==> s[b - 1] == s[a..][|s[a..]| - n - 1];
    TrimmedSlice(s, a, b);
    s[a..b]
  }

  /** A slice whose end characters are not white space is trimmed. */
  lemma TrimmedSlice(s: string, a: nat, b: nat)
    requires a <= b <= |s|
    requires a < b ==> !IsJsSpace(s[a]) && !IsJsSpace(s[b - 1])
    ensures Trimmed(s[a..b])
  {
    if a < b {
      assert s[a..b][0] == s[a] && s[a..b][b - a - 1] == s[b - 1];
    }
  }

  /** Trimming adds no character. */
  lemma TrimOnlyDrops(s: string, c: char)
    requires c !in s
    ensures c !in Trim(s)
  {
    var r, i := Trim(s), Leading(s);
    assert forall k :: 0 <= k < |r| ==> r[k] == s[i + k];
  }

  /** Trimming twice trims nothing more. */
  lemma TrimIdempotent(s: string)
    ensures Trim(Trim(s)) == Trim(s)
  {
    var r := Trim(s);
    if r != [] {
      assert Leading(r) == 0 && Trailing(r) == 0;
    }
  }

  // ---------------------------------------------------------------- String.prototype.split

  /** The pieces joined back with `sep` between them. */
  function Join(pieces: seq<string>, sep: char): string
    requires |pieces| > 0
  {
    if |pieces| == 1 then pieces[0] else pieces[0] + [sep] + Join(pieces[1..], sep)
  }

  /** `s.split(sep)` for a one-character separator: the maximal runs
      without `sep`, and joining them back gives `s`. */
  function Split(s: string, sep: char): (pieces: seq<string>)
    ensures |pieces| > 0
    ensures forall p :: p in pieces ==> sep !in p
    ensures Join(pieces, sep) == s
    decreases |s|
  {
    if sep !in s then [s]
    else
      var k := IndexOf(s, sep);
      var rest := Split(s[k + 1..], sep);
      assert s == s[..k] + [sep] + s[k + 1..];
      assert ([s[..k]] + rest)[1..] == rest;
      [s[..k]] + rest
  }

  // ---------------------------------------------------------------- instruction normalisation

  /** `RecipesInstructions` as the body carries it: free text or a list. */
  datatype InstructionsInput = Text(text: string) | Steps(steps: seq<string>)

  /** `.map(step => step.trim()).filter(step => step.length > 0)` */
  function TrimmedNonEmpty(pieces: seq<string>): (r: seq<string>)
    ensures |r| <= |pieces|
    ensures forall step :: step in r ==> step != [] && Trimmed(step) && exists p :: p in pieces && step == Trim(p)
    ensures forall p :: p in pieces && Trim(p) != [] ==> Trim(p) in r
  {
    if pieces == [] then []
    else
      var rest := TrimmedNonEmpty(pieces[1..]);
      assert forall p :: p in pieces <==> p == pieces[0] || p in pieces[1..];
      (if Trim(pieces[0]) != [] then [Trim(pieces[0])] else []) + rest
  }

  /** The step a piece contributes: its trimmed text, unless that is blank. */
  function KeptStep(p: string): seq<string> {
    if Trim(p) != [] then [Trim(p)] else []
  }

  /** The first piece's step comes first, then the steps of the rest. */
  lemma TrimmedNonEmptyCons(p: string, rest: seq<string>)
    ensures TrimmedNonEmpty([p] + rest) == KeptStep(p) + TrimmedNonEmpty(rest)
  {
    assert ([p] + rest)[0] == p && ([p] + rest)[1..] == rest;
  }

  /** The kept steps of a piece list are the kept steps of each part, in
      order: `.map(trim).filter(...)` neither reorders nor merges pieces. */
  lemma {:induction false} TrimmedNonEmptyConcat(a: seq<string>, b: seq<string>)
    ensures TrimmedNonEmpty(a + b) == TrimmedNonEmpty(a) + TrimmedNonEmpty(b)
  {
    if a == [] {
      assert a + b == b;
      assert TrimmedNonEmpty(a) == [];
      assert [] + TrimmedNonEmpty(b) == TrimmedNonEmpty(b);
    } else {
      var p, rest := a[0], a[1..];
      assert a == [p] + rest;
      assert a + b == [p] + (rest + b);
      TrimmedNonEmptyCons(p, rest);
      TrimmedNonEmptyCons(p, rest + b);
      TrimmedNonEmptyConcat(rest, b);
      AppendAssoc(KeptStep(p), TrimmedNonEmpty(rest), TrimmedNonEmpty(b));
    }
  }

  lemma AppendAssoc<T>(x: seq<T>, y: seq<T>, z: seq<T>)
    ensures x + (y + z) == (x + y) + z
  {
  }

  /** One piece gives its trimmed text, unless that is blank. */
  lemma TrimmedNonEmptyOne(p: string)
    ensures TrimmedNonEmpty([p]) == KeptStep(p)
  {
    assert [p][1..] == [];
  }

  /** The instruction list handed to the create functions: free text is
      split at every `.`; a list passes unchanged. */
  function NormalizeInstructions(x: InstructionsInput): (steps: seq<string>)
    ensures x.Steps? ==> steps == x.steps
    ensures x.Text? ==> forall step :: step in steps ==> step != [] && Trimmed(step) && '.' !in step
  {
    match x
    case Steps(steps) => steps
    case Text(text) =>
      var pieces := Split(text, '.');
      var steps := TrimmedNonEmpty(pieces);
      assert forall step :: step in steps ==> '.' !in step by {
        forall step | step in steps ensures '.' !in step {
          var p :| p in pieces && step == Trim(p);
          TrimOnlyDrops(p, '.');
        }
      }
      steps
  }

  /** Every piece of the text between two `.` that is not blank becomes a
      step, trimmed. */
  lemma EveryNonBlankPieceIsAStep(text: string, p: string)
    requires p in Split(text, '.') && Trim(p) != []
    ensures Trim(p) in NormalizeInstructions(Text(text))
  {
  }

  /** The first sentence of the text gives the first step (when not
      blank), and the steps of the rest follow it, one per sentence, so
      repeated sentences give repeated steps. */
  lemma NormalizeTextSentence(a: string, b: string)
    requires '.' !in a
    ensures NormalizeInstructions(Text(a + ['.'] + b))
         == KeptStep(a) + NormalizeInstructions(Text(b))
  {
    var s := a + ['.'] + b;
    assert s[|a|] == '.';
    assert s[..|a|] == a;
    var k := IndexOf(s, '.');
    assert k == |a|;
    assert s[k + 1..] == b;
    var pieces := Split(s, '.');
    assert pieces == [a] + Split(b, '.');
    TrimmedNonEmptyConcat([a], Split(b, '.'));
    TrimmedNonEmptyOne(a);
  }

  /** Text without a `.` is one step, or none when it is blank. */
  lemma NormalizeTextLastSentence(a: string)
    requires '.' !in a
    ensures NormalizeInstructions(Text(a)) == KeptStep(a)
  {
    TrimmedNonEmptyOne(a);
  }

  // ---------------------------------------------------------------- validation

  /** U+FE0E and U+FE0F, the text and emoji presentation selectors. */
  predicate IsPresentationSelector(c: char) {
    c == '\U{FE0E}' || c == '\U{FE0F}'
  }

  /** The length validator.js's `isLength` compares with its bounds: the
      UTF-16 length less one per surrogate pair and one per presentation
      selector, that is, the code points other than the selectors. */
  function IsLengthCount(s: string): (n: nat)
    ensures n <= |s|
    ensures n == |s| <==> forall i :: 0 <= i < |s| ==> !IsPresentationSelector(s[i])
  {
    if s == [] then 0
    else
      var rest := IsLengthCount(s[1..]);
      assert forall i :: 1 <= i < |s| ==> s[i] == s[1..][i - 1];
      (if IsPresentationSelector(s[0]) then 0 else 1) + rest
  }

  /** The count is taken character by character. */
  lemma {:induction false} IsLengthCountConcat(a: string, b: string)
    ensures IsLengthCount(a + b) == IsLengthCount(a) + IsLengthCount(b)
  {
    if a == [] {
      assert a + b == b;
    } else {
      assert (a + b)[1..] == a[1..] + b;
      IsLengthCountConcat(a[1..], b);
    }
  }

  /** `isString().isLength({ max })` */
  predicate AtMost(s: string, max: nat) {
    IsLengthCount(s) <= max
  }

  /** A text of at most `max` code points always passes `isLength`, and a
      text without presentation selectors passes exactly when it has at
      most `max` code points. */
  lemma AtMostCodePoints(s: string, max: nat)
    ensures |s| <= max ==> AtMost(s, max)
    ensures (forall i :: 0 <= i < |s| ==> !IsPresentationSelector(s[i])) ==> (AtMost(s, max) <==> |s| <= max)
  {
  }

  /** The body of a create request. */
  datatype CreateRequest = CreateRequest(
    recipeName: string,
    imageRecipe: string,
    prepareTime: int,
    likes: int,
    isVegan: bool,
    isVegetarian: bool,
    isGlutenFree: bool,
    whoMade: string,
    whenPrep: string,
    summary: string,
    portions: int,
    instructions: InstructionsInput,
    ingredients: seq<IngredientInput>,
    recipeType: string)

  /** The body fields a validation error can name. */
  datatype Field =
    | RecipeName | ImageRecipe | PrepareTime | Likes | WhoMade | WhenPrep | Summary | Portions
    | Instructions | IngredientName(index: nat) | IngredientUnit(index: nat) | RecipeTypeField

  /** Every bound of the validator list holds; `who_made` and `when_prep`
      are checked on the family route only. */
  predicate WithinBounds(req: CreateRequest, family: bool) {
    && FieldsWithinBounds(req, family)
    && (forall ing :: ing in req.ingredients ==> AtMost(ing.name, 750) && AtMost(ing.unitLong, 750))
    && AtMost(req.recipeType, 50)
  }

  /** The failing ingredient checks of one wildcard validator, from `from` on. */
  function IngredientErrors(ings: seq<IngredientInput>, from: nat, unit: bool): (errors: seq<Field>)
    ensures forall e :: e in errors ==> (if unit then e.IngredientUnit? else e.IngredientName?)
    ensures forall k: nat :: ((if unit then IngredientUnit(k) else IngredientName(k)) in errors
      <==> from <= k < from + |ings| && !AtMost(if unit then ings[k - from].unitLong else ings[k - from].name, 750))
  {
    if ings == [] then []
    else
      var here := if unit then ings[0].unitLong else ings[0].name;
      var rest := IngredientErrors(ings[1..], from + 1, unit);
      (if AtMost(here, 750) then [] else [if unit then IngredientUnit(from) else IngredientName(from)]) + rest
  }

  /** The bounds on the recipe's own fields. */
  predicate FieldsWithinBounds(req: CreateRequest, family: bool) {
    && AtMost(req.recipeName, 750) && AtMost(req.imageRecipe, 750)
    && req.prepareTime >= 1 && req.likes >= 0
    && (family ==> AtMost(req.whoMade, 750) && AtMost(req.whenPrep, 750))
    && AtMost(req.summary, 1000) && req.portions >= 1
    && req.instructions.Steps?
  }

  /** The check on field `f` of the recipe's own fields fails. */
  predicate FieldFails(req: CreateRequest, family: bool, f: Field) {
    match f
    case RecipeName => !AtMost(req.recipeName, 750)
    case ImageRecipe => !AtMost(req.imageRecipe, 750)
    case PrepareTime => req.prepareTime < 1
    case Likes => req.likes < 0
    case WhoMade => family && !AtMost(req.whoMade, 750)
    case WhenPrep => family && !AtMost(req.whenPrep, 750)
    case Summary => !AtMost(req.summary, 1000)
    case Portions => req.portions < 1
    case Instructions => req.instructions.Text?
    case IngredientName(_) => false
    case IngredientUnit(_) => false
    case RecipeTypeField => false
  }

  /** The recipe's own fields, in the order of the validator list. */
  const OwnFields: seq<Field> :=
    [RecipeName, ImageRecipe, PrepareTime, Likes, WhoMade, WhenPrep, Summary, Portions, Instructions]

  /** The fields of `fs` whose check fails, in order. */
  function Failing(req: CreateRequest, family: bool, fs: seq<Field>): (errors: seq<Field>)
    ensures forall f :: f in errors <==> f in fs && FieldFails(req, family, f)
  {
    if fs == [] then []
    else (if FieldFails(req, family, fs[0]) then [fs[0]] else []) + Failing(req, family, fs[1..])
  }

  /** The bounds hold exactly when no check on the recipe's own fields fails. */
  lemma FieldsWithinBoundsNoneFails(req: CreateRequest, family: bool)
    ensures FieldsWithinBounds(req, family) <==> forall f :: !FieldFails(req, family, f)
  {
    if FieldsWithinBounds(req, family) {
      forall f ensures !FieldFails(req, family, f) {
        match f
        case _ =>
      }
    } else {
      assert
        || FieldFails(req, family, RecipeName) || FieldFails(req, family, ImageRecipe)
        || FieldFails(req, family, PrepareTime) || FieldFails(req, family, Likes)
        || FieldFails(req, family, WhoMade) || FieldFails(req, family, WhenPrep)
        || FieldFails(req, family, Summary) || FieldFails(req, family, Portions)
        || FieldFails(req, family, Instructions);
    }
  }

  /** Only the fields of `OwnFields` have a check among the recipe's own fields. */
  lemma OwnFieldsListed(req: CreateRequest, family: bool, f: Field)
    requires FieldFails(req, family, f)
    ensures f in OwnFields
  {
    match f
    case _ =>
  }

  /** The failing checks on the recipe's own fields, in validator order. */
  function FieldErrors(req: CreateRequest, family: bool): (errors: seq<Field>)
    ensures errors == [] <==> FieldsWithinBounds(req, family)
    ensures forall f :: f in errors <==> FieldFails(req, family, f)
  {
    var errors := Failing(req, family, OwnFields);
    FieldsWithinBoundsNoneFails(req, family);
    assert forall f :: FieldFails(req, family, f) ==> f in OwnFields by {
      forall f | FieldFails(req, family, f) ensures f in OwnFields {
        OwnFieldsListed(req, family, f);
      }
    }
    assert errors != [] ==> errors[0] in errors;
    errors
  }

  /** One wildcard validator passes exactly when every ingredient passes it. */
  lemma IngredientErrorsEmpty(ings: seq<IngredientInput>, unit: bool)
    ensures IngredientErrors(ings, 0, unit) == []
        <==> forall ing :: ing in ings ==> AtMost(if unit then ing.unitLong else ing.name, 750)
  {
    var errors := IngredientErrors(ings, 0, unit);
    if errors != [] {
      assert errors[0] in errors;
    }
    forall ing | ing in ings && !AtMost(if unit then ing.unitLong else ing.name, 750) ensures errors != [] {
      var k :| 0 <= k < |ings| && ings[k] == ing;
      assert (if unit then IngredientUnit(k) else IngredientName(k)) in errors;
    }
  }

  /** The check on field `f` fails, among all the validators. */
  predicate Fails(req: CreateRequest, family: bool, f: Field) {
    match f
    case IngredientName(k) => k < |req.ingredients| && !AtMost(req.ingredients[k].name, 750)
    case IngredientUnit(k) => k < |req.ingredients| && !AtMost(req.ingredients[k].unitLong, 750)
    case RecipeTypeField => !AtMost(req.recipeType, 50)
    case _ => FieldFails(req, family, f)
  }

  /** `validationResult(req)`: the failed checks, in the order of the
      validator list. */
  function ValidationErrors(req: CreateRequest, family: bool): (errors: seq<Field>)
    ensures errors == [] <==> WithinBounds(req, family)
    ensures forall f :: f in errors <==> Fails(req, family, f)
  {
    var fields := FieldErrors(req, family);
    var names := IngredientErrors(req.ingredients, 0, false);
    var units := IngredientErrors(req.ingredients, 0, true);
    var kind := if AtMost(req.recipeType, 50) then [] else [RecipeTypeField];
    IngredientErrorsEmpty(req.ingredients, false);
    IngredientErrorsEmpty(req.ingredients, true);
    ErrorsOfParts(req, family, fields, names, units, kind);
    fields + names + units + kind
  }

  lemma ErrorsOfParts(req: CreateRequest, family: bool, fields: seq<Field>, names: seq<Field>, units: seq<Field>, kind: seq<Field>)
    requires forall f :: f in fields <==> FieldFails(req, family, f)
    requires forall e :: e in names ==> e.IngredientName?
    requires forall k: nat :: IngredientName(k) in names <==> k < |req.ingredients| && !AtMost(req.ingredients[k].name, 750)
    requires forall e :: e in units ==> e.IngredientUnit?
    requires forall k: nat :: IngredientUnit(k) in units <==> k < |req.ingredients| && !AtMost(req.ingredients[k].unitLong, 750)
    requires forall f :: f in kind <==> f == RecipeTypeField && !AtMost(req.recipeType, 50)
    ensures forall f :: f in fields + names + units + kind <==> Fails(req, family, f)
  {
  }

  /** The values the create functions receive from a request. */
  function FieldsOf(user: string, req: CreateRequest, family: bool): RecipeFields {
    RecipeFields(user, req.recipeName, req.imageRecipe, req.prepareTime, req.likes, req.isVegan,
      req.isVegetarian, req.isGlutenFree, req.summary, req.portions,
      if family then req.whoMade else "", if family then req.whenPrep else "")
  }

  /** `POST /createPersonalRecipe`: 400 before any statement when a check
      fails; otherwise the creation runs and 200 reports that it completed. */
  method CreatePersonalRecipeRoute(db: Database, user: string, req: CreateRequest) returns (status: int)
    requires db.Valid()
    modifies db
    ensures db.Valid()
    ensures !WithinBounds(req, false) ==> status == 400 && unchanged(db)
    ensures WithinBounds(req, false) ==>
      var o := Create(old(db.tables), old(db.nextPersonalId), Personal, FieldsOf(user, req, false),
                      req.instructions.steps, req.ingredients, IngredientColumns);
      && db.tables == o.tables
      && (status == 200 <==> o.result.Success?)
      && (status == 200 || status == 500)
    ensures db.nextPersonalId == old(db.nextPersonalId)
      + (if WithinBounds(req, false) && FieldsUnquoted(FieldsOf(user, req, false), Personal) then 1 else 0)
    ensures db.nextFamilyId == old(db.nextFamilyId)
  {
    var errors := ValidationErrors(req, false);
    if errors != [] {
      return 400;
    }
    var steps := NormalizeInstructions(req.instructions);
    var r := CreatePersonalRecipe(db, FieldsOf(user, req, false), steps, req.ingredients);
    status := if r.Success? then 200 else 500;
  }

  /** `POST /createPersonalRecipe` over `createPersonalRecipe` as written:
      any request with an ingredient that passes the checks ends in 500,
      after the recipe row and its instructions are stored. */
  method CreatePersonalRecipeRouteAsWritten(db: Database, user: string, req: CreateRequest) returns (status: int)
    requires db.Valid()
    modifies db
    ensures db.Valid()
    ensures !WithinBounds(req, false) ==> status == 400 && unchanged(db)
    ensures WithinBounds(req, false) ==>
      var o := Create(old(db.tables), old(db.nextPersonalId), Personal, FieldsOf(user, req, false),
                      req.instructions.steps, req.ingredients, PersonalIngredientColumnsAsWritten);
      && db.tables == o.tables
      && (status == 200 <==> o.result.Success?)
      && (status == 200 || status == 500)
    ensures WithinBounds(req, false) && req.ingredients != [] ==> status == 500
    ensures db.nextPersonalId == old(db.nextPersonalId)
      + (if WithinBounds(req, false) && FieldsUnquoted(FieldsOf(user, req, false), Personal) then 1 else 0)
    ensures db.nextFamilyId == old(db.nextFamilyId)
  {
    var errors := ValidationErrors(req, false);
    if errors != [] {
      return 400;
    }
    var steps := NormalizeInstructions(req.instructions);
    var r := CreatePersonalRecipeAsWritten(db, FieldsOf(user, req, false), steps, req.ingredients);
    status := if r.Success? then 200 else 500;
  }

  /** `POST /createFamilyRecipe`. */
  method CreateFamilyRecipeRoute(db: Database, user: string, req: CreateRequest) returns (status: int)
    requires db.Valid()
    modifies db
    ensures db.Valid()
    ensures !WithinBounds(req, true) ==> status == 400 && unchanged(db)
    ensures WithinBounds(req, true) ==>
      var o := Create(old(db.tables), old(db.nextFamilyId), Family, FieldsOf(user, req, true),
                      req.instructions.steps, req.ingredients, IngredientColumns);
      && db.tables == o.tables
      && (status == 200 <==> o.result.Success?)
      && (status == 200 || status == 500)
    ensures db.nextFamilyId == old(db.nextFamilyId)
      + (if WithinBounds(req, true) && FieldsUnquoted(FieldsOf(user, req, true), Family) then 1 else 0)
    ensures db.nextPersonalId == old(db.nextPersonalId)
  {
    var errors := ValidationErrors(req, true);
    if errors != [] {
      return 400;
    }
    var steps := NormalizeInstructions(req.instructions);
    var r := CreateFamilyRecipe(db, FieldsOf(user, req, true), steps, req.ingredients);
    status := if r.Success? then 200 else 500;
  }

  /** Free-text instructions never reach the create functions: the
      `isArray()` check refuses them first. */
  lemma TextInstructionsRefused(req: CreateRequest, family: bool)
    requires req.instructions.Text?
    ensures !WithinBounds(req, family)
    ensures Instructions in ValidationErrors(req, family)
  {
  }

  // ---------------------------------------------------------------- favourite status

  /** `SELECT recipe_type FROM viewedrecipes WHERE recipe_id=<id>`: the types
      of every user's views of the id, in storage order. */
  function ViewTypesOf(rows: seq<ViewedRow>, id: RecipeId): (types: seq<string>)
    ensures |types| == 0 <==> forall x :: x in rows ==> x.recipeId != id
    ensures |types| > 0 ==> exists k ::
      && 0 <= k < |rows| && rows[k].recipeId == id && types[0] == rows[k].recipeType
      && forall i :: 0 <= i < k ==> rows[i].recipeId != id
  {
    if rows == [] then []
    else
      var rest := ViewTypesOf(rows[1..], id);
      assert forall x :: x in rows <==> x == rows[0] || x in rows[1..];
      if rows[0].recipeId == id then [rows[0].recipeType] + rest
      else
        assert forall k :: 1 <= k < |rows| ==> rows[k] == rows[1..][k - 1];
        rest
  }

  /** The type the status check works with: `last_viewed` stands for the
      type of the first view of the id by anyone. */
  function ResolveType(viewed: seq<ViewedRow>, id: RecipeId, recipeType: string): (r: Result<string>)
    ensures recipeType != LastViewedType ==> r == Success(recipeType)
    ensures recipeType == LastViewedType ==> (r.Success? <==> exists x :: x in viewed && x.recipeId == id)
    ensures recipeType == LastViewedType && r.Success? ==> exists k ::
      && 0 <= k < |viewed| && viewed[k].recipeId == id && r.value == viewed[k].recipeType
      && forall i :: 0 <= i < k ==> viewed[i].recipeId != id
    ensures r.Failure? ==> r.error == TypeNotFound
  {
    if recipeType != LastViewedType then Success(recipeType)
    else
      var types := ViewTypesOf(viewed, id);
      if |types| > 0 then Success(types[0]) else Failure(TypeNotFound)
  }

  /** A recipe counts as a favourite when its type says so outright or the
      user has a favourite row for it under that type. */
  predicate IsFavoriteFor(favorites: seq<FavoriteRow>, user: string, id: RecipeId, recipeType: string) {
    recipeType == ApiType || recipeType == RandomType || recipeType == FavoriteType
    || FavoriteRow(user, id, recipeType) in favorites
  }

  /** `SELECT 1 FROM favoriterecipes WHERE user_name=... AND recipe_id=... AND recipe_type=...` */
  function FavoriteHits(rows: seq<FavoriteRow>, user: string, id: RecipeId, recipeType: string): (r: seq<FavoriteRow>)
    ensures forall x :: x in r <==> x in rows && x == FavoriteRow(user, id, recipeType)
  {
    if rows == [] then []
    else (if rows[0] == FavoriteRow(user, id, recipeType) then [rows[0]] else []) + FavoriteHits(rows[1..], user, id, recipeType)
  }

  /** The answer `{recipe, isFavorite}`; `recipe` is absent when the lookup is empty. */
  datatype FavoriteStatus = FavoriteStatus(recipe: Option<RecipeView>, isFavorite: bool)

  /** `GET /favoriteRecipes/:recipe_id/:recipe_type`. */
  method FavoriteRecipeStatus(t: Tables, api: RecipesUtils.Catalog, user: string, id: RecipeId, recipeType: string)
    returns (r: Result<FavoriteStatus>)
    ensures ResolveType(t.viewedRecipes, id, recipeType).Failure? ==> r == Failure(TypeNotFound)
    ensures r.Success? <==>
      ResolveType(t.viewedRecipes, id, recipeType).Success?
      && ViewedRecipes(t, api, FavoriteTable, user, "full", 0, Some(id)).Success?
    ensures r.Success? ==>
      r.value.isFavorite == IsFavoriteFor(t.favoriteRecipes, user, id, ResolveType(t.viewedRecipes, id, recipeType).value)
    ensures r.Success? ==> var found := ViewedRecipes(t, api, FavoriteTable, user, "full", 0, Some(id)).value;
      && (r.value.recipe.Some? <==> found != [])
      && (found != [] ==> r.value.recipe == Some(found[0]))
    ensures r.Success? && r.value.recipe.Some? ==> FullLookup(t, api, id, r.value.recipe.value)
  {
    var resolved := recipeType;
    var isFavorite := false;
    if resolved == LastViewedType {
      var result := ViewTypesOf(t.viewedRecipes, id);
      if |result| > 0 {
        resolved := result[0];
      } else {
        return Failure(TypeNotFound);
      }
    }
    assert ResolveType(t.viewedRecipes, id, recipeType) == Success(resolved);
    if resolved == ApiType || resolved == RandomType || resolved == FavoriteType {
      isFavorite := true;
    } else {
      var result := FavoriteHits(t.favoriteRecipes, user, id, resolved);
      if |result| > 0 {
        assert result[0] in result;
      }
      isFavorite := |result| > 0;
    }
    var detailed := GetViewedRecipes(t, api, FavoriteTable, user, "full", 0, Some(id));
    if detailed.Failure? {
      return Failure(detailed.error);
    }
    if |detailed.value| > 0 {
      assert detailed.value[0] in detailed.value;
    }
    r := Success(FavoriteStatus(if |detailed.value| > 0 then Some(detailed.value[0]) else None, isFavorite));
  }

  /** A first-party recipe the user has marked is reported as a favourite. */
  lemma MarkedIsFavorite(favorites: seq<FavoriteRow>, user: string, id: RecipeId, recipeType: string)
    ensures |FavoriteHits(favorites + [FavoriteRow(user, id, recipeType)], user, id, recipeType)| > 0
    ensures IsFavoriteFor(favorites + [FavoriteRow(user, id, recipeType)], user, id, recipeType)
  {
    var marked := favorites + [FavoriteRow(user, id, recipeType)];
    assert marked[|favorites|] == FavoriteRow(user, id, recipeType);
    assert FavoriteRow(user, id, recipeType) in FavoriteHits(marked, user, id, recipeType);
  }

  /** Catalogue, random and favourite-list types are reported as favourites
      whether or not any row exists. */
  lemma UntrackedTypesAlwaysFavorite(favorites: seq<FavoriteRow>, user: string, id: RecipeId, recipeType: string)
    requires recipeType in [ApiType, RandomType, FavoriteType]
    ensures IsFavoriteFor(favorites, user, id, recipeType)
  {
  }

  // ---------------------------------------------------------------- last viewed

  /** The answer `{recipe, isLastViewed}`. */
  datatype LastViewedStatus = LastViewedStatus(recipe: Option<RecipeView>, isLastViewed: bool)

  /** `GET /lastViewedRecipes/:recipe_id`: the full lookup of that id among
      the user's views. */
  method LastViewedRecipe(t: Tables, api: RecipesUtils.Catalog, user: string, id: RecipeId)
    returns (r: Result<LastViewedStatus>)
    ensures r.Success? <==> ViewedRecipes(t, api, ViewedTable, user, "full", 0, Some(id)).Success?
    ensures r.Success? ==> (r.value.isLastViewed <==>
      exists x :: x in t.viewedRecipes && x.userName == user && x.recipeId == id && IsBucketed(x.recipeType))
    ensures r.Success? ==> (r.value.recipe.Some? <==> r.value.isLastViewed)
    ensures r.Success? && r.value.recipe.Some? ==> FullLookup(t, api, id, r.value.recipe.value)
  {
    var detailed := GetViewedRecipes(t, api, ViewedTable, user, "full", 0, Some(id));
    if detailed.Failure? {
      return Failure(detailed.error);
    }
    LastViewedExactlyWhenViewed(t, api, user, id);
    var isLastViewed := |detailed.value| > 0;
    if isLastViewed {
      assert detailed.value[0] in detailed.value;
    }
    r := Success(LastViewedStatus(if isLastViewed then Some(detailed.value[0]) else None, isLastViewed));
  }

  /** `GET /lastViewedRecipes`: previews of at most the three most recent views. */
  function LastViewedRecipes(t: Tables, api: RecipesUtils.Catalog, user: string): (r: Result<seq<RecipeView>>)
    ensures r.Success? ==> |r.value| <= 3 && forall v :: v in r.value ==> IsPreview(v)
  {
    var r := ViewedRecipes(t, api, ViewedTable, user, "preview", 3, None);
    if r.Success? then
      PreviewListingWithinLimit(t, api, ViewedTable, user, "preview", 3, None);
      r
    else r
  }
}
