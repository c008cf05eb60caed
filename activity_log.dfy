/** The two activity tables the backend writes (`routes/utils/user_utils.js`,
    `putViewedRecipes`, `markAsFavorite`): a view is an upsert keyed by
    `(user_name, recipe_id)` that refreshes `view_at` only; a favourite is
    an unconditional append. `NOW()` is the parameter `now`. */
module ActivityLog {
  import opened RecipeModel
  import opened Tables
  import opened Aggregation
  import RecipesUtils

  // ---------------------------------------------------------------- viewedrecipes

  /** The position of the row keyed by `(user, id)`, if there is one. */
  function KeyIndex(rows: seq<ViewedRow>, user: string, id: RecipeId): (k: Option<nat>)
    ensures k.Some? ==> k.value < |rows| && rows[k.value].userName == user && rows[k.value].recipeId == id
    ensures k.None? <==> forall i :: 0 <= i < |rows| ==> !(rows[i].userName == user && rows[i].recipeId == id)
  {
    if rows == [] then None
    else if rows[0].userName == user && rows[0].recipeId == id then Some(0)
    else
      var k := KeyIndex(rows[1..], user, id);
      assert forall i :: 1 <= i < |rows| ==> rows[i] == rows[1..][i - 1];
      if k.Some? then Some(k.value + 1) else None
  }

  /** `INSERT ... ON DUPLICATE KEY UPDATE view_at = NOW()`. */
  function Upsert(rows: seq<ViewedRow>, user: string, id: RecipeId, recipeType: string, now: int): (r: seq<ViewedRow>)
    ensures KeyIndex(rows, user, id).Some? ==> |r| == |rows|
    ensures KeyIndex(rows, user, id).None? ==> r == rows + [ViewedRow(user, id, recipeType, now)]
    // only `view_at` of the row with this key may change
    ensures forall i :: 0 <= i < |rows| ==>
      && r[i].(viewAt := 0) == rows[i].(viewAt := 0)
      && (r[i].viewAt != rows[i].viewAt ==> r[i].userName == user && r[i].recipeId == id)
    // afterwards the key is present and stamped with `now`
    ensures exists k :: 0 <= k < |r| && r[k].userName == user && r[k].recipeId == id && r[k].viewAt == now
  {
    var k := KeyIndex(rows, user, id);
    if k.Some? then
      var r := rows[k.value := rows[k.value].(viewAt := now)];
      assert r[k.value].userName == user && r[k.value].recipeId == id && r[k.value].viewAt == now;
      r
    else
      var r := rows + [ViewedRow(user, id, recipeType, now)];
      assert r[|rows|].viewAt == now;
      r
  }

  /** Upserting keeps `(user_name, recipe_id)` a key. */
  lemma UpsertKeepsKeysUnique(rows: seq<ViewedRow>, user: string, id: RecipeId, recipeType: string, now: int)
    requires ViewedKeysUnique(rows)
    ensures ViewedKeysUnique(Upsert(rows, user, id, recipeType, now))
  {
  }

  /** A repeat view keeps the type of the first view and only moves `view_at`. */
  lemma RepeatViewKeepsType(rows: seq<ViewedRow>, user: string, id: RecipeId, recipeType: string, now: int)
    requires KeyIndex(rows, user, id).Some?
    ensures var k := KeyIndex(rows, user, id).value;
      Upsert(rows, user, id, recipeType, now)[k] == rows[k].(viewAt := now)
  {
  }

  /** Viewing twice leaves exactly one row for the key, stamped with the
      second time. */
  lemma ViewTwiceOneRow(rows: seq<ViewedRow>, user: string, id: RecipeId,
                        type1: string, type2: string, now1: int, now2: int)
    requires ViewedKeysUnique(rows)
    ensures var r := Upsert(Upsert(rows, user, id, type1, now1), user, id, type2, now2);
      && ViewedKeysUnique(r)
      && |r| == |rows| + (if KeyIndex(rows, user, id).Some? then 0 else 1)
      && KeyIndex(r, user, id).Some?
      && r[KeyIndex(r, user, id).value].viewAt == now2
  {
    var r1 := Upsert(rows, user, id, type1, now1);
    UpsertKeepsKeysUnique(rows, user, id, type1, now1);
    UpsertKeepsKeysUnique(r1, user, id, type2, now2);
    var r := Upsert(r1, user, id, type2, now2);
    var k :| 0 <= k < |r| && r[k].userName == user && r[k].recipeId == id && r[k].viewAt == now2;
    KeyAtOneIndex(r, KeyIndex(r, user, id).value, k);
  }

  /** Under unique keys, two rows with the same key are the same row. */
  lemma KeyAtOneIndex(rows: seq<ViewedRow>, i: nat, j: nat)
    requires ViewedKeysUnique(rows)
    requires i < |rows| && j < |rows|
    requires rows[i].userName == rows[j].userName && rows[i].recipeId == rows[j].recipeId
    ensures i == j
  {
  }

  /** `putViewedRecipes(user_name, recipe_id, recipe_type)`. */
  method PutViewedRecipes(db: Database, user: string, id: RecipeId, recipeType: string, now: int)
    requires db.Valid()
    modifies db
    ensures db.Valid()
    ensures db.tables == old(db.tables).(viewedRecipes := Upsert(old(db.tables.viewedRecipes), user, id, recipeType, now))
    ensures db.nextPersonalId == old(db.nextPersonalId) && db.nextFamilyId == old(db.nextFamilyId)
  {
    UpsertKeepsKeysUnique(db.tables.viewedRecipes, user, id, recipeType, now);
    db.tables := db.tables.(viewedRecipes := Upsert(db.tables.viewedRecipes, user, id, recipeType, now));
  }

  // ---------------------------------------------------------------- favoriterecipes

  /** `markAsFavorite(user_name, recipe_id, recipe_type)`: one more row, of
      any type, whatever is already there. */
  method MarkAsFavorite(db: Database, user: string, id: RecipeId, recipeType: string)
    requires db.Valid()
    modifies db
    ensures db.Valid()
    ensures db.tables == old(db.tables).(favoriteRecipes := old(db.tables.favoriteRecipes) + [FavoriteRow(user, id, recipeType)])
    ensures db.nextPersonalId == old(db.nextPersonalId) && db.nextFamilyId == old(db.nextFamilyId)
  {
    db.tables := db.tables.(favoriteRecipes := db.tables.favoriteRecipes + [FavoriteRow(user, id, recipeType)]);
  }

  /** The number of favourite rows equal to `row`. */
  function Occurrences(rows: seq<FavoriteRow>, row: FavoriteRow): (n: nat)
    ensures n <= |rows|
    ensures n > 0 <==> row in rows
  {
    if rows == [] then 0 else (if rows[0] == row then 1 else 0) + Occurrences(rows[1..], row)
  }

  /** Marking is not idempotent: every call adds one more copy of the row. */
  lemma {:induction false} MarkAddsOneCopy(rows: seq<FavoriteRow>, row: FavoriteRow)
    ensures Occurrences(rows + [row], row) == Occurrences(rows, row) + 1
  {
    if rows == [] {
      assert rows + [row] == [row];
    } else {
      assert (rows + [row])[1..] == rows[1..] + [row];
      MarkAddsOneCopy(rows[1..], row);
    }
  }

  /** A row appended to the favourites is selected after the earlier ones. */
  lemma FavoritesMatchingAppend(rows: seq<FavoriteRow>, x: FavoriteRow, user: string, idFilter: Option<RecipeId>)
    ensures FavoritesMatching(rows + [x], user, idFilter)
         == FavoritesMatching(rows, user, idFilter)
            + (if x.userName == user && (idFilter.None? || x.recipeId == idFilter.value) then [x] else [])
  {
    assert (rows + [x])[..|rows|] == rows;
  }

  lemma FavoritePairsConcat(a: seq<FavoriteRow>, b: seq<FavoriteRow>)
    ensures Pairs(a + b, FavoritePair) == Pairs(a, FavoritePair) + Pairs(b, FavoritePair)
  {
    var l, r := Pairs(a + b, FavoritePair), Pairs(a, FavoritePair) + Pairs(b, FavoritePair);
    forall i | 0 <= i < |l| ensures l[i] == r[i] {
      if i < |a| { assert (a + b)[i] == a[i]; } else { assert (a + b)[i] == b[i - |a|]; }
    }
  }

  /** After two equal marks, the favourite rows selected for that id hold
      the id at least twice under its type. */
  lemma MarkTwiceRepeatsId(favorites: seq<FavoriteRow>, user: string, id: RecipeId, recipeType: string)
    ensures var row := FavoriteRow(user, id, recipeType);
      |IdsOfType(Pairs(FavoritesMatching(favorites + [row] + [row], user, Some(id)), FavoritePair), recipeType)| >= 2
  {
    var row := FavoriteRow(user, id, recipeType);
    var before := FavoritesMatching(favorites, user, Some(id));
    FavoritesMatchingAppend(favorites, row, user, Some(id));
    FavoritesMatchingAppend(favorites + [row], row, user, Some(id));
    PairsOfTwoCopies(before, row);
    IdsOfTwoCopies(Pairs(before, FavoritePair), ActivityRow(id, recipeType));
  }

  lemma PairsOfTwoCopies(rows: seq<FavoriteRow>, row: FavoriteRow)
    ensures var p := ActivityRow(row.recipeId, row.recipeType);
      Pairs(rows + [row] + [row], FavoritePair) == Pairs(rows, FavoritePair) + [p, p]
  {
    FavoritePairsConcat(rows, [row, row]);
    assert rows + [row] + [row] == rows + [row, row];
  }

  lemma IdsOfTwoCopies(pairs: seq<ActivityRow>, p: ActivityRow)
    ensures IdsOfType(pairs + [p, p], p.recipeType) == IdsOfType(pairs, p.recipeType) + [p.recipeId, p.recipeId]
  {
    IdsOfTypeAppend(pairs, [p, p], p.recipeType);
    assert [p, p][..1] == [p];
  }

  /** Marking the same first-party or catalogue recipe twice puts its id
      twice into one bucket, so the full favourite lookup for that id
      (`getViewedRecipes('favoriterecipes', user, 'full', 0, id)`) fails
      from then on. */
  lemma MarkTwiceBreaksFullLookup(t: Tables, api: RecipesUtils.Catalog, user: string, id: RecipeId, recipeType: string)
    requires IsBucketed(recipeType)
    ensures var row := FavoriteRow(user, id, recipeType);
      var t2 := t.(favoriteRecipes := t.favoriteRecipes + [row] + [row]);
      ViewedRecipes(t2, api, FavoriteTable, user, "full", 0, Some(id)).Failure?
  {
    var row := FavoriteRow(user, id, recipeType);
    var t2 := t.(favoriteRecipes := t.favoriteRecipes + [row] + [row]);
    MarkTwiceRepeatsId(t.favoriteRecipes, user, id, recipeType);
    var matching := FavoritesMatching(t2.favoriteRecipes, user, Some(id));
    var pairs := Pairs(matching, FavoritePair);
    assert FavoriteTable != ViewedTable;
    assert Take(matching, None) == matching;
    assert SelectActivity(t2, FavoriteTable, user, Some(id), false, None) == Success(pairs);
    var familyIds, personalIds, apiIds := IdsOfType(pairs, FamilyType), IdsOfType(pairs, PersonalType), IdsOfType(pairs, ApiType);
    FullFailsOnRepeatedBucket(t2, api, familyIds, personalIds, apiIds);
    assert FetchRecipeDetails(t2, api, "full", familyIds, personalIds, apiIds).Failure?;
  }
}
