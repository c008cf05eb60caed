/** Activity aggregation (`routes/utils/user_utils.js`, `getViewedRecipes`,
    `categorizeRecipesByType`, `fetchRecipeDetails`): read the
    `(recipe_id, recipe_type)` pairs of one user from an activity table,
    sort them into family, personal and catalogue buckets, fetch each
    bucket, and concatenate. */
module Aggregation {
  import opened RecipeModel
  import opened Sql
  import opened Tables
  import opened Projection
  import RecipesUtils

  // ---------------------------------------------------------------- the query

  /** The pieces `getViewedRecipes` appends to its query text. */
  datatype Clause =
    | SelectFrom(table: string, userName: string)   // SELECT recipe_id, recipe_type FROM <table> WHERE user_name='<user>'
    | AndRecipeId(id: RecipeId)                      // AND recipe_id='<id>'
    | OrderByViewAtDesc                              // ORDER BY view_at DESC
    | Limit(count: nat)                              // LIMIT <count>

  /** Where a clause may stand in a SELECT statement. */
  function Rank(c: Clause): nat {
    match c
    case SelectFrom(_, _) => 0
    case AndRecipeId(_) => 1
    case OrderByViewAtDesc => 2
    case Limit(_) => 3
  }

  /** Each clause at most once, in the order SQL's grammar demands. */
  ghost predicate WellOrdered(query: seq<Clause>) {
    forall i, j :: 0 <= i < j < |query| ==> Rank(query[i]) < Rank(query[j])
  }

  /** The clauses `getViewedRecipes` puts together, in the order it appends them. */
  function ActivityQuery(table: string, user: string, limit: int, recipeId: Option<RecipeId>): (query: seq<Clause>)
    ensures |query| > 0 && query[0] == SelectFrom(table, user)
  {
    [SelectFrom(table, user)]
    + (if recipeId.Some? then [AndRecipeId(recipeId.value)] else [])
    + (if table == ViewedTable then [OrderByViewAtDesc] else [])
    + (if limit > 0 then [Limit(limit)] else [])
  }

  /** The query is valid SQL: each clause at most once, in grammar order. */
  lemma ActivityQueryWellOrdered(table: string, user: string, limit: int, recipeId: Option<RecipeId>)
    ensures WellOrdered(ActivityQuery(table, user, limit, recipeId))
  {
    var q := ActivityQuery(table, user, limit, recipeId);
    forall i, j | 0 <= i < j < |q| ensures Rank(q[i]) < Rank(q[j]) {
      assert forall k :: 0 <= k < |q| ==> Rank(q[k]) >= k;
      assert forall k :: 0 <= k < |q| ==> Rank(q[k]) <= 3 - (|q| - 1 - k);
    }
  }

  /** The query filters on the recipe id exactly when one is given, orders
      by recency exactly on the views table, and limits exactly when the
      limit is positive. */
  lemma ActivityQueryClauses(table: string, user: string, limit: int, recipeId: Option<RecipeId>)
    ensures var q := ActivityQuery(table, user, limit, recipeId);
      && (forall id: RecipeId :: AndRecipeId(id) in q <==> recipeId == Some(id))
      && (OrderByViewAtDesc in q <==> table == ViewedTable)
      && (forall n: nat :: Limit(n) in q <==> limit > 0 && n == limit)
  {
  }

  /** The query text grows clause by clause, as the source's `query +=` does. */
  method BuildActivityQuery(table: string, user: string, limit: int, recipeId: Option<RecipeId>)
    returns (query: seq<Clause>)
    ensures query == ActivityQuery(table, user, limit, recipeId)
    ensures WellOrdered(query)
    ensures forall id: RecipeId :: AndRecipeId(id) in query <==> recipeId == Some(id)
    ensures OrderByViewAtDesc in query <==> table == ViewedTable
    ensures forall n: nat :: Limit(n) in query <==> limit > 0 && n == limit
  {
    query := [SelectFrom(table, user)];
    if recipeId.Some? {
      query := query + [AndRecipeId(recipeId.value)];
    }
    if table == ViewedTable {
      query := query + [OrderByViewAtDesc];
    }
    if limit > 0 {
      query := query + [Limit(limit)];
    }
    ActivityQueryWellOrdered(table, user, limit, recipeId);
    ActivityQueryClauses(table, user, limit, recipeId);
  }

  // ---------------------------------------------------------------- what the database answers

  /** One answer row: `{recipe_id, recipe_type}`. */
  datatype ActivityRow = ActivityRow(recipeId: RecipeId, recipeType: string)

  /** The `recipe_id` the query filters on, if any. */
  function FilterOf(query: seq<Clause>): Option<RecipeId> {
    if query == [] then None
    else if query[0].AndRecipeId? then Some(query[0].id)
    else FilterOf(query[1..])
  }

  /** The `LIMIT` of the query, if any. */
  function LimitOf(query: seq<Clause>): Option<nat> {
    if query == [] then None
    else if query[0].Limit? then Some(query[0].count)
    else LimitOf(query[1..])
  }

  function ViewedMatching(rows: seq<ViewedRow>, user: string, idFilter: Option<RecipeId>): (r: seq<ViewedRow>)
    ensures |r| <= |rows|
    ensures forall x :: x in r <==> x in rows && x.userName == user && (idFilter.None? || x.recipeId == idFilter.value)
  {
    if rows == [] then []
    else
      var x := rows[0];
      (if x.userName == user && (idFilter.None? || x.recipeId == idFilter.value) then [x] else [])
        + ViewedMatching(rows[1..], user, idFilter)
  }

  function FavoritesMatching(rows: seq<FavoriteRow>, user: string, idFilter: Option<RecipeId>): (r: seq<FavoriteRow>)
    ensures |r| <= |rows|
    ensures forall x :: x in r <==> x in rows && x.userName == user && (idFilter.None? || x.recipeId == idFilter.value)
    decreases |rows|
  {
    if rows == [] then []
    else
      var front, x := rows[..|rows| - 1], rows[|rows| - 1];
      assert rows == front + [x];
      FavoritesMatching(front, user, idFilter)
        + (if x.userName == user && (idFilter.None? || x.recipeId == idFilter.value) then [x] else [])
  }

  /** The `(recipe_id, recipe_type)` columns of a viewed row. */
  function ViewedPair(x: ViewedRow): ActivityRow {
    ActivityRow(x.recipeId, x.recipeType)
  }

  /** The `(recipe_id, recipe_type)` columns of a favourite row. */
  function FavoritePair(x: FavoriteRow): ActivityRow {
    ActivityRow(x.recipeId, x.recipeType)
  }

  /** `SELECT recipe_id, recipe_type`: the two columns of each row, in order. */
  function Pairs<T>(rows: seq<T>, pairOf: T -> ActivityRow): (r: seq<ActivityRow>)
    ensures |r| == |rows|
    ensures forall i :: 0 <= i < |rows| ==> r[i] == pairOf(rows[i])
  {
    if rows == [] then [] else [pairOf(rows[0])] + Pairs(rows[1..], pairOf)
  }

  /** `LIMIT n` keeps the first `n` rows. */
  function Take<T>(s: seq<T>, limit: Option<nat>): (r: seq<T>)
    ensures limit.Some? ==> |r| <= limit.value
    ensures limit.None? ==> r == s
    ensures r <= s
  {
    if limit.Some? && limit.value < |s| then s[..limit.value] else s
  }

  /** The answer to a SELECT on an activity table. The favourites table has
      no `view_at` column, so ordering by it is refused; any other table
      name is refused. */
  function SelectActivity(t: Tables, table: string, user: string, idFilter: Option<RecipeId>,
                          ordered: bool, limit: Option<nat>): (r: Result<seq<ActivityRow>>)
    ensures r.Success? <==> table == ViewedTable || (table == FavoriteTable && !ordered)
    ensures r.Success? && limit.Some? ==> |r.value| <= limit.value
    ensures r.Success? ==> forall row :: row in r.value ==> SelectedFrom(t, table, user, idFilter, row)
  {
    if table == ViewedTable then
      var rows := ViewedMatching(t.viewedRecipes, user, idFilter);
      var taken := Take(if ordered then OrderBy(rows, RecencyKey) else rows, limit);
      assert forall x :: x in taken ==> x in rows by {
        forall x | x in taken ensures x in rows {
          if ordered { OrderBySameMembers(rows, RecencyKey, x); }
        }
      }
      ViewedPairsSelected(t, user, idFilter, taken);
      Success(Pairs(taken, ViewedPair))
    else if table == FavoriteTable && !ordered then
      var taken := Take(FavoritesMatching(t.favoriteRecipes, user, idFilter), limit);
      FavoritePairsSelected(t, user, idFilter, taken);
      Success(Pairs(taken, FavoritePair))
    else
      Failure(BadStatement)
  }

  /** An answer row is a `(recipe_id, recipe_type)` of one of the user's rows
      of the table that passes the id filter. */
  ghost predicate SelectedFrom(t: Tables, table: string, user: string, idFilter: Option<RecipeId>, row: ActivityRow) {
    && (idFilter.Some? ==> row.recipeId == idFilter.value)
    && (table == ViewedTable ==>
          exists x :: x in t.viewedRecipes && x.userName == user && row == ActivityRow(x.recipeId, x.recipeType))
    && (table != ViewedTable ==>
          exists x :: x in t.favoriteRecipes && x.userName == user && row == ActivityRow(x.recipeId, x.recipeType))
  }

  lemma ViewedPairsSelected(t: Tables, user: string, idFilter: Option<RecipeId>, rows: seq<ViewedRow>)
    requires forall x :: x in rows ==> x in ViewedMatching(t.viewedRecipes, user, idFilter)
    ensures forall row :: row in Pairs(rows, ViewedPair) ==> SelectedFrom(t, ViewedTable, user, idFilter, row)
  {
    var pairs := Pairs(rows, ViewedPair);
    forall row | row in pairs ensures SelectedFrom(t, ViewedTable, user, idFilter, row) {
      var i :| 0 <= i < |pairs| && pairs[i] == row;
      assert rows[i] in rows;
    }
  }

  lemma FavoritePairsSelected(t: Tables, user: string, idFilter: Option<RecipeId>, rows: seq<FavoriteRow>)
    requires forall x :: x in rows ==> x in FavoritesMatching(t.favoriteRecipes, user, idFilter)
    ensures forall row :: row in Pairs(rows, FavoritePair) ==> SelectedFrom(t, FavoriteTable, user, idFilter, row)
  {
    var pairs := Pairs(rows, FavoritePair);
    forall row | row in pairs ensures SelectedFrom(t, FavoriteTable, user, idFilter, row) {
      var i :| 0 <= i < |pairs| && pairs[i] == row;
      assert rows[i] in rows;
    }
  }

  /** Running a query: its clauses' presence decides what is selected. */
  function Execute(t: Tables, query: seq<Clause>): (r: Result<seq<ActivityRow>>)
    ensures r.Success? ==> query != [] && query[0].SelectFrom?
    ensures r.Success? && LimitOf(query).Some? ==> |r.value| <= LimitOf(query).value
    ensures r.Success? ==> forall row :: row in r.value ==>
      SelectedFrom(t, query[0].table, query[0].userName, FilterOf(query), row)
  {
    if query == [] || !query[0].SelectFrom? then Failure(BadStatement)
    else SelectActivity(t, query[0].table, query[0].userName, FilterOf(query),
                        OrderByViewAtDesc in query, LimitOf(query))
  }

  lemma {:induction false} FilterOfFromMembers(query: seq<Clause>, f: Option<RecipeId>)
    requires forall id: RecipeId :: AndRecipeId(id) in query <==> f == Some(id)
    ensures FilterOf(query) == f
  {
    if query == [] {
      assert forall id: RecipeId :: f != Some(id);
    } else if query[0].AndRecipeId? {
      assert AndRecipeId(query[0].id) in query;
    } else {
      forall id: RecipeId ensures AndRecipeId(id) in query[1..] <==> AndRecipeId(id) in query {
        assert query == [query[0]] + query[1..];
      }
      FilterOfFromMembers(query[1..], f);
    }
  }

  lemma {:induction false} LimitOfFromMembers(query: seq<Clause>, l: Option<nat>)
    requires forall n: nat :: Limit(n) in query <==> l == Some(n)
    ensures LimitOf(query) == l
  {
    if query == [] {
      assert forall n: nat :: l != Some(n);
    } else if query[0].Limit? {
      assert Limit(query[0].count) in query;
    } else {
      forall n: nat ensures Limit(n) in query[1..] <==> Limit(n) in query {
        assert query == [query[0]] + query[1..];
      }
      LimitOfFromMembers(query[1..], l);
    }
  }

  // ---------------------------------------------------------------- buckets

  /** The ids of the rows of one type, in row order. */
  function IdsOfType(rows: seq<ActivityRow>, recipeType: string): (ids: seq<RecipeId>)
    ensures |ids| <= |rows|
    ensures forall id :: id in ids <==> ActivityRow(id, recipeType) in rows
    decreases |rows|
  {
    if rows == [] then []
    else
      var front, last := rows[..|rows| - 1], rows[|rows| - 1];
      assert rows == front + [last];
      IdsOfType(front, recipeType) + (if last.recipeType == recipeType then [last.recipeId] else [])
  }

  /** A type that has a bucket. */
  predicate IsBucketed(recipeType: string) {
    recipeType == FamilyType || recipeType == PersonalType || recipeType == ApiType
  }

  /** Rows no bucket takes, `random` among them. */
  function Unbucketed(rows: seq<ActivityRow>): (r: seq<ActivityRow>)
    ensures forall x :: x in r <==> x in rows && !IsBucketed(x.recipeType)
    decreases |rows|
  {
    if rows == [] then []
    else
      var front, last := rows[..|rows| - 1], rows[|rows| - 1];
      assert rows == front + [last];
      Unbucketed(front) + (if IsBucketed(last.recipeType) then [] else [last])
  }

  /** `categorizeRecipesByType`: push each row's id onto the array of its type. */
  method CategorizeRecipesByType(rows: seq<ActivityRow>)
    returns (familyIds: seq<RecipeId>, personalIds: seq<RecipeId>, apiIds: seq<RecipeId>)
    ensures familyIds == IdsOfType(rows, FamilyType)
    ensures personalIds == IdsOfType(rows, PersonalType)
    ensures apiIds == IdsOfType(rows, ApiType)
  {
    familyIds, personalIds, apiIds := [], [], [];
    for i := 0 to |rows|
      invariant familyIds == IdsOfType(rows[..i], FamilyType)
      invariant personalIds == IdsOfType(rows[..i], PersonalType)
      invariant apiIds == IdsOfType(rows[..i], ApiType)
    {
      var recipe := rows[i];
      assert rows[..i + 1][..i] == rows[..i];
      if recipe.recipeType == FamilyType {
        familyIds := familyIds + [recipe.recipeId];
      } else if recipe.recipeType == PersonalType {
        personalIds := personalIds + [recipe.recipeId];
      } else if recipe.recipeType == ApiType {
        apiIds := apiIds + [recipe.recipeId];
      }
    }
    assert rows[..|rows|] == rows;
  }

  /** Bucketing keeps row order: the ids of a concatenation are the
      concatenation of the ids. */
  lemma {:induction false} IdsOfTypeAppend(a: seq<ActivityRow>, b: seq<ActivityRow>, recipeType: string)
    ensures IdsOfType(a + b, recipeType) == IdsOfType(a, recipeType) + IdsOfType(b, recipeType)
    decreases |b|
  {
    if b != [] {
      var front, last := b[..|b| - 1], b[|b| - 1];
      assert (a + b)[..|a + b| - 1] == a + front;
      assert (a + b)[|a + b| - 1] == last;
      IdsOfTypeAppend(a, front, recipeType);
    } else {
      assert a + b == a;
    }
  }

  /** Every row lands in exactly one of the three buckets or in none: the
      bucket sizes and the dropped rows add up to all rows. */
  lemma {:induction false} BucketsPartitionRows(rows: seq<ActivityRow>)
    ensures |IdsOfType(rows, FamilyType)| + |IdsOfType(rows, PersonalType)| + |IdsOfType(rows, ApiType)|
            + |Unbucketed(rows)| == |rows|
    decreases |rows|
  {
    if rows != [] {
      BucketsPartitionRows(rows[..|rows| - 1]);
    }
  }

  // ---------------------------------------------------------------- fetching the buckets

  /** `[await getFullRecipe(ids, category)]` for a non-empty bucket. The id
      list is written into the SQL text, so more than one id makes
      `recipe_id=1,2`, which the database refuses. */
  function FullBucket(t: Tables, ids: seq<RecipeId>, c: Category): (r: Result<seq<RecipeView>>)
    ensures ids == [] ==> r == Success([])
    ensures |ids| == 1 ==> (r.Success? <==> RecipesWithId(t.RecipeTable(c), ids[0]) != [])
    ensures |ids| == 1 && r.Success? ==> r.value == [GetFullRecipe(t, ids[0], c).value]
    ensures |ids| > 1 ==> r == Failure(BadStatement)
    ensures r.Success? ==> FullBucketShape(ids, c == Family, r.value)
    ensures r.Success? ==> forall i :: 0 <= i < |r.value| ==> r.value[i].recipeId == ids[i]
  {
    if ids == [] then Success([])
    else if |ids| > 1 then Failure(BadStatement)
    else
      var v := GetFullRecipe(t, ids[0], c);
      if v.Failure? then Failure(v.error) else Success([v.value])
  }

  /** `[await getRecipeInformation(ids)]` for a non-empty bucket: more than
      one id makes the request path `/1,2/information`, which fails. */
  function FullApiBucket(api: RecipesUtils.Catalog, ids: seq<RecipeId>): (r: Result<seq<RecipeView>>)
    ensures ids == [] ==> r == Success([])
    ensures |ids| == 1 ==> (r.Success? <==> ids[0] in api)
    ensures |ids| == 1 && r.Success? ==> r.value == [RecipesUtils.GetRecipeInformation(api, ids[0]).value]
    ensures |ids| > 1 ==> r == Failure(UpstreamError)
    ensures r.Success? ==> FullBucketShape(ids, false, r.value)
  {
    if ids == [] then Success([])
    else if |ids| > 1 then Failure(UpstreamError)
    else
      var v := RecipesUtils.GetRecipeInformation(api, ids[0]);
      if v.Failure? then Failure(v.error) else Success([v.value])
  }

  /** The shape of a fetched full bucket: at most one full object per id,
      carrying the family fields exactly for the family bucket. */
  ghost predicate FullBucketShape(ids: seq<RecipeId>, family: bool, vs: seq<RecipeView>) {
    && |vs| == |ids| <= 1
    && forall i :: 0 <= i < |vs| ==> IsFull(vs[i]) && (vs[i].family.Some? <==> family)
  }

  /** What a successful `FullBucket` answered. */
  ghost predicate FullBucketFetched(t: Tables, ids: seq<RecipeId>, c: Category, vs: seq<RecipeView>) {
    && FullBucketShape(ids, c == Family, vs)
    && (forall i :: 0 <= i < |vs| ==> vs[i].recipeId == ids[i])
    && (ids != [] ==> GetFullRecipe(t, ids[0], c) == Success(vs[0]))
  }

  /** What a successful `FullApiBucket` answered. */
  ghost predicate FullApiBucketFetched(api: RecipesUtils.Catalog, ids: seq<RecipeId>, vs: seq<RecipeView>) {
    && FullBucketShape(ids, false, vs)
    && (ids != [] ==> RecipesUtils.GetRecipeInformation(api, ids[0]) == Success(vs[0]))
  }

  /** Full mode can answer: each bucket holds at most one id, and that id is found. */
  ghost predicate FullFetchable(t: Tables, api: RecipesUtils.Catalog,
                                familyIds: seq<RecipeId>, personalIds: seq<RecipeId>, apiIds: seq<RecipeId>) {
    && |familyIds| <= 1 && |personalIds| <= 1 && |apiIds| <= 1
    && (forall id :: id in familyIds ==> RecipesWithId(t.familyRecipes, id) != [])
    && (forall id :: id in personalIds ==> RecipesWithId(t.personalRecipes, id) != [])
    && (forall id :: id in apiIds ==> id in api)
  }

  /** The full answer: the full recipe of each bucket's id, family first,
      then personal, then catalogue. */
  ghost predicate FullAnswer(t: Tables, api: RecipesUtils.Catalog,
                             familyIds: seq<RecipeId>, personalIds: seq<RecipeId>, apiIds: seq<RecipeId>,
                             vs: seq<RecipeView>) {
    && |vs| == |familyIds| + |personalIds| + |apiIds|
    && (forall i :: 0 <= i < |familyIds| + |personalIds| ==> vs[i].recipeId == (familyIds + personalIds)[i])
    && FullHeads(t, api, familyIds, personalIds, apiIds, vs)
  }

  /** Each non-empty bucket's full lookup sits at that bucket's offset. */
  ghost predicate FullHeads(t: Tables, api: RecipesUtils.Catalog,
                            familyIds: seq<RecipeId>, personalIds: seq<RecipeId>, apiIds: seq<RecipeId>,
                            vs: seq<RecipeView>)
    requires |vs| == |familyIds| + |personalIds| + |apiIds|
  {
    && (familyIds != [] ==> GetFullRecipe(t, familyIds[0], Family) == Success(vs[0]))
    && (personalIds != [] ==> GetFullRecipe(t, personalIds[0], Personal) == Success(vs[|familyIds|]))
    && (apiIds != [] ==> RecipesUtils.GetRecipeInformation(api, apiIds[0]) == Success(vs[|familyIds| + |personalIds|]))
  }

  /** Ids of a sequence of recipe objects. */
  function IdsOf(vs: seq<RecipeView>): (ids: seq<RecipeId>)
    ensures |ids| == |vs|
    ensures forall i :: 0 <= i < |vs| ==> ids[i] == vs[i].recipeId
  {
    if vs == [] then [] else [vs[0].recipeId] + IdsOf(vs[1..])
  }

  /** How many of the three buckets are non-empty. */
  function NonEmptyBuckets(familyIds: seq<RecipeId>, personalIds: seq<RecipeId>, apiIds: seq<RecipeId>): nat {
    (if familyIds == [] then 0 else 1) + (if personalIds == [] then 0 else 1) + (if apiIds == [] then 0 else 1)
  }

  /** An element of a concatenation of three sequences comes from one of them. */
  lemma Concat3At<T>(a: seq<T>, b: seq<T>, c: seq<T>, i: nat)
    requires i < |a| + |b| + |c|
    ensures (a + b + c)[i] == if i < |a| then a[i] else if i < |a| + |b| then b[i - |a|] else c[i - |a| - |b|]
  {
  }

  /** The `"full"` branch of `fetchRecipeDetails`. */
  function FetchFull(t: Tables, api: RecipesUtils.Catalog,
                     familyIds: seq<RecipeId>, personalIds: seq<RecipeId>, apiIds: seq<RecipeId>)
    : (r: Result<seq<RecipeView>>)
    ensures r.Success? <==> FullFetchable(t, api, familyIds, personalIds, apiIds)
    ensures r.Success? ==>
      && FullAnswer(t, api, familyIds, personalIds, apiIds, r.value)
      && |r.value| == NonEmptyBuckets(familyIds, personalIds, apiIds) <= 3
      && (forall v :: v in r.value ==> IsFull(v))
      && (forall i :: 0 <= i < |r.value| ==> (r.value[i].family.Some? <==> i == 0 && familyIds != []))
  {
    var family := FullBucket(t, familyIds, Family);
    var personal := FullBucket(t, personalIds, Personal);
    var apis := FullApiBucket(api, apiIds);
    FullFetchableByBucket(t, api, familyIds, personalIds, apiIds);
    if family.Failure? then Failure(family.error)
    else if personal.Failure? then Failure(personal.error)
    else if apis.Failure? then Failure(apis.error)
    else
      assert FullBucketFetched(t, familyIds, Family, family.value);
      assert FullBucketFetched(t, personalIds, Personal, personal.value);
      assert FullApiBucketFetched(api, apiIds, apis.value);
      FullBucketsAnswer(t, api, familyIds, personalIds, apiIds, family.value, personal.value, apis.value);
      Success(family.value + personal.value + apis.value)
  }

  /** Full mode can answer exactly when each of its three fetches can. */
  lemma FullFetchableByBucket(t: Tables, api: RecipesUtils.Catalog,
                              familyIds: seq<RecipeId>, personalIds: seq<RecipeId>, apiIds: seq<RecipeId>)
    ensures FullFetchable(t, api, familyIds, personalIds, apiIds)
        <==> FullBucket(t, familyIds, Family).Success? && FullBucket(t, personalIds, Personal).Success?
             && FullApiBucket(api, apiIds).Success?
  {
    assert |familyIds| == 1 ==> familyIds[0] in familyIds && forall id :: id in familyIds ==> id == familyIds[0];
    assert |personalIds| == 1 ==> personalIds[0] in personalIds && forall id :: id in personalIds ==> id == personalIds[0];
    assert |apiIds| == 1 ==> apiIds[0] in apiIds && forall id :: id in apiIds ==> id == apiIds[0];
  }

  /** The three fetched buckets, concatenated, are the full answer. */
  lemma FullBucketsAnswer(t: Tables, api: RecipesUtils.Catalog,
                          familyIds: seq<RecipeId>, personalIds: seq<RecipeId>, apiIds: seq<RecipeId>,
                          family: seq<RecipeView>, personal: seq<RecipeView>, apis: seq<RecipeView>)
    requires FullBucketFetched(t, familyIds, Family, family)
    requires FullBucketFetched(t, personalIds, Personal, personal)
    requires FullApiBucketFetched(api, apiIds, apis)
    ensures var all := family + personal + apis;
      && FullAnswer(t, api, familyIds, personalIds, apiIds, all)
      && |all| == NonEmptyBuckets(familyIds, personalIds, apiIds) <= 3
      && (forall v :: v in all ==> IsFull(v))
      && (forall i :: 0 <= i < |all| ==> (all[i].family.Some? <==> i == 0 && familyIds != []))
  {
    FullBucketsElements(familyIds, personalIds, apiIds, family, personal, apis);
    FullBucketsIds(familyIds, personalIds, family, personal, apis);
    Concat3Heads(family, personal, apis);
  }

  /** Element by element: full shape, and the family part first. */
  lemma FullBucketsElements(familyIds: seq<RecipeId>, personalIds: seq<RecipeId>, apiIds: seq<RecipeId>,
                            family: seq<RecipeView>, personal: seq<RecipeView>, apis: seq<RecipeView>)
    requires FullBucketShape(familyIds, true, family)
    requires FullBucketShape(personalIds, false, personal)
    requires FullBucketShape(apiIds, false, apis)
    ensures var all := family + personal + apis;
      && |all| == |familyIds| + |personalIds| + |apiIds| == NonEmptyBuckets(familyIds, personalIds, apiIds)
      && (forall v :: v in all ==> IsFull(v))
      && (forall i :: 0 <= i < |all| ==> (all[i].family.Some? <==> i == 0 && familyIds != []))
  {
    var all := family + personal + apis;
    forall i | 0 <= i < |all|
      ensures IsFull(all[i]) && (all[i].family.Some? <==> i == 0 && familyIds != [])
    {
      Concat3At(family, personal, apis, i);
    }
  }

  /** The first-party ids survive concatenation. */
  lemma FullBucketsIds(familyIds: seq<RecipeId>, personalIds: seq<RecipeId>,
                       family: seq<RecipeView>, personal: seq<RecipeView>, apis: seq<RecipeView>)
    requires |family| == |familyIds| && |personal| == |personalIds|
    requires forall i :: 0 <= i < |family| ==> family[i].recipeId == familyIds[i]
    requires forall i :: 0 <= i < |personal| ==> personal[i].recipeId == personalIds[i]
    ensures forall i :: 0 <= i < |familyIds| + |personalIds| ==>
      (family + personal + apis)[i].recipeId == (familyIds + personalIds)[i]
  {
  }

  /** The head of each non-empty part sits at that part's offset. */
  lemma Concat3Heads<T>(a: seq<T>, b: seq<T>, c: seq<T>)
    ensures a != [] ==> (a + b + c)[0] == a[0]
    ensures b != [] ==> (a + b + c)[|a|] == b[0]
    ensures c != [] ==> (a + b + c)[|a| + |b|] == c[0]
  {
  }

  /** In `"full"` mode, a bucket holding two or more ids fails the whole answer. */
  lemma FullFailsOnRepeatedBucket(t: Tables, api: RecipesUtils.Catalog,
                                  familyIds: seq<RecipeId>, personalIds: seq<RecipeId>, apiIds: seq<RecipeId>)
    requires |familyIds| > 1 || |personalIds| > 1 || |apiIds| > 1
    ensures FetchFull(t, api, familyIds, personalIds, apiIds).Failure?
  {
  }

  /** What a preview batch of one bucket guarantees. */
  ghost predicate PreviewBatch(vs: seq<RecipeView>, ids: seq<RecipeId>, family: bool) {
    && IdsOf(vs) == ids
    && forall v :: v in vs ==> IsPreview(v) && (v.family.Some? <==> family)
  }

  lemma FirstPartyPreviewBatch(t: Tables, ids: seq<RecipeId>, c: Category)
    requires GetPreviewRecipes(t, ids, c).Success?
    ensures PreviewBatch(GetPreviewRecipes(t, ids, c).value, ids, c == Family)
  {
    var vs := GetPreviewRecipes(t, ids, c).value;
    assert forall v :: v in vs ==> exists i :: 0 <= i < |vs| && v == vs[i];
  }

  lemma CataloguePreviewBatch(api: RecipesUtils.Catalog, ids: seq<RecipeId>)
    requires RecipesUtils.GetRecipesPreviewDetails(api, ids).Success?
    ensures PreviewBatch(RecipesUtils.GetRecipesPreviewDetails(api, ids).value, ids, false)
  {
    var vs := RecipesUtils.GetRecipesPreviewDetails(api, ids).value;
    assert forall i :: 0 <= i < |vs| ==> vs[i] == RecipesUtils.GetRecipePreviewDetails(api, ids[i]).value;
    assert forall v :: v in vs ==> exists i :: 0 <= i < |vs| && v == vs[i];
  }

  /** Three preview batches, concatenated, are in bucket order and only the
      family part carries `who_made`/`when_prepare`. */
  lemma PreviewBatchesConcat(family: seq<RecipeView>, personal: seq<RecipeView>, apis: seq<RecipeView>,
                             familyIds: seq<RecipeId>, personalIds: seq<RecipeId>, apiIds: seq<RecipeId>)
    requires PreviewBatch(family, familyIds, true)
    requires PreviewBatch(personal, personalIds, false)
    requires PreviewBatch(apis, apiIds, false)
    ensures var all := family + personal + apis;
      && IdsOf(all) == familyIds + personalIds + apiIds
      && (forall v :: v in all ==> IsPreview(v))
      && (forall i :: 0 <= i < |all| ==> (all[i].family.Some? <==> i < |familyIds|))
  {
    var all := family + personal + apis;
    forall i | 0 <= i < |all|
      ensures all[i].recipeId == (familyIds + personalIds + apiIds)[i]
      ensures all[i].family.Some? <==> i < |familyIds|
    {
      Concat3At(family, personal, apis, i);
      Concat3At(familyIds, personalIds, apiIds, i);
      if i < |family| {
        assert family[i] in family;
      } else if i < |family| + |personal| {
        assert personal[i - |family|] in personal;
      } else {
        assert apis[i - |family| - |personal|] in apis;
      }
    }
  }

  /** When the preview branch succeeds: every family and personal id selects
      a row of its own table, and the catalogue knows every catalogue id. */
  ghost predicate PreviewFetchable(t: Tables, api: RecipesUtils.Catalog,
                                   familyIds: seq<RecipeId>, personalIds: seq<RecipeId>, apiIds: seq<RecipeId>)
  {
    && (forall id :: id in familyIds ==> RecipesWithId(t.RecipeTable(Family), id) != [])
    && (forall id :: id in personalIds ==> RecipesWithId(t.RecipeTable(Personal), id) != [])
    && (forall id :: id in apiIds ==> id in api)
  }

  /** From position `off` of `vs`, the previews of the first row of each
      id in the `c` table. */
  ghost predicate FirstPartyPreviewsAt(t: Tables, c: Category, ids: seq<RecipeId>, vs: seq<RecipeView>, off: nat)
  {
    && off + |ids| <= |vs|
    && forall j :: 0 <= j < |ids| ==>
         var rows := RecipesWithId(t.RecipeTable(c), ids[j]);
         rows != [] && vs[off + j] == PreviewOf(rows[0], c)
  }

  /** From position `off` of `vs`, the catalogue preview of each id. */
  ghost predicate CataloguePreviewsAt(api: RecipesUtils.Catalog, ids: seq<RecipeId>, vs: seq<RecipeView>, off: nat)
  {
    && off + |ids| <= |vs|
    && forall j :: 0 <= j < |ids| ==>
         var p := RecipesUtils.GetRecipePreviewDetails(api, ids[j]);
         p.Success? && vs[off + j] == p.value
  }

  /** The preview answer: the preview of each family id's first row, then of
      each personal id's first row, then each catalogue id's preview. */
  ghost predicate PreviewAnswer(t: Tables, api: RecipesUtils.Catalog,
                                familyIds: seq<RecipeId>, personalIds: seq<RecipeId>, apiIds: seq<RecipeId>,
                                vs: seq<RecipeView>)
  {
    && |vs| == |familyIds| + |personalIds| + |apiIds|
    && FirstPartyPreviewsAt(t, Family, familyIds, vs, 0)
    && FirstPartyPreviewsAt(t, Personal, personalIds, vs, |familyIds|)
    && CataloguePreviewsAt(api, apiIds, vs, |familyIds| + |personalIds|)
  }

  /** A successful first-party batch holds the previews of its ids. */
  lemma FirstPartyBatchPreviews(t: Tables, c: Category, ids: seq<RecipeId>)
    requires GetPreviewRecipes(t, ids, c).Success?
    ensures FirstPartyPreviewsAt(t, c, ids, GetPreviewRecipes(t, ids, c).value, 0)
  {
    forall j | 0 <= j < |ids|
      ensures RecipesWithId(t.RecipeTable(c), ids[j]) != []
    {
      assert ids[j] in ids;
    }
  }

  /** A successful catalogue batch holds the previews of its ids. */
  lemma CatalogueBatchPreviews(api: RecipesUtils.Catalog, ids: seq<RecipeId>)
    requires RecipesUtils.GetRecipesPreviewDetails(api, ids).Success?
    ensures CataloguePreviewsAt(api, ids, RecipesUtils.GetRecipesPreviewDetails(api, ids).value, 0)
  {
    forall j | 0 <= j < |ids|
      ensures RecipesUtils.GetRecipePreviewDetails(api, ids[j]).Success?
    {
      assert ids[j] in ids;
    }
  }

  /** Previews that fill a batch stay previews after `pre` and before `post`. */
  lemma FirstPartyShift(t: Tables, c: Category, ids: seq<RecipeId>, part: seq<RecipeView>,
                        pre: seq<RecipeView>, post: seq<RecipeView>)
    requires |part| == |ids| && FirstPartyPreviewsAt(t, c, ids, part, 0)
    ensures FirstPartyPreviewsAt(t, c, ids, pre + part + post, |pre|)
  {
    var vs := pre + part + post;
    assert forall j :: 0 <= j < |ids| ==> vs[|pre| + j] == part[j];
  }

  lemma CatalogueShift(api: RecipesUtils.Catalog, ids: seq<RecipeId>, part: seq<RecipeView>,
                       pre: seq<RecipeView>, post: seq<RecipeView>)
    requires |part| == |ids| && CataloguePreviewsAt(api, ids, part, 0)
    ensures CataloguePreviewsAt(api, ids, pre + part + post, |pre|)
  {
    var vs := pre + part + post;
    assert forall j :: 0 <= j < |ids| ==> vs[|pre| + j] == part[j];
  }

  /** The three batches, concatenated, are the preview answer. */
  lemma PreviewBatchesAnswer(t: Tables, api: RecipesUtils.Catalog,
                             familyIds: seq<RecipeId>, personalIds: seq<RecipeId>, apiIds: seq<RecipeId>,
                             family: seq<RecipeView>, personal: seq<RecipeView>, apis: seq<RecipeView>)
    requires |family| == |familyIds| && FirstPartyPreviewsAt(t, Family, familyIds, family, 0)
    requires |personal| == |personalIds| && FirstPartyPreviewsAt(t, Personal, personalIds, personal, 0)
    requires |apis| == |apiIds| && CataloguePreviewsAt(api, apiIds, apis, 0)
    ensures PreviewAnswer(t, api, familyIds, personalIds, apiIds, family + personal + apis)
  {
    var vs := family + personal + apis;
    FirstPartyShift(t, Family, familyIds, family, [], personal + apis);
    assert [] + family + (personal + apis) == vs;
    FirstPartyShift(t, Personal, personalIds, personal, family, apis);
    CatalogueShift(api, apiIds, apis, family + personal, []);
    assert family + personal + apis + [] == vs;
  }

  /** The preview branch succeeds exactly when its three batches do; an
      empty batch asks for nothing and succeeds with nothing. */
  lemma PreviewBatchesFetchable(t: Tables, api: RecipesUtils.Catalog,
                                familyIds: seq<RecipeId>, personalIds: seq<RecipeId>, apiIds: seq<RecipeId>)
    ensures PreviewFetchable(t, api, familyIds, personalIds, apiIds) <==>
      && GetPreviewRecipes(t, familyIds, Family).Success?
      && GetPreviewRecipes(t, personalIds, Personal).Success?
      && RecipesUtils.GetRecipesPreviewDetails(api, apiIds).Success?
    ensures familyIds == [] ==> GetPreviewRecipes(t, familyIds, Family) == Success([])
    ensures personalIds == [] ==> GetPreviewRecipes(t, personalIds, Personal) == Success([])
    ensures apiIds == [] ==> RecipesUtils.GetRecipesPreviewDetails(api, apiIds) == Success([])
  {
  }

  /** What three successful batches give once concatenated. */
  lemma PreviewBatchesFacts(t: Tables, api: RecipesUtils.Catalog,
                            familyIds: seq<RecipeId>, personalIds: seq<RecipeId>, apiIds: seq<RecipeId>,
                            family: seq<RecipeView>, personal: seq<RecipeView>, apis: seq<RecipeView>)
    requires GetPreviewRecipes(t, familyIds, Family) == Success(family)
    requires GetPreviewRecipes(t, personalIds, Personal) == Success(personal)
    requires RecipesUtils.GetRecipesPreviewDetails(api, apiIds) == Success(apis)
    ensures var all := family + personal + apis;
      && PreviewAnswer(t, api, familyIds, personalIds, apiIds, all)
      && IdsOf(all) == familyIds + personalIds + apiIds
      && (forall v :: v in all ==> IsPreview(v))
      && (forall i :: 0 <= i < |all| ==> (all[i].family.Some? <==> i < |familyIds|))
  {
    FirstPartyPreviewBatch(t, familyIds, Family);
    FirstPartyPreviewBatch(t, personalIds, Personal);
    CataloguePreviewBatch(api, apiIds);
    PreviewBatchesConcat(family, personal, apis, familyIds, personalIds, apiIds);
    FirstPartyBatchPreviews(t, Family, familyIds);
    FirstPartyBatchPreviews(t, Personal, personalIds);
    CatalogueBatchPreviews(api, apiIds);
    PreviewBatchesAnswer(t, api, familyIds, personalIds, apiIds, family, personal, apis);
  }

  /** The preview branch of `fetchRecipeDetails`. */
  function FetchPreviews(t: Tables, api: RecipesUtils.Catalog,
                         familyIds: seq<RecipeId>, personalIds: seq<RecipeId>, apiIds: seq<RecipeId>)
    : (r: Result<seq<RecipeView>>)
    ensures r.Success? <==> PreviewFetchable(t, api, familyIds, personalIds, apiIds)
    ensures r.Success? ==> PreviewAnswer(t, api, familyIds, personalIds, apiIds, r.value)
    ensures r.Success? ==>
      && IdsOf(r.value) == familyIds + personalIds + apiIds
      && (forall v :: v in r.value ==> IsPreview(v))
      && (forall i :: 0 <= i < |r.value| ==> (r.value[i].family.Some? <==> i < |familyIds|))
  {
    var family := if familyIds == [] then Success([]) else GetPreviewRecipes(t, familyIds, Family);
    var personal := if personalIds == [] then Success([]) else GetPreviewRecipes(t, personalIds, Personal);
    var apis := if apiIds == [] then Success([]) else RecipesUtils.GetRecipesPreviewDetails(api, apiIds);
    PreviewBatchesFetchable(t, api, familyIds, personalIds, apiIds);
    if family.Failure? then Failure(family.error)
    else if personal.Failure? then Failure(personal.error)
    else if apis.Failure? then Failure(apis.error)
    else
      PreviewBatchesFacts(t, api, familyIds, personalIds, apiIds, family.value, personal.value, apis.value);
      Success(family.value + personal.value + apis.value)
  }

  /** `fetchRecipeDetails`: family results, then personal, then catalogue.
      In `"full"` mode a non-empty bucket gives one object; in any other
      mode each id gives one preview, in id order. */
  function FetchRecipeDetails(t: Tables, api: RecipesUtils.Catalog, display: string,
                              familyIds: seq<RecipeId>, personalIds: seq<RecipeId>, apiIds: seq<RecipeId>)
    : (r: Result<seq<RecipeView>>)
    ensures display == "full" ==> (r.Success? <==> FullFetchable(t, api, familyIds, personalIds, apiIds))
    ensures display == "full" && r.Success? ==>
      && FullAnswer(t, api, familyIds, personalIds, apiIds, r.value)
      && |r.value| == NonEmptyBuckets(familyIds, personalIds, apiIds) <= 3
      && (forall v :: v in r.value ==> IsFull(v))
      && (forall i :: 0 <= i < |r.value| ==> (r.value[i].family.Some? <==> i == 0 && familyIds != []))
    ensures display != "full" ==> (r.Success? <==> PreviewFetchable(t, api, familyIds, personalIds, apiIds))
    ensures display != "full" && r.Success? ==> PreviewAnswer(t, api, familyIds, personalIds, apiIds, r.value)
    ensures display != "full" && r.Success? ==>
      && IdsOf(r.value) == familyIds + personalIds + apiIds
      && (forall v :: v in r.value ==> IsPreview(v))
      && (forall i :: 0 <= i < |r.value| ==> (r.value[i].family.Some? <==> i < |familyIds|))
  {
    if display == "full" then FetchFull(t, api, familyIds, personalIds, apiIds)
    else FetchPreviews(t, api, familyIds, personalIds, apiIds)
  }

  // ---------------------------------------------------------------- the whole read

  /** What `getViewedRecipes` answers: the selected pairs, bucketed, fetched.
      With a recipe id, previews carry that id, and each full object is that
      id's full lookup in one of the three sources. */
  function ViewedRecipes(t: Tables, api: RecipesUtils.Catalog, table: string, user: string, display: string,
                         limit: int, recipeId: Option<RecipeId>): (r: Result<seq<RecipeView>>)
    ensures table != ViewedTable && table != FavoriteTable ==> r == Failure(BadStatement)
    ensures display != "full" && recipeId.Some? && r.Success? ==>
      forall v :: v in r.value ==> v.recipeId == recipeId.value
    ensures display == "full" && recipeId.Some? && r.Success? ==>
      forall v :: v in r.value ==> FullLookup(t, api, recipeId.value, v)
  {
    var rows := SelectActivity(t, table, user, recipeId, table == ViewedTable,
                               if limit > 0 then Some(limit) else None);
    if rows.Failure? then Failure(rows.error)
    else
      var familyIds, personalIds, apiIds :=
        IdsOfType(rows.value, FamilyType), IdsOfType(rows.value, PersonalType), IdsOfType(rows.value, ApiType);
      if recipeId.Some? then
        BucketsOfFilteredRows(t, table, user, recipeId.value, rows.value);
        FilteredDetails(t, api, display, recipeId.value, familyIds, personalIds, apiIds);
        FetchRecipeDetails(t, api, display, familyIds, personalIds, apiIds)
      else
        FetchRecipeDetails(t, api, display, familyIds, personalIds, apiIds)
  }

  /** Fetching buckets that hold only `id` answers only about `id`. */
  lemma FilteredDetails(t: Tables, api: RecipesUtils.Catalog, display: string, id: RecipeId,
                        familyIds: seq<RecipeId>, personalIds: seq<RecipeId>, apiIds: seq<RecipeId>)
    requires forall x :: x in familyIds ==> x == id
    requires forall x :: x in personalIds ==> x == id
    requires forall x :: x in apiIds ==> x == id
    ensures var r := FetchRecipeDetails(t, api, display, familyIds, personalIds, apiIds);
      && (display != "full" && r.Success? ==> forall v :: v in r.value ==> v.recipeId == id)
      && (display == "full" && r.Success? ==> forall v :: v in r.value ==> FullLookup(t, api, id, v))
  {
    if display == "full" {
      FilteredFull(t, api, id, familyIds, personalIds, apiIds);
    } else {
      var r := FetchPreviews(t, api, familyIds, personalIds, apiIds);
      if r.Success? {
        PreviewsOfFilteredIds(id, familyIds + personalIds + apiIds, r.value);
      }
    }
  }

  /** The full answer for buckets that hold only `id` is made of lookups of `id`. */
  lemma FilteredFull(t: Tables, api: RecipesUtils.Catalog, id: RecipeId,
                     familyIds: seq<RecipeId>, personalIds: seq<RecipeId>, apiIds: seq<RecipeId>)
    requires forall x :: x in familyIds ==> x == id
    requires forall x :: x in personalIds ==> x == id
    requires forall x :: x in apiIds ==> x == id
    ensures var r := FetchFull(t, api, familyIds, personalIds, apiIds);
      r.Success? ==> forall v :: v in r.value ==> FullLookup(t, api, id, v)
  {
    var r := FetchFull(t, api, familyIds, personalIds, apiIds);
    if r.Success? {
      var vs := r.value;
      SingleIdBucket(familyIds, id);
      SingleIdBucket(personalIds, id);
      SingleIdBucket(apiIds, id);
      assert FullHeads(t, api, familyIds, personalIds, apiIds, vs);
      var rf, rp, ra := GetFullRecipe(t, id, Family), GetFullRecipe(t, id, Personal),
                        RecipesUtils.GetRecipeInformation(api, id);
      assert familyIds != [] ==> rf == Success(vs[0]);
      assert personalIds != [] ==> rp == Success(vs[|familyIds|]);
      assert apiIds != [] ==> ra == Success(vs[|familyIds| + |personalIds|]);
      SingletonHeads(vs, |familyIds|, |personalIds|, |apiIds|, rf, rp, ra);
    }
  }

  /** One of the three full lookups of `id` gives `v`. */
  ghost predicate FullLookup(t: Tables, api: RecipesUtils.Catalog, id: RecipeId, v: RecipeView) {
    || GetFullRecipe(t, id, Family) == Success(v)
    || GetFullRecipe(t, id, Personal) == Success(v)
    || RecipesUtils.GetRecipeInformation(api, id) == Success(v)
  }

  /** Rows selected with an id filter put only that id in the buckets. */
  lemma BucketsOfFilteredRows(t: Tables, table: string, user: string, id: RecipeId, rows: seq<ActivityRow>)
    requires forall row :: row in rows ==> SelectedFrom(t, table, user, Some(id), row)
    ensures forall x :: x in IdsOfType(rows, FamilyType) ==> x == id
    ensures forall x :: x in IdsOfType(rows, PersonalType) ==> x == id
    ensures forall x :: x in IdsOfType(rows, ApiType) ==> x == id
  {
    forall x | x in IdsOfType(rows, FamilyType) ensures x == id {
      assert SelectedFrom(t, table, user, Some(id), ActivityRow(x, FamilyType));
    }
    forall x | x in IdsOfType(rows, PersonalType) ensures x == id {
      assert SelectedFrom(t, table, user, Some(id), ActivityRow(x, PersonalType));
    }
    forall x | x in IdsOfType(rows, ApiType) ensures x == id {
      assert SelectedFrom(t, table, user, Some(id), ActivityRow(x, ApiType));
    }
  }

  /** When each of three parts of at most one element has its head given
      by one lookup, every element is given by one of the lookups. */
  lemma SingletonHeads(vs: seq<RecipeView>, nf: nat, np: nat, na: nat,
                       rf: Result<RecipeView>, rp: Result<RecipeView>, ra: Result<RecipeView>)
    requires nf <= 1 && np <= 1 && na <= 1 && |vs| == nf + np + na
    requires nf == 1 ==> rf == Success(vs[0])
    requires np == 1 ==> rp == Success(vs[nf])
    requires na == 1 ==> ra == Success(vs[nf + np])
    ensures forall v :: v in vs ==> rf == Success(v) || rp == Success(v) || ra == Success(v)
  {
    forall i | 0 <= i < |vs| ensures rf == Success(vs[i]) || rp == Success(vs[i]) || ra == Success(vs[i]) {
      if i < nf {
        assert i == 0;
      } else if i < nf + np {
        assert i == nf;
      } else {
        assert i == nf + np;
      }
    }
  }

  /** A bucket of at most one id, all of them `id`, is empty or `[id]`. */
  lemma SingleIdBucket(ids: seq<RecipeId>, id: RecipeId)
    requires |ids| <= 1 && forall x :: x in ids ==> x == id
    ensures ids == [] || ids == [id]
  {
    if ids != [] {
      assert ids[0] in ids;
    }
  }

  /** Previews listed for ids that are all `id` carry `id`. */
  lemma PreviewsOfFilteredIds(id: RecipeId, ids: seq<RecipeId>, vs: seq<RecipeView>)
    requires forall x :: x in ids ==> x == id
    requires IdsOf(vs) == ids
    ensures forall v :: v in vs ==> v.recipeId == id
  {
    forall v | v in vs ensures v.recipeId == id {
      var i :| 0 <= i < |vs| && vs[i] == v;
      assert ids[i] in ids;
    }
  }

  /** `getViewedRecipes(table_name, user_name, display_type, limit, recipe_id)`. */
  method GetViewedRecipes(t: Tables, api: RecipesUtils.Catalog, table: string, user: string, display: string,
                          limit: int, recipeId: Option<RecipeId>)
    returns (r: Result<seq<RecipeView>>)
    ensures r == ViewedRecipes(t, api, table, user, display, limit, recipeId)
  {
    var query := BuildActivityQuery(table, user, limit, recipeId);
    FilterOfFromMembers(query, recipeId);
    LimitOfFromMembers(query, if limit > 0 then Some(limit) else None);
    var answer := Execute(t, query);
    if answer.Failure? {
      return Failure(answer.error);
    }
    var familyIds, personalIds, apiIds := CategorizeRecipesByType(answer.value);
    r := FetchRecipeDetails(t, api, display, familyIds, personalIds, apiIds);
  }

  /** A preview listing with a limit never returns more recipes than the limit. */
  lemma PreviewListingWithinLimit(t: Tables, api: RecipesUtils.Catalog, table: string, user: string,
                                  display: string, limit: int, recipeId: Option<RecipeId>)
    requires display != "full" && limit > 0
    requires ViewedRecipes(t, api, table, user, display, limit, recipeId).Success?
    ensures |ViewedRecipes(t, api, table, user, display, limit, recipeId).value| <= limit
  {
    var rows := SelectActivity(t, table, user, recipeId, table == ViewedTable, Some(limit)).value;
    BucketsPartitionRows(rows);
    var r := ViewedRecipes(t, api, table, user, display, limit, recipeId).value;
    assert |IdsOf(r)| == |IdsOfType(rows, FamilyType)| + |IdsOfType(rows, PersonalType)| + |IdsOfType(rows, ApiType)|;
  }

  /** The most recent views come first, and a `LIMIT` keeps the most recent
      ones: no dropped view is newer than a kept one. */
  lemma MostRecentViewsFirst(t: Tables, user: string, limit: nat)
    requires limit > 0
    ensures var ranked := OrderBy(ViewedMatching(t.viewedRecipes, user, None), RecencyKey);
      var kept := Take(ranked, Some(limit));
      && SelectActivity(t, ViewedTable, user, None, true, Some(limit)) == Success(Pairs(kept, ViewedPair))
      && multiset(ranked) == multiset(ViewedMatching(t.viewedRecipes, user, None))
      && |kept| == (if |ranked| < limit then |ranked| else limit)
      && (forall i, j :: 0 <= i < j < |kept| ==> kept[i].viewAt >= kept[j].viewAt)
      && (forall i, j :: 0 <= i < |kept| <= j < |ranked| ==> kept[i].viewAt >= ranked[j].viewAt)
  {
    var ranked := OrderBy(ViewedMatching(t.viewedRecipes, user, None), RecencyKey);
    var kept := Take(ranked, Some(limit));
    NewestFirst(ViewedMatching(t.viewedRecipes, user, None));
    assert |kept| == (if |ranked| < limit then |ranked| else limit);
    assert forall i :: 0 <= i < |kept| ==> kept[i] == ranked[i];
  }

  /** `ORDER BY view_at DESC` puts newer views first. */
  lemma NewestFirst(rows: seq<ViewedRow>)
    ensures var ranked := OrderBy(rows, RecencyKey);
      forall i, j :: 0 <= i < j < |ranked| ==> ranked[i].viewAt >= ranked[j].viewAt
  {
    var ranked := OrderBy(rows, RecencyKey);
    forall i, j | 0 <= i < j < |ranked| ensures ranked[i].viewAt >= ranked[j].viewAt {
      assert RecencyKey(ranked[i]) <= RecencyKey(ranked[j]);
    }
  }

  /** A bucket is non-empty exactly when some row has its type. */
  lemma BucketNonEmpty(rows: seq<ActivityRow>, recipeType: string)
    ensures IdsOfType(rows, recipeType) != [] <==> exists i :: 0 <= i < |rows| && rows[i].recipeType == recipeType
  {
    var ids := IdsOfType(rows, recipeType);
    if ids != [] {
      assert ActivityRow(ids[0], recipeType) in rows;
    }
    if i :| 0 <= i < |rows| && rows[i].recipeType == recipeType {
      assert rows[i].recipeId in ids;
    }
  }

  /** The pairs a lookup of one id in `viewedrecipes` selects. */
  function ViewsOf(t: Tables, user: string, id: RecipeId): seq<ActivityRow> {
    Pairs(OrderBy(ViewedMatching(t.viewedRecipes, user, Some(id)), RecencyKey), ViewedPair)
  }

  /** A selected pair has a bucketed type exactly when the user has such a
      view of the id. */
  lemma ViewsOfBucketed(t: Tables, user: string, id: RecipeId)
    ensures (exists i :: 0 <= i < |ViewsOf(t, user, id)| && IsBucketed(ViewsOf(t, user, id)[i].recipeType))
        <==> exists x :: x in t.viewedRecipes && x.userName == user && x.recipeId == id && IsBucketed(x.recipeType)
  {
    var matching := ViewedMatching(t.viewedRecipes, user, Some(id));
    var ordered := OrderBy(matching, RecencyKey);
    var rows := ViewsOf(t, user, id);
    if x :| x in t.viewedRecipes && x.userName == user && x.recipeId == id && IsBucketed(x.recipeType) {
      OrderBySameMembers(matching, RecencyKey, x);
      var i :| 0 <= i < |ordered| && ordered[i] == x;
      assert rows[i].recipeType == x.recipeType;
    }
    if i :| 0 <= i < |rows| && IsBucketed(rows[i].recipeType) {
      OrderBySameMembers(matching, RecencyKey, ordered[i]);
      assert ordered[i] in matching;
    }
  }

  /** `GET /lastViewedRecipes/:recipe_id` reports a recipe exactly when the
      user has a view of that id whose type has a bucket. */
  lemma LastViewedExactlyWhenViewed(t: Tables, api: RecipesUtils.Catalog, user: string, id: RecipeId)
    requires ViewedRecipes(t, api, ViewedTable, user, "full", 0, Some(id)).Success?
    ensures |ViewedRecipes(t, api, ViewedTable, user, "full", 0, Some(id)).value| > 0
        <==> exists x :: x in t.viewedRecipes && x.userName == user && x.recipeId == id && IsBucketed(x.recipeType)
  {
    var rows := ViewsOf(t, user, id);
    assert SelectActivity(t, ViewedTable, user, Some(id), true, None) == Success(rows) by {
      var ordered := OrderBy(ViewedMatching(t.viewedRecipes, user, Some(id)), RecencyKey);
      assert Take(ordered, None) == ordered;
    }
    var familyIds, personalIds, apiIds := IdsOfType(rows, FamilyType), IdsOfType(rows, PersonalType), IdsOfType(rows, ApiType);
    assert ViewedRecipes(t, api, ViewedTable, user, "full", 0, Some(id)) == FetchFull(t, api, familyIds, personalIds, apiIds);
    SomeBucketNonEmpty(rows);
    ViewsOfBucketed(t, user, id);
  }

  /** Some bucket is non-empty exactly when some row has a bucketed type. */
  lemma SomeBucketNonEmpty(rows: seq<ActivityRow>)
    ensures NonEmptyBuckets(IdsOfType(rows, FamilyType), IdsOfType(rows, PersonalType), IdsOfType(rows, ApiType)) > 0
        <==> exists i :: 0 <= i < |rows| && IsBucketed(rows[i].recipeType)
  {
    BucketNonEmpty(rows, FamilyType);
    BucketNonEmpty(rows, PersonalType);
    BucketNonEmpty(rows, ApiType);
  }
}
