# Recipe backend: activity, projection, authoring and route logic

This project models the data-shaping and bookkeeping core of a recipe web
backend. Users own personal and family recipes, which are stored in MySQL
tables. They also browse catalogue recipes served by the Spoonacular API.
The backend records which recipes a user viewed and which they marked as
favourites.

The model covers:

- **Catalogue normalisation** (`RecipesUtils`). A Spoonacular recipe becomes
  the full or the preview shape. Ingredients and instruction groups are mapped
  one to one. The summary loses its HTML tags and is cut after its first
  sentence. The catalogue itself is a map parameter, so an unknown id is the
  failed HTTP call.
- **First-party projection** (`Projection`). A recipe row, together with its
  ingredient and instruction rows, becomes the preview or the full shape.
  Family recipes also carry `who_made` and `when_prepare`. The steps form one
  instruction group, in `instruction_id` order.
- **Activity aggregation** (`Aggregation`):
  - the `getViewedRecipes` query is assembled from optional clauses;
  - the query is executed against the activity tables;
  - the rows are sorted into the family, personal and api buckets;
  - the bucket results are fetched and concatenated.
- **Activity table effects** (`ActivityLog`). Viewing a recipe is an upsert on
  `(user_name, recipe_id)` that refreshes only `view_at`. Marking a favourite
  is an unconditional append.
- **Authoring** (`Authoring`). A create call:
  - inserts the recipe row under the next AUTO_INCREMENT id;
  - numbers the instruction tuples from 1, with single quotes doubled;
  - inserts the ingredients one statement at a time.
  
  Every statement commits on its own, so a failure part-way through leaves the
  earlier rows in place.
- **Route logic** (`UserRoutes`):
  - the request validation bounds of the two create routes;
  - free-text instruction normalisation (split on `.`, trim, drop empty pieces);
  - the favourite-status decision, including the `last_viewed` type indirection;
  - the last-viewed handlers.

The supporting modules are:

- `RecipeModel` (common.dfy): ids, `Option`, `Result`, errors, and the view
  shapes.
- `Tables` (tables.dfy): the rows, the `WHERE` filters, and the `Database`
  class that holds the tables and the two AUTO_INCREMENT counters.
- `Sql` (sql.dfy): `ORDER BY` as a stable sort on an integer key.

The database and the catalogue are values passed in, or the `Database`
object. `NOW()` is a parameter.

Where the repository's design notes and its code disagree, the model follows
the code:

- Marking a favourite never increments `likes`.
- Marking an `api` or `random` recipe as a favourite appends a row like any
  other type; it is not a no-op.
- Creating a recipe is not atomic. A failed instruction or ingredient insert
  leaves the recipe row, and any earlier rows, in place.
- Free-text instructions are split and trimmed by code that no request can
  reach: the array check on `RecipesInstructions` rejects a string first.

## Model

| member | source | states |
|---|---|---|
| RecipesUtils.IngredientList | routes/utils/recipes_utils.js:43-46 | one `{name, amount, unitLong}` per `extendedIngredients` entry, in order, taken from its `us` measure |
| RecipesUtils.StepTexts | routes/utils/recipes_utils.js:48-51 | one text per analysed step, in order, each the step's `step` string |
| RecipesUtils.InstructionList | routes/utils/recipes_utils.js:48-51 | one instruction group per `analyzedInstructions` entry, in order, each holding that entry's step texts in order |
| RecipesUtils.StripTags | routes/utils/recipes_utils.js:61 | the stripped text contains no `<` followed later by a `>`, and keeps only characters of the input |
| RecipesUtils.StripTagsIdempotent | routes/utils/recipes_utils.js:61 | stripping a text that has no tag leaves it unchanged |
| RecipesUtils.StripTagsKeepsPlainText | routes/utils/recipes_utils.js:61 | text before the first `<` survives unchanged, ahead of the stripped rest |
| RecipesUtils.StripTagsDropsTag | routes/utils/recipes_utils.js:61 | a whole tag `<...>` at the front is removed and stripping goes on after it |
| RecipesUtils.StripTagsKeepsOutside | routes/utils/recipes_utils.js:61 | for `x<tag>y` with no `<` in `x`, the result is `x` followed by the stripped `y`: the text outside a tag is kept, in order |
| RecipesUtils.FirstSentence | routes/utils/recipes_utils.js:62 | the result is a prefix of the text: up to and including the first `.` when there is one, otherwise the whole text |
| RecipesUtils.CleanSummary | routes/utils/recipes_utils.js:61-62 | the cleaned summary is a prefix of the tag-free summary and contains no tag |
| RecipesUtils.CleanSummaryShape | routes/utils/recipes_utils.js:61-62 | the summary is a tag-free prefix of the stripped text; it contains a `.` iff the stripped text does, and then only as its last character |
| RecipesUtils.RecipeInformation | routes/utils/recipes_utils.js:53-67 | the full catalogue shape carries the recipe's id, the cleaned summary, and the mapped ingredient and instruction lists, with no family fields |
| RecipesUtils.GetRecipeInformation | routes/utils/recipes_utils.js:19-72 | succeeds iff the catalogue knows the id, and then returns that recipe's full shape |
| RecipesUtils.GetRecipePreviewDetails | routes/utils/recipes_utils.js:78-92 | the preview carries the requested id; the other seven fields are copied from the full info; there are no ingredients, instructions, portions or summary |
| RecipesUtils.GetRecipesPreviewDetails | routes/utils/recipes_utils.js:101-107 | succeeds iff every id is known, and then returns one preview per id in input order; a single unknown id fails the batch |
| RecipesUtils.FullDetails | routes/utils/recipes_utils.js:115-140 | the full-details shape equals the full catalogue shape without the summary |
| RecipesUtils.GetRecipesFullDetails | routes/utils/recipes_utils.js:114-146 | one full-details shape per input recipe, in order |
| RecipesUtils.SearchRecipes | routes/utils/recipes_utils.js:207-212 | succeeds iff every search result's id is known, and then returns, in order, for each result exactly the single-id preview of that result's id |
| Projection.FamilyNoteOf | routes/utils/user_utils.js:46-49 | `who_made`/`when_prepare` are present iff the category is family, and then come from the row |
| Projection.PreviewOf | routes/utils/user_utils.js:31-52 | a first-party preview has no ingredients or instructions, and has family fields iff the category is family |
| Projection.GetPreviewRecipes | routes/utils/user_utils.js:25-53 | succeeds iff every id selects a row; then one preview per id, in id order, built from the first selected row and carrying the requested id |
| Projection.GetRecipes | routes/utils/user_utils.js:12-17 | always succeeds, with one preview per recipe the user owns, in table order, each the preview of the first row its id selects |
| Projection.Descriptions | routes/utils/user_utils.js:85 | the step descriptions of the instruction rows, in row order |
| Projection.IngredientViews | routes/utils/user_utils.js:79-83 | one `{name, amount, unitLong}` per ingredient row, in row order |
| Projection.RecipeDetails | routes/utils/user_utils.js:78-107 | the full shape has no summary; its ingredients are the mapped rows; it has exactly one instruction group holding the step descriptions; it has family fields iff the category is family |
| Projection.GetFullRecipe | routes/utils/user_utils.js:61-68 | succeeds iff the id selects a recipe row; the single instruction group lists that recipe's steps sorted by `instruction_id` and is a permutation of its instruction rows |
| Sql.Insert | routes/utils/user_utils.js:64 | inserting into a sorted sequence adds exactly one element and keeps the multiset |
| Sql.InsertKeepsSorted | routes/utils/user_utils.js:64 | insertion keeps a sequence sorted by the key |
| Sql.OrderBy | routes/utils/user_utils.js:64 | `ORDER BY` yields a permutation of the rows, sorted by the key |
| Sql.OrderByKeepsSorted | routes/utils/user_utils.js:64 | ordering rows that are already sorted changes nothing |
| Sql.OrderBySameMembers | routes/utils/user_utils.js:64 | ordering keeps exactly the same rows |
| Tables.WithId | routes/utils/user_utils.js:27 | `WHERE recipe_id=` keeps exactly the rows with that id, for the recipe, ingredient and instruction tables alike |
| Tables.RecipesOfUser | routes/utils/user_utils.js:13 | `WHERE user_name=` keeps exactly the rows of that user |
| Tables.WithIdAppend | routes/utils/user_utils.js:63-64 | after rows for an id no earlier row holds are appended, that id selects exactly the appended rows, in order |
| Tables.WithIdAll | routes/utils/user_utils.js:63-64 | rows that all hold the id are all selected, in order |
| Aggregation.ActivityQueryClauses | routes/utils/user_utils.js:300-319 | the `recipe_id` clause is present iff an id is given; `ORDER BY view_at DESC` is present iff the table is `viewedrecipes`; `LIMIT n` is present iff `limit > 0` and `n` is the limit |
| Aggregation.ActivityQueryWellOrdered | routes/utils/user_utils.js:300-319 | the assembled clauses always appear in the order SELECT, id filter, ORDER BY, LIMIT |
| Aggregation.BuildActivityQuery | routes/utils/user_utils.js:300-319 | the query grown step by step is the specified query, with each clause present under exactly the conditions above |
| Aggregation.FilterOfFromMembers | routes/utils/user_utils.js:307-309 | the executed filter is the id whose clause the query holds |
| Aggregation.LimitOfFromMembers | routes/utils/user_utils.js:317-319 | the executed limit is the one whose clause the query holds |
| Aggregation.ViewedMatching | routes/utils/user_utils.js:300-309 | keeps exactly the viewed rows of the user, restricted to the id when one is given |
| Aggregation.FavoritesMatching | routes/utils/user_utils.js:300-309 | keeps exactly the favourite rows of the user, restricted to the id when one is given |
| Aggregation.Take | routes/utils/user_utils.js:317-319 | `LIMIT` keeps a prefix of at most the limit, and everything when there is no limit |
| Aggregation.SelectActivity | routes/utils/user_utils.js:300-322 | the query runs iff it targets `viewedrecipes`, or `favoriterecipes` without ordering (that table has no `view_at`); a limited result has at most the limit; every answer row is the `(recipe_id, recipe_type)` of one of the user's rows of that table, with the filtered id when one is given |
| Aggregation.Execute | routes/utils/user_utils.js:321-322 | an executed query starts with its SELECT, respects its LIMIT, and answers only rows of the selected user and table that pass its id filter |
| Aggregation.ActivityQuery | routes/utils/user_utils.js:300-319 | the assembled query starts with the SELECT of the table and the user |
| Aggregation.IdsOfType | routes/utils/user_utils.js:338-354 | a bucket holds exactly the ids of the rows of its type, and is never longer than the rows |
| Aggregation.CategorizeRecipesByType | routes/utils/user_utils.js:338-354 | the three buckets the loop fills are the family, personal and api buckets of the rows |
| Aggregation.IdsOfTypeAppend | routes/utils/user_utils.js:338-354 | the bucket of concatenated rows is the concatenation of their buckets, so relative order is kept |
| Aggregation.BucketsPartitionRows | routes/utils/user_utils.js:338-354 | each row lands in exactly one bucket or is dropped (any type other than family, personal or api) |
| Aggregation.Unbucketed | routes/utils/user_utils.js:338-354 | the dropped rows are exactly the rows whose type has no bucket |
| Aggregation.FullBucket | routes/utils/user_utils.js:369-371 | an empty bucket gives no recipe; a bucket of one id succeeds iff that id has a row in the category's table, and then gives exactly `getFullRecipe` of that id; a bucket of two or more ids fails |
| Aggregation.FullApiBucket | routes/utils/user_utils.js:372 | an empty bucket gives no recipe; a bucket of one id succeeds iff the catalogue knows it, and then gives exactly `getRecipeInformation` of that id; two or more ids fail the request |
| Aggregation.FetchFull | routes/utils/user_utils.js:369-379 | full mode succeeds iff every bucket holds at most one id and each id is found; then the answer is the family, then the personal, then the catalogue lookup of those ids, one full recipe per non-empty bucket, family fields only on the family one |
| Aggregation.FullBucketsAnswer | routes/utils/user_utils.js:369-379 | three fetched buckets, concatenated, sit at their bucket offsets, carry the first-party ids in order, and are all full |
| Aggregation.FullFailsOnRepeatedBucket | routes/utils/user_utils.js:369-372 | full mode fails whenever some bucket holds more than one id |
| Aggregation.FirstPartyPreviewBatch | routes/utils/user_utils.js:374-375 | a first-party preview batch has the requested ids, in order, with family fields iff family |
| Aggregation.CataloguePreviewBatch | routes/utils/user_utils.js:376 | a catalogue preview batch has the requested ids, in order, without family fields |
| Aggregation.PreviewBatchesConcat | routes/utils/user_utils.js:379 | the concatenated previews carry the family, then the personal, then the api ids, and family fields exactly on the family part |
| Aggregation.PreviewBatchesFetchable | routes/utils/user_utils.js:374-376 | the preview branch can succeed exactly when its three batches do, and an empty bucket asks for nothing |
| Aggregation.PreviewBatchesAnswer | routes/utils/user_utils.js:379 | the three batches, concatenated, place each family preview, then each personal preview, then each catalogue preview at its offset |
| Aggregation.FetchPreviews | routes/utils/user_utils.js:374-379 | in preview mode it succeeds iff every family and personal id selects a row and the catalogue knows every api id; the answer is the preview of each family id's row, then of each personal id's row, then each catalogue preview, with family fields exactly on the family part |
| Aggregation.FetchRecipeDetails | routes/utils/user_utils.js:364-380 | in full mode it succeeds iff each bucket holds at most one id that is found, and answers the lookups of those ids in bucket order; in any other mode it succeeds iff every id is found, and answers the preview of each id, family ++ personal ++ api |
| Aggregation.GetViewedRecipes | routes/utils/user_utils.js:297-331 | the method's result is the query, then execution, then bucketing, then fetching, as specified by ViewedRecipes |
| Aggregation.ViewedRecipes | routes/utils/user_utils.js:297-331 | a table other than the two activity tables fails; with a recipe id, every preview carries that id, and every full object is that id's full lookup in the family, personal or catalogue source |
| Aggregation.FilteredDetails | routes/utils/user_utils.js:364-380 | fetching buckets that hold only one id answers only about that id |
| Aggregation.PreviewListingWithinLimit | routes/utils/user_utils.js:317-326 | a preview listing with a positive limit returns at most that many recipes |
| Aggregation.MostRecentViewsFirst | routes/utils/user_utils.js:300-319 | the ordered, limited viewed query keeps the min(limit, count) most recent views of the user, newest first |
| Aggregation.NewestFirst | routes/utils/user_utils.js:312-314 | `ORDER BY view_at DESC` yields non-increasing view times |
| Aggregation.BucketNonEmpty | routes/utils/user_utils.js:338-354 | a bucket is non-empty iff some row has its type |
| Aggregation.SomeBucketNonEmpty | routes/utils/user_utils.js:338-379 | some bucket is non-empty iff some row has a bucketed type |
| Aggregation.ViewsOfBucketed | routes/utils/user_utils.js:300-309 | the selected views of a recipe include a bucketed type iff the table holds such a view by the user |
| Aggregation.LastViewedExactlyWhenViewed | routes/user.js:382-387 | the full lookup of one viewed recipe is non-empty iff the user viewed it under a bucketed type |
| ActivityLog.KeyIndex | routes/utils/user_utils.js:267-271 | locates the row with the key `(user_name, recipe_id)`, and is None iff no row has it |
| ActivityLog.Upsert | routes/utils/user_utils.js:267-272 | on an existing key only that row's `view_at` changes; otherwise one row stamped `now` is appended; either way the key is then present with `view_at = now` |
| ActivityLog.UpsertKeepsKeysUnique | routes/utils/user_utils.js:267-272 | the upsert keeps `(user_name, recipe_id)` a key |
| ActivityLog.RepeatViewKeepsType | routes/utils/user_utils.js:270-271 | a repeat view keeps the stored `recipe_type` and only moves `view_at` |
| ActivityLog.ViewTwiceOneRow | routes/utils/user_utils.js:267-272 | viewing twice leaves exactly one row for the key, stamped with the second time |
| ActivityLog.PutViewedRecipes | routes/utils/user_utils.js:264-276 | the database's viewed table becomes the upsert; nothing else changes, and the key stays unique |
| ActivityLog.MarkAsFavorite | routes/utils/user_utils.js:281-283 | exactly one `(user, id, type)` row is appended, for every type, and nothing else changes |
| ActivityLog.Occurrences | routes/utils/user_utils.js:281-283 | the count of a row is positive iff the row is present |
| ActivityLog.MarkAddsOneCopy | routes/utils/user_utils.js:281-283 | marking is not idempotent: each call adds one more copy of the row |
| ActivityLog.FavoritesMatchingAppend | routes/utils/user_utils.js:281-308 | a newly marked row is selected after the earlier ones, iff it matches the user and the id |
| ActivityLog.MarkTwiceRepeatsId | routes/utils/user_utils.js:281-354 | after two equal marks, the bucket for that id holds it at least twice |
| ActivityLog.MarkTwiceBreaksFullLookup | routes/user.js:320 | marking a bucketed recipe twice makes every later full favourite lookup of it fail |
| Authoring.Escape | routes/utils/user_utils.js:156 | the escaped text doubles every single quote and never gets shorter |
| Authoring.NumberedSteps | routes/utils/user_utils.js:153-159 | one tuple per step: the k-th (1-based) carries the recipe id, `instruction_id = k`, and a quote-doubled literal that reads back as the step |
| Authoring.UnescapeEscape | routes/utils/user_utils.js:156 | un-doubling the quotes recovers the original step text |
| Authoring.InstructionTuples | routes/utils/user_utils.js:153-159 | the k-th step (1-based) becomes the tuple with the new recipe's id, `instruction_id = k`, and the quote-doubled text |
| Authoring.InsertInstructions | routes/utils/user_utils.js:161-162 | the multi-row insert succeeds iff there is at least one step, and then appends exactly the numbered rows |
| Authoring.StepsReadBack | routes/utils/user_utils.js:153-162 | reading the stored rows back `ORDER BY instruction_id` gives the steps in their original order |
| Authoring.NewRow | routes/utils/user_utils.js:143-148 | the new row carries the new id, the owner and the name, plus `who_made`/`when_prepare` for family |
| Authoring.AddRecipe | routes/utils/user_utils.js:143-148 | the recipe row is appended to its category's table |
| Authoring.InsertIngredient | routes/utils/user_utils.js:243-248 | an ingredient insert succeeds iff it names four columns and its strings hold no single quote, and then appends exactly one row |
| Authoring.InsertIngredients | routes/utils/user_utils.js:166-171 | the loop succeeds iff every insert is accepted; whether or not it does, the table grows by the rows of a prefix of the ingredients |
| Authoring.FailureStops | routes/utils/user_utils.js:166-172 | once one insert fails, the later ingredients change nothing |
| Authoring.Create | routes/utils/user_utils.js:127-175 | a create completes iff the recipe fields hold no unescaped quote, there is a step, and every ingredient insert is accepted; it answers the new id; a refused recipe insert changes nothing, and otherwise the recipe row stays |
| Authoring.CreateRecipe | routes/utils/user_utils.js:127-175 | the database and the result become the specified create; the category's counter advances iff the recipe row was inserted, and the other counter is unchanged |
| Authoring.InsertRecipeRow | routes/utils/user_utils.js:143-151 | the row is inserted under the next AUTO_INCREMENT id, and that counter advances by one |
| Authoring.InsertEachIngredient | routes/utils/user_utils.js:166-171 | the loop of single inserts has the outcome of the specified ingredient inserts |
| Authoring.CreatePersonalRecipe | routes/utils/user_utils.js:127-175 | a personal create with named ingredient columns, under the next personal id; the personal counter advances iff the recipe row was inserted, and the family counter is unchanged |
| Authoring.CreatePersonalRecipeAsWritten | routes/utils/user_utils.js:166-171 | a personal create with the empty column list the code uses; the personal counter advances iff the recipe row was inserted, and the family counter is unchanged |
| Authoring.CreateFamilyRecipe | routes/utils/user_utils.js:200-253 | a family create under the next family id; the family counter advances iff the recipe row was inserted, and the personal counter is unchanged |
| Authoring.PersonalCreateAsWrittenFails | routes/utils/user_utils.js:168-169 | as written, a personal create with ingredients fails after the recipe and instruction rows are committed, and no ingredient row is stored |
| Authoring.NoStepsLeavesRecipeRow | routes/utils/user_utils.js:151-162 | with no steps the instruction insert fails, and the recipe row stays behind (creation is not atomic) |
| Authoring.CreatedRows | routes/utils/user_utils.js:127-175 | a successful create adds exactly the recipe row, the numbered instruction rows and the ingredient rows |
| Authoring.ReadBackAfterCreate | routes/utils/user_utils.js:61-107 | reading a recipe created under an id no recipe, instruction or ingredient row holds gives its name, its family fields iff family, one instruction group equal to the steps, and the ingredients in order |
| Authoring.IngredientsReadBack | routes/utils/user_utils.js:63 | stored ingredient rows read back as the input ingredients, in order |
| Authoring.PersonalCreateAsWrittenCommits | routes/utils/user_utils.js:127-170 | with the code's own ingredient INSERT, a personal create whose recipe and instruction statements run leaves both rows behind, whether or not an ingredient then fails |
| Authoring.CrossCategoryStepsMix | routes/utils/user_utils.js:61-64 | with the creates as written, a family recipe and then a personal recipe created under the same id give the personal read-back more steps than were sent |
| Authoring.SharedIdsReadBack | routes/utils/user_utils.js:61-107 | with one id sequence shared by both recipe tables, a completed create under the next id reads back as sent and leaves the following id fresh |
| Authoring.CreateKeepsIdsBelow | routes/utils/user_utils.js:127-175 | a completed create under id n adds rows with id n only |
| UserRoutes.Leading | routes/user.js:110 | counts the whitespace characters at the front and stops at the first non-whitespace character |
| UserRoutes.Trailing | routes/user.js:110 | counts the whitespace characters at the back and stops at the last non-whitespace character |
| UserRoutes.Trim | routes/user.js:110 | the result is a trimmed slice of the text, starting after the leading whitespace and followed only by whitespace |
| UserRoutes.TrimOnlyDrops | routes/user.js:110 | trimming adds no character |
| UserRoutes.TrimIdempotent | routes/user.js:110 | trimming twice is trimming once |
| UserRoutes.Split | routes/user.js:110 | no piece holds the separator, and joining the pieces with it gives back the text |
| UserRoutes.TrimmedNonEmpty | routes/user.js:110-111 | every kept step is a trimmed, non-empty piece, and every piece that is not blank is kept |
| UserRoutes.TrimmedNonEmptyCons | routes/user.js:110-111 | the first piece's step (its trimmed text, unless blank) comes first, then the steps of the rest |
| UserRoutes.TrimmedNonEmptyConcat | routes/user.js:110-111 | the steps of two piece lists joined are the steps of each, in order: nothing is reordered, merged or dropped twice |
| UserRoutes.TrimmedNonEmptyOne | routes/user.js:110-111 | one piece gives its trimmed text, or nothing when it is blank |
| UserRoutes.NormalizeInstructions | routes/user.js:109-111 | array input passes unchanged; every step from text is trimmed, non-empty and has no `.` |
| UserRoutes.NormalizeTextSentence | routes/user.js:109-111 | the first sentence of the text gives the first step unless blank, followed by the steps of the rest, so repeated sentences give repeated steps |
| UserRoutes.NormalizeTextLastSentence | routes/user.js:109-111 | text without a `.` gives one step, or none when blank |
| UserRoutes.EveryNonBlankPieceIsAStep | routes/user.js:109-111 | every piece of the text between dots that is not blank becomes a step |
| UserRoutes.IsLengthCount | routes/user.js:66-80 | the `isLength` count never exceeds the number of code points, and equals it iff the text has no U+FE0E/U+FE0F presentation selector |
| UserRoutes.IsLengthCountConcat | routes/user.js:66-80 | the count of a concatenation is the sum of the counts |
| UserRoutes.AtMost | routes/user.js:66-80 | `isString().isLength({max})` holds iff the `isLength` count is at most `max` |
| UserRoutes.AtMostCodePoints | routes/user.js:66-80 | a text of at most `max` code points passes `isLength({max})`; a text without presentation selectors passes iff it has at most `max` code points |
| UserRoutes.IngredientErrors | routes/user.js:77-79 | ingredient k is reported iff the `isLength` count (code points other than U+FE0E/U+FE0F) of its name (or unit) exceeds 750 |
| UserRoutes.Failing | routes/user.js:66-80 | reports exactly the listed fields whose check fails, lengths measured by the `isLength` count |
| UserRoutes.FieldsWithinBoundsNoneFails | routes/user.js:66-80 | the scalar fields are within their `isLength` and range bounds iff none of their checks fails |
| UserRoutes.FieldErrors | routes/user.js:66-80 | no scalar field is reported iff all are within their `isLength` and range bounds; a field is reported iff its check fails |
| UserRoutes.IngredientErrorsEmpty | routes/user.js:77-79 | no ingredient is reported iff every name (or unit) has an `isLength` count of at most 750 |
| UserRoutes.ValidationErrors | routes/user.js:66-88 | the error list is empty iff the request is within every `isLength` and range bound, and names exactly the failing checks |
| UserRoutes.WithinBounds | routes/user.js:66-80 | every check of the validator list holds: the `isLength` bounds, the integer minimums, and the array check on the instructions |
| UserRoutes.Fails | routes/user.js:66-80 | the check of one named field, or of the k-th ingredient's name or unit, fails |
| UserRoutes.CreatePersonalRecipeRoute | routes/user.js:64-135 | a request out of bounds gets 400 and leaves the database untouched; otherwise the personal create runs with the ingredient columns named, the status is 200 iff it succeeded, else 500, and the personal counter advances iff the recipe row was inserted |
| UserRoutes.CreatePersonalRecipeRouteAsWritten | routes/user.js:64-135 | over the create as written: out of bounds gets 400 with nothing changed; a request within bounds holding an ingredient always gets 500; the counters move as for the create |
| UserRoutes.CreateFamilyRecipeRoute | routes/user.js:168-245 | a request out of bounds gets 400 and leaves the database untouched; otherwise the family create runs, the status is 200 iff it succeeded, else 500, and the family counter advances iff the recipe row was inserted |
| UserRoutes.TextInstructionsRefused | routes/user.js:75 | instructions given as a string fail the array check, so validation rejects them |
| UserRoutes.ViewTypesOf | routes/user.js:292-300 | the lookup is empty iff no viewed row (of any user) has the id; otherwise its first element is the type of the first such row |
| UserRoutes.ResolveType | routes/user.js:292-306 | `last_viewed` resolves to the type of the first viewed row with the id, and fails iff there is none; other types pass unchanged |
| UserRoutes.FavoriteHits | routes/user.js:311-318 | selects exactly the favourite rows equal to `(user, id, type)` |
| UserRoutes.FavoriteRecipeStatus | routes/user.js:286-328 | fails when the type cannot be resolved; `isFavorite` is true for `api`, `random` and `favorite`, and otherwise holds iff a matching favourite row exists; the recipe is the first result of the full favourite lookup, and is that id's full lookup in one of the three sources |
| UserRoutes.IsFavoriteFor | routes/user.js:308-318 | `api`, `random` and `favorite` count as favourites; any other type counts iff the row `(user, id, type)` is in the favourites table |
| UserRoutes.MarkedIsFavorite | routes/user.js:254-264 | after a recipe is marked, the favourite query of the status route finds it, so its status reports it as a favourite |
| UserRoutes.UntrackedTypesAlwaysFavorite | routes/user.js:308-309 | `api`, `random` and `favorite` are favourites with no table lookup |
| UserRoutes.LastViewedRecipe | routes/user.js:375-392 | `isLastViewed` holds iff the lookup found a recipe, which is iff the user viewed it under a bucketed type; the recipe returned is that id's full lookup in one of the three sources |
| UserRoutes.LastViewedRecipes | routes/user.js:358-371 | the last-viewed listing has at most three previews |

## Left out

- Express routing, the session middleware (routes/user.js:15-26), the HTTP
  status plumbing and the error messages are left out. Only the status codes
  of the create routes are kept.
- Several routes do nothing but call a utility, so only that utility is
  modelled:
  - GET `/personalRecipes` and `/familyRecipes`, with or without an id;
  - POST `/favoriteRecipes`;
  - GET `/favoriteRecipes`;
  - PUT `/lastViewedRecipes`.
- The axios calls and `process.env` keys are left out. The catalogue is a
  map from id to response record, and an unknown id is an upstream error.
- `randomRecipes` and `handleRandomRecipe` are left out: they need
  randomness and network calls.
- The connection pool and the per-statement transactions
  (routes/utils/MySql.js, routes/utils/DButils.js) are left out. Each
  statement is modelled as its own commit.
- SQL text is not parsed. Each statement is given its effect directly.
  In the create statements (the recipe row and each ingredient), a value
  holding a single quote that the code does not double is modelled as
  breaking the statement (`BadStatement`). Quotes that happen to form valid
  SQL, such as a doubled `''` stored as one quote or injected text that
  closes the value and continues the statement, are not modelled.
  Backslash escapes are not modelled.
- ActivityLog.PutViewedRecipes: the user name and type are written into the
  SQL text without escaping; a single quote in them could break or alter
  the statement. The model treats them as plain values and never fails.
- ActivityLog.MarkAsFavorite: as above, a quote in the user name or type is
  not modelled; the append never fails.
- Aggregation.SelectActivity: as above for the user name and the id filter of
  the `getViewedRecipes` SELECT.
- UserRoutes.ViewTypesOf: as above for the id of the type lookup.
- UserRoutes.FavoriteHits: as above for the user name, id and type.
- `NOW()` is a parameter `now`, and `view_at` is an integer.
- `ORDER BY` is a stable sort. MySQL leaves the order of rows with equal keys
  unspecified.
- The `Promise.all` fan-out is modelled as a sequential map, which keeps
  order. Concurrency is not modelled.
- The middleware's handling of an unknown user is left out.
- express-validator's type checks are left out: `isString`, `isInt`,
  `isNumeric`, `isBoolean` and the date checks. Only the length and range
  bounds are modelled.
- UserRoutes.LastViewedRecipes: states only the bound of three previews. Its
  ids and order follow from Aggregation.MostRecentViewsFirst and
  Aggregation.FetchPreviews.
- In full mode the code passes a bucket's whole id array to a single-id
  lookup. A bucket of two or more ids is modelled as a failure
  (`BadStatement` or `UpstreamError`), not as the SQL or HTTP text it would
  produce.
- Strings are sequences of Unicode code points. `isLength` counts code
  points other than U+FE0E and U+FE0F (UserRoutes.IsLengthCount), which is
  the UTF-16 length less one per surrogate pair and one per selector.
- UserRoutes.ViewTypesOf: the SELECT has no ORDER BY, and "the first row"
  is taken in storage (insertion) order; MySQL promises no order there.
- UserRoutes.ResolveType: takes that same first row.
- Aggregation.FavoritesMatching: the favourites SELECT has no ORDER BY, and
  its rows are taken in insertion order; MySQL promises no order there.
- ActivityLog.FavoritesMatchingAppend: relies on the same insertion order.
- Projection.GetRecipes: the SELECT by user has no ORDER BY, and its rows are
  taken in storage order.
- Authoring.IngredientsReadBack: the ingredient SELECT
  (routes/utils/user_utils.js:63) has no ORDER BY; "in order" takes storage
  order to be insertion order.
- Authoring.ReadBackAfterCreate: relies on the same order for the
  ingredients.
- Authoring.ReadBackAfterCreate: requires that no recipe, instruction or
  ingredient row already holds the new id. With the two separate
  AUTO_INCREMENT counters this can fail across the two recipe tables (see
  Findings); Authoring.SharedIdsReadBack states when it holds.
- UserRoutes.CreatePersonalRecipeRoute: runs the create with the ingredient
  columns named (the corrected create). The code's own create is modelled by
  UserRoutes.CreatePersonalRecipeRouteAsWritten.

## Findings

| source | as written | input that shows it | evidently intended | confidence | as-written member | corrected member |
|---|---|---|---|---|---|---|
| routes/utils/user_utils.js:168 | `INSERT INTO ingredients ()` names no columns but supplies four values, so the database rejects every personal ingredient insert. The recipe and instruction rows are already committed. | any personal recipe with at least one ingredient and at least one step | name the columns `(recipe_id, ingredient_name, amount, unitLong)` as the family create does (line 245) | not executed | Authoring.PersonalCreateAsWrittenFails | Authoring.CreatePersonalRecipe |
| routes/utils/user_utils.js:61-64 | `personalrecipes` and `familyrecipes` number their rows with separate counters, but `ingredients` and `instructions` are shared tables selected by `recipe_id` alone. | a family recipe with steps `["a"]` created under id 1, then a personal recipe with steps `["b"]` created under id 1 by the code's own `createPersonalRecipe`: reading the personal recipe gives both steps | draw recipe ids from one sequence shared by both recipe tables, or key the child rows by category as well | not executed | Authoring.CrossCategoryStepsMix | Authoring.SharedIdsReadBack |
