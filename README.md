# PraktijkP4 recipe site: a verified model of its logic

PraktijkP4 is a recipe site. Its pages are PHP templates and DOM scripts. A
few pieces of sequential logic sit among them, and this Dafny project models
those pieces and proves what they promise:

- **The recipe store `Wejv`** (`src/lib/wejv.php` and its older copy
  `lib/wejv.php`). It has a listing-query builder and a write side.
  - **`fetchCards`** builds a ranked SELECT and a COUNT query. The inputs are a
    filter map, a search string, a sort code and a page window.
    - `CardQuery` models the construction as structured clause lists. It
      renders the fragments the code splices together to their exact text.
    - `CardEval` is an independent reference reading of the statements on an
      in-memory database. It gives the WHERE clause, match_count, the ranking
      and the LIMIT/OFFSET window.
  - **`trimRow`** post-processes rows (`Rows`).
  - **The write side** (`Store`) works on the relational state (`Tables`):
    - `toggleFavorite` and `isFavorite`;
    - `getOrCreateId`;
    - `fetchInfo`;
    - `deleteRecipe` with its admin-or-author check;
    - `updateRecipe` with its name-based diff of genre and tag links;
    - `insertMenu`.

    These run on a class `Wejv` whose fields are the tables. Each name table
    with its link rows is a class `NameTable`.
- **The JSON controller `src/controllers/menu.php`** (`MenuApi`):
  - favourite toggle and check;
  - the `add_recipe`, `update_recipe` and `delete_recipe` form mappings;
  - the dispatcher with its session gate.
- **The legacy form controller `controllers/menu_controller.php`**
  (`MenuController`):
  - the user and required-field checks;
  - the custom genre and tag loops, which consume custom names first in,
    first out;
  - the image-type whitelist;
  - the insertion.
- **The listing pages `src/js/home.js` and `js/discover.js`**:
  - the pagination window arithmetic of `renderPaginations` (`Pagination`);
  - the card and row loops (`CardGrid`);
  - the favourites and "Van mij" toggles (`FilterToggles`).
- **The detail page `pages/detail.php`** (`Ingredients`): the id guard, and the
  reading of the ingredients column through the pattern
  `^(\d+(?:\.\d+)?)\s+([a-zA-Z]+)\s+(.+)$`.
- **Small helpers**:
  - `verify_name` and `array_to_sql_value` of `lib/utils.php` (`PhpUtils`);
  - `trimString`, the placeholder markup, `addPlaceholderIfEmpty` and `map` of
    `src/js/lib.js`, `js/lib.js` and `js/utils.js` (`JsLib`).

`Strings` holds the shared string semantics:
- explode/implode;
- trimming;
- PHP's `empty()` on strings;
- PHP's `(int)` cast of a string.

`Wrappers` holds `Option` and `Result`.

Modelling choices:
- **Database faults.** A failing statement inside a transaction is an input
  `fault: Option<string>` carrying the exception message. The rollback that
  follows leaves the state as it was.
- **Foreign calls become inputs.** These are image conversion, `json_decode`,
  `base64_encode`, the clock (`ctime`) and the session.
- **JavaScript widths.** The pixel measurements the scripts read are integer
  inputs.
- **`fetchInfo` and "not found".** `fetchInfo` aggregates without GROUP BY, so it
  always yields a row, with every column NULL for a missing recipe. The model
  follows the code:
  - the "Recipe not found" answers of `deleteRecipe` and `updateRecipe` are
    unreachable (`Store.InfoAlwaysRow`);
  - an admin's delete of a missing id succeeds;
  - an update of a missing id links names to that id.

  The code itself intends a failure result for a missing recipe: both
  methods have a "Recipe not found" branch (`src/lib/wejv.php:520-522` and
  `:568-570`), and the update test expects that message
  (`src/test/MenuControllerUpdateTest.php:295`). Because `fetchInfo` always
  returns a row, those branches never run.

## Model

| member | source | states |
|---|---|---|
| CardQuery.SortFrom | src/lib/wejv.php:6-12 | exactly the codes 1..4 name a Sort case, and the case found has that backing value |
| CardQuery.OrderBy | src/lib/wejv.php:90-96 | a known sort code selects its own sort-map entry; any other code falls back to "ctime DESC" |
| CardQuery.OrderBySort | src/lib/wejv.php:90-96 | every Sort case is found again from its value and ordered by its own clause; code 0 orders like CTIME_DESC |
| CardQuery.Lookup | src/lib/wejv.php:100 | a key is found iff the filter map has an entry with that key, and the value returned belongs to such an entry |
| CardQuery.FavUser | src/lib/wejv.php:99-104 | the favourite filter is on iff the fav entry is set and truthy, and its user id is the (int) cast of that entry |
| CardQuery.Categories | src/lib/wejv.php:103-110 | the categories are no more than the filter entries |
| CardQuery.CategoriesOf | src/lib/wejv.php:103-110 | a category is exactly a non-fav entry whose value is a non-empty list; fav and empty values never become one |
| CardQuery.MatchTerms | src/lib/wejv.php:116 | one 0/1 match term per category, in order |
| CardQuery.MatchCountZero | src/lib/wejv.php:120 | the match count is the literal "0" iff there is no category |
| CardQuery.InTerms | src/lib/wejv.php:117 | one IN term per category, in order |
| CardQuery.EscapedBodyReadsBack | src/lib/wejv.php:125 | MySQL reads an escaped string, in front of text that ends the literal, back as exactly that string, with the rest untouched |
| CardQuery.QuoteReadsBack | src/lib/wejv.php:125 | the quoted search literal is one literal whose value is exactly the term; no quote, backslash or newline in the term ends it early |
| CardQuery.CollectTerms | src/lib/wejv.php:106-118 | the foreach succeeds iff every listed value is an array, and then yields exactly the match and IN terms of the categories |
| CardQuery.CategoriesStep | src/lib/wejv.php:110-118 | one more filter entry adds its category only when it is listed, and it stays implodable only if a listed value is a list |
| CardQuery.TermsSnoc | src/lib/wejv.php:116-117 | the terms of one more category are the old terms followed by its own |
| CardQuery.BuildWhere | src/lib/wejv.php:121-149 | the WHERE text built step by step is the rendering of the conjunct list: the OR of the IN terms, the search, the favourite condition |
| CardQuery.BuildQueries | src/lib/wejv.php:88-175 | fetchCards builds its statements iff every listed value is an array, and then they are exactly the plan of the filters |
| CardQuery.Assemble | src/lib/wejv.php:133-175 | the joins, texts and bound parameters are those of the plan for the favourite setting given |
| CardQuery.WhereSnoc | src/lib/wejv.php:126-129 | a condition becomes the whole clause when the clause is empty and is AND-ed on otherwise |
| CardQuery.WhereAppend | src/lib/wejv.php:121-131 | the search condition is AND-ed after the category OR, or becomes the whole clause without categories |
| CardQuery.FavAppend | src/lib/wejv.php:143-149 | the favourite condition comes last, AND-ed onto whatever clause precedes it |
| CardQuery.ClauseTerms | src/lib/wejv.php:116-121 | match_count sums one term per category and is the literal 0 iff no category remains; the WHERE clause opens with the OR of one IN term per category |
| CardQuery.FavJoinIff | lib/wejv.php:137-140 | the fav join is present iff the favourite filter is on; the join uses the schema's fav column (menu_id, or menu_info_id in the older copy) |
| CardQuery.FavColumnIff | src/lib/wejv.php:151-157 | the is_favorite column is selected iff the favourite filter is on |
| CardQuery.FavConditionIff | src/lib/wejv.php:143-149 | the user condition appears iff the filter is on, and is then the last conjunct after the others |
| CardQuery.BindFavIff | src/lib/wejv.php:168-186 | :favUserId is bound in both statements iff the filter is on; :start and :count are bound only in the rows statement |
| CardQuery.FavParts | src/lib/wejv.php:99-154 | the favourite filter is all or nothing: join, column, condition and bound user id appear together or not at all |
| CardQuery.SearchPart | src/lib/wejv.php:124-131 | a non-empty search adds one condition on name, description and author name, whose literal reads back as %term%; without categories it is the whole WHERE |
| CardQuery.NoWhere | src/lib/wejv.php:121-149 | there is no WHERE clause iff there are no categories, no search and no favourite filter |
| CardQuery.CountIgnoresWindow | src/lib/wejv.php:177-188 | the COUNT statement shares FROM, joins, WHERE and the user parameter with the rows statement, and does not depend on start, count or sort |
| CardQuery.RowOrder | src/lib/wejv.php:161-164 | rows are grouped by recipe, ordered by match_count DESC and then the sort-map clause, and windowed by :count and :start |
| CardEval.Options | src/lib/wejv.php:28-34 | a LEFT JOIN side gives every linked id, or one NULL when there is no link |
| CardEval.Product | src/lib/wejv.php:28-34 | the joined rows are exactly the pairs of a genre side and a tag side |
| CardEval.MatchCount | src/lib/wejv.php:157 | match_count never exceeds the number of categories |
| CardEval.MatchCountPositive | src/lib/wejv.php:116-121 | match_count is positive exactly when some category's IN term holds: the sum counts the OR |
| CardEval.MatchCountFull | src/lib/wejv.php:116 | match_count equals the number of categories exactly when every IN term holds |
| CardEval.FirstQualifying | src/lib/wejv.php:160-161 | the row the group reports passes the WHERE clause, and there is none only when no row of the recipe passes |
| CardEval.RowsOf | src/lib/wejv.php:28-34 | a joined row exists exactly when the link tables allow its genre side and its tag side |
| CardEval.IncludedIff | src/lib/wejv.php:99-161 | for categories named genre, tag or author with numeric ids and searches without wildcards, a recipe is listed iff it exists, is the user's favourite when asked, matches a non-empty search, and some joined row matches a category when there are any |
| CardEval.NoFilterListsAll | src/lib/wejv.php:121-149 | with no category, search or favourite filter every recipe is listed |
| CardEval.FavNarrows | src/lib/wejv.php:143-149 | the favourite filter keeps exactly the user's favourites among the recipes listed without it |
| CardEval.GenreCategory | src/lib/wejv.php:112-117 | a lone genre category of numeric ids lists exactly the recipes linked to one of its genre ids |
| CardEval.AuthorCategory | src/lib/wejv.php:114-117 | a lone author category of numeric ids lists exactly the recipes whose author id is listed |
| CardEval.Card | src/lib/wejv.php:151-157 | a card carries its recipe id, a match_count between 1 and the category count when there are categories, and is_favorite = 1 exactly under the favourite filter |
| CardEval.GenreFilterNarrowsGenres | src/lib/wejv.php:155-160 | under a genre filter, GROUP_CONCAT sees only the filtered rows, so a card shows only listed genres |
| CardEval.WeightLeTotal | src/lib/wejv.php:93-94 | the order on collation weights is total, for any collation |
| CardEval.WeightLeTrans | src/lib/wejv.php:93-94 | the order on collation weights is transitive, for any collation |
| CardEval.KeyLeTotal | src/lib/wejv.php:162 | the ORDER BY key order is total for every sort case |
| CardEval.KeyLeTrans | src/lib/wejv.php:162 | the ORDER BY key order is transitive for every sort case |
| CardEval.NameOrderFollowsCollation | src/lib/wejv.php:93-94 | under NAME_ASC a case-insensitive collation puts "appel" before "Banaan", and the binary one puts it after |
| CardEval.InsertPerm | src/lib/wejv.php:162 | inserting an id into a ranking adds exactly that id |
| CardEval.InsertRanked | src/lib/wejv.php:162 | inserting into a ranked list keeps it ranked |
| CardEval.SortIdsRanked | src/lib/wejv.php:162 | the reference sort yields a ranked permutation of its input |
| CardEval.RankedCons | src/lib/wejv.php:162 | a list with one more key in front is ranked iff that key is ranked before every other key and the rest is ranked |
| CardEval.InsertAbove | src/lib/wejv.php:162 | inserting a key that ranks below y keeps y ranked before the whole list |
| CardEval.SortIdsPerm | src/lib/wejv.php:162 | sorting neither adds nor drops an id: the result is a permutation of the input |
| CardEval.PermutationOfSet | src/lib/wejv.php:161-162 | a permutation of the distinct listing of a set lists every member of the set exactly once |
| CardEval.Window | src/lib/wejv.php:163-164 | LIMIT/OFFSET keeps the `count` rows from position `start` on, fewer at the end, none past it |
| CardEval.Cards | src/lib/wejv.php:151-157 | one card per windowed id, in order |
| CardEval.SortedSet | src/lib/wejv.php:161-162 | the ranked listing holds every listed recipe exactly once, in ORDER BY order (names compared by the weights of the given collation) |
| CardEval.RankingIncluded | src/lib/wejv.php:158-162 | the ranking holds only listed recipes, each once, in ORDER BY order under the context's collation of m.name, and all of them |
| CardEval.EvaluateTotal | src/lib/wejv.php:177-188 | total counts every listed recipe once, whatever start and count are |
| CardEval.EvaluateCards | src/lib/wejv.php:163-174 | the data rows are the cards of the window of the ranking, in order |
| CardEval.EvaluateData | src/lib/wejv.php:163-174 | data holds min(count, total - start) cards (none past the end), each of a listed recipe |
| CardEval.EvaluateOrder | src/lib/wejv.php:161-162 | for any collation of m.name, the cards of a page are ranked by match_count and then the sort map, names compared by that collation's weights, and no recipe appears twice |
| Rows.Names | src/lib/wejv.php:428-429 | a falsy concatenation gives []; a truthy one splits into comma-free names that join back to it |
| Rows.TrimRow | src/lib/wejv.php:427-433 | genres/tags/match_count go and genre/tag become lists; other keys are untouched; img is base64-encoded only when non-NULL |
| Rows.TrimRows | lib/wejv.php:425-435 | every row of the result is rewritten in place by trimRow, and only that |
| Rows.EmptyConcat | src/lib/wejv.php:428 | a concatenation of comma-free names is PHP-empty exactly when it is a lone "" or "0" |
| Rows.NamesRoundTrip | src/lib/wejv.php:428-429 | comma-free names other than a lone "" or "0" survive GROUP_CONCAT and explode |
| Rows.LoneZeroNameLost | src/lib/wejv.php:428 | a recipe whose only genre is named "0" reads back with no genre |
| Tables.LinkedIds | src/lib/wejv.php:28-34 | the ids a recipe is linked to are exactly those of its link rows |
| Tables.WithoutMenu | src/lib/wejv.php:540-541 | deleting a recipe's link rows keeps exactly the other recipes' rows |
| Store.ConcatOrder | src/lib/wejv.php:202-203 | GROUP_CONCAT(DISTINCT) lists each linked name exactly once |
| Store.Toggle | src/lib/wejv.php:297-315 | toggling flips membership of the pair and leaves every other pair alone |
| Store.ToggleTwice | src/lib/wejv.php:297-329 | toggling the same pair twice restores the favourites |
| Store.Diff | src/lib/wejv.php:616 | array_diff keeps exactly the elements of the first list that are not in the second: a subsequence of the first list, each kept element as often as it occurs there |
| Store.Unlink | src/lib/wejv.php:615-626 | the DELETE ... JOIN removes exactly the recipe's links whose name is listed, and adds no duplicates |
| Store.UnlinkNames | src/lib/wejv.php:615-626 | after unlinking, the recipe's names are its old names minus the listed ones |
| Store.LinksTo | src/lib/wejv.php:380-384 | one link row per id, in list order |
| Store.LinkedIdsAppend | src/lib/wejv.php:386-391 | the ids linked through appended rows follow the ids already linked |
| Store.LinkedIdsTo | src/lib/wejv.php:380-391 | the rows written for a list of ids link the recipe to exactly those ids, in order |
| Store.AppendedLinks | src/lib/wejv.php:375-411 | a new recipe with rows appended is linked to exactly the listed ids, in order |
| Store.Columns | src/lib/wejv.php:199-203 | the fetchInfo row carries author_id, genres and tags as given |
| Store.InfoAlwaysRow | src/lib/wejv.php:197-216 | fetchInfo's row is never empty; for a missing recipe every column is NULL and both lists are empty |
| Store.InfoAuthorColumn | src/lib/wejv.php:200 | the author_id column is the recipe's author id, or NULL |
| Store.ConcatNames | src/lib/wejv.php:202-213 | with clean names, the names fetchInfo lists are exactly the recipe's linked names |
| Store.InfoGenreNames | src/lib/wejv.php:573 | the existing genres updateRecipe reads are the recipe's linked genre names |
| Store.InfoTagNames | src/lib/wejv.php:574 | the existing tags updateRecipe reads are the recipe's linked tag names |
| Store.AuthorIdOf | src/lib/wejv.php:442-448 | getAuthorId answers iff the user has a user_author row, with the recorded author id |
| Store.NullAuthorAdminOnly | src/lib/wejv.php:524-536 | a recipe without an author can be deleted only by an admin |
| Store.WithoutMenuGone | src/lib/wejv.php:540-541 | no link of the deleted recipe remains |
| Store.WithoutMenuOthers | src/lib/wejv.php:540-541 | every other recipe keeps its links, in order |
| Store.DeleteMenuEffect | src/lib/wejv.php:538-545 | nothing of the deleted recipe remains (row, links, favourites), and every other recipe's row, links and favourites are unchanged |
| Store.Updated | src/lib/wejv.php:579-598 | the row takes the new columns and keeps its author and ctime; img changes only when a new image is given |
| Store.NameTable.constructor | src/lib/wejv.php:494-503 | an empty table whose ids start at 1 |
| Store.NameTable.GetOrCreateId | src/lib/wejv.php:494-503 | an existing name returns its id with nothing changed; a new name gets one new row with the next id; names stay unique |
| Store.NameTable.LinkName | src/lib/wejv.php:604-613 | the recipe's names grow by exactly the name, new rows only link it, and no duplicate link is added |
| Store.NameTable.Relink | src/lib/wejv.php:600-626 | the recipe ends with the submitted names plus its unlisted old names; other recipes' links are untouched; no duplicate links |
| Store.NameTable.AppendLinks | src/lib/wejv.php:375-392 | one link row per id is appended, in list order, and names stay as they were |
| Store.NamesGrow | src/lib/wejv.php:604-613 | linking one name adds exactly that name to the recipe's names |
| Store.Wejv.constructor | src/lib/wejv.php:20-35 | all tables start empty |
| Store.Wejv.ToggleFavorite | src/lib/wejv.php:297-315 | answers true iff the pair was absent; the pair's membership flips and nothing else changes |
| Store.Wejv.GetAuthorId | src/lib/wejv.php:442-448 | the user's author id as recorded, or none without a row |
| Store.Wejv.DeleteRecipe | src/lib/wejv.php:513-549 | id <= 0 gives "Invalid recipe ID" and an unauthorised caller "Not authorized", both with nothing changed; a fault rolls back with "Delete failed: "; otherwise the recipe, its links and favourites go |
| Store.Wejv.MayDelete | src/lib/wejv.php:524-536 | allowed iff the caller is an admin, or the recipe has a non-NULL author id equal to the caller's author id |
| Store.Wejv.RemoveMenu | src/lib/wejv.php:538-545 | the database afterwards is the old one without the recipe, its links and its favourites |
| Store.Wejv.UpdateRecipe | src/lib/wejv.php:558-661 | id <= 0 is refused and a fault rolls back, both with the state unchanged; otherwise the row is updated, the recipe's names become the submitted ones plus unlisted old ones, other recipes' link rows stay, the name tables keep every id and gain only submitted names, and authors, favourites and users are unchanged |
| Store.Wejv.ApplyUpdate | src/lib/wejv.php:579-654 | the row takes the new columns; the recipe's names become the submitted ones plus those it had beyond the listed existing ones; other recipes' links, authors, favourites and users are unchanged; the name tables keep every id and gain only submitted names; duplicate-free link tables stay so |
| Store.LinkedNamesKept | src/lib/wejv.php:600-654 | a recipe whose link rows are unchanged and name existing ids keeps its names while the name table only grows |
| Store.Wejv.InsertMenu | src/lib/wejv.php:351-420 | a new row under the next id, then one genre and one tag link per listed id, in order; a fault rolls back and reports "Failed to insert menu: " |
| Store.UpdateSetsNames | src/lib/wejv.php:600-654 | for an existing recipe with clean names, updateRecipe leaves exactly the submitted names linked |
| MenuApi.ToggleFavoriteAction | src/controllers/menu.php:35-44 | ids <= 0 answer "Invalid user or menu ID" with the store untouched; otherwise the reply is the store's toggle result |
| MenuApi.CheckFavoriteAction | src/controllers/menu.php:46-55 | the invalid-id reply iff an id is <= 0; otherwise whether the pair is a favourite |
| MenuApi.DecodedList | src/controllers/menu.php:133-134 | a falsy decoded value gives [], and a decoded list gives its items |
| MenuApi.RecipeData | src/controllers/menu.php:126-146 | id is the (int) of the posted id or 0; texts are trimmed; counts are cast; ingredients default to ""; genres and tags are decoded lists; no image |
| MenuApi.UpdateRecipeAction | src/controllers/menu.php:123-161 | a failed conversion answers "Invalid image format" and leaves the store untouched; otherwise the store's updateRecipe result with the image added; a failure leaves the store as it was; a save links the recipe to the submitted names plus the linked ones updateRecipe did not read, leaves other recipes' links, keeps the links duplicate-free, lets the name tables only gain submitted names and leaves authors, favourites and users |
| MenuApi.RecipeDataOfCleanForm | src/test/MenuControllerUpdateTest.php:42-89 | a form of decimal numbers and edge-clean texts maps to exactly the record the test expects |
| MenuApi.CleanTrim | src/controllers/menu.php:127-131 | trimming leaves a text without edge white space unchanged |
| MenuApi.GetOrCreateIds | src/controllers/menu.php:82-89 | one id per name, in order, each naming its name; the table only grows, and only by the listed names |
| MenuApi.SaveRecipe | src/controllers/menu.php:90-106 | a fault answers "Failed to insert menu: ..." with the menus and links untouched; otherwise the new id with the recipe stored and one link per submitted name appended in order; the name tables only grow, by submitted names; no other table changes |
| MenuApi.AddRefusal | src/controllers/menu.php:68-81 | "Invalid author" iff author_id < 0; otherwise "Invalid image format" iff the upload failed to convert |
| MenuApi.AddRecipeAction | src/controllers/menu.php:57-108 | a refusal leaves the store untouched; a fault leaves menus and links; otherwise the recipe is inserted with trimmed texts and one link per decoded genre and tag name is appended in order; names only grow, by decoded names; no other table changes |
| MenuApi.AppendedInOrder | src/lib/wejv.php:378-414 | appending a link per looked-up id keeps the old rows first and the submitted order after them |
| MenuApi.DeleteArgs | src/controllers/menu.php:113-116 | a missing id or user_id becomes 0 and a missing role "" |
| MenuApi.DeleteRecipeAction | src/controllers/menu.php:110-121 | success iff id > 0, the caller is authorised and no fault; success deletes the recipe, anything else leaves the store untouched |
| MenuApi.DeleteEmptyBody | src/controllers/menu.php:113-118 | an empty payload gives id 0, user 0 and role "", an id deleteRecipe refuses |
| MenuApi.ClaimedAdmin | src/controllers/menu.php:116 | a payload that names role "admin" is authorised to delete any positive id |
| MenuApi.Handle | src/controllers/menu.php:174-186 | add and update come only from the query-string action; delete from either action |
| MenuApi.RouteGated | src/controllers/menu.php:165-186 | without a session no protected handler runs; with one, or for an unprotected handler, the dispatcher runs as written |
| MenuApi.AddUpdateGated | src/controllers/menu.php:167-183 | add and update are never reached without a session, even as written |
| MenuApi.GateBypass | src/controllers/menu.php:167-185 | as written, query action getFilter with body action deleteRecipe runs the delete without a session; the gated dispatcher refuses it |
| MenuApi.RouteGatedAgrees | src/controllers/menu.php:167-186 | with a session both dispatchers agree; without one, every protected request the original refuses is refused by the gated one too |
| MenuController.AuthorOf | controllers/menu_controller.php:150-160 | an author is found iff the user has a row with a non-NULL, non-zero author id, and it is that id |
| MenuController.FirstUnsupplied | controllers/menu_controller.php:45-51 | every earlier field is supplied and the one found is not |
| MenuController.MissingField | controllers/menu_controller.php:45-51 | the early-exit loop names the first required field that is unset or PHP-empty, or none |
| MenuController.Precheck | controllers/menu_controller.php:20-51 | a missing or non-positive user_id answers "User not authenticated" first; no refusal iff every check passes |
| MenuController.Plan | controllers/menu_controller.php:59-81 | the processed list is no longer than the input, and the names left are a suffix of the custom names |
| MenuController.PlanConsumes | controllers/menu_controller.php:59-81 | the custom names consumed are as many as the 'custom' markers, or all of them when they run out |
| MenuController.PlanKeeps | controllers/menu_controller.php:78-80 | the non-custom ids are kept, in order |
| MenuController.PlanCreates | controllers/menu_controller.php:64-72 | the names created are the truthy consumed names, in order |
| MenuController.RealizesGrow | controllers/menu_controller.php:69-71 | a processed entry stays realised as the table grows |
| MenuController.ProcessRefs | controllers/menu_controller.php:59-81 | each processed entry is the kept id or the id of the consumed custom name; the table grows only by custom names; links are untouched |
| MenuController.ProcessEntry | controllers/menu_controller.php:61-80 | one entry of the loop realizes its plan step: a kept id is passed on, "custom" consumes the next custom name and realizes a created id; only that name can be added to the table |
| MenuController.AppendCreated | controllers/menu_controller.php:67-71 | the id of the name, found or created, is appended, and the table gains at most that name |
| MenuController.Advance | controllers/menu_controller.php:61-80 | a non-custom entry keeps its id and leaves the custom names alone; "custom" consumes at most one custom name |
| MenuController.PlanUnfold | controllers/menu_controller.php:59-81 | the plan of a list is the step of its first entry followed by the plan of the rest on the names left |
| MenuController.RealizedIds | controllers/menu_controller.php:202-221 | the id addGenre returns for a custom name names that genre, for ids up to PHP_INT_MAX |
| MenuController.ImageStep | controllers/menu_controller.php:109-125 | a type outside the whitelist is refused before conversion; a falsy conversion answers "Failed to process image"; no upload gives no image |
| MenuController.Ids | controllers/menu_controller.php:137-138 | one integer id per processed entry, in order |
| MenuController.ProcessBoth | controllers/menu_controller.php:59-105 | genres and tags are each realised against their own table and custom-name queue; tables grow only by custom names; links untouched |
| MenuController.SaveMenu | controllers/menu_controller.php:107-147 | an image refusal or a fault leaves the menus and links untouched; otherwise the recipe is stored under the next id and one link per planned entry is appended in plan order; names only grow, by custom names; no other table changes |
| MenuController.PlanLinked | controllers/menu_controller.php:107-147 | inserting the processed entries as ids links the new recipe once per planned entry, in plan order, to the kept id or to the id created for the custom name |
| MenuController.InsertChecked | controllers/menu_controller.php:127-147 | a rejected image is reported and nothing is written; a fault is reported with both prefixes and leaves the recipes and links; otherwise the recipe is added under the next id with the submitted columns and the ids are linked in order |
| MenuController.AddMenu | controllers/menu_controller.php:19-147 | a refused precheck leaves the store untouched; otherwise the recipe is inserted with the user's author id, linked as SaveMenu states, and a fault leaves menus and links; names only grow, by custom names; no other table changes |
| Pagination.TotalPages | src/js/home.js:492 | the page count is the ceiling of total / 24 |
| Pagination.PageOfItem | src/js/home.js:458-464 | item k is fetched by page k / 24 + 1, which exists |
| Pagination.OnlyPageOfItem | js/discover.js:380-386 | no other page's request covers item k |
| Pagination.PaginationHidden | src/js/home.js:492-499 | the bar is hidden iff everything fits on one page |
| Pagination.WindowShape | src/js/home.js:515-550 | maxVisible lies in [1, totalPages]; ellipsis mode iff totalPages > maxVisible + 2, and then 2 <= start <= end <= totalPages - 1; otherwise 1..totalPages |
| Pagination.CurrentPageInWindow | js/discover.js:431-459 | with room for two numbers the current page is the first, the last, or in the numbered range |
| Pagination.ComputeWindow | src/js/home.js:515-550 | the reassigned width arithmetic computes the window function, and the showFirst-only and showLast-only branches never run |
| Pagination.RenderItems | src/js/home.js:553-630 | the items are the layout: prev (disabled iff on page 1), first and ellipsis, numbers, ellipsis and last, next (disabled iff on the last page) |
| Pagination.RenderPagination | js/discover.js:407-539 | renderPaginations computes the window and appends its layout |
| Pagination.LayoutPages | src/js/home.js:566-627 | page 1 is linked iff start > 1, the last page iff end < totalPages, with the range between |
| Pagination.HeadPages | src/js/home.js:566-580 | the leading part shows page 1 iff the window starts after page 1 |
| Pagination.TailPages | src/js/home.js:605-625 | the trailing part shows the last page iff the window ends before it |
| Pagination.FirstThenRange | src/js/home.js:566-603 | page 1 and then the window range form an increasing list within 1..totalPages, below the last page when the window ends before it |
| Pagination.Sandwich | src/js/home.js:566-627 | the first link, the range and the last link stay increasing and within 1..top |
| Pagination.LinksIncreasing | js/discover.js:475-536 | every linked page exists and appears once, in increasing order |
| Pagination.ActiveIffCurrent | src/js/home.js:568-616 | a link is active iff it is the current page |
| Pagination.NumbersActive | src/js/home.js:590-603 | a numbered link is active iff it is the current page |
| Pagination.CurrentPageShown | src/js/home.js:566-627 | with room for two numbers the current page is shown as the active link |
| Pagination.NumbersContain | src/js/home.js:590-603 | a page inside the numbered range is shown as the active link |
| Pagination.NarrowBarHidesCurrentPage | src/js/home.js:530-546 | with one number visible in ellipsis mode the current page is not linked |
| CardGrid.Indices | src/js/home.js:664-666 | the run of card indices has the expected length |
| CardGrid.RowStart | src/js/home.js:665-672 | the row holding a card starts at a multiple of three, at most three before the card |
| CardGrid.CardCount | src/js/home.js:664-666 | at most 24 cards, no more than the total or the rows received, and as many as the first bound reached |
| CardGrid.GridStep | src/js/home.js:665-672 | a new row holds the next up to three cards |
| CardGrid.FillRow | src/js/home.js:673-676 | the inner loop fills the next row with up to three cards, stopping only when the card count is reached |
| CardGrid.GridRow | src/js/home.js:665-676 | row i of the grid holds the cards from 3i up to the row's end |
| CardGrid.GridLength | src/js/home.js:665 | n cards fill ceil(n/3) rows |
| CardGrid.HomeCardRows | src/js/home.js:664-783 | rows are appended in data order: the grid of min(total, received, 24) cards |
| CardGrid.Reverse | js/discover.js:580-581 | the reverse has each element at the mirrored position |
| CardGrid.DiscoverCardRows | js/discover.js:573-666 | rows inserted at the front come out reversed, each keeping its order |
| CardGrid.ReverseSnoc | js/discover.js:580 | a row inserted last appears first |
| CardGrid.ReversePrefix | js/discover.js:580 | inserting row k at the front of the rows before it gives the reverse of the first k+1 rows |
| CardGrid.IndicesAppend | src/js/home.js:664-783 | consecutive runs of cards join into one run |
| CardGrid.GridShape | src/js/home.js:664-783 | read row by row the grid shows cards 0..n-1 in order; rows hold one to three cards and all but the last hold three |
| CardGrid.CardsShown | js/discover.js:573-666 | both pages show min(total, rows received, 24) cards |
| FilterToggles.SelectFromFlags | src/js/home.js:419-432 | fav is the stored user's id iff favourites are on, author is [author id] iff "Van mij" is on; nothing without a stored user |
| FilterToggles.HomeFilters.constructor | src/js/home.js:3-18 | both flags off, page 1, nothing requested |
| FilterToggles.HomeFilters.RenderContent | src/js/home.js:416 | a request for the page given; flags and the remembered page unchanged |
| FilterToggles.HomeFilters.ClickFavorites | src/js/home.js:159-183 | the flag flips; switching it on switches "Van mij" off; page 1 is requested; the flags stay exclusive |
| FilterToggles.HomeFilters.ClickFromMe | src/js/home.js:907-928 | the flag flips; switching it on switches favourites off; page 1 is requested; the flags stay exclusive |
| FilterToggles.HomeFilters.GoToPage | src/js/home.js:658-662 | the page is remembered and requested; flags unchanged |
| FilterToggles.ExclusiveSelection | src/js/home.js:419-432 | with exclusive flags a request never asks for favourites and own recipes at once |
| FilterToggles.DiscoverFilters.constructor | js/discover.js:17 | the favourites flag starts off |
| FilterToggles.DiscoverFilters.ClickFavorites | js/discover.js:117-131 | the flag flips and nothing is requested |
| Ingredients.DetailTarget | pages/detail.php:6-11 | the page redirects iff the id is missing or its intval is <= 0, and shows only positive ids |
| Ingredients.DetailTargetDecimal | pages/detail.php:6-11 | a positive decimal id up to PHP_INT_MAX is shown; its negation and a missing id redirect |
| Ingredients.SpaceEnd | pages/detail.php:34 | the maximal run of \s characters |
| Ingredients.LetterEnd | pages/detail.php:34 | the maximal run of [a-zA-Z] characters |
| Ingredients.DigitEnd | pages/detail.php:34 | the maximal run of digits |
| Ingredients.AmountEnd | pages/detail.php:34 | group 1 ends within the piece |
| Ingredients.TailEnd | pages/detail.php:34 | the greedy .+ ends after its start without crossing a newline |
| Ingredients.NameStart | pages/detail.php:34 | the second \s+ backtracks to the largest start from which (.+)$ matches, or there is none |
| Ingredients.AmountShape | pages/detail.php:34 | group 1 is digits with an optional fraction |
| Ingredients.MatchSound | pages/detail.php:34-39 | a match is amount, white space, letters, white space, a non-empty name without newline, and at most a final newline |
| Ingredients.MatchComplete | pages/detail.php:34-39 | a piece of that shape is matched with exactly those three groups |
| Ingredients.MatchAt | pages/detail.php:34-39 | with the runs known, the groups are the parts between them |
| Ingredients.SpaceEndOf | pages/detail.php:34 | a maximal run of \s is the one SpaceEnd finds |
| Ingredients.LetterEndOf | pages/detail.php:34 | a maximal letter run is the one LetterEnd finds |
| Ingredients.DigitEndOf | pages/detail.php:34 | a maximal digit run is the one DigitEnd finds |
| Ingredients.AmountEndOf | pages/detail.php:34 | group 1 ends where the amount ends when white space follows it |
| Ingredients.PassendaleKaas | pages/detail.php:33-39 | "100 g passendale kaas" gives amount 100, unit g, name "passendale kaas" |
| Ingredients.ParsePiece | pages/detail.php:30-47 | a piece is skipped iff it is PHP-empty after trimming; a non-matching piece becomes a name-only entry |
| Ingredients.FormatIngredients | pages/detail.php:26-50 | the loop produces exactly the ingredient list of the column |
| Ingredients.FormatPieces | pages/detail.php:29-49 | the foreach over the pieces yields exactly the parsed entries of the kept pieces, in order |
| Ingredients.ReadPiece | pages/detail.php:30-47 | one iteration of the loop body produces exactly the entry the piece parses to, or nothing |
| Ingredients.ParsePiecesStep | pages/detail.php:29-49 | one more piece adds its own entry, if any, after the entries of the earlier pieces |
| Ingredients.CollectAppend | pages/detail.php:29-49 | pieces concatenated give entries concatenated |
| Ingredients.ParsePiecesCount | pages/detail.php:29-49 | one entry per piece that is not empty after trimming |
| Ingredients.IngredientListShape | pages/detail.php:26-50 | the list has one entry per non-empty piece of the ';'-split column |
| Ingredients.TwoIngredients | pages/detail.php:26-50 | two ingredients joined by ';' give their two entries in order, whatever the padding |
| PhpUtils.VerifyName | lib/utils.php:3-9 | an accepted name starts with a word character, has only word characters before its last, and holds no backtick or space |
| PhpUtils.VerifyNameIff | lib/utils.php:3-9 | accepted iff a non-empty word, optionally followed by one newline |
| PhpUtils.VerifyNameTrailingNewline | lib/utils.php:5 | a word followed by one newline is accepted, one followed by two is not |
| PhpUtils.ArrayToSqlValue | lib/utils.php:11-16 | the result is `*` iff the input is ['*'], and empty iff the input is empty |
| PhpUtils.TakeUntil | lib/utils.php:15 | the longest prefix without the given character |
| PhpUtils.TakeUntilOf | lib/utils.php:15 | a name followed by the delimiter reads back as the name |
| PhpUtils.ParseQuotedList | lib/utils.php:15 | the backticked list of backtick-free names reads back as those names |
| PhpUtils.ParseOneName | lib/utils.php:15 | one backticked name without a backtick reads back as that name |
| PhpUtils.ParseNameThen | lib/utils.php:15 | a backticked name followed by ", " and a list reads back as the name in front of that list, and fails iff the list does |
| PhpUtils.SqlValueRoundTrip | lib/utils.php:11-16 | rendering backtick-free names and reading them back gives the list |
| JsLib.TrimString | src/js/lib.js:8-10 | the result is no longer and has no white space at either end |
| JsLib.TrimStringKeepsInterior | js/lib.js:6-8 | only the edge runs go; the interior is kept as it was |
| JsLib.TrimStringIdempotent | js/utils.js:6-8 | trimming twice is trimming once |
| JsLib.TrimStringAllSpace | js/utils.js:6-8 | all-white-space input, a non-breaking space included, gives "" |
| JsLib.EmptyPlaceholder | js/lib.js:14-16 | one constant span carrying the placeholder class |
| JsLib.CountHidden | src/js/lib.js:30-37 | the hidden count is at most the child count |
| JsLib.CountHiddenAll | src/js/lib.js:30-38 | the hidden count equals the child count iff every child is hidden |
| JsLib.FirstPlaceholder | src/js/lib.js:38-48 | the first placeholder child, with none before it |
| JsLib.ApplyCallback | src/js/lib.js:30-37 | the callback runs once on every child, in order |
| JsLib.PlaceholderInsertedIff | js/lib.js:43-53 | a placeholder is put in front iff every child is hidden; otherwise the first placeholder, if any, is removed |
| JsLib.PlaceholderStepToggles | src/js/lib.js:38-48 | the inserted placeholder is visible, so a second call on an all-hidden container removes it again |
| JsLib.Container.constructor | src/js/lib.js:19 | the container holds the children given |
| JsLib.Container.AddPlaceholderIfEmpty | src/js/lib.js:25-48 | the children become the placeholder step applied after the callback |
| JsLib.AddPlaceholderToAll | src/js/lib.js:20-23 | every element of a list is processed in turn and nothing else changes |
| JsLib.Map | src/js/lib.js:76-87 | the callback's results, one per element, in order |
| Strings.Split | pages/detail.php:28 | explode yields at least one piece and no piece contains the separator |
| Strings.JoinSplit | src/lib/wejv.php:428-429 | joining the exploded pieces with the separator gives the string back |
| Strings.SplitJoin | pages/detail.php:28 | exploding pieces free of the separator, once joined, gives the pieces back |
| Strings.SplitLength | pages/detail.php:28 | explode yields one piece more than the separators in the string |
| Strings.TrimUnique | src/controllers/menu.php:60 | trimming removes exactly the white-space runs around a core whose ends are not white space |
| Strings.TrimEdges | src/controllers/menu.php:60 | a trimmed string neither starts nor ends with a trimmed character |
| Strings.TrimIdempotent | src/controllers/menu.php:60 | trimming twice is trimming once |
| Strings.TrimAllSpace | src/controllers/menu.php:60 | a string of trimmed characters only trims to "" |
| Strings.Intval | src/controllers/menu.php:61 | the (int) cast of any string lies between PHP_INT_MIN and PHP_INT_MAX |
| Strings.IntvalDecimal | src/controllers/menu.php:61 | the (int) cast reads a decimal numeral up to PHP_INT_MAX back as its value |
| Strings.IntvalNegative | src/controllers/menu.php:114 | the (int) cast reads "-" and a numeral up to -PHP_INT_MIN as the negative value |
| Strings.IntvalDigits | src/controllers/menu.php:61 | a digit run up to PHP_INT_MAX followed by anything but a digit, a "." or an exponent is read as the run's value; the rest is ignored |
| Strings.IntvalSaturates | src/controllers/menu.php:61 | a decimal numeral above PHP_INT_MAX (and below the double overflow) reads as PHP_INT_MAX |
| Strings.IntvalFraction | src/controllers/menu.php:61 | a numeral followed by "." and any digits reads as the integer part |
| Strings.IntvalExponent | src/controllers/menu.php:61 | "m" + "e" + "k" reads as m times 10^k when that fits |
| Strings.IntvalOneE3 | src/controllers/menu.php:61 | "1e3" reads as 1000, not as 1 |

## Left out

- The DOM, Bootstrap markup, `fetch`, `sessionStorage` and retry timers of the listing pages are not modelled. Only the arithmetic, the loops and the flags are.
- `json_decode`, `base64_encode`, image conversion (`convertToWebP`, GD) and `lastInsertId` are opaque. They appear as inputs or as wrapper constructors (`Rows.Base64`).
- PDO connections, `register`/`login`, `fetchFilters`, `getUserFavorites` and `getAuthorName` are outside this model. So are the GET branches `getFilter`/`getRecipe` and `get_content` of `src/controllers/menu.php`.
- SQL evaluation is a reference reading (`CardEval`), with these limits:
  - it covers numeric category ids and LIKE terms without wildcards;
  - it covers categories named genre, tag and author. Any other name, such as the `prepareTimeGroup` filter the home page sends, makes the statement test a column m.<name>_id. The database schema is not part of this model, so the reading leaves such names out: `CardEval.InCategory` is false for them, and the lemmas require `CardEval.Evaluable`;
  - LIKE collation and case folding are not modelled;
  - MySQL's arbitrary choice of a group's row is fixed to the first qualifying row;
  - the order of equal ORDER BY keys is left open (any ranked order);
  - the collation of `m.name` is a parameter (`CardEval.Collation`, the weight string of a name). Which collation the schema declares, and the weights MySQL derives for it, are not modelled.
- `CardEval.GenreFilterNarrowsGenres`: GROUP_CONCAT order and its length limit are not modelled; the names are a set.
- `get_content` passes `''` as start and count when the request omits them, which PHP rejects for fetchCards' int parameters. Not modelled.
- Faults are modelled as decided before a transaction starts, and any fault rolls the transaction back as a whole. The AUTO_INCREMENT counter is not rolled back in MySQL; the model does not track this.
- `MenuApi.DecodedList`: a truthy decoded JSON value that is not a list is treated as an empty list.
- `MenuApi.AddRecipeAction`: `author_id` is taken as an already decoded `Option<int>`. PHP's loose string comparison with 0 is not modelled.
- `MenuController.ProcessRefs`: `addGenre`/`addTag` exceptions are not modelled. The code catches and logs them and then skips the entry.
- `MenuController.Ids`: a non-numeric kept id is cast with PHP's `(int)`. This approximates the cast MySQL applies when it stores the value.
- `MenuController.AuthorOf`: models the user_author lookup the helper intends. In `lib/wejv.php` the connection `conn` is protected, so `$wejv->conn` in the controller's helper functions raises an Error that `catch (Exception)` does not catch. The model follows the queries, not that fatal error.
- The `REQUEST_METHOD` check, the connection error of `controllers/menu_controller.php` and every `error_log` call are not modelled.
- `$_POST` arrays for genres and tags are modelled as sequences of strings.
- `Pagination.WindowOf` requires `itemWidth > 0`. A zero width divides by zero in JavaScript, giving Infinity or NaN, which is not modelled.
- `JsLib.AddPlaceholderToAll` requires distinct elements. A NodeList never repeats an element; an array with repeats is not modelled.
- `isIterable` and `walk` of `src/js/lib.js` are not modelled. Their guards do not do what their comments say.
- `JsLib.Map`: only array arguments are modelled. In `map`, the guard `!iter && !isIterable(iter)` returns null only for 0 and false. `null` and `undefined` make `isIterable` throw a TypeError, and a string throws on `forEach`.
- `Strings.Intval`: a numeral with a fraction or an exponent is evaluated exactly, then truncated. PHP first rounds it to a 53-bit double, so a value past 2^53, or a fraction within rounding distance of the next integer, can differ in the model. The other two effects of the double are modelled: saturation at PHP_INT_MAX/PHP_INT_MIN, and 0 past the double range.
- `Strings.IntvalDecimal`, `Strings.IntvalNegative`, `Strings.IntvalDigits`: each is stated only within the 64-bit range. `Strings.IntvalSaturates` covers larger numerals.
- `Store.NameTable.GetOrCreateId` and `Store.Wejv.UpdateRecipe` compare names by exact string equality. MySQL's `=` and `IN` use the utf8mb4 collation, which ignores case. So "Pasta" would find "pasta" in MySQL, and the `IN` delete could remove names that array_diff kept. `array_diff` itself is case-sensitive, as modelled.
- `JsLib.FirstPlaceholder` looks only at a container's direct children. `querySelector` also searches deeper descendants; nested placeholders are not modelled.
- `MenuApi.RoleOf`: a role that is not a string reads as "" here. Without strict types, PHP coerces a number or a boolean to a string that is not "admin", which gives the same decision. An array, though, makes the call to `deleteRecipe` raise a TypeError, so nothing is deleted; the model goes on to the author check instead.
- Concurrency is not modelled, for example the read-then-insert race of `getOrCreateId`.
- `Store.UpdateSetsNames`: assumes the recipe's names hold no comma and are not a lone "0" or "". Otherwise the GROUP_CONCAT/explode round trip loses them (`Rows.LoneZeroNameLost`), and those links are not removed.

## Findings

| source | as written | input that shows it | evidently intended | confidence | as-written member | corrected member |
|---|---|---|---|---|---|---|
| src/controllers/menu.php:167-185 | the session gate checks `$_GET['action']` when it is set, but the dispatcher runs `delete_recipe` when the body action is `deleteRecipe` | POST `?action=getFilter` with body `{"action":"deleteRecipe","id":5,"role":"admin"}` and no session | every request that reaches `delete_recipe` needs a logged-in session | high (not executed) | MenuApi.GateBypass | MenuApi.RouteGated |
