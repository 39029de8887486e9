# foodgram backend — a verified model

foodgram is a recipe-sharing service. Users publish recipes made of catalog
ingredients with amounts. They mark recipes as favorites, put recipes on a
shopping list, follow other authors, and download the shopping list. The list
is a text file that sums each ingredient over every recipe on it.

This project models the request core of the Django backend in Dafny:

- **Common** and **Text**: the vocabulary of the model.
  - Ordered filtering of a queryset.
  - `"\n".join` and `split("\n")`.
  - `str(int)` and `int(str)` as Python defines them for base 10.
- **Models**: the relational store as a class `Store`.
  - Tables: users, recipes, recipe–ingredient join rows, favorites, the shopping list, follows.
  - The schema's constraints are its invariant `Valid()`: unique pairs, no self-follow, unique e-mail, foreign keys.
  - Cascading deletes.
  - One method per database write the views and serializers perform.
- **ShoppingList**: `download_shopping_cart`.
  - The join of the shopping list's recipes with their ingredient rows.
  - The `values(name, unit).annotate(Sum('amount'))` grouping.
  - The rendered file.
- **Serializers**: the recipe serializer.
  - Validation: field bounds and the four checks of `validate`.
  - `recipe_ingredient_create`, `create` and `update`.
  - Follow validation.
  - The `recipes_limit` truncation of an author's recipe list.
- **Filters**: the recipe filters and the ingredient filter.
  - The recipe filters: `is_in_shopping_cart` and `is_favorited`.
  - The ingredient filter: the `name` prefix filter.
- **Views**: the request handlers.
  - The shopping-list download.
  - The favorite and shopping-cart actions.
  - Subscribing to an author.

The signed-in user and the request's parameters become arguments. The
database becomes the `Store` object.

### How parts of the system are modelled

- **Aggregate order.** The grouping query has no `order_by`, so the database
  decides the order of its groups. The model takes first appearance among the
  rows. Every stated property is per group or counts groups as a multiset:
  - `AggregateMembers` and `AggregateCount`.
  - `AggregatePermutation` and `ExportPermutation`.
- **Unique (user, recipe) pair.** Inserting a pair that already exists raises
  `IntegrityError`, which the views do not catch. This is modelled as a 500
  response with the table unchanged.
- **`FavoriteRecipeSerializer`.** The views import it, but `api/serializers.py`
  does not define it. Its verdict is the parameter `serializerValid`.
- **The second `super().update`.** `update` calls `super().update` twice with
  the same validated data. Both calls write the same values, so the model
  saves the fields once.
- **Negative `recipes_limit`.** The Django version in use (3.2) refuses a
  negative slice on a queryset with an `AssertionError`. The `except
  ValueError` does not catch it, so the request fails. This is modelled as
  `Err(NegativeLimit)`.
- **The amount and cooking-time bounds.** `backend/api/constans.py` is not
  part of this model. The bounds 1 and 32000 come from the validators of the
  same fields in migration 0003 and are the constant `SchemaBounds`.
  `CheckPayload` takes the bounds as a parameter; `SchemaBoundsCookingTime`
  applies it with `SchemaBounds`.

### Behaviour worth knowing

- **Group order.** The aggregate query of `download_shopping_cart` has no
  `order_by` (backend/api/views.py:171-174). The order of the lines after the
  header is therefore left open, as described above.
- **Empty shopping list.** With no groups the code joins a one-element list
  (backend/api/views.py:183), so the file is the header alone, with no newline
  after it. See `ShoppingList.Export` and `ExportNoTrailingNewline`.
- **Ingredient search.** The name filter uses the `startswith` lookup
  (backend/api/filters.py:39), which does no case folding of its own. See
  `IngredientNameFilterCaseSensitive`. Whether the database folds ASCII case
  in `LIKE` (SQLite does) is decided by the database, which is not part of
  this model.
- **Updates without a transaction.** `update` (backend/api/serializers.py:204-209)
  runs without a transaction:
  - The old join rows are deleted and the fields saved first.
  - A bulk insert that then fails on an unknown ingredient leaves the recipe without rows.
  - See `UpdateRecipe` and `CreateRecipe`.
- **Duplicate favorites.** A second POST for the same (user, recipe) pair reaches
  the unique constraint unless the favorite serializer refuses it first. The
  constraint then fails with a 500.

## Model

| member | source | states |
|---|---|---|
| Common.Filter | backend/api/filters.py:24 | a queryset filter keeps exactly the rows satisfying the test, and keeps a table free of duplicates |
| Common.FilterIsSubsequence | backend/api/filters.py:24 | filtering keeps the kept rows in their original order |
| Common.FilterMultiplicity | backend/api/filters.py:24 | a kept row occurs as often as in the input, a dropped one never |
| Common.DistinctIffSetSize | backend/api/serializers.py:171 | `len(s) == len(set(s))` holds exactly when no element repeats |
| Text.JoinLines | backend/api/views.py:183 | joining no parts gives "" and joining one part gives that part, with no separator added |
| Text.SplitJoinLines | backend/api/views.py:183 | splitting the joined text on newlines gives the parts back when none holds a newline |
| Text.JoinLinesEndsWithLast | backend/api/views.py:183 | the joined text ends with the last part, so no separator trails it |
| Text.NatToDecimalDigits | backend/api/views.py:180 | `str(n)` is all decimal digits, denotes n, and has no leading zero |
| Text.IntToDecimalSingleLine | backend/api/views.py:180 | the formatted amount holds no newline |
| Text.StripSpace | backend/api/serializers.py:249 | `int()` trims surrounding ASCII blanks only (space, tab, newline, carriage return, vertical tab, form feed): the result is the input with a leading and a trailing run of blanks cut off, has no blank at either end, and is the input when it has no blank |
| Text.StripSpaceKeeps | backend/api/serializers.py:249 | every non-blank character of the input survives the trim |
| Text.DropUnderscores | backend/api/serializers.py:249 | the digit separators are removed, leaving digits only, and a plain digit string is unchanged |
| Text.DropUnderscoresIsFilter | backend/api/serializers.py:249 | removing the separators keeps every digit, in order: it is the filter that drops `_` |
| Text.ParsePyInt | backend/api/serializers.py:249 | `int()` refuses a blank string and reads a plain digit string as its decimal value |
| Text.ParsePyIntBlankBefore | backend/api/serializers.py:249 | a blank in front of the limit does not change what `int()` reads |
| Text.ParsePyIntLeadingZero | backend/api/serializers.py:249 | `int()` reads a digit string with a leading zero as the same value |
| Text.ParsePyIntInnerBlank | backend/api/serializers.py:249 | `int()` refuses two digit runs separated by a blank |
| Text.ParsePyIntFileSeparator | backend/api/serializers.py:249-250 | `int()` refuses digits after U+001C, which it does not skip, so such a limit leaves the whole list |
| Text.IntToDecimal | backend/api/views.py:180 | `str(i)` is never empty and starts with `-` exactly for a negative `i` |
| Text.ParseDecimalRoundTrip | backend/api/serializers.py:249 | `int(str(i)) == i` for every integer i |
| Models.Without | backend/api/views.py:162 | `filter(...).delete()` removes exactly the given row and keeps the table free of duplicates |
| Models.WithoutAbsent | backend/api/views.py:139 | deleting a row that is not there changes nothing |
| Models.WithoutKeepsOrder | backend/api/views.py:139 | deleting a row keeps the other rows in their order |
| Models.RowsNotOf | backend/api/serializers.py:206 | deleting a recipe's join rows keeps exactly the rows of the other recipes |
| Models.FilterKeepsUniqueIngredients | backend/reviews/migrations/0002_initial.py:66-69 | deleting join rows cannot break the unique (ingredient, recipe) constraint |
| Models.RowsOfKept | backend/reviews/migrations/0002_initial.py:43-47 | the cascade keeps exactly the join rows of surviving recipes |
| Models.ListAfterDelete | backend/reviews/migrations/0002_initial.py:48-57 | the cascade drops the user's own rows and the rows of deleted recipes, and no more |
| Models.FollowsNotInvolving | backend/users/models.py:31-40 | the cascade drops every follow in which the user is follower or author, and no other |
| Models.RowsOfKeptValid | backend/reviews/migrations/0002_initial.py:43-47 | the surviving join rows still point at surviving recipes and stay unique |
| Models.Store.AddUser | backend/users/models.py:7 | a user is inserted exactly when both its key and its e-mail are new, and e-mails stay unique |
| Models.Store.DeleteUser | backend/reviews/migrations/0002_initial.py:18-57 | deleting a user cascades to recipes, join rows, favorites, shopping list and follows, and the schema stays valid |
| Models.Store.CreateRecipe | backend/api/serializers.py:198 | a new recipe row gets a fresh key when its author exists; nothing else changes |
| Models.Store.SetRecipeFields | backend/api/serializers.py:199 | the recipe's columns and tag set are replaced, keeping its author |
| Models.Store.DeleteRecipeIngredients | backend/api/serializers.py:206 | exactly the recipe's join rows are deleted and the schema stays valid |
| Models.Store.BulkCreateRecipeIngredients | backend/api/serializers.py:184-192 | the rows are appended all together exactly when their keys exist and pairs stay unique; otherwise nothing is inserted |
| Models.Store.AddToList | backend/reviews/migrations/0002_initial.py:58-73 | a favorite or cart row is inserted exactly when it is new and its keys exist; the other table is untouched |
| Models.Store.RemoveFromList | backend/api/views.py:139 | exactly the (user, recipe) row is removed from the chosen table, and nothing else changes |
| Models.Store.AddFollow | backend/users/models.py:45-54 | a follow is inserted exactly when the pair is new, not a self-follow, and both users exist |
| Models.Store.RemoveFollow | backend/api/views.py:76-78 | exactly that follow is deleted |
| ShoppingList.JoinCatalog | backend/api/views.py:171-173 | a row joins a join row's recipe and amount with its catalog ingredient's name and unit, exactly when the ingredient is in the catalog; there are exactly as many rows as join rows with a catalog ingredient |
| ShoppingList.JoinCatalogCartSum | backend/api/views.py:171-174 | the summed amount for a (name, unit) is the sum, over the join table, of the amounts of the user's list's rows with that ingredient name and unit, each row counted once |
| ShoppingList.InCart | backend/api/views.py:171-172 | exactly the rows whose recipe is on the user's shopping list are selected |
| ShoppingList.InCartSkips | backend/api/views.py:171-172 | a row of a recipe outside the list is never selected, wherever it stands |
| ShoppingList.AddRows | backend/api/views.py:173-174 | grouping rows into groups keeps keys distinct, adds the rows' keys, and adds each key's amount sum to its total |
| ShoppingList.AddRowKeys | backend/api/views.py:173 | one row adds its key to the groups and keeps the keys distinct |
| ShoppingList.AddRowTotal | backend/api/views.py:174 | one row adds its amount to its own key's total and to no other |
| ShoppingList.Aggregate | backend/api/views.py:171-174 | one group per distinct (name, unit) key of the rows, with total `Sum('amount')` over the rows of that key |
| ShoppingList.AggregateMembers | backend/api/views.py:171-174 | a group is in the result exactly when its key occurs in the rows and its total is that key's sum |
| ShoppingList.AggregateCount | backend/api/views.py:173 | there are exactly as many groups as distinct keys |
| ShoppingList.SumForPermutation | backend/api/views.py:174 | a key's sum does not depend on the order of the rows |
| ShoppingList.AggregatePermutation | backend/api/views.py:171-174 | reordering the input rows can only reorder the groups |
| ShoppingList.Lines | backend/api/views.py:178-182 | one line per group in group order, each formatted as `name: total, unit` |
| ShoppingList.LineSingle | backend/api/views.py:180-181 | a group line holds no newline when the name and unit hold none |
| ShoppingList.Line | backend/api/views.py:180-181 | a line is the ingredient name, `": "`, the total, `", "` and the unit, in that order |
| ShoppingList.LineTotal | backend/api/views.py:180-181 | the field between the name and the unit reads back through `int()` as the group's total |
| ShoppingList.Render | backend/api/views.py:175-183 | the text starts with the header line, and is the header alone exactly when there are no groups |
| ShoppingList.Export | backend/api/views.py:171-183 | the file starts with the header line, and is the header alone exactly when no join row belongs to a recipe of the user's list |
| ShoppingList.RenderSplits | backend/api/views.py:175-183 | splitting the file on newlines gives the header then the group lines |
| ShoppingList.AggregateLines | backend/api/views.py:178-182 | every group line names a key of the rows and carries that key's total |
| ShoppingList.AggregateCoversKeys | backend/api/views.py:171-182 | every key of the rows gets a line carrying the key's sum |
| ShoppingList.ExportLines | backend/api/views.py:171-183 | the file is the header plus one line per distinct ingredient of the user's list: as many lines as keys, every key's line with its summed amount is there, and every line is such a line |
| ShoppingList.RenderNoTrailingNewline | backend/api/views.py:183 | a rendering never ends in a newline |
| ShoppingList.ExportNoTrailingNewline | backend/api/views.py:183 | the exported file never ends in a newline |
| ShoppingList.ExportIgnoresOtherRecipes | backend/api/views.py:171-183 | join rows of recipes outside the list do not change the file |
| ShoppingList.LinesPermutation | backend/api/views.py:178-182 | reordering the groups reorders the lines and changes nothing else |
| ShoppingList.ExportPermutation | backend/api/views.py:171-183 | reordering the join rows can only reorder the lines after the header |
| Serializers.IdsOf | backend/api/serializers.py:170 | the list of ingredient ids, one per item, in item order |
| Serializers.HasRepeat | backend/api/serializers.py:171-178 | the length-vs-set-size test is true exactly when an element repeats |
| Serializers.Validate | backend/api/serializers.py:158-180 | the four checks in source order: no ingredients, no tags, repeated ingredient, repeated tag; a payload passing all comes back unchanged |
| Serializers.CheckPayload | backend/api/serializers.py:120-143 | an amount or cooking time out of bounds, or an unknown tag, is refused before `validate`; a payload whose fields pass gets exactly the verdict of `validate`, so one that also passes `validate` is accepted |
| Serializers.SchemaBoundsCookingTime | backend/reviews/migrations/0003_auto_20240329_1743.py:36-39 | under the schema's bounds a cooking time outside 1..32000 is refused |
| Serializers.RepeatedIngredientRejected | backend/api/serializers.py:170-174 | a payload naming one ingredient twice is always refused |
| Serializers.ValidatedTagsCount | backend/api/serializers.py:175-199 | after `validate` has refused repeated tags, the recipe's tag set has as many tags as the payload lists |
| Serializers.BuildRows | backend/api/serializers.py:183-192 | one join row per item, in order, with the item's id and amount and the target recipe |
| Serializers.ItemsOfBuildRows | backend/api/serializers.py:183-192 | the built rows give back exactly the payload's items |
| Serializers.BuildRowsUnique | backend/api/serializers.py:183-192 | rows built from items with distinct ids keep each (ingredient, recipe) pair unique |
| Serializers.ReplaceRows | backend/api/serializers.py:204-209 | after the update the recipe's rows are exactly the built ones, and every other recipe's rows are unchanged |
| Serializers.RecipeIngredientCreate | backend/api/serializers.py:182-192 | the built rows are inserted exactly when every item names a catalog ingredient; otherwise nothing is inserted |
| Serializers.CreateRecipe | backend/api/serializers.py:194-202 | a new recipe with a fresh key, the caller as author and the payload's fields and tags; its rows are inserted exactly when every ingredient exists |
| Serializers.UpdateRecipe | backend/api/serializers.py:204-209 | the recipe's old rows are deleted, its fields and tags saved, and the new rows inserted exactly when every ingredient exists |
| Serializers.ValidateFollow | backend/api/serializers.py:262-275 | a self-follow is refused first, then an existing pair; otherwise the pair is accepted |
| Serializers.ValidatedFollowKeepsTable | backend/api/serializers.py:262-275 | inserting an accepted follow keeps the follow table's constraints |
| Serializers.GetRecipes | backend/api/serializers.py:243-252 | the result is a prefix of the recipes; an absent, empty or unparsable limit gives all of them; the request fails exactly for a negative limit; a limit `n >= 0` gives the first min(n, count) recipes |
| Serializers.GetRecipesLimited | backend/api/serializers.py:247-249 | with the limit `str(n)`, the first min(n, count) recipes |
| Serializers.GetRecipesNonNumeric | backend/api/serializers.py:247-251 | a limit holding a letter gives the whole list |
| Filters.FilterByUserList | backend/api/filters.py:22-30 | with the flag and a signed-in user, exactly the recipes in that user's list; otherwise the queryset itself |
| Filters.FilterByUserListSubsequence | backend/api/filters.py:22-30 | the filtered queryset keeps input order and adds no occurrences |
| Filters.FilterByUserListIdempotent | backend/api/filters.py:22-30 | filtering twice is filtering once |
| Filters.IngredientNameFilter | backend/api/filters.py:39 | an absent or empty query keeps all ingredients; otherwise exactly those whose name starts with the query |
| Filters.IngredientNameFilterSubsequence | backend/api/filters.py:39 | the name filter keeps catalog order |
| Filters.IngredientNameFilterCaseSensitive | backend/api/filters.py:39 | the prefix match is case-sensitive: "s" does not find "Salt" |
| Views.RenderPurchased | backend/api/views.py:175-183 | the append loop produces the header, one line per group, joined by newlines |
| Views.DownloadShoppingCart | backend/api/views.py:170-189 | the downloaded text is the export of the user's shopping list over the join rows and the catalog |
| Views.ListViewResponseAsWritten | backend/api/views.py:132-140 | DELETE gives 204; a POST the serializer accepts gives 201, or 500 when the insert fails |
| Views.RefusedPostGetsNoResponse | backend/api/views.py:132-140 | a POST the serializer refuses falls through both branches and gets no response |
| Views.ListViewResponse | backend/api/views.py:157-163 | always a response: 400 for a refused POST, the as-written status elsewhere |
| Views.RecipeListAction | backend/api/views.py:117-163 | corrected member of the finding below: 404 for an unknown recipe; a valid POST appends the row (201) or leaves an existing one (500), and either way the recipe is then in the user's shopping list; a refused POST gives 400 with no change; DELETE removes exactly the row (204), so the recipe is no longer in the list; the other tables are untouched |
| Views.Subscribe | backend/api/views.py:61-86 | 404 for an unknown author; POST follows the validation (201 and one appended row, or 400); DELETE removes an existing follow (204) or gives 400 with no change |

## Left out

- Authentication, permissions, djoser's user endpoints and URL routing: framework behaviour. The signed-in user is an argument instead.
- Images (`Base64ImageField`), media storage, the `Content-Disposition` header and content type of the download: no logic of the core.
- Pagination (`CustomPaginator`) and the `subscriptions` list view: framework pagination over a plain filter.
- JSON rendering of responses (`to_representation`, `RecipeListSerializer`, `get_is_subscribed`, `get_is_favorited`, `get_is_in_shopping_cart`): read-only presentation.
- `FavoriteRecipeSerializer`: not defined in the serializers module; its verdict is the parameter `serializerValid`.
- The `author` and `tags` filters of `RecipeFilter`: declarative framework filters with no code of their own.
- Admin pages and the CSV import command: outside the request core.
- `reviews/models.py`: it disagrees with the migrations (other field names and relations). The store follows the migrations, which define the schema the code runs on.
- Serializers.CreateRecipe: does not model the unique (author, name) constraint on recipes (backend/reviews/migrations/0003_auto_20240329_1743.py:64-66), nor the `unique=True` that backend/reviews/migrations/0001_initial.py:41 declares on the recipe name; a second recipe with a name already in use is accepted here, where the code refuses it with a 400 from the unique validator on `name`.
- Serializers.UpdateRecipe: does not model the name check either. Because the recipe name is declared `unique=True` (backend/reviews/models.py:56 and backend/reviews/migrations/0001_initial.py:41), the model serializer gets a unique validator on `name`. A rename onto another recipe's name is therefore refused with a 400 during validation, before `update` runs, and no join row is deleted. A clash on (author, name) is always also a clash on the name, so it never reaches the database either. The model instead accepts the clashing name, saves the fields and replaces the rows.
- Ingredient (name, unit) uniqueness and tag uniqueness: the catalog is fixed and never written by the core.
- Recipe deletion through the recipe view set: a framework `destroy`; its cascade is the same filtering as `Models.Store.DeleteUser` uses.
- Partial updates that leave out `name`, `text` or `cooking_time`: the payload always carries them.
- The `MinValueValidator`s the database model declares: the serializer's bounds are checked first and the model validators are not run on save.
- Serializers.GetRecipes: `int()` is modelled for ASCII blanks and ASCII digits only; Unicode digits and non-ASCII whitespace are not.
- Concurrency: two requests racing past a check into an `IntegrityError` are not modelled.

## Findings

| source | as written | input that shows it | evidently intended | confidence | as-written member | corrected member |
|---|---|---|---|---|---|---|
| backend/api/views.py:132-140 and backend/api/views.py:157-163 | a POST whose serializer is invalid matches neither `if`, so the view returns `None` and the framework fails the request with a server error | POST to the favorite or cart action with data the serializer refuses | a 400 response without a database write | not executed | Views.ListViewResponseAsWritten, Views.RefusedPostGetsNoResponse | Views.ListViewResponse, Views.RecipeListAction |
