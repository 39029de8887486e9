/** The write-side serializers: recipe payload validation, building and
    replacing a recipe's ingredient rows, follow validation, and the
    `recipes_limit` truncation of an author's recipe list. */
module Serializers {
  import opened Common
  import opened Text
  import opened Models

  // ---- recipe payloads ----

  /** One entry of a payload's `ingredients` list: an ingredient id and its amount. */
  datatype IngredientItem = IngredientItem(id: IngredientId, amount: int)

  /** A recipe payload after field parsing. A list the request left out
      (possible on a partial update) is `None`. */
  datatype RecipePayload = RecipePayload(
    ingredients: Option<seq<IngredientItem>>,
    tags: Option<seq<TagId>>,
    name: string,
    text: string,
    cookingTime: int)

  /** The inclusive range allowed for `amount` and `cooking_time`. */
  datatype Bounds = Bounds(min: int, max: int)

  /** The range the schema's validators use (1 to 32000). */
  const SchemaBounds: Bounds := Bounds(1, 32000)

  datatype RecipeError =
    | InvalidFields         // a field validator refused the value
    | NoIngredients
    | NoTags
    | DuplicateIngredients
    | DuplicateTags

  predicate InBounds(b: Bounds, x: int) {
    b.min <= x <= b.max
  }

  /** `[ingredient['id'] for ingredient in ingredients]`. */
  function IdsOf(items: seq<IngredientItem>): (ids: seq<IngredientId>)
    ensures |ids| == |items|
    ensures forall i :: 0 <= i < |items| ==> ids[i] == items[i].id
    decreases |items|
  {
    if items == [] then [] else [items[0].id] + IdsOf(items[1..])
  }

  /** `len(xs) != len(set(xs))`: true exactly when some element repeats. */
  function HasRepeat<T(==)>(xs: seq<T>): (b: bool)
    ensures b <==> !NoDuplicates(xs)
  {
    DistinctIffSetSize(xs);
    |xs| != |set x | x in xs|
  }

  /** `RecipeCreateUpdateSerializer.validate`: the four checks in their
      order; an accepted payload comes back unchanged. */
  function Validate(p: RecipePayload): (r: Result<RecipePayload, RecipeError>)
    ensures r.Ok? <==>
      && p.ingredients.Some? && p.ingredients.value != []
      && p.tags.Some? && p.tags.value != []
      && NoDuplicates(IdsOf(p.ingredients.value))
      && NoDuplicates(p.tags.value)
    ensures r.Ok? ==> r.value == p
    ensures (p.ingredients.None? || p.ingredients.value == []) ==> r == Err(NoIngredients)
    ensures p.ingredients.Some? && p.ingredients.value != [] && (p.tags.None? || p.tags.value == [])
      ==> r == Err(NoTags)
    ensures r == Err(DuplicateIngredients) <==>
      && p.ingredients.Some? && p.ingredients.value != []
      && p.tags.Some? && p.tags.value != []
      && !NoDuplicates(IdsOf(p.ingredients.value))
    ensures r == Err(DuplicateTags) <==>
      && p.ingredients.Some? && p.ingredients.value != []
      && p.tags.Some? && p.tags.value != []
      && NoDuplicates(IdsOf(p.ingredients.value))
      && !NoDuplicates(p.tags.value)
  {
    if p.ingredients.None? || p.ingredients.value == [] then Err(NoIngredients)
    else if p.tags.None? || p.tags.value == [] then Err(NoTags)
    else if HasRepeat(IdsOf(p.ingredients.value)) then Err(DuplicateIngredients)
    else if HasRepeat(p.tags.value) then Err(DuplicateTags)
    else Ok(p)
  }

  /** What the field serializers check before `validate` runs: `cooking_time`
      and every `amount` within the bounds, every tag an existing one. */
  predicate FieldsValid(p: RecipePayload, b: Bounds, knownTags: set<TagId>) {
    && InBounds(b, p.cookingTime)
    && (p.ingredients.Some? ==> forall it :: it in p.ingredients.value ==> InBounds(b, it.amount))
    && (p.tags.Some? ==> forall t :: t in p.tags.value ==> t in knownTags)
  }

  /** The whole validation of a recipe payload: field validators first, then `validate`. */
  function CheckPayload(p: RecipePayload, b: Bounds, knownTags: set<TagId>): (r: Result<RecipePayload, RecipeError>)
    ensures !FieldsValid(p, b, knownTags) ==> r == Err(InvalidFields)
    ensures r.Ok? ==> r.value == p && Validate(p).Ok?
    ensures r.Ok? ==>
      && InBounds(b, p.cookingTime)
      && (forall it :: it in p.ingredients.value ==> InBounds(b, it.amount))
      && (forall t :: t in p.tags.value ==> t in knownTags)
    ensures FieldsValid(p, b, knownTags) ==> r == Validate(p)
  {
    if !FieldsValid(p, b, knownTags) then Err(InvalidFields) else Validate(p)
  }

  /** Under the schema's bounds, a cooking time outside 1..32000 is refused
      before `validate` runs. */
  lemma SchemaBoundsCookingTime(p: RecipePayload, knownTags: set<TagId>)
    requires p.cookingTime < 1 || p.cookingTime > 32000
    ensures CheckPayload(p, SchemaBounds, knownTags) == Err(InvalidFields)
  {
    assert !InBounds(SchemaBounds, p.cookingTime);
  }

  /** A payload with a repeated ingredient id is refused however the rest looks. */
  lemma RepeatedIngredientRejected(p: RecipePayload, b: Bounds, knownTags: set<TagId>, i: nat, j: nat)
    requires p.ingredients.Some? && i < j < |p.ingredients.value|
    requires p.ingredients.value[i].id == p.ingredients.value[j].id
    ensures CheckPayload(p, b, knownTags).Err?
  {
    assert IdsOf(p.ingredients.value)[i] == IdsOf(p.ingredients.value)[j];
  }

  /** The tag set a list of tag ids sets (`recipe.tags.set(tags)`). */
  function TagSet(tags: seq<TagId>): (s: set<TagId>)
    ensures forall t :: t in s <==> t in tags
  {
    set t | t in tags
  }

  /** A validated payload loses no tag on the way into the set: the recipe
      gets as many tags as the payload lists. */
  lemma ValidatedTagsCount(p: RecipePayload)
    requires Validate(p).Ok?
    ensures |TagSet(p.tags.value)| == |p.tags.value|
  {
    DistinctIffSetSize(p.tags.value);
    assert TagSet(p.tags.value) == set x | x in p.tags.value;
  }

  // ---- ingredient rows ----

  /** `recipe_ingredient_create`: one join row per payload item, in payload
      order, carrying the item's id and amount and the target recipe. */
  function BuildRows(items: seq<IngredientItem>, recipe: RecipeId): (rows: seq<RecipeIngredient>)
    ensures |rows| == |items|
    ensures forall i :: 0 <= i < |items| ==>
      rows[i] == RecipeIngredient(recipe, items[i].id, items[i].amount)
    decreases |items|
  {
    if items == [] then []
    else [RecipeIngredient(recipe, items[0].id, items[0].amount)] + BuildRows(items[1..], recipe)
  }

  /** Reading the items back from join rows. */
  function ItemsOf(rows: seq<RecipeIngredient>): (items: seq<IngredientItem>)
    ensures |items| == |rows|
    decreases |rows|
  {
    if rows == [] then [] else [IngredientItem(rows[0].ingredient, rows[0].amount)] + ItemsOf(rows[1..])
  }

  /** The rows built for a payload give the payload's items back, so nothing
      of the payload is lost or reordered. */
  lemma {:induction false} ItemsOfBuildRows(items: seq<IngredientItem>, recipe: RecipeId)
    ensures ItemsOf(BuildRows(items, recipe)) == items
    decreases |items|
  {
    if items != [] {
      ItemsOfBuildRows(items[1..], recipe);
      assert BuildRows(items, recipe)[1..] == BuildRows(items[1..], recipe);
    }
  }

  function RecipeIs(r: RecipeId): RecipeIngredient -> bool {
    (x: RecipeIngredient) => x.recipe == r
  }

  /** The join rows of recipe `r`, in table order. */
  function RowsOf(rows: seq<RecipeIngredient>, r: RecipeId): (s: seq<RecipeIngredient>)
    ensures forall x :: x in s <==> x in rows && x.recipe == r
  {
    Filter(rows, RecipeIs(r))
  }

  /** Rows built for recipe `recipe` from items with distinct ids clash nowhere. */
  lemma BuildRowsUnique(items: seq<IngredientItem>, recipe: RecipeId)
    requires NoDuplicates(IdsOf(items))
    ensures UniqueIngredientPerRecipe(BuildRows(items, recipe))
  {
    var rows := BuildRows(items, recipe);
    forall i, j | 0 <= i < j < |rows|
      ensures rows[i].recipe != rows[j].recipe || rows[i].ingredient != rows[j].ingredient
    {
      assert rows[i].ingredient == IdsOf(items)[i] && rows[j].ingredient == IdsOf(items)[j];
    }
  }

  /** Appending rows of a recipe the table has no row of keeps the pairs unique. */
  lemma UniqueAppendFresh(a: seq<RecipeIngredient>, b: seq<RecipeIngredient>, r: RecipeId)
    requires UniqueIngredientPerRecipe(a) && UniqueIngredientPerRecipe(b)
    requires forall x :: x in a ==> x.recipe != r
    requires forall x :: x in b ==> x.recipe == r
    ensures UniqueIngredientPerRecipe(a + b)
  {
    var c := a + b;
    forall i, j | 0 <= i < j < |c|
      ensures c[i].recipe != c[j].recipe || c[i].ingredient != c[j].ingredient
    {
      if j < |a| {
        assert c[i] == a[i] && c[j] == a[j];
      } else if i < |a| {
        assert c[i] in a && c[j] in b;
      } else {
        assert c[i] == b[i - |a|] && c[j] == b[j - |a|];
      }
    }
  }

  /** Filtering twice by recipe: the outer test decides. */
  lemma {:induction false} RowsOfNotOf(rows: seq<RecipeIngredient>, gone: RecipeId, r: RecipeId)
    requires r != gone
    ensures RowsOf(RowsNotOf(rows, {gone}), r) == RowsOf(rows, r)
    decreases |rows|
  {
    if rows != [] {
      RowsOfNotOf(rows[1..], gone, r);
    }
  }

  /** Replacing a recipe's rows (delete, then append the built rows): the
      recipe's rows are exactly the built ones, nothing merged, and every
      other recipe keeps its rows as they were. */
  lemma ReplaceRows(rows: seq<RecipeIngredient>, id: RecipeId, items: seq<IngredientItem>)
    ensures RowsOf(RowsNotOf(rows, {id}) + BuildRows(items, id), id) == BuildRows(items, id)
    ensures forall r :: r != id ==>
      RowsOf(RowsNotOf(rows, {id}) + BuildRows(items, id), r) == RowsOf(rows, r)
  {
    var kept, built := RowsNotOf(rows, {id}), BuildRows(items, id);
    FilterConcat(kept, built, RecipeIs(id));
    FilterNone(kept, RecipeIs(id));
    FilterAll(built, RecipeIs(id));
    forall r | r != id
      ensures RowsOf(kept + built, r) == RowsOf(rows, r)
    {
      FilterConcat(kept, built, RecipeIs(r));
      FilterNone(built, RecipeIs(r));
      RowsOfNotOf(rows, id, r);
    }
  }

  /** `recipe_ingredient_create`: the bulk insert of the rows built for the
      items, into a recipe that has no join row yet. It fails, inserting
      nothing, when an item names an ingredient outside the catalog. */
  method RecipeIngredientCreate(store: Store, items: seq<IngredientItem>, id: RecipeId) returns (ok: bool)
    requires store.Valid()
    requires id in store.recipes
    requires NoDuplicates(IdsOf(items))
    requires forall x :: x in store.recipeIngredients ==> x.recipe != id
    modifies store
    ensures store.Valid()
    ensures ok <==> forall it :: it in items ==> it.id in store.ingredients
    ensures store.recipeIngredients ==
      old(store.recipeIngredients) + (if ok then BuildRows(items, id) else [])
    ensures store.users == old(store.users) && store.recipes == old(store.recipes)
    ensures store.favorites == old(store.favorites) && store.cart == old(store.cart)
    ensures store.follows == old(store.follows)
  {
    var rows := BuildRows(items, id);
    BuildRowsUnique(items, id);
    UniqueAppendFresh(store.recipeIngredients, rows, id);
    ok := store.BulkCreateRecipeIngredients(rows);
    BuiltRowsKeys(items, id, store.ingredients);
  }

  /** `RecipeCreateUpdateSerializer.create`: the recipe row with the next key
      and the caller as author, its tag set, then the bulk insert of its
      join rows. Without a transaction the recipe stays when the insert
      fails on an unknown ingredient id. */
  method CreateRecipe(store: Store, author: UserId, data: RecipePayload) returns (id: RecipeId, rowsInserted: bool)
    requires store.Valid()
    requires author in store.users
    requires Validate(data).Ok?
    requires forall t :: t in data.tags.value ==> t in store.tags
    modifies store
    ensures store.Valid()
    ensures id !in old(store.recipes)
    ensures store.recipes ==
      old(store.recipes)[id := Recipe(author, data.name, data.text, data.cookingTime, TagSet(data.tags.value))]
    ensures rowsInserted <==> forall it :: it in data.ingredients.value ==> it.id in store.ingredients
    ensures store.recipeIngredients ==
      old(store.recipeIngredients) + (if rowsInserted then BuildRows(data.ingredients.value, id) else [])
    ensures store.users == old(store.users)
    ensures store.favorites == old(store.favorites) && store.cart == old(store.cart)
    ensures store.follows == old(store.follows)
  {
    ghost var before, known := store.recipeIngredients, store.recipes;
    var created := store.CreateRecipe(author, data.name, data.text, data.cookingTime);
    id := created.value;
    assert forall x :: x in before ==> x.recipe in known;
    assert store.recipes[id].author == author;
    store.SetRecipeFields(id, data.name, data.text, data.cookingTime, TagSet(data.tags.value));
    rowsInserted := RecipeIngredientCreate(store, data.ingredients.value, id);
  }

  /** The built rows name only catalog ingredients exactly when every item does. */
  lemma BuiltRowsKeys(items: seq<IngredientItem>, id: RecipeId, catalog: map<IngredientId, Ingredient>)
    ensures (forall x :: x in BuildRows(items, id) ==> x.ingredient in catalog)
      <==> (forall it :: it in items ==> it.id in catalog)
  {
    var rows := BuildRows(items, id);
    if forall x :: x in rows ==> x.ingredient in catalog {
      forall it | it in items ensures it.id in catalog {
        var i :| 0 <= i < |items| && items[i] == it;
        assert rows[i] in rows;
      }
    }
    if forall it :: it in items ==> it.id in catalog {
      forall x | x in rows ensures x.ingredient in catalog {
        var i :| 0 <= i < |rows| && rows[i] == x;
        assert items[i] in items;
      }
    }
  }

  /** `RecipeCreateUpdateSerializer.update`: every join row of the recipe is
      deleted, the recipe's columns and tag set are saved, and the payload's
      rows are bulk-inserted. Without a transaction the deletion and the
      saved columns stay when the insert fails on an unknown ingredient id. */
  method UpdateRecipe(store: Store, id: RecipeId, data: RecipePayload) returns (rowsInserted: bool)
    requires store.Valid()
    requires id in store.recipes
    requires Validate(data).Ok?
    requires forall t :: t in data.tags.value ==> t in store.tags
    modifies store
    ensures store.Valid()
    ensures store.recipes == old(store.recipes)[id :=
      Recipe(old(store.recipes)[id].author, data.name, data.text, data.cookingTime, TagSet(data.tags.value))]
    ensures rowsInserted <==> forall it :: it in data.ingredients.value ==> it.id in store.ingredients
    ensures store.recipeIngredients == RowsNotOf(old(store.recipeIngredients), {id})
      + (if rowsInserted then BuildRows(data.ingredients.value, id) else [])
    ensures store.users == old(store.users)
    ensures store.favorites == old(store.favorites) && store.cart == old(store.cart)
    ensures store.follows == old(store.follows)
  {
    store.DeleteRecipeIngredients(id);
    store.SetRecipeFields(id, data.name, data.text, data.cookingTime, TagSet(data.tags.value));
    rowsInserted := RecipeIngredientCreate(store, data.ingredients.value, id);
  }

  // ---- follows ----

  datatype FollowError = SelfFollow | AlreadyFollowing

  /** `FollowCreateSerializer.validate`: a self-follow is refused first, then
      a pair that already exists; otherwise the pair comes back unchanged. */
  function ValidateFollow(user: UserId, author: UserId, follows: seq<Follow>): (r: Result<Follow, FollowError>)
    ensures user == author ==> r == Err(SelfFollow)
    ensures user != author && Follow(user, author) in follows ==> r == Err(AlreadyFollowing)
    ensures r.Ok? <==> user != author && Follow(user, author) !in follows
    ensures r.Ok? ==> r.value == Follow(user, author)
  {
    if user == author then Err(SelfFollow)
    else if Follow(user, author) in follows then Err(AlreadyFollowing)
    else Ok(Follow(user, author))
  }

  /** A follow the validation accepts can be inserted without breaking the
      table's constraints. */
  lemma ValidatedFollowKeepsTable(follows: seq<Follow>, users: map<UserId, string>, user: UserId, author: UserId)
    requires FollowsValid(follows, users)
    requires user in users && author in users
    requires ValidateFollow(user, author, follows).Ok?
    ensures FollowsValid(follows + [ValidateFollow(user, author, follows).value], users)
  {
    NoDuplicatesAppend(follows, Follow(user, author));
  }

  // ---- recipes_limit ----

  datatype LimitError = NegativeLimit   // the queryset refuses a negative slice bound

  function Min(a: int, b: int): int {
    if a <= b then a else b
  }

  /** `FollowSerializer.get_recipes`: the author's recipes, cut to the first
      `int(recipes_limit)` when the parameter is present, non-empty and parses;
      a `ValueError` from `int()` is swallowed and leaves the whole list. */
  function GetRecipes<T>(recipes: seq<T>, recipesLimit: Option<string>): (r: Result<seq<T>, LimitError>)
    ensures r.Ok? ==> r.value <= recipes
    ensures (recipesLimit.None? || recipesLimit == Some("")) ==> r == Ok(recipes)
    ensures recipesLimit.Some? && ParsePyInt(recipesLimit.value).None? ==> r == Ok(recipes)
    ensures r.Err? <==>
      && recipesLimit.Some? && recipesLimit.value != ""
      && ParsePyInt(recipesLimit.value).Some? && ParsePyInt(recipesLimit.value).value < 0
    ensures
      && recipesLimit.Some? && recipesLimit.value != ""
      && ParsePyInt(recipesLimit.value).Some? && ParsePyInt(recipesLimit.value).value >= 0
      ==> r == Ok(recipes[..Min(ParsePyInt(recipesLimit.value).value, |recipes|)])
  {
    if recipesLimit.None? || recipesLimit.value == "" then Ok(recipes)
    else match ParsePyInt(recipesLimit.value)
      case None => Ok(recipes)
      case Some(n) => if n < 0 then Err(NegativeLimit) else Ok(recipes[..Min(n, |recipes|)])
  }

  /** With `recipes_limit` the decimal form of `n`, the result is the first
      `n` recipes (all of them when there are fewer). */
  lemma GetRecipesLimited<T>(recipes: seq<T>, n: nat)
    ensures GetRecipes(recipes, Some(NatToDecimal(n))) == Ok(recipes[..Min(n, |recipes|)])
    ensures |GetRecipes(recipes, Some(NatToDecimal(n))).value| == Min(n, |recipes|)
  {
    ParseDecimalRoundTrip(n);
  }

  predicate IsLetter(c: char) {
    ('a' <= c <= 'z') || ('A' <= c <= 'Z')
  }

  /** A limit holding a letter is not a numeral, so the whole list comes back. */
  lemma GetRecipesNonNumeric<T>(recipes: seq<T>, s: string, k: nat)
    requires k < |s| && IsLetter(s[k])
    ensures GetRecipes(recipes, Some(s)) == Ok(recipes)
  {
    var t := StripSpace(s);
    assert !IsPySpace(s[k]);
    StripSpaceKeeps(s, k);
    var body := if t[0] == '-' || t[0] == '+' then t[1..] else t;
    assert s[k] in body by {
      var i :| 0 <= i < |t| && t[i] == s[k];
      if t[0] == '-' || t[0] == '+' {
        assert i > 0;
        assert body[i - 1] == s[k];
      }
    }
    assert !IsNumeral(body);
  }
}
