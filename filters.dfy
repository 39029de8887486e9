/** The query filters of the recipe and ingredient lists. A queryset is a
    sequence of rows in queryset order; a filter keeps some of them. */
module Filters {
  import opened Common
  import opened Models

  function InListTest(u: UserId, table: seq<UserRecipe>): RecipeId -> bool {
    (r: RecipeId) => UserRecipe(u, r) in table
  }

  /** `filter_by_shopping_cart` (over the shopping-list table) and
      `filter_by_favorited` (over the favorites table): with the flag set and
      a signed-in user, the recipes of the queryset that are in that user's
      list; otherwise the queryset itself. `user` is `None` for an anonymous
      request. */
  function FilterByUserList(recipes: seq<RecipeId>, value: bool, user: Option<UserId>, table: seq<UserRecipe>)
    : (r: seq<RecipeId>)
    ensures value && user.Some? ==>
      forall x :: x in r <==> x in recipes && UserRecipe(user.value, x) in table
    ensures !(value && user.Some?) ==> r == recipes
  {
    if value && user.Some? then Filter(recipes, InListTest(user.value, table)) else recipes
  }

  /** The filtered queryset is part of the input: the kept recipes stay in
      their order and none of them occurs more often than in the input. */
  lemma FilterByUserListSubsequence(recipes: seq<RecipeId>, value: bool, user: Option<UserId>, table: seq<UserRecipe>)
    ensures IsSubsequence(FilterByUserList(recipes, value, user, table), recipes)
    ensures forall x :: multiset(FilterByUserList(recipes, value, user, table))[x] <= multiset(recipes)[x]
  {
    if value && user.Some? {
      var p := InListTest(user.value, table);
      FilterIsSubsequence(recipes, p);
      forall x ensures multiset(Filter(recipes, p))[x] <= multiset(recipes)[x] {
        FilterMultiplicity(recipes, p, x);
      }
    } else {
      SubsequenceOfSelf(recipes);
    }
  }

  lemma {:induction false} SubsequenceOfSelf<T>(s: seq<T>)
    ensures IsSubsequence(s, s)
    decreases |s|
  {
    if s != [] {
      SubsequenceOfSelf(s[1..]);
    }
  }

  /** Applying the filter twice gives what applying it once gives. */
  lemma FilterByUserListIdempotent(recipes: seq<RecipeId>, value: bool, user: Option<UserId>, table: seq<UserRecipe>)
    ensures FilterByUserList(FilterByUserList(recipes, value, user, table), value, user, table)
      == FilterByUserList(recipes, value, user, table)
  {
    if value && user.Some? {
      var once := FilterByUserList(recipes, value, user, table);
      FilterAll(once, InListTest(user.value, table));
    }
  }

  /** Python's `str.startswith`: compares characters exactly, no case folding. */
  predicate StartsWith(s: string, prefix: string) {
    |prefix| <= |s| && s[..|prefix|] == prefix
  }

  function NameStartsWith(query: string): Ingredient -> bool {
    (i: Ingredient) => StartsWith(i.name, query)
  }

  /** `IngredientFilter.name` (`lookup_expr='startswith'`): an empty or
      absent query leaves the queryset as it is; otherwise the ingredients
      whose name starts with the query, in queryset order. `query` is the
      value after form cleaning: the form field strips surrounding
      whitespace, so a query of blanks only arrives here as `Some("")`. */
  function IngredientNameFilter(ingredients: seq<Ingredient>, query: Option<string>): (r: seq<Ingredient>)
    ensures (query.None? || query == Some("")) ==> r == ingredients
    ensures query.Some? && query.value != "" ==>
      forall i :: i in r <==> i in ingredients && StartsWith(i.name, query.value)
  {
    if query.None? || query.value == "" then ingredients
    else Filter(ingredients, NameStartsWith(query.value))
  }

  /** The name filter keeps input order. */
  lemma IngredientNameFilterSubsequence(ingredients: seq<Ingredient>, query: Option<string>)
    ensures IsSubsequence(IngredientNameFilter(ingredients, query), ingredients)
  {
    if query.None? || query.value == "" {
      SubsequenceOfSelf(ingredients);
    } else {
      FilterIsSubsequence(ingredients, NameStartsWith(query.value));
    }
  }

  /** `startswith` compares characters exactly, so a lower-case query does not
      find a capitalised name. A database whose `LIKE` ignores ASCII case
      (SQLite) would find it; the model follows the exact comparison. */
  lemma IngredientNameFilterCaseSensitive()
    ensures IngredientNameFilter([Ingredient("Salt", "g")], Some("s")) == []
  {
    var salt := Ingredient("Salt", "g");
    assert !StartsWith(salt.name, "s") by {
      assert salt.name[..1] == "S";
    }
    FilterNone([salt], NameStartsWith("s"));
  }
}
