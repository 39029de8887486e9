/** The relational store behind the backend: users, recipes, the
    recipe–ingredient join rows, favorites, the shopping list and follows,
    with the integrity constraints the schema declares (unique pairs, no
    self-follow, unique e-mail, foreign keys with cascading deletes). */
module Models {
  import opened Common

  type UserId = nat
  type RecipeId = nat
  type IngredientId = int
  type TagId = nat

  /** A row of the ingredient catalog. */
  datatype Ingredient = Ingredient(name: string, measurementUnit: string)

  /** A recipe's own columns plus its many-to-many tag set. */
  datatype Recipe = Recipe(author: UserId, name: string, text: string, cookingTime: int, tags: set<TagId>)

  /** A row of the recipe–ingredient join table with its quantity. */
  datatype RecipeIngredient = RecipeIngredient(recipe: RecipeId, ingredient: IngredientId, amount: int)

  /** A row of the favorites table or of the shopping-list table. */
  datatype UserRecipe = UserRecipe(user: UserId, recipe: RecipeId)

  /** A row of the follow table: `user` follows `author`. */
  datatype Follow = Follow(user: UserId, author: UserId)

  /** The two user–recipe tables share one row shape. */
  datatype RecipeList = Favorites | ShoppingCart

  /** No two users share an e-mail address. */
  predicate UniqueEmails(users: map<UserId, string>) {
    forall a, b :: a in users && b in users && a != b ==> users[a] != users[b]
  }

  /** No follow row has the same user on both sides. */
  predicate NoSelfFollow(follows: seq<Follow>) {
    forall f :: f in follows ==> f.user != f.author
  }

  /** No two join rows share the same (ingredient, recipe) pair. */
  predicate UniqueIngredientPerRecipe(rows: seq<RecipeIngredient>) {
    forall i, j :: 0 <= i < j < |rows| ==>
      rows[i].recipe != rows[j].recipe || rows[i].ingredient != rows[j].ingredient
  }

  function Without<T(==,!new)>(s: seq<T>, x: T): (r: seq<T>)
    ensures forall y :: y in r <==> y in s && y != x
    ensures NoDuplicates(s) ==> NoDuplicates(r)
  {
    Filter(s, (y: T) => y != x)
  }

  /** Removing a row that is not there changes nothing. */
  lemma WithoutAbsent<T(!new)>(s: seq<T>, x: T)
    requires x !in s
    ensures Without(s, x) == s
  {
    FilterAll(s, (y: T) => y != x);
  }

  /** Removing a row keeps the other rows in their order. */
  lemma WithoutKeepsOrder<T(!new)>(s: seq<T>, x: T)
    ensures IsSubsequence(Without(s, x), s)
  {
    FilterIsSubsequence(s, (y: T) => y != x);
  }

  /** The join rows that do not belong to one of the given recipes. */
  function RowsNotOf(rows: seq<RecipeIngredient>, gone: set<RecipeId>): (r: seq<RecipeIngredient>)
    ensures forall x :: x in r <==> x in rows && x.recipe !in gone
  {
    Filter(rows, (x: RecipeIngredient) => x.recipe !in gone)
  }

  /** Filtering join rows cannot create a clash of (ingredient, recipe) pairs. */
  lemma {:induction false} FilterKeepsUniqueIngredients(rows: seq<RecipeIngredient>, p: RecipeIngredient -> bool)
    requires UniqueIngredientPerRecipe(rows)
    ensures UniqueIngredientPerRecipe(Filter(rows, p))
    decreases |rows|
  {
    if rows != [] {
      var rest := rows[1..];
      assert UniqueIngredientPerRecipe(rest) by {
        forall i, j | 0 <= i < j < |rest|
          ensures rest[i].recipe != rest[j].recipe || rest[i].ingredient != rest[j].ingredient
        {
          assert rest[i] == rows[i + 1] && rest[j] == rows[j + 1];
        }
      }
      FilterKeepsUniqueIngredients(rest, p);
      if p(rows[0]) {
        var t := Filter(rest, p);
        var u := [rows[0]] + t;
        forall i, j | 0 <= i < j < |u|
          ensures u[i].recipe != u[j].recipe || u[i].ingredient != u[j].ingredient
        {
          if i == 0 {
            assert u[j] in rest;
            var k :| 0 <= k < |rest| && rest[k] == u[j];
            assert rows[k + 1] == u[j];
          } else {
            assert u[i] == t[i - 1] && u[j] == t[j - 1];
          }
        }
      }
    }
  }

  /** Every recipe has an id below the next key, an existing author and existing tags. */
  predicate RecipesValid(recipes: map<RecipeId, Recipe>, nextId: RecipeId, users: map<UserId, string>, tags: set<TagId>) {
    forall id :: id in recipes ==> id < nextId && recipes[id].author in users && recipes[id].tags <= tags
  }

  /** Join rows point at existing recipes and ingredients, one row per (ingredient, recipe). */
  predicate RowsValid(rows: seq<RecipeIngredient>, recipes: map<RecipeId, Recipe>, ingredients: map<IngredientId, Ingredient>) {
    && (forall x :: x in rows ==> x.recipe in recipes && x.ingredient in ingredients)
    && UniqueIngredientPerRecipe(rows)
  }

  /** A favorites or shopping-list table: unique (user, recipe) rows over existing keys. */
  predicate ListValid(list: seq<UserRecipe>, users: map<UserId, string>, recipes: map<RecipeId, Recipe>) {
    && NoDuplicates(list)
    && (forall p :: p in list ==> p.user in users && p.recipe in recipes)
  }

  /** The follow table: unique (user, author) rows, no self-follow, existing users. */
  predicate FollowsValid(follows: seq<Follow>, users: map<UserId, string>) {
    && NoDuplicates(follows)
    && NoSelfFollow(follows)
    && (forall f :: f in follows ==> f.user in users && f.author in users)
  }

  /** What cascading the deletion of user `u` leaves of each table. */
  function RecipesNotBy(recipes: map<RecipeId, Recipe>, u: UserId): (kept: map<RecipeId, Recipe>)
    ensures forall id :: id in kept <==> id in recipes && recipes[id].author != u
    ensures forall id :: id in kept ==> kept[id] == recipes[id]
  {
    map id | id in recipes && recipes[id].author != u :: recipes[id]
  }

  function RowsOfKept(rows: seq<RecipeIngredient>, kept: map<RecipeId, Recipe>): (r: seq<RecipeIngredient>)
    ensures forall x :: x in r <==> x in rows && x.recipe in kept
  {
    Filter(rows, (x: RecipeIngredient) => x.recipe in kept)
  }

  function ListAfterDelete(list: seq<UserRecipe>, u: UserId, kept: map<RecipeId, Recipe>): (r: seq<UserRecipe>)
    ensures forall p :: p in r <==> p in list && p.user != u && p.recipe in kept
    ensures NoDuplicates(list) ==> NoDuplicates(r)
  {
    Filter(list, (p: UserRecipe) => p.user != u && p.recipe in kept)
  }

  function FollowsNotInvolving(follows: seq<Follow>, u: UserId): (r: seq<Follow>)
    ensures forall f :: f in r <==> f in follows && f.user != u && f.author != u
    ensures NoDuplicates(follows) ==> NoDuplicates(r)
  {
    Filter(follows, (f: Follow) => f.user != u && f.author != u)
  }

  lemma RowsOfKeptValid(rows: seq<RecipeIngredient>, recipes: map<RecipeId, Recipe>,
                        ingredients: map<IngredientId, Ingredient>, kept: map<RecipeId, Recipe>)
    requires RowsValid(rows, recipes, ingredients)
    ensures RowsValid(RowsOfKept(rows, kept), kept, ingredients)
  {
    FilterKeepsUniqueIngredients(rows, (x: RecipeIngredient) => x.recipe in kept);
  }

  class Store {
    var users: map<UserId, string>            // user id -> e-mail
    const ingredients: map<IngredientId, Ingredient>
    const tags: set<TagId>
    var recipes: map<RecipeId, Recipe>
    var nextRecipeId: RecipeId                // the next auto-assigned primary key
    var recipeIngredients: seq<RecipeIngredient>
    var favorites: seq<UserRecipe>
    var cart: seq<UserRecipe>
    var follows: seq<Follow>

    /** The constraints the schema enforces. */
    predicate Valid()
      reads this
    {
      && UniqueEmails(users)
      && RecipesValid(recipes, nextRecipeId, users, tags)
      && RowsValid(recipeIngredients, recipes, ingredients)
      && ListValid(favorites, users, recipes)
      && ListValid(cart, users, recipes)
      && FollowsValid(follows, users)
    }

    function List(which: RecipeList): (rows: seq<UserRecipe>)
      reads this
    {
      match which
      case Favorites => favorites
      case ShoppingCart => cart
    }

    /** The recipes of `u`'s shopping list, as a set of ids. */
    function CartOf(u: UserId): (ids: set<RecipeId>)
      reads this
      ensures forall r :: r in ids <==> UserRecipe(u, r) in cart
    {
      set p | p in cart && p.user == u :: p.recipe
    }

    /** An empty store over a fixed ingredient catalog and tag set. */
    constructor (ingredients: map<IngredientId, Ingredient>, tags: set<TagId>)
      ensures Valid()
      ensures this.ingredients == ingredients && this.tags == tags
      ensures users == map[] && recipes == map[] && recipeIngredients == []
      ensures favorites == [] && cart == [] && follows == []
    {
      this.ingredients := ingredients;
      this.tags := tags;
      users := map[];
      recipes := map[];
      nextRecipeId := 0;
      recipeIngredients := [];
      favorites := [];
      cart := [];
      follows := [];
    }

    /** Inserting a user: the primary key and the e-mail must both be new. */
    method AddUser(id: UserId, email: string) returns (ok: bool)
      requires Valid()
      modifies this
      ensures Valid()
      ensures ok <==> id !in old(users) && email !in old(users).Values
      ensures users == if ok then old(users)[id := email] else old(users)
      ensures recipes == old(recipes) && nextRecipeId == old(nextRecipeId)
      ensures recipeIngredients == old(recipeIngredients)
      ensures favorites == old(favorites) && cart == old(cart) && follows == old(follows)
    {
      ok := id !in users && email !in users.Values;
      if ok {
        users := users[id := email];
      }
    }

    /** Deleting a user cascades: their recipes (and those recipes' join rows,
        favorites and shopping-list rows), their own favorites and shopping
        list, and every follow in which they are the follower or the author. */
    method DeleteUser(u: UserId)
      requires Valid()
      modifies this
      ensures Valid()
      ensures users == old(users) - {u}
      ensures recipes == RecipesNotBy(old(recipes), u) && nextRecipeId == old(nextRecipeId)
      ensures recipeIngredients == RowsOfKept(old(recipeIngredients), recipes)
      ensures favorites == ListAfterDelete(old(favorites), u, recipes)
      ensures cart == ListAfterDelete(old(cart), u, recipes)
      ensures follows == FollowsNotInvolving(old(follows), u)
    {
      var kept := RecipesNotBy(recipes, u);
      RowsOfKeptValid(recipeIngredients, recipes, ingredients, kept);
      users := users - {u};
      recipes := kept;
      recipeIngredients := RowsOfKept(recipeIngredients, kept);
      favorites := ListAfterDelete(favorites, u, kept);
      cart := ListAfterDelete(cart, u, kept);
      follows := FollowsNotInvolving(follows, u);
    }

    /** `Recipe.objects.create`: a new row with the next primary key; the
        author must exist. */
    method CreateRecipe(author: UserId, name: string, text: string, cookingTime: int)
      returns (id: Option<RecipeId>)
      requires Valid()
      modifies this
      ensures Valid()
      ensures id.Some? <==> author in old(users)
      ensures id.Some? ==>
        (id.value !in old(recipes)
         && recipes == old(recipes)[id.value := Recipe(author, name, text, cookingTime, {})])
      ensures id.None? ==> recipes == old(recipes)
      ensures users == old(users) && recipeIngredients == old(recipeIngredients)
      ensures favorites == old(favorites) && cart == old(cart) && follows == old(follows)
    {
      if author !in users {
        return None;
      }
      id := Some(nextRecipeId);
      recipes := recipes[nextRecipeId := Recipe(author, name, text, cookingTime, {})];
      nextRecipeId := nextRecipeId + 1;
    }

    /** Saving a recipe's columns and replacing its tag set (`tags.set`). */
    method SetRecipeFields(id: RecipeId, name: string, text: string, cookingTime: int, newTags: set<TagId>)
      requires Valid()
      requires id in recipes && newTags <= tags
      modifies this
      ensures Valid()
      ensures recipes == old(recipes)[id := Recipe(old(recipes)[id].author, name, text, cookingTime, newTags)]
      ensures users == old(users) && nextRecipeId == old(nextRecipeId)
      ensures recipeIngredients == old(recipeIngredients)
      ensures favorites == old(favorites) && cart == old(cart) && follows == old(follows)
    {
      recipes := recipes[id := Recipe(recipes[id].author, name, text, cookingTime, newTags)];
    }

    /** `IngredientRecipes.objects.filter(recipe=r).delete()`. */
    method DeleteRecipeIngredients(r: RecipeId)
      requires Valid()
      modifies this
      ensures Valid()
      ensures recipeIngredients == RowsNotOf(old(recipeIngredients), {r})
      ensures users == old(users) && recipes == old(recipes) && nextRecipeId == old(nextRecipeId)
      ensures favorites == old(favorites) && cart == old(cart) && follows == old(follows)
    {
      FilterKeepsUniqueIngredients(recipeIngredients, (x: RecipeIngredient) => x.recipe !in {r});
      recipeIngredients := RowsNotOf(recipeIngredients, {r});
    }

    /** `bulk_create`: all the rows are inserted, or none when one of them
        breaks a foreign key or the (ingredient, recipe) uniqueness. */
    method BulkCreateRecipeIngredients(rows: seq<RecipeIngredient>) returns (ok: bool)
      requires Valid()
      modifies this
      ensures Valid()
      ensures ok <==>
        (forall x :: x in rows ==> x.recipe in recipes && x.ingredient in ingredients)
        && UniqueIngredientPerRecipe(old(recipeIngredients) + rows)
      ensures recipeIngredients == if ok then old(recipeIngredients) + rows else old(recipeIngredients)
      ensures users == old(users) && recipes == old(recipes) && nextRecipeId == old(nextRecipeId)
      ensures favorites == old(favorites) && cart == old(cart) && follows == old(follows)
    {
      ok := (forall x :: x in rows ==> x.recipe in recipes && x.ingredient in ingredients)
        && UniqueIngredientPerRecipe(recipeIngredients + rows);
      if ok {
        recipeIngredients := recipeIngredients + rows;
      }
    }

    /** Inserting a favorite or shopping-list row; the unique (user, recipe)
        constraint and the foreign keys reject it otherwise. */
    method AddToList(which: RecipeList, p: UserRecipe) returns (ok: bool)
      requires Valid()
      modifies this
      ensures Valid()
      ensures ok <==> p !in old(List(which)) && p.user in users && p.recipe in recipes
      ensures List(which) == if ok then old(List(which)) + [p] else old(List(which))
      ensures which == Favorites ==> cart == old(cart)
      ensures which == ShoppingCart ==> favorites == old(favorites)
      ensures users == old(users) && recipes == old(recipes) && nextRecipeId == old(nextRecipeId)
      ensures recipeIngredients == old(recipeIngredients) && follows == old(follows)
    {
      ok := p !in List(which) && p.user in users && p.recipe in recipes;
      if ok {
        NoDuplicatesAppend(List(which), p);
        match which
        case Favorites => favorites := favorites + [p];
        case ShoppingCart => cart := cart + [p];
      }
    }

    /** `filter(user=..., recipe=...).delete()` on a favorite or shopping-list table. */
    method RemoveFromList(which: RecipeList, p: UserRecipe)
      requires Valid()
      modifies this
      ensures Valid()
      ensures List(which) == Without(old(List(which)), p)
      ensures which == Favorites ==> cart == old(cart)
      ensures which == ShoppingCart ==> favorites == old(favorites)
      ensures users == old(users) && recipes == old(recipes) && nextRecipeId == old(nextRecipeId)
      ensures recipeIngredients == old(recipeIngredients) && follows == old(follows)
    {
      match which
      case Favorites => favorites := Without(favorites, p);
      case ShoppingCart => cart := Without(cart, p);
    }

    /** Inserting a follow row; the unique pair, the no-self-follow check and
        the foreign keys reject it otherwise. */
    method AddFollow(f: Follow) returns (ok: bool)
      requires Valid()
      modifies this
      ensures Valid()
      ensures ok <==> f !in old(follows) && f.user != f.author && f.user in users && f.author in users
      ensures follows == if ok then old(follows) + [f] else old(follows)
      ensures users == old(users) && recipes == old(recipes) && nextRecipeId == old(nextRecipeId)
      ensures recipeIngredients == old(recipeIngredients)
      ensures favorites == old(favorites) && cart == old(cart)
    {
      ok := f !in follows && f.user != f.author && f.user in users && f.author in users;
      if ok {
        NoDuplicatesAppend(follows, f);
        follows := follows + [f];
      }
    }

    /** `Follow.objects.filter(user=..., author=...).delete()`. */
    method RemoveFollow(f: Follow)
      requires Valid()
      modifies this
      ensures Valid()
      ensures follows == Without(old(follows), f)
      ensures users == old(users) && recipes == old(recipes) && nextRecipeId == old(nextRecipeId)
      ensures recipeIngredients == old(recipeIngredients)
      ensures favorites == old(favorites) && cart == old(cart)
    {
      follows := Without(follows, f);
    }
  }

  lemma NoDuplicatesAppend<T>(s: seq<T>, x: T)
    requires NoDuplicates(s) && x !in s
    ensures NoDuplicates(s + [x])
  {
    var t := s + [x];
    forall i, j | 0 <= i < j < |t| ensures t[i] != t[j] {
      if j == |s| { assert t[i] == s[i]; }
      else { assert t[i] == s[i] && t[j] == s[j]; }
    }
  }
}
