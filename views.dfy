/** The request handlers: the shopping-list download, the favorite and
    shopping-cart actions, and subscribing to an author. The signed-in user
    is a parameter; authentication itself is outside the model. */
module Views {
  import opened Common
  import opened Text
  import opened Models
  import opened ShoppingList
  import opened Serializers

  datatype HttpMethod = Post | Delete

  /** An HTTP status, or a handler that returned nothing at all. */
  datatype Response = Respond(status: int) | NoResponse

  const Created: int := 201
  const NoContent: int := 204
  const BadRequest: int := 400
  const NotFound: int := 404
  const ServerError: int := 500   // an `IntegrityError` raised by the database

  // ---- download_shopping_cart ----

  /** The loop of `download_shopping_cart`: the header, one appended line
      per group in query order, then the join with newlines. */
  method RenderPurchased(groups: seq<Group>) returns (text: string)
    ensures text == Render(groups)
  {
    var purchased := [Header];
    var i := 0;
    while i < |groups|
      invariant 0 <= i <= |groups|
      invariant |purchased| == i + 1 && purchased[0] == Header
      invariant forall k :: 0 <= k < i ==> purchased[k + 1] == Line(groups[k])
    {
      purchased := purchased + [Line(groups[i])];
      i := i + 1;
    }
    var expected := [Header] + Lines(groups);
    forall k | 0 <= k < |purchased| ensures purchased[k] == expected[k] {
      if k > 0 {
        assert expected[k] == Lines(groups)[k - 1];
      }
    }
    assert purchased == expected;
    text := JoinLines(purchased);
  }

  /** `download_shopping_cart`: the aggregate query over the join rows of the
      user's shopping list, rendered as the downloadable text. */
  method DownloadShoppingCart(store: Store, user: UserId) returns (text: string)
    ensures text == Export(JoinCatalog(store.recipeIngredients, store.ingredients), store.CartOf(user))
  {
    var rows := InCart(JoinCatalog(store.recipeIngredients, store.ingredients), store.CartOf(user));
    text := RenderPurchased(Aggregate(rows));
  }

  // ---- favorite / shopping_cart ----

  /** The status the favorite and shopping-cart views give once the recipe
      was found, as the code is written: a POST the serializer refuses passes
      both `if`s and the view returns nothing. `inserted` says whether the
      row insert succeeded. */
  function ListViewResponseAsWritten(m: HttpMethod, serializerValid: bool, inserted: bool): (r: Response)
    ensures m == Delete ==> r == Respond(NoContent)
    ensures m == Post && serializerValid ==> r == Respond(if inserted then Created else ServerError)
  {
    match m
    case Post => if serializerValid then Respond(if inserted then Created else ServerError) else NoResponse
    case Delete => Respond(NoContent)
  }

  /** The gap: a POST with a refused serializer gets no response. */
  lemma RefusedPostGetsNoResponse(inserted: bool)
    ensures ListViewResponseAsWritten(Post, false, inserted) == NoResponse
  {
  }

  /** The status the views evidently mean to give: the same as written
      wherever that gives one, and 400 for a POST the serializer refuses. */
  function ListViewResponse(m: HttpMethod, serializerValid: bool, inserted: bool): (r: Response)
    ensures r.Respond?
    ensures m == Post && !serializerValid ==> r == Respond(BadRequest)
    ensures ListViewResponseAsWritten(m, serializerValid, inserted).Respond? ==>
      r == ListViewResponseAsWritten(m, serializerValid, inserted)
  {
    if m == Post && !serializerValid then Respond(BadRequest)
    else ListViewResponseAsWritten(m, serializerValid, inserted)
  }

  /** `favorite` (`which == Favorites`) and `shopping_cart` (`which ==
      ShoppingCart`): 404 for an unknown recipe; a POST the serializer accepts
      inserts the (user, recipe) row; a DELETE removes exactly that row,
      whether or not it was there, and answers 204. The status comes from the
      corrected `ListViewResponse`, so a POST the serializer refuses answers
      400 where the code as written answers nothing. `serializerValid` is the
      verdict of the favorite serializer, which is not part of this model. */
  method RecipeListAction(store: Store, which: RecipeList, user: UserId, recipe: RecipeId,
                          m: HttpMethod, serializerValid: bool)
    returns (resp: Response)
    requires store.Valid()
    requires user in store.users
    modifies store
    ensures store.Valid()
    ensures recipe !in old(store.recipes) ==>
      resp == Respond(NotFound) && store.List(which) == old(store.List(which))
    ensures recipe in old(store.recipes) && m == Post && serializerValid ==>
      if UserRecipe(user, recipe) !in old(store.List(which)) then
        resp == Respond(Created) && store.List(which) == old(store.List(which)) + [UserRecipe(user, recipe)]
      else
        resp == Respond(ServerError) && store.List(which) == old(store.List(which))
    ensures recipe in old(store.recipes) && m == Post && !serializerValid ==>
      resp == Respond(BadRequest) && store.List(which) == old(store.List(which))
    ensures recipe in old(store.recipes) && m == Delete ==>
      resp == Respond(NoContent) && store.List(which) == Without(old(store.List(which)), UserRecipe(user, recipe))
    ensures which == Favorites ==> store.cart == old(store.cart)
    ensures which == ShoppingCart ==> store.favorites == old(store.favorites)
    ensures store.users == old(store.users) && store.recipes == old(store.recipes)
    ensures store.recipeIngredients == old(store.recipeIngredients) && store.follows == old(store.follows)
    ensures which == ShoppingCart && recipe in old(store.recipes) && m == Post && serializerValid ==>
      recipe in store.CartOf(user)
    ensures which == ShoppingCart && m == Delete ==> recipe !in store.CartOf(user)
  {
    if recipe !in store.recipes {
      return Respond(NotFound);
    }
    var p := UserRecipe(user, recipe);
    var inserted := false;
    if m == Post && serializerValid {
      inserted := store.AddToList(which, p);
    } else if m == Delete {
      store.RemoveFromList(which, p);
    }
    resp := ListViewResponse(m, serializerValid, inserted);
  }

  // ---- subscribe ----

  /** `subscribe`: 404 for an unknown author. A POST runs the follow
      validation (400 when it refuses) and inserts the row (201). A DELETE
      removes an existing follow (204) or answers 400 and changes nothing. */
  method Subscribe(store: Store, user: UserId, author: UserId, m: HttpMethod) returns (resp: Response)
    requires store.Valid()
    requires user in store.users
    modifies store
    ensures store.Valid()
    ensures author !in old(store.users) ==>
      resp == Respond(NotFound) && store.follows == old(store.follows)
    ensures author in old(store.users) && m == Post ==>
      if ValidateFollow(user, author, old(store.follows)).Ok? then
        resp == Respond(Created) && store.follows == old(store.follows) + [Follow(user, author)]
      else
        resp == Respond(BadRequest) && store.follows == old(store.follows)
    ensures author in old(store.users) && m == Delete ==>
      if Follow(user, author) in old(store.follows) then
        resp == Respond(NoContent) && store.follows == Without(old(store.follows), Follow(user, author))
      else
        resp == Respond(BadRequest) && store.follows == old(store.follows)
    ensures store.users == old(store.users) && store.recipes == old(store.recipes)
    ensures store.recipeIngredients == old(store.recipeIngredients)
    ensures store.favorites == old(store.favorites) && store.cart == old(store.cart)
  {
    if author !in store.users {
      return Respond(NotFound);
    }
    var f := Follow(user, author);
    if m == Post {
      var checked := ValidateFollow(user, author, store.follows);
      if checked.Err? {
        return Respond(BadRequest);
      }
      var ok := store.AddFollow(checked.value);
      assert ok;
      return Respond(Created);
    }
    if f in store.follows {
      store.RemoveFollow(f);
      return Respond(NoContent);
    }
    return Respond(BadRequest);
  }
}
