/** The shopping-list export: the ingredient rows of the recipes in a user's
    shopping list, grouped by (name, measurement unit) with their amounts
    summed, rendered as a header line and one line per group. */
module ShoppingList {
  import opened Common
  import opened Text
  import opened Models

  const Header: string := "Список покупок:"

  /** A join row as the query selects it: recipe, ingredient name and unit, amount. */
  datatype CartRow = CartRow(recipe: RecipeId, name: string, unit: string, amount: int)

  /** The grouping key of the query. */
  datatype Key = Key(name: string, unit: string)

  /** One result row of the aggregate: the key and `Sum('amount')`. */
  datatype Group = Group(name: string, unit: string, total: int)

  function KeyOf(r: CartRow): Key { Key(r.name, r.unit) }

  function GroupKey(g: Group): Key { Key(g.name, g.unit) }

  function InCatalog(catalog: map<IngredientId, Ingredient>): RecipeIngredient -> bool {
    (x: RecipeIngredient) => x.ingredient in catalog
  }

  /** The inner join of the join rows with the ingredient catalog: one row per
      join row whose ingredient exists. */
  function JoinCatalog(rows: seq<RecipeIngredient>, catalog: map<IngredientId, Ingredient>): (r: seq<CartRow>)
    ensures forall c :: c in r <==>
      exists x :: x in rows && x.ingredient in catalog
        && c == CartRow(x.recipe, catalog[x.ingredient].name, catalog[x.ingredient].measurementUnit, x.amount)
    ensures |r| == |Filter(rows, InCatalog(catalog))|
    decreases |rows|
  {
    if rows == [] then []
    else
      var x := rows[0];
      var rest := JoinCatalog(rows[1..], catalog);
      assert forall y :: y in rows[1..] ==> y in rows;
      assert forall y :: y in rows ==> y == x || y in rows[1..];
      if x.ingredient in catalog then
        var i := catalog[x.ingredient];
        [CartRow(x.recipe, i.name, i.measurementUnit, x.amount)] + rest
      else rest
  }

  function InCartTest(cart: set<RecipeId>): CartRow -> bool {
    (c: CartRow) => c.recipe in cart
  }

  /** The rows whose recipe is in the given shopping list. */
  function InCart(rows: seq<CartRow>, cart: set<RecipeId>): (r: seq<CartRow>)
    ensures forall c :: c in r <==> c in rows && c.recipe in cart
  {
    Filter(rows, InCartTest(cart))
  }

  /** The sum of the amounts of the rows with key `k`. */
  function SumFor(rows: seq<CartRow>, k: Key): int
    decreases |rows|
  {
    if rows == [] then 0
    else (if KeyOf(rows[0]) == k then rows[0].amount else 0) + SumFor(rows[1..], k)
  }

  /** Reference definition of a group total, straight on the join table: the
      amounts of the join rows of recipes in `cart` whose ingredient is in the
      catalog with key `k`, each row counted once. */
  function CartSum(rows: seq<RecipeIngredient>, catalog: map<IngredientId, Ingredient>, cart: set<RecipeId>, k: Key): int
    decreases |rows|
  {
    if rows == [] then 0
    else
      var x := rows[0];
      (if x.recipe in cart && x.ingredient in catalog
          && Key(catalog[x.ingredient].name, catalog[x.ingredient].measurementUnit) == k
       then x.amount else 0)
      + CartSum(rows[1..], catalog, cart, k)
  }

  /** Joining with the catalog and keeping the shopping list's rows neither drops
      nor duplicates an amount: the sum for `k` is the reference total. */
  lemma {:induction false} JoinCatalogCartSum(rows: seq<RecipeIngredient>, catalog: map<IngredientId, Ingredient>,
                                              cart: set<RecipeId>, k: Key)
    ensures SumFor(InCart(JoinCatalog(rows, catalog), cart), k) == CartSum(rows, catalog, cart, k)
    decreases |rows|
  {
    if rows != [] {
      var x := rows[0];
      JoinCatalogCartSum(rows[1..], catalog, cart, k);
      var rest := JoinCatalog(rows[1..], catalog);
      if x.ingredient in catalog {
        var c := CartRow(x.recipe, catalog[x.ingredient].name, catalog[x.ingredient].measurementUnit, x.amount);
        assert JoinCatalog(rows, catalog) == [c] + rest;
        assert ([c] + rest)[1..] == rest;
        var kept := InCart(rest, cart);
        if x.recipe in cart {
          assert InCart([c] + rest, cart) == [c] + kept;
          assert ([c] + kept)[1..] == kept;
        } else {
          assert InCart([c] + rest, cart) == kept;
        }
      }
    }
  }

  /** The distinct keys among the rows. */
  function Keys(rows: seq<CartRow>): set<Key> {
    set r | r in rows :: KeyOf(r)
  }

  function GroupKeys(gs: seq<Group>): set<Key> {
    set g | g in gs :: GroupKey(g)
  }

  predicate DistinctKeys(gs: seq<Group>) {
    forall i, j :: 0 <= i < j < |gs| ==> GroupKey(gs[i]) != GroupKey(gs[j])
  }

  /** The total recorded for key `k`, or 0 when no group has that key. */
  function TotalIn(gs: seq<Group>, k: Key): int
    decreases |gs|
  {
    if gs == [] then 0
    else if GroupKey(gs[0]) == k then gs[0].total
    else TotalIn(gs[1..], k)
  }

  /** Adds one row to the groups: into its key's group, or as a new last group. */
  function AddRow(gs: seq<Group>, row: CartRow): (r: seq<Group>)
    decreases |gs|
  {
    if gs == [] then [Group(row.name, row.unit, row.amount)]
    else if GroupKey(gs[0]) == KeyOf(row) then [gs[0].(total := gs[0].total + row.amount)] + gs[1..]
    else [gs[0]] + AddRow(gs[1..], row)
  }

  lemma DistinctKeysTail(gs: seq<Group>)
    requires gs != [] && DistinctKeys(gs)
    ensures DistinctKeys(gs[1..]) && GroupKey(gs[0]) !in GroupKeys(gs[1..])
  {
    forall i, j | 0 <= i < j < |gs[1..]| ensures GroupKey(gs[1..][i]) != GroupKey(gs[1..][j]) {
      assert gs[1..][i] == gs[i + 1] && gs[1..][j] == gs[j + 1];
    }
    forall g | g in gs[1..] ensures GroupKey(g) != GroupKey(gs[0]) {
      var i :| 0 <= i < |gs[1..]| && gs[1..][i] == g;
      assert gs[i + 1] == g;
    }
  }

  lemma GroupKeysCons(g: Group, gs: seq<Group>)
    ensures GroupKeys([g] + gs) == {GroupKey(g)} + GroupKeys(gs)
  {
    var r := [g] + gs;
    forall k | k in GroupKeys(r) ensures k in {GroupKey(g)} + GroupKeys(gs) {
      var h :| h in r && GroupKey(h) == k;
    }
    forall k | k in GroupKeys(gs) ensures k in GroupKeys(r) {
      var h :| h in gs && GroupKey(h) == k;
      assert h in r;
    }
    assert g in r;
  }

  lemma DistinctKeysCons(g: Group, gs: seq<Group>)
    requires DistinctKeys(gs) && GroupKey(g) !in GroupKeys(gs)
    ensures DistinctKeys([g] + gs)
  {
    var r := [g] + gs;
    forall i, j | 0 <= i < j < |r| ensures GroupKey(r[i]) != GroupKey(r[j]) {
      if i == 0 {
        assert r[j] in gs;
      } else {
        assert r[i] == gs[i - 1] && r[j] == gs[j - 1];
      }
    }
  }

  /** Adding a row adds its key and keeps the keys distinct. */
  lemma {:induction false} AddRowKeys(gs: seq<Group>, row: CartRow)
    ensures GroupKeys(AddRow(gs, row)) == GroupKeys(gs) + {KeyOf(row)}
    ensures DistinctKeys(gs) ==> DistinctKeys(AddRow(gs, row))
    decreases |gs|
  {
    if gs != [] {
      var r := AddRow(gs, row);
      assert gs == [gs[0]] + gs[1..];
      GroupKeysCons(gs[0], gs[1..]);
      if GroupKey(gs[0]) == KeyOf(row) {
        assert r == [r[0]] + gs[1..];
        assert GroupKey(r[0]) == KeyOf(row);
        GroupKeysCons(r[0], gs[1..]);
        if DistinctKeys(gs) {
          DistinctKeysTail(gs);
          DistinctKeysCons(r[0], gs[1..]);
        }
      } else {
        var rest := AddRow(gs[1..], row);
        AddRowKeys(gs[1..], row);
        assert r == [gs[0]] + rest;
        GroupKeysCons(gs[0], rest);
        if DistinctKeys(gs) {
          DistinctKeysTail(gs);
          DistinctKeysCons(gs[0], rest);
        }
      }
    } else {
      var g := Group(row.name, row.unit, row.amount);
      assert AddRow(gs, row) == [g] + [];
      GroupKeysCons(g, []);
    }
  }

  /** Adding a row adds its amount to its own key's total and to no other. */
  lemma {:induction false} AddRowTotal(gs: seq<Group>, row: CartRow, k: Key)
    requires DistinctKeys(gs)
    ensures TotalIn(AddRow(gs, row), k) == TotalIn(gs, k) + (if k == KeyOf(row) then row.amount else 0)
    decreases |gs|
  {
    if gs != [] {
      DistinctKeysTail(gs);
      if GroupKey(gs[0]) == KeyOf(row) {
        if k != KeyOf(row) {
          assert AddRow(gs, row)[1..] == gs[1..];
        }
      } else {
        AddRowTotal(gs[1..], row, k);
        assert AddRow(gs, row)[1..] == AddRow(gs[1..], row);
      }
    }
  }

  /** Folds the rows into the groups, in row order. */
  function AddRows(gs: seq<Group>, rows: seq<CartRow>): (r: seq<Group>)
    ensures DistinctKeys(gs) ==> DistinctKeys(r)
    ensures GroupKeys(r) == GroupKeys(gs) + Keys(rows)
    ensures DistinctKeys(gs) ==> forall k :: TotalIn(r, k) == TotalIn(gs, k) + SumFor(rows, k)
    decreases |rows|
  {
    if rows == [] then gs
    else
      var next := AddRow(gs, rows[0]);
      AddRowKeys(gs, rows[0]);
      assert DistinctKeys(gs) ==> forall k :: TotalIn(next, k) == TotalIn(gs, k) + (if k == KeyOf(rows[0]) then rows[0].amount else 0) by {
        if DistinctKeys(gs) {
          forall k ensures TotalIn(next, k) == TotalIn(gs, k) + (if k == KeyOf(rows[0]) then rows[0].amount else 0) {
            AddRowTotal(gs, rows[0], k);
          }
        }
      }
      assert rows == [rows[0]] + rows[1..];
      assert Keys(rows) == {KeyOf(rows[0])} + Keys(rows[1..]);
      AddRows(next, rows[1..])
  }

  /** `values(name, unit).annotate(Sum('amount'))`: one group per key,
      groups in the order their key first appears. */
  function Aggregate(rows: seq<CartRow>): (gs: seq<Group>)
    ensures DistinctKeys(gs)
    ensures GroupKeys(gs) == Keys(rows)
    ensures forall k :: TotalIn(gs, k) == SumFor(rows, k)
  {
    AddRows([], rows)
  }

  /** In groups with distinct keys, the total recorded for a group's key is that group's total. */
  lemma {:induction false} TotalOfMember(gs: seq<Group>, g: Group)
    requires DistinctKeys(gs) && g in gs
    ensures TotalIn(gs, GroupKey(g)) == g.total
    decreases |gs|
  {
    if gs[0] != g {
      assert g in gs[1..];
      DistinctKeysTail(gs);
      TotalOfMember(gs[1..], g);
    }
  }

  /** A group is in the aggregate exactly when its key occurs among the rows
      and its total is the sum of those rows' amounts. */
  lemma AggregateMembers(rows: seq<CartRow>, g: Group)
    ensures g in Aggregate(rows) <==> GroupKey(g) in Keys(rows) && g.total == SumFor(rows, GroupKey(g))
  {
    var gs := Aggregate(rows);
    if g in gs {
      TotalOfMember(gs, g);
      assert GroupKey(g) in GroupKeys(gs);
    }
    if GroupKey(g) in Keys(rows) && g.total == SumFor(rows, GroupKey(g)) {
      assert GroupKey(g) in GroupKeys(gs);
      var h :| h in gs && GroupKey(h) == GroupKey(g);
      TotalOfMember(gs, h);
      assert h == g;
    }
  }

  /** Groups with distinct keys are as many as their keys. */
  lemma {:induction false} DistinctKeysCount(gs: seq<Group>)
    requires DistinctKeys(gs)
    ensures |GroupKeys(gs)| == |gs|
    decreases |gs|
  {
    if gs != [] {
      DistinctKeysTail(gs);
      DistinctKeysCount(gs[1..]);
      assert gs == [gs[0]] + gs[1..];
      assert GroupKeys(gs) == {GroupKey(gs[0])} + GroupKeys(gs[1..]);
    }
  }

  /** There is one group per distinct (name, unit) pair among the rows. */
  lemma AggregateCount(rows: seq<CartRow>)
    ensures |Aggregate(rows)| == |Keys(rows)|
  {
    DistinctKeysCount(Aggregate(rows));
  }

  lemma {:induction false} SumForConcat(a: seq<CartRow>, b: seq<CartRow>, k: Key)
    ensures SumFor(a + b, k) == SumFor(a, k) + SumFor(b, k)
    decreases |a|
  {
    if a == [] {
      assert a + b == b;
    } else {
      assert (a + b)[1..] == a[1..] + b;
      SumForConcat(a[1..], b, k);
    }
  }

  /** The sum for a key does not depend on the order of the rows. */
  lemma {:induction false} SumForPermutation(a: seq<CartRow>, b: seq<CartRow>, k: Key)
    requires multiset(a) == multiset(b)
    ensures SumFor(a, k) == SumFor(b, k)
    decreases |a|
  {
    if a != [] {
      var x := a[0];
      var j := PermutationHead(a, b);
      var b' := b[..j] + b[j + 1..];
      assert b == b[..j] + [x] + b[j + 1..];
      assert a == [x] + a[1..];
      SumForPermutation(a[1..], b', k);
      SumForConcat(b[..j] + [x], b[j + 1..], k);
      SumForConcat(b[..j], [x], k);
      SumForConcat(b[..j], b[j + 1..], k);
    }
  }

  /** In a sequence without repeats, each element occurs once. */
  lemma {:induction false} NoDuplicatesMultiplicity<T>(s: seq<T>, x: T)
    requires NoDuplicates(s)
    ensures multiset(s)[x] == if x in s then 1 else 0
    decreases |s|
  {
    if s != [] {
      assert s == [s[0]] + s[1..];
      assert NoDuplicates(s[1..]) by {
        forall i, j | 0 <= i < j < |s[1..]| ensures s[1..][i] != s[1..][j] {
          assert s[1..][i] == s[i + 1] && s[1..][j] == s[j + 1];
        }
      }
      NoDuplicatesMultiplicity(s[1..], x);
      if s[0] in s[1..] {
        var i :| 0 <= i < |s[1..]| && s[1..][i] == s[0];
        assert s[i + 1] == s[0];
      }
    }
  }

  lemma DistinctKeysNoDuplicates(gs: seq<Group>)
    requires DistinctKeys(gs)
    ensures NoDuplicates(gs)
  {
  }

  /** Reordering the input rows reorders the groups at most: the same groups
      with the same totals come out. */
  lemma AggregatePermutation(a: seq<CartRow>, b: seq<CartRow>)
    requires multiset(a) == multiset(b)
    ensures multiset(Aggregate(a)) == multiset(Aggregate(b))
  {
    var ga, gb := Aggregate(a), Aggregate(b);
    assert Keys(a) == Keys(b) by {
      forall k ensures k in Keys(a) <==> k in Keys(b) {
        if k in Keys(a) {
          var r :| r in a && KeyOf(r) == k;
          assert r in multiset(b);
        }
        if k in Keys(b) {
          var r :| r in b && KeyOf(r) == k;
          assert r in multiset(a);
        }
      }
    }
    DistinctKeysNoDuplicates(ga);
    DistinctKeysNoDuplicates(gb);
    forall g ensures multiset(ga)[g] == multiset(gb)[g] {
      AggregateMembers(a, g);
      AggregateMembers(b, g);
      SumForPermutation(a, b, GroupKey(g));
      NoDuplicatesMultiplicity(ga, g);
      NoDuplicatesMultiplicity(gb, g);
    }
  }

  // ---- rendering ----

  /** `f"{name}: {total}, {unit}"`: the name, then `": "`, then the total's
      decimal form, then `", "` and the unit. */
  function Line(g: Group): (l: string)
    ensures |l| == |g.name| + |IntToDecimal(g.total)| + |g.unit| + 4
    ensures l[..|g.name|] == g.name && l[|g.name|..|g.name| + 2] == ": "
    ensures l[|l| - |g.unit|..] == g.unit && l[|l| - |g.unit| - 2..|l| - |g.unit|] == ", "
  {
    g.name + ": " + IntToDecimal(g.total) + ", " + g.unit
  }

  lemma LineMiddle(g: Group)
    ensures Line(g)[|g.name| + 2..|Line(g)| - |g.unit| - 2] == IntToDecimal(g.total)
  {
    var l, d := Line(g), IntToDecimal(g.total);
    assert l == g.name + ": " + d + ", " + g.unit;
  }

  /** The field between `": "` and `", "` reads back, through `int()`, as the total. */
  lemma LineTotal(g: Group)
    ensures ParsePyInt(Line(g)[|g.name| + 2..|Line(g)| - |g.unit| - 2]) == Some(g.total)
  {
    LineMiddle(g);
    ParseDecimalRoundTrip(g.total);
  }

  function Lines(gs: seq<Group>): (ls: seq<string>)
    ensures |ls| == |gs|
    decreases |gs|
    ensures forall i :: 0 <= i < |gs| ==> ls[i] == Line(gs[i])
  {
    if gs == [] then [] else [Line(gs[0])] + Lines(gs[1..])
  }

  /** The header line, then one line per group, joined with newlines: the
      text starts with the header and is the header alone exactly when there
      are no groups. */
  function Render(gs: seq<Group>): (text: string)
    ensures |text| >= |Header| && text[..|Header|] == Header
    ensures text == Header <==> gs == []
  {
    var parts := [Header] + Lines(gs);
    var text := JoinLines(parts);
    if gs == [] then
      assert parts == [Header];
      text
    else
      JoinLinesStartsWithFirst(parts);
      assert text[..|Header|] == text[..|Header| + 1][..|Header|];
      text
  }

  /** The document the download endpoint returns for a shopping list `cart`:
      it starts with the header, and is the header alone exactly when no row
      belongs to a recipe of the list. */
  function Export(rows: seq<CartRow>, cart: set<RecipeId>): (text: string)
    ensures |text| >= |Header| && text[..|Header|] == Header
    ensures text == Header <==> forall r :: r in rows ==> r.recipe !in cart
  {
    var inCart := InCart(rows, cart);
    var gs := Aggregate(inCart);
    assert gs == [] <==> inCart == [] by {
      if inCart != [] {
        assert KeyOf(inCart[0]) in Keys(inCart);
      }
      if gs != [] {
        assert GroupKey(gs[0]) in GroupKeys(gs);
      }
    }
    assert inCart != [] ==> inCart[0] in inCart;
    Render(gs)
  }

  /** Neither names nor units of the rows hold a newline. */
  predicate SingleLineFields(rows: seq<CartRow>) {
    forall r :: r in rows ==> NoNewline(r.name) && NoNewline(r.unit)
  }

  lemma LineSingle(g: Group)
    requires NoNewline(g.name) && NoNewline(g.unit)
    ensures NoNewline(Line(g))
  {
    IntToDecimalSingleLine(g.total);
    assert Newline !in ": " && Newline !in ", ";
  }

  lemma LinesSingle(gs: seq<Group>)
    requires forall g :: g in gs ==> NoNewline(g.name) && NoNewline(g.unit)
    ensures forall i :: 0 <= i < |[Header] + Lines(gs)| ==> NoNewline(([Header] + Lines(gs))[i])
  {
    var parts := [Header] + Lines(gs);
    forall i | 0 <= i < |parts| ensures NoNewline(parts[i]) {
      if i > 0 {
        var g := gs[i - 1];
        assert g in gs;
        LineSingle(g);
        assert parts[i] == Line(g);
      } else {
        assert parts[0] == Header;
      }
    }
  }

  lemma AggregateFieldsSingle(rows: seq<CartRow>)
    requires SingleLineFields(rows)
    ensures forall g :: g in Aggregate(rows) ==> NoNewline(g.name) && NoNewline(g.unit)
  {
    forall g | g in Aggregate(rows) ensures NoNewline(g.name) && NoNewline(g.unit) {
      AggregateMembers(rows, g);
      var r :| r in rows && KeyOf(r) == GroupKey(g);
    }
  }

  /** Split on newlines, a rendering gives back the header and the group lines. */
  lemma RenderSplits(gs: seq<Group>)
    requires forall g :: g in gs ==> NoNewline(g.name) && NoNewline(g.unit)
    ensures SplitOnNewline(Render(gs)) == [Header] + Lines(gs)
  {
    LinesSingle(gs);
    SplitJoinLines([Header] + Lines(gs));
  }

  /** Each group line of the aggregate names a key of the rows and carries the
      sum of those rows' amounts. */
  lemma AggregateLines(rows: seq<CartRow>)
    ensures forall l :: l in Lines(Aggregate(rows)) ==>
      exists g :: l == Line(g) && GroupKey(g) in Keys(rows) && g.total == SumFor(rows, GroupKey(g))
  {
    var gs := Aggregate(rows);
    forall l | l in Lines(gs)
      ensures exists g :: l == Line(g) && GroupKey(g) in Keys(rows) && g.total == SumFor(rows, GroupKey(g))
    {
      var i :| 0 <= i < |gs| && Lines(gs)[i] == l;
      AggregateMembers(rows, gs[i]);
    }
  }

  /** Every key of the rows gets a group line carrying the key's sum. */
  lemma AggregateCoversKeys(rows: seq<CartRow>)
    ensures forall k :: k in Keys(rows) ==>
      Line(Group(k.name, k.unit, SumFor(rows, k))) in Lines(Aggregate(rows))
  {
    var gs := Aggregate(rows);
    forall k | k in Keys(rows) ensures Line(Group(k.name, k.unit, SumFor(rows, k))) in Lines(gs) {
      var g := Group(k.name, k.unit, SumFor(rows, k));
      AggregateMembers(rows, g);
      var i :| 0 <= i < |gs| && gs[i] == g;
      assert Lines(gs)[i] == Line(g);
    }
  }

  /** Split on newlines, the document is the header and then exactly the group
      lines, one per distinct (name, unit) of the rows in the shopping list,
      each carrying the sum of those rows' amounts. */
  lemma ExportLines(rows: seq<CartRow>, cart: set<RecipeId>)
    requires SingleLineFields(rows)
    ensures |SplitOnNewline(Export(rows, cart))| == 1 + |Keys(InCart(rows, cart))|
    ensures SplitOnNewline(Export(rows, cart))[0] == Header
    ensures forall l :: l in SplitOnNewline(Export(rows, cart))[1..] ==>
      exists g :: l == Line(g) && GroupKey(g) in Keys(InCart(rows, cart))
        && g.total == SumFor(InCart(rows, cart), GroupKey(g))
    ensures forall k :: k in Keys(InCart(rows, cart)) ==>
      Line(Group(k.name, k.unit, SumFor(InCart(rows, cart), k))) in SplitOnNewline(Export(rows, cart))[1..]
  {
    var inCart := InCart(rows, cart);
    var gs := Aggregate(inCart);
    var lines := SplitOnNewline(Export(rows, cart));
    assert lines == [Header] + Lines(gs) by {
      AggregateFieldsSingle(inCart);
      RenderSplits(gs);
    }
    assert lines[1..] == Lines(gs);
    AggregateCount(inCart);
    AggregateLines(inCart);
    AggregateCoversKeys(inCart);
  }

  /** A rendering of groups whose fields hold no newline does not end in one. */
  lemma RenderNoTrailingNewline(gs: seq<Group>)
    requires forall g :: g in gs ==> NoNewline(g.name) && NoNewline(g.unit)
    ensures Render(gs) != [] && Render(gs)[|Render(gs)| - 1] != Newline
  {
    var parts := [Header] + Lines(gs);
    LinesSingle(gs);
    JoinLinesEndsWithLast(parts);
    var last := parts[|parts| - 1];
    var text := JoinLines(parts);
    assert |last| > 0 by {
      if |parts| > 1 {
        assert last == Line(gs[|gs| - 1]);
      }
    }
    assert text[|text| - 1] == text[|text| - |last|..][|last| - 1];
    assert last[|last| - 1] in last;
  }

  /** The document never ends in a newline. */
  lemma ExportNoTrailingNewline(rows: seq<CartRow>, cart: set<RecipeId>)
    requires SingleLineFields(rows)
    ensures Export(rows, cart) != [] && Export(rows, cart)[|Export(rows, cart)| - 1] != Newline
  {
    AggregateFieldsSingle(InCart(rows, cart));
    RenderNoTrailingNewline(Aggregate(InCart(rows, cart)));
  }

  lemma InCartSkips(before: seq<CartRow>, x: CartRow, after: seq<CartRow>, cart: set<RecipeId>)
    requires x.recipe !in cart
    ensures InCart(before + [x] + after, cart) == InCart(before + after, cart)
  {
    FilterSkip(before, x, after, InCartTest(cart));
  }

  /** Rows of recipes outside the shopping list change nothing, wherever they stand. */
  lemma ExportIgnoresOtherRecipes(before: seq<CartRow>, x: CartRow, after: seq<CartRow>, cart: set<RecipeId>)
    requires x.recipe !in cart
    ensures Export(before + [x] + after, cart) == Export(before + after, cart)
  {
    InCartSkips(before, x, after, cart);
  }

  lemma {:induction false} LinesConcat(a: seq<Group>, b: seq<Group>)
    ensures Lines(a + b) == Lines(a) + Lines(b)
    decreases |a|
  {
    if a == [] {
      assert a + b == b;
    } else {
      assert (a + b)[1..] == a[1..] + b;
      LinesConcat(a[1..], b);
    }
  }

  lemma {:induction false} LinesPermutation(a: seq<Group>, b: seq<Group>)
    requires multiset(a) == multiset(b)
    ensures multiset(Lines(a)) == multiset(Lines(b))
    decreases |a|
  {
    if a != [] {
      var x := a[0];
      var j := PermutationHead(a, b);
      var b1, b2 := b[..j], b[j + 1..];
      assert b == b1 + [x] + b2;
      assert a == [x] + a[1..];
      LinesPermutation(a[1..], b1 + b2);
      LinesConcat(b1, b2);
      LinesConcat([x], a[1..]);
      LinesConcat(b1 + [x], b2);
      LinesConcat(b1, [x]);
      PermutationInsert(Line(x), Lines(a[1..]), Lines(b1), Lines(b2));
    }
  }

  /** Reordering the rows can only reorder the lines after the header. */
  lemma ExportPermutation(a: seq<CartRow>, b: seq<CartRow>, cart: set<RecipeId>)
    requires multiset(a) == multiset(b)
    ensures multiset(Lines(Aggregate(InCart(a, cart)))) == multiset(Lines(Aggregate(InCart(b, cart))))
  {
    var p := InCartTest(cart);
    forall c ensures multiset(InCart(a, cart))[c] == multiset(InCart(b, cart))[c] {
      FilterMultiplicity(a, p, c);
      FilterMultiplicity(b, p, c);
    }
    AggregatePermutation(InCart(a, cart), InCart(b, cart));
    LinesPermutation(Aggregate(InCart(a, cart)), Aggregate(InCart(b, cart)));
  }
}
