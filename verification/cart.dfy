/**
 * The search-and-cart page (cart-addon.js): the product catalog, the cart
 * object keyed by product id, adding, removing and editing lines, the search
 * filter, and the checkout array with zero-padded ids.
 */
module Cart {
  import opened Wrappers
  import opened Text
  import opened JsNumbers

  /**
   * A product id. Ids stay below 2^32 - 1, so as object keys they are array
   * indices and `Object.values` visits them in ascending numeric order
   * (OrdinaryOwnPropertyKeys, section 10.1.11.1 of ECMA-262).
   */
  type ProductId = n: nat | n < 0xFFFF_FFFF

  datatype Product = Product(id: ProductId, name: string, category: string, price: JsNumber)

  /** One cart entry: the product's id, name and price copied when it was first added, and a quantity. */
  datatype Line = Line(id: ProductId, name: string, price: JsNumber, qty: JsNumber)

  /** The `cart` object: lines by product id, and the ids in the order `Object.values` visits them. */
  datatype Cart = Cart(lines: map<ProductId, Line>, order: seq<ProductId>)

  /** Width the checkout pads product ids to. */
  const PadIdsTo: nat := 3

  const InitialCatalog: seq<Product> := [
    Product(1, "Blouse", "Apparel", Finite(24.99)),
    Product(2, "Belt", "Accessories", Finite(14.50)),
    Product(3, "Sneakers", "Footwear", Finite(59.00)),
    Product(4, "Hat", "Accessories", Finite(12.00)),
    Product(5, "Jacket", "Apparel", Finite(89.00))
  ]

  const EmptyCart: Cart := Cart(map[], [])

  predicate Increasing(s: seq<ProductId>) {
    forall i, j :: 0 <= i < j < |s| ==> s[i] < s[j]
  }

  /** The representation invariant: `order` lists exactly the keys, ascending, and each line carries its key. */
  predicate Valid(c: Cart) {
    && Increasing(c.order)
    && (forall k :: k in c.order ==> k in c.lines)
    && (forall k :: k in c.lines ==> k in c.order && c.lines[k].id == k)
  }

  /** A quantity of at least one (the edit handler's clamp also lets +Infinity through). */
  predicate AtLeastOne(n: JsNumber) {
    (n.Finite? && n.value >= 1.0) || n == Infinite(false)
  }

  predicate QtyAtLeastOne(c: Cart) {
    forall k :: k in c.lines ==> AtLeastOne(c.lines[k].qty)
  }

  /** Two ascending sequences with the same elements are equal: the visiting order is fixed by the keys alone. */
  lemma {:induction false} IncreasingUnique(a: seq<ProductId>, b: seq<ProductId>)
    requires Increasing(a) && Increasing(b)
    requires forall x :: x in a <==> x in b
    ensures a == b
    decreases |a|
  {
    if a == [] {
      if b != [] {
        HeadIn(b);
        assert false;
      }
    } else {
      assert a[0] in b;
      assert b != [];
      assert b[0] in a;
      assert a[0] == b[0] by {
        var i :| 0 <= i < |b| && b[i] == a[0];
        var j :| 0 <= j < |a| && a[j] == b[0];
        assert b[0] <= b[i];
        assert a[0] <= a[j];
      }
      forall x ensures x in a[1..] <==> x in b[1..] {
        if x in a[1..] {
          var i :| 1 <= i < |a| && a[i] == x;
          assert x != a[0];
          assert x in b;
          assert x in b[1..] by {
            var j :| 0 <= j < |b| && b[j] == x;
            assert j != 0;
          }
        }
        if x in b[1..] {
          var i :| 1 <= i < |b| && b[i] == x;
          assert x != b[0];
          assert x in a;
          assert x in a[1..] by {
            var j :| 0 <= j < |a| && a[j] == x;
            assert j != 0;
          }
        }
      }
      IncreasingUnique(a[1..], b[1..]);
    }
  }

  /** Every later element of an ascending sequence is above its head. */
  lemma {:induction false} HeadBelowTail(s: seq<ProductId>)
    requires Increasing(s) && s != []
    ensures forall x :: x in s[1..] ==> s[0] < x
  {
    forall x | x in s[1..] ensures s[0] < x {
      var j :| 0 <= j < |s[1..]| && s[1..][j] == x;
      assert s[j + 1] == x;
    }
  }

  /** A head below every element of an ascending tail keeps the sequence ascending. */
  lemma {:induction false} IncreasingCons(h: ProductId, t: seq<ProductId>)
    requires Increasing(t) && forall x :: x in t ==> h < x
    ensures Increasing([h] + t)
  {
    var s := [h] + t;
    forall i, j | 0 <= i < j < |s| ensures s[i] < s[j] {
      assert s[j] == t[j - 1];
      if i > 0 { assert s[i] == t[i - 1]; } else { assert t[j - 1] in t; }
    }
  }

  /** Places a new key at its ascending position. */
  function InsertSorted(s: seq<ProductId>, k: ProductId): (r: seq<ProductId>)
    requires Increasing(s) && k !in s
    ensures Increasing(r)
    ensures forall x :: x in r <==> x in s || x == k
    ensures |r| == |s| + 1
  {
    if s == [] then [k]
    else if k < s[0] then
      HeadBelowTail(s);
      IncreasingCons(k, s);
      [k] + s
    else
      var rest := InsertSorted(s[1..], k);
      HeadBelowTail(s);
      IncreasingCons(s[0], rest);
      [s[0]] + rest
  }

  /** Drops a key, keeping the others in place. */
  function RemoveSorted(s: seq<ProductId>, k: ProductId): (r: seq<ProductId>)
    requires Increasing(s)
    ensures Increasing(r)
    ensures forall x :: x in r <==> x in s && x != k
    ensures k !in s ==> r == s
  {
    if s == [] then []
    else if s[0] == k then
      HeadBelowTail(s);
      s[1..]
    else
      var rest := RemoveSorted(s[1..], k);
      HeadBelowTail(s);
      IncreasingCons(s[0], rest);
      assert k !in s ==> rest == s[1..];
      [s[0]] + rest
  }

  /** `products.find(x => x.id === id)`: the position of the first catalog product with this id. */
  function FindProduct(catalog: seq<Product>, id: ProductId): (r: Option<nat>)
    ensures r.Some? ==> r.value < |catalog| && catalog[r.value].id == id
    ensures r.Some? ==> forall j :: 0 <= j < r.value ==> catalog[j].id != id
    ensures r.None? <==> forall j :: 0 <= j < |catalog| ==> catalog[j].id != id
  {
    FirstIndex(catalog, (p: Product) => p.id == id)
  }

  /**
   * The line map after `addToCart(id, qty)`: unchanged for an id outside the
   * catalog; otherwise the line for `id` is created at quantity 0 from the
   * first catalog product with that id if absent, and `qty` is added to it.
   */
  function AddLine(catalog: seq<Product>, lines: map<ProductId, Line>, id: ProductId, qty: JsNumber): (r: map<ProductId, Line>)
    ensures FindProduct(catalog, id).None? ==> r == lines
    ensures FindProduct(catalog, id).Some? ==>
      && r.Keys == lines.Keys + {id}
      && r == lines[id := r[id]]
      && r[id].qty == Add(if id in lines then lines[id].qty else Finite(0.0), qty)
    ensures FindProduct(catalog, id).Some? && id in lines ==>
      r[id] == lines[id].(qty := r[id].qty)
    ensures FindProduct(catalog, id).Some? && id !in lines ==>
      var p := catalog[FindProduct(catalog, id).value];
      r[id] == Line(id, p.name, p.price, qty)
  {
    match FindProduct(catalog, id)
    case None => lines
    case Some(i) =>
      var p := catalog[i];
      var line := if id in lines then lines[id] else Line(p.id, p.name, p.price, Finite(0.0));
      lines[id := line.(qty := Add(line.qty, qty))]
  }

  /** `after` has the keys of `before` plus `id`, and agrees with it on every other key. */
  predicate OnlyLineChanged(before: map<ProductId, Line>, after: map<ProductId, Line>, id: ProductId) {
    && after.Keys == before.Keys + {id}
    && forall k :: k in before && k != id ==> after[k] == before[k]
  }

  /** Adding a catalog product changes its own line and no other. */
  lemma AddLineTouchesOne(catalog: seq<Product>, lines: map<ProductId, Line>, id: ProductId, qty: JsNumber)
    requires FindProduct(catalog, id).Some?
    ensures OnlyLineChanged(lines, AddLine(catalog, lines, id, qty), id)
  {
    var r := AddLine(catalog, lines, id, qty);
    assert r == lines[id := r[id]];
  }

  /** `addToCart(id, qty)` on the whole cart: the lines change as `AddLine` says, and a new key joins the visiting order. */
  function AddToCart(catalog: seq<Product>, c: Cart, id: ProductId, qty: JsNumber): (r: Cart)
    requires Valid(c)
    ensures Valid(r)
    ensures r.lines == AddLine(catalog, c.lines, id, qty)
    ensures FindProduct(catalog, id).None? ==> r == c
    ensures FindProduct(catalog, id).Some? ==> r.lines.Keys == c.lines.Keys + {id}
    ensures AtLeastOne(qty) && QtyAtLeastOne(c) ==> QtyAtLeastOne(r)
  {
    match FindProduct(catalog, id)
    case None => c
    case Some(i) =>
      var lines := AddLine(catalog, c.lines, id, qty);
      var order := if id in c.lines then c.order else InsertSorted(c.order, id);
      AddLineIds(catalog, c.lines, id, qty);
      if AtLeastOne(qty) && QtyAtLeastOne(c) then
        AddLineAtLeastOne(catalog, c.lines, id, qty);
        Cart(lines, order)
      else Cart(lines, order)
  }

  /** Every line of `AddLine`'s result carries its own key, as every line before did. */
  lemma AddLineIds(catalog: seq<Product>, lines: map<ProductId, Line>, id: ProductId, qty: JsNumber)
    requires forall k :: k in lines ==> lines[k].id == k
    ensures var r := AddLine(catalog, lines, id, qty);
      forall k :: k in r ==> r[k].id == k
  {
  }

  /** Adding a quantity of at least one to lines of at least one keeps every line at one or more. */
  lemma AddLineAtLeastOne(catalog: seq<Product>, lines: map<ProductId, Line>, id: ProductId, qty: JsNumber)
    requires AtLeastOne(qty) && forall k :: k in lines ==> AtLeastOne(lines[k].qty)
    ensures var r := AddLine(catalog, lines, id, qty);
      forall k :: k in r ==> AtLeastOne(r[k].qty)
  {
  }

  /** `removeFromCart(id)`: `delete cart[id]`. */
  function RemoveFromCart(c: Cart, id: ProductId): (r: Cart)
    requires Valid(c)
    ensures Valid(r)
    ensures r.lines.Keys == c.lines.Keys - {id}
    ensures forall k :: k in r.lines ==> r.lines[k] == c.lines[k]
    ensures id !in c.lines ==> r == c
    ensures QtyAtLeastOne(c) ==> QtyAtLeastOne(r)
  {
    if id in c.lines then Cart(c.lines - {id}, RemoveSorted(c.order, id))
    else c
  }

  /** The value the quantity box handler stores: `Math.max(1, Number(v) || 1)`. */
  function EditedQty(input: string): JsNumber {
    Max(Finite(1.0), Or(ToNumber(input), Finite(1.0)))
  }

  /**
   * The quantity box's input handler: a line present in the cart gets the
   * clamped quantity; an id no longer in the cart is ignored.
   */
  function EditQuantity(c: Cart, id: ProductId, input: string): (r: Cart)
    requires Valid(c)
    ensures Valid(r)
    ensures id !in c.lines ==> r == c
    ensures r.lines.Keys == c.lines.Keys && r.order == c.order
    ensures forall k :: k in c.lines && k != id ==> r.lines[k] == c.lines[k]
    ensures id in c.lines ==>
      var n := ToNumber(input);
      && r.lines[id] == c.lines[id].(qty := r.lines[id].qty)
      && r.lines[id].qty == (if AtLeastOne(n) then n else Finite(1.0))
    ensures id in c.lines ==> AtLeastOne(r.lines[id].qty)
    ensures QtyAtLeastOne(c) ==> QtyAtLeastOne(r)
  {
    if id in c.lines then
      Cart(c.lines[id := c.lines[id].(qty := EditedQty(input))], c.order)
    else c
  }

  /** The search term hits a product when its lower-cased name or category contains it. */
  predicate MatchesTerm(p: Product, t: string) {
    Includes(ToLower(p.name), t) || Includes(ToLower(p.category), t)
  }

  function FilterMatching(ps: seq<Product>, t: string): (r: seq<Product>)
    ensures IsSubsequence(r, ps)
    ensures forall p :: p in r ==> MatchesTerm(p, t)
    ensures forall i :: 0 <= i < |ps| && MatchesTerm(ps[i], t) ==> ps[i] in r
    ensures forall p :: multiset(r)[p] == if MatchesTerm(p, t) then multiset(ps)[p] else 0
  {
    if ps == [] then []
    else
      assert ps == [ps[0]] + ps[1..];
      if MatchesTerm(ps[0], t) then [ps[0]] + FilterMatching(ps[1..], t)
      else FilterMatching(ps[1..], t)
  }

  /**
   * `filterProducts(term)`: the whole catalog for a blank term, otherwise the
   * products whose name or category contains the trimmed, lower-cased term, in
   * catalog order.
   */
  function FilterProducts(catalog: seq<Product>, term: string): (r: seq<Product>)
    ensures AllSpace(term) ==> r == catalog
    ensures IsSubsequence(r, catalog)
    ensures !AllSpace(term) ==> forall p :: p in r ==> MatchesTerm(p, ToLower(Trim(term)))
    ensures !AllSpace(term) ==> forall i :: 0 <= i < |catalog| && MatchesTerm(catalog[i], ToLower(Trim(term))) ==> catalog[i] in r
    ensures !AllSpace(term) ==>
      forall p :: multiset(r)[p] == if MatchesTerm(p, ToLower(Trim(term))) then multiset(catalog)[p] else 0
  {
    TrimEmptyIff(term);
    var t := ToLower(Trim(term));
    if t == [] then IsSubsequenceRefl(catalog); catalog
    else FilterMatching(catalog, t)
  }

  lemma {:induction false} IsSubsequenceRefl<T>(s: seq<T>)
    ensures IsSubsequence(s, s)
    decreases |s|
  {
    if s != [] {
      IsSubsequenceRefl(s[1..]);
    }
  }

  /** `zfillId(id)`: `String(id).padStart(3, "0")`. */
  function ZfillId(id: ProductId): (r: string)
    ensures AllDigits(r) && DigitsValue(r) == id
    ensures |r| == if |NatToString(id)| >= PadIdsTo then |NatToString(id)| else PadIdsTo
    ensures id >= 100 ==> r == NatToString(id)
  {
    var s := NatToString(id);
    var r := PadStart(s, PadIdsTo, '0');
    assert r == r[..|r| - |s|] + s;
    LeadingZerosValue(r[..|r| - |s|], s);
    assert id >= 100 ==> |s| >= PadIdsTo by {
      DigitsValueBound(s);
      assert Pow10(0) == 1 && Pow10(1) == 10 && Pow10(2) == 100;
    }
    r
  }

  /** Distinct ids never share a padded form. */
  lemma ZfillIdInjective(a: ProductId, b: ProductId)
    requires ZfillId(a) == ZfillId(b)
    ensures a == b
  {
  }

  /** One element of the checkout array; the floating-point `total` is not modelled. */
  datatype CheckoutItem = CheckoutItem(productId: string, productName: string, price: JsNumber, quantity: JsNumber)

  /** `cartItemsArray()`: one item per line, in `Object.values` order. */
  function CartItems(c: Cart): (r: seq<CheckoutItem>)
    requires Valid(c)
    ensures |r| == |c.order|
    ensures forall i :: 0 <= i < |r| ==> r[i].productId == ZfillId(c.order[i])
    ensures forall i :: 0 <= i < |r| ==>
      && AllDigits(r[i].productId) && |r[i].productId| >= PadIdsTo
      && DigitsValue(r[i].productId) == c.order[i]
      && r[i].productName == c.lines[c.order[i]].name
      && r[i].price == c.lines[c.order[i]].price
      && r[i].quantity == c.lines[c.order[i]].qty
  {
    seq(|c.order|, i requires 0 <= i < |c.order| =>
      var line := c.lines[c.order[i]];
      CheckoutItem(ZfillId(line.id), line.name, line.price, line.qty))
  }

  /** The checkout array lists every cart line exactly once, ordered by ascending product id. */
  lemma {:induction false} CartItemsOnePerLine(c: Cart)
    requires Valid(c)
    ensures forall i, j :: 0 <= i < j < |CartItems(c)| ==>
      DigitsValue(CartItems(c)[i].productId) < DigitsValue(CartItems(c)[j].productId)
    ensures forall k :: k in c.lines <==>
      exists i :: 0 <= i < |CartItems(c)| && DigitsValue(CartItems(c)[i].productId) == k
  {
    var r := CartItems(c);
    forall k | k in c.lines ensures exists i :: 0 <= i < |r| && DigitsValue(r[i].productId) == k {
      var i :| 0 <= i < |c.order| && c.order[i] == k;
      assert DigitsValue(r[i].productId) == k;
    }
  }

  /** Adding two different products touches two different keys, so the order of the two updates does not matter. */
  lemma {:induction false} AddLineCommutes(catalog: seq<Product>, lines: map<ProductId, Line>, a: ProductId, qa: JsNumber, b: ProductId, qb: JsNumber)
    requires a != b
    ensures AddLine(catalog, AddLine(catalog, lines, a, qa), b, qb)
         == AddLine(catalog, AddLine(catalog, lines, b, qb), a, qa)
  {
  }

  /** A valid cart is determined by its lines: the visiting order follows from the keys. */
  lemma {:induction false} SameLinesSameCart(x: Cart, y: Cart)
    requires Valid(x) && Valid(y) && x.lines == y.lines
    ensures x == y
  {
    IncreasingUnique(x.order, y.order);
  }

  /**
   * The order of adding two different products does not matter: the cart,
   * and so the checkout array, comes out the same.
   */
  lemma {:induction false} AddToCartCommutes(catalog: seq<Product>, c: Cart, a: ProductId, qa: JsNumber, b: ProductId, qb: JsNumber)
    requires Valid(c) && a != b
    ensures AddToCart(catalog, AddToCart(catalog, c, a, qa), b, qb)
         == AddToCart(catalog, AddToCart(catalog, c, b, qb), a, qa)
  {
    AddLineCommutes(catalog, c.lines, a, qa, b, qb);
    SameLinesSameCart(AddToCart(catalog, AddToCart(catalog, c, a, qa), b, qb),
                      AddToCart(catalog, AddToCart(catalog, c, b, qb), a, qa));
  }
}
