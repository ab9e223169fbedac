/**
 * The Add/Update form of the search-and-cart page: `formToJSON` (the form's
 * entries collected with `Object.fromEntries`, price and quantity cast to
 * numbers, falsy values reported as missing) and the submit handler that
 * reuses or appends a catalog product and adds it to the cart.
 */
module CartForm {
  import opened Wrappers
  import opened Text
  import opened JsNumbers
  import opened Cart

  /** One `FormData` entry: a field name and the text typed into it. */
  datatype Entry = Entry(name: string, value: string)

  /** A property value of the `data` object: a string, or a number after the cast. */
  datatype FieldValue = TextValue(s: string) | NumberValue(n: JsNumber)

  /**
   * The `data` object: its property names in enumeration order, and their
   * values. Every name appears once and has a value.
   */
  datatype Record = Record(keys: seq<string>, vals: map<string, FieldValue>)

  /** The result object of `formToJSON`. */
  datatype FormResult = FormResult(ok: bool, data: Record, missing: seq<string>)

  /** `!v`: the empty string, zero and NaN. */
  predicate Falsy(v: FieldValue) {
    match v
    case TextValue(s) => s == []
    case NumberValue(n) => !Truthy(n)
  }

  /** `Number(v)`. */
  function FieldToNumber(v: FieldValue): JsNumber {
    match v
    case TextValue(s) => ToNumber(s)
    case NumberValue(n) => n
  }

  predicate Distinct(s: seq<string>) {
    forall i, j :: 0 <= i < j < |s| ==> s[i] != s[j]
  }

  predicate WellFormed(rec: Record) {
    && Distinct(rec.keys)
    && (forall k :: k in rec.keys ==> k in rec.vals)
    && (forall k :: k in rec.vals ==> k in rec.keys)
  }

  /** `data[k]`, with `None` for `undefined`. */
  function Get(rec: Record, k: string): Option<FieldValue> {
    if k in rec.vals then Some(rec.vals[k]) else None
  }

  const EmptyRecord: Record := Record([], map[])

  /** `data[k] = v`: an existing property keeps its place, a new one goes last. */
  function Put(rec: Record, k: string, v: FieldValue): (r: Record)
    requires WellFormed(rec)
    ensures WellFormed(r)
    ensures Get(r, k) == Some(v)
    ensures forall k' :: k' != k ==> Get(r, k') == Get(rec, k')
    ensures k in rec.vals ==> r.keys == rec.keys
    ensures k !in rec.vals ==> r.keys == rec.keys + [k]
  {
    if k in rec.vals then Record(rec.keys, rec.vals[k := v])
    else Record(rec.keys + [k], rec.vals[k := v])
  }

  /** The value of the last entry named `k`: the one `Object.fromEntries` keeps. */
  function LastValue(entries: seq<Entry>, k: string): (r: Option<string>)
    ensures r.None? <==> forall i :: 0 <= i < |entries| ==> entries[i].name != k
    ensures r.Some? ==> LastIndex(entries, k).Some? && entries[LastIndex(entries, k).value] == Entry(k, r.value)
  {
    match LastIndex(entries, k)
    case None => None
    case Some(i) => Some(entries[i].value)
  }

  /** The position of the last entry named `k`: no later entry has that name. */
  function LastIndex(entries: seq<Entry>, k: string): (r: Option<nat>)
    ensures r.None? <==> forall i :: 0 <= i < |entries| ==> entries[i].name != k
    ensures r.Some? ==> r.value < |entries| && entries[r.value].name == k
    ensures r.Some? ==> forall j :: r.value < j < |entries| ==> entries[j].name != k
    decreases |entries|
  {
    if entries == [] then None
    else if entries[|entries| - 1].name == k then Some(|entries| - 1)
    else LastIndex(entries[..|entries| - 1], k)
  }

  /** The position of the first entry named `k`: no earlier entry has that name. */
  function FirstIndexOf(entries: seq<Entry>, k: string): (r: Option<nat>)
    ensures r.None? <==> forall i :: 0 <= i < |entries| ==> entries[i].name != k
    ensures r.Some? ==> r.value < |entries| && entries[r.value].name == k
    ensures r.Some? ==> forall j :: 0 <= j < r.value ==> entries[j].name != k
    decreases |entries|
  {
    if entries == [] then None
    else
      match FirstIndexOf(entries[..|entries| - 1], k)
      case Some(i) => Some(i)
      case None => if entries[|entries| - 1].name == k then Some(|entries| - 1) else None
  }

  /** The names in `keys` are ordered by where each first occurs among the entries. */
  predicate InFirstOccurrenceOrder(entries: seq<Entry>, keys: seq<string>) {
    && (forall i :: 0 <= i < |keys| ==> FirstIndexOf(entries, keys[i]).Some?)
    && (forall i, j :: 0 <= i < j < |keys| ==>
          FirstIndexOf(entries, keys[i]).value < FirstIndexOf(entries, keys[j]).value)
  }

  /**
   * `Object.fromEntries(entries)`: one property per distinct name, holding the
   * last value given for it, the properties in the order their names first occur.
   */
  function FromEntries(entries: seq<Entry>): (r: Record)
    ensures WellFormed(r)
    ensures forall k :: Get(r, k) == (match LastValue(entries, k) case None => None case Some(v) => Some(TextValue(v)))
    ensures forall k :: k in r.keys <==> FirstIndexOf(entries, k).Some?
    ensures InFirstOccurrenceOrder(entries, r.keys)
    decreases |entries|
  {
    if entries == [] then EmptyRecord
    else
      var prefix := entries[..|entries| - 1];
      var last := entries[|entries| - 1];
      var pre := FromEntries(prefix);
      FromEntriesStep(entries, pre);
      FromEntriesKeysStep(entries, pre);
      FromEntriesOrderStep(entries, pre);
      Put(pre, last.name, TextValue(last.value))
  }

  /** Stepping the fold: the appended entry's value becomes its name's, every other property stays. */
  lemma FromEntriesStep(entries: seq<Entry>, pre: Record)
    requires entries != []
    requires WellFormed(pre)
    requires forall k :: Get(pre, k) == (match LastValue(entries[..|entries| - 1], k) case None => None case Some(v) => Some(TextValue(v)))
    ensures var r := Put(pre, entries[|entries| - 1].name, TextValue(entries[|entries| - 1].value));
      forall k :: Get(r, k) == (match LastValue(entries, k) case None => None case Some(v) => Some(TextValue(v)))
  {
    LastValueExtend(entries);
  }

  /** Stepping the fold: the keys stay exactly the names that occur. */
  lemma FromEntriesKeysStep(entries: seq<Entry>, pre: Record)
    requires entries != []
    requires WellFormed(pre)
    requires forall k :: k in pre.keys <==> FirstIndexOf(entries[..|entries| - 1], k).Some?
    ensures var r := Put(pre, entries[|entries| - 1].name, TextValue(entries[|entries| - 1].value));
      forall k :: k in r.keys <==> FirstIndexOf(entries, k).Some?
  {
    FirstIndexOfSomeStep(entries);
  }

  /** A name occurs in the longer list exactly when it is the appended entry's or occurs before it. */
  lemma FirstIndexOfSomeStep(entries: seq<Entry>)
    requires entries != []
    ensures forall k :: FirstIndexOf(entries, k).Some? <==>
      (k == entries[|entries| - 1].name || FirstIndexOf(entries[..|entries| - 1], k).Some?)
  {
  }

  /** Stepping the fold: the keys stay in first-occurrence order. */
  lemma FromEntriesOrderStep(entries: seq<Entry>, pre: Record)
    requires entries != []
    requires WellFormed(pre)
    requires forall k :: k in pre.keys <==> FirstIndexOf(entries[..|entries| - 1], k).Some?
    requires InFirstOccurrenceOrder(entries[..|entries| - 1], pre.keys)
    ensures InFirstOccurrenceOrder(entries, Put(pre, entries[|entries| - 1].name, TextValue(entries[|entries| - 1].value)).keys)
  {
    if entries[|entries| - 1].name in pre.vals {
      InOrderKept(entries, pre.keys);
    } else {
      InOrderAppend(entries, pre.keys);
    }
  }

  /** The appended entry's value is its name's last; every other name keeps its last value. */
  lemma LastValueExtend(entries: seq<Entry>)
    requires entries != []
    ensures LastValue(entries, entries[|entries| - 1].name) == Some(entries[|entries| - 1].value)
    ensures forall k :: k != entries[|entries| - 1].name ==> LastValue(entries, k) == LastValue(entries[..|entries| - 1], k)
  {
  }

  /** Appending an entry keeps every name's first position. */
  lemma InOrderKept(entries: seq<Entry>, keys: seq<string>)
    requires entries != []
    requires InFirstOccurrenceOrder(entries[..|entries| - 1], keys)
    ensures InFirstOccurrenceOrder(entries, keys)
  {
    FirstIndexOfExtend(entries);
  }

  /** A name first seen in the appended entry takes the last place. */
  lemma InOrderAppend(entries: seq<Entry>, keys: seq<string>)
    requires entries != []
    requires InFirstOccurrenceOrder(entries[..|entries| - 1], keys)
    requires FirstIndexOf(entries[..|entries| - 1], entries[|entries| - 1].name).None?
    ensures InFirstOccurrenceOrder(entries, keys + [entries[|entries| - 1].name])
  {
    FirstIndexOfExtend(entries);
    var keys' := keys + [entries[|entries| - 1].name];
    forall i | 0 <= i < |keys|
      ensures FirstIndexOf(entries, keys'[i]).Some? && FirstIndexOf(entries, keys'[i]).value < |entries| - 1
    {
      assert keys'[i] == keys[i];
    }
  }

  /** Appending an entry keeps every name's first position and places a new name last. */
  lemma FirstIndexOfExtend(entries: seq<Entry>)
    requires entries != []
    ensures forall k :: FirstIndexOf(entries[..|entries| - 1], k).Some? ==>
      FirstIndexOf(entries, k) == FirstIndexOf(entries[..|entries| - 1], k)
    ensures FirstIndexOf(entries[..|entries| - 1], entries[|entries| - 1].name).None? ==>
      FirstIndexOf(entries, entries[|entries| - 1].name) == Some(|entries| - 1)
  {
  }

  /** `if (data[k] !== undefined) data[k] = Number(data[k])`. */
  function CastField(rec: Record, k: string): (r: Record)
    requires WellFormed(rec)
    ensures WellFormed(r) && r.keys == rec.keys
    ensures Get(rec, k).None? ==> r == rec
    ensures Get(rec, k).Some? ==> Get(r, k) == Some(NumberValue(FieldToNumber(Get(rec, k).value)))
    ensures forall k' :: k' != k ==> Get(r, k') == Get(rec, k')
  {
    if k in rec.vals then Put(rec, k, NumberValue(FieldToNumber(rec.vals[k]))) else rec
  }

  /** The names among `keys` whose value is falsy, in order. */
  function FalsyKeys(keys: seq<string>, vals: map<string, FieldValue>): (r: seq<string>)
    requires forall k :: k in keys ==> k in vals
    ensures IsSubsequence(r, keys)
    ensures forall k :: k in r <==> k in keys && Falsy(vals[k])
    decreases |keys|
  {
    if keys == [] then []
    else
      var rest := FalsyKeys(keys[1..], vals);
      assert forall k :: k in keys <==> k == keys[0] || k in keys[1..];
      if Falsy(vals[keys[0]]) then [keys[0]] + rest else rest
  }

  /** The fields whose value the form casts to a number. */
  predicate IsNumberField(k: string) {
    k == "price" || k == "quantity"
  }

  /** What `data[k]` holds after the casts, from the entries alone. */
  function ExpectedValue(entries: seq<Entry>, k: string): Option<FieldValue> {
    match LastValue(entries, k)
    case None => None
    case Some(v) => if IsNumberField(k) then Some(NumberValue(ToNumber(v))) else Some(TextValue(v))
  }

  /** The `data` object after the price and quantity casts. */
  function CastData(entries: seq<Entry>): (r: Record)
    ensures WellFormed(r)
    ensures forall k :: Get(r, k) == ExpectedValue(entries, k)
    ensures InFirstOccurrenceOrder(entries, r.keys)
  {
    var raw := FromEntries(entries);
    var r := CastField(CastField(raw, "price"), "quantity");
    CastFieldsValues(entries, raw);
    r
  }

  /** After the two casts every property holds what the entries predict. */
  lemma CastFieldsValues(entries: seq<Entry>, raw: Record)
    requires WellFormed(raw)
    requires forall k :: Get(raw, k) == (match LastValue(entries, k) case None => None case Some(v) => Some(TextValue(v)))
    ensures forall k :: Get(CastField(CastField(raw, "price"), "quantity"), k) == ExpectedValue(entries, k)
  {
    var priced := CastField(raw, "price");
    var r := CastField(priced, "quantity");
    forall k ensures Get(r, k) == ExpectedValue(entries, k) {
      if k == "quantity" {
      } else if k == "price" {
        assert Get(r, k) == Get(priced, k);
      } else {
        assert Get(r, k) == Get(raw, k);
      }
    }
  }

  /**
   * `formToJSON(form)`: every distinct field name appears once with its last
   * value, price and quantity as numbers; `missing` lists exactly the falsy
   * properties, each once and in enumeration order; `ok` holds exactly when
   * none is falsy.
   */
  function FormToJson(entries: seq<Entry>): (r: FormResult)
    ensures WellFormed(r.data)
    ensures forall k :: Get(r.data, k) == ExpectedValue(entries, k)
    ensures InFirstOccurrenceOrder(entries, r.data.keys)
    ensures IsSubsequence(r.missing, r.data.keys)
    ensures forall k :: k in r.missing <==> ExpectedValue(entries, k).Some? && Falsy(ExpectedValue(entries, k).value)
    ensures r.ok <==> r.missing == []
  {
    var data := CastData(entries);
    var missing := FalsyKeys(data.keys, data.vals);
    assert forall k :: k in missing <==> ExpectedValue(entries, k).Some? && Falsy(ExpectedValue(entries, k).value) by {
      forall k ensures k in missing <==> ExpectedValue(entries, k).Some? && Falsy(ExpectedValue(entries, k).value) {
        assert Get(data, k) == ExpectedValue(entries, k);
      }
    }
    FormResult(|missing| == 0, data, missing)
  }

  /** The form is accepted exactly when no field's value is falsy. */
  lemma {:induction false} FormOkIff(entries: seq<Entry>)
    ensures FormToJson(entries).ok <==>
      forall k :: ExpectedValue(entries, k).Some? ==> !Falsy(ExpectedValue(entries, k).value)
  {
    var r := FormToJson(entries);
    if !r.ok {
      var k := r.missing[0];
      assert k in r.missing;
    }
  }

  /** A price of "0" counts as missing, so the form is rejected. */
  lemma {:induction false} ZeroPriceIsMissing(entries: seq<Entry>)
    requires LastValue(entries, "price") == Some("0")
    ensures "price" in FormToJson(entries).missing && !FormToJson(entries).ok
  {
    ToNumberOfDigits("0");
    FalsyPriceIsMissing(entries, "0");
  }

  /** A price that is not a number literal counts as missing: `Number` gives NaN. */
  lemma {:induction false} NonNumericPriceIsMissing(entries: seq<Entry>)
    requires LastValue(entries, "price") == Some("abc")
    ensures "price" in FormToJson(entries).missing && !FormToJson(entries).ok
  {
    ToNumberOfWord("abc");
    FalsyPriceIsMissing(entries, "abc");
  }

  /** A name of blanks is a non-empty string, so unlike a blank price it is not missing. */
  lemma {:induction false} BlankNameIsNotMissing(entries: seq<Entry>)
    requires LastValue(entries, "product_name") == Some(" ")
    ensures "product_name" !in FormToJson(entries).missing
  {
  }

  /** A blank price is the number 0 and so is missing. */
  lemma {:induction false} BlankPriceIsMissing(entries: seq<Entry>, v: string)
    requires LastValue(entries, "price") == Some(v) && AllSpace(v)
    ensures "price" in FormToJson(entries).missing
  {
    BlankIsFalsy(v);
    FalsyPriceIsMissing(entries, v);
  }

  /** A price whose number is falsy is reported missing, and the form is rejected. */
  lemma {:induction false} FalsyPriceIsMissing(entries: seq<Entry>, v: string)
    requires LastValue(entries, "price") == Some(v) && !Truthy(ToNumber(v))
    ensures "price" in FormToJson(entries).missing && !FormToJson(entries).ok
  {
    assert ExpectedValue(entries, "price") == Some(NumberValue(ToNumber(v)));
  }

  /** The page state the submit handler works on: the searchable catalog and the cart. */
  datatype Page = Page(catalog: seq<Product>, cart: Cart)

  /** What the submit handler reports. */
  datatype Outcome =
    | PleaseFill(missing: seq<string>)   // the form was rejected; nothing changes
    | NoProductName(shown: Record)       // `result.data.product_name.toLowerCase()` throws a TypeError
    | Added(shown: Record, id: ProductId)

  datatype Submitted = Submitted(outcome: Outcome, page: Page)

  /** `products.find(p => p.name.toLowerCase() === name.toLowerCase())`. */
  function FindByName(catalog: seq<Product>, name: string): (r: Option<nat>)
    ensures r.Some? ==> r.value < |catalog| && ToLower(catalog[r.value].name) == ToLower(name)
    ensures r.Some? ==> forall j :: 0 <= j < r.value ==> ToLower(catalog[j].name) != ToLower(name)
    ensures r.None? <==> forall j :: 0 <= j < |catalog| ==> ToLower(catalog[j].name) != ToLower(name)
  {
    FirstIndex(catalog, (p: Product) => ToLower(p.name) == ToLower(name))
  }

  /** `Number(result.data[k])` for a field of the result: NaN when the field is absent. */
  function NumberField(entries: seq<Entry>, k: string): JsNumber {
    match LastValue(entries, k)
    case None => NaN
    case Some(v) => ToNumber(v)
  }

  /** The id the submit handler adds to the cart, and the catalog after it. */
  datatype Placed = Placed(id: ProductId, catalog: seq<Product>)

  /**
   * The catalog step of the submit handler: a product whose name matches
   * case-insensitively is reused; otherwise a new product under the drawn
   * id is appended. Either way the catalog only grows and holds the id.
   */
  function PlaceProduct(catalog: seq<Product>, name: string, category: string, price: JsNumber, newId: ProductId): (r: Placed)
    ensures catalog <= r.catalog && FindProduct(r.catalog, r.id).Some?
    ensures FindByName(catalog, name).Some? ==>
      r.catalog == catalog && r.id == catalog[FindByName(catalog, name).value].id
    ensures FindByName(catalog, name).None? ==>
      r.id == newId && r.catalog == catalog + [Product(newId, name, category, price)]
  {
    match FindByName(catalog, name)
    case Some(i) => Placed(catalog[i].id, catalog)
    case None =>
      var c := catalog + [Product(newId, name, category, price)];
      assert c[|c| - 1].id == newId;
      Placed(newId, c)
  }

  /**
   * The cart form's submit handler. `newId` stands for
   * `Math.floor(Math.random() * 1000000)`. The catalog is never empty (it
   * starts with five products and only grows), so a missing product name
   * makes the name lookup throw after the JSON is shown. The form must carry
   * a category field.
   */
  function SubmitCartForm(page: Page, entries: seq<Entry>, newId: ProductId): (r: Submitted)
    requires Valid(page.cart) && page.catalog != [] && newId < 1000000
    requires LastValue(entries, "category").Some?
    ensures Valid(r.page.cart) && r.page.catalog != []
    ensures r.outcome.PleaseFill? <==> !FormToJson(entries).ok
    ensures r.outcome.Added? <==> FormToJson(entries).ok && LastValue(entries, "product_name").Some?
  {
    var result := FormToJson(entries);
    if !result.ok then Submitted(PleaseFill(result.missing), page)
    else
      match LastValue(entries, "product_name")
      case None => Submitted(NoProductName(result.data), page)
      case Some(name) =>
        var placed := PlaceProduct(page.catalog, name, LastValue(entries, "category").value,
                                   NumberField(entries, "price"), newId);
        var q := Or(NumberField(entries, "quantity"), Finite(1.0));
        Submitted(Added(result.data, placed.id),
                  Page(placed.catalog, AddToCart(placed.catalog, page.cart, placed.id, q)))
  }

  /**
   * A rejected form shows the missing fields and changes nothing; an accepted
   * one without a product name shows the JSON and then stops.
   */
  lemma {:induction false} SubmitRejected(page: Page, entries: seq<Entry>, newId: ProductId)
    requires Valid(page.cart) && page.catalog != [] && newId < 1000000
    requires LastValue(entries, "category").Some?
    ensures var r := SubmitCartForm(page, entries, newId);
      && (!FormToJson(entries).ok ==> r == Submitted(PleaseFill(FormToJson(entries).missing), page))
      && (FormToJson(entries).ok && LastValue(entries, "product_name").None? ==>
            r == Submitted(NoProductName(FormToJson(entries).data), page))
  {
  }

  /**
   * An accepted form with a product name reuses the first catalog product of
   * that name, compared case-insensitively, or appends a new one under the
   * drawn id, and adds the typed quantity (1 when falsy) of that product.
   */
  lemma {:induction false} SubmitAdds(page: Page, entries: seq<Entry>, newId: ProductId)
    requires Valid(page.cart) && page.catalog != [] && newId < 1000000
    requires LastValue(entries, "category").Some? && LastValue(entries, "product_name").Some?
    requires FormToJson(entries).ok
    ensures var r := SubmitCartForm(page, entries, newId);
      var name := LastValue(entries, "product_name").value;
      var q := Or(NumberField(entries, "quantity"), Finite(1.0));
      && r.outcome.Added?
      && r.outcome.shown == FormToJson(entries).data
      && r.page.cart == AddToCart(r.page.catalog, page.cart, r.outcome.id, q)
      && (match FindByName(page.catalog, name)
          case Some(i) => r.page.catalog == page.catalog && r.outcome.id == page.catalog[i].id
          case None =>
            && r.outcome.id == newId
            && r.page.catalog == page.catalog + [Product(newId, name, LastValue(entries, "category").value,
                                                          NumberField(entries, "price"))])
  {
  }

  /**
   * An accepted submit only ever appends to the catalog, and the id it adds
   * names a catalog product.
   */
  lemma {:induction false} SubmitGrowsCatalog(page: Page, entries: seq<Entry>, newId: ProductId)
    requires Valid(page.cart) && page.catalog != [] && newId < 1000000
    requires LastValue(entries, "category").Some?
    ensures var r := SubmitCartForm(page, entries, newId);
      r.outcome.Added? ==>
      && page.catalog <= r.page.catalog
      && FindProduct(r.page.catalog, r.outcome.id).Some?
  {

  }

  /**
   * An accepted submit adds a line under its id, or changes the one there,
   * and leaves every other cart line as it was.
   */
  lemma {:induction false} SubmitTouchesOneLine(page: Page, entries: seq<Entry>, newId: ProductId)
    requires Valid(page.cart) && page.catalog != [] && newId < 1000000
    requires LastValue(entries, "category").Some?
    ensures var r := SubmitCartForm(page, entries, newId);
      r.outcome.Added? ==> OnlyLineChanged(page.cart.lines, r.page.cart.lines, r.outcome.id)
  {
    var r := SubmitCartForm(page, entries, newId);
    if r.outcome.Added? {
      SubmitAdds(page, entries, newId);
      SubmitGrowsCatalog(page, entries, newId);
      var q := Or(NumberField(entries, "quantity"), Finite(1.0));
      AddLineTouchesOne(r.page.catalog, page.cart.lines, r.outcome.id, q);
    }
  }

  /**
   * On an accepted form the `|| 1` fallback fires only for an absent quantity
   * field: a present one was cast and found truthy, so `addToCart` receives
   * exactly `Number` of the typed text.
   */
  lemma {:induction false} QuantityFallback(entries: seq<Entry>)
    requires FormToJson(entries).ok
    ensures LastValue(entries, "quantity").Some? ==>
      Or(NumberField(entries, "quantity"), Finite(1.0)) == ToNumber(LastValue(entries, "quantity").value)
    ensures LastValue(entries, "quantity").None? ==>
      Or(NumberField(entries, "quantity"), Finite(1.0)) == Finite(1.0)
  {
    match LastValue(entries, "quantity")
    case None =>
    case Some(v) =>
      assert ExpectedValue(entries, "quantity") == Some(NumberValue(ToNumber(v)));
  }

  /**
   * Nothing on the submit path keeps quantities at one or more: a typed
   * quantity of "-3" is truthy, so a product not yet in the cart enters it
   * with quantity -3.
   */
  lemma {:induction false} NegativeQuantityReachesCart(page: Page, entries: seq<Entry>, newId: ProductId)
    requires Valid(page.cart) && page.catalog != [] && newId < 1000000
    requires LastValue(entries, "category").Some? && LastValue(entries, "product_name").Some?
    requires FormToJson(entries).ok && LastValue(entries, "quantity") == Some("-3")
    ensures var r := SubmitCartForm(page, entries, newId);
      && r.outcome.Added?
      && r.outcome.id in r.page.cart.lines
      && (r.outcome.id !in page.cart.lines ==>
         r.page.cart.lines[r.outcome.id].qty == Finite(-3.0) && !QtyAtLeastOne(r.page.cart))
  {
    var v := LastValue(entries, "quantity").value;
    MinusThree(v);
    var q := Or(NumberField(entries, "quantity"), Finite(1.0));
    assert q == Finite(-3.0);
    SubmitAdds(page, entries, newId);
    SubmitGrowsCatalog(page, entries, newId);
    var r := SubmitCartForm(page, entries, newId);
    if r.outcome.id !in page.cart.lines {
      assert r.page.cart.lines[r.outcome.id].qty == Add(Finite(0.0), q);
    }
  }

  /** `Number("-3")`, for any string spelled `-3`. */
  lemma {:induction false} MinusThree(t: string)
    requires |t| == 2 && t[0] == '-' && t[1] == '3'
    ensures ToNumber(t) == Finite(-3.0)
  {
    var d := t[1..];
    assert AllDigits(d) && d[..0] == [];
    assert DigitsValue(d) == 3;
    ToNumberOfNegativeDigits(t, d);
  }

  /**
   * A drawn id that an earlier catalog product already has is not detected:
   * `addToCart` finds that earlier product, so the cart line copies its name
   * and price rather than those of the product just appended.
   */
  lemma {:induction false} DrawnIdCollision(page: Page, entries: seq<Entry>, newId: ProductId, j: nat)
    requires Valid(page.cart) && page.catalog != [] && newId < 1000000
    requires LastValue(entries, "category").Some? && LastValue(entries, "product_name").Some?
    requires FormToJson(entries).ok
    requires FindByName(page.catalog, LastValue(entries, "product_name").value).None?
    requires j < |page.catalog| && page.catalog[j].id == newId && newId !in page.cart.lines
    ensures var r := SubmitCartForm(page, entries, newId);
      && r.page.catalog[|r.page.catalog| - 1].name == LastValue(entries, "product_name").value
      && FindProduct(r.page.catalog, newId).value < |page.catalog|
      && r.page.cart.lines[newId].name == r.page.catalog[FindProduct(r.page.catalog, newId).value].name
  {
    var r := SubmitCartForm(page, entries, newId);
    assert r.page.catalog[j] == page.catalog[j];
  }
}
