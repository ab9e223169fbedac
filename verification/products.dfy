/**
 * The product page (product.js): the six field validators with recognisers
 * for the price and weight patterns, `toMoney`, the product document built
 * from the form, and the in-memory store keyed by product id with submit,
 * search, update and clear.
 */
module Products {
  import opened Wrappers
  import opened Text
  import opened JsNumbers

  // ---------------------------------------------------------------- price

  /**
   * The recogniser for `^\d+(?:\.\d{1,2})?$`: a run of digits, then either
   * nothing or a point and one or two digits.
   */
  predicate IsPriceLiteral(v: string) {
    var n := DigitRun(v);
    n >= 1 && (n == |v| || (v[n] == '.' && 2 <= |v| - n <= 3 && AllDigits(v[n + 1..])))
  }

  /** The price pattern read literally: some split into `\d+` and an optional `\.\d{1,2}`. */
  ghost predicate PriceShape(v: string) {
    exists i :: 1 <= i <= |v| && AllDigits(v[..i])
                && (i == |v| || (v[i] == '.' && 2 <= |v| - i <= 3 && AllDigits(v[i + 1..])))
  }

  /** The recogniser accepts exactly the strings the price pattern matches. */
  lemma {:induction false} PriceLiteralIff(v: string)
    ensures IsPriceLiteral(v) <==> PriceShape(v)
  {
    var n := DigitRun(v);
    if IsPriceLiteral(v) {
      assert 1 <= n <= |v| && AllDigits(v[..n]);
    }
    if PriceShape(v) {
      var i :| 1 <= i <= |v| && AllDigits(v[..i])
               && (i == |v| || (v[i] == '.' && 2 <= |v| - i <= 3 && AllDigits(v[i + 1..])));
      DigitPrefix(v, i);
      DigitPrefix(v, n);
      assert n == i;
    }
  }

  /** The digits before the point. */
  function IntPart(v: string): string
    requires IsPriceLiteral(v)
  {
    v[..DigitRun(v)]
  }

  /** The digits after the point, or nothing. */
  function FracPart(v: string): (f: string)
    requires IsPriceLiteral(v)
    ensures |f| <= 2 && AllDigits(f)
  {
    var n := DigitRun(v);
    if n == |v| then [] else v[n + 1..]
  }

  /** The value of one or two fraction digits in hundredths. */
  function FracCents(f: string): (c: nat)
    requires |f| <= 2 && AllDigits(f)
    ensures c < 100
  {
    if |f| == 0 then 0
    else if |f| == 1 then DigitValue(f[0]) * 10
    else DigitValue(f[0]) * 10 + DigitValue(f[1])
  }

  /** A price literal's value in cents. */
  function PriceCents(v: string): nat
    requires IsPriceLiteral(v)
  {
    DigitsValue(IntPart(v)) * 100 + FracCents(FracPart(v))
  }

  /** A two-place money string: canonical whole digits, a point, exactly two digits. */
  predicate IsMoney(r: string) {
    && IsPriceLiteral(r)
    && |r| >= 4 && r[|r| - 3] == '.'
    && IsCanonicalDigits(r[..|r| - 3])
  }

  /** The two-place rendering of an amount of cents. */
  function MoneyString(c: nat): string {
    NatToString(c / 100) + "." + [DigitChar(c % 100 / 10), DigitChar(c % 10)]
  }

  /** A run of digits followed by a non-digit is measured by `DigitRun` exactly. */
  lemma {:induction false} DigitRunStops(d: string, rest: string)
    requires AllDigits(d) && rest != [] && !IsDigit(rest[0])
    ensures DigitRun(d + rest) == |d|
  {
    var s := d + rest;
    DigitPrefix(s, DigitRun(s));
    assert forall j :: 0 <= j < |d| ==> s[j] == d[j];
    assert s[|d|] == rest[0];
  }

  /** Every character of an all-digit prefix is a digit. */
  lemma {:induction false} DigitPrefix(v: string, i: nat)
    requires i <= |v| && AllDigits(v[..i])
    ensures forall j :: 0 <= j < i ==> IsDigit(v[j])
  {
    forall j | 0 <= j < i ensures IsDigit(v[j]) {
      assert v[j] == v[..i][j];
    }
  }

  /** A rendered amount is a money string holding the same number of cents. */
  lemma MoneyStringCents(c: nat)
    ensures IsMoney(MoneyString(c)) && PriceCents(MoneyString(c)) == c
  {
    var w := NatToString(c / 100);
    var f := [DigitChar(c % 100 / 10), DigitChar(c % 10)];
    var r := MoneyString(c);
    assert r == w + ("." + f);
    DigitRunStops(w, "." + f);
    assert r[..|w|] == w;
    assert r[|w| + 1..] == f;
    assert r[..|r| - 3] == w;
    assert FracCents(f) == c % 100;
  }

  /** A money string is the rendering of its own cents. */
  lemma {:induction false} MoneyCanonical(r: string)
    requires IsMoney(r)
    ensures MoneyString(PriceCents(r)) == r
  {
    var w := r[..|r| - 3];
    var f := r[|r| - 2..];
    MoneyParts(r);
    assert PriceCents(r) == DigitsValue(w) * 100 + FracCents(f);
    RenderParts(w, f);
    assert r == w + "." + f;
  }

  /** Rendering whole units and two fraction digits gives back their digits. */
  lemma {:induction false} RenderParts(w: string, f: string)
    requires IsCanonicalDigits(w) && |f| == 2 && AllDigits(f)
    ensures MoneyString(DigitsValue(w) * 100 + FracCents(f)) == w + "." + f
  {
    var n := DigitsValue(w);
    var x := FracCents(f);
    var c := n * 100 + x;
    CentsSplit(n, f);
    assert c == (n * 10 + x / 10) * 10 + x % 10;
    DivModDigit(n * 10 + x / 10, x % 10);
    CanonicalIsNatToString(w);
    assert [DigitChar(c % 100 / 10), DigitChar(c % 10)] == f;
  }

  /** A money string splits at its point into whole digits and two fraction digits. */
  lemma {:induction false} MoneyParts(r: string)
    requires IsMoney(r)
    ensures IntPart(r) == r[..|r| - 3] && FracPart(r) == r[|r| - 2..]
  {
    var w := r[..|r| - 3];
    var f := r[|r| - 2..];
    assert r == w + ("." + f);
    DigitRunStops(w, "." + f);
  }

  /** Whole units and two fraction digits recombine to the same cents. */
  lemma {:induction false} CentsSplit(w: nat, f: string)
    requires |f| == 2 && AllDigits(f)
    ensures (w * 100 + FracCents(f)) / 100 == w && (w * 100 + FracCents(f)) % 100 == FracCents(f)
    ensures DigitChar(FracCents(f) / 10) == f[0] && DigitChar(FracCents(f) % 10) == f[1]
  {
  }

  /**
   * `toMoney(n)` on a price literal: `Number(n).toFixed(2)`, the same amount
   * written with canonical whole digits and exactly two decimals.
   */
  function ToMoney(v: string): (r: string)
    requires IsPriceLiteral(v)
    ensures IsMoney(r) && PriceCents(r) == PriceCents(v)
  {
    MoneyStringCents(PriceCents(v));
    MoneyString(PriceCents(v))
  }

  /** Two money strings with the same amount are the same string. */
  lemma {:induction false} MoneyUnique(r1: string, r2: string)
    requires IsMoney(r1) && IsMoney(r2) && PriceCents(r1) == PriceCents(r2)
    ensures r1 == r2
  {
    MoneyCanonical(r1);
    MoneyCanonical(r2);
  }

  /** Normalising twice is normalising once: a money string is left as it is. */
  lemma {:induction false} ToMoneyIdempotent(v: string)
    requires IsMoney(v)
    ensures ToMoney(v) == v
  {
    MoneyUnique(ToMoney(v), v);
  }

  /** "19.9" becomes "19.90". */
  lemma ToMoneyExample()
    ensures IsPriceLiteral("19.9") && ToMoney("19.9") == "19.90"
  {
    OneDecimalCents();
    TwoDecimalsCents();
    MoneyUnique(ToMoney("19.9"), "19.90");
  }

  /** "19.9" is a price of 1990 cents. */
  lemma OneDecimalCents()
    ensures IsPriceLiteral("19.9") && PriceCents("19.9") == 1990
  {
    var v := "19.9";
    DigitRunStops("19", ".9");
    assert v == "19" + ".9";
    assert IntPart(v) == "19" && FracPart(v) == "9";
    assert DigitsValue("19") == 19 by { assert "19"[..1] == "1"; }
  }

  /** "19.90" is the money string of 1990 cents. */
  lemma TwoDecimalsCents()
    ensures IsMoney("19.90") && PriceCents("19.90") == 1990
  {
    var m := "19.90";
    assert m == "19" + ".90";
    DigitRunStops("19", ".90");
    assert IntPart(m) == "19" && FracPart(m) == "90";
    assert DigitsValue("19") == 19 by { assert "19"[..1] == "1"; }
    assert IsMoney(m) by { assert m[..2] == "19"; }
  }

  /** "19.99" is stored as typed. */
  lemma ToMoneyKeepsTwoPlaces()
    ensures IsMoney("19.99") && ToMoney("19.99") == "19.99"
  {
    var m := "19.99";
    DigitRunStops("19", ".99");
    assert m == "19" + ".99";
    assert IsMoney(m) by { assert m[..2] == "19"; }
    ToMoneyIdempotent(m);
  }

  /** "abc" fails the price check. */
  lemma WordPriceRejected()
    ensures !PriceOk("abc")
  {
    TrimmedUnchanged("abc");
  }

  /** `Number` reads a price literal as its cents divided by 100. */
  lemma {:induction false} PriceNumberValue(v: string)
    requires IsPriceLiteral(v)
    ensures ToNumber(v) == Finite(PriceCents(v) as real / 100.0)
  {
    PriceIsDecimal(v);
    if DigitRun(v) == |v| {
      WholePriceValue(v);
    } else {
      FractionPriceValue(v);
    }
    ToNumberOfLiteral(v, Finite(PriceCents(v) as real / 100.0));
  }

  /** A price literal has no surrounding blanks and goes to the unsigned decimal parser. */
  lemma {:induction false} PriceIsDecimal(v: string)
    requires IsPriceLiteral(v)
    ensures v != [] && IsTrimmed(v)
    ensures ParseNumericLiteral(v) == ParseUnsignedDecimal(v)
  {
    var n := DigitRun(v);
    DigitPrefix(v, n);
    assert IsDigit(v[|v| - 1]) by {
      if n < |v| { assert v[|v| - 1] == v[n + 1..][|v| - n - 2]; }
    }
    assert |v| >= 2 ==> IsDigit(v[1]) || v[1] == '.';
  }

  /** A price literal without a point. */
  lemma {:induction false} WholePriceValue(v: string)
    requires IsPriceLiteral(v) && DigitRun(v) == |v|
    ensures ParseUnsignedDecimal(v) == Some(Finite(PriceCents(v) as real / 100.0))
  {
    var d := IntPart(v);
    assert d == v && v[|v|..] == [];
    assert v != "Infinity" by { assert !IsDigit("Infinity"[0]); }
    assert d + [] == d;
    assert Scale(0) == 1.0;
    assert ParseUnsignedDecimal(v) == Some(Finite(DecimalValue(d, 0)));
  }

  /** A price literal with a point and one or two fraction digits. */
  lemma {:induction false} FractionPriceValue(v: string)
    requires IsPriceLiteral(v) && DigitRun(v) < |v|
    ensures ParseUnsignedDecimal(v) == Some(Finite(PriceCents(v) as real / 100.0))
  {
    var d, f := IntPart(v), FracPart(v);
    var c := PriceCents(v);
    assert c == DigitsValue(d) * 100 + FracCents(f);
    FractionParse(v);
    FracDecimal(d, f);
    var x := DecimalValue(d + f, -|f|);
    assert x == (c as real) / 100.0;
    assert ParseUnsignedDecimal(v) == Some(Finite(x));
  }

  /** The parser splits a price literal with a point at the point. */
  lemma {:induction false} FractionParse(v: string)
    requires IsPriceLiteral(v) && DigitRun(v) < |v|
    ensures AllDigits(IntPart(v) + FracPart(v))
    ensures ParseUnsignedDecimal(v) == Some(Finite(DecimalValue(IntPart(v) + FracPart(v), -|FracPart(v)|)))
  {
    var n := DigitRun(v);
    var f := FracPart(v);
    DigitPrefix(v, n);
    assert v != "Infinity" by { assert IsDigit(v[0]) && !IsDigit("Infinity"[0]); }
    assert v[n..][1..] == f;
    AllDigitsRun(f);
    assert f[..|f|] == f && f[|f|..] == [];
    DigitsValueConcat(IntPart(v), f);
  }

  /** Integer digits and one or two fraction digits, read as a decimal, are the cents over 100. */
  lemma {:induction false} FracDecimal(d: string, f: string)
    requires AllDigits(d) && 1 <= |f| <= 2 && AllDigits(f)
    ensures AllDigits(d + f)
    ensures DecimalValue(d + f, -|f|) == ((DigitsValue(d) * 100 + FracCents(f)) as real) / 100.0
  {
    DigitsValueConcat(d, f);
    var w := DigitsValue(d);
    var x := DigitsValue(d + f);
    if |f| == 1 {
      var a := DigitValue(f[0]);
      assert f[..0] == [];
      assert x == w * 10 + a;
      assert Scale(-1) == 1.0 / 10.0;
      assert DecimalValue(d + f, -1) == (x as real) / 10.0;
      assert FracCents(f) == a * 10;
    } else {
      var a, b := DigitValue(f[0]), DigitValue(f[1]);
      var g := f[..1];
      assert f[..|f| - 1] == g && g[..0] == [] && g[0] == f[0];
      assert DigitsValue(g) == a;
      assert DigitsValue(f) == a * 10 + b;
      assert Pow10(2) == 100;
      assert x == w * 100 + (a * 10 + b);
      assert Scale(-2) == 1.0 / 100.0;
      assert DecimalValue(d + f, -2) == (x as real) / 100.0;
      assert FracCents(f) == a * 10 + b;
    }
  }

  /** Normalising a price keeps the number it denotes. */
  lemma {:induction false} ToMoneyKeepsValue(v: string)
    requires IsPriceLiteral(v)
    ensures ToNumber(ToMoney(v)) == ToNumber(v)
  {
    var m := ToMoney(v);
    assert IsPriceLiteral(m) && PriceCents(m) == PriceCents(v);
    PriceNumberValue(m);
    PriceNumberValue(v);
  }

  // --------------------------------------------------------------- weight

  /** `\w`: an ASCII letter, digit or underscore. */
  predicate IsWordChar(c: char) {
    ('a' <= c <= 'z') || ('A' <= c <= 'Z') || ('0' <= c <= '9') || c == '_'
  }

  /** `[\w\d\.\-\s]`. */
  predicate IsWeightChar(c: char) {
    IsWordChar(c) || c == '.' || c == '-' || IsSpace(c)
  }

  predicate AllWeightChars(v: string) {
    forall i :: 0 <= i < |v| ==> IsWeightChar(v[i])
  }

  /** The weight pattern `^(?:\s*|[\w\d\.\-\s]+)$` read literally. */
  predicate WeightPattern(v: string) {
    AllSpace(v) || (|v| >= 1 && AllWeightChars(v))
  }

  /** Whitespace is a weight character, so the pattern is simply "weight characters only". */
  lemma {:induction false} WeightPatternIff(v: string)
    ensures WeightPattern(v) <==> AllWeightChars(v)
  {
  }

  // ----------------------------------------------------------- validators

  /** The six raw input values of the product form. */
  datatype ProductForm = ProductForm(id: string, description: string, category: string,
                                     uom: string, price: string, weight: string)

  /** The validity mark each validator leaves on its field. */
  datatype Marks = Marks(id: bool, description: bool, category: bool,
                         uom: bool, price: bool, weight: bool)

  predicate AllValid(m: Marks) {
    m.id && m.description && m.category && m.uom && m.price && m.weight
  }

  /** `validateId`, `validateDescription`, `validateCategory`, `validateUom`: the trimmed value is non-empty. */
  predicate Required(s: string) {
    |Trim(s)| > 0
  }

  /** `validatePrice`. */
  predicate PriceOk(s: string) {
    var v := Trim(s);
    |v| > 0 && IsPriceLiteral(v)
  }

  /** `validateWeight`. */
  predicate WeightOk(s: string) {
    var v := Trim(s);
    v == [] || WeightPattern(v)
  }

  /** The submit and update handlers run all six validators; none is skipped when an earlier one fails. */
  function Validate(f: ProductForm): Marks {
    Marks(Required(f.id), Required(f.description), Required(f.category),
          Required(f.uom), PriceOk(f.price), WeightOk(f.weight))
  }

  /**
   * A required field is valid exactly when it is not blank, the price when
   * its trimmed value matches the price pattern, and the weight when its
   * trimmed value has weight characters only.
   */
  lemma ValidateMeaning(f: ProductForm)
    ensures Validate(f).id <==> !AllSpace(f.id)
    ensures Validate(f).description <==> !AllSpace(f.description)
    ensures Validate(f).category <==> !AllSpace(f.category)
    ensures Validate(f).uom <==> !AllSpace(f.uom)
    ensures Validate(f).price <==> PriceShape(Trim(f.price))
    ensures Validate(f).weight <==> AllWeightChars(Trim(f.weight))
  {
    TrimEmptyIff(f.id);
    TrimEmptyIff(f.description);
    TrimEmptyIff(f.category);
    TrimEmptyIff(f.uom);
    PriceLiteralIff(Trim(f.price));
    WeightPatternIff(Trim(f.weight));
  }

  // ------------------------------------------------------------ documents

  /** The JSON product document; `weight` is `None` for `null`. */
  datatype ProductDoc = ProductDoc(productId: string, description: string, category: string,
                                   uom: string, price: string, weight: Option<string>)

  /** What every stored document under key `k` looks like. */
  predicate DocOk(k: string, d: ProductDoc) {
    && d.productId == k
    && d.productId != [] && IsTrimmed(d.productId)
    && d.description != [] && IsTrimmed(d.description)
    && d.category != [] && IsTrimmed(d.category)
    && d.uom != [] && IsTrimmed(d.uom)
    && IsMoney(d.price)
    && (d.weight.Some? ==> d.weight.value != [] && IsTrimmed(d.weight.value) && AllWeightChars(d.weight.value))
  }

  /** `buildProductJSON()`, called only once all six fields are valid. */
  function BuildDoc(f: ProductForm): (d: ProductDoc)
    requires AllValid(Validate(f))
    ensures d.productId == Trim(f.id)
  {
    var w := Trim(f.weight);
    ProductDoc(Trim(f.id), Trim(f.description), Trim(f.category), Trim(f.uom),
               ToMoney(Trim(f.price)), if w == [] then None else Some(w))
  }

  /**
   * The document has every field trimmed, the price normalised to two
   * decimals with the same amount, and a blank weight turned into `null`;
   * it is fit to be stored under its id.
   */
  lemma BuildDocMeaning(f: ProductForm)
    requires AllValid(Validate(f))
    ensures var d := BuildDoc(f);
      && DocOk(Trim(f.id), d)
      && d.description == Trim(f.description) && d.category == Trim(f.category) && d.uom == Trim(f.uom)
      && PriceCents(d.price) == PriceCents(Trim(f.price))
      && (d.weight.None? <==> AllSpace(f.weight))
      && (d.weight.Some? ==> d.weight.value == Trim(f.weight))
  {
    TrimEmptyIff(f.weight);
    WeightPatternIff(Trim(f.weight));
  }

  // ---------------------------------------------------------------- store

  /** `productStore`: documents by product id. */
  type Store = map<string, ProductDoc>

  predicate StoreOk(store: Store) {
    forall k :: k in store ==> DocOk(k, store[k])
  }

  datatype Submitted = Submitted(marks: Marks, store: Store, shown: Option<ProductDoc>)

  /**
   * The form's submit handler: with any field invalid nothing is stored;
   * otherwise the document is stored under its id, replacing an earlier one
   * and leaving every other id alone.
   */
  function Submit(store: Store, f: ProductForm): (r: Submitted)
    ensures r.marks == Validate(f)
    ensures !AllValid(r.marks) ==> r.store == store && r.shown.None?
    ensures AllValid(r.marks) ==>
      var k := Trim(f.id);
      && r.store.Keys == store.Keys + {k}
      && r.shown == Some(r.store[k])
      && (forall k' :: k' in store && k' != k ==> r.store[k'] == store[k'])
      && r.store[k] == BuildDoc(f)
  {
    var m := Validate(f);
    if !AllValid(m) then Submitted(m, store, None)
    else
      var d := BuildDoc(f);
      Submitted(m, store[d.productId := d], Some(d))
  }

  /** Submitting keeps every stored document well-formed. */
  lemma {:induction false} SubmitKeepsStoreOk(store: Store, f: ProductForm)
    requires StoreOk(store)
    ensures StoreOk(Submit(store, f).store)
  {
    if AllValid(Validate(f)) {
      BuildDocMeaning(f);
    }
  }

  /** Submitting the same form twice stores what submitting it once does. */
  lemma {:induction false} SubmitTwiceIsOnce(store: Store, f: ProductForm)
    ensures Submit(Submit(store, f).store, f).store == Submit(store, f).store
  {
  }

  datatype UpdateOutcome = BlankId | UnknownId | Invalid(marks: Marks) | Updated(doc: ProductDoc)

  datatype UpdateResult = UpdateResult(outcome: UpdateOutcome, store: Store)

  /**
   * "Update Stored Product": only an id already in the store is updated, and
   * only when all six fields are valid; the validators are not run for a
   * blank or unknown id.
   */
  function Update(store: Store, f: ProductForm): (r: UpdateResult)
    ensures !r.outcome.Updated? ==> r.store == store
    ensures r.outcome == BlankId <==> Trim(f.id) == []
    ensures r.outcome == UnknownId <==> Trim(f.id) != [] && Trim(f.id) !in store
    ensures r.outcome.Invalid? <==> Trim(f.id) != [] && Trim(f.id) in store && !AllValid(Validate(f))
    ensures r.outcome.Invalid? ==> r.outcome.marks == Validate(f)
    ensures r.outcome.Updated? ==>
      && Trim(f.id) in store && AllValid(Validate(f))
      && r.store == store[Trim(f.id) := BuildDoc(f)]
      && r.outcome.doc == BuildDoc(f)
  {
    var k := Trim(f.id);
    if k == [] then UpdateResult(BlankId, store)
    else if k !in store then UpdateResult(UnknownId, store)
    else
      var m := Validate(f);
      if !AllValid(m) then UpdateResult(Invalid(m), store)
      else
        var d := BuildDoc(f);
        UpdateResult(Updated(d), store[k := d])
  }

  /** An update replaces only an existing key: the set of ids never changes. */
  lemma {:induction false} UpdateKeepsKeys(store: Store, f: ProductForm)
    ensures Update(store, f).store.Keys == store.Keys
    ensures forall k :: k in store && k != Trim(f.id) ==> Update(store, f).store[k] == store[k]
  {
  }

  /** Updating keeps every stored document well-formed. */
  lemma {:induction false} UpdateKeepsStoreOk(store: Store, f: ProductForm)
    requires StoreOk(store)
    ensures StoreOk(Update(store, f).store)
  {
    if Update(store, f).outcome.Updated? {
      BuildDocMeaning(f);
    }
  }

  datatype SearchOutcome = NoKey | NotFound | Loaded(form: ProductForm)

  /** The form a stored document is loaded back into; a `null` weight shows as "". */
  function Reload(d: ProductDoc): ProductForm {
    ProductForm(d.productId, d.description, d.category, d.uom, d.price, d.weight.GetOr(""))
  }

  /** "Search": load the stored document for the trimmed id back into the form. */
  function Search(store: Store, text: string): (r: SearchOutcome)
    ensures r == NoKey <==> Trim(text) == []
    ensures r == NotFound <==> Trim(text) != [] && Trim(text) !in store
    ensures r.Loaded? ==> Trim(text) in store && r.form == Reload(store[Trim(text)])
  {
    var k := Trim(text);
    if k == [] then NoKey
    else if k !in store then NotFound
    else Loaded(Reload(store[k]))
  }

  /** A well-formed document's fields are already trimmed. */
  lemma {:induction false} ReloadTrimmed(k: string, d: ProductDoc)
    requires DocOk(k, d)
    ensures var f := Reload(d);
      && Trim(f.id) == d.productId && Trim(f.description) == d.description
      && Trim(f.category) == d.category && Trim(f.uom) == d.uom
      && Trim(f.price) == d.price && Trim(f.weight) == d.weight.GetOr("")
  {
    TrimmedUnchanged(d.productId);
    TrimmedUnchanged(d.description);
    TrimmedUnchanged(d.category);
    TrimmedUnchanged(d.uom);
    assert IsTrimmed(d.price) by { assert IsDigit(d.price[0]) by { assert d.price[0] == IntPart(d.price)[0]; } }
    TrimmedUnchanged(d.price);
    TrimmedUnchanged(d.weight.GetOr(""));
  }

  /** A well-formed document loaded into the form passes all six validators. */
  lemma {:induction false} ReloadValid(k: string, d: ProductDoc)
    requires DocOk(k, d)
    ensures AllValid(Validate(Reload(d)))
  {
    ReloadTrimmed(k, d);
    WeightPatternIff(d.weight.GetOr(""));
  }

  /** A well-formed document loaded into the form rebuilds to itself. */
  lemma {:induction false} LoadedFormRebuilds(k: string, d: ProductDoc)
    requires DocOk(k, d)
    ensures AllValid(Validate(Reload(d))) && BuildDoc(Reload(d)) == d
  {
    ReloadTrimmed(k, d);
    ReloadValid(k, d);
    ToMoneyIdempotent(d.price);
  }

  /** Searching a well-formed store and updating straight away changes nothing. */
  lemma {:induction false} SearchThenUpdateIsNoop(store: Store, text: string)
    requires StoreOk(store) && Search(store, text).Loaded?
    ensures Update(store, Search(store, text).form).outcome.Updated?
    ensures Update(store, Search(store, text).form).store == store
  {
    var k := Trim(text);
    var d := store[k];
    LoadedFormRebuilds(k, d);
    assert Trim(Reload(d).id) == k by { ReloadTrimmed(k, d); }
    SameValueUpdate(store, k);
  }

  lemma {:induction false} SameValueUpdate(store: Store, k: string)
    requires k in store
    ensures store[k := store[k]] == store
  {
  }

  /** "Clear All". */
  function Clear(store: Store): (r: Store)
    ensures |r| == 0
  {
    map[]
  }

  /** After clearing, every search either asks for a key or finds nothing. */
  lemma {:induction false} ClearThenSearchNotFound(store: Store, text: string)
    ensures Search(Clear(store), text) == NoKey || Search(Clear(store), text) == NotFound
  {
  }
}
