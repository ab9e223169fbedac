/**
 * The shopper page: a form of five trimmed fields, an ordered list of
 * validation errors, an append-only list of accepted shoppers, the
 * "show latest JSON" panel and the clear-all button.
 */
module Shoppers {
  import opened Wrappers
  import opened Text
  import opened EmailPattern

  /** The raw values of the five inputs. */
  datatype ShopperForm = ShopperForm(firstName: string, lastName: string, email: string,
                                     phone: string, loyaltyId: string)

  /** A shopper object as `buildShopperFromForm` returns it. */
  datatype Shopper = Shopper(firstName: string, lastName: string, email: string,
                             phone: string, loyaltyId: string)

  /** Every field of the shopper is trimmed. */
  predicate TrimmedShopper(s: Shopper) {
    IsTrimmed(s.firstName) && IsTrimmed(s.lastName) && IsTrimmed(s.email)
    && IsTrimmed(s.phone) && IsTrimmed(s.loyaltyId)
  }

  /** The form as it would read back with the shopper's values typed in. */
  function AsForm(s: Shopper): ShopperForm {
    ShopperForm(s.firstName, s.lastName, s.email, s.phone, s.loyaltyId)
  }

  /** `buildShopperFromForm`: each input value, trimmed. */
  function BuildShopper(f: ShopperForm): (s: Shopper)
    ensures s.firstName == Trim(f.firstName) && s.lastName == Trim(f.lastName) && s.email == Trim(f.email)
    ensures s.phone == Trim(f.phone) && s.loyaltyId == Trim(f.loyaltyId)
    ensures TrimmedShopper(s)
    ensures |s.firstName| <= |f.firstName| && |s.lastName| <= |f.lastName| && |s.email| <= |f.email|
    ensures |s.phone| <= |f.phone| && |s.loyaltyId| <= |f.loyaltyId|
  {
    Shopper(Trim(f.firstName), Trim(f.lastName), Trim(f.email), Trim(f.phone), Trim(f.loyaltyId))
  }

  /** Building from an already built shopper changes nothing: trimming is idempotent. */
  lemma BuildShopperFixed(s: Shopper)
    requires TrimmedShopper(s)
    ensures BuildShopper(AsForm(s)) == s
  {
    TrimmedUnchanged(s.firstName);
    TrimmedUnchanged(s.lastName);
    TrimmedUnchanged(s.email);
    TrimmedUnchanged(s.phone);
    TrimmedUnchanged(s.loyaltyId);
  }

  /** `PHONE_RE`, `^\d{3}-\d{3}-\d{4}$`: twelve characters, dashes at 3 and 7, digits elsewhere. */
  predicate IsPhone(s: string) {
    |s| == 12 && forall i :: 0 <= i < 12 ==> if i == 3 || i == 7 then s[i] == '-' else IsDigit(s[i])
  }

  /** Three digit groups joined by dashes. */
  function JoinPhone(a: string, b: string, c: string): string {
    a + "-" + b + "-" + c
  }

  /** A matching phone number is its three digit groups joined by dashes. */
  lemma {:induction false} PhoneSplits(s: string)
    requires IsPhone(s)
    ensures AllDigits(s[..3]) && AllDigits(s[4..7]) && AllDigits(s[8..])
    ensures s == JoinPhone(s[..3], s[4..7], s[8..])
  {
    assert forall i :: 0 <= i < 3 ==> s[..3][i] == s[i];
    assert forall i :: 0 <= i < 3 ==> s[4..7][i] == s[4 + i];
    assert forall i :: 0 <= i < 4 ==> s[8..][i] == s[8 + i];
  }

  /** Groups of three, three and four digits joined by dashes match the pattern. */
  lemma {:induction false} PhoneJoins(a: string, b: string, c: string)
    requires |a| == 3 && |b| == 3 && |c| == 4
    requires AllDigits(a) && AllDigits(b) && AllDigits(c)
    ensures IsPhone(JoinPhone(a, b, c))
  {
    var s := JoinPhone(a, b, c);
    assert forall i :: 0 <= i < 3 ==> s[i] == a[i];
    assert forall i :: 4 <= i < 7 ==> s[i] == b[i - 4];
    assert forall i :: 8 <= i < 12 ==> s[i] == c[i - 8];
  }

  /** The messages `validateShopper` can push, in the order it checks them. */
  datatype ShopperError =
    | FirstNameMissing   // 'First name missing'
    | LastNameMissing    // 'Last name missing'
    | EmailMissing       // 'Email missing'
    | EmailFormat        // 'Email format wrong'
    | PhoneFormat        // 'Phone format should be 555-123-4567'

  /** The position of each check in `validateShopper`. */
  function Rank(e: ShopperError): nat {
    match e
    case FirstNameMissing => 0
    case LastNameMissing => 1
    case EmailMissing => 2
    case EmailFormat => 3
    case PhoneFormat => 4
  }

  /** The checks of `validateShopper`, in the order it makes them. */
  const CheckOrder: seq<ShopperError> := [FirstNameMissing, LastNameMissing, EmailMissing, EmailFormat, PhoneFormat]

  /**
   * When each check pushes its error. The e-mail format is checked only on a
   * non-blank e-mail; the phone is optional but must match when present.
   */
  predicate Fails(s: Shopper, e: ShopperError) {
    match e
    case FirstNameMissing => s.firstName == []
    case LastNameMissing => s.lastName == []
    case EmailMissing => s.email == []
    case EmailFormat => s.email != [] && !IsEmail(s.email)
    case PhoneFormat => s.phone != [] && !IsPhone(s.phone)
  }

  /** Each error is pushed at most once and in check order. */
  predicate InCheckOrder(errors: seq<ShopperError>) {
    forall i, j :: 0 <= i < j < |errors| ==> Rank(errors[i]) < Rank(errors[j])
  }

  /** Running the checks `es` one after another, each pushing its error when it fails. */
  function RunChecks(s: Shopper, es: seq<ShopperError>): (r: seq<ShopperError>)
    ensures forall e :: e in r <==> e in es && Fails(s, e)
    ensures InCheckOrder(es) ==> InCheckOrder(r)
  {
    if es == [] then []
    else
      var rest := RunChecks(s, es[1..]);
      assert InCheckOrder(es) ==> forall e :: e in rest ==> Rank(es[0]) < Rank(e) by {
        if InCheckOrder(es) {
          forall e | e in rest ensures Rank(es[0]) < Rank(e) {
            var k :| 0 <= k < |es[1..]| && es[1..][k] == e;
            assert es[k + 1] == e;
          }
        }
      }
      if Fails(s, es[0]) then [es[0]] + rest else rest
  }

  /**
   * `validateShopper(s).errors`: blank first name, last name and email each
   * give their own error, a non-blank email failing the pattern gives a
   * format error, a present phone failing its pattern gives one more; the
   * loyalty id is never looked at.
   */
  function ValidateShopper(s: Shopper): (errors: seq<ShopperError>)
    ensures InCheckOrder(errors)
    ensures forall e :: e in errors <==> Fails(s, e)
  {
    assert InCheckOrder(CheckOrder);
    RunChecks(s, CheckOrder)
  }

  /** The green/red outline `markFieldValidity` gives each checked input. */
  datatype FieldMarks = FieldMarks(firstName: bool, lastName: bool, email: bool, phone: bool)

  /** The four `markFieldValidity` calls of `validateShopper`. */
  function ShopperMarks(s: Shopper): FieldMarks {
    FieldMarks(s.firstName != [], s.lastName != [], s.email != [] && IsEmail(s.email),
               s.phone == [] || IsPhone(s.phone))
  }

  /** `valid` is `errors.length === 0`; it holds exactly when every outline is green. */
  lemma ValidIffAllMarksGreen(s: Shopper)
    ensures ValidateShopper(s) == [] <==>
      var m := ShopperMarks(s); m.firstName && m.lastName && m.email && m.phone
  {
    var errors := ValidateShopper(s);
    if errors == [] {
      assert !Fails(s, FirstNameMissing) && !Fails(s, LastNameMissing) && !Fails(s, EmailMissing);
      assert !Fails(s, EmailFormat) && !Fails(s, PhoneFormat);
    } else {
      assert Fails(s, errors[0]);
    }
  }

  /** In a list in check order, whatever follows the head ranks above it. */
  lemma {:induction false} AfterHead(a: seq<ShopperError>, e: ShopperError)
    requires InCheckOrder(a) && a != [] && e in a[1..]
    ensures Rank(a[0]) < Rank(e)
  {
    var k :| 0 <= k < |a[1..]| && a[1..][k] == e;
    assert a[k + 1] == e;
  }

  /** The head of a list in check order has the lowest rank in it. */
  lemma {:induction false} HeadLowest(a: seq<ShopperError>, e: ShopperError)
    requires InCheckOrder(a) && e in a
    ensures Rank(a[0]) <= Rank(e)
  {
    if e != a[0] {
      var k :| 0 <= k < |a| && a[k] == e;
      assert k > 0;
    }
  }

  lemma RankInjective(x: ShopperError, y: ShopperError)
    requires Rank(x) == Rank(y)
    ensures x == y
  {
  }

  /** With equal heads and equal elements, the tails of two lists in check order hold the same errors. */
  lemma {:induction false} TailElements(a: seq<ShopperError>, b: seq<ShopperError>, e: ShopperError)
    requires InCheckOrder(a) && a != [] && b != [] && a[0] == b[0]
    requires forall x :: x in a <==> x in b
    requires e in a[1..]
    ensures e in b[1..]
  {
    AfterHead(a, e);
    assert e in a && e != b[0];
    var m :| 0 <= m < |b| && b[m] == e;
    assert b[1..][m - 1] == e;
  }

  /**
   * Two error lists in check order with the same errors are the same list,
   * so the contract of `ValidateShopper` determines its result.
   */
  lemma {:induction false} InCheckOrderUnique(a: seq<ShopperError>, b: seq<ShopperError>)
    requires InCheckOrder(a) && InCheckOrder(b)
    requires forall e :: e in a <==> e in b
    ensures a == b
  {
    if a == [] {
      if b != [] {
        HeadIn(b);
        assert false;
      }
    } else {
      assert a[0] in a;
      assert b != [] && b[0] in b;
      HeadLowest(a, b[0]);
      HeadLowest(b, a[0]);
      RankInjective(a[0], b[0]);
      forall e ensures e in a[1..] <==> e in b[1..] {
        if e in a[1..] { TailElements(a, b, e); }
        if e in b[1..] { TailElements(b, a, e); }
      }
      InCheckOrderUnique(a[1..], b[1..]);
      assert a == [a[0]] + a[1..] && b == [b[0]] + b[1..];
    }
  }

  /** A blank email gives exactly one e-mail error: the format is not also reported. */
  lemma BlankEmailOneError(s: Shopper)
    requires s.email == []
    ensures EmailMissing in ValidateShopper(s) && EmailFormat !in ValidateShopper(s)
  {
  }

  /** The loyalty id never influences validation. */
  lemma {:induction false} LoyaltyIdUnchecked(s: Shopper, id: string)
    ensures ValidateShopper(s.(loyaltyId := id)) == ValidateShopper(s)
  {
    InCheckOrderUnique(ValidateShopper(s.(loyaltyId := id)), ValidateShopper(s));
  }

  /** A blank form reports the three missing fields, in order, and nothing else. */
  lemma BlankFormErrors(f: ShopperForm)
    requires AllSpace(f.firstName) && AllSpace(f.lastName) && AllSpace(f.email) && AllSpace(f.phone)
    ensures ValidateShopper(BuildShopper(f)) == [FirstNameMissing, LastNameMissing, EmailMissing]
  {
    TrimEmptyIff(f.firstName);
    TrimEmptyIff(f.lastName);
    TrimEmptyIff(f.email);
    TrimEmptyIff(f.phone);
    var expected := [FirstNameMissing, LastNameMissing, EmailMissing];
    InCheckOrderUnique(ValidateShopper(BuildShopper(f)), expected);
  }

  /** What the JSON panel shows. */
  datatype JsonPanel =
    | NoShopperYet                // 'No shopper JSON to show yet.'
    | ShopperJson(shopper: Shopper)
    | AllCleared                  // 'All shoppers cleared.'

  /** The `shoppers` list together with the JSON panel. */
  datatype ShopperPage = ShopperPage(shoppers: seq<Shopper>, panel: JsonPanel)

  /** Every shopper in the list passed validation and is trimmed. */
  predicate ListOk(shoppers: seq<Shopper>) {
    forall i :: 0 <= i < |shoppers| ==> ValidateShopper(shoppers[i]) == [] && TrimmedShopper(shoppers[i])
  }

  /** `showLatestJson`: the newest shopper, or the placeholder for an empty list. */
  function ShowLatest(shoppers: seq<Shopper>): (r: JsonPanel)
    ensures r.NoShopperYet? <==> shoppers == []
    ensures r.ShopperJson? <==> shoppers != []
    ensures r.ShopperJson? ==> r.shopper == shoppers[|shoppers| - 1]
  {
    if shoppers == [] then NoShopperYet else ShopperJson(shoppers[|shoppers| - 1])
  }

  /**
   * The form's submit handler: build the shopper, and only when it is valid
   * append it to the list and show its JSON.
   */
  function SubmitShopper(page: ShopperPage, f: ShopperForm): (r: ShopperPage)
    ensures ValidateShopper(BuildShopper(f)) != [] ==> r == page
    ensures ValidateShopper(BuildShopper(f)) == [] ==>
      && |r.shoppers| == |page.shoppers| + 1
      && r.shoppers[..|page.shoppers|] == page.shoppers
      && r.shoppers[|page.shoppers|] == BuildShopper(f)
      && r.panel == ShopperJson(BuildShopper(f))
  {
    var s := BuildShopper(f);
    if ValidateShopper(s) != [] then page
    else
      var shoppers := page.shoppers + [s];
      ShopperPage(shoppers, ShowLatest(shoppers))
  }

  /** Submitting keeps the list made only of valid, trimmed shoppers. */
  lemma {:induction false} SubmitKeepsListOk(page: ShopperPage, f: ShopperForm)
    requires ListOk(page.shoppers)
    ensures ListOk(SubmitShopper(page, f).shoppers)
  {
    var r := SubmitShopper(page, f);
    forall i | 0 <= i < |r.shoppers|
      ensures ValidateShopper(r.shoppers[i]) == [] && TrimmedShopper(r.shoppers[i])
    {
      if i < |page.shoppers| {
        assert r.shoppers[i] == r.shoppers[..|page.shoppers|][i];
      }
    }
  }

  /** After an accepted submit, showing the latest JSON again shows the shopper just added. */
  lemma {:induction false} SubmitThenShowLatest(page: ShopperPage, f: ShopperForm)
    requires ValidateShopper(BuildShopper(f)) == []
    ensures ShowLatest(SubmitShopper(page, f).shoppers) == SubmitShopper(page, f).panel
  {
  }

  /** The clear-all button: the list is emptied and the panel says so. */
  function ClearShoppers(page: ShopperPage): (r: ShopperPage)
    ensures r.shoppers == [] && r.panel == AllCleared
    ensures ListOk(r.shoppers)
  {
    ShopperPage([], AllCleared)
  }

  /** After clear-all the "show JSON" button shows the placeholder. */
  lemma {:induction false} ClearThenShowLatest(page: ShopperPage)
    ensures ShowLatest(ClearShoppers(page).shoppers) == NoShopperYet
  {
  }
}
