/**
 * The billing page controller: `submitBilling` regroups the eleven form
 * fields into a payload of three groups, copying every value unchanged.
 */
module Billing {

  /** `vm.form`: the eleven bound inputs. */
  datatype BillingForm = BillingForm(
    firstName: string, lastName: string, email: string, phone: string,
    address: string, city: string, state: string, zip: string,
    cardNumber: string, exp: string, cvv: string)

  datatype ShopperGroup = ShopperGroup(firstName: string, lastName: string, email: string, phone: string)
  datatype BillingGroup = BillingGroup(address: string, city: string, state: string, zip: string)
  datatype PaymentGroup = PaymentGroup(cardNumber: string, exp: string, cvv: string)

  /** The payload object `submitBilling` shows as JSON. */
  datatype BillingPayload = BillingPayload(shopper: ShopperGroup, billing: BillingGroup, payment: PaymentGroup)

  /** The payload's values read back into a flat form. */
  function Flatten(p: BillingPayload): BillingForm {
    BillingForm(p.shopper.firstName, p.shopper.lastName, p.shopper.email, p.shopper.phone,
                p.billing.address, p.billing.city, p.billing.state, p.billing.zip,
                p.payment.cardNumber, p.payment.exp, p.payment.cvv)
  }

  /** `submitBilling`: no value is checked, dropped or altered; flattening the payload gives the form back. */
  function SubmitBilling(f: BillingForm): (p: BillingPayload)
    ensures Flatten(p) == f
  {
    BillingPayload(ShopperGroup(f.firstName, f.lastName, f.email, f.phone),
                   BillingGroup(f.address, f.city, f.state, f.zip),
                   PaymentGroup(f.cardNumber, f.exp, f.cvv))
  }

  /** Every payload is the regrouping of exactly one form: the regrouping is a bijection. */
  lemma SubmitBillingOfFlatten(p: BillingPayload)
    ensures SubmitBilling(Flatten(p)) == p
  {
  }

  /** Different forms give different payloads. */
  lemma SubmitBillingInjective(f: BillingForm, g: BillingForm)
    requires SubmitBilling(f) == SubmitBilling(g)
    ensures f == g
  {
    assert Flatten(SubmitBilling(f)) == f;
  }
}

/**
 * The returns page controller: a list of return lines with a guarded add,
 * `Array.prototype.splice` removal, clear-all, and the submitted payload.
 */
module Returns {
  import opened Wrappers
  import opened JsNumbers

  /** A catalog row as the page binds it: `qty` and `reason` are whatever the inputs hold. */
  datatype ReturnItem = ReturnItem(sku: string, name: string, qty: JsValue, reason: Option<string>)

  /** A line of `vm.returns`. */
  datatype ReturnLine = ReturnLine(sku: string, name: string, qty: JsNumber, reason: string)

  /** `!p.qty || p.qty < 1`: the quantity is falsy or compares below one. */
  predicate QtyRejected(qty: JsValue) {
    !ValueTruthy(qty) || Less(ValueToNumber(qty), Finite(1.0))
  }

  /** No line's quantity compares below one (a NaN quantity does not compare at all). */
  predicate NoneBelowOne(lines: seq<ReturnLine>) {
    forall i :: 0 <= i < |lines| ==> !Less(lines[i].qty, Finite(1.0))
  }

  /**
   * `addReturn(p)`: a rejected quantity leaves the list alone; otherwise one
   * line `{sku, name, qty: Number(qty), reason: reason || ''}` is pushed.
   */
  function AddReturn(lines: seq<ReturnLine>, p: ReturnItem): (r: seq<ReturnLine>)
    ensures QtyRejected(p.qty) ==> r == lines
    ensures !QtyRejected(p.qty) ==>
      && |r| == |lines| + 1 && r[..|lines|] == lines
      && r[|lines|].sku == p.sku && r[|lines|].name == p.name
      && r[|lines|].qty == ValueToNumber(p.qty)
      && !Less(r[|lines|].qty, Finite(1.0))
      && (p.reason.Some? ==> r[|lines|].reason == p.reason.value)
      && (p.reason.None? ==> r[|lines|].reason == "")
    ensures NoneBelowOne(lines) ==> NoneBelowOne(r)
  {
    if QtyRejected(p.qty) then lines
    else
      var reason := if p.reason.Some? && p.reason.value != [] then p.reason.value else "";
      lines + [ReturnLine(p.sku, p.name, ValueToNumber(p.qty), reason)]
  }

  /** A missing or zero quantity is rejected. */
  lemma {:induction false} MissingOrZeroQtyRejected(lines: seq<ReturnLine>, p: ReturnItem)
    requires p.qty == Undefined || p.qty == Null || p.qty == Num(Finite(0.0)) || p.qty == Str("")
    ensures AddReturn(lines, p) == lines
  {
  }

  /**
   * The guard does not catch text that is not a number: `"abc" < 1` is
   * false, so such a quantity is accepted and the line holds NaN.
   */
  lemma {:induction false} TextQtyAccepted(lines: seq<ReturnLine>, p: ReturnItem)
    requires p.qty.Str? && p.qty.s != [] && ToNumber(p.qty.s).NaN?
    ensures |AddReturn(lines, p)| == |lines| + 1
    ensures AddReturn(lines, p)[|lines|].qty.NaN?
  {
  }

  /** The index `splice` starts at: a negative index counts from the end, and both are clipped to the list. */
  function SpliceStart(len: nat, idx: int): (k: nat)
    ensures k <= len
    ensures 0 <= idx < len ==> k == idx
    ensures -(len as int) <= idx < 0 ==> k == len + idx
    ensures idx < -(len as int) ==> k == 0
    ensures idx >= len ==> k == len
  {
    if idx < 0 then (if len + idx < 0 then 0 else len + idx)
    else if idx < len then idx else len
  }

  /**
   * `removeReturn(idx)`, that is `splice(idx, 1)`: the one line at the
   * start position is removed and the rest keep their order; an index at or
   * past the end removes nothing, and one before the start counts as 0.
   */
  function RemoveReturn(lines: seq<ReturnLine>, idx: int): (r: seq<ReturnLine>)
    ensures var k := SpliceStart(|lines|, idx);
      && (k == |lines| ==> r == lines)
      && (k < |lines| ==>
            && |r| == |lines| - 1
            && (forall i :: 0 <= i < k ==> r[i] == lines[i])
            && (forall i :: k <= i < |r| ==> r[i] == lines[i + 1]))
  {
    var k := SpliceStart(|lines|, idx);
    if k < |lines| then lines[..k] + lines[k + 1..] else lines
  }

  /** Putting the removed line back where it was restores the list. */
  lemma {:induction false} RemoveReturnInverse(lines: seq<ReturnLine>, idx: int)
    requires 0 <= idx < |lines|
    ensures var r := RemoveReturn(lines, idx);
      r[..idx] + [lines[idx]] + r[idx..] == lines
  {
    var r := RemoveReturn(lines, idx);
    var t := r[..idx] + [lines[idx]] + r[idx..];
    assert |t| == |lines|;
    forall i | 0 <= i < |t| ensures t[i] == lines[i] {
      if i < idx {
        assert t[i] == r[i];
      } else if i > idx {
        assert t[i] == r[i - 1];
      }
    }
  }

  /** Removing a line keeps the quantity bound of the others. */
  lemma {:induction false} RemoveKeepsBound(lines: seq<ReturnLine>, idx: int)
    requires NoneBelowOne(lines)
    ensures NoneBelowOne(RemoveReturn(lines, idx))
  {
    var r := RemoveReturn(lines, idx);
    var k := SpliceStart(|lines|, idx);
    forall i | 0 <= i < |r| ensures !Less(r[i].qty, Finite(1.0)) {
      if i >= k {
        assert r[i] == lines[i + 1];
      }
    }
  }

  /** What the returns JSON panel holds once one of the buttons was used. */
  datatype ReturnsPanel = Untouched | EmptyObject | Shows(payload: ReturnsPayload)

  /** `{ shopperId: 'demo-123', returns: vm.returns }`. */
  datatype ReturnsPayload = ReturnsPayload(shopperId: string, lines: seq<ReturnLine>)

  datatype ReturnsPage = ReturnsPage(lines: seq<ReturnLine>, panel: ReturnsPanel)

  /** `clearAll`: `vm.returns` is emptied and the panel shows `{ }`. */
  function ClearAll(page: ReturnsPage): (r: ReturnsPage)
    ensures r.lines == [] && r.panel == EmptyObject
    ensures NoneBelowOne(r.lines)
  {
    ReturnsPage([], EmptyObject)
  }

  /** The fixed shopper the returns page submits for. */
  const DemoShopperId: string := "demo-123"

  /** `submitReturns`: the current `vm.returns` under the fixed shopper id; the list itself is kept. */
  function SubmitReturns(page: ReturnsPage): (r: ReturnsPage)
    ensures r.lines == page.lines
    ensures r.panel.Shows? && r.panel.payload.shopperId == DemoShopperId
    ensures r.panel.payload.lines == page.lines
  {
    ReturnsPage(page.lines, Shows(ReturnsPayload(DemoShopperId, page.lines)))
  }

  /** Clearing and then submitting sends an empty list. */
  lemma {:induction false} ClearThenSubmit(page: ReturnsPage)
    ensures SubmitReturns(ClearAll(page)).panel == Shows(ReturnsPayload("demo-123", []))
  {
  }
}
