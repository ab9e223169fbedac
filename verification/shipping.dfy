/**
 * The shipping page's submit handler: seven trimmed inputs, a required-field
 * check that stops at the first empty field, and the record it displays.
 */
module Shipping {
  import opened Wrappers
  import opened Text

  /**
   * `val(id)`: the trimmed value of the input, or "" when there is no such
   * element (`None`).
   */
  function Val(input: Option<string>): (r: string)
    ensures r == Trim(input.GetOr(""))
    ensures IsTrimmed(r)
    ensures input.None? ==> r == []
  {
    Trim(input.GetOr(""))
  }

  /** A value is non-empty exactly when the element exists and holds more than whitespace. */
  lemma {:induction false} ValNonEmptyIff(input: Option<string>)
    ensures Val(input) != [] <==> input.Some? && !AllSpace(input.value)
  {
    TrimEmptyIff(input.GetOr(""));
  }

  /** Reading a value back from an input that already holds it changes nothing. */
  lemma {:induction false} ValIdempotent(input: Option<string>)
    ensures Val(Some(Val(input))) == Val(input)
  {
    TrimIdempotent(input.GetOr(""));
  }

  /** The first empty value, the one `requiredFieldsOk` stops at. */
  function FirstEmpty(values: seq<string>): Option<nat> {
    FirstIndex(values, (v: string) => v == [])
  }

  /**
   * `requiredFieldsOk(fields)`: walk the fields in order, clearing the
   * `is-invalid` mark of each non-empty one, and at the first empty one set
   * its mark and return false; true when none is empty. `marks[i]` is
   * whether field i carries `is-invalid`.
   */
  method RequiredFieldsOk(values: seq<string>, marks: seq<bool>) returns (ok: bool, marks': seq<bool>)
    requires |marks| == |values|
    ensures |marks'| == |values|
    ensures ok <==> forall i :: 0 <= i < |values| ==> values[i] != []
    ensures ok <==> FirstEmpty(values).None?
    ensures ok ==> forall i :: 0 <= i < |values| ==> !marks'[i]
    ensures !ok ==> var k := FirstEmpty(values).value;
      && marks'[k]
      && (forall i :: 0 <= i < k ==> !marks'[i])
      && (forall i :: k < i < |values| ==> marks'[i] == marks[i])
  {
    marks' := marks;
    var i := 0;
    while i < |values|
      invariant 0 <= i <= |values|
      invariant |marks'| == |values|
      invariant forall j :: 0 <= j < i ==> values[j] != [] && !marks'[j]
      invariant forall j :: i <= j < |values| ==> marks'[j] == marks[j]
    {
      if values[i] == [] {
        marks' := marks'[i := true];
        assert FirstEmpty(values) == Some(i);
        return false, marks';
      }
      marks' := marks'[i := false];
      i := i + 1;
    }
    ok := true;
  }

  /** The element values of the seven inputs (`None` when an element is absent). */
  datatype ShippingInputs = ShippingInputs(
    name: Option<string>, address: Option<string>, city: Option<string>, state: Option<string>,
    zip: Option<string>, carrier: Option<string>, shipMethod: Option<string>)

  /** The `data` object: exactly seven keys (`shipMethod` is the `method` key). */
  datatype ShippingRecord = ShippingRecord(
    name: string, address: string, city: string, state: string,
    zip: string, carrier: string, shipMethod: string)

  /** The record's values in the order they are checked. */
  function Values(d: ShippingRecord): (r: seq<string>)
    ensures |r| == 7
  {
    [d.name, d.address, d.city, d.state, d.zip, d.carrier, d.shipMethod]
  }

  /** Every value of the record is trimmed. */
  predicate RecordTrimmed(d: ShippingRecord) {
    IsTrimmed(d.name) && IsTrimmed(d.address) && IsTrimmed(d.city) && IsTrimmed(d.state)
    && IsTrimmed(d.zip) && IsTrimmed(d.carrier) && IsTrimmed(d.shipMethod)
  }

  /** The record built from the inputs. */
  function ReadRecord(inputs: ShippingInputs): (d: ShippingRecord)
    ensures d.name == Val(inputs.name) && d.address == Val(inputs.address) && d.city == Val(inputs.city)
    ensures d.state == Val(inputs.state) && d.zip == Val(inputs.zip) && d.carrier == Val(inputs.carrier)
    ensures d.shipMethod == Val(inputs.shipMethod)
    ensures RecordTrimmed(d)
  {
    ShippingRecord(Val(inputs.name), Val(inputs.address), Val(inputs.city), Val(inputs.state),
                   Val(inputs.zip), Val(inputs.carrier), Val(inputs.shipMethod))
  }

  /** Reading the record back from inputs holding its values gives it unchanged. */
  lemma ReadRecordFixed(d: ShippingRecord)
    requires RecordTrimmed(d)
    ensures ReadRecord(ShippingInputs(Some(d.name), Some(d.address), Some(d.city), Some(d.state),
                                      Some(d.zip), Some(d.carrier), Some(d.shipMethod))) == d
  {
    TrimmedUnchanged(d.name);
    TrimmedUnchanged(d.address);
    TrimmedUnchanged(d.city);
    TrimmedUnchanged(d.state);
    TrimmedUnchanged(d.zip);
    TrimmedUnchanged(d.carrier);
    TrimmedUnchanged(d.shipMethod);
  }

  /**
   * Whether all seven input elements exist. The list handed to
   * `requiredFieldsOk` names each element through its global id, so a missing
   * one makes the handler throw before any field is marked.
   */
  predicate AllPresent(inputs: ShippingInputs) {
    && inputs.name.Some? && inputs.address.Some? && inputs.city.Some? && inputs.state.Some?
    && inputs.zip.Some? && inputs.carrier.Some? && inputs.shipMethod.Some?
  }

  /**
   * What the handler does: the alert, the record as JSON and in the page, or a
   * `ReferenceError` for a missing element.
   */
  datatype ShippingOutcome = PleaseFillAll | Shown(data: ShippingRecord) | Throws

  /**
   * The submit handler: read the seven values, run the required check over
   * them in order, and show the record only when every value is non-empty;
   * when an input element is missing, throw before marking anything.
   */
  method SubmitShipping(inputs: ShippingInputs, marks: seq<bool>) returns (r: ShippingOutcome, marks': seq<bool>)
    requires |marks| == 7
    ensures |marks'| == 7
    ensures r.Throws? <==> !AllPresent(inputs)
    ensures r.Throws? ==> marks' == marks
    ensures r.Shown? <==> AllPresent(inputs) && forall i :: 0 <= i < 7 ==> Values(ReadRecord(inputs))[i] != []
    ensures r.Shown? ==> r.data == ReadRecord(inputs) && forall i :: 0 <= i < 7 ==> !marks'[i]
    ensures r.PleaseFillAll? ==> var k := FirstEmpty(Values(ReadRecord(inputs))).value;
      marks'[k] && forall i :: 0 <= i < 7 && i != k ==> marks'[i] == (marks[i] && i > k)
  {
    if !AllPresent(inputs) {
      return Throws, marks;
    }
    var data := ReadRecord(inputs);
    var ok;
    ok, marks' := RequiredFieldsOk(Values(data), marks);
    if !ok {
      return PleaseFillAll, marks';
    }
    r := Shown(data);
  }
}
