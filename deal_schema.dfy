/** The validation schema of the deal form (lib/schema.ts), written as the list of issues the
    schema reports for a typed form value, and as the validity predicate that holds exactly when
    that list is empty. The form value is already of the schema's shape, so only the refinements
    (lengths, bounds, the stage check) are modelled; `z.number()` rejects NaN. */
module DealSchema {
  import opened Wrappers
  import opened JsNumber
  import opened DealVars

  datatype BrokerInput = BrokerInput(
    email: Option<string>, firstName: Option<string>, lastName: Option<string>, hubspotId: Option<string>)

  datatype DealInput = DealInput(
    name: Option<string>, stage: string,
    transactionType: seq<string>, propertyType: seq<string>, propertyTypeFuture: seq<string>,
    amount: Number, asIsValue: Number)

  datatype AddressInput = AddressInput(street: string, city: string, state: string, zipCode: string)

  /** A value of the shape `dealFormSchema` describes. */
  datatype DealFormInput = DealFormInput(broker: BrokerInput, deal: DealInput, addresses: seq<AddressInput>)

  /** `z.string().min(n, message)`. */
  function MinLength(s: string, n: nat, message: string): (issues: seq<string>)
    ensures issues == [] <==> |s| >= n
  {
    if |s| >= n then [] else [message]
  }

  /** `z.string().min(n, message).optional()`: an absent value passes. */
  function OptionalMinLength(s: Option<string>, n: nat, message: string): (issues: seq<string>)
    ensures issues == [] <==> (s.Some? ==> |s.value| >= n)
  {
    match s
    case None => []
    case Some(t) => MinLength(t, n, message)
  }

  /** `z.array(...).min(1, message)`. */
  function NonEmptyList<T>(xs: seq<T>, message: string): (issues: seq<string>)
    ensures issues == [] <==> |xs| >= 1
  {
    if |xs| >= 1 then [] else [message]
  }

  /** `z.number().min(0, message)`; NaN fails the type check first. */
  function NonNegative(x: Number, message: string): (issues: seq<string>)
    ensures issues == [] <==> x.Finite? && x.value >= 0.0
  {
    match x
    case NaN => ["Expected number, received nan"]
    case Finite(v) => if v >= 0.0 then [] else [message]
  }

  function BrokerIssues(b: BrokerInput): seq<string> {
    OptionalMinLength(b.firstName, 1, "First name is required")
    + OptionalMinLength(b.lastName, 1, "Last name is required")
  }

  function DealIssues(d: DealInput): seq<string> {
    (if IsStageId(d.stage) then [] else ["Invalid deal stage"])
    + NonEmptyList(d.transactionType, "At least one transaction type is required")
    + NonEmptyList(d.propertyType, "At least one property type is required")
    + NonEmptyList(d.propertyTypeFuture, "At least one future property type is required")
    + NonNegative(d.amount, "Amount must be positive")
    + NonNegative(d.asIsValue, "As Is Value must be positive")
  }

  function AddressIssues(a: AddressInput): seq<string> {
    MinLength(a.street, 1, "Street address is required")
    + MinLength(a.city, 1, "City is required")
    + MinLength(a.state, 2, "State is required")
    + MinLength(a.zipCode, 5, "ZIP code must be at least 5 characters")
  }

  /** The issues of every address, in order. */
  function EachAddressIssues(addresses: seq<AddressInput>): seq<string> {
    if addresses == [] then []
    else AddressIssues(addresses[0]) + EachAddressIssues(addresses[1..])
  }

  /** Every issue `dealFormSchema` reports, in the order of the schema's keys. */
  function DealFormIssues(f: DealFormInput): seq<string> {
    BrokerIssues(f.broker) + DealIssues(f.deal)
    + NonEmptyList(f.addresses, "At least one address is required") + EachAddressIssues(f.addresses)
  }

  predicate ValidAddress(a: AddressInput) {
    |a.street| >= 1 && |a.city| >= 1 && |a.state| >= 2 && |a.zipCode| >= 5
  }

  /** `dealFormSchema.safeParse(f).success`, stated field by field. */
  predicate IsValidDealForm(f: DealFormInput) {
    && (f.broker.firstName.Some? ==> |f.broker.firstName.value| >= 1)
    && (f.broker.lastName.Some? ==> |f.broker.lastName.value| >= 1)
    && IsStageId(f.deal.stage)
    && |f.deal.transactionType| >= 1
    && |f.deal.propertyType| >= 1
    && |f.deal.propertyTypeFuture| >= 1
    && f.deal.amount.Finite? && f.deal.amount.value >= 0.0
    && f.deal.asIsValue.Finite? && f.deal.asIsValue.value >= 0.0
    && |f.addresses| >= 1
    && forall i :: 0 <= i < |f.addresses| ==> ValidAddress(f.addresses[i])
  }

  lemma AddressIssuesEmpty(a: AddressInput)
    ensures AddressIssues(a) == [] <==> ValidAddress(a)
  {
  }

  lemma {:induction false} EachAddressIssuesEmpty(addresses: seq<AddressInput>)
    ensures EachAddressIssues(addresses) == [] <==>
      forall i :: 0 <= i < |addresses| ==> ValidAddress(addresses[i])
  {
    if addresses != [] {
      EachAddressIssuesEmpty(addresses[1..]);
      AddressIssuesEmpty(addresses[0]);
      assert forall i :: 1 <= i < |addresses| ==> addresses[i] == addresses[1..][i - 1];
    }
  }

  /** The schema reports no issue exactly when the form is valid. */
  lemma DealFormIssuesEmpty(f: DealFormInput)
    ensures DealFormIssues(f) == [] <==> IsValidDealForm(f)
  {
    EachAddressIssuesEmpty(f.addresses);
  }

  /** The type lists need an element each, but their elements are not checked against the option
      lists: any non-empty lists of any strings pass. */
  lemma TypeListsUnchecked(f: DealFormInput, t: seq<string>, p: seq<string>, q: seq<string>)
    requires IsValidDealForm(f)
    requires |t| >= 1 && |p| >= 1 && |q| >= 1
    ensures IsValidDealForm(f.(deal := f.deal.(transactionType := t, propertyType := p, propertyTypeFuture := q)))
  {
  }

  /** The broker fields and the deal name are optional: dropping all of them keeps a valid form
      valid. */
  lemma BrokerAndNameOptional(f: DealFormInput)
    requires IsValidDealForm(f)
    ensures IsValidDealForm(f.(broker := BrokerInput(None, None, None, None), deal := f.deal.(name := None)))
  {
  }

  /** An empty first name is rejected, even though the field itself is optional. */
  lemma EmptyFirstNameRejected(f: DealFormInput)
    requires f.broker.firstName == Some("")
    ensures "First name is required" in DealFormIssues(f)
    ensures !IsValidDealForm(f)
  {
    assert DealFormIssues(f)[0] == "First name is required";
  }
}
