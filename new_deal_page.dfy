/** The new-deal page of the Next.js application (app/deals/new/page.tsx): its form schema, the
    way an uploaded PDF's fields fill the form, the busy flags that disable the submit button, and
    how a submission ends in an error before any request to HubSpot is sent. */
module NewDealPage {
  import opened Wrappers
  import opened Text
  import opened JsNumber
  import opened JsValues
  import opened DealVars
  import opened DealSchema
  import opened DealUtils
  import opened PdfParser
  import opened PdfParsePage
  import opened Notifications

  datatype PageBroker = PageBroker(email: string, firstName: string, lastName: string, hubspotId: Option<string>)

  datatype PageDeal = PageDeal(
    name: string, stage: string,
    transactionType: seq<string>, propertyType: seq<string>, propertyTypeFuture: seq<string>,
    amount: Number, asIsValue: Number)

  /** The values of the page's form, of the shape its `formSchema` describes. */
  datatype FormValues = FormValues(broker: PageBroker, deal: PageDeal, address: AddressInput)

  /** The form's `defaultValues`. */
  const DefaultValues := FormValues(
    PageBroker("", "", "", None),
    PageDeal("", "", [], [], [], Finite(0.0), Finite(0.0)),
    AddressInput("", "", "", ""))

  /** Every issue `formSchema` reports, in the order of its keys; `isEmail` is zod's e-mail check. */
  function FormIssues(v: FormValues, isEmail: string -> bool): seq<string> {
    (if isEmail(v.broker.email) then [] else ["Invalid email address"])
    + MinLength(v.broker.firstName, 1, "First name is required")
    + MinLength(v.broker.lastName, 1, "Last name is required")
    + MinLength(v.deal.name, 1, "Deal name is required")
    + MinLength(v.deal.stage, 1, "Deal stage is required")
    + NonEmptyList(v.deal.transactionType, "At least one transaction type is required")
    + NonEmptyList(v.deal.propertyType, "At least one property type is required")
    + NonEmptyList(v.deal.propertyTypeFuture, "At least one future property type is required")
    + NonNegative(v.deal.amount, "Amount must be positive")
    + NonNegative(v.deal.asIsValue, "As Is Value must be positive")
    + AddressIssues(v.address)
  }

  /** `formSchema.safeParse(v).success`, stated field by field. */
  predicate IsValidForm(v: FormValues, isEmail: string -> bool) {
    && isEmail(v.broker.email)
    && |v.broker.firstName| >= 1 && |v.broker.lastName| >= 1
    && |v.deal.name| >= 1 && |v.deal.stage| >= 1
    && |v.deal.transactionType| >= 1 && |v.deal.propertyType| >= 1 && |v.deal.propertyTypeFuture| >= 1
    && v.deal.amount.Finite? && v.deal.amount.value >= 0.0
    && v.deal.asIsValue.Finite? && v.deal.asIsValue.value >= 0.0
    && ValidAddress(v.address)
  }

  /** The schema reports no issue exactly when the form is valid. */
  lemma FormIssuesEmpty(v: FormValues, isEmail: string -> bool)
    ensures FormIssues(v, isEmail) == [] <==> IsValidForm(v, isEmail)
  {
    AddressIssuesEmpty(v.address);
  }

  /** The default values never pass: the names and the deal name start empty. */
  lemma DefaultsInvalid(isEmail: string -> bool)
    ensures !IsValidForm(DefaultValues, isEmail)
    ensures "First name is required" in FormIssues(DefaultValues, isEmail)
  {
    var issues := FormIssues(DefaultValues, isEmail);
    var k := if isEmail("") then 0 else 1;
    assert issues[k] == "First name is required";
  }

  /** The page's values as the shape of `dealFormSchema` in lib/schema.ts, with one address. */
  function AsDealForm(v: FormValues): DealFormInput {
    DealFormInput(
      BrokerInput(Some(v.broker.email), Some(v.broker.firstName), Some(v.broker.lastName), v.broker.hubspotId),
      DealInput(Some(v.deal.name), v.deal.stage, v.deal.transactionType, v.deal.propertyType,
                v.deal.propertyTypeFuture, v.deal.amount, v.deal.asIsValue),
      [v.address])
  }

  /** The page's schema checks that the stage is non-empty, not that it is a known stage; with a
      known stage, a valid page form also passes the shared deal schema. */
  lemma ValidFormPassesDealSchema(v: FormValues, isEmail: string -> bool)
    requires IsValidForm(v, isEmail)
    ensures IsValidDealForm(AsDealForm(v)) <==> IsStageId(v.deal.stage)
  {
  }

  /** The form slots a PDF field can fill. */
  datatype Slot = DealName | Amount | AsIsValue | Street | City | State | ZipCode

  /** The lower-case names `handlePDFUpload` recognises. */
  const Aliases: set<string> := {"deal name", "amount", "funding request amount", "as is value",
    "current value", "address", "city", "state", "zip", "zip code"}

  /** The `switch (name.toLowerCase())` of `handlePDFUpload`. */
  function SlotOf(name: string): (r: Option<Slot>)
    ensures r.Some? <==> ToLowerAscii(name) in Aliases
  {
    AliasSlot(ToLowerAscii(name))
  }

  /** The cases of that `switch`, on the lower-cased name. */
  function AliasSlot(low: string): (r: Option<Slot>)
    ensures r.Some? <==> low in Aliases
  {
    match low
    case "deal name" => Some(DealName)
    case "amount" => Some(Amount)
    case "funding request amount" => Some(Amount)
    case "as is value" => Some(AsIsValue)
    case "current value" => Some(AsIsValue)
    case "address" => Some(Street)
    case "city" => Some(City)
    case "state" => Some(State)
    case "zip" => Some(ZipCode)
    case "zip code" => Some(ZipCode)
    case _ => None
  }

  /** The names are matched without regard to case. */
  lemma SlotOfIgnoresCase(name: string)
    ensures SlotOf(ToLowerAscii(name)) == SlotOf(name)
  {
    ToLowerAsciiIdempotent(name);
  }

  /** No alias holds a `$`, so a name with one, such as the PDF's "Funding Request Amount ($)",
      fills nothing. */
  lemma CurrencyNamesUnmatched(name: string)
    requires '$' in name
    ensures SlotOf(name) == None
  {
    var i :| 0 <= i < |name| && name[i] == '$';
    var low := ToLowerAscii(name);
    assert low[i] == '$';
    assert forall a | a in Aliases :: '$' !in a;
  }

  /** `parseFloat(value.replace(/[^0-9.-]+/g, ""))`. */
  function ParseAmount(value: string): Number {
    ParseFloat(Filter(value, NumberChar))
  }

  /** Only digits, points and minus signs reach the parser, so stripping them first changes
      nothing. */
  lemma ParseAmountOfStripped(value: string)
    ensures ParseAmount(Filter(value, NumberChar)) == ParseAmount(value)
  {
    FilterKeepsAll(Filter(value, NumberChar), NumberChar);
  }

  /** What a slot holds: text, or a number for the two amounts. */
  datatype SlotValue = Text(text: string) | Num(number: Number)

  function Read(v: FormValues, s: Slot): SlotValue {
    match s
    case DealName => Text(v.deal.name)
    case Amount => Num(v.deal.amount)
    case AsIsValue => Num(v.deal.asIsValue)
    case Street => Text(v.address.street)
    case City => Text(v.address.city)
    case State => Text(v.address.state)
    case ZipCode => Text(v.address.zipCode)
  }

  /** What a field writes into its slot. */
  function Written(f: ParsedField, s: Slot): SlotValue {
    if s == Amount || s == AsIsValue then Num(ParseAmount(f.value)) else Text(f.value)
  }

  /** One `form.setValue` of `handlePDFUpload`'s loop. The broker, the stage and the type lists are
      never written. */
  function ApplyField(v: FormValues, f: ParsedField): (r: FormValues)
    ensures r.broker == v.broker && r.deal.stage == v.deal.stage
    ensures r.deal.transactionType == v.deal.transactionType
    ensures r.deal.propertyType == v.deal.propertyType && r.deal.propertyTypeFuture == v.deal.propertyTypeFuture
  {
    match SlotOf(f.name)
    case None => v
    case Some(DealName) => v.(deal := v.deal.(name := f.value))
    case Some(Amount) => v.(deal := v.deal.(amount := ParseAmount(f.value)))
    case Some(AsIsValue) => v.(deal := v.deal.(asIsValue := ParseAmount(f.value)))
    case Some(Street) => v.(address := v.address.(street := f.value))
    case Some(City) => v.(address := v.address.(city := f.value))
    case Some(State) => v.(address := v.address.(state := f.value))
    case Some(ZipCode) => v.(address := v.address.(zipCode := f.value))
  }

  /** A field writes its own slot and leaves every other slot as it was. */
  lemma ApplyFieldRead(v: FormValues, f: ParsedField, s: Slot)
    ensures Read(ApplyField(v, f), s) == if SlotOf(f.name) == Some(s) then Written(f, s) else Read(v, s)
  {
  }

  /** The fields applied in list order, as `fields.forEach` does. */
  function ApplyAll(v: FormValues, fields: seq<ParsedField>): (r: FormValues)
    ensures r.broker == v.broker && r.deal.stage == v.deal.stage
    ensures r.deal.transactionType == v.deal.transactionType
    ensures r.deal.propertyType == v.deal.propertyType && r.deal.propertyTypeFuture == v.deal.propertyTypeFuture
  {
    if fields == [] then v else ApplyField(ApplyAll(v, fields[..|fields| - 1]), fields[|fields| - 1])
  }

  /** The position of the last field that fills slot `s`, if any. */
  function LastFor(fields: seq<ParsedField>, s: Slot): (r: Option<nat>)
    ensures r.Some? ==> r.value < |fields| && SlotOf(fields[r.value].name) == Some(s)
    ensures r.Some? ==> forall k :: r.value < k < |fields| ==> SlotOf(fields[k].name) != Some(s)
    ensures r.None? ==> forall k :: 0 <= k < |fields| ==> SlotOf(fields[k].name) != Some(s)
  {
    if fields == [] then None
    else if SlotOf(fields[|fields| - 1].name) == Some(s) then Some(|fields| - 1)
    else LastFor(fields[..|fields| - 1], s)
  }

  /** The last field for a slot wins; a slot no field names keeps its value. */
  lemma {:induction false} ApplyAllRead(v: FormValues, fields: seq<ParsedField>, s: Slot)
    ensures Read(ApplyAll(v, fields), s) ==
      match LastFor(fields, s)
      case Some(j) => Written(fields[j], s)
      case None => Read(v, s)
  {
    if fields != [] {
      var init := fields[..|fields| - 1];
      ApplyAllRead(v, init, s);
      ApplyFieldRead(ApplyAll(v, init), fields[|fields| - 1], s);
    }
  }

  /** The state of `NewDealPage`. */
  class Page {
    var values: FormValues
    var isSubmitting: bool
    var isBrokerSearching: bool
    var isAddressChecking: bool
    var isPdfProcessing: bool
    var toast: Option<Toast>

    constructor ()
      ensures values == DefaultValues && toast == None
      ensures !isSubmitting && !isBrokerSearching && !isAddressChecking && !isPdfProcessing
    {
      values := DefaultValues;
      isSubmitting, isBrokerSearching, isAddressChecking, isPdfProcessing := false, false, false, false;
      toast := None;
    }

    /** The submit button is disabled while any of the four operations runs. */
    predicate SubmitDisabled()
      reads this
    {
      isSubmitting || isBrokerSearching || isAddressChecking || isPdfProcessing
    }

    /** `handlePDFUpload`: on success every extracted field is applied in order and a success
        toast shows; on failure the form stays as it was and the error's message shows. */
    method HandlePdfUpload(document: Result<seq<RawField>, string>, formatUsd: Number -> string,
                           cmp: (string, string) -> int)
      modifies this
      ensures ExtractPdfContent(document, formatUsd, cmp).Success? ==>
        values == ApplyAll(old(values), ExtractPdfContent(document, formatUsd, cmp).value)
        && toast == Some(Toast(true, ProcessedMessage))
      ensures ExtractPdfContent(document, formatUsd, cmp).Failure? ==>
        values == old(values) && toast == Some(Toast(false, ProcessFailed))
      ensures !isPdfProcessing
      ensures isSubmitting == old(isSubmitting) && isBrokerSearching == old(isBrokerSearching)
      ensures isAddressChecking == old(isAddressChecking)
    {
      isPdfProcessing := true;
      var result := ExtractPdfContent(document, formatUsd, cmp);
      if result.Success? {
        ApplyFields(result.value);
        toast := Some(Toast(true, ProcessedMessage));
      } else {
        toast := Some(Toast(false, result.error));
      }
      isPdfProcessing := false;
    }

    /** The `fields.forEach` loop: one `form.setValue` per recognised field, in order. */
    method ApplyFields(fields: seq<ParsedField>)
      modifies this
      ensures values == ApplyAll(old(values), fields)
      ensures isSubmitting == old(isSubmitting) && isBrokerSearching == old(isBrokerSearching)
      ensures isAddressChecking == old(isAddressChecking) && isPdfProcessing == old(isPdfProcessing)
      ensures toast == old(toast)
    {
      var i := 0;
      while i < |fields|
        invariant 0 <= i <= |fields|
        invariant values == ApplyAll(old(values), fields[..i])
        invariant isSubmitting == old(isSubmitting) && isBrokerSearching == old(isBrokerSearching)
        invariant isAddressChecking == old(isAddressChecking) && isPdfProcessing == old(isPdfProcessing)
        invariant toast == old(toast)
      {
        assert fields[..i + 1][..i] == fields[..i];
        values := ApplyField(values, fields[i]);
        i := i + 1;
      }
      assert fields[..i] == fields;
    }

    /** `handleSubmit(onSubmit)`. An invalid form is not submitted. A valid one never reaches
        HubSpot: without a HubSpot id the page calls `createBroker`, which lib/hubspot.ts does
        not export, so the call throws; with one, `createDeal` is handed the flat object of
        `CreateDealArgument` and throws reading its `deal.name`. Either way the error toast
        shows, the form keeps its values, and submitting ends. */
    method Submit(isEmail: string -> bool) returns (failedAt: Option<SubmitCall>)
      requires !SubmitDisabled()
      modifies this
      ensures !IsValidForm(old(values), isEmail) ==> failedAt == None && toast == old(toast)
      ensures IsValidForm(old(values), isEmail) ==>
        failedAt == Some(if PresentText(old(values).broker.hubspotId) then CreateDealCall else CreateBrokerCall)
      ensures IsValidForm(old(values), isEmail) ==> toast == Some(Toast(false, TypeErrorText))
      ensures values == old(values) && !SubmitDisabled()
    {
      if !IsValidForm(values, isEmail) {
        return None;
      }
      isSubmitting := true;
      var brokerId := values.broker.hubspotId;
      if !PresentText(brokerId) {
        // `createBroker` is `undefined`: calling it throws.
        failedAt := Some(CreateBrokerCall);
        toast := Some(Toast(false, TypeErrorText));
      } else {
        // `createDeal` first evaluates `data.deal.name`.
        var argument := CreateDealArgument(values, brokerId.value);
        var read := ReadProperty(Get(argument, "deal"), "name");
        CreateDealArgumentLacksDeal(values, brokerId.value);
        failedAt := Some(CreateDealCall);
        toast := Some(Toast(false, read.error));
      }
      isSubmitting := false;
    }
  }

  /** The call of `onSubmit` that throws. */
  datatype SubmitCall = CreateBrokerCall | CreateDealCall

  function TextArray(items: seq<string>): JsValue {
    JArr(seq(|items|, i requires 0 <= i < |items| => JStr(items[i])))
  }

  /** `{ ...data.deal, ...data.address, brokerId }`: the deal's and the address's fields side by
      side with the broker id. */
  function CreateDealArgument(v: FormValues, brokerId: string): (arg: JsValue)
    ensures arg.JObj? && Get(arg, "brokerId") == JStr(brokerId)
    ensures Get(arg, "name") == JStr(v.deal.name) && Get(arg, "street") == JStr(v.address.street)
  {
    JObj(map[
      "name" := JStr(v.deal.name), "stage" := JStr(v.deal.stage),
      "transactionType" := TextArray(v.deal.transactionType),
      "propertyType" := TextArray(v.deal.propertyType),
      "propertyTypeFuture" := TextArray(v.deal.propertyTypeFuture),
      "amount" := JNum(v.deal.amount), "asIsValue" := JNum(v.deal.asIsValue),
      "street" := JStr(v.address.street), "city" := JStr(v.address.city),
      "state" := JStr(v.address.state), "zipCode" := JStr(v.address.zipCode),
      "brokerId" := JStr(brokerId)])
  }

  /** The argument has no `deal` key (nor `addresses`), so `createDeal`'s first read,
      `data.deal.name`, throws a `TypeError` before any request is sent. */
  lemma CreateDealArgumentLacksDeal(v: FormValues, brokerId: string)
    ensures "deal" !in CreateDealArgument(v, brokerId).fields
    ensures "addresses" !in CreateDealArgument(v, brokerId).fields
    ensures ReadProperty(Get(CreateDealArgument(v, brokerId), "deal"), "name") == Failure(TypeErrorText)
  {
    var keys := CreateDealArgument(v, brokerId).fields.Keys;
    assert keys == {"name", "stage", "transactionType", "propertyType", "propertyTypeFuture", "amount",
      "asIsValue", "street", "city", "state", "zipCode", "brokerId"};
  }

  /** A form that only a PDF upload has touched: the PDF fills the deal name, amounts and
      address, but never the broker, the stage or the type lists, so the form stays invalid. */
  method UploadIntoNewForm(document: Result<seq<RawField>, string>, formatUsd: Number -> string,
                           cmp: (string, string) -> int, isEmail: string -> bool) returns (valid: bool, disabled: bool)
    ensures !valid && !disabled
  {
    var page := new Page();
    page.HandlePdfUpload(document, formatUsd, cmp);
    valid := IsValidForm(page.values, isEmail);
    disabled := page.SubmitDisabled();
  }
}
