/** The deal helpers of the Next.js application (lib/utils.ts): the state-name lookup over
    `unitedStatesList`, the mapping of a validated deal form onto the eleven HubSpot deal
    properties, and the address completeness test. */
module DealUtils {
  import opened Wrappers
  import opened Text
  import opened JsNumber
  import opened JsValues
  import opened DealVars
  import opened DealSchema
  import opened DealSchemas

  /** `unitedStatesList.find(...)` from entry `from` on: the index of the first entry whose
      abbreviation is exactly `abbreviation`. */
  function FindAbbreviation(abbreviation: string, from: nat): (r: Option<nat>)
    requires from <= UsStateCount
    ensures r.Some? ==> from <= r.value < UsStateCount && UsStateAt(r.value).abbreviation == abbreviation
    ensures r.Some? ==> forall j :: from <= j < r.value ==> UsStateAt(j).abbreviation != abbreviation
    ensures r.None? ==> forall j :: from <= j < UsStateCount ==> UsStateAt(j).abbreviation != abbreviation
    decreases UsStateCount - from
  {
    if from == UsStateCount then None
    else if UsStateAt(from).abbreviation == abbreviation then Some(from)
    else FindAbbreviation(abbreviation, from + 1)
  }

  /** `getFullStateName`: the name of the entry found, or the input itself when none is found
      (the source's `state?.name || abbreviation`). */
  function GetFullStateName(abbreviation: string): (r: string)
    ensures r == abbreviation || exists i :: 0 <= i < UsStateCount && UsStateAt(i).abbreviation == abbreviation && r == UsStateAt(i).name
  {
    match FindAbbreviation(abbreviation, 0)
    case Some(i) => if UsStateAt(i).name != "" then UsStateAt(i).name else abbreviation
    case None => abbreviation
  }

  /** Abbreviations are distinct, so the entry `find` stops at is the one that has it. */
  lemma FindsTheEntry(i: nat)
    requires i < UsStateCount
    ensures FindAbbreviation(UsStateAt(i).abbreviation, 0) == Some(i)
  {
    var r := FindAbbreviation(UsStateAt(i).abbreviation, 0);
    UsStateIndexOfAt(i);
    UsStateIndexOfAt(r.value);
  }

  /** The abbreviation of entry `i` turns back into its name. */
  lemma FullStateNameOfEntry(i: nat)
    requires i < UsStateCount
    ensures GetFullStateName(UsStateAt(i).abbreviation) == UsStateAt(i).name
  {
    FindsTheEntry(i);
    UsStateNameAt(i);
  }

  /** Every abbreviation of the list turns back into its own name. */
  lemma FullStateNameOfEveryEntry()
    ensures forall i :: 0 <= i < UsStateCount ==>
      GetFullStateName(UsStateAt(i).abbreviation) == UsStateAt(i).name
  {
    forall i | 0 <= i < UsStateCount
      ensures GetFullStateName(UsStateAt(i).abbreviation) == UsStateAt(i).name
    {
      FullStateNameOfEntry(i);
    }
  }

  /** Text that no entry has as its abbreviation (the comparison is exact, so "ca" is one) comes
      back unchanged. */
  lemma UnknownAbbreviationUnchanged(abbreviation: string)
    requires forall i :: 0 <= i < UsStateCount ==> UsStateAt(i).abbreviation != abbreviation
    ensures GetFullStateName(abbreviation) == abbreviation
  {
  }

  /** Text that is not two characters long, such as a full state name, passes through unchanged. */
  lemma FullNamePassesThrough(name: string)
    requires |name| != 2
    ensures GetFullStateName(name) == name
  {
    var r := FindAbbreviation(name, 0);
    if r.Some? {
      UsStateShapeAt(r.value);
    }
  }

  /** The eleven HubSpot deal properties, as `mapFormToHubspotProperties` returns them and as
      `createDeal` sends them; the amount and the as-is value may be numbers or text. */
  datatype HubspotProperties = HubspotProperties(
    dealname: string, dealstage: string,
    transactionType: string, propertyType: string, propertyTypeFuture: string,
    amount: JsValue, asIsValue: JsValue,
    propertyAddress: string, city: string, stateLocatedIn: string, zipCode: string)

  /** `a || b` on an optional string: the first when it is present and non-empty. */
  function OrElse(a: Option<string>, b: string): (r: string)
    ensures a.Some? && a.value != "" ==> r == a.value
    ensures a.None? || a.value == "" ==> r == b
  {
    if a.Some? && a.value != "" then a.value else b
  }

  /** `mapFormToHubspotProperties`. Only the first address is read; with no address at all the
      read of its street throws a `TypeError`. */
  function MapFormToHubspotProperties(data: DealFormInput): (r: Result<HubspotProperties, string>)
    ensures r.Failure? <==> data.addresses == []
    ensures r.Failure? ==> r.error == "TypeError"
  {
    if data.addresses == [] then Failure("TypeError")
    else
      var primary := data.addresses[0];
      Success(HubspotProperties(
        OrElse(data.deal.name, primary.street),
        data.deal.stage,
        Join(data.deal.transactionType, "; "),
        Join(data.deal.propertyType, "; "),
        Join(data.deal.propertyTypeFuture, "; "),
        JNum(data.deal.amount),
        JNum(data.deal.asIsValue),
        primary.street,
        primary.city,
        GetFullStateName(primary.state),
        primary.zipCode))
  }

  /** The deal name is used when given and non-empty, the first street otherwise; the street,
      city and zip code come from the first address, the state is spelled out, and the stage and
      both amounts pass through. */
  lemma MapFormCopiesFirstAddress(data: DealFormInput)
    requires data.addresses != []
    ensures var p := MapFormToHubspotProperties(data).value;
      && p.dealname == (if data.deal.name.Some? && data.deal.name.value != "" then data.deal.name.value
                        else data.addresses[0].street)
      && p.dealstage == data.deal.stage
      && p.amount == JNum(data.deal.amount) && p.asIsValue == JNum(data.deal.asIsValue)
      && p.propertyAddress == data.addresses[0].street
      && p.city == data.addresses[0].city
      && p.zipCode == data.addresses[0].zipCode
      && p.stateLocatedIn == GetFullStateName(data.addresses[0].state)
  {
  }

  /** Addresses after the first one do not change the mapping. */
  lemma MapFormIgnoresLaterAddresses(data: DealFormInput, more: seq<AddressInput>)
    requires data.addresses != []
    ensures MapFormToHubspotProperties(data.(addresses := data.addresses + more))
         == MapFormToHubspotProperties(data)
  {
    assert (data.addresses + more)[0] == data.addresses[0];
  }

  /** The type lists are joined with "; " in their order: one more type adds "; " and the type at
      the end. */
  lemma MapFormJoinsTypes(data: DealFormInput, extra: string)
    requires data.addresses != [] && data.deal.transactionType != []
    ensures var more := data.(deal := data.deal.(transactionType := data.deal.transactionType + [extra]));
      MapFormToHubspotProperties(more).value.transactionType
        == MapFormToHubspotProperties(data).value.transactionType + "; " + extra
  {
    JoinAppend(data.deal.transactionType, extra, "; ");
  }

  /** The mapped object as a JavaScript value, with the source's property names. */
  function PropertiesObject(p: HubspotProperties): (v: JsValue)
    ensures v.JObj? && v.fields.Keys == PropertyKeys
  {
    JObj(map[
      "dealname" := JStr(p.dealname),
      "dealstage" := JStr(p.dealstage),
      "transaction_type" := JStr(p.transactionType),
      "property_type" := JStr(p.propertyType),
      "property_type__future_" := JStr(p.propertyTypeFuture),
      "amount" := p.amount,
      "as_is_value" := p.asIsValue,
      "property_address" := JStr(p.propertyAddress),
      "city" := JStr(p.city),
      "state_located_in" := JStr(p.stateLocatedIn),
      "zip_code" := JStr(p.zipCode)])
  }

  /** The object passes `HubspotDealPropertiesSchema` exactly when the amount and the as-is
      value are text or numbers (NaN fails `z.number()`): every other key is present as text. */
  lemma PropertiesObjectSchema(p: HubspotProperties)
    ensures HubspotDealPropertiesSchema(PropertiesObject(p)) <==> StringOrNumber(p.amount) && StringOrNumber(p.asIsValue)
  {
    var v := PropertiesObject(p);
    assert Get(v, "amount") == p.amount;
    assert Get(v, "as_is_value") == p.asIsValue;
  }

  /** The mapped object has exactly the eleven keys of `HubspotDealPropertiesSchema`; it passes the
      schema exactly when both amounts are numbers, so every valid form maps to properties the
      schema accepts. */
  lemma MappedPropertiesMatchSchema(data: DealFormInput)
    requires data.addresses != []
    ensures var v := PropertiesObject(MapFormToHubspotProperties(data).value);
      && v.fields.Keys == PropertyKeys
      && (HubspotDealPropertiesSchema(v) <==> data.deal.amount.Finite? && data.deal.asIsValue.Finite?)
    ensures IsValidDealForm(data) ==>
      HubspotDealPropertiesSchema(PropertiesObject(MapFormToHubspotProperties(data).value))
  {
    PropertiesObjectSchema(MapFormToHubspotProperties(data).value);
  }

  /** The address fields as `areAddressFieldsFilled` receives them: each may be missing. */
  datatype PartialAddress = PartialAddress(
    street: Option<string>, city: Option<string>, state: Option<string>, zipCode: Option<string>)

  /** An optional string is truthy when it is present and non-empty. */
  predicate PresentText(s: Option<string>) {
    s.Some? && s.value != ""
  }

  /** `areAddressFieldsFilled`. */
  function AreAddressFieldsFilled(a: PartialAddress): (r: bool)
    ensures r <==> (&& a.street.Some? && a.street.value != "" && a.city.Some? && a.city.value != ""
                    && a.state.Some? && a.state.value != "" && a.zipCode.Some? && a.zipCode.value != "")
  {
    PresentText(a.street) && PresentText(a.city) && PresentText(a.state) && PresentText(a.zipCode)
  }

  /** A complete address passes the test; the test is weaker than the schema's address check,
      which also wants two state and five zip-code characters. */
  lemma FilledIsWeakerThanValid(a: AddressInput)
    ensures ValidAddress(a) ==>
      AreAddressFieldsFilled(PartialAddress(Some(a.street), Some(a.city), Some(a.state), Some(a.zipCode)))
    ensures AreAddressFieldsFilled(PartialAddress(Some("1 Main St"), Some("Mesa"), Some("A"), Some("8")))
    ensures !ValidAddress(AddressInput("1 Main St", "Mesa", "A", "8"))
  {
  }
}
