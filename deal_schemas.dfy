/** The `zod` object schemas of the SvelteKit deal route (src/lib/types/deals.schemas.ts) as
    predicates over dynamic values. An object schema accepts any object whose listed keys pass
    their checks (a missing key reads `undefined`; unlisted keys are ignored). `z.number()`
    rejects NaN. The e-mail format check of `z.string().email()` is a parameter. */
module DealSchemas {
  import opened JsNumber
  import opened JsValues

  predicate IsString(v: JsValue) {
    v.JStr?
  }

  /** `z.number()`. */
  predicate IsNumber(v: JsValue) {
    v.JNum? && v.n.Finite?
  }

  /** `z.string().optional()`. */
  predicate OptionalString(v: JsValue) {
    v.JUndefined? || v.JStr?
  }

  /** `z.number().optional()`. */
  predicate OptionalNumber(v: JsValue) {
    v.JUndefined? || IsNumber(v)
  }

  /** `z.union([z.string(), z.number()])`. */
  predicate StringOrNumber(v: JsValue) {
    IsString(v) || IsNumber(v)
  }

  /** `z.array(z.string().optional())`. */
  predicate ArrayOfOptionalStrings(v: JsValue) {
    v.JArr? && forall i :: 0 <= i < |v.items| ==> OptionalString(v.items[i])
  }

  /** `z.string().email().optional()`. */
  predicate OptionalEmail(v: JsValue, isEmail: string -> bool) {
    v.JUndefined? || (v.JStr? && isEmail(v.s))
  }

  /** `s` matches `\d{n}` from its start to its end (`\d` is an ASCII digit). */
  predicate DigitsPattern(s: string, n: nat) {
    if n == 0 then s == [] else s != [] && IsDigit(s[0]) && DigitsPattern(s[1..], n - 1)
  }

  /** `z.string().length(5).regex(/^\d{5}$/).optional()`, checked as written. */
  predicate OptionalZipCode(v: JsValue) {
    v.JUndefined? || (v.JStr? && |v.s| == 5 && DigitsPattern(v.s, 5))
  }

  lemma {:induction false} DigitsPatternMeans(s: string, n: nat)
    ensures DigitsPattern(s, n) <==> |s| == n && AllDigits(s)
  {
    if n > 0 && s != [] {
      DigitsPatternMeans(s[1..], n - 1);
      assert forall i :: 1 <= i < |s| ==> s[i] == s[1..][i - 1];
    }
  }

  /** A present zip code is exactly five ASCII digits. */
  lemma ZipCodeMeans(v: JsValue)
    ensures OptionalZipCode(v) <==> v.JUndefined? || (v.JStr? && |v.s| == 5 && AllDigits(v.s))
  {
    if v.JStr? {
      DigitsPatternMeans(v.s, 5);
    }
  }

  /** `DealFormSchema`. */
  predicate DealFormSchema(v: JsValue, isEmail: string -> bool) {
    && v.JObj?
    && IsString(Get(v, "dealname")) && |Get(v, "dealname").s| >= 2
    && IsString(Get(v, "dealstage"))
    && ArrayOfOptionalStrings(Get(v, "transaction_type_raw"))
    && OptionalString(Get(v, "transaction_type"))
    && ArrayOfOptionalStrings(Get(v, "property_type_raw"))
    && OptionalString(Get(v, "property_type"))
    && ArrayOfOptionalStrings(Get(v, "property_type_future_raw"))
    && OptionalString(Get(v, "property_type_future"))
    && OptionalNumber(Get(v, "amount"))
    && OptionalString(Get(v, "amount_input"))
    && OptionalNumber(Get(v, "as_is_value"))
    && OptionalString(Get(v, "as_is_value_input"))
    && OptionalString(Get(v, "address"))
    && OptionalString(Get(v, "city"))
    && OptionalString(Get(v, "state"))
    && OptionalZipCode(Get(v, "zip_code"))
    && OptionalEmail(Get(v, "email"), isEmail)
    && OptionalString(Get(v, "firstname"))
    && OptionalString(Get(v, "lastname"))
    && OptionalString(Get(v, "broker_id"))
  }

  /** `DealFormDataValidatedSchema`: here the zip code and the object id are numbers. */
  predicate DealFormDataValidatedSchema(v: JsValue, isEmail: string -> bool) {
    && v.JObj?
    && IsString(Get(v, "dealname"))
    && IsString(Get(v, "dealstage"))
    && OptionalString(Get(v, "transaction_type"))
    && OptionalString(Get(v, "property_type"))
    && OptionalString(Get(v, "property_type_future"))
    && OptionalNumber(Get(v, "amount"))
    && OptionalNumber(Get(v, "as_is_value"))
    && OptionalString(Get(v, "property_address"))
    && OptionalString(Get(v, "city"))
    && OptionalString(Get(v, "state_located_in"))
    && OptionalNumber(Get(v, "zip_code"))
    && OptionalEmail(Get(v, "email"), isEmail)
    && OptionalString(Get(v, "firstname"))
    && OptionalString(Get(v, "lastname"))
    && OptionalNumber(Get(v, "hs_object_id"))
  }

  /** The eleven keys of a HubSpot deal's properties. */
  const PropertyKeys: set<string> := {
    "dealname", "dealstage", "transaction_type", "property_type", "property_type__future_",
    "amount", "as_is_value", "property_address", "city", "state_located_in", "zip_code"}

  /** `HubspotDealPropertiesSchema`: all eleven keys are required; the amount, the as-is value and
      the zip code may be strings or numbers, the others are strings. */
  predicate HubspotDealPropertiesSchema(v: JsValue) {
    && v.JObj?
    && IsString(Get(v, "dealname"))
    && IsString(Get(v, "dealstage"))
    && IsString(Get(v, "transaction_type"))
    && IsString(Get(v, "property_type"))
    && IsString(Get(v, "property_type__future_"))
    && StringOrNumber(Get(v, "amount"))
    && StringOrNumber(Get(v, "as_is_value"))
    && IsString(Get(v, "property_address"))
    && IsString(Get(v, "city"))
    && IsString(Get(v, "state_located_in"))
    && StringOrNumber(Get(v, "zip_code"))
  }

  /** `HubspotDealPropsSchema`: an object whose `properties` pass the schema above. */
  predicate HubspotDealPropsSchema(v: JsValue) {
    v.JObj? && HubspotDealPropertiesSchema(Get(v, "properties"))
  }

  /** Every one of the eleven keys must be present. */
  lemma PropertiesNeedEveryKey(v: JsValue)
    requires HubspotDealPropertiesSchema(v)
    ensures PropertyKeys <= v.fields.Keys
  {
    forall k | k in PropertyKeys ensures k in v.fields {
      assert Get(v, k) != JUndefined;
    }
  }

  /** A zip code given as text fails the validated-data schema, which wants a number. */
  lemma ValidatedZipCodeIsNumber(v: JsValue, zip: string, isEmail: string -> bool)
    requires v.JObj? && "zip_code" in v.fields && v.fields["zip_code"] == JStr(zip)
    ensures !DealFormDataValidatedSchema(v, isEmail)
  {
    assert Get(v, "zip_code") == JStr(zip);
  }

  /** A deal name of fewer than two characters fails `DealFormSchema`, whatever else the value
      holds; the stage may be any string. */
  lemma DealNameNeedsTwoCharacters(v: JsValue, isEmail: string -> bool)
    requires DealFormSchema(v, isEmail)
    ensures |v.fields["dealname"].s| >= 2 && v.fields["dealstage"].JStr?
  {
    assert Get(v, "dealname").JStr? && Get(v, "dealstage").JStr?;
  }

  /** In `DealFormSchema` the amounts are numbers and their `_input` companions text: an amount
      given as text, or an input given as a number, fails. */
  lemma AmountsAreNumbersInputsText(v: JsValue, key: string, text: string, n: Number, isEmail: string -> bool)
    requires v.JObj? && (key == "amount" || key == "as_is_value")
    ensures key in v.fields && v.fields[key] == JStr(text) ==> !DealFormSchema(v, isEmail)
    ensures key + "_input" in v.fields && v.fields[key + "_input"] == JNum(n) ==> !DealFormSchema(v, isEmail)
  {
    if key == "amount" {
      assert key + "_input" == "amount_input";
    } else {
      assert key + "_input" == "as_is_value_input";
    }
    assert Get(v, key) == (if key in v.fields then v.fields[key] else JUndefined);
    assert Get(v, key + "_input") == (if key + "_input" in v.fields then v.fields[key + "_input"] else JUndefined);
  }

  /** `HubspotDealResponseSchema`. */
  predicate HubspotDealResponseSchema(v: JsValue) {
    && v.JObj?
    && IsString(Get(v, "message"))
    && IsNumber(Get(v, "id"))
    && IsString(Get(v, "dealname"))
    && IsString(Get(v, "address"))
  }

  /** `BrokerInfo`: five optional strings. */
  predicate BrokerInfo(v: JsValue) {
    && v.JObj?
    && OptionalString(Get(v, "email"))
    && OptionalString(Get(v, "firstname"))
    && OptionalString(Get(v, "fullname"))
    && OptionalString(Get(v, "brokerid"))
    && OptionalString(Get(v, "lastname"))
  }

  /** `ResponseSchema`. */
  predicate ResponseSchema(v: JsValue) {
    && v.JObj?
    && Get(v, "success").JBool?
    && IsString(Get(v, "fullname"))
    && IsString(Get(v, "brokerid"))
    && IsString(Get(v, "message"))
    && IsString(Get(v, "id"))
    && IsString(Get(v, "dealname"))
    && IsString(Get(v, "address"))
  }

  /** The two response schemas disagree on the type of `id`, so no response passes both. */
  lemma ResponseSchemasDisagreeOnId(v: JsValue)
    ensures !(HubspotDealResponseSchema(v) && ResponseSchema(v))
  {
    if HubspotDealResponseSchema(v) {
      assert Get(v, "id").JNum?;
    }
  }

  /** Every `ResponseSchema` value carries all seven keys. */
  lemma ResponseNeedsEveryKey(v: JsValue)
    requires ResponseSchema(v)
    ensures {"success", "fullname", "brokerid", "message", "id", "dealname", "address"} <= v.fields.Keys
  {
    forall k | k in {"success", "fullname", "brokerid", "message", "id", "dealname", "address"}
      ensures k in v.fields
    {
      assert Get(v, k) != JUndefined;
    }
  }

  /** An object holding only strings, the empty object included, passes `BrokerInfo`. */
  lemma BrokerInfoOfStrings(fields: map<string, JsValue>)
    requires forall k | k in fields :: fields[k].JStr?
    ensures BrokerInfo(JObj(fields))
  {
    var v := JObj(fields);
    assert OptionalString(Get(v, "email")) && OptionalString(Get(v, "firstname"));
  }
}
