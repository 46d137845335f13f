/** The client side of the HubSpot API (lib/hubspot.ts): the request body `createDeal` sends, the
    deal URL, and how each wrapper turns a server response into a result or an error message.
    The `fetch` calls themselves are not modelled: a wrapper receives the response it got. */
module Hubspot {
  import opened Wrappers
  import opened Text
  import opened JsNumber
  import opened JsValues
  import opened DealSchema
  import opened DealSchemas
  import opened DealUtils

  /** The `properties` of the `createDeal` request. Unlike `mapFormToHubspotProperties`, the
      amounts are sent as text and the state as entered. */
  function CreateDealProperties(data: DealFormInput, numberToString: Number -> string): HubspotProperties
    requires data.addresses != []
  {
    var first := data.addresses[0];
    HubspotProperties(
      OrElse(data.deal.name, first.street),
      data.deal.stage,
      Join(data.deal.transactionType, "; "),
      Join(data.deal.propertyType, "; "),
      Join(data.deal.propertyTypeFuture, "; "),
      JStr(numberToString(data.deal.amount)),
      JStr(numberToString(data.deal.asIsValue)),
      first.street,
      first.city,
      first.state,
      first.zipCode)
  }

  /** The `associations` list: one link to the broker's contact. */
  function BrokerAssociation(hubspotId: string): JsValue {
    JArr([JObj(map["to" := JObj(map["id" := JStr(hubspotId)])])])
  }

  /** The JSON body `createDeal` posts. `associations` is `undefined` without a broker id, and
      `JSON.stringify` leaves such a key out. Reading `addresses[0].street` throws when there is
      no address. */
  function CreateDealBody(data: DealFormInput, numberToString: Number -> string): (r: Result<JsValue, string>)
    ensures r.Failure? <==> data.addresses == []
    ensures r.Failure? ==> r.error == "TypeError"
    ensures r.Success? ==> r.value.JObj?
    ensures r.Success? ==> Get(r.value, "properties") == PropertiesObject(CreateDealProperties(data, numberToString))
    ensures r.Success? ==>
      (Get(r.value, "associations") != JUndefined <==> PresentText(data.broker.hubspotId))
    ensures r.Success? && PresentText(data.broker.hubspotId) ==>
      Get(r.value, "associations") == BrokerAssociation(data.broker.hubspotId.value)
  {
    if data.addresses == [] then Failure("TypeError")
    else
      var properties := PropertiesObject(CreateDealProperties(data, numberToString));
      if PresentText(data.broker.hubspotId) then
        Success(JObj(map["properties" := properties,
                         "associations" := BrokerAssociation(data.broker.hubspotId.value)]))
      else
        Success(JObj(map["properties" := properties]))
  }

  /** Whatever the form holds, the body passes `HubspotDealPropsSchema`: every property is text. */
  lemma CreateDealBodyMatchesSchema(data: DealFormInput, numberToString: Number -> string)
    requires data.addresses != []
    ensures HubspotDealPropsSchema(CreateDealBody(data, numberToString).value)
  {
    PropertiesObjectSchema(CreateDealProperties(data, numberToString));
  }

  /** The body agrees with `mapFormToHubspotProperties` except in three properties: the amount and
      the as-is value are sent as text, and the state as entered rather than spelled out. */
  lemma CreateDealAgreesWithMapping(data: DealFormInput, numberToString: Number -> string)
    requires data.addresses != []
    ensures CreateDealProperties(data, numberToString)
      == MapFormToHubspotProperties(data).value.(
           amount := JStr(numberToString(data.deal.amount)),
           asIsValue := JStr(numberToString(data.deal.asIsValue)),
           stateLocatedIn := data.addresses[0].state)
  {
  }

  /** The message of `getHubSpotDealUrl`'s error. */
  const MissingUrlMessage := "NEXT_PUBLIC_HUBSPOT_URL environment variable is not set"

  /** `getHubSpotDealUrl`, with the environment variable as a parameter: an unset or empty base
      URL is an error, otherwise the URL is the base, "/deal/" and the id. */
  function GetHubSpotDealUrl(baseUrl: Option<string>, dealId: string): (r: Result<string, string>)
    ensures r.Failure? <==> !PresentText(baseUrl)
    ensures r.Failure? ==> r.error == MissingUrlMessage
    ensures r.Success? ==> |r.value| == |baseUrl.value| + 6 + |dealId|
    ensures r.Success? ==> r.value[..|baseUrl.value|] == baseUrl.value
    ensures r.Success? ==> r.value[|baseUrl.value|..|baseUrl.value| + 6] == "/deal/"
    ensures r.Success? ==> r.value[|baseUrl.value| + 6..] == dealId
  {
    if !PresentText(baseUrl) then Failure(MissingUrlMessage)
    else Success(baseUrl.value + "/deal/" + dealId)
  }

  /** The deal id can be read back from the URL, so different ids give different URLs. */
  lemma DealUrlDeterminesId(baseUrl: Option<string>, id1: string, id2: string)
    requires PresentText(baseUrl)
    requires GetHubSpotDealUrl(baseUrl, id1) == GetHubSpotDealUrl(baseUrl, id2)
    ensures id1 == id2
  {
    var n := |baseUrl.value| + 6;
    assert id1 == GetHubSpotDealUrl(baseUrl, id1).value[n..];
  }

  /** What a wrapper's `fetch` got: the `ok` flag and what `response.json()` gives, the parsed
      body or, for text that is not JSON (an empty error page, say), the message of the
      `SyntaxError` it throws. */
  datatype Response = Response(ok: bool, body: Result<JsValue, string>)

  /** The message of what a wrapper throws for a failed response whose body parsed: reading
      `error.message` throws a `TypeError` when the body is `null`; otherwise the text of
      `new Error(error.message || fallback)`, the body's `message` when it is truthy
      (`stringOf` is `String(...)` for a message that is not text), the wrapper's fixed text
      otherwise. */
  function ErrorMessage(body: JsValue, fallback: string, stringOf: JsValue -> string): (m: string)
    ensures Nullish(body) ==> m == TypeErrorText
    ensures Get(body, "message").JStr? && Get(body, "message").s != "" ==> m == Get(body, "message").s
    ensures !Nullish(body) && !Truthy(Get(body, "message")) ==> m == fallback
  {
    match ReadProperty(body, "message")
    case Failure(e) => e
    case Success(message) =>
      if !Truthy(message) then fallback
      else if message.JStr? then message.s
      else stringOf(message)
  }

  const SearchBrokerFailed := "Failed to search broker"
  const CheckDealNameFailed := "Failed to check deal name"
  const CheckAddressFailed := "Failed to check address"
  const CreateDealFailed := "Failed to create deal"

  /** The outcome common to all four wrappers: the body on success; the `SyntaxError` of a body
      that is not JSON, whether or not the response is OK; otherwise the error's text. */
  function Outcome(response: Response, fallback: string, stringOf: JsValue -> string): (r: Result<JsValue, string>)
    ensures r.Success? <==> response.ok && response.body.Success?
    ensures r.Success? ==> r.value == response.body.value
    ensures response.body.Failure? ==> r == Failure(response.body.error)
    ensures !response.ok && response.body.Success? ==>
      r == Failure(ErrorMessage(response.body.value, fallback, stringOf))
  {
    match response.body
    case Failure(e) => Failure(e)
    case Success(body) =>
      if response.ok then Success(body) else Failure(ErrorMessage(body, fallback, stringOf))
  }

  /** `searchBrokerByEmail`. */
  function SearchBrokerByEmail(response: Response, stringOf: JsValue -> string): (r: Result<JsValue, string>)
    ensures r.Success? <==> response.ok && response.body.Success?
    ensures r.Success? ==> r.value == response.body.value
    ensures !response.ok && response.body.Success? && !Nullish(response.body.value) && !Truthy(Get(response.body.value, "message")) ==>
      r == Failure(SearchBrokerFailed)
  {
    Outcome(response, SearchBrokerFailed, stringOf)
  }

  /** `checkDuplicateDealName`: on success, exactly the body's `exists` (which may even be
      `undefined`), and a `TypeError` when the body is `null`. */
  function CheckDuplicateDealName(response: Response, stringOf: JsValue -> string): (r: Result<JsValue, string>)
    ensures response.ok && response.body.Success? && !Nullish(response.body.value) ==>
      r == Success(Get(response.body.value, "exists"))
    ensures response.ok && response.body.Success? && Nullish(response.body.value) ==>
      r == Failure(TypeErrorText)
    ensures !response.ok || response.body.Failure? ==> r == Outcome(response, CheckDealNameFailed, stringOf)
  {
    match Outcome(response, CheckDealNameFailed, stringOf)
    case Success(body) => ReadProperty(body, "exists")
    case Failure(e) => Failure(e)
  }

  /** `checkDuplicateAddress`. */
  function CheckDuplicateAddress(response: Response, stringOf: JsValue -> string): (r: Result<JsValue, string>)
    ensures r.Success? <==> response.ok && response.body.Success?
    ensures r.Success? ==> r.value == response.body.value
    ensures !response.ok && response.body.Success? && !Nullish(response.body.value) && !Truthy(Get(response.body.value, "message")) ==>
      r == Failure(CheckAddressFailed)
  {
    Outcome(response, CheckAddressFailed, stringOf)
  }

  /** `createDeal`, after the request. */
  function CreateDeal(response: Response, stringOf: JsValue -> string): (r: Result<JsValue, string>)
    ensures r.Success? <==> response.ok && response.body.Success?
    ensures r.Success? ==> r.value == response.body.value
    ensures !response.ok && response.body.Success? && !Nullish(response.body.value) && !Truthy(Get(response.body.value, "message")) ==>
      r == Failure(CreateDealFailed)
  {
    Outcome(response, CreateDealFailed, stringOf)
  }

  /** The API routes answer a failure with an `error` field and no `message`, so each wrapper
      reports its own fixed text, never the server's. */
  lemma ErrorFieldIsIgnored(error: JsValue, stringOf: JsValue -> string)
    ensures var response := Response(false, Success(JObj(map["error" := error])));
      && SearchBrokerByEmail(response, stringOf) == Failure(SearchBrokerFailed)
      && CheckDuplicateDealName(response, stringOf) == Failure(CheckDealNameFailed)
      && CheckDuplicateAddress(response, stringOf) == Failure(CheckAddressFailed)
      && CreateDeal(response, stringOf) == Failure(CreateDealFailed)
  {
    var body := JObj(map["error" := error]);
    assert Get(body, "message") == JUndefined;
  }

  /** A non-empty text `message` is what every wrapper reports. */
  lemma MessageIsReported(response: Response, message: string, stringOf: JsValue -> string)
    requires !response.ok && response.body.Success?
    requires Get(response.body.value, "message") == JStr(message) && message != ""
    ensures SearchBrokerByEmail(response, stringOf) == Failure(message)
    ensures CheckDuplicateDealName(response, stringOf) == Failure(message)
    ensures CheckDuplicateAddress(response, stringOf) == Failure(message)
    ensures CreateDeal(response, stringOf) == Failure(message)
  {
  }

  /** A `null` body makes every wrapper throw a `TypeError` on a failed response, as does
      `checkDuplicateDealName` on an OK one; the other three return the `null`. */
  lemma NullBodyThrows(ok: bool, stringOf: JsValue -> string)
    ensures var response := Response(ok, Success(JNull));
      && CheckDuplicateDealName(response, stringOf) == Failure(TypeErrorText)
      && (!ok ==> SearchBrokerByEmail(response, stringOf) == Failure(TypeErrorText))
      && (!ok ==> CheckDuplicateAddress(response, stringOf) == Failure(TypeErrorText))
      && (!ok ==> CreateDeal(response, stringOf) == Failure(TypeErrorText))
      && (ok ==> SearchBrokerByEmail(response, stringOf) == Success(JNull))
  {
  }

  /** A body that is not JSON throws its `SyntaxError` from every wrapper, OK or not: the
      fallback texts are never reached. */
  lemma UnparsableBodyThrows(ok: bool, syntaxError: string, stringOf: JsValue -> string)
    ensures var response := Response(ok, Failure(syntaxError));
      && SearchBrokerByEmail(response, stringOf) == Failure(syntaxError)
      && CheckDuplicateDealName(response, stringOf) == Failure(syntaxError)
      && CheckDuplicateAddress(response, stringOf) == Failure(syntaxError)
      && CreateDeal(response, stringOf) == Failure(syntaxError)
  {
  }
}
