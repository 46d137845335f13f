# Pinnacle deal intake, modelled in Dafny

Pinnacle is a deal-intake web application for a commercial real-estate lending brokerage. Staff
search for or create a broker contact and fill in a deal with one or more property addresses. They
can fill the form from a PDF loan request, check for duplicate deal names and addresses, and
create the deal in HubSpot. The repository holds a Next.js application and an older SvelteKit
version of the same workflow.

This project models the deterministic core of both versions and proves properties of it:

- **State tables and lookups.** `DealVars` holds the deal stages, the transaction and property
  types, and the 51 US states and territories. `SvelteUtils.ConvertStateToAbbr` scans its own
  50-row table by name. `DealUtils.GetFullStateName` finds a name by abbreviation.
- **String normalisers and validators**: `convertStringToList`, `currencyToNumber`,
  `isValidEmail` and `formatEmail`. The broker search's `validateEmail` is defined as
  `SvelteUtils.IsValidEmail`, because both use the same regular expression.
- **Address extraction, in its two versions.** The SvelteKit `extractAddressComponents` reads only
  the first type of each component. The Next.js `handlePlaceSelect` reads every type, with a
  priority order.
- **The form schemas as predicates.** `DealSchema` covers `lib/schema.ts`. `DealSchemas` covers the
  zod schemas of `deals.schemas.ts`, over dynamically typed values. `NewDealPage.IsValidForm`
  covers the page schema of the new-deal page.
- **The mapping of form values to HubSpot properties**: `mapFormToHubspotProperties`, the request
  body of `createDeal`, and the PDF-field switch of the new-deal page.
- **PDF field post-processing over an abstract field list.** This covers the map, filter and sort
  of `extractPDFContent`, the SvelteKit form action with its three parse modes, and the text and
  HTML exports of the PDF page.
- **UI state.** The multi-select toggle is a pair of functions, because the component hands a new
  list to its parent. The address-index list, the address form, the broker search, the PDF page and
  the new-deal page are classes, because those components change their state step by step.

Library calls with no definition here are function parameters:

- currency formatting (`toLocaleString`): `formatUsd`
- `localeCompare`: `cmp`, required to be a total order where sortedness is claimed
- `Number.prototype.toString`: `numberToString`
- zod's `.email()`: `isEmail`
- the conversion of a thrown value to text: `stringOf`

The following are modelled outright: `Number` and `parseFloat` on decimal text as exact reals,
`encodeURIComponent` as UTF-8 percent-encoding per section 2.1 of RFC 3986, and `trim` with the
JavaScript white-space set.

The PDF page's comment at `app/pdf-parse/page.tsx:77` says the fields keep the order they
were extracted in, but the extractor (`lib/pdf-parser.ts:51`) sorts them by name with
`localeCompare`. The model follows the sort.

## Model

| member | source | states |
|---|---|---|
| SvelteUtils.ConvertStateToAbbr | src/lib/utils.ts:4-65 | the indexed scan returns the `to` column of the first row named exactly `name`, or "" when no row has that name |
| SvelteUtils.StateLookupFound | src/lib/utils.ts:58-62 | a name found at row i yields that row's column |
| SvelteUtils.StateLookupMissing | src/lib/utils.ts:64 | a name in no row yields "" |
| SvelteUtils.ArizonaAbbreviation | src/lib/utils.test.ts:22-28 | "Arizona" with the default column gives "AZ" |
| SvelteUtils.UnknownStateIsEmpty | src/lib/utils.test.ts:31-38 | "InvalidState", and "District Of Columbia" (missing from this table), give "" |
| SvelteUtils.LookupIsCaseSensitive | src/lib/utils.ts:59 | "arizona" matches no row: the comparison is exact |
| SvelteUtils.ThirdColumnIsUndefined | src/lib/utils.ts:2-4 | the promised 3-letter column "2" does not exist and reads undefined |
| SvelteUtils.ConvertStringToList | src/lib/utils.ts:67-78 | the result has no bracket, quote or comma and is no longer than the input |
| SvelteUtils.ConvertStringToListIsListChars | src/lib/utils.ts:69-77 | the three replacements equal one per-character pass: drop `[`, `]` and `"`, turn `,` into `;`, keep the rest in order |
| SvelteUtils.ConvertStringToListIdempotent | src/lib/utils.ts:67-78 | applying it twice equals applying it once |
| SvelteUtils.ConvertJsonStringArray | src/lib/utils.ts:69-77 | an array text of items quoted without escaping (what `JSON.stringify` writes when no item holds `\` or a control character), none holding a bracket, quote or comma, becomes those items joined with ";" |
| SvelteUtils.ConvertStringToListExample | src/lib/utils.test.ts:42-49 | `["Rehab/Construction","Purchase"]` gives "Rehab/Construction;Purchase" |
| SvelteUtils.ConvertEmptyList | src/lib/utils.test.ts:51-58 | "[]" gives "" |
| SvelteUtils.StripCurrency | src/lib/utils.ts:85-86 | no comma is left |
| SvelteUtils.StripCurrencyDollars | src/lib/utils.ts:86 | exactly one `$` is removed when there is one |
| SvelteUtils.CurrencyToNumber | src/lib/utils.ts:80-89 | a number input is returned unchanged |
| SvelteUtils.StripCurrencyIgnoresComma | src/lib/utils.ts:85 | a comma anywhere makes no difference |
| SvelteUtils.CurrencyOfDecimal | src/lib/utils.ts:85-88 | "$"-prefixed or plain decimal text parses to its exact decimal value |
| SvelteUtils.CurrencyOfGrouped | src/lib/utils.ts:85-88 | digit groups separated by a comma parse as the joined digits |
| SvelteUtils.OnlyFirstDollarRemoved | src/lib/utils.ts:86 | "$$1" is NaN, because only the first `$` goes |
| SvelteUtils.DollarExample | src/lib/utils.test.ts:12 | "$1.00" gives 1 |
| SvelteUtils.ThousandsExample | src/lib/utils.test.ts:14 | "1,000.00" gives 1000 |
| SvelteUtils.EmptyCurrencyIsZero | src/lib/utils.test.ts:16 | "" gives 0 |
| SvelteUtils.FormDataToObject | src/lib/utils.ts:92-99 | the object's keys are exactly the entries' keys |
| SvelteUtils.LastEntryWins | src/lib/utils.ts:96 | a key maps to the value of its last entry |
| SvelteUtils.DistinctKeysMapOneToOne | src/lib/utils.test.ts:62-115 | distinct keys map one to one to their values, with as many keys as entries |
| SvelteUtils.EmptyFormData | src/lib/utils.ts:96 | no entries give the empty object |
| SvelteUtils.LastOfTypeSnoc | src/lib/utils.ts:111-116 | a component overwrites the part named by its first type and leaves the others alone |
| SvelteUtils.AssignStep | src/lib/utils.ts:112-115 | one `forEach` step keeps the five parts equal to the last component of each first type |
| SvelteUtils.ExtractAddressComponents | src/lib/utils.ts:102-124 | the loop's result is number + " " + route, city, long state name and zip of the last component of each first type |
| SvelteUtils.UnknownFirstTypeIgnored | src/lib/utils.ts:112-113 | a component whose first type is none of the five changes nothing |
| SvelteUtils.MissingNumberLeavesLeadingSpace | src/lib/utils.ts:119-121 | without a street number the address keeps a leading space, and the state is the long name |
| SvelteUtils.IsValidEmail | src/lib/utils.ts:129-134 | definition by characters (no white space, one `@` with text before it, a `.` after it with text on both sides); IsValidEmailMatchesPattern proves it is the regular expression |
| SvelteUtils.IsValidEmailMatchesPattern | src/lib/utils.ts:129-134 | valid iff the text splits into run `@` run `.` run, with no white space and no `@` in any run (the regular expression) |
| DealVars.OnlyNewSubmissionSelected | lib/vars.ts:21-28 | exactly one stage is selected: "New Submission", id "appointmentscheduled" |
| DealVars.StageIndexOfIdInverse | lib/vars.ts:1-65 | every stage's HubSpot id leads back to that stage |
| DealVars.StageIdsDistinct | lib/vars.ts:1-65 | stage ids are pairwise distinct, and so are stage names |
| DealVars.TypeOptionsShape | lib/vars.ts:67-96 | 10 distinct transaction types and 15 distinct property types, each list ending with "Other" |
| DealVars.UsStateIndexOfInverse | lib/vars.ts:98-303 | every entry's abbreviation leads back to that entry |
| DealVars.UsAbbreviationsDistinct | lib/vars.ts:98-303 | the 51 abbreviations are pairwise distinct |
| DealVars.UsStatesShape | lib/vars.ts:98-303 | every abbreviation is two upper-case letters and every name is non-empty; entry 8 is "District Of Columbia"/"DC" |
| DealUtils.FindAbbreviation | lib/utils.ts:21-23 | `find`: the first entry from `from` on with the abbreviation, or none |
| DealUtils.GetFullStateName | lib/utils.ts:20-25 | the input itself or the name of an entry carrying the input as its abbreviation; see FullStateNameOfEveryEntry, UnknownAbbreviationUnchanged and FullNamePassesThrough |
| DealUtils.FindsTheEntry | lib/utils.ts:21-23 | each entry's abbreviation finds that very entry |
| DealUtils.FullStateNameOfEveryEntry | lib/utils.ts:20-25 | for every entry, the abbreviation gives that entry's name |
| DealUtils.UnknownAbbreviationUnchanged | lib/utils.ts:24 | an abbreviation in no entry is returned unchanged |
| DealUtils.FullNamePassesThrough | lib/utils.ts:20-25 | text that is not two characters long, such as a full name, is returned unchanged |
| DealUtils.OrElse | lib/utils.ts:32 | `a \|\| b` on an optional string: a non-empty value wins, else the fallback |
| DealUtils.MapFormToHubspotProperties | lib/utils.ts:27-44 | fails (a TypeError) exactly when there is no address |
| DealUtils.MapFormCopiesFirstAddress | lib/utils.ts:30-42 | the deal name falls back to the first street; stage and amounts pass through; street, city and zip are copied from `addresses[0]`; the state goes through `getFullStateName` |
| DealUtils.MapFormIgnoresLaterAddresses | lib/utils.ts:30 | addresses after the first change nothing |
| DealUtils.MapFormJoinsTypes | lib/utils.ts:34-36 | the type lists are joined with "; " in order |
| DealUtils.PropertiesObject | lib/utils.ts:31-43 | the mapped object has exactly the eleven property keys |
| DealUtils.PropertiesObjectSchema | src/lib/types/deals.schemas.ts:49-61 | the mapped object passes `HubspotDealPropertiesSchema` iff both amounts are numbers or strings |
| DealUtils.MappedPropertiesMatchSchema | lib/utils.ts:31-43 | the mapping of a form valid under `dealFormSchema` passes `HubspotDealPropertiesSchema` |
| DealUtils.AreAddressFieldsFilled | lib/utils.ts:46-53 | true iff street, city, state and zip are all present and non-empty |
| DealUtils.FilledIsWeakerThanValid | lib/utils.ts:52 | a schema-valid address is filled, but a filled one need not be valid |
| DealSchema.MinLength | lib/schema.ts:26-29 | no issue iff the text has at least n characters |
| DealSchema.OptionalMinLength | lib/schema.ts:9-10 | no issue iff the value is absent or long enough |
| DealSchema.NonEmptyList | lib/schema.ts:19-21 | no issue iff the list has an element |
| DealSchema.NonNegative | lib/schema.ts:22-23 | no issue iff the number is finite and at least 0 |
| DealSchema.AddressIssuesEmpty | lib/schema.ts:25-29 | an address has no issue iff street ≥ 1, city ≥ 1, state ≥ 2 and zip ≥ 5 characters |
| DealSchema.EachAddressIssuesEmpty | lib/schema.ts:25-30 | the address list has no issue iff every address is valid |
| DealSchema.IsValidDealForm | lib/schema.ts:6-31 | definition, field by field; DealFormIssuesEmpty ties it to the schema's issue list |
| DealSchema.DealFormIssuesEmpty | lib/schema.ts:6-31 | the issue list is empty iff the form is valid |
| DealSchema.TypeListsUnchecked | lib/schema.ts:19-21 | any non-empty type lists keep a valid form valid: elements are not checked against the options |
| DealSchema.BrokerAndNameOptional | lib/schema.ts:7-14 | broker fields and the deal name may all be absent |
| DealSchema.EmptyFirstNameRejected | lib/schema.ts:9 | a present but empty first name is an issue |
| DealSchemas.DealFormSchema | src/lib/types/deals.schemas.ts:3-28 | definition; see DealNameNeedsTwoCharacters, AmountsAreNumbersInputsText and ZipCodeMeans |
| DealSchemas.DealFormDataValidatedSchema | src/lib/types/deals.schemas.ts:30-46 | definition; see ValidatedZipCodeIsNumber |
| DealSchemas.HubspotDealPropertiesSchema | src/lib/types/deals.schemas.ts:49-61 | definition; see PropertiesNeedEveryKey and DealUtils.PropertiesObjectSchema |
| DealSchemas.HubspotDealPropsSchema | src/lib/types/deals.schemas.ts:63-65 | definition; see Hubspot.CreateDealBodyMatchesSchema |
| DealSchemas.HubspotDealResponseSchema | src/lib/types/deals.schemas.ts:67-72 | definition; see ResponseSchemasDisagreeOnId |
| DealSchemas.BrokerInfo | src/lib/types/deals.schemas.ts:74-80 | definition; see BrokerInfoOfStrings |
| DealSchemas.ResponseSchema | src/lib/types/deals.schemas.ts:82-90 | definition; see ResponseNeedsEveryKey and ResponseSchemasDisagreeOnId |
| DealSchemas.DigitsPatternMeans | src/lib/types/deals.schemas.ts:23 | `^\d{5}$` holds iff there are exactly five ASCII digits |
| DealSchemas.ZipCodeMeans | src/lib/types/deals.schemas.ts:23 | the zip code is absent or exactly five ASCII digits |
| DealSchemas.DealNameNeedsTwoCharacters | src/lib/types/deals.schemas.ts:4-5 | a passing value has a deal name of at least two characters and a string stage |
| DealSchemas.AmountsAreNumbersInputsText | src/lib/types/deals.schemas.ts:16-19 | an amount given as text, or an amount input given as a number, fails |
| DealSchemas.ValidatedZipCodeIsNumber | src/lib/types/deals.schemas.ts:41 | in the validated-data schema a zip code given as text fails |
| DealSchemas.PropertiesNeedEveryKey | src/lib/types/deals.schemas.ts:49-61 | all eleven property keys are required |
| DealSchemas.ResponseSchemasDisagreeOnId | src/lib/types/deals.schemas.ts:67-90 | no value passes both response schemas: one wants a numeric `id`, the other text |
| DealSchemas.ResponseNeedsEveryKey | src/lib/types/deals.schemas.ts:82-90 | the response schema requires all seven keys |
| DealSchemas.BrokerInfoOfStrings | src/lib/types/deals.schemas.ts:74-80 | any object of strings, the empty one included, passes `BrokerInfo` |
| Hubspot.CreateDealBody | lib/hubspot.ts:76-97 | fails exactly when there is no address; otherwise `properties` is the mapped object, and `associations` is present iff the broker id is non-empty, pointing at that id |
| Hubspot.CreateDealBodyMatchesSchema | lib/hubspot.ts:76-97 | the body passes `HubspotDealPropsSchema` |
| Hubspot.CreateDealAgreesWithMapping | lib/hubspot.ts:77-89 | the body's properties are the mapping's, except that amounts are sent as text and the state exactly as entered |
| Hubspot.GetHubSpotDealUrl | lib/hubspot.ts:62-68 | fails with its fixed message when the base URL is unset or empty; otherwise returns base + "/deal/" + id |
| Hubspot.DealUrlDeterminesId | lib/hubspot.ts:67 | two ids with the same URL are equal |
| Hubspot.ErrorMessage | lib/hubspot.ts:13-14 | a `null` body throws a `TypeError`; otherwise a non-empty `message` string is reported and a falsy one gives the wrapper's default text |
| Hubspot.Outcome | lib/hubspot.ts:12-17 | success iff the response is OK and its body is JSON, with that body; a body that is not JSON throws its `SyntaxError` either way; otherwise the error message above |
| Hubspot.CheckDuplicateDealName | lib/hubspot.ts:29-35 | an OK response yields exactly its `exists` field, or a `TypeError` when the body is `null` |
| Hubspot.SearchBrokerByEmail | lib/hubspot.ts:3-18 | succeeds iff the response is OK and its body is JSON, returning that body; a failed response without a truthy `message` gives "Failed to search broker" |
| Hubspot.CheckDuplicateAddress | lib/hubspot.ts:38-55 | succeeds iff the response is OK and its body is JSON, returning that body; a failed response without a truthy `message` gives "Failed to check address" |
| Hubspot.CreateDeal | lib/hubspot.ts:99-105 | succeeds iff the response is OK and its body is JSON, returning that body; a failed response without a truthy `message` gives "Failed to create deal" |
| Hubspot.ErrorFieldIsIgnored | lib/hubspot.ts:12-15 | a body carrying only `error` gives each wrapper's default text |
| Hubspot.MessageIsReported | lib/hubspot.ts:100-103 | a body carrying a non-empty `message` gives that message in all four wrappers |
| Hubspot.NullBodyThrows | lib/hubspot.ts:13-16 | a `null` body throws a `TypeError` from every wrapper on a failure and from `checkDuplicateDealName` on success; the others return `null` |
| Hubspot.UnparsableBodyThrows | lib/hubspot.ts:13-19 | a body that is not JSON throws its `SyntaxError` from all four wrappers, OK or not |
| JsValues.ReadProperty | lib/hubspot.ts:14 | reading a property fails with a `TypeError` exactly on `null` and `undefined`; otherwise an object's field or `undefined` |
| JsNumber.ParseNumber | src/lib/utils.ts:88 | `Number` of blank text is 0 |
| JsNumber.NumberOfUnsigned | src/lib/utils.ts:88 | `Number` of unsigned text without white space is its decimal value, or NaN |
| JsNumber.ParseFloat | app/deals/new/page.tsx:124 | `parseFloat` is NaN unless the text holds a digit |
| Uri.EncodeURIComponent | src/routes/pdfparse/+page.server.ts:83 | no encoded name or value contains `&` or `=`; unreserved text is unchanged |
| Uri.DecodeEncode | src/routes/pdfparse/+page.server.ts:83 | percent-decoding an encoded string gives it back |
| Uri.EncodeInjective | src/routes/pdfparse/+page.server.ts:83 | distinct strings encode differently |
| PdfParser.TextOf | lib/pdf-parser.ts:22-28 | the field's text, or "" without `getText` or without text |
| PdfParser.FieldValue | lib/pdf-parser.ts:31-46 | only a non-empty value of a `$` field is formatted, as the number of its digits, `.` and `-`; every other value passes through |
| PdfParser.KeptFields | lib/pdf-parser.ts:48-50 | no kept field has an empty value, and there are no more than the input fields |
| PdfParser.KeptFieldsMembers | lib/pdf-parser.ts:48-50 | a field is kept, with its name and value, iff its value is non-empty |
| PdfParser.KeptFieldsFromInput | lib/pdf-parser.ts:48-50 | every kept entry is some input field's name with its non-empty value: nothing else is kept |
| PdfParser.SortByName | lib/pdf-parser.ts:51 | the sort is a permutation |
| PdfParser.SortByNameSorted | lib/pdf-parser.ts:51 | the result is ascending by name under the comparison |
| PdfParser.ExtractPdfContent | lib/pdf-parser.ts:8-60 | fails, always with the one fixed message, iff the document fails or has no fields; otherwise a permutation of the kept fields, no longer than the input, with no empty value |
| PdfParser.ExtractedFieldsSorted | lib/pdf-parser.ts:51 | the output is sorted by name |
| PdfParser.PlainTextFieldKept | lib/pdf-parser.ts:19-50 | a field with non-empty text and no `$` in its name appears unchanged in the output |
| PdfParseAction.ParseField | src/routes/pdfparse/+page.server.ts:40-54 | fails (a TypeError) only without `getText`; keeps the name; formats every `$` field, empty or not; passes other text through |
| PdfParseAction.ParseAll | src/routes/pdfparse/+page.server.ts:63-65 | fails iff some field lacks `getText`; otherwise one parsed field per field, in order |
| PdfParseAction.Segment | src/routes/pdfparse/+page.server.ts:67-86 | a segment holds no `&`, and is empty iff the name is none of the four renamed ones |
| PdfParseAction.Segments | src/routes/pdfparse/+page.server.ts:63-86 | one segment per field, in order |
| PdfParseAction.UrlParametersSeparators | src/routes/pdfparse/+page.server.ts:63-87 | the URL parameters of n fields hold exactly n − 1 `&` |
| PdfParseAction.Action | src/routes/pdfparse/+page.server.ts:19-24 | fail(400, "You must provide a file to upload") iff there is no file or its name is empty |
| PdfParseAction.NoFieldsRefused | src/routes/pdfparse/+page.server.ts:32-38 | a file without form fields gives fail(400, "There are no form fields") |
| PdfParseAction.OtherModesEmpty | src/routes/pdfparse/+page.server.ts:90-106 | any other mode gives no list, an empty text, "<div></div><br>" and no URL parameters |
| PdfParseAction.LenderEmailList | src/routes/pdfparse/+page.server.ts:94-98 | the list keeps exactly the fields whose value is neither "" nor "$0"; the text and HTML are the pre-message followed by one line per kept field |
| PdfParseAction.ReviewQuestionsList | src/routes/pdfparse/+page.server.ts:99-103 | the list is exactly the fields whose value is "", the text is one "name\n" per field with no pre-message, and the HTML an empty `div` and break followed by one bold "name:" `div` per field |
| PdfParseAction.DollarFieldNeverMissing | src/routes/pdfparse/+page.server.ts:44-51 | when formatting never gives "", a `$` field never appears among the review questions |
| PdfParsePage.TextContent | app/pdf-parse/page.tsx:113-118 | the text export starts with the pre-message |
| PdfParsePage.HtmlContent | app/pdf-parse/page.tsx:120-124 | the HTML export starts with the pre-message in a div and a break |
| PdfParsePage.TextContentAppend | app/pdf-parse/page.tsx:116 | one more field adds exactly "name: value\n" at the end |
| PdfParsePage.HtmlContentAppend | app/pdf-parse/page.tsx:122 | one more field adds exactly "<div><strong>name:</strong> value</div>", unescaped |
| PdfParsePage.ExportsMatchLenderEmail | app/pdf-parse/page.tsx:110-124 | on the lender-email list the page's exports equal the server action's text and HTML |
| PdfParsePage.TextContentLineCount | app/pdf-parse/page.tsx:113-118 | with no newline in names or values, the text has one line per field beyond the pre-message |
| PdfParsePage.RenderFields | app/pdf-parse/page.tsx:138-145 | one row per field, captioned "name:", showing the value in lender mode and "[Missing]" in review mode |
| PdfParsePage.ReviewHidesValues | app/pdf-parse/page.tsx:142 | in review mode the rows depend on the names only |
| PdfParsePage.Page.constructor | app/pdf-parse/page.tsx:59-61 | no fields, lender mode, not processing |
| PdfParsePage.Page.OnDrop | app/pdf-parse/page.tsx:70-85 | no file changes nothing; otherwise processing ends; a success replaces the list wholesale with a success toast; a failure keeps the list and reports the parser's message |
| PdfParsePage.Page.Clear | app/pdf-parse/page.tsx:168 | the list becomes empty and nothing else changes |
| PdfParsePage.Page.SetViewMode | app/pdf-parse/page.tsx:152-155 | only the view mode changes |
| PdfParsePage.Page.CardTitle | app/pdf-parse/page.tsx:236-238 | the title is "Missing Fields" iff in review mode |
| PdfParsePage.DropThenClear | app/pdf-parse/page.tsx:164-191 | after an upload the fields are sorted and non-empty, the copy and clear actions are offered iff there is a field, and after Clear they are not |
| NewDealPage.IsValidForm | app/deals/new/page.tsx:18-40 | definition, field by field; FormIssuesEmpty ties it to the page schema's issue list |
| NewDealPage.FormIssuesEmpty | app/deals/new/page.tsx:18-40 | the page schema finds no issue iff the form is valid: e-mail, both names, deal name and stage, the three lists, amounts ≥ 0, street, city, state ≥ 2 and zip ≥ 5 |
| NewDealPage.DefaultsInvalid | app/deals/new/page.tsx:50-74 | the default values fail, and the issues include "First name is required" |
| NewDealPage.ValidFormPassesDealSchema | app/deals/new/page.tsx:18-40 | a form valid here passes `dealFormSchema` iff its stage is a known stage id |
| NewDealPage.SlotOf | app/deals/new/page.tsx:118-143 | a name selects a form slot iff its lower-cased form is one of the ten aliases |
| NewDealPage.SlotOfIgnoresCase | app/deals/new/page.tsx:118 | names match without regard to case |
| NewDealPage.CurrencyNamesUnmatched | app/deals/new/page.tsx:118-143 | a name with `$`, such as "Funding Request Amount ($)", matches no slot |
| NewDealPage.ParseAmountOfStripped | app/deals/new/page.tsx:124 | amounts parse only the digits, `.` and `-` of the value |
| NewDealPage.ApplyFieldRead | app/deals/new/page.tsx:117-143 | a field writes its own slot only; every other slot keeps its value |
| NewDealPage.ApplyAll | app/deals/new/page.tsx:117-143 | broker, stage and type lists are never written |
| NewDealPage.ApplyAllRead | app/deals/new/page.tsx:117 | each slot holds the value of the last field for it, or its old value when none |
| NewDealPage.Page.constructor | app/deals/new/page.tsx:44-74 | default values, no flag set, no toast |
| NewDealPage.Page.SubmitDisabled | app/deals/new/page.tsx:239 | definition: any of the four busy flags; Submit requires it off and leaves it off, and UploadIntoNewForm shows it off after an upload |
| NewDealPage.Page.HandlePdfUpload | app/deals/new/page.tsx:111-152 | a parsed document fills the form in field order with a success toast; a failure leaves it and reports the message; processing ends either way |
| NewDealPage.Page.ApplyFields | app/deals/new/page.tsx:117-143 | the `forEach` over the fields leaves the form at `ApplyAll` |
| NewDealPage.Page.Submit | app/deals/new/page.tsx:154-185 | an invalid form submits nothing and shows nothing; a valid one throws in `createBroker` when the HubSpot id is empty or absent and in `createDeal` otherwise, shows the error toast, keeps the form's values and ends submitting |
| NewDealPage.CreateDealArgument | app/deals/new/page.tsx:170-174 | the spread object carries the deal's name, the street and the broker id side by side |
| NewDealPage.CreateDealArgumentLacksDeal | lib/hubspot.ts:76-78 | the object `onSubmit` passes has neither `deal` nor `addresses`, so `createDeal`'s first read, `data.deal.name`, throws a `TypeError` |
| NewDealPage.UploadIntoNewForm | app/deals/new/page.tsx:50-74 | a PDF upload into the default form never makes it valid, since no field fills the broker |
| AddressFormComponent.KindOf | components/address-form.tsx:58-71 | a component fills a part iff one of the five types is present, with street_number first in priority |
| AddressFormComponent.LastOfKind | components/address-form.tsx:58-71 | "" when no component is of that kind |
| AddressFormComponent.LastOfKindSnoc | components/address-form.tsx:58-71 | a later component of a kind overwrites; one of another kind leaves the part alone |
| AddressFormComponent.ScanComponents | components/address-form.tsx:58-71 | the loop's five variables hold the last name of each kind, short name for the state |
| AddressFormComponent.AddressForm.constructor | components/address-form.tsx:40 | the check starts disabled |
| AddressFormComponent.AddressForm.HandlePlaceSelect | components/address-form.tsx:49-81 | a place without components changes nothing; otherwise all four values are written, "" for missing parts, and the check is enabled iff the street is non-empty |
| AddressFormComponent.AddressForm.HandleAddressCheck | components/address-form.tsx:42-47 | the duplicate check runs, on the stored street, iff that street is non-empty |
| AddressFormComponent.MissingNumberNoLeadingSpace | components/address-form.tsx:73 | without a street number the street is the route alone, with no leading space, when the route name has no white space at either end |
| AddressFormComponent.ExtractorsDiffer | components/address-form.tsx:73-77 | on a route and a state the two extractors disagree: leading space and long state there, neither here |
| AddressFormComponent.LaterTypeCounts | components/address-form.tsx:59-63 | a route listed after another type still fills the street here, while the SvelteKit extractor ignores it |
| AddressList.MaxOf | components/address-list.tsx:20 | `Math.max` is a member no smaller than any element |
| AddressList.Added | components/address-list.tsx:19-21 | one more index, fresh, with the old list as prefix; ascending order is kept |
| AddressList.RemovedMembers | components/address-list.tsx:23-24 | exactly the given index is removed |
| AddressList.RemovedAscending | components/address-list.tsx:24 | the remaining indices keep their order |
| AddressList.RemovedNonEmpty | components/address-list.tsx:49 | with two entries or more the list never becomes empty |
| AddressList.RemoveLastThenAdd | components/address-list.tsx:20-24 | removing the largest index and adding again reuses it when it is one above the next largest index, as after adds alone |
| AddressList.AddressListState.constructor | components/address-list.tsx:16-17 | the list starts as [0] with no check running |
| AddressList.AddressListState.Add | components/address-list.tsx:19-21 | the list becomes `Added` of the old one; nothing else changes |
| AddressList.AddressListState.Remove | components/address-list.tsx:23-27 | the index leaves the list and its form entry is cleared; the list stays non-empty and ascending |
| AddressList.AddressListState.BeginCheck | components/address-list.tsx:30 | the index is marked as checking |
| AddressList.AddressListState.EndCheck | components/address-list.tsx:33-35 | the `finally` marks it as not checking |
| AddressList.AddressListState.HandleAddressCheck | components/address-list.tsx:29-36 | the card shows a check while it runs and none after; other cards are unchanged |
| AddressList.AddRemoveAdd | components/address-list.tsx:16-27 | [0] becomes [0, 1, 2], then [0, 1], then [0, 1, 2] again |
| MultiSelect.Unselect | components/multi-select.tsx:36-41 | the item is gone and the list is no longer |
| MultiSelect.UnselectMembers | components/multi-select.tsx:38 | exactly the given item is removed |
| MultiSelect.UnselectAbsent | components/multi-select.tsx:38 | removing an absent item changes nothing |
| MultiSelect.UnselectNoDuplicates | components/multi-select.tsx:36-41 | removing keeps a list free of duplicates |
| MultiSelect.Select | components/multi-select.tsx:43-52 | a present item is removed and an absent one appended at the end; the options are not consulted |
| MultiSelect.SelectNoDuplicates | components/multi-select.tsx:43-52 | selecting keeps a list free of duplicates |
| MultiSelect.SelectTwice | components/multi-select.tsx:43-52 | selecting an absent item twice gives the list back |
| MultiSelect.Placeholder | components/multi-select.tsx:64 | the placeholder, "Select options" by default, shows iff nothing is selected |
| BrokerSearch.FormatEmail | components/broker-search.tsx:44-46 | the result has no white space at either end and is no longer than the input |
| BrokerSearch.ValidateEmail | components/broker-search.tsx:28-31 | the same regular expression as the SvelteKit `isValidEmail`, so defined as SvelteUtils.IsValidEmail; IsValidEmailMatchesPattern states it |
| BrokerSearch.FormatEmailKeepsPlain | components/broker-search.tsx:45 | text without white space or prefix is kept |
| BrokerSearch.FormatEmailStripsPrefix | components/broker-search.tsx:45 | a leading "mailto:" goes and the rest is trimmed |
| BrokerSearch.FormatEmailStripsOnce | components/broker-search.tsx:45 | only one "mailto:" goes |
| BrokerSearch.FormatEmailOnlyAtStart | components/broker-search.tsx:45 | a "mailto:" behind white space stays |
| BrokerSearch.BrokerSearchState.constructor | components/broker-search.tsx:38-42 | not typing, nothing scheduled, nothing searched |
| BrokerSearch.BrokerSearchState.ShowCreateButton | components/broker-search.tsx:107-108 | definition; HandleEmailChange ensures it is off while typing, and HandleCreateBroker never refuses when it was on |
| BrokerSearch.BrokerSearchState.HandleSearch | components/broker-search.tsx:48-56 | only a valid e-mail is searched for, and it ends the typing state |
| BrokerSearch.BrokerSearchState.HandleEmailChange | components/broker-search.tsx:73-81 | the cleaned text is stored and typing starts; a search is scheduled only for a valid e-mail while no search runs; the create button hides |
| BrokerSearch.BrokerSearchState.StoreEmail | components/broker-search.tsx:74-80 | the stored text and the schedule, as above, for already-cleaned text |
| BrokerSearch.BrokerSearchState.DebounceFires | components/broker-search.tsx:59-64 | the scheduled search, if any, runs and nothing stays scheduled |
| BrokerSearch.BrokerSearchState.HandleManualSearch | components/broker-search.tsx:83-91 | an invalid e-mail only shows an error; a valid one cancels the schedule and is searched for at once |
| BrokerSearch.BrokerSearchState.HandleCreateBroker | components/broker-search.tsx:93-105 | refused with an error without both names; otherwise success, or failure when validation throws; never refused from the shown button |
| BrokerSearch.TypeAndWait | components/broker-search.tsx:73-81 | typing and waiting searches for the cleaned text exactly when it is valid |

## Left out

- PDF decoding (`PDFDocument.load`, `getForm`, `getFields`) is outside the model. A document is a list of fields, each with a name and, if it has `getText`, an optional text, or a read error.
- Currency formatting, `localeCompare`, `Number.prototype.toString`, zod's e-mail check and the conversion of thrown values to text are function parameters. Their own behaviour is not modelled.
- JsNumber.ParseNumber: numbers are exact reals. Exponents, `Infinity`, hexadecimal, binary and octal literals read as NaN, and floating-point rounding is not modelled.
- JsNumber.ParseFloat: the same limits as `Number`, for the prefix `parseFloat` reads.
- String lengths in the schemas count code points, not UTF-16 code units.
- Text.ToLowerAscii: `toLowerCase` lowers ASCII letters only. The alias table of the new-deal page is all ASCII.
- SvelteUtils.ConvertStateToAbbr: a `to` key that names an array property, such as "length", reads as undefined rather than that property's value.
- PdfParser.SortByName: `Array.prototype.sort` is modelled as an insertion sort. Only the ascending order and the permutation are claimed, not the engine's placement of names the comparison treats as equal.
- `fetch`, the HubSpot API routes under app/api/hubspot/, PocketBase and the settings page are not part of this model. The request wrappers are modelled from the response they receive onwards.
- The orchestration pipeline of the SvelteKit version (create the deal, resolve the broker, create the folder, roll back) is not part of this model.
- The `debounce` timer is not modelled. `BrokerSearchState.DebounceFires` stands for the delay ending, and the cancel on unmount is left out.
- The clipboard copy of the PDF page and its toasts are not modelled. The Google Places widget is reduced to the list of address components it hands over.
- The new-deal page's `handleBrokerSearch` and `handleAddressCheck` are not modelled. They toast remote results, and the address list's `finally` is modelled on its own.
- NewDealPage.Page.Submit: the page imports `createBroker`, which lib/hubspot.ts does not export. The model takes the binding to be `undefined`, as a bundler links a missing export, so calling it throws; a loader that refuses the page outright is not modelled. The messages of the two `TypeError`s are one fixed text. The success toast and `form.reset` are never reached.
- Hubspot.Outcome: the text of a `SyntaxError` from `response.json()` comes with the response; how the engine words it is not modelled.
- AddressList.AddressListState.Remove: requires that the index is in the list and that there are two entries or more. These are the conditions under which the page renders the remove button for that card.
- Rejections from `onAddressCheck` and `onSearch` are not modelled. The address list's `finally` is.
- BrokerSearch.FormatEmail: its own contract gives only the trimmed shape and the length bound. The prefix behaviour is stated by the four FormatEmail lemmas.
- BrokerSearch.BrokerSearchState.HandleCreateBroker: whether `form.trigger` throws is a parameter.
- The loan calculator, the currency input widget, the deal-form component, layout, navigation, theme, stats cards and the PDF upload widget are not part of this model.
