/** The constant option tables of the deal-intake application (lib/vars.ts): the pipeline
    stages, the transaction and property types, and the fifty states plus the District of
    Columbia. */
module DealVars {

  // ---------------------------------------------------------------------------------------
  // dealStageOptions

  /** The identifiers of one pipeline stage: its internal name, its HubSpot stage id and the
      name of its storage folder. */
  datatype StageValue = StageValue(name: string, hubspot: string, folder: string)

  /** One entry of `dealStageOptions`. */
  datatype StageOption = StageOption(value: StageValue, labelText: string, selected: bool)

  const StageCount := 7

  /** Entry `i` of `dealStageOptions`, in the source's order. */
  function StageAt(i: nat): StageOption
    requires i < StageCount
  {
    match i
    case 0 => StageOption(StageValue("test", "62553446", "test"), "Test", false)
    case 1 => StageOption(StageValue("presubmission", "0ddfafd1-56a8-4879-aa59-97d52793d8b0",
                "0 Pre-Submission - Holding for Rest of Package"), "Pre-Submission", false)
    case 2 => StageOption(StageValue("newsubmission", "appointmentscheduled", "1 New Submission To Review"),
                "New Submission", true)
    case 3 => StageOption(StageValue("secondreview", "presentationscheduled", "2 Second Review"),
                "Second Review", false)
    case 4 => StageOption(StageValue("committeepricing", "contractsent", "4 Reviewed - In Committee for Pricing"),
                "In committee for pricing", false)
    case 5 => StageOption(StageValue("termsissued", "4df75d47-6414-4729-8c0c-2340c07cf6b8", "5 OA or Terms Issued"),
                "OA or terms issued", false)
    case _ => StageOption(StageValue("engaged", "ce0c9853-6045-4a37-a8d9-604985dfdaa3", "6 Engaged - In Process"),
                "Engaged", false)
  }

  /** `dealStageOptions.some(option => option.value.hubspot === id)`. */
  predicate IsStageId(id: string) {
    exists i :: 0 <= i < StageCount && StageAt(i).value.hubspot == id
  }

  /** Exactly one stage is pre-selected: "New Submission", whose HubSpot id is
      "appointmentscheduled". */
  lemma OnlyNewSubmissionSelected()
    ensures forall i :: 0 <= i < StageCount ==> (StageAt(i).selected <==> i == 2)
    ensures StageAt(2).labelText == "New Submission" && StageAt(2).value.hubspot == "appointmentscheduled"
  {
  }

  /** The position of the stage with HubSpot id `id`, or -1: the table read backwards. */
  function StageIndexOfId(id: string): int {
    match id
    case "62553446" => 0
    case "0ddfafd1-56a8-4879-aa59-97d52793d8b0" => 1
    case "appointmentscheduled" => 2
    case "presentationscheduled" => 3
    case "contractsent" => 4
    case "4df75d47-6414-4729-8c0c-2340c07cf6b8" => 5
    case "ce0c9853-6045-4a37-a8d9-604985dfdaa3" => 6
    case _ => -1
  }

  /** The position of the stage named `name`, or -1. */
  function StageIndexOfName(name: string): int {
    match name
    case "test" => 0
    case "presubmission" => 1
    case "newsubmission" => 2
    case "secondreview" => 3
    case "committeepricing" => 4
    case "termsissued" => 5
    case "engaged" => 6
    case _ => -1
  }

  lemma StageIndexOfIdInverse()
    ensures forall i :: 0 <= i < StageCount ==> StageIndexOfId(StageAt(i).value.hubspot) == i
  {
  }

  lemma StageIndexOfNameInverse()
    ensures forall i :: 0 <= i < StageCount ==> StageIndexOfName(StageAt(i).value.name) == i
  {
  }

  /** No two stages share a HubSpot id or a name. */
  lemma StageIdsDistinct()
    ensures forall i, j :: 0 <= i < j < StageCount ==> StageAt(i).value.hubspot != StageAt(j).value.hubspot
    ensures forall i, j :: 0 <= i < j < StageCount ==> StageAt(i).value.name != StageAt(j).value.name
  {
    StageIndexOfIdInverse();
    StageIndexOfNameInverse();
  }

  // ---------------------------------------------------------------------------------------
  // transactionTypeOptions and propertyTypeOptions

  const TransactionTypeOptions: seq<string> := [
    "Purchase", "Refinance", "Cashout", "Rehab/Construction", "Construction", "Bridge", "Equity",
    "Equipment", "Business", "Other"]

  const PropertyTypeOptions: seq<string> := [
    "Multifamily", "Industrial", "Land", "Retail", "Office", "Mixed-use", "Self Storage",
    "Mobile Home Park", "Hospitality", "1-4 Unit Residential Rental", "Assisted Living",
    "Agricultural", "Medical", "RV Park", "Other"]

  predicate Distinct(s: seq<string>) {
    forall i, j :: 0 <= i < j < |s| ==> s[i] != s[j]
  }

  /** Ten distinct transaction types and fifteen distinct property types, both lists ending
      with "Other". */
  lemma TypeOptionsShape()
    ensures |TransactionTypeOptions| == 10 && Distinct(TransactionTypeOptions)
    ensures |PropertyTypeOptions| == 15 && Distinct(PropertyTypeOptions)
    ensures TransactionTypeOptions[9] == "Other" && PropertyTypeOptions[14] == "Other"
  {
  }

  // ---------------------------------------------------------------------------------------
  // unitedStatesList

  datatype UsState = UsState(name: string, abbreviation: string)

  const UsStateCount := 51

  /** Entry `i` of `unitedStatesList`: the fifty states and the District of Columbia, in the
      source's order. */
  function UsStateAt(i: nat): UsState
    requires i < UsStateCount
  {
    match i
    case 0 => UsState("Alabama", "AL")
    case 1 => UsState("Alaska", "AK")
    case 2 => UsState("Arizona", "AZ")
    case 3 => UsState("Arkansas", "AR")
    case 4 => UsState("California", "CA")
    case 5 => UsState("Colorado", "CO")
    case 6 => UsState("Connecticut", "CT")
    case 7 => UsState("Delaware", "DE")
    case 8 => UsState("District Of Columbia", "DC")
    case 9 => UsState("Florida", "FL")
    case 10 => UsState("Georgia", "GA")
    case 11 => UsState("Hawaii", "HI")
    case 12 => UsState("Idaho", "ID")
    case 13 => UsState("Illinois", "IL")
    case 14 => UsState("Indiana", "IN")
    case 15 => UsState("Iowa", "IA")
    case 16 => UsState("Kansas", "KS")
    case 17 => UsState("Kentucky", "KY")
    case 18 => UsState("Louisiana", "LA")
    case 19 => UsState("Maine", "ME")
    case 20 => UsState("Maryland", "MD")
    case 21 => UsState("Massachusetts", "MA")
    case 22 => UsState("Michigan", "MI")
    case 23 => UsState("Minnesota", "MN")
    case 24 => UsState("Mississippi", "MS")
    case 25 => UsState("Missouri", "MO")
    case 26 => UsState("Montana", "MT")
    case 27 => UsState("Nebraska", "NE")
    case 28 => UsState("Nevada", "NV")
    case 29 => UsState("New Hampshire", "NH")
    case 30 => UsState("New Jersey", "NJ")
    case 31 => UsState("New Mexico", "NM")
    case 32 => UsState("New York", "NY")
    case 33 => UsState("North Carolina", "NC")
    case 34 => UsState("North Dakota", "ND")
    case 35 => UsState("Ohio", "OH")
    case 36 => UsState("Oklahoma", "OK")
    case 37 => UsState("Oregon", "OR")
    case 38 => UsState("Pennsylvania", "PA")
    case 39 => UsState("Rhode Island", "RI")
    case 40 => UsState("South Carolina", "SC")
    case 41 => UsState("South Dakota", "SD")
    case 42 => UsState("Tennessee", "TN")
    case 43 => UsState("Texas", "TX")
    case 44 => UsState("Utah", "UT")
    case 45 => UsState("Vermont", "VT")
    case 46 => UsState("Virginia", "VA")
    case 47 => UsState("Washington", "WA")
    case 48 => UsState("West Virginia", "WV")
    case 49 => UsState("Wisconsin", "WI")
    case _ => UsState("Wyoming", "WY")
  }

  /** The position of the entry abbreviated `abbreviation`, or -1: the table read backwards. */
  function UsStateIndexOf(abbreviation: string): int {
    match abbreviation
    case "AL" => 0
    case "AK" => 1
    case "AZ" => 2
    case "AR" => 3
    case "CA" => 4
    case "CO" => 5
    case "CT" => 6
    case "DE" => 7
    case "DC" => 8
    case "FL" => 9
    case "GA" => 10
    case "HI" => 11
    case "ID" => 12
    case "IL" => 13
    case "IN" => 14
    case "IA" => 15
    case "KS" => 16
    case "KY" => 17
    case "LA" => 18
    case "ME" => 19
    case "MD" => 20
    case "MA" => 21
    case "MI" => 22
    case "MN" => 23
    case "MS" => 24
    case "MO" => 25
    case "MT" => 26
    case "NE" => 27
    case "NV" => 28
    case "NH" => 29
    case "NJ" => 30
    case "NM" => 31
    case "NY" => 32
    case "NC" => 33
    case "ND" => 34
    case "OH" => 35
    case "OK" => 36
    case "OR" => 37
    case "PA" => 38
    case "RI" => 39
    case "SC" => 40
    case "SD" => 41
    case "TN" => 42
    case "TX" => 43
    case "UT" => 44
    case "VT" => 45
    case "VA" => 46
    case "WA" => 47
    case "WV" => 48
    case "WI" => 49
    case "WY" => 50
    case _ => -1
  }

  lemma UsStateIndexOfRows0()
    ensures forall i :: 0 <= i < 13 ==> UsStateIndexOf(UsStateAt(i).abbreviation) == i
  {
  }

  lemma UsStateIndexOfRows13()
    ensures forall i :: 13 <= i < 26 ==> UsStateIndexOf(UsStateAt(i).abbreviation) == i
  {
  }

  lemma UsStateIndexOfRows26()
    ensures forall i :: 26 <= i < 39 ==> UsStateIndexOf(UsStateAt(i).abbreviation) == i
  {
  }

  lemma UsStateIndexOfRows39()
    ensures forall i :: 39 <= i < 51 ==> UsStateIndexOf(UsStateAt(i).abbreviation) == i
  {
  }

  /** Reading an entry's abbreviation backwards finds that entry. */
  lemma UsStateIndexOfInverse()
    ensures forall i :: 0 <= i < UsStateCount ==> UsStateIndexOf(UsStateAt(i).abbreviation) == i
  {
    UsStateIndexOfRows0();
    UsStateIndexOfRows13();
    UsStateIndexOfRows26();
    UsStateIndexOfRows39();
  }

  /** The backwards read of one entry. */
  lemma UsStateIndexOfAt(i: nat)
    requires i < UsStateCount
    ensures UsStateIndexOf(UsStateAt(i).abbreviation) == i
  {
    UsStateIndexOfInverse();
  }

  /** No two entries share an abbreviation. */
  lemma UsAbbreviationsDistinct()
    ensures forall i, j :: 0 <= i < j < UsStateCount ==> UsStateAt(i).abbreviation != UsStateAt(j).abbreviation
  {
    UsStateIndexOfInverse();
  }

  /** A two-letter upper-case abbreviation. */
  predicate UpperPair(a: string) {
    |a| == 2 && 'A' <= a[0] <= 'Z' && 'A' <= a[1] <= 'Z'
  }

  lemma UsAbbreviationShapeRows0()
    ensures forall i :: 0 <= i < 13 ==> UpperPair(UsStateAt(i).abbreviation) && UsStateAt(i).name != ""
  {
  }

  lemma UsAbbreviationShapeRows13()
    ensures forall i :: 13 <= i < 26 ==> UpperPair(UsStateAt(i).abbreviation) && UsStateAt(i).name != ""
  {
  }

  lemma UsAbbreviationShapeRows26()
    ensures forall i :: 26 <= i < 39 ==> UpperPair(UsStateAt(i).abbreviation) && UsStateAt(i).name != ""
  {
  }

  lemma UsAbbreviationShapeRows39()
    ensures forall i :: 39 <= i < 51 ==> UpperPair(UsStateAt(i).abbreviation) && UsStateAt(i).name != ""
  {
  }

  /** The list holds 51 entries, the District of Columbia among them; every abbreviation is two
      upper-case letters and every name is non-empty. */
  lemma UsStatesShape()
    ensures forall i :: 0 <= i < UsStateCount ==> UpperPair(UsStateAt(i).abbreviation) && UsStateAt(i).name != ""
    ensures UsStateAt(8) == UsState("District Of Columbia", "DC")
  {
    UsAbbreviationShapeRows0();
    UsAbbreviationShapeRows13();
    UsAbbreviationShapeRows26();
    UsAbbreviationShapeRows39();
  }

  lemma UsStateShapeAt(i: nat)
    requires i < UsStateCount
    ensures UpperPair(UsStateAt(i).abbreviation)
  {
    UsStatesShape();
  }

  lemma UsStateNameAt(i: nat)
    requires i < UsStateCount
    ensures UsStateAt(i).name != ""
  {
    UsStatesShape();
  }
}
