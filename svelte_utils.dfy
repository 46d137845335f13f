/** The helpers of the SvelteKit deal-intake route (src/lib/utils.ts): state-name lookup,
    list and currency normalisation, form-data conversion, address-component extraction and
    the e-mail check. */
module SvelteUtils {
  import opened Wrappers
  import opened Text
  import opened JsNumber

  // ---------------------------------------------------------------------------------------
  // convertStateToAbbr

  /** One row of the lookup table: column "0" is the name, column "1" the abbreviation. */
  datatype StateRow = StateRow(name: string, abbreviation: string)

  /** Row `i` of the table `convertStateToAbbr` searches: fifty states, without the District of
      Columbia, in the source's order. */
  function StateRowAt(i: nat): StateRow
    requires i < 50
  {
    match i
    case 0 => StateRow("Arizona", "AZ")
    case 1 => StateRow("Alabama", "AL")
    case 2 => StateRow("Alaska", "AK")
    case 3 => StateRow("Arkansas", "AR")
    case 4 => StateRow("California", "CA")
    case 5 => StateRow("Colorado", "CO")
    case 6 => StateRow("Connecticut", "CT")
    case 7 => StateRow("Delaware", "DE")
    case 8 => StateRow("Florida", "FL")
    case 9 => StateRow("Georgia", "GA")
    case 10 => StateRow("Hawaii", "HI")
    case 11 => StateRow("Idaho", "ID")
    case 12 => StateRow("Illinois", "IL")
    case 13 => StateRow("Indiana", "IN")
    case 14 => StateRow("Iowa", "IA")
    case 15 => StateRow("Kansas", "KS")
    case 16 => StateRow("Kentucky", "KY")
    case 17 => StateRow("Louisiana", "LA")
    case 18 => StateRow("Maine", "ME")
    case 19 => StateRow("Maryland", "MD")
    case 20 => StateRow("Massachusetts", "MA")
    case 21 => StateRow("Michigan", "MI")
    case 22 => StateRow("Minnesota", "MN")
    case 23 => StateRow("Mississippi", "MS")
    case 24 => StateRow("Missouri", "MO")
    case 25 => StateRow("Montana", "MT")
    case 26 => StateRow("Nebraska", "NE")
    case 27 => StateRow("Nevada", "NV")
    case 28 => StateRow("New Hampshire", "NH")
    case 29 => StateRow("New Jersey", "NJ")
    case 30 => StateRow("New Mexico", "NM")
    case 31 => StateRow("New York", "NY")
    case 32 => StateRow("North Carolina", "NC")
    case 33 => StateRow("North Dakota", "ND")
    case 34 => StateRow("Ohio", "OH")
    case 35 => StateRow("Oklahoma", "OK")
    case 36 => StateRow("Oregon", "OR")
    case 37 => StateRow("Pennsylvania", "PA")
    case 38 => StateRow("Rhode Island", "RI")
    case 39 => StateRow("South Carolina", "SC")
    case 40 => StateRow("South Dakota", "SD")
    case 41 => StateRow("Tennessee", "TN")
    case 42 => StateRow("Texas", "TX")
    case 43 => StateRow("Utah", "UT")
    case 44 => StateRow("Vermont", "VT")
    case 45 => StateRow("Virginia", "VA")
    case 46 => StateRow("Washington", "WA")
    case 47 => StateRow("West Virginia", "WV")
    case 48 => StateRow("Wisconsin", "WI")
    case _ => StateRow("Wyoming", "WY")
  }

  /** The number of rows. */
  const StateCount := 50

  /** `states[i][to]` for a two-element row: the key "0" reads the name, "1" the abbreviation,
      and every other key reads `undefined`. */
  function Column(row: StateRow, to: string): Option<string> {
    if to == "0" then Some(row.name)
    else if to == "1" then Some(row.abbreviation)
    else None
  }

  /** Row `i` is the first row of the table whose name is exactly `name`. */
  predicate FirstNamed(name: string, i: int) {
    && 0 <= i < StateCount
    && StateRowAt(i).name == name
    && forall k :: 0 <= k < i ==> StateRowAt(k).name != name
  }

  /** What `convertStateToAbbr(name, to)` returns: the `to` column of the first row named
      `name`, or "" when no row has that name. */
  ghost function StateLookup(name: string, to: string): Option<string> {
    if exists i :: FirstNamed(name, i) then
      var i :| FirstNamed(name, i);
      Column(StateRowAt(i), to)
    else Some("")
  }

  /** The lookup reads the row that is first with the name. */
  lemma StateLookupFound(name: string, to: string, i: int)
    requires FirstNamed(name, i)
    ensures StateLookup(name, to) == Column(StateRowAt(i), to)
  {
    forall j | FirstNamed(name, j) ensures j == i {
      assert StateRowAt(j).name == name && StateRowAt(i).name == name;
    }
  }

  /** The lookup is "" when no row has the name. */
  lemma StateLookupMissing(name: string, to: string)
    requires forall k :: 0 <= k < StateCount ==> StateRowAt(k).name != name
    ensures StateLookup(name, to) == Some("")
  {
  }

  /** `convertStateToAbbr(name, to)`: an indexed scan of the table with an early return. */
  method ConvertStateToAbbr(name: string, to: string) returns (r: Option<string>)
    ensures r == StateLookup(name, to)
  {
    for i := 0 to StateCount
      invariant forall k :: 0 <= k < i ==> StateRowAt(k).name != name
    {
      var row := StateRowAt(i);
      if row.name == name {
        StateLookupFound(name, to, i);
        return Column(row, to);
      }
    }
    StateLookupMissing(name, to);
    return Some("");
  }

  /** The default column gives "AZ" for "Arizona". */
  lemma ArizonaAbbreviation()
    ensures StateLookup("Arizona", "1") == Some("AZ")
  {
    StateLookupFound("Arizona", "1", 0);
  }

  /** A name the table lacks gives "", whatever column is asked for; the District of Columbia
      is such a name. */
  lemma UnknownStateIsEmpty(to: string)
    ensures StateLookup("InvalidState", to) == Some("")
    ensures StateLookup("District Of Columbia", to) == Some("")
  {
    NoRowNamed("InvalidState");
    StateLookupMissing("InvalidState", to);
    NoRowNamed("District Of Columbia");
    StateLookupMissing("District Of Columbia", to);
  }

  /** Three names the table does not hold. */
  lemma NoRowNamed(name: string)
    requires name == "InvalidState" || name == "District Of Columbia" || name == "arizona"
    ensures forall i :: 0 <= i < StateCount ==> StateRowAt(i).name != name
  {
  }

  /** The "3 letter" column "2" that the source's comment advertises reads `undefined`. */
  lemma ThirdColumnIsUndefined()
    ensures StateLookup("Arizona", "2") == None
  {
    StateLookupFound("Arizona", "2", 0);
  }

  /** Matching is case-sensitive: a lower-case name is not found. */
  lemma LookupIsCaseSensitive()
    ensures StateLookup("arizona", "1") == Some("")
  {
    NoRowNamed("arizona");
    StateLookupMissing("arizona", "1");
  }

  // ---------------------------------------------------------------------------------------
  // convertStringToList

  predicate NotBracket(c: char) { c != '[' && c != ']' }
  predicate NotQuote(c: char) { c != '"' }

  /** An item of a list the conversion is meant for: no bracket, quote or comma inside. */
  predicate PlainItem(item: string) {
    forall i :: 0 <= i < |item| ==> item[i] != '[' && item[i] != ']' && item[i] != '"' && item[i] != ','
  }

  /** `convertStringToList(input)`: drop every bracket, then every double quote, then turn
      every comma into a semicolon. */
  function ConvertStringToList(input: string): (r: string)
    ensures PlainItem(r)
    ensures |r| <= |input|
  {
    var noBrackets := Filter(input, NotBracket);
    FilterMembers(input, NotBracket, '[');
    FilterMembers(input, NotBracket, ']');
    var noQuotes := Filter(noBrackets, NotQuote);
    FilterMembers(noBrackets, NotQuote, '[');
    FilterMembers(noBrackets, NotQuote, ']');
    FilterMembers(noBrackets, NotQuote, '"');
    ReplaceAll(noQuotes, ',', ';')
  }

  /** The same conversion read character by character: brackets and quotes vanish, a comma
      becomes ';', every other character stays where it was. */
  function ListChars(s: string): string {
    if s == [] then []
    else if s[0] == '[' || s[0] == ']' || s[0] == '"' then ListChars(s[1..])
    else [if s[0] == ',' then ';' else s[0]] + ListChars(s[1..])
  }

  lemma {:induction false} ListCharsAppend(s: string, t: string)
    ensures ListChars(s + t) == ListChars(s) + ListChars(t)
  {
    if s == [] {
      assert s + t == t;
    } else {
      assert (s + t)[0] == s[0] && (s + t)[1..] == s[1..] + t;
      ListCharsAppend(s[1..], t);
    }
  }

  /** The three global replacements equal the single character-by-character pass. */
  lemma {:induction false} ConvertStringToListIsListChars(s: string)
    ensures ConvertStringToList(s) == ListChars(s)
  {
    if s != [] {
      ConvertStringToListIsListChars(s[1..]);
      var x := s[0];
      var noBrackets := Filter(s[1..], NotBracket);
      var noQuotes := Filter(noBrackets, NotQuote);
      assert s == [x] + s[1..];
      FilterCons(x, s[1..], NotBracket);
      if NotBracket(x) {
        assert Filter(s, NotBracket) == [x] + noBrackets;
        FilterCons(x, noBrackets, NotQuote);
        if NotQuote(x) {
          assert Filter([x] + noBrackets, NotQuote) == [x] + noQuotes;
          ReplaceAllCons(x, noQuotes, ',', ';');
        } else {
          assert Filter([x] + noBrackets, NotQuote) == noQuotes;
        }
      } else {
        assert Filter(s, NotBracket) == noBrackets;
      }
    }
  }

  /** Converting twice is converting once. */
  lemma {:induction false} ListCharsIdempotent(s: string)
    ensures ListChars(ListChars(s)) == ListChars(s)
  {
    if s != [] {
      ListCharsIdempotent(s[1..]);
      if !(s[0] == '[' || s[0] == ']' || s[0] == '"') {
        var c := if s[0] == ',' then ';' else s[0];
        ListCharsAppend([c], ListChars(s[1..]));
        assert ListChars([c]) == [c];
      }
    }
  }

  lemma ConvertStringToListIdempotent(s: string)
    ensures ConvertStringToList(ConvertStringToList(s)) == ConvertStringToList(s)
  {
    ConvertStringToListIsListChars(s);
    ConvertStringToListIsListChars(ConvertStringToList(s));
    ListCharsIdempotent(s);
  }

  /** Each item between double quotes, as `JSON.stringify` writes a string. */
  function QuoteAll(items: seq<string>): (r: seq<string>)
    ensures |r| == |items|
    ensures forall i :: 0 <= i < |items| ==> r[i] == "\"" + items[i] + "\""
  {
    if items == [] then [] else ["\"" + items[0] + "\""] + QuoteAll(items[1..])
  }

  /** The items, each quoted without escaping, between brackets. For items that hold neither a
      backslash nor a character below U+0020 this is `JSON.stringify(items)`, which escapes
      those two and the quote. */
  function JsonStringArray(items: seq<string>): string {
    "[" + Join(QuoteAll(items), ",") + "]"
  }

  /** An array text of plain items, quoted without escaping, becomes its items separated by
      ';'. */
  lemma ConvertJsonStringArray(items: seq<string>)
    requires forall i :: 0 <= i < |items| ==> PlainItem(items[i])
    ensures ConvertStringToList(JsonStringArray(items)) == Join(items, ";")
  {
    var body := Join(QuoteAll(items), ",");
    var text := JsonStringArray(items);
    assert text == ("[" + body) + "]";
    ConvertStringToListIsListChars(text);
    ListCharsAppend("[" + body, "]");
    ListCharsAppend("[", body);
    BracketsVanish();
    ListCharsOfQuotedJoin(items);
    assert ListChars(text) == ListChars(body);
  }

  lemma BracketsVanish()
    ensures ListChars("[") == [] && ListChars("]") == []
  {
  }

  lemma {:induction false} ListCharsOfQuotedJoin(items: seq<string>)
    requires forall i :: 0 <= i < |items| ==> PlainItem(items[i])
    ensures ListChars(Join(QuoteAll(items), ",")) == Join(items, ";")
  {
    if items != [] {
      var quoted := QuoteAll(items);
      QuotedItemChars(items[0]);
      if |items| > 1 {
        assert QuoteAll(items[1..]) == quoted[1..];
        ListCharsOfQuotedJoin(items[1..]);
        var restQuoted := Join(quoted[1..], ",");
        assert Join(quoted, ",") == quoted[0] + "," + restQuoted;
        ListCharsAppend(quoted[0] + ",", restQuoted);
        ListCharsAppend(quoted[0], ",");
        assert Join(items, ";") == items[0] + ";" + Join(items[1..], ";");
      }
    }
  }

  /** A quoted plain item loses its quotes. */
  lemma QuotedItemChars(item: string)
    requires PlainItem(item)
    ensures ListChars("\"" + item + "\"") == item
  {
    ListCharsAppend("\"" + item, "\"");
    ListCharsAppend("\"", item);
    ListCharsPlain(item);
  }

  /** Text without brackets, quotes or commas passes through unchanged. */
  lemma {:induction false} ListCharsPlain(s: string)
    requires PlainItem(s)
    ensures ListChars(s) == s
  {
    if s != [] {
      ListCharsPlain(s[1..]);
    }
  }

  /** The list example of the module's tests. */
  lemma ConvertStringToListExample(first: string, second: string)
    requires first == "Rehab/Construction" && second == "Purchase"
    ensures ConvertStringToList(JsonStringArray([first, second])) == first + ";" + second
  {
    assert PlainItem(first) && PlainItem(second);
    ConvertJsonStringArray([first, second]);
  }

  /** An empty list becomes the empty string. */
  lemma ConvertEmptyList()
    ensures ConvertStringToList(JsonStringArray([])) == ""
  {
    ConvertJsonStringArray([]);
  }

  // ---------------------------------------------------------------------------------------
  // currencyToNumber

  /** The argument of `currencyToNumber`: a string, or a number. */
  datatype CurrencyInput = Text(text: string) | Num(number: Number)

  predicate NotComma(c: char) { c != ',' }

  /** Every comma removed, then only the first dollar sign. */
  function StripCurrency(s: string): (r: string)
    ensures ',' !in r
  {
    RemoveFirst(Filter(s, NotComma), '$')
  }

  /** Exactly one dollar sign goes, when there is one. */
  lemma StripCurrencyDollars(s: string)
    ensures Count(StripCurrency(s), '$') == if '$' in s then Count(s, '$') - 1 else 0
  {
    var noCommas := Filter(s, NotComma);
    CountFilterKeeps(s, NotComma, '$');
    if '$' in noCommas {
      CountRemoveFirst(noCommas, '$');
    }
  }

  lemma {:induction false} CountFilterKeeps(s: string, keep: char -> bool, c: char)
    requires keep(c)
    ensures Count(Filter(s, keep), c) == Count(s, c)
  {
    if s != [] {
      CountFilterKeeps(s[1..], keep, c);
      CountAppend(if keep(s[0]) then [s[0]] else [], Filter(s[1..], keep), c);
    }
  }

  /** `currencyToNumber(input)`. A number is turned into text with `toString` and read back
      with `Number`; for every JavaScript number that text has no comma or dollar sign and reads
      back as the same number, so a number comes back unchanged. */
  function CurrencyToNumber(input: CurrencyInput): (r: Number)
    ensures input.Num? ==> r == input.number
  {
    match input
    case Num(n) => n
    case Text(s) => ParseNumber(StripCurrency(s))
  }

  /** Commas are ignored wherever they stand. */
  lemma StripCurrencyIgnoresComma(a: string, b: string)
    ensures StripCurrency(a + "," + b) == StripCurrency(a + b)
  {
    FilterAppend(a + ",", b, NotComma);
    FilterAppend(a, ",", NotComma);
    FilterAppend(a, b, NotComma);
    assert Filter(",", NotComma) == [];
    assert Filter(a, NotComma) + [] == Filter(a, NotComma);
  }

  /** A leading dollar sign is the one removed; any later one stays. */
  lemma StripCurrencyLeadingDollar(s: string)
    ensures StripCurrency("$" + s) == Filter(s, NotComma)
  {
    FilterCons('$', s, NotComma);
  }

  /** Text with neither commas nor dollar signs is left as it is. */
  lemma StripCurrencyPlain(s: string)
    requires ',' !in s && '$' !in s
    ensures StripCurrency(s) == s
  {
    FilterKeepsAll(s, NotComma);
  }

  /** An amount written `i.f` or `$i.f`, with digits `i` and `f`, reads as its exact decimal
      value. */
  lemma CurrencyOfDecimal(dollar: string, i: string, f: string)
    requires dollar == "" || dollar == "$"
    requires |i| > 0 && AllDigits(i) && AllDigits(f)
    ensures CurrencyToNumber(Text(dollar + i + "." + f)) == Finite(DecimalValue(i, f))
  {
    var t := i + "." + f;
    assert dollar + i + "." + f == dollar + t;
    DigitsAndPointHaveNoSpace(t);
    assert forall k :: 0 <= k < |t| ==> IsDigit(t[k]) || t[k] == '.';
    if dollar == "" {
      assert dollar + t == t;
      StripCurrencyPlain(t);
    } else {
      StripCurrencyLeadingDollar(t);
      FilterKeepsAll(t, NotComma);
    }
    UnsignedOfDecimal(i, f);
    NumberOfUnsigned(t);
  }

  /** Only the first dollar sign is removed, so a second one makes the text unreadable. */
  lemma OnlyFirstDollarRemoved()
    ensures CurrencyToNumber(Text("$$1")) == NaN
  {
    StripCurrencyLeadingDollar("$1");
    FilterKeepsAll("$1", NotComma);
    assert "$" + "$1" == "$$1";
    assert NoSpace("$1");
    assert SplitSign("$1") == (false, "$1");
    assert LeadingDigits("$1") == 0;
  }

  /** The example "$1.00" of the module's tests reads as 1. */
  lemma DollarExample(i: string, f: string)
    requires i == "1" && f == "00"
    ensures CurrencyToNumber(Text("$" + i + "." + f)) == Finite(1.0)
  {
    CurrencyOfDecimal("$", i, f);
    DecimalExample(i, f, 2);
  }

  /** A thousands separator between two digit groups is ignored: `h,l.f` reads as `hl.f`. */
  lemma CurrencyOfGrouped(high: string, low: string, f: string)
    requires |high| > 0 && AllDigits(high) && AllDigits(low) && AllDigits(f)
    ensures AllDigits(high + low)
    ensures CurrencyToNumber(Text(high + "," + low + "." + f)) == Finite(DecimalValue(high + low, f))
  {
    var tail := low + "." + f;
    assert high + "," + low + "." + f == high + "," + tail;
    StripCurrencyIgnoresComma(high, tail);
    assert high + tail == "" + (high + low) + "." + f;
    CurrencyOfDecimal("", high + low, f);
  }

  /** The example "1,000.00" of the module's tests reads as 1000. */
  lemma ThousandsExample(high: string, low: string, f: string)
    requires high == "1" && low == "000" && f == "00"
    ensures CurrencyToNumber(Text(high + "," + low + "." + f)) == Finite(1000.0)
  {
    ThousandValue(high, low, f);
    CurrencyOfGrouped(high, low, f);
  }

  lemma ThousandValue(high: string, low: string, f: string)
    requires high == "1" && low == "000" && f == "00"
    ensures AllDigits(high + low) && DecimalValue(high + low, f) == 1000.0
  {
    assert high + low == "1" + Zeros(3);
    DecimalExample(high + low, f, 5);
  }

  /** The empty string reads as 0. */
  lemma EmptyCurrencyIsZero()
    ensures CurrencyToNumber(Text("")) == Finite(0.0)
  {
  }

  /** The value of `1<zeros>.00` for the test values above. */
  lemma DecimalExample(i: string, f: string, k: nat)
    requires k >= 2 && i == "1" + Zeros(k - 2) && f == "00"
    ensures AllDigits(i) && DecimalValue(i, f) == Pow10(k - 2) as real
  {
    OneThenZeros(k);
    assert i + f == "1" + Zeros(k);
    assert Pow10(k) == Pow10(k - 2) * 100;
  }

  // ---------------------------------------------------------------------------------------
  // formDataToObject

  /** `Object.fromEntries(entries)` over the string entries of a form: a later entry with the
      same key replaces an earlier one. */
  function FormDataToObject(entries: seq<(string, string)>): (m: map<string, string>)
    ensures m.Keys == set e | e in entries :: e.0
  {
    if entries == [] then map[]
    else
      var last := entries[|entries| - 1];
      var init := entries[..|entries| - 1];
      assert entries == init + [last];
      FormDataToObject(init)[last.0 := last.1]
  }

  /** Every key gets the value of its last entry. */
  lemma {:induction false} LastEntryWins(entries: seq<(string, string)>, i: nat)
    requires i < |entries|
    requires forall k :: i < k < |entries| ==> entries[k].0 != entries[i].0
    ensures FormDataToObject(entries)[entries[i].0] == entries[i].1
  {
    var n := |entries| - 1;
    if i < n {
      assert entries[..n][i] == entries[i];
      LastEntryWins(entries[..n], i);
    }
  }

  /** With distinct keys the object pairs each key with its own value. */
  lemma DistinctKeysMapOneToOne(entries: seq<(string, string)>)
    requires forall i, j :: 0 <= i < j < |entries| ==> entries[i].0 != entries[j].0
    ensures |FormDataToObject(entries)| == |entries|
    ensures forall i :: 0 <= i < |entries| ==> FormDataToObject(entries)[entries[i].0] == entries[i].1
  {
    forall i | 0 <= i < |entries| ensures FormDataToObject(entries)[entries[i].0] == entries[i].1 {
      LastEntryWins(entries, i);
    }
    DistinctKeysCount(entries);
  }

  lemma {:induction false} DistinctKeysCount(entries: seq<(string, string)>)
    requires forall i, j :: 0 <= i < j < |entries| ==> entries[i].0 != entries[j].0
    ensures |FormDataToObject(entries)| == |entries|
  {
    if entries != [] {
      var n := |entries| - 1;
      var init := entries[..n];
      assert forall i, j :: 0 <= i < j < |init| ==> init[i].0 != init[j].0 by {
        forall i, j | 0 <= i < j < |init| ensures init[i].0 != init[j].0 {
          assert init[i] == entries[i] && init[j] == entries[j];
        }
      }
      DistinctKeysCount(init);
      forall i | 0 <= i < |init| ensures init[i].0 != entries[n].0 {
        assert init[i] == entries[i];
      }
      KeyAbsent(init, entries[n].0);
      assert FormDataToObject(entries) == FormDataToObject(init)[entries[n].0 := entries[n].1];
    }
  }

  /** A key no entry has is not in the object. */
  lemma KeyAbsent(entries: seq<(string, string)>, key: string)
    requires forall i :: 0 <= i < |entries| ==> entries[i].0 != key
    ensures key !in FormDataToObject(entries)
  {
    forall e | e in entries ensures e.0 != key {
      var j :| 0 <= j < |entries| && entries[j] == e;
    }
  }

  lemma EmptyFormData()
    ensures FormDataToObject([]) == map[]
  {
  }

  // ---------------------------------------------------------------------------------------
  // extractAddressComponents

  /** One entry of a geocoder result: its names and its types, most specific type first. */
  datatype AddressComponent = AddressComponent(long_name: string, short_name: string, types: seq<string>)

  datatype ExtractedAddress = ExtractedAddress(address: string, city: string, state: string, zip_code: string)

  /** The five component types the extractor keeps. */
  const StreetNumber := "street_number"
  const Route := "route"
  const Locality := "locality"
  const AdminArea := "administrative_area_level_1"
  const PostalCode := "postal_code"

  /** `component.types[0]`, `undefined` for a component without types. */
  function FirstType(c: AddressComponent): Option<string> {
    if c.types == [] then None else Some(c.types[0])
  }

  /** The long name of the last component whose first type is `t`, or "" if there is none. */
  function LastOfType(cs: seq<AddressComponent>, t: string): (r: string)
    ensures (forall k :: 0 <= k < |cs| ==> FirstType(cs[k]) != Some(t)) ==> r == ""
  {
    if cs == [] then ""
    else if FirstType(cs[|cs| - 1]) == Some(t) then cs[|cs| - 1].long_name
    else LastOfType(cs[..|cs| - 1], t)
  }

  /** The record the extractor builds and the object it returns. */
  datatype AddressParts = AddressParts(
    street_number: string, route: string, locality: string,
    administrative_area_level_1: string, postal_code: string)

  /** `address[type] = component.long_name` when `type` names one of the five parts. Any other
      key that `type in address` accepts (an inherited property such as "toString") is written
      on the object but never read back, so it is left out. */
  function Assign(parts: AddressParts, c: AddressComponent): AddressParts {
    match FirstType(c)
    case None => parts
    case Some(t) =>
      if t == StreetNumber then parts.(street_number := c.long_name)
      else if t == Route then parts.(route := c.long_name)
      else if t == Locality then parts.(locality := c.long_name)
      else if t == AdminArea then parts.(administrative_area_level_1 := c.long_name)
      else if t == PostalCode then parts.(postal_code := c.long_name)
      else parts
  }

  /** What `extractAddressComponents` returns, in terms of the last component of each type. */
  function ExpectedAddress(cs: seq<AddressComponent>): ExtractedAddress {
    ExtractedAddress(
      LastOfType(cs, StreetNumber) + " " + LastOfType(cs, Route),
      LastOfType(cs, Locality),
      LastOfType(cs, AdminArea),
      LastOfType(cs, PostalCode))
  }

  predicate PartsAre(parts: AddressParts, cs: seq<AddressComponent>) {
    && parts.street_number == LastOfType(cs, StreetNumber)
    && parts.route == LastOfType(cs, Route)
    && parts.locality == LastOfType(cs, Locality)
    && parts.administrative_area_level_1 == LastOfType(cs, AdminArea)
    && parts.postal_code == LastOfType(cs, PostalCode)
  }

  /** A component appended at the end decides its own type and leaves every other type alone. */
  lemma LastOfTypeSnoc(cs: seq<AddressComponent>, c: AddressComponent, t: string)
    ensures LastOfType(cs + [c], t) == if FirstType(c) == Some(t) then c.long_name else LastOfType(cs, t)
  {
    assert (cs + [c])[..|cs|] == cs;
  }

  /** The five types are five different strings. */
  lemma TypesDistinct()
    ensures StreetNumber != Route && StreetNumber != Locality && StreetNumber != AdminArea && StreetNumber != PostalCode
    ensures Route != Locality && Route != AdminArea && Route != PostalCode
    ensures Locality != AdminArea && Locality != PostalCode && AdminArea != PostalCode
  {
    assert StreetNumber[0] == 's' && Route[0] == 'r' && Locality[0] == 'l' && AdminArea[0] == 'a' && PostalCode[0] == 'p';
  }

  /** One step of the extractor keeps the record equal to the last component of each type. */
  lemma AssignStep(parts: AddressParts, cs: seq<AddressComponent>, c: AddressComponent)
    requires PartsAre(parts, cs)
    ensures PartsAre(Assign(parts, c), cs + [c])
  {
    var next := Assign(parts, c);
    TypesDistinct();
    SnocField(parts.street_number, cs, c, StreetNumber, next.street_number);
    SnocField(parts.route, cs, c, Route, next.route);
    SnocField(parts.locality, cs, c, Locality, next.locality);
    SnocField(parts.administrative_area_level_1, cs, c, AdminArea, next.administrative_area_level_1);
    SnocField(parts.postal_code, cs, c, PostalCode, next.postal_code);
  }

  /** One part of the record after a step: overwritten by a component of its type, else kept. */
  lemma SnocField(before: string, cs: seq<AddressComponent>, c: AddressComponent, t: string, after: string)
    requires before == LastOfType(cs, t)
    requires after == if FirstType(c) == Some(t) then c.long_name else before
    ensures after == LastOfType(cs + [c], t)
  {
    LastOfTypeSnoc(cs, c, t);
  }

  /** `extractAddressComponents(components)`: a `forEach` over the components that overwrites
      one field of a local record per recognised first type. */
  method ExtractAddressComponents(cs: seq<AddressComponent>) returns (r: ExtractedAddress)
    ensures r == ExpectedAddress(cs)
  {
    var parts := AddressParts("", "", "", "", "");
    for i := 0 to |cs|
      invariant PartsAre(parts, cs[..i])
    {
      AssignStep(parts, cs[..i], cs[i]);
      assert cs[..i + 1] == cs[..i] + [cs[i]];
      parts := Assign(parts, cs[i]);
    }
    assert cs[..|cs|] == cs;
    r := ExtractedAddress(
      parts.street_number + " " + parts.route,
      parts.locality,
      parts.administrative_area_level_1,
      parts.postal_code);
  }

  /** Only the first type counts: a component whose first type is none of the five changes
      nothing, even when a later type is one of them. */
  lemma UnknownFirstTypeIgnored(cs: seq<AddressComponent>, c: AddressComponent)
    requires FirstType(c) !in {Some(StreetNumber), Some(Route), Some(Locality), Some(AdminArea), Some(PostalCode)}
    ensures ExpectedAddress(cs + [c]) == ExpectedAddress(cs)
  {
    assert (cs + [c])[..|cs|] == cs;
  }

  /** Without a street number the address starts with a space; the state is the long name. */
  lemma MissingNumberLeavesLeadingSpace(route: string, state: AddressComponent)
    requires FirstType(state) == Some(AdminArea)
    ensures ExpectedAddress([AddressComponent(route, route, [Route]), state]).address == " " + route
    ensures ExpectedAddress([AddressComponent(route, route, [Route]), state]).state == state.long_name
  {
    var r := AddressComponent(route, route, [Route]);
    assert [r, state] == [r] + [state];
    assert [r] == [] + [r];
    LastOfTypeSnoc([r], state, StreetNumber);
    LastOfTypeSnoc([r], state, Route);
    LastOfTypeSnoc([r], state, AdminArea);
    LastOfTypeSnoc([], r, StreetNumber);
    LastOfTypeSnoc([], r, Route);
    assert "" + " " + route == " " + route;
  }

  // ---------------------------------------------------------------------------------------
  // isValidEmail

  /** A run the pattern `[^\s@]+` matches. */
  predicate Atom(t: string) {
    |t| > 0 && forall k :: 0 <= k < |t| ==> !IsSpace(t[k]) && t[k] != '@'
  }

  /** `s` splits as `a@b.c` at the '@' index `i` and the '.' index `j`, with `a`, `b` and `c`
      runs of `[^\s@]+`: one way for `^[^\s@]+@[^\s@]+\.[^\s@]+$` to match. */
  ghost predicate EmailSplit(s: string, i: int, j: int) {
    && 0 <= i < j < |s|
    && s[i] == '@' && s[j] == '.'
    && Atom(s[..i]) && Atom(s[i + 1..j]) && Atom(s[j + 1..])
  }

  /** The first index of `c` in `s`. */
  function IndexOf(s: string, c: char): (i: nat)
    requires c in s
    ensures i < |s| && s[i] == c && c !in s[..i]
  {
    if s[0] == c then 0 else 1 + IndexOf(s[1..], c)
  }

  /** `isValidEmail(email)`: no white space, exactly one '@' with text before it, and a '.'
      after it that leaves text on both of its sides. */
  predicate IsValidEmail(email: string) {
    && NoSpace(email)
    && Count(email, '@') == 1
    && var i := IndexOf(email, '@');
       0 < i && i + 2 <= |email| - 1 && '.' in email[i + 2..|email| - 1]
  }

  lemma {:induction false} CountOneMeansOnlyAt(s: string, c: char, i: nat)
    requires Count(s, c) == 1 && i < |s| && s[i] == c
    ensures forall k :: 0 <= k < |s| && k != i ==> s[k] != c
  {
    if i > 0 {
      assert s[1..][i - 1] == c;
      CountOneMeansOnlyAt(s[1..], c, i - 1);
    } else {
      assert Count(s[1..], c) == 0;
    }
  }

  lemma {:induction false} NoOtherMeansCountOne(s: string, c: char, i: nat)
    requires i < |s| && s[i] == c
    requires forall k :: 0 <= k < |s| && k != i ==> s[k] != c
    ensures Count(s, c) == 1
  {
    if i > 0 {
      NoOtherMeansCountOne(s[1..], c, i - 1);
    } else {
      assert c !in s[1..];
    }
  }

  /** The character test equals the regular expression. */
  lemma IsValidEmailMatchesPattern(s: string)
    ensures IsValidEmail(s) <==> exists i, j :: EmailSplit(s, i, j)
  {
    if IsValidEmail(s) {
      ValidEmailSplits(s);
    }
    if exists i, j :: EmailSplit(s, i, j) {
      var i, j :| EmailSplit(s, i, j);
      SplitIsValidEmail(s, i, j);
    }
  }

  lemma ValidEmailSplits(s: string)
    requires IsValidEmail(s)
    ensures exists i, j :: EmailSplit(s, i, j)
  {
    var i := IndexOf(s, '@');
    CountOneMeansOnlyAt(s, '@', i);
    var mid := s[i + 2..|s| - 1];
    var d := IndexOf(mid, '.');
    var j := i + 2 + d;
    assert s[j] == mid[d] == '.';
    assert forall k :: 0 <= k < |s| && k != i ==> s[k] != '@' && !IsSpace(s[k]);
    assert Atom(s[..i]) by {
      assert forall k :: 0 <= k < i ==> s[..i][k] == s[k];
    }
    assert Atom(s[i + 1..j]) by {
      assert forall k :: i < k < j ==> s[i + 1..j][k - i - 1] == s[k];
    }
    assert Atom(s[j + 1..]) by {
      assert forall k :: j < k < |s| ==> s[j + 1..][k - j - 1] == s[k];
    }
    assert EmailSplit(s, i, j);
  }

  lemma SplitIsValidEmail(s: string, i: int, j: int)
    requires EmailSplit(s, i, j)
    ensures IsValidEmail(s)
  {
    assert forall k :: 0 <= k < i ==> s[..i][k] == s[k];
    assert forall k :: i < k < j ==> s[i + 1..j][k - i - 1] == s[k];
    assert forall k :: j < k < |s| ==> s[j + 1..][k - j - 1] == s[k];
    assert forall k :: 0 <= k < |s| && k != i ==> s[k] != '@' && !IsSpace(s[k]);
    NoOtherMeansCountOne(s, '@', i);
    assert IndexOf(s, '@') == i;
    assert s[i + 2..|s| - 1][j - i - 2] == '.';
  }
}
