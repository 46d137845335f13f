/** The post-processing of PDF form fields in the Next.js application (lib/pdf-parser.ts). Loading
    the PDF is outside the model: the document arrives as its list of form fields, or as the
    error its loading raised. Each field is read, currency-formatted when its name holds `$`,
    dropped when its value is empty, and the survivors are sorted by name. */
module PdfParser {
  import opened Wrappers
  import opened Text
  import opened JsNumber

  /** A field's text accessor: absent on fields that are not text fields, and otherwise returning
      the text or `undefined`. */
  datatype FieldText = NoGetText | GetText(text: Option<string>)

  /** A form field as the PDF library hands it over. */
  datatype RawField = RawField(name: string, text: FieldText)

  datatype ParsedField = ParsedField(name: string, value: string)

  const ProcessFailed := "Failed to process PDF. Please ensure it contains form fields."

  /** The characters `/[^0-9.-]+/g` keeps. */
  predicate NumberChar(c: char) {
    IsDigit(c) || c == '.' || c == '-'
  }

  /** `getText() || ""`, or "" for a field without the accessor. */
  function TextOf(f: RawField): (value: string)
    ensures f.text.GetText? && f.text.text.Some? ==> value == f.text.text.value
    ensures f.text.NoGetText? || f.text.text.None? ==> value == ""
  {
    match f.text
    case NoGetText => ""
    case GetText(t) => t.GetOr("")
  }

  /** The value of one field: the text, or for a name holding `$` (lower-casing cannot add or
      remove a `$`) and a non-empty text, the number its digits, points and minus signs spell,
      formatted as US dollars by `formatUsd`. */
  function FieldValue(f: RawField, formatUsd: Number -> string): (value: string)
    ensures '$' !in f.name || TextOf(f) == "" ==> value == TextOf(f)
    ensures '$' in f.name && TextOf(f) != "" ==> value == formatUsd(ParseNumber(Filter(TextOf(f), NumberChar)))
  {
    var text := TextOf(f);
    if '$' in f.name && text != "" then formatUsd(ParseNumber(Filter(text, NumberChar))) else text
  }

  /** The fields that keep a non-empty value, in their order, names unchanged. */
  function KeptFields(fields: seq<RawField>, formatUsd: Number -> string): (r: seq<ParsedField>)
    ensures |r| <= |fields|
    ensures forall i :: 0 <= i < |r| ==> r[i].value != ""
  {
    if fields == [] then []
    else
      var value := FieldValue(fields[0], formatUsd);
      (if value != "" then [ParsedField(fields[0].name, value)] else []) + KeptFields(fields[1..], formatUsd)
  }

  /** A field is kept exactly when its value is non-empty. */
  lemma {:induction false} KeptFieldsMembers(fields: seq<RawField>, formatUsd: Number -> string, f: RawField)
    requires f in fields
    ensures FieldValue(f, formatUsd) != "" <==> ParsedField(f.name, FieldValue(f, formatUsd)) in KeptFields(fields, formatUsd)
  {
    if fields[0] != f {
      KeptFieldsMembers(fields[1..], formatUsd, f);
    } else if fields[1..] != [] && f in fields[1..] {
      KeptFieldsMembers(fields[1..], formatUsd, f);
    }
  }

  /** Nothing else is kept: every kept entry is an input field's name with its non-empty
      value. */
  lemma {:induction false} KeptFieldsFromInput(fields: seq<RawField>, formatUsd: Number -> string, p: ParsedField)
    requires p in KeptFields(fields, formatUsd)
    ensures exists f :: f in fields && FieldValue(f, formatUsd) != "" && p == ParsedField(f.name, FieldValue(f, formatUsd))
  {
    var value := FieldValue(fields[0], formatUsd);
    var head := if value != "" then [ParsedField(fields[0].name, value)] else [];
    assert KeptFields(fields, formatUsd) == head + KeptFields(fields[1..], formatUsd);
    if p in head {
      assert fields[0] in fields;
    } else {
      KeptFieldsFromInput(fields[1..], formatUsd, p);
      var f :| f in fields[1..] && FieldValue(f, formatUsd) != "" && p == ParsedField(f.name, FieldValue(f, formatUsd));
      assert f in fields;
    }
  }

  /** `cmp(a, b) <= 0`: `a` may come before `b`. */
  predicate Before(cmp: (string, string) -> int, a: ParsedField, b: ParsedField) {
    cmp(a.name, b.name) <= 0
  }

  /** Puts `x` in front of the first field it may come before. */
  function Insert(x: ParsedField, sorted: seq<ParsedField>, cmp: (string, string) -> int): (r: seq<ParsedField>)
    ensures multiset(r) == multiset(sorted) + multiset{x}
  {
    if sorted == [] || Before(cmp, x, sorted[0]) then [x] + sorted
    else
      assert sorted == [sorted[0]] + sorted[1..];
      [sorted[0]] + Insert(x, sorted[1..], cmp)
  }

  /** `fields.sort((a, b) => cmp(a.name, b.name))`. The language requires the sort to be stable,
      and for a consistent comparator every stable sort gives this insertion sort's result. */
  function SortByName(fields: seq<ParsedField>, cmp: (string, string) -> int): (r: seq<ParsedField>)
    ensures multiset(r) == multiset(fields)
    ensures |r| == |fields|
  {
    if fields == [] then []
    else
      assert fields == [fields[0]] + fields[1..];
      Insert(fields[0], SortByName(fields[1..], cmp), cmp)
  }

  /** Each field may come before the next. */
  predicate SortedByName(r: seq<ParsedField>, cmp: (string, string) -> int) {
    forall i :: 0 <= i < |r| - 1 ==> Before(cmp, r[i], r[i + 1])
  }

  /** Any two names are ordered one way or the other, as `localeCompare`'s are. */
  ghost predicate Total(cmp: (string, string) -> int) {
    forall a, b :: cmp(a, b) <= 0 || cmp(b, a) <= 0
  }

  lemma {:induction false} InsertSorted(x: ParsedField, sorted: seq<ParsedField>, cmp: (string, string) -> int)
    requires Total(cmp) && SortedByName(sorted, cmp)
    ensures SortedByName(Insert(x, sorted, cmp), cmp)
    ensures Insert(x, sorted, cmp) != [] && Insert(x, sorted, cmp)[0] in [x] + sorted[..if sorted == [] then 0 else 1]
  {
    if sorted != [] && !Before(cmp, x, sorted[0]) {
      var rest := Insert(x, sorted[1..], cmp);
      InsertSorted(x, sorted[1..], cmp);
      assert Before(cmp, sorted[0], x);
      var r := [sorted[0]] + rest;
      forall i | 0 <= i < |r| - 1 ensures Before(cmp, r[i], r[i + 1]) {
        if i > 0 {
          assert r[i] == rest[i - 1] && r[i + 1] == rest[i];
        } else if rest[0] != x {
          assert rest[0] == sorted[1];
        }
      }
    }
  }

  /** The sort orders the fields by name. */
  lemma {:induction false} SortByNameSorted(fields: seq<ParsedField>, cmp: (string, string) -> int)
    requires Total(cmp)
    ensures SortedByName(SortByName(fields, cmp), cmp)
  {
    if fields != [] {
      SortByNameSorted(fields[1..], cmp);
      InsertSorted(fields[0], SortByName(fields[1..], cmp), cmp);
    }
  }

  lemma PermutedValuesNonEmpty(a: seq<ParsedField>, b: seq<ParsedField>)
    requires multiset(a) == multiset(b)
    requires forall i :: 0 <= i < |a| ==> a[i].value != ""
    ensures forall i :: 0 <= i < |b| ==> b[i].value != ""
  {
    forall i | 0 <= i < |b| ensures b[i].value != "" {
      assert b[i] in multiset(a);
      var j :| 0 <= j < |a| && a[j] == b[i];
    }
  }

  /** `extractPDFContent`: every failure, a document without form fields included, surfaces as one
      message; otherwise the kept fields sorted by name. */
  function ExtractPdfContent(document: Result<seq<RawField>, string>, formatUsd: Number -> string,
                             cmp: (string, string) -> int): (r: Result<seq<ParsedField>, string>)
    ensures r.Failure? <==> document.Failure? || document.value == []
    ensures r.Failure? ==> r.error == ProcessFailed
    ensures r.Success? ==> multiset(r.value) == multiset(KeptFields(document.value, formatUsd))
    ensures r.Success? ==> |r.value| <= |document.value|
    ensures r.Success? ==> forall i :: 0 <= i < |r.value| ==> r.value[i].value != ""
  {
    match document
    case Failure(_) => Failure(ProcessFailed)
    case Success(fields) =>
      if fields == [] then Failure(ProcessFailed)
      else
        var kept := KeptFields(fields, formatUsd);
        var r := SortByName(kept, cmp);
        PermutedValuesNonEmpty(kept, r);
        Success(r)
  }

  /** The fields come out sorted by name under a consistent comparator. */
  lemma ExtractedFieldsSorted(document: Result<seq<RawField>, string>, formatUsd: Number -> string,
                              cmp: (string, string) -> int)
    requires Total(cmp)
    requires ExtractPdfContent(document, formatUsd, cmp).Success?
    ensures SortedByName(ExtractPdfContent(document, formatUsd, cmp).value, cmp)
  {
    SortByNameSorted(KeptFields(document.value, formatUsd), cmp);
  }

  /** A text field with a non-empty text and no `$` in its name appears with exactly its text. */
  lemma PlainTextFieldKept(document: Result<seq<RawField>, string>, formatUsd: Number -> string,
                           cmp: (string, string) -> int, f: RawField)
    requires document.Success? && f in document.value
    requires '$' !in f.name && f.text.GetText? && f.text.text.Some? && f.text.text.value != ""
    ensures ParsedField(f.name, f.text.text.value) in ExtractPdfContent(document, formatUsd, cmp).value
  {
    KeptFieldsMembers(document.value, formatUsd, f);
    var kept := KeptFields(document.value, formatUsd);
    assert ParsedField(f.name, f.text.text.value) in multiset(kept);
  }
}
