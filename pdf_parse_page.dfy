/** The PDF parsing page of the Next.js application (app/pdf-parse/page.tsx): it holds the fields
    extracted from the last dropped PDF, shows them in one of two view modes, and exports them as
    text or HTML for a lender e-mail. The clipboard and the dropzone widget are outside the model:
    a drop hands over the dropped files, each as its loaded form-field list or loading error. */
module PdfParsePage {
  import opened Wrappers
  import opened Text
  import opened JsNumber
  import opened PdfParser
  import opened PdfParseAction
  import opened Notifications

  /** `${name}: ${value}\n` for each field, joined with "". */
  function FieldLines(fields: seq<ParsedField>): string {
    if fields == [] then "" else fields[0].name + ": " + fields[0].value + "\n" + FieldLines(fields[1..])
  }

  /** `<div><strong>${name}:</strong> ${value}</div>` for each field, joined with "". */
  function FieldDivs(fields: seq<ParsedField>): string {
    if fields == [] then "" else "<div><strong>" + fields[0].name + ":</strong> " + fields[0].value + "</div>" + FieldDivs(fields[1..])
  }

  /** `generateTextContent`: the pre-message, then one line per field. */
  function TextContent(fields: seq<ParsedField>): (text: string)
    ensures StartsWith(text, PreMessage)
  {
    PreMessage + FieldLines(fields)
  }

  /** `generateHtmlContent`: the pre-message in a `div`, a line break, then one `div` per field. */
  function HtmlContent(fields: seq<ParsedField>): (html: string)
    ensures StartsWith(html, "<div>" + PreMessage + "</div><br>")
  {
    "<div>" + PreMessage + "</div><br>" + FieldDivs(fields)
  }

  lemma {:induction false} FieldLinesAreServerLines(fields: seq<ParsedField>)
    ensures FieldLines(fields) == Lines(fields, LenderLine)
  {
    if fields != [] {
      FieldLinesAreServerLines(fields[1..]);
    }
  }

  lemma {:induction false} FieldDivsAreServerDivs(fields: seq<ParsedField>)
    ensures FieldDivs(fields) == Lines(fields, LenderHtml)
  {
    if fields != [] {
      FieldDivsAreServerDivs(fields[1..]);
    }
  }

  /** The page's two exports are exactly what the SvelteKit action answers in its lender-email mode
      for the same list of fields. */
  lemma ExportsMatchLenderEmail(ps: seq<ParsedField>)
    ensures var d := ModeData(Some("lenderEmail"), ps);
      && d.parsedText == TextContent(d.list.value)
      && d.parsedHtml == HtmlContent(d.list.value)
  {
    var list := ModeData(Some("lenderEmail"), ps).list.value;
    FieldLinesAreServerLines(list);
    FieldDivsAreServerDivs(list);
  }

  /** One more field adds its line at the end of the text, name and value as they are. */
  lemma {:induction false} TextContentAppend(fields: seq<ParsedField>, f: ParsedField)
    ensures TextContent(fields + [f]) == TextContent(fields) + f.name + ": " + f.value + "\n"
  {
    FieldLinesAppend(fields, f);
  }

  lemma {:induction false} FieldLinesAppend(fields: seq<ParsedField>, f: ParsedField)
    ensures FieldLines(fields + [f]) == FieldLines(fields) + f.name + ": " + f.value + "\n"
  {
    if fields != [] {
      assert (fields + [f])[1..] == fields[1..] + [f];
      FieldLinesAppend(fields[1..], f);
    }
  }

  /** One more field adds its `div` at the end of the HTML; names and values are not escaped, so
      markup in them reaches the HTML unchanged. */
  lemma {:induction false} HtmlContentAppend(fields: seq<ParsedField>, f: ParsedField)
    ensures HtmlContent(fields + [f]) == HtmlContent(fields) + "<div><strong>" + f.name + ":</strong> " + f.value + "</div>"
  {
    FieldDivsAppend(fields, f);
  }

  lemma {:induction false} FieldDivsAppend(fields: seq<ParsedField>, f: ParsedField)
    ensures FieldDivs(fields + [f]) == FieldDivs(fields) + "<div><strong>" + f.name + ":</strong> " + f.value + "</div>"
  {
    if fields != [] {
      assert (fields + [f])[1..] == fields[1..] + [f];
      FieldDivsAppend(fields[1..], f);
    }
  }

  predicate NoNewline(f: ParsedField) {
    '\n' !in f.name && '\n' !in f.value
  }

  lemma {:induction false} FieldLinesCount(fields: seq<ParsedField>)
    requires forall i :: 0 <= i < |fields| ==> NoNewline(fields[i])
    ensures Count(FieldLines(fields), '\n') == |fields|
  {
    if fields != [] {
      var f := fields[0];
      assert NoNewline(f);
      assert Count(": ", '\n') == 0 && Count("\n", '\n') == 1;
      FieldLinesCount(fields[1..]);
      CountAppend(f.name + ": " + f.value + "\n", FieldLines(fields[1..]), '\n');
      CountAppend(f.name + ": " + f.value, "\n", '\n');
      CountAppend(f.name + ": ", f.value, '\n');
      CountAppend(f.name, ": ", '\n');
    }
  }

  /** When no name or value holds a line break, the text has one line break per field beyond the
      pre-message's own. */
  lemma TextContentLineCount(fields: seq<ParsedField>)
    requires forall i :: 0 <= i < |fields| ==> NoNewline(fields[i])
    ensures Count(TextContent(fields), '\n') == Count(PreMessage, '\n') + |fields|
  {
    PrefixedLinesCount(PreMessage, fields);
  }

  lemma PrefixedLinesCount(pre: string, fields: seq<ParsedField>)
    requires forall i :: 0 <= i < |fields| ==> NoNewline(fields[i])
    ensures Count(pre + FieldLines(fields), '\n') == Count(pre, '\n') + |fields|
  {
    FieldLinesCount(fields);
    CountAppend(pre, FieldLines(fields), '\n');
  }

  /** The two view modes of the page. */
  datatype ViewMode = Lender | Review

  /** One rendered row: the `name:` caption and what is shown beside it. */
  datatype Row = Row(caption: string, shown: string)

  /** `renderFields`: one row per field, in order, showing the value in lender mode and
      "[Missing]" in review mode. */
  function RenderFields(fields: seq<ParsedField>, mode: ViewMode): (rows: seq<Row>)
    ensures |rows| == |fields|
    ensures forall i :: 0 <= i < |fields| ==> rows[i].caption == fields[i].name + ":"
    ensures mode == Lender ==> forall i :: 0 <= i < |fields| ==> rows[i].shown == fields[i].value
    ensures mode == Review ==> forall i :: 0 <= i < |fields| ==> rows[i].shown == "[Missing]"
  {
    if fields == [] then []
    else [Row(fields[0].name + ":", if mode == Lender then fields[0].value else "[Missing]")] + RenderFields(fields[1..], mode)
  }

  /** In review mode the rows depend on the names alone: two lists with the same names render
      alike, whatever their values. */
  lemma ReviewHidesValues(a: seq<ParsedField>, b: seq<ParsedField>)
    requires |a| == |b| && forall i :: 0 <= i < |a| ==> a[i].name == b[i].name
    ensures RenderFields(a, Review) == RenderFields(b, Review)
  {
    var ra := RenderFields(a, Review);
    var rb := RenderFields(b, Review);
    assert forall i :: 0 <= i < |ra| ==> ra[i] == rb[i];
  }

  const ProcessedMessage := "PDF processed successfully"
  const FallbackMessage := "Failed to process PDF"

  /** The state of `PDFParsePage`. */
  class Page {
    var fields: seq<ParsedField>
    var viewMode: ViewMode
    var isProcessing: bool
    var toast: Option<Toast>

    /** Every field on the page has a value: they only ever come from `extractPDFContent`. */
    predicate Valid()
      reads this
    {
      forall i :: 0 <= i < |fields| ==> fields[i].value != ""
    }

    constructor ()
      ensures fields == [] && viewMode == Lender && !isProcessing && toast == None
      ensures Valid()
    {
      fields := [];
      viewMode := Lender;
      isProcessing := false;
      toast := None;
    }

    /** `onDrop`: nothing happens without a file; otherwise the first file's fields replace the
        list wholesale and a success toast shows, or the list stays and the error's message (or the
        fallback text) shows. Processing is over either way. */
    method OnDrop(files: seq<Result<seq<RawField>, string>>, formatUsd: Number -> string,
                  cmp: (string, string) -> int)
      requires Valid()
      modifies this
      ensures Valid()
      ensures viewMode == old(viewMode)
      ensures files == [] ==> fields == old(fields) && isProcessing == old(isProcessing) && toast == old(toast)
      ensures files != [] ==> !isProcessing
      ensures files != [] && ExtractPdfContent(files[0], formatUsd, cmp).Success? ==>
        fields == ExtractPdfContent(files[0], formatUsd, cmp).value && toast == Some(Toast(true, ProcessedMessage))
      ensures files != [] && ExtractPdfContent(files[0], formatUsd, cmp).Failure? ==>
        fields == old(fields) && toast == Some(Toast(false, ProcessFailed))
    {
      if |files| == 0 {
        return;
      }
      isProcessing := true;
      var result := ExtractPdfContent(files[0], formatUsd, cmp);
      match result {
        case Success(extracted) =>
          fields := extracted;
          toast := Some(Toast(true, ProcessedMessage));
        case Failure(error) =>
          toast := Some(Toast(false, if error != "" then error else FallbackMessage));
      }
      isProcessing := false;
    }

    /** The Clear button. */
    method Clear()
      modifies this
      ensures fields == [] && Valid()
      ensures viewMode == old(viewMode) && isProcessing == old(isProcessing) && toast == old(toast)
    {
      fields := [];
    }

    /** The mode selector. */
    method SetViewMode(mode: ViewMode)
      requires Valid()
      modifies this
      ensures viewMode == mode && Valid()
      ensures fields == old(fields) && isProcessing == old(isProcessing) && toast == old(toast)
    {
      viewMode := mode;
    }

    /** Clear, Copy Text and Copy HTML are offered, and the fields card shown, only when there are
        fields. */
    predicate ActionsOffered()
      reads this
    {
      |fields| > 0
    }

    function CardTitle(): (title: string)
      reads this
      ensures title == "Missing Fields" <==> viewMode == Review
    {
      if viewMode == Review then "Missing Fields" else "Extracted Fields"
    }
  }

  /** A successful drop under a consistent comparator leaves the page showing the fields sorted
      by name, each with a value, and offers the actions exactly when the PDF kept a field. */
  method DropThenClear(document: Result<seq<RawField>, string>, formatUsd: Number -> string,
                       cmp: (string, string) -> int) returns (shown: seq<ParsedField>, offered: bool, offeredAfterClear: bool)
    requires Total(cmp)
    requires ExtractPdfContent(document, formatUsd, cmp).Success?
    ensures SortedByName(shown, cmp)
    ensures forall i :: 0 <= i < |shown| ==> shown[i].value != ""
    ensures offered <==> shown != []
    ensures !offeredAfterClear
  {
    var page := new Page();
    page.OnDrop([document], formatUsd, cmp);
    ExtractedFieldsSorted(document, formatUsd, cmp);
    assert page.Valid();
    shown := page.fields;
    offered := page.ActionsOffered();
    page.Clear();
    offeredAfterClear := page.ActionsOffered();
  }
}
