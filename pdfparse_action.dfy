/** The form action of the SvelteKit PDF route (src/routes/pdfparse/+page.server.ts): it reads the
    uploaded PDF's form fields and, depending on the parse mode, builds the list of fields, a text
    and an HTML export, and the query string that pre-fills the new-deal form. Loading the PDF is
    outside the model: the upload carries its field list, or the error loading it raised. */
module PdfParseAction {
  import opened Wrappers
  import opened Text
  import opened JsNumber
  import opened Uri
  import opened PdfParser

  /** The `fileToUpload` entry of the submitted form data. */
  datatype Upload =
    | NoEntry
    | TextEntry(text: string)
    | FileEntry(fileName: string, document: Result<seq<RawField>, string>)

  /** What the action answers: a `fail(status, ...)`, an exception the action does not catch,
      or its data. `list` is `undefined` outside the two list-producing modes. */
  datatype ActionResult =
    | Fail(status: int, message: string)
    | Throws(error: string)
    | Data(list: Option<seq<ParsedField>>, parsedText: string, parsedHtml: string, urlParameters: string)

  const NoFileMessage := "You must provide a file to upload"
  const NoFieldsMessage := "There are no form fields"
  const PreMessage := "Please let me know your interest and terms in the following loan request: \n\n"

  /** `parseField`. Fields without a text accessor throw a `TypeError`; a name holding `$` is
      currency-formatted even when the text is empty (`Number("")` is 0). */
  function ParseField(f: RawField, formatUsd: Number -> string): (r: Result<ParsedField, string>)
    ensures r.Failure? <==> f.text.NoGetText?
    ensures r.Success? ==> r.value.name == f.name
    ensures r.Success? && '$' !in f.name ==> r.value.value == TextOf(f)
    ensures r.Success? && '$' in f.name ==> r.value.value == formatUsd(ParseNumber(TextOf(f)))
  {
    match f.text
    case NoGetText => Failure("TypeError")
    case GetText(t) =>
      var value := t.GetOr("");
      Success(ParsedField(f.name, if '$' in f.name then formatUsd(ParseNumber(value)) else value))
  }

  /** `fields.map(parseField)`: a field that throws ends the action, with a `TypeError` whichever
      field it is; otherwise each field is parsed in place. */
  function ParseAll(fields: seq<RawField>, formatUsd: Number -> string): (r: Result<seq<ParsedField>, string>)
    ensures r.Failure? <==> exists i :: 0 <= i < |fields| && fields[i].text.NoGetText?
    ensures r.Failure? ==> r.error == "TypeError"
    ensures r.Success? ==> |r.value| == |fields|
    ensures r.Success? ==> forall i :: 0 <= i < |fields| ==> ParseField(fields[i], formatUsd) == Success(r.value[i])
  {
    if forall i :: 0 <= i < |fields| ==> fields[i].text.GetText? then
      Success(seq(|fields|, i requires 0 <= i < |fields| => ParseField(fields[i], formatUsd).value))
    else
      Failure("TypeError")
  }

  /** The query-string name a field is renamed to in the new-deal mode, if any. */
  function NewDealKey(name: string): Option<string> {
    if name == "Property Address" then Some("address")
    else if name == "Current Value ($)" || name == "Current Value" then Some("as_is_value_input")
    else if name == "Funding Request Amount ($)" || name == "Funding Request Amount" then Some("amount_input")
    else if name == "Deal Name" then Some("dealname")
    else None
  }

  /** `key=value`, both encoded, for a renamed field; "" for any other. */
  function Segment(p: ParsedField): (s: string)
    ensures '&' !in s
    ensures s == "" <==> NewDealKey(p.name).None?
  {
    match NewDealKey(p.name)
    case Some(key) => EncodeURIComponent(key) + "=" + EncodeURIComponent(p.value)
    case None => ""
  }

  function Segments(ps: seq<ParsedField>): (r: seq<string>)
    ensures |r| == |ps|
    ensures forall i :: 0 <= i < |ps| ==> r[i] == Segment(ps[i])
  {
    if ps == [] then [] else [Segment(ps[0])] + Segments(ps[1..])
  }

  /** The `urlParameters` of the new-deal mode: one segment per field, joined with '&'. */
  function UrlParameters(ps: seq<ParsedField>): string {
    Join(Segments(ps), "&")
  }

  /** Every field contributes its own segment, even an empty one, so the query string has exactly
      one '&' fewer than there are fields. */
  lemma UrlParametersSeparators(ps: seq<ParsedField>)
    requires ps != []
    ensures Count(UrlParameters(ps), '&') == |ps| - 1
  {
    var segments := Segments(ps);
    assert forall i :: 0 <= i < |segments| ==> '&' !in segments[i];
    assert Count("&", '&') == 1;
    CountJoin(segments, "&", '&');
  }

  /** The lender-email list: the fields whose value is neither "" nor "$0" (a parsed value is
      always text, so the comparison with the number 0 never holds). */
  predicate LenderKeeps(p: ParsedField) {
    p.value != "" && p.value != "$0"
  }

  predicate IsMissing(p: ParsedField) {
    p.value == ""
  }

  function LenderLine(p: ParsedField): string {
    p.name + ": " + p.value + "\n"
  }

  function LenderHtml(p: ParsedField): string {
    "<div><strong>" + p.name + ":</strong> " + p.value + "</div>"
  }

  function ReviewLine(p: ParsedField): string {
    p.name + "\n"
  }

  function ReviewHtml(p: ParsedField): string {
    "<div><strong>" + p.name + ":</strong></div>"
  }

  /** `list.map(line).join('')`. */
  function Lines(ps: seq<ParsedField>, line: ParsedField -> string): string {
    if ps == [] then "" else line(ps[0]) + Lines(ps[1..], line)
  }

  /** The export wrapper `<div>pre</div><br>`. */
  function HtmlHead(pre: string): string {
    "<div>" + pre + "</div><br>"
  }

  /** The data of a parse mode, from the parsed fields. */
  function ModeData(mode: Option<string>, ps: seq<ParsedField>): ActionResult {
    if mode == Some("lenderEmail") then
      var list := Filter(ps, LenderKeeps);
      Data(Some(list), PreMessage + Lines(list, LenderLine), HtmlHead(PreMessage) + Lines(list, LenderHtml), "")
    else if mode == Some("reviewQuestions") then
      var list := Filter(ps, IsMissing);
      Data(Some(list), Lines(list, ReviewLine), HtmlHead("") + Lines(list, ReviewHtml), "")
    else if mode == Some("newDeal") then
      Data(None, "", HtmlHead(""), UrlParameters(ps))
    else
      Data(None, "", HtmlHead(""), "")
  }

  /** Whether the mode reads the fields' texts (and so can throw on a field without one). */
  predicate ParsesFields(mode: Option<string>) {
    mode == Some("lenderEmail") || mode == Some("reviewQuestions") || mode == Some("newDeal")
  }

  /** `actions.default`, from the form data's two entries. */
  function Action(mode: Option<string>, upload: Upload, formatUsd: Number -> string): (r: ActionResult)
    ensures r == Fail(400, NoFileMessage) <==> !upload.FileEntry? || upload.fileName == ""
  {
    match upload
    case NoEntry => Fail(400, NoFileMessage)
    case TextEntry(_) => Fail(400, NoFileMessage)
    case FileEntry(fileName, document) =>
      if fileName == "" then Fail(400, NoFileMessage)
      else match document
        case Failure(e) => Throws(e)
        case Success(fields) =>
          if fields == [] then Fail(400, NoFieldsMessage)
          else if !ParsesFields(mode) then ModeData(mode, [])
          else match ParseAll(fields, formatUsd)
            case Failure(e) => Throws(e)
            case Success(ps) => ModeData(mode, ps)
  }

  /** A loaded document without form fields is refused with 400. */
  lemma NoFieldsRefused(mode: Option<string>, fileName: string, formatUsd: Number -> string)
    requires fileName != ""
    ensures Action(mode, FileEntry(fileName, Success([])), formatUsd) == Fail(400, NoFieldsMessage)
  {
  }

  /** Outside the three named modes, there is no list, the text is empty, the HTML is an empty
      `div` and there are no URL parameters, whatever the fields hold. */
  lemma OtherModesEmpty(mode: Option<string>, fileName: string, fields: seq<RawField>, formatUsd: Number -> string)
    requires !ParsesFields(mode) && fileName != "" && fields != []
    ensures Action(mode, FileEntry(fileName, Success(fields)), formatUsd) == Data(None, "", "<div></div><br>", "")
  {
  }

  /** In the lender-email mode the list is, in order, the fields whose value is not "" or "$0";
      the text is the pre-message followed by one "name: value" line per listed field. */
  lemma LenderEmailList(ps: seq<ParsedField>, p: ParsedField)
    ensures var d := ModeData(Some("lenderEmail"), ps);
      && (p in d.list.value <==> p in ps && p.value != "" && p.value != "$0")
      && d.parsedText == PreMessage + Lines(d.list.value, LenderLine)
      && d.parsedHtml == "<div>" + PreMessage + "</div><br>" + Lines(d.list.value, LenderHtml)
  {
    FilterMembers(ps, LenderKeeps, p);
  }

  /** In the review mode the list is exactly the fields whose value is "", with one "name" line
      and one bold "name:" `div` each and no pre-message. */
  lemma ReviewQuestionsList(ps: seq<ParsedField>, p: ParsedField)
    ensures var d := ModeData(Some("reviewQuestions"), ps);
      && (p in d.list.value <==> p in ps && p.value == "")
      && d.parsedText == Lines(d.list.value, ReviewLine)
      && d.parsedHtml == "<div></div><br>" + Lines(d.list.value, ReviewHtml)
  {
    FilterMembers(ps, IsMissing, p);
  }

  /** A field whose name holds `$` is never listed as missing, as long as the currency format
      never produces the empty string. */
  lemma DollarFieldNeverMissing(fields: seq<RawField>, formatUsd: Number -> string, i: nat)
    requires i < |fields| && '$' in fields[i].name
    requires forall x :: formatUsd(x) != ""
    requires ParseAll(fields, formatUsd).Success?
    ensures ParseAll(fields, formatUsd).value[i] !in ModeData(Some("reviewQuestions"), ParseAll(fields, formatUsd).value).list.value
  {
    var ps := ParseAll(fields, formatUsd).value;
    assert ParseField(fields[i], formatUsd) == Success(ps[i]);
    FilterMembers(ps, IsMissing, ps[i]);
  }

  /** The text is appended to line by line. */
  lemma {:induction false} LinesAppend(ps: seq<ParsedField>, p: ParsedField, line: ParsedField -> string)
    ensures Lines(ps + [p], line) == Lines(ps, line) + line(p)
  {
    if ps != [] {
      assert (ps + [p])[1..] == ps[1..] + [p];
      LinesAppend(ps[1..], p, line);
    }
  }
}
