/** The two routes of the FastAPI backend: `/extract` turns an uploaded PDF or
    image into text, `/analyze` asks Gemini for a summary of a text.

    The document libraries (pdfplumber, PIL and tesseract), the environment
    and the HTTP call to Gemini are not modelled; what they produce is given
    as input. A route that raises an exception it does not catch is answered
    with an HTTP 500 (`Crashed`); a route that returns a dict is answered with
    that dict as a JSON object (`Returned`). */
module Backend {
  import opened Values

  datatype HttpReply = Returned(body: map<string, Json>) | Crashed

  /** An upload as the route sees it: the declared content type (None when the
      multipart part carries none) and what the libraries make of its bytes.
      `pdfPages` is None when any pdfplumber call raises, whether opening the
      bytes or `extract_text()` on some page, and otherwise holds each page's
      `extract_text()` (None for a page without text);
      `ocrText` is None when PIL cannot open the bytes or tesseract fails. */
  datatype Upload = Upload(
    contentType: Option<string>,
    pdfPages: Option<seq<Option<string>>>,
    ocrText: Option<string>)

  const PdfType := "application/pdf"
  const ImagePrefix := "image/"
  const UnsupportedError := "Unsupported file type"

  const EmptyTextError := "Empty text received"
  const MissingKeyError := "Gemini API key missing in environment variables"
  const GeminiFailedError := "Gemini API failed to analyze text"
  const ApiKeyVariable := "GEMINI_API_KEY"
  const GeminiEndpoint :=
    "https://generativelanguage.googleapis.com/v1beta/models/gemini-2.5-flash:generateContent?key="

  // ---------------------------------------------------------------------
  // /extract
  // ---------------------------------------------------------------------

  /** `page.extract_text() or ""` */
  function PageText(page: Option<string>): string {
    match page
    case Some(t) => t
    case None => ""
  }

  /** The text the PDF branch accumulates: every page's text followed by a
      newline, in page order. */
  function PagesText(pages: seq<Option<string>>): (r: string)
    ensures r == "" <==> pages == []
    ensures r != "" ==> r[|r| - 1] == '\n'
  {
    if pages == [] then ""
    else PagesText(pages[..|pages| - 1]) + PageText(pages[|pages| - 1]) + "\n"
  }

  /** Sum of the lengths of the pages' texts. */
  function TextLengths(pages: seq<Option<string>>): nat {
    if pages == [] then 0
    else TextLengths(pages[..|pages| - 1]) + |PageText(pages[|pages| - 1])|
  }

  /** Where page `i`'s text starts inside `PagesText(pages)`. */
  function PageOffset(pages: seq<Option<string>>, i: nat): nat
    requires i <= |pages|
  {
    TextLengths(pages[..i]) + i
  }

  /** The PDF branch's loop: `text += page_text + "\n"` for every page. */
  method ConcatPages(pages: seq<Option<string>>) returns (text: string)
    ensures text == PagesText(pages)
  {
    text := "";
    for i := 0 to |pages|
      invariant text == PagesText(pages[..i])
    {
      assert pages[..i + 1][..i] == pages[..i];
      text := text + PageText(pages[i]) + "\n";
    }
    assert pages[..|pages|] == pages;
  }

  lemma {:induction false} PagesTextLength(pages: seq<Option<string>>)
    ensures |PagesText(pages)| == TextLengths(pages) + |pages|
  {
    if pages != [] {
      PagesTextLength(pages[..|pages| - 1]);
    }
  }

  lemma PagesTextEndsWithNewline(pages: seq<Option<string>>)
    requires |pages| > 0
    ensures |PagesText(pages)| > 0 && PagesText(pages)[|PagesText(pages)| - 1] == '\n'
  {
  }

  /** Page `i`'s text sits at `PageOffset(pages, i)` and is followed by a
      newline: the result is the in-order concatenation of the pages. */
  lemma {:induction false} PagesTextAt(pages: seq<Option<string>>, i: nat)
    requires i < |pages|
    ensures PageOffset(pages, i) + |PageText(pages[i])| < |PagesText(pages)|
    ensures PagesText(pages)[PageOffset(pages, i)..PageOffset(pages, i) + |PageText(pages[i])|]
            == PageText(pages[i])
    ensures PagesText(pages)[PageOffset(pages, i) + |PageText(pages[i])|] == '\n'
  {
    var init := pages[..|pages| - 1];
    PagesTextLength(init);
    if i == |pages| - 1 {
      assert pages[..i] == init;
    } else {
      PagesTextAt(init, i);
      assert init[..i] == pages[..i];
      assert init[i] == pages[i];
    }
  }

  /** The reply of `/extract`, as a function of the upload. */
  function ExtractReply(u: Upload): (r: HttpReply)
    ensures r.Returned? ==> |r.body| == 1 && ("text" in r.body <==> "error" !in r.body)
    ensures r.Returned? ==> forall k | k in r.body :: r.body[k].Str?
  {
    match u.contentType
    // `None == "application/pdf"` is false and `None.startswith` raises
    case None => Crashed
    case Some(t) =>
      if t == PdfType then
        match u.pdfPages
        case None => Crashed
        case Some(pages) => Returned(map["text" := Str(PagesText(pages))])
      else if StartsWith(t, ImagePrefix) then
        match u.ocrText
        case None => Crashed
        case Some(text) => Returned(map["text" := Str(text)])
      else
        Returned(map["error" := Str(UnsupportedError)])
  }

  /** The `/extract` route. */
  method Extract(u: Upload) returns (r: HttpReply)
    ensures r == ExtractReply(u)
  {
    if u.contentType.None? {
      return Crashed;
    }
    var contentType := u.contentType.value;
    if contentType == PdfType {
      if u.pdfPages.None? {
        return Crashed;
      }
      var text := ConcatPages(u.pdfPages.value);
      r := Returned(map["text" := Str(text)]);
    } else if StartsWith(contentType, ImagePrefix) {
      if u.ocrText.None? {
        return Crashed;
      }
      r := Returned(map["text" := Str(u.ocrText.value)]);
    } else {
      r := Returned(map["error" := Str(UnsupportedError)]);
    }
  }

  /** The unsupported-type error is returned exactly for a declared type that
      is neither exactly `application/pdf` nor starts with `image/`. */
  lemma ExtractUnsupportedIff(u: Upload)
    ensures ExtractReply(u) == Returned(map["error" := Str(UnsupportedError)])
            <==> u.contentType.Some? && u.contentType.value != PdfType
                 && !StartsWith(u.contentType.value, ImagePrefix)
  {
    if ExtractReply(u).Returned? && "text" in ExtractReply(u).body {
      assert "text" !in map["error" := Str(UnsupportedError)];
    }
  }

  /** The PDF branch is taken on an exact match only: `application/pdf` with
      parameters or in another case goes nowhere near pdfplumber. */
  lemma PdfDispatchIsExact(u: Upload, pages: seq<Option<string>>)
    requires u.contentType == Some(PdfType) && u.pdfPages == Some(pages)
    ensures ExtractReply(u) == Returned(map["text" := Str(PagesText(pages))])
  {
  }

  /** Any `image/` type, listed by the client or not, takes the OCR branch. */
  lemma ImageDispatchIsByPrefix(u: Upload, text: string)
    requires u.contentType.Some? && StartsWith(u.contentType.value, ImagePrefix)
    requires u.ocrText == Some(text)
    ensures ExtractReply(u) == Returned(map["text" := Str(text)])
  {
    assert u.contentType.value[0] == ImagePrefix[0] != PdfType[0];
  }

  // ---------------------------------------------------------------------
  // Python's str.strip()
  // ---------------------------------------------------------------------

  /** `c.isspace()` in Python 3: the characters `str.strip()` removes. */
  predicate IsSpace(c: char) {
    || ('\t' <= c <= '\r')
    || ('\U{1C}' <= c <= ' ')
    || c == '\U{85}' || c == '\U{A0}' || c == '\U{1680}'
    || ('\U{2000}' <= c <= '\U{200A}')
    || c == '\U{2028}' || c == '\U{2029}' || c == '\U{202F}' || c == '\U{205F}'
    || c == '\U{3000}'
  }

  predicate AllSpace(s: string) {
    forall i | 0 <= i < |s| :: IsSpace(s[i])
  }

  /** A whitespace character followed by whitespace is whitespace. */
  lemma AllSpaceCons(c: char, t: string)
    requires IsSpace(c) && AllSpace(t)
    ensures AllSpace([c] + t)
  {
    forall i | 0 <= i < |[c] + t| ensures IsSpace(([c] + t)[i]) {
      if i > 0 { assert ([c] + t)[i] == t[i - 1]; }
    }
  }

  /** Whitespace followed by a whitespace character is whitespace. */
  lemma AllSpaceSnoc(t: string, c: char)
    requires AllSpace(t) && IsSpace(c)
    ensures AllSpace(t + [c])
  {
    forall i | 0 <= i < |t + [c]| ensures IsSpace((t + [c])[i]) {
      if i < |t| { assert (t + [c])[i] == t[i]; }
    }
  }

  /** `s.lstrip()` */
  function StripStart(s: string): (r: string)
    ensures |r| <= |s| && r == s[|s| - |r|..]
    ensures AllSpace(s[..|s| - |r|])
    ensures r == [] || !IsSpace(r[0])
  {
    if s != [] && IsSpace(s[0]) then
      var r := StripStart(s[1..]);
      assert s[..|s| - |r|] == [s[0]] + s[1..][..|s[1..]| - |r|];
      AllSpaceCons(s[0], s[1..][..|s[1..]| - |r|]);
      r
    else s
  }

  /** `s.rstrip()` */
  function StripEnd(s: string): (r: string)
    ensures |r| <= |s| && r == s[..|r|]
    ensures AllSpace(s[|r|..])
    ensures r == [] || !IsSpace(r[|r| - 1])
  {
    if s != [] && IsSpace(s[|s| - 1]) then
      var init := s[..|s| - 1];
      var r := StripEnd(init);
      assert s[|r|..] == init[|r|..] + [s[|s| - 1]];
      AllSpaceSnoc(init[|r|..], s[|s| - 1]);
      r
    else s
  }

  /** `s.strip()`: what remains neither starts nor ends with whitespace. */
  function Strip(s: string): (r: string)
    ensures |r| <= |s|
    ensures r == [] || (!IsSpace(r[0]) && !IsSpace(r[|r| - 1]))
  {
    var t := StripStart(s);
    var r := StripEnd(t);
    assert r != [] ==> r[0] == t[0];
    r
  }

  /** `lstrip` removes everything from a text made of whitespace only. */
  lemma {:induction false} StripStartAllSpace(s: string)
    requires AllSpace(s)
    ensures StripStart(s) == ""
  {
    if s != [] {
      assert IsSpace(s[0]);
      StripStartAllSpace(s[1..]);
    }
  }

  /** `not text.strip()` holds exactly for texts made of whitespace only. */
  lemma StripEmptyIffAllSpace(s: string)
    ensures Strip(s) == "" <==> AllSpace(s)
  {
    var t := StripStart(s);
    if Strip(s) == "" {
      assert AllSpace(t) by {
        assert t[|StripEnd(t)|..] == t;
      }
      assert t == [];
      assert s[..|s|] == s;
    }
    if AllSpace(s) {
      StripStartAllSpace(s);
    }
  }

  // ---------------------------------------------------------------------
  // /analyze
  // ---------------------------------------------------------------------

  /** The request the route sends to Gemini. */
  datatype GeminiCall = GeminiCall(url: string, body: Json)

  /** The route's reply and the Gemini call it made, if any. */
  datatype AnalyzeRun = AnalyzeRun(reply: HttpReply, call: Option<GeminiCall>)

  /** The prompt template with the text embedded as its last line. */
  function Prompt(text: string): (p: string)
    ensures |p| > |text| && p[|p| - |text| - 1..] == text + "\n"
  {
    "\nGive a short, simple summary of the content below.\n"
    + "Explain what is going on in 5 lines maximum.\n"
    + "Use easy words so anyone can understand.\n\nText:\n"
    + text + "\n"
  }

  /** `{"contents": [{"parts": [{"text": prompt}]}]}` */
  function GeminiRequestBody(prompt: string): Json {
    Obj(map["contents" := Arr([Obj(map["parts" := Arr([Obj(map["text" := Str(prompt)])])])])])
  }

  /** `x[key]` on a parsed JSON value; None where Python raises (KeyError on a
      missing key, TypeError on anything but a dict). */
  function Member(x: Json, key: string): Option<Json> {
    match x
    case Obj(m) => if key in m then Some(m[key]) else None
    case _ => None
  }

  /** `x[0]` on a parsed JSON value; None where Python raises (IndexError on an
      empty list or string, KeyError on a dict, TypeError otherwise). */
  function First(x: Json): Option<Json> {
    match x
    case Arr(items) => if |items| > 0 then Some(items[0]) else None
    case Str(s) => if |s| > 0 then Some(Str(s[..1])) else None
    case _ => None
  }

  /** `data["candidates"][0]["content"]["parts"][0]["text"]`, None when any
      step of the path raises. */
  function CandidateText(data: Json): (r: Option<Json>)
    ensures r.Some? ==> HasCandidateText(data, r.value)
    ensures forall t | HasCandidateText(data, t) :: r == Some(t)
  {
    var candidates :- Member(data, "candidates");
    var candidate :- First(candidates);
    var content :- Member(candidate, "content");
    var parts :- Member(content, "parts");
    var part :- First(parts);
    Member(part, "text")
  }

  /** The shape of a Gemini reply whose first candidate's first part holds `t`,
      spelled out link by link. */
  ghost predicate HasCandidateText(data: Json, t: Json) {
    && data.Obj? && "candidates" in data.fields
    && var candidates := data.fields["candidates"];
    && candidates.Arr? && |candidates.items| > 0
    && var candidate := candidates.items[0];
    && candidate.Obj? && "content" in candidate.fields
    && var content := candidate.fields["content"];
    && content.Obj? && "parts" in content.fields
    && var parts := content.fields["parts"];
    && parts.Arr? && |parts.items| > 0
    && var part := parts.items[0];
    && part.Obj? && "text" in part.fields && part.fields["text"] == t
  }

  /** The path lookup succeeds exactly when every link of the path is there;
      a string where a list is expected is indexed but never gets further. */
  lemma CandidateTextIff(data: Json, t: Json)
    ensures CandidateText(data) == Some(t) <==> HasCandidateText(data, t)
  {
  }

  /** A minimal Gemini reply carrying `t`. */
  function GeminiReply(t: Json): (data: Json)
    ensures HasCandidateText(data, t)
  {
    Obj(map["candidates" := Arr([Obj(map["content" := Obj(map["parts" := Arr([Obj(map["text" := t])])])])])])
  }

  /** `payload.get("text", "")` */
  function PayloadText(payload: map<string, Json>): (text: Json)
    ensures "text" in payload ==> text == payload["text"]
    ensures "text" !in payload ==> text == Str("")
  {
    if "text" in payload then payload["text"] else Str("")
  }

  /** `os.getenv("GEMINI_API_KEY")` is truthy: an unset variable and an
      empty value both count as missing. */
  predicate HasApiKey(env: map<string, string>): (present: bool)
    ensures ApiKeyVariable !in env ==> !present
    ensures present <==> ApiKeyVariable in env && |env[ApiKeyVariable]| > 0
  {
    ApiKeyVariable in env && env[ApiKeyVariable] != ""
  }

  /** The `/analyze` route, given the request payload, the environment and
      what `requests.post(...).json()` yields (None when the call or the
      decoding raises). */
  function Analyze(payload: map<string, Json>, env: map<string, string>, gemini: Option<Json>): (r: AnalyzeRun)
    ensures r.reply.Returned? ==> ("analysis" in r.reply.body <==> "error" !in r.reply.body)
    ensures r.call.Some? ==> PayloadText(payload).Str? && HasApiKey(env)
  {
    var text := PayloadText(payload);
    // `.strip()` on anything but a str raises AttributeError
    if !text.Str? then AnalyzeRun(Crashed, None)
    else if Strip(text.s) == "" then AnalyzeRun(Returned(map["error" := Str(EmptyTextError)]), None)
    else if !HasApiKey(env) then AnalyzeRun(Returned(map["error" := Str(MissingKeyError)]), None)
    else
      var call := GeminiCall(GeminiEndpoint + env[ApiKeyVariable], GeminiRequestBody(Prompt(text.s)));
      match gemini
      case None => AnalyzeRun(Crashed, Some(call))
      case Some(data) =>
        match CandidateText(data)
        case Some(result) => AnalyzeRun(Returned(map["analysis" := result]), Some(call))
        case None =>
          AnalyzeRun(Returned(map["error" := Str(GeminiFailedError), "raw" := data]), Some(call))
  }

  /** A missing or whitespace-only text is refused first, whatever the
      environment and Gemini would do, and Gemini is not called. */
  lemma BlankTextRejectedFirst(payload: map<string, Json>, env: map<string, string>, gemini: Option<Json>)
    requires PayloadText(payload).Str? && AllSpace(PayloadText(payload).s)
    ensures Analyze(payload, env, gemini) == AnalyzeRun(Returned(map["error" := Str(EmptyTextError)]), None)
  {
    StripEmptyIffAllSpace(PayloadText(payload).s);
  }

  /** With a non-blank text and no key, the key error is returned and Gemini is
      not called. */
  lemma MissingKeyRejected(payload: map<string, Json>, env: map<string, string>, gemini: Option<Json>)
    requires PayloadText(payload).Str? && !AllSpace(PayloadText(payload).s)
    requires !HasApiKey(env)
    ensures Analyze(payload, env, gemini) == AnalyzeRun(Returned(map["error" := Str(MissingKeyError)]), None)
  {
    StripEmptyIffAllSpace(PayloadText(payload).s);
  }

  /** Once both guards pass, Gemini is called with the key in the URL and the
      text at the end of the prompt; the reply is the candidate's text when the
      whole path is present and the failure error with the raw data otherwise. */
  lemma GeminiOutcome(payload: map<string, Json>, env: map<string, string>, data: Json)
    requires PayloadText(payload).Str? && !AllSpace(PayloadText(payload).s)
    requires HasApiKey(env)
    ensures var r := Analyze(payload, env, Some(data));
            && r.call.Some?
            && r.call.value.url == GeminiEndpoint + env[ApiKeyVariable]
            && r.call.value.body == GeminiRequestBody(Prompt(PayloadText(payload).s))
            && (forall t :: HasCandidateText(data, t) ==> r.reply == Returned(map["analysis" := t]))
            && ((forall t :: !HasCandidateText(data, t)) ==>
                 r.reply == Returned(map["error" := Str(GeminiFailedError), "raw" := data]))
  {
    var text := PayloadText(payload).s;
    StripEmptyIffAllSpace(text);
    var call := GeminiCall(GeminiEndpoint + env[ApiKeyVariable], GeminiRequestBody(Prompt(text)));
    var r := Analyze(payload, env, Some(data));
    assert r.call == Some(call);
    var found := CandidateText(data);
    if found.Some? {
      CandidateTextIff(data, found.value);
      assert r.reply == Returned(map["analysis" := found.value]);
    } else {
      assert r.reply == Returned(map["error" := Str(GeminiFailedError), "raw" := data]);
    }
    forall t | HasCandidateText(data, t) ensures r.reply == Returned(map["analysis" := t]) {
      CandidateTextIff(data, t);
    }
  }

  /** A PDF whose pages carry only whitespace (or no text at all) extracts to a
      text that `/analyze` refuses as empty. */
  lemma {:induction false} BlankPagesGiveBlankText(pages: seq<Option<string>>)
    requires forall i | 0 <= i < |pages| :: AllSpace(PageText(pages[i]))
    ensures AllSpace(PagesText(pages))
  {
    if pages != [] {
      var init := pages[..|pages| - 1];
      BlankPagesGiveBlankText(init);
      var last := PageText(pages[|pages| - 1]);
      assert AllSpace(last);
      var whole := PagesText(init) + last + "\n";
      forall i | 0 <= i < |whole| ensures IsSpace(whole[i]) {
        if i < |PagesText(init)| {
          assert whole[i] == PagesText(init)[i];
        } else if i < |PagesText(init)| + |last| {
          assert whole[i] == last[i - |PagesText(init)|];
        }
      }
    }
  }
}
