/** The single page of the web client: a file is chosen by drop or by the
    file picker, checked against an allow-list, and sent to the backend's
    `/extract` route; the text that comes back is sent to `/analyze`, and both
    results are shown.

    The page's React state cells are the fields of class `Home`. `fetch`,
    `.json()` and `alert` are not modelled: each remote reply is an input of
    `HandleAnalyze`, each request issued is appended to `requests`, and each
    alert to `alerts`. An object URL made by `URL.createObjectURL` is an opaque
    token numbered by how many have been made. */
module Client {
  import opened Values

  /** A browser `File`. The page reads only its declared MIME type; `name`
      stands for the rest of the file, which is passed on unread. */
  datatype FileRef = FileRef(name: string, mimeType: string)

  /** A token standing for a URL made by `URL.createObjectURL`. */
  datatype ObjectUrl = ObjectUrl(id: nat)

  /** A JavaScript value read from a parsed reply: a property that is not
      there reads as `undefined`. */
  datatype JsValue = Undefined | Defined(value: Json)

  /** What `await fetch(...)` followed by `await res.json()` yields: a JSON
      object, or an exception (network failure, or a body that is not JSON,
      such as the backend's plain-text HTTP 500 page). */
  datatype Response = Throws | Body(fields: map<string, Json>)

  /** A request the page issues to the backend. */
  datatype Request = ExtractRequest(file: FileRef) | AnalyzeRequest(body: map<string, Json>)

  /** The result of `validateFile`, with the message it alerts on rejection. */
  datatype Verdict = Accept | Reject(message: string)

  /** What the page renders, beyond fixed markup. */
  datatype View = View(buttonLabel: string, showPreview: bool, showExtract: bool, showResult: bool)

  /** What one run of the pipeline, started with a file, does to the page. */
  datatype RunOutcome = RunOutcome(
    extractedText: JsValue,
    analysis: JsValue,
    alerts: seq<JsValue>,
    requests: seq<Request>)

  const AllowedTypes: seq<string> := ["application/pdf", "image/png", "image/jpeg", "image/jpg"]
  const ImagePrefix := "image/"
  const NoFileAlert := "No file selected."
  const WrongTypeAlert := "\U{274C} Only PDF or Images allowed."
  const NoUploadAlert := "Please upload a file first."
  const FailureAlert := "Something went wrong."
  const BusyLabel := "Analyzing..."
  const IdleLabel := "Analyze Content"

  /** The value `alert` receives for one of the page's own messages. */
  function Msg(s: string): JsValue {
    Defined(Str(s))
  }

  /** The initial value of the two text cells, and what a run resets them to. */
  const Empty: JsValue := Defined(Str(""))

  /** JavaScript truthiness: `undefined`, `null`, `false`, `0` and `""` are
      falsy, every array and object is truthy. */
  predicate Truthy(v: JsValue): (b: bool)
    ensures v.Undefined? || v.value.Null? ==> !b
    ensures v.Defined? && v.value.Str? ==> (b <==> v.value.s != "")
    ensures v.Defined? && v.value.Num? ==> (b <==> v.value.n != 0.0)
    ensures v.Defined? && v.value.Bool? ==> b == v.value.b
    ensures v.Defined? && (v.value.Arr? || v.value.Obj?) ==> b
  {
    match v
    case Undefined => false
    case Defined(j) =>
      match j
      case Null => false
      case Bool(b) => b
      case Num(n) => n != 0.0
      case Str(s) => s != ""
      case Arr(_) => true
      case Obj(_) => true
  }

  /** `data.key` on a parsed JSON object. */
  function Property(fields: map<string, Json>, key: string): (v: JsValue)
    ensures v.Defined? <==> key in fields
    ensures v.Defined? ==> v.value == fields[key]
  {
    if key in fields then Defined(fields[key]) else Undefined
  }

  /** `JSON.stringify({ text: v })`: a property whose value is `undefined` is
      left out. */
  function AnalyzeBody(text: JsValue): (body: map<string, Json>)
    ensures "text" in body <==> text.Defined?
    ensures text.Defined? ==> body["text"] == text.value
    ensures body.Keys <= {"text"}
  {
    match text
    case Undefined => map[]
    case Defined(j) => map["text" := j]
  }

  predicate IsImage(mimeType: string) {
    StartsWith(mimeType, ImagePrefix)
  }

  /** `validateFile`: an absent file is refused, and so is any file whose
      declared type is not exactly one of the four allowed types. */
  function ValidateFile(candidate: Option<FileRef>): (v: Verdict)
    ensures candidate.None? ==> v == Reject(NoFileAlert)
    ensures candidate.Some? ==>
      (v.Accept? <==> candidate.value.mimeType == "application/pdf"
                      || candidate.value.mimeType == "image/png"
                      || candidate.value.mimeType == "image/jpeg"
                      || candidate.value.mimeType == "image/jpg")
    ensures candidate.Some? && v.Reject? ==> v.message == WrongTypeAlert
  {
    match candidate
    case None => Reject(NoFileAlert)
    case Some(f) => if f.mimeType in AllowedTypes then Accept else Reject(WrongTypeAlert)
  }

  /** An accepted file is a PDF or an image, and a PDF never is an image. */
  lemma AcceptedIsPdfOrImage(f: FileRef)
    requires ValidateFile(Some(f)).Accept?
    ensures f.mimeType == "application/pdf" <==> !IsImage(f.mimeType)
  {
    if f.mimeType == "application/pdf" {
      assert f.mimeType[0] == 'a' != ImagePrefix[0];
    } else {
      assert f.mimeType[..6] == ImagePrefix;
    }
  }

  /** The allow-list is exact: other image types are refused. */
  lemma GifIsRejected(name: string)
    ensures ValidateFile(Some(FileRef(name, "image/gif"))) == Reject(WrongTypeAlert)
  {
  }

  /** `e.dataTransfer.files[0]` / `e.target.files[0]`: `undefined` for an
      empty list. */
  function FirstFile(files: seq<FileRef>): (f: Option<FileRef>)
    ensures f.Some? <==> |files| > 0
    ensures f.Some? ==> f.value == files[0]
  {
    if |files| > 0 then Some(files[0]) else None
  }

  /** The rendered button label and the three optional panels. */
  function Project(preview: Option<ObjectUrl>, loading: bool, extractedText: JsValue, analysis: JsValue): (v: View)
    ensures v.buttonLabel == (if loading then BusyLabel else IdleLabel)
    ensures v.showPreview <==> preview.Some?
    ensures extractedText.Defined? && extractedText.value.Str? ==> (v.showExtract <==> extractedText.value.s != "")
    ensures analysis.Defined? && analysis.value.Str? ==> (v.showResult <==> analysis.value.s != "")
    ensures extractedText.Undefined? ==> !v.showExtract
    ensures analysis.Undefined? ==> !v.showResult
  {
    View(if loading then BusyLabel else IdleLabel, preview.Some?, Truthy(extractedText), Truthy(analysis))
  }

  /** The label reads "Analyzing..." exactly while loading; each panel shows
      exactly when its cell holds something truthy, which for a string is
      being non-empty. */
  lemma ProjectionFacts(preview: Option<ObjectUrl>, loading: bool, extractedText: string, analysis: string)
    ensures var v := Project(preview, loading, Defined(Str(extractedText)), Defined(Str(analysis)));
            && (v.buttonLabel == BusyLabel <==> loading)
            && (v.showPreview <==> preview.Some?)
            && (v.showExtract <==> extractedText != "")
            && (v.showResult <==> analysis != "")
  {
  }

  /** The effect of one run of `handleAnalyze` with a file, from the start of
      the `try` block: the reply of `/extract` and, if it is reached, the reply
      of `/analyze` decide which cells are set, what is alerted and which
      requests are issued. */
  function RunPipeline(f: FileRef, extractResponse: Response, analyzeResponse: Response): (o: RunOutcome)
    ensures 1 <= |o.requests| <= 2 && o.requests[0] == ExtractRequest(f)
    ensures |o.alerts| <= 1
  {
    var extractOnly := [ExtractRequest(f)];
    match extractResponse
    case Throws => RunOutcome(Empty, Empty, [Msg(FailureAlert)], extractOnly)
    case Body(extractData) =>
      var extractError := Property(extractData, "error");
      if Truthy(extractError) then RunOutcome(Empty, Empty, [extractError], extractOnly)
      else
        var text := Property(extractData, "text");
        var both := extractOnly + [AnalyzeRequest(AnalyzeBody(text))];
        match analyzeResponse
        case Throws => RunOutcome(text, Empty, [Msg(FailureAlert)], both)
        case Body(analyzeData) =>
          var analyzeError := Property(analyzeData, "error");
          if Truthy(analyzeError) then RunOutcome(text, Empty, [analyzeError], both)
          else RunOutcome(text, Property(analyzeData, "analysis"), [], both)
  }

  /** An `/extract` reply with a truthy `error` is alerted, `/analyze` is never
      called and both text cells stay empty. */
  lemma ExtractErrorShortCircuits(f: FileRef, extractData: map<string, Json>, analyzeResponse: Response)
    requires Truthy(Property(extractData, "error"))
    ensures var o := RunPipeline(f, Body(extractData), analyzeResponse);
            && o.requests == [ExtractRequest(f)]
            && o.alerts == [Property(extractData, "error")]
            && o.extractedText == Empty && o.analysis == Empty
  {
  }

  /** `/analyze` is called if and only if `/extract` replied without a truthy
      `error`, and then with exactly the extracted text, which the extract
      panel holds whatever `/analyze` does. */
  lemma AnalyzeGetsExtractedText(f: FileRef, extractResponse: Response, analyzeResponse: Response)
    ensures var o := RunPipeline(f, extractResponse, analyzeResponse);
            && (|o.requests| == 2 <==> extractResponse.Body? && !Truthy(Property(extractResponse.fields, "error")))
            && (|o.requests| == 2 ==>
                 && o.requests[1] == AnalyzeRequest(AnalyzeBody(o.extractedText))
                 && o.extractedText == Property(extractResponse.fields, "text"))
  {
  }

  /** Both replies without a truthy `error`: nothing is alerted, the extract
      panel holds the extracted text and the result panel the analysis. */
  lemma SuccessSetsBothCells(f: FileRef, extractData: map<string, Json>, analyzeData: map<string, Json>)
    requires !Truthy(Property(extractData, "error")) && !Truthy(Property(analyzeData, "error"))
    ensures var o := RunPipeline(f, Body(extractData), Body(analyzeData));
            && o.alerts == []
            && o.extractedText == Property(extractData, "text")
            && o.analysis == Property(analyzeData, "analysis")
  {
  }

  /** A failure at the `/analyze` stage, an error reply or an exception, keeps
      the extracted text and leaves the analysis empty; an exception at the
      `/extract` stage leaves both empty. Only a successful run can fill the
      result panel. */
  lemma FailuresLeaveAnalysisEmpty(f: FileRef, extractResponse: Response, analyzeResponse: Response)
    ensures var o := RunPipeline(f, extractResponse, analyzeResponse);
            && (extractResponse.Throws? ==>
                 o.extractedText == Empty && o.analysis == Empty && o.alerts == [Msg(FailureAlert)])
            && (|o.requests| == 2 && (analyzeResponse.Throws? || Truthy(Property(analyzeResponse.fields, "error"))) ==>
                 o.extractedText == Property(extractResponse.fields, "text") && o.analysis == Empty
                 && |o.alerts| == 1)
            && (Truthy(o.analysis) ==> o.alerts == [] && |o.requests| == 2)
  {
  }

  class Home {
    var file: Option<FileRef>
    var preview: Option<ObjectUrl>
    var extractedText: JsValue
    var analysis: JsValue
    var loading: bool
    /** Every value passed to `alert`, in order. */
    var alerts: seq<JsValue>
    /** Every request issued to the backend, in order. */
    var requests: seq<Request>
    /** How many object URLs the page has made. */
    var urlsCreated: nat
    /** The rendered view at each point where the page awaits a reply. */
    ghost var awaitedViews: seq<View>

    /** Between events: the file is one the allow-list accepted, a preview
        exists exactly for an image and is the latest object URL made, no run
        is in flight, and a truthy analysis was produced by the last request,
        which sent the text the extract panel shows. */
    ghost predicate Valid()
      reads this
    {
      && (file.Some? ==> ValidateFile(file).Accept?)
      && (preview.Some? <==> file.Some? && IsImage(file.value.mimeType))
      && (preview.Some? ==> preview.value.id < urlsCreated)
      && !loading
      && (Truthy(analysis) ==>
           |requests| > 0 && requests[|requests| - 1] == AnalyzeRequest(AnalyzeBody(extractedText)))
    }

    function Rendered(): View
      reads this
    {
      Project(preview, loading, extractedText, analysis)
    }

    /** The page as first rendered. */
    constructor ()
      ensures Valid()
      ensures file.None? && preview.None? && !loading
      ensures extractedText == Empty && analysis == Empty
      ensures alerts == [] && requests == [] && urlsCreated == 0 && awaitedViews == []
    {
      file := None;
      preview := None;
      extractedText := Empty;
      analysis := Empty;
      loading := false;
      alerts := [];
      requests := [];
      urlsCreated := 0;
      awaitedViews := [];
    }

    /** The rule the drop and pick handlers share: a refused candidate is
        alerted and changes nothing; an accepted one becomes the file, with a
        new object URL as preview when it is an image and no preview
        otherwise. The pipeline cells are left alone. */
    twostate predicate SelectionApplied(candidate: Option<FileRef>)
      reads this
    {
      && extractedText == old(extractedText) && analysis == old(analysis)
      && loading == old(loading) && requests == old(requests)
      && awaitedViews == old(awaitedViews)
      && match ValidateFile(candidate)
         case Reject(message) =>
           && alerts == old(alerts) + [Msg(message)]
           && file == old(file) && preview == old(preview) && urlsCreated == old(urlsCreated)
         case Accept =>
           && alerts == old(alerts) && file == candidate
           && if IsImage(candidate.value.mimeType) then
                preview == Some(ObjectUrl(old(urlsCreated))) && urlsCreated == old(urlsCreated) + 1
              else
                preview.None? && urlsCreated == old(urlsCreated)
    }

    method Select(candidate: Option<FileRef>)
      requires Valid()
      modifies this
      ensures Valid()
      ensures SelectionApplied(candidate)
      ensures ValidateFile(candidate).Accept? && old(preview).Some? && preview.Some? ==>
                preview != old(preview)
    {
      var verdict := ValidateFile(candidate);
      if verdict.Reject? {
        alerts := alerts + [Msg(verdict.message)];
        return;
      }
      var chosen := candidate.value;
      file := Some(chosen);
      if IsImage(chosen.mimeType) {
        preview := Some(ObjectUrl(urlsCreated));
        urlsCreated := urlsCreated + 1;
      } else {
        preview := None;
      }
    }

    /** The drop zone's `onDrop` handler. */
    method OnDrop(dropped: seq<FileRef>)
      requires Valid()
      modifies this
      ensures Valid()
      ensures SelectionApplied(FirstFile(dropped))
    {
      Select(FirstFile(dropped));
    }

    /** The file input's `onChange` handler. */
    method OnChange(uploaded: seq<FileRef>)
      requires Valid()
      modifies this
      ensures Valid()
      ensures SelectionApplied(FirstFile(uploaded))
    {
      Select(FirstFile(uploaded));
    }

    /** `handleAnalyze`, run to completion with the given replies. */
    method HandleAnalyze(extractResponse: Response, analyzeResponse: Response)
      requires Valid()
      modifies this
      ensures Valid()
      ensures file == old(file) && preview == old(preview) && urlsCreated == old(urlsCreated)
      ensures !loading
      ensures file.None? ==>
        && alerts == old(alerts) + [Msg(NoUploadAlert)]
        && requests == old(requests) && awaitedViews == old(awaitedViews)
        && extractedText == old(extractedText) && analysis == old(analysis)
      ensures file.Some? ==>
        var o := RunPipeline(file.value, extractResponse, analyzeResponse);
        && extractedText == o.extractedText && analysis == o.analysis
        && alerts == old(alerts) + o.alerts && requests == old(requests) + o.requests
      // the page shows the busy label while awaiting either reply, and the
      // first request goes out with both panels hidden
      ensures file.Some? ==>
        && |awaitedViews| - |old(awaitedViews)| == |requests| - |old(requests)|
        && (forall i | |old(awaitedViews)| <= i < |awaitedViews| ::
              awaitedViews[i].buttonLabel == BusyLabel && !awaitedViews[i].showResult)
        && !awaitedViews[|old(awaitedViews)|].showExtract
    {
      if file.None? {
        alerts := alerts + [Msg(NoUploadAlert)];
        return;
      }
      loading := true;
      extractedText := Empty;
      analysis := Empty;
      var returned := Attempt(file.value, extractResponse, analyzeResponse);
      if returned {
        return;
      }
      loading := false;
    }

    /** The `try` block of `handleAnalyze` and its `catch`: the two requests
        and their replies. `returned` tells whether it left `handleAnalyze`
        through one of the early `return`s, which clear `loading` first. */
    method Attempt(f: FileRef, extractResponse: Response, analyzeResponse: Response) returns (returned: bool)
      requires loading && extractedText == Empty && analysis == Empty
      modifies this`extractedText, this`analysis, this`loading, this`alerts, this`requests, this`awaitedViews
      ensures var o := RunPipeline(f, extractResponse, analyzeResponse);
        && extractedText == o.extractedText && analysis == o.analysis
        && alerts == old(alerts) + o.alerts && requests == old(requests) + o.requests
      ensures loading == !returned
      ensures Truthy(analysis) ==> requests[|requests| - 1] == AnalyzeRequest(AnalyzeBody(extractedText))
      ensures |awaitedViews| - |old(awaitedViews)| == |requests| - |old(requests)|
      ensures forall i | |old(awaitedViews)| <= i < |awaitedViews| ::
                awaitedViews[i].buttonLabel == BusyLabel && !awaitedViews[i].showResult
      ensures !awaitedViews[|old(awaitedViews)|].showExtract
    {
      returned := false;
      requests := requests + [ExtractRequest(f)];
      awaitedViews := awaitedViews + [Rendered()];
      if extractResponse.Throws? {
        alerts := alerts + [Msg(FailureAlert)];
        return;
      }
      var extractData := extractResponse.fields;
      var extractError := Property(extractData, "error");
      if Truthy(extractError) {
        alerts := alerts + [extractError];
        loading := false;
        return true;
      }
      extractedText := Property(extractData, "text");

      requests := requests + [AnalyzeRequest(AnalyzeBody(Property(extractData, "text")))];
      awaitedViews := awaitedViews + [Rendered()];
      if analyzeResponse.Throws? {
        alerts := alerts + [Msg(FailureAlert)];
        return;
      }
      var analyzeData := analyzeResponse.fields;
      var analyzeError := Property(analyzeData, "error");
      if Truthy(analyzeError) {
        alerts := alerts + [analyzeError];
        loading := false;
        return true;
      }
      analysis := Property(analyzeData, "analysis");
    }
  }
}
