/** The page and the backend together. The browser sends a file part whose
    content type is the file's declared MIME type, and the page reads each
    route's reply as `Observe` says: a returned dict is the parsed JSON
    object, and an HTTP 500 (a plain-text body) makes `.json()` throw. */
module EndToEnd {
  import opened Values
  import Backend
  import Client

  function Observe(r: Backend.HttpReply): (response: Client.Response)
    ensures response.Throws? <==> r.Crashed?
  {
    match r
    case Returned(body) => Client.Body(body)
    case Crashed => Client.Throws
  }

  /** What `/extract` receives for a file the page sends. */
  function UploadOf(f: Client.FileRef, pdfPages: Option<seq<Option<string>>>, ocrText: Option<string>): Backend.Upload {
    Backend.Upload(Some(f.mimeType), pdfPages, ocrText)
  }

  /** Every type the page lets through reaches a branch of `/extract` that
      reads the document: the backend never answers it as unsupported. */
  lemma AcceptedFilesAreSupported(f: Client.FileRef, pdfPages: Option<seq<Option<string>>>, ocrText: Option<string>)
    requires Client.ValidateFile(Some(f)).Accept?
    ensures Backend.ExtractReply(UploadOf(f, pdfPages, ocrText))
            != Backend.Returned(map["error" := Str(Backend.UnsupportedError)])
  {
    Client.AcceptedIsPdfOrImage(f);
    Backend.ExtractUnsupportedIff(UploadOf(f, pdfPages, ocrText));
  }

  /** The backend's image branch is wider than the page's allow-list: a GIF is
      refused by the page but read by OCR when sent directly. */
  lemma GifOnlyRefusedByThePage(name: string, ocrText: string)
    ensures Client.ValidateFile(Some(Client.FileRef(name, "image/gif"))).Reject?
    ensures Backend.ExtractReply(Backend.Upload(Some("image/gif"), None, Some(ocrText)))
            == Backend.Returned(map["text" := Str(ocrText)])
  {
    Backend.ImageDispatchIsByPrefix(Backend.Upload(Some("image/gif"), None, Some(ocrText)), ocrText);
  }

  /** Every error `/extract` returns is a non-empty string, so the page alerts
      it and never calls `/analyze`; an `/extract` crash is alerted as a
      generic failure. Either way both panels stay empty. */
  lemma ExtractFailuresStopTheRun(f: Client.FileRef, u: Backend.Upload, analyzeResponse: Client.Response)
    requires Backend.ExtractReply(u).Crashed? || "error" in Backend.ExtractReply(u).body
    ensures var o := Client.RunPipeline(f, Observe(Backend.ExtractReply(u)), analyzeResponse);
            && o.requests == [Client.ExtractRequest(f)]
            && o.extractedText == Client.Empty && o.analysis == Client.Empty
            && o.alerts == [if Backend.ExtractReply(u).Crashed? then Client.Msg(Client.FailureAlert)
                            else Client.Msg(Backend.UnsupportedError)]
  {
  }

  /** A PDF with some visible text, a configured key and a well-formed Gemini
      reply: `/analyze` receives exactly the text `/extract` produced, Gemini
      is called, and the page ends with that text in the extract panel, the
      candidate's text in the result panel and no alert. */
  lemma PdfRunSucceeds(f: Client.FileRef, pages: seq<Option<string>>, ocrText: Option<string>,
                       env: map<string, string>, summary: Json)
    requires f.mimeType == Backend.PdfType
    requires !Backend.AllSpace(Backend.PagesText(pages))
    requires Backend.HasApiKey(env)
    ensures var extracted := Backend.ExtractReply(UploadOf(f, Some(pages), ocrText));
            var sent := Client.AnalyzeBody(Client.Property(extracted.body, "text"));
            var analyzed := Backend.Analyze(sent, env, Some(Backend.GeminiReply(summary)));
            var o := Client.RunPipeline(f, Observe(extracted), Observe(analyzed.reply));
            && o.requests == [Client.ExtractRequest(f), Client.AnalyzeRequest(sent)]
            && Backend.PayloadText(sent) == Str(Backend.PagesText(pages))
            && analyzed.call.Some?
            && o.extractedText == Client.Defined(Str(Backend.PagesText(pages)))
            && o.analysis == Client.Defined(summary)
            && o.alerts == []
  {
    var sent := map["text" := Str(Backend.PagesText(pages))];
    Backend.GeminiOutcome(sent, env, Backend.GeminiReply(summary));
  }

  /** An extracted text made of whitespace only is shown, sent on and refused
      by `/analyze` as empty; the page alerts that error and the result panel
      stays empty. */
  lemma BlankTextFailsAtAnalyze(f: Client.FileRef, text: string, env: map<string, string>, gemini: Option<Json>)
    requires Backend.AllSpace(text)
    ensures var extracted := Backend.Returned(map["text" := Str(text)]);
            var sent := Client.AnalyzeBody(Client.Property(extracted.body, "text"));
            var analyzed := Backend.Analyze(sent, env, gemini);
            var o := Client.RunPipeline(f, Observe(extracted), Observe(analyzed.reply));
            && analyzed.call.None?
            && o.extractedText == Client.Defined(Str(text))
            && o.analysis == Client.Empty
            && o.alerts == [Client.Msg(Backend.EmptyTextError)]
  {
    var sent := map["text" := Str(text)];
    Backend.BlankTextRejectedFirst(sent, env, gemini);
  }

  /** A PDF whose pages hold no visible text extracts to newlines only, and so
      fails at `/analyze` as above. */
  lemma BlankPdfFailsAtAnalyze(f: Client.FileRef, pages: seq<Option<string>>, ocrText: Option<string>,
                               env: map<string, string>, gemini: Option<Json>)
    requires f.mimeType == Backend.PdfType
    requires forall i | 0 <= i < |pages| :: Backend.AllSpace(Backend.PageText(pages[i]))
    ensures var extracted := Backend.ExtractReply(UploadOf(f, Some(pages), ocrText));
            var sent := Client.AnalyzeBody(Client.Property(extracted.body, "text"));
            var analyzed := Backend.Analyze(sent, env, gemini);
            var o := Client.RunPipeline(f, Observe(extracted), Observe(analyzed.reply));
            && analyzed.call.None?
            && o.extractedText == Client.Defined(Str(Backend.PagesText(pages)))
            && o.analysis == Client.Empty
            && o.alerts == [Client.Msg(Backend.EmptyTextError)]
  {
    Backend.BlankPagesGiveBlankText(pages);
    assert Backend.ExtractReply(UploadOf(f, Some(pages), ocrText))
           == Backend.Returned(map["text" := Str(Backend.PagesText(pages))]);
    BlankTextFailsAtAnalyze(f, Backend.PagesText(pages), env, gemini);
  }
}
