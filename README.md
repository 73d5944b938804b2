# AI Content Analyzer: a Dafny model of the upload page and its backend

The system is a one-page web client (`app/page.jsx`) and a small FastAPI
backend (`backend/main.py`). The user drops or picks a PDF or an image. The
page checks the file's declared MIME type against an allow-list and shows a
preview for images. When the user presses the button, the page posts the
file to `/extract`. That route reads PDF pages with pdfplumber, or images
with tesseract OCR. The page then posts the extracted text to `/analyze`,
which asks Gemini for a short summary. Both texts are shown.

The model has four modules:

- `Values` (`values.dfy`): `Option`, a parsed JSON tree and `StartsWith`.
- `Backend` (`backend.dfy`): the two routes.
  - `/extract` is `ExtractReply`, a function, and `Extract`, a method. The PDF loop is the method `ConcatPages`.
  - `/analyze` is the function `Analyze`, including Python's `str.strip` and the path lookup into Gemini's reply.
  - The libraries' results, the environment and Gemini's reply are inputs.
  - An uncaught exception is the reply `Crashed` (HTTP 500).
- `Client` (`client.dfy`): the page.
  - The React state cells are the fields of class `Home`.
  - The drop and pick handlers share `Select`.
  - `HandleAnalyze` runs the two-stage pipeline. Its effect is specified by the pure function `RunPipeline`, and the lemmas are about that function.
  - `alert` calls are appended to `alerts`. Requests to the backend are appended to `requests`. Object URLs are numbered tokens.
  - The ghost field `awaitedViews` records what the page shows while it waits for each reply.
- `EndToEnd` (`end_to_end.dfy`): lemmas that run the backend's replies through the page's pipeline.

The cells `extractedText` and `analysis` hold a JavaScript value, not a
string. The page stores `extractData.text` and `analyzeData.analysis`
without checking them, so they may be `undefined` or a non-string. A panel is
shown when its cell is truthy. For a string, truthy means non-empty.

Where the system's written design differs from its code, the model follows
the code:

- The code has no status enumeration. It has a `loading` boolean plus the two text cells.
- It has no single-flight guard. The button is never disabled.
- It has no dragging state. `onDragEnter` and `onDragOver` only call `preventDefault`.
- It never releases an old object URL.
- A transport failure clears `loading` but reports only "Something went wrong.".

## Model

| member | source | states |
|---|---|---|
| `Backend.ConcatPages` | backend/main.py:42-45 | the loop's `text` is `PagesText(pages)`: each page's text (or "" when it has none) followed by a newline, in page order |
| `Backend.PagesText` | backend/main.py:42-45 | the PDF text is empty exactly when there are no pages, and otherwise ends with "\n" |
| `Backend.PagesTextLength` | backend/main.py:42-46 | the PDF text's length is the sum of the page-text lengths plus the page count (0 pages give "") |
| `Backend.PagesTextEndsWithNewline` | backend/main.py:43-45 | with at least one page the PDF text ends with "\n" |
| `Backend.PagesTextAt` | backend/main.py:43-45 | page i's text occurs at offset (lengths of earlier pages + i) and is followed by "\n": an in-order concatenation |
| `Backend.ExtractReply` | backend/main.py:40-55 | every returned reply has exactly one key, `text` or `error`, and its value is a string |
| `Backend.Extract` | backend/main.py:35-55 | the route (with its loop) returns exactly `ExtractReply(u)` |
| `Backend.ExtractUnsupportedIff` | backend/main.py:40-55 | "Unsupported file type" is returned if and only if the declared type is present, not exactly `application/pdf`, and does not start with `image/` |
| `Backend.PdfDispatchIsExact` | backend/main.py:40-46 | type exactly `application/pdf` with readable pages gives `{"text": PagesText(pages)}` |
| `Backend.ImageDispatchIsByPrefix` | backend/main.py:49-52 | any type starting with `image/` gives the OCR text |
| `Backend.StripStart` | backend/main.py:65 | `lstrip` removes a whitespace-only prefix and leaves a suffix that is empty or starts with a non-space |
| `Backend.StripEnd` | backend/main.py:65 | `rstrip` removes a whitespace-only suffix and leaves a prefix that is empty or ends with a non-space |
| `Backend.Strip` | backend/main.py:65 | `strip` never lengthens the text and leaves one that is empty or starts and ends with a non-space |
| `Backend.StripStartAllSpace` | backend/main.py:65 | `lstrip` of an all-whitespace text is empty |
| `Backend.StripEmptyIffAllSpace` | backend/main.py:65 | `not text.strip()` holds if and only if every character is Python whitespace |
| `Backend.Prompt` | backend/main.py:73-80 | the prompt ends with the text followed by a newline |
| `Backend.CandidateText` | backend/main.py:93-95 | the lookup yields a value only along the full path `candidates[0].content.parts[0].text`, and whenever that path holds t it yields t |
| `Backend.CandidateTextIff` | backend/main.py:92-95 | the lookup `candidates[0].content.parts[0].text` yields t if and only if every link of that path is present and the last is t |
| `Backend.PayloadText` | backend/main.py:63 | `payload.get("text", "")`: the payload's `text` value when the key is present, else the empty string |
| `Backend.HasApiKey` | backend/main.py:68-70 | the key counts as present exactly when the variable is set and non-empty; unset means missing |
| `Backend.Analyze` | backend/main.py:62-97 | a returned reply has exactly one of `analysis` and `error`; Gemini is called only for a string text with a key present |
| `Backend.BlankTextRejectedFirst` | backend/main.py:63-66 | a missing or whitespace-only text gives "Empty text received" and no Gemini call, whatever the key and Gemini's reply |
| `Backend.MissingKeyRejected` | backend/main.py:68-71 | a non-blank text without a key gives the missing-key error and no Gemini call |
| `Backend.GeminiOutcome` | backend/main.py:82-97 | past both guards Gemini is called with the key in the URL and the prompt in the body; the reply is `analysis` = the path's value when present, else the failure error with `raw` = the data |
| `Backend.BlankPagesGiveBlankText` | backend/main.py:42-46 | pages whose texts are all whitespace or absent give an all-whitespace text |
| `Client.AnalyzeBody` | app/page.jsx:64 | the body has a `text` key exactly when the value is defined, holding that value, and no other key |
| `Client.Truthy` | app/page.jsx:133-145 | JavaScript truthiness: `undefined`, `null`, `false`, 0 and "" are falsy; a string is truthy exactly when non-empty; arrays and objects are truthy |
| `Client.Property` | app/page.jsx:53-75 | `data.key` is defined exactly when the key is in the parsed object, and is then its value |
| `Client.ValidateFile` | app/page.jsx:11-29 | an absent file is refused with "No file selected."; otherwise the file is accepted if and only if its type is exactly one of the four listed types, and otherwise refused with the type message |
| `Client.AcceptedIsPdfOrImage` | app/page.jsx:17-22 | an accepted type is a PDF exactly when it does not start with `image/` |
| `Client.GifIsRejected` | app/page.jsx:24-27 | `image/gif` is refused |
| `Client.FirstFile` | app/page.jsx:95 | `files[0]` is defined exactly for a non-empty list and is its first file |
| `Client.Project` | app/page.jsx:127-145 | the label is "Analyzing..." while loading and "Analyze Content" otherwise; the preview shows exactly when a preview URL exists; a text panel shows exactly when its string is non-empty, and never for `undefined` |
| `Client.ProjectionFacts` | app/page.jsx:127-145 | the label is "Analyzing..." if and only if loading; preview, extract and result panels show if and only if the preview exists or the text is non-empty |
| `Client.RunPipeline` | app/page.jsx:45-79 | a run issues the extract request first and at most one more; at most one alert |
| `Client.ExtractErrorShortCircuits` | app/page.jsx:53-57 | a truthy extract `error` is alerted, analyze is never requested, both cells stay "" |
| `Client.AnalyzeGetsExtractedText` | app/page.jsx:59-65 | analyze is requested if and only if extract replied without a truthy error, and then with exactly the extracted text, which the extract cell holds |
| `Client.SuccessSetsBothCells` | app/page.jsx:59-75 | with no error in either reply there is no alert, and the cells hold the extracted text and the analysis |
| `Client.FailuresLeaveAnalysisEmpty` | app/page.jsx:67-78 | an analyze-stage error or exception keeps the extracted text and leaves analysis ""; an extract-stage exception leaves both ""; a truthy analysis only follows a fully successful run |
| `Client.Home.constructor` | app/page.jsx:5-9 | initial cells: no file, no preview, both texts "", not loading |
| `Client.Home.Select` | app/page.jsx:96-101 | a refused candidate is alerted and changes nothing; an accepted one becomes the file, with a new object URL as preview if and only if it is an image; the pipeline cells are unchanged; the invariant is kept |
| `Client.Home.OnDrop` | app/page.jsx:93-102 | the drop handler applies the selection rule to the first dropped file |
| `Client.Home.OnChange` | app/page.jsx:111-119 | the picker handler applies the same rule to the first picked file |
| `Client.Home.HandleAnalyze` | app/page.jsx:32-81 | with no file: one alert, and no state change or request; otherwise the cells, alerts and requests are those of `RunPipeline`; `loading` is false on every exit; the busy label shows while each reply is awaited; the first request goes out with both panels hidden |
| `Client.Home.Attempt` | app/page.jsx:45-78 | the `try`/`catch` body: its effect is `RunPipeline`'s, and it clears `loading` before each early return |
| `EndToEnd.AcceptedFilesAreSupported` | backend/main.py:40-55 | no file the page accepts is answered "Unsupported file type" by `/extract` |
| `EndToEnd.GifOnlyRefusedByThePage` | backend/main.py:49-52 | the backend's image branch is wider than the page's allow-list: `image/gif` is OCR'd |
| `EndToEnd.ExtractFailuresStopTheRun` | app/page.jsx:53-57 | an `/extract` error or crash ends the run after one request with both cells "" and one alert |
| `EndToEnd.PdfRunSucceeds` | app/page.jsx:59-75 | a PDF with visible text, a key and a well-formed Gemini reply: `/analyze` receives exactly the PDF text and the page ends with both cells set and no alert |
| `EndToEnd.BlankTextFailsAtAnalyze` | backend/main.py:63-66 | an all-whitespace extracted text is shown, sent, refused as empty and alerted; analysis stays "" |
| `EndToEnd.BlankPdfFailsAtAnalyze` | backend/main.py:42-66 | a PDF without visible text ends the same way |

## Left out

- `fetch`, `FormData`, `.json()` and `alert` are not modelled as I/O. Replies are inputs of `HandleAnalyze`. Requests and alerts are appended to logs.
- `HandleAnalyze` receives both replies up front. The `/analyze` reply is ignored when that request is never issued.
- Overlapping runs of `handleAnalyze` are not modelled. The code has no guard against them, and their interleaving is concurrency. The model runs one run to completion.
- React batches state updates and runs them later. The model applies each setter at once. The handler reads `file` as it was when the button was clicked.
- `URL.createObjectURL` is modelled as a numbered token. The code never calls `revokeObjectURL`, so URLs are never released.
- `preventDefault` in the drag handlers is left out. There is no drag state in the code.
- `alert` is modelled as receiving the value it is passed. Its conversion to a displayed string is not modelled.
- A reply body that is JSON but not an object is not modelled. An example is `null`, where reading `.error` throws. The backend never sends one.
- JSON numbers are reals. Only their truthiness is used.
- pdfplumber, PIL, tesseract, `requests.post`, `load_dotenv` and `os.getenv` are not modelled. Their results are inputs. This covers the hard-coded tesseract path, the CORS middleware and the environment map.
- FastAPI's own request validation is not modelled: a non-object `/analyze` body (422) and a missing `file` part.
- `EndToEnd.UploadOf` assumes the browser sends the file's declared type as the part's content type.
- app/layout.jsx, the JSX markup and the styles are not modelled. They are presentation only.
