# Algerian legal platform: staged research generation, in Dafny

This project models the core of a browser front end for Algerian law. Its one
stateful workflow is the academic-research generator. It asks a text-generation
backend for a research paper in five stages, one after another. Each request
carries the trailing 1500 characters of the text produced so far. Each stage's
output is appended to the list of sections on screen. On the first failure the
run appends one fixed error section and stops.

Around that loop the model covers the page's small pure helpers:

- the markup filter applied to every generated text;
- the search filter and the category list of the directory of official websites;
- the gate that refuses to draft contracts needing a notary;
- the service-layer functions that build a stage request, the parts of a
  contract-analysis request, and the citation list of a legal-radar search.

Modules, one per source file or concern:

- `Wrappers`: `Option`, which stands for JavaScript's `undefined`.
- `Types` (types.ts): the screens (`View`) and the `OfficialResource` record.
- `JsString`: the JavaScript string built-ins the code relies on: `substring`,
  `toLowerCase`, `trim`, `includes` and `split` with a one-character separator.
- `GeminiService` (services/geminiService.ts): the pure parts of the service
  layer.
- `Page` (page.tsx): the pure helpers and the constant tables of the page.
- `App` (page.tsx): the component state as the class `App.App`, its handlers,
  and the specification of a research run.

The backend is a parameter. `App.Backend` is a total function from a stage
request to `Some(text)` or `None`, where `None` means the awaited call threw.
`App.Successes(topic, backend, k)` holds the outputs of the stages among 1..k
that a run reaches and that succeed. `App.App.HandleResearch` is the loop, and
its postcondition ties the final `researchStage`, the final `fullResearch` and
the list of requests it sent to that function. The lemmas beside it prove the
properties of the run: ordering, causality, stopping at the first failure, and
the bounds.

## Model

| member | source | states |
|---|---|---|
| `JsString.Substring` | geminiService.ts:105 | one-argument `substring`: a start at or below 0 keeps the whole string, a start at or past the end gives the empty string, otherwise the tail from the start |
| `JsString.ToLowerCase` | page.tsx:50-52 | same length, each character lower-cased on its own |
| `JsString.Trim` | page.tsx:50 | definition of `trim` (leading, then trailing white space removed); its properties are stated by `JsString.TrimIsSlice` |
| `JsString.TrimIsSlice` | page.tsx:50 | the result is a contiguous slice of the input with only white space before and after it, and it neither starts nor ends with white space |
| `JsString.Includes` | page.tsx:52 | true exactly when the needle occurs at some index of the haystack |
| `JsString.IncludesEmpty` | page.tsx:52 | the empty term is included in every string |
| `JsString.Split` | geminiService.ts:38 | the fields joined back with the separator give the input; no field contains the separator; a separator-free input is one field |
| `JsString.SplitJoin` | geminiService.ts:38 | splitting separator-free fields that were joined gives the fields back (round trip) |
| `GeminiService.StagesInfoShape` | geminiService.ts:92-98 | the stage-instruction table has five pairwise different entries |
| `GeminiService.StageInstruction` | geminiService.ts:92-104 | `stagesInfo[stage - 1]` is defined exactly for stages 1..5 and is then an entry of the table |
| `GeminiService.StageInstructionInjective` | geminiService.ts:92-104 | two stages with the same defined instruction are the same stage |
| `GeminiService.ContextWindow` | geminiService.ts:105 | definition of `previousContent.substring(previousContent.length - 1500)`; its properties are stated by `GeminiService.ContextWindowIsTail` |
| `GeminiService.ContextWindowIsTail` | geminiService.ts:105 | the context is a suffix of the earlier content, of length min(length, 1500), and the whole content when that is at most 1500 characters |
| `GeminiService.BuildStageRequest` | geminiService.ts:90-105 | definition of the request `generateResearchStage` sends, with `previousContent` defaulting to the empty string; its properties are stated by `GeminiService.StageRequestFields` and `GeminiService.OmittedContextIsEmpty` |
| `GeminiService.StageRequestFields` | geminiService.ts:90-105 | a stage request keeps topic and stage; its context is a suffix of the earlier content of length min(length, 1500) |
| `GeminiService.OmittedContextIsEmpty` | geminiService.ts:90 | a request built without `previousContent` (default `""`) carries an empty context |
| `GeminiService.DataUrlPayload` | geminiService.ts:38 | `split(',')[1]` is defined iff the data URL contains a comma, and it contains no comma itself |
| `GeminiService.DataUrlPayloadOfDataUrl` | geminiService.ts:38 | for `header,payload` with comma-free parts the payload is what is sent |
| `GeminiService.AnalyzeParts` | geminiService.ts:37-38 | one or two parts; the first is always the text part ending in the user's text; a second, `image/jpeg` part exactly when image data is present and non-empty, carrying its data-URL payload |
| `GeminiService.OrElse` | geminiService.ts:81-82 | the JavaScript or-default on an optional string: the value when it is a non-empty string, the fallback when it is missing or empty |
| `GeminiService.SourceOf` | geminiService.ts:80-83 | a source never has an empty title or url; a chunk without `web` gives ('مرجع رسمي', '#'); otherwise the defaults replace a missing or empty title or uri |
| `GeminiService.SourcesOf` | geminiService.ts:80-83 | one source per grounding chunk, in chunk order |
| `GeminiService.GroundingChunksOf` | geminiService.ts:80 | the optional chain yields chunks iff candidates exist and are non-empty and the first has metadata with chunks |
| `GeminiService.RadarSources` | geminiService.ts:80-84 | empty when any link of the chain is missing, otherwise one source per chunk in order, each with a non-empty title and url |
| `Page.CleanText` | page.tsx:47 | no '#' or '*' remains and the result is no longer than the input |
| `Page.CleanTextIsSubsequence` | page.tsx:47 | the cleaned text is a subsequence of the input, so the order is kept |
| `Page.CleanTextKeepsOtherCharacters` | page.tsx:47 | every character other than '#' and '*' occurs exactly as often as in the input |
| `Page.CleanTextConcat` | page.tsx:47 | cleaning a concatenation is concatenating the cleaned parts |
| `Page.CleanTextKeepsCleanText` | page.tsx:47 | text without '#' or '*' is left unchanged |
| `Page.CleanTextIdempotent` | page.tsx:47 | cleaning twice is cleaning once |
| `Page.NormalizeTerm` | page.tsx:50 | definition of `resSearchTerm.toLowerCase().trim()`; its parts are specified by `JsString.ToLowerCase` and `JsString.TrimIsSlice` |
| `Page.FilterResources` | page.tsx:51-55 | the result is a subsequence of the resources (order kept), every kept entry matches the term in its lower-cased name or url and the selected category (or 'الكل'), and every matching entry is kept |
| `Page.FilteredResources` | page.tsx:49-56 | the same three facts for the fixed directory and the lower-cased, trimmed search term |
| `Page.BlankSearchShowsEverything` | page.tsx:49-56 | a search term that is blank after lower-casing and trimming, with 'الكل' selected, lists the whole directory in its order |
| `Page.FirstIndex` | page.tsx:58 | the first position of a value, or the length when it is absent; the value does not occur before it |
| `Page.Dedup` | page.tsx:58 | a `Set` read back has at most as many elements as its input |
| `Page.DedupElements` | page.tsx:58 | deduplication keeps exactly the elements of the input, in both directions |
| `Page.DedupNoRepeats` | page.tsx:58 | deduplication leaves no element twice |
| `Page.DedupFirstAppearance` | page.tsx:58 | deduplicated elements are ordered by their first appearance in the input, as a `Set` iterates |
| `Page.CategoryList` | page.tsx:58 | starts with 'الكل', then every resource category once, nothing else, in first-appearance order |
| `Page.Categories` | page.tsx:58 | definition of the memoised `categories` list over the directory; its properties are stated by `Page.CategoryList` and `Page.CategoriesDistinct` |
| `Page.NoResourceUnderAllCategories` | page.tsx:8-18 | no entry of the directory is filed under 'الكل' |
| `Page.CategoriesDistinct` | page.tsx:58 | the category choices of the directory contain no duplicate, the leading 'الكل' included |
| `Page.FindCategory` | page.tsx:92 | `find`: absent iff no category has the id; otherwise a category with the id and no earlier one with it |
| `Page.ContractAllowed` | page.tsx:92-93 | a draft may be requested exactly for 'financial', 'services', 'movables' and 'obligations'; 'realestate' and unknown ids are refused |
| `Page.PrintOffered` | page.tsx:332 | definition of the download button's condition as written, `researchStage === 5 && !loading`; what it allows is stated by `App.PrintOfferedAfterFailedLastStage` |
| `Page.PrintReady` | page.tsx:332 | definition of the corrected condition, which also asks for five sections whose last one is not the error marker; its meaning is stated by `App.PrintReadyIffCompleted` |
| `Page.ProgressPercent` | page.tsx:318 | the progress figure lies in 0..100 and equals stage·100/5 exactly |
| `App.Concat` | page.tsx:119-124 | the running text of no outputs is empty |
| `App.ConcatAppend` | page.tsx:124 | appending outputs appends their running text: nothing produced is lost from the context source |
| `App.Successes` | page.tsx:119-128 | a run over stages 1..k yields at most k outputs |
| `App.SuccessesStopAfterFailure` | page.tsx:120-128 | after the first failing stage, later stages add no output (no later stage is requested) |
| `App.SuccessesPrefix` | page.tsx:119-125 | the outputs of a run that completed stage k begin with the outputs of every earlier stage: the list is append-only |
| `App.Calls` | page.tsx:120-122 | the requests for stages 1..n are n requests for the topic with stage numbers 1, 2, ..., n in order |
| `App.CallsIgnoreLaterOutputs` | page.tsx:119-124 | outputs produced later never change an earlier request (causality) |
| `App.CallsAt` | page.tsx:119-122 | the request of stage i+1 carries the context window of the running text of outputs 1..i, which is empty for stage 1 |
| `App.SuccessesAreReplies` | page.tsx:119-124 | each output is the backend's reply to its own stage's request, built from earlier outputs only |
| `App.StoppedStageFailed` | page.tsx:119-127 | when fewer stages succeeded than were allowed, the stage after the last success was requested and failed |
| `App.RunStep` | page.tsx:120-124 | one loop step: stage s sends the request built from the outputs so far; a reply extends the outputs and the running text by that reply, a failure ends the run with the outputs so far |
| `App.ReliableBackendCompletes` | page.tsx:120-125 | a backend that answers every stage 1..5 yields one output per stage |
| `App.FailureAtStage` | page.tsx:120-128 | a backend that answers stages 1..k-1 and fails stage k leaves exactly k-1 outputs; nothing is assumed about requests no run sends, so a backend that fails every call is covered with k = 1 |
| `App.StageReached` | page.tsx:120-121 | the stage a run ends on is in 1..5: the failing stage, or 5 when all succeed |
| `App.Sections` | page.tsx:123-128 | the final sections are the outputs, then exactly one error marker when a stage failed; their number is the stage reached |
| `App.FailingBackendYieldsNothing` | page.tsx:118-128 | a backend that fails every call, such as one without an API key, ends the run on stage 1 with the error marker as the only section |
| `App.PrintOfferedAfterFailedLastStage` | page.tsx:332 | as written, a run whose fifth stage fails ends with the download offered and the error marker as last section |
| `App.PrintReadyIffCompleted` | page.tsx:332 | with the corrected condition the download is offered exactly when all five stages succeeded |
| `App.ExampleRunCompletes` | page.tsx:119-125 | a backend answering "S1".."S5" yields exactly those sections in order |
| `App.ExampleRunFailsAtStage3` | page.tsx:119-128 | the same backend failing stage 3 yields "S1", "S2" and the marker, ending on stage 3 |
| `App.App.constructor` | page.tsx:29-45 | the initial state: home screen, not loading, empty input and results, category 'financial', stage 0, no sections |
| `App.App.SetView` | page.tsx:60-69 | switching screens clears the input, the analysis file and result, the research stage and the sections; the chosen contract category is kept, and so is `loading` for every screen but the radar screen, whose entry starts a radar search that changes it |
| `App.App.RestartResearch` | page.tsx:331 | the "cancel and restart" button only sets the stage to 0: the sections stay and no run is stopped |
| `App.App.HandleGenerateContract` | page.tsx:91-102 | a refused category sets the refusal text and sends nothing; otherwise one request (category label, input) is sent and the reply replaces the result, or a failure leaves it; loading ends false |
| `App.App.HandleResearch` | page.tsx:112-132 | empty input: nothing is sent and nothing changes; otherwise the sections, the stage and the requests sent are those of `Successes`, `Sections`, `StageReached` and `Calls`; loading ends false; the stage stays in 0..5 and the sections number at most 5 and equal the stage once a run has started |

## Left out

- The calls to the text-generation SDK, the API key and the model configuration are left out. They are network calls, and the backend is a parameter instead.
- The wording of the prompts and system instructions is left out because it is domain content. `GeminiService.StagesInfo` and `GeminiService.AnalyzePrompt` are stand-ins; only the number of instructions and their distinctness matter.
- `App.App.HandleResearch`: a reply whose `text` is `undefined` is not modelled. The code would then append `undefined` to the sections and the string "undefined" to the running text. In the model the backend either yields a string or fails.
- `App.App.HandleGenerateContract`: the `|| ''` for an `undefined` reply text is not modelled, for the same reason.
- `App.App.HandleResearch`: the kind of a backend error is not kept. The code only logs it to the console, and console output is I/O.
- Each handler runs to completion in the model. React's asynchronous scheduling and the batching of state updates are left out. So are events that the user triggers while a stage is awaited, such as the cancel button or a screen switch; the code does not stop the loop for them.
- The intermediate values of `loading` during a run are not modelled. Only the final value is stated.
- `App.App.SetView`: entering the radar screen also runs `handleRadar`, which sets `loading` to true, fetches the radar results and sets `loading` back to false. That search is network I/O and is not modelled, so for the radar screen the contract says nothing about `loading`. The `window.scrollTo` call is a browser call and is left out as well. The citations of a search response are modelled by `GeminiService.RadarSources`.
- `GeminiService.ContextWindowIsTail`: the window is counted in characters, while JavaScript's `length` and `substring` count UTF-16 code units. A character outside the Basic Multilingual Plane is one `char` in the model and two code units in JavaScript, so the model keeps the last 1500 characters where the code keeps the last 1500 code units, and a window that starts inside a surrogate pair cannot be represented.
- `handleConsultation`, `handleAnalysis` and `handleFileChange` are not modelled. They are network and file-reader I/O outside the research workflow. The request parts of the analysis are modelled by `GeminiService.AnalyzeParts`.
- All JSX rendering, the print stylesheet and `window.print` are left out because they are UI. The one rendering condition modelled is the download button's, in the finding below.
- `JsString.ToLowerCase` maps only the ASCII letters A–Z. It does not model the full Unicode case mapping of `toLowerCase`. The directory's entries are Arabic, which has no case, and ASCII.
- `Page.ProgressPercent` is the integer 20·stage. The code's `Math.round((stage / 5) * 100)` uses floating point, and both agree for whole stages 0..5.
- The code has no cancelled state, no check on when a reset is allowed, and no progress events; the model has none either.
- The `Message` and `AnalysisResult` types and the header component are left out. They are declarations and navigation UI with no logic.

## Findings

| source | as written | input that shows it | evidently intended | confidence | as-written member | corrected member |
|---|---|---|---|---|---|---|
| page.tsx:332 | the PDF download is offered when `researchStage === 5 && !loading` | a backend that answers stages 1 to 4 and fails stage 5: the run ends on stage 5, not loading, with the error marker as fifth section | offer the download only for a complete research, whose fifth section is a generated one | medium, not executed | `App.PrintOfferedAfterFailedLastStage` (about `Page.PrintOffered`) | `App.PrintReadyIffCompleted` (about `Page.PrintReady`) |
