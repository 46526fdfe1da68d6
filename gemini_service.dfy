/**
 * The pure parts of the service layer that talks to the text-generation
 * backend: what goes into a research-stage request, the inline parts of a
 * contract-analysis request, and the citation list read back from a search
 * response. The network calls themselves are not part of this module.
 */
module GeminiService {

  import opened Wrappers
  import opened JsString

  /** Number of stages of a research run. */
  const StageCount := 5

  /** Number of trailing characters of earlier stages sent as context. */
  const ContextLimit := 1500

  /** Stand-ins for the five fixed per-stage instructions (framing, theory,
      applied analysis, critical or comparative study, conclusion). Their
      wording is domain content; only their number and distinctness matter. */
  const StagesInfo: seq<string> := [
    "stage 1: title, introduction, research problem and method",
    "stage 2: first chapter, theoretical and conceptual grounding",
    "stage 3: second chapter, applied analysis of case law",
    "stage 4: third chapter, critical or comparative study",
    "stage 5: conclusion, recommendations and bibliography"
  ]

  lemma StagesInfoShape()
    ensures |StagesInfo| == StageCount
    ensures forall i, j :: 0 <= i < j < |StagesInfo| ==> StagesInfo[i] != StagesInfo[j]
  {
  }

  /** `stagesInfo[stage - 1]`: defined for the stages 1 to 5, `undefined` otherwise. */
  function StageInstruction(stage: int): (r: Option<string>)
    ensures r.Some? <==> 1 <= stage <= StageCount
    ensures r.Some? ==> r.value in StagesInfo
  {
    if 1 <= stage <= |StagesInfo| then Some(StagesInfo[stage - 1]) else None
  }

  /** Two different stages never receive the same instruction. */
  lemma StageInstructionInjective(s1: int, s2: int)
    requires StageInstruction(s1).Some? && StageInstruction(s1) == StageInstruction(s2)
    ensures s1 == s2
  {
    StagesInfoShape();
  }

  /** `previousContent.substring(previousContent.length - 1500)`. */
  function ContextWindow(previousContent: string): (w: string)
  {
    Substring(previousContent, |previousContent| - ContextLimit)
  }

  /** The context window is the tail of the earlier content: its last 1500
      characters (code units in JavaScript), or all of it when it is shorter. */
  lemma ContextWindowIsTail(previousContent: string)
    ensures IsSuffix(ContextWindow(previousContent), previousContent)
    ensures |ContextWindow(previousContent)| ==
      if |previousContent| <= ContextLimit then |previousContent| else ContextLimit
    ensures |previousContent| <= ContextLimit ==> ContextWindow(previousContent) == previousContent
  {
  }

  /** What one research-stage prompt is made of; its instruction is
      `StageInstruction(stage)`. */
  datatype StageRequest = StageRequest(topic: string, stage: int, context: string)

  /** The request `generateResearchStage(topic, stage, previousContent)` sends;
      an omitted `previousContent` is the empty string. */
  function BuildStageRequest(topic: string, stage: int, previousContent: string := ""): (req: StageRequest)
  {
    StageRequest(topic, stage, ContextWindow(previousContent))
  }

  /** A stage request keeps the topic and the stage, and its context is the
      tail of the earlier content. */
  lemma StageRequestFields(topic: string, stage: int, previousContent: string)
    ensures var req := BuildStageRequest(topic, stage, previousContent);
      && req.topic == topic && req.stage == stage
      && IsSuffix(req.context, previousContent)
      && |req.context| == if |previousContent| <= ContextLimit then |previousContent| else ContextLimit
  {
    ContextWindowIsTail(previousContent);
  }

  /** A request built without earlier content carries an empty context. */
  lemma OmittedContextIsEmpty(topic: string, stage: int)
    ensures BuildStageRequest(topic, stage).context == []
  {
  }

  // ---------------------------------------------------------------------
  // Contract analysis: the `parts` of the request.

  /** Stand-in for the fixed analysis instruction that precedes the user's text. */
  const AnalyzePrompt := "Analyse this legal document. Context: "

  const ImageMimeType := "image/jpeg"

  datatype Part =
    | TextPart(text: string)
    | InlineDataPart(mimeType: string, data: Option<string>)

  /** `dataUrl.split(',')[1]`: the field after the first comma, `undefined` when there is none. */
  function DataUrlPayload(dataUrl: string): (r: Option<string>)
    ensures r.Some? <==> ',' in dataUrl
    ensures r.Some? ==> ',' !in r.value
  {
    var fields := Split(dataUrl, ',');
    if |fields| >= 2 then Some(fields[1])
    else None
  }

  /** For a data URL `header,payload` the payload is what is sent. */
  lemma {:induction false} DataUrlPayloadOfDataUrl(header: string, payload: string)
    requires ',' !in header && ',' !in payload
    ensures DataUrlPayload(header + [','] + payload) == Some(payload)
  {
    SplitJoin([header, payload], ',');
    assert Join([header, payload], ',') == header + [','] + payload;
  }

  /** The `parts` of `analyzeContract(text, imageData)`. */
  function AnalyzeParts(text: string, imageData: Option<string>): (parts: seq<Part>)
    ensures 1 <= |parts| <= 2
    ensures parts[0] == TextPart(AnalyzePrompt + text)
    ensures |parts| == 2 <==> imageData.Some? && imageData.value != []
    ensures |parts| == 2 ==>
      (parts[1].InlineDataPart? && parts[1].mimeType == ImageMimeType
       && parts[1].data == DataUrlPayload(imageData.value))
  {
    var parts := [TextPart(AnalyzePrompt + text)];
    if imageData.Some? && imageData.value != [] then
      parts + [InlineDataPart(ImageMimeType, DataUrlPayload(imageData.value))]
    else parts
  }

  // ---------------------------------------------------------------------
  // Legal radar: citations read from the grounding metadata of a search response.

  datatype Web = Web(title: Option<string>, uri: Option<string>)
  datatype GroundingChunk = GroundingChunk(web: Option<Web>)
  datatype GroundingMetadata = GroundingMetadata(groundingChunks: Option<seq<GroundingChunk>>)
  datatype Candidate = Candidate(groundingMetadata: Option<GroundingMetadata>)
  datatype SearchResponse = SearchResponse(text: Option<string>, candidates: Option<seq<Candidate>>)

  datatype Source = Source(title: string, url: string)

  const DefaultTitle := "مرجع رسمي"
  const DefaultUrl := "#"

  /** `value || fallback` for a string that may be `undefined`: the empty string is falsy too. */
  function OrElse(value: Option<string>, fallback: string): (r: string)
    ensures value.Some? && value.value != [] ==> r == value.value
    ensures !(value.Some? && value.value != []) ==> r == fallback
  {
    if value.Some? && value.value != [] then value.value else fallback
  }

  /** The source shown for one grounding chunk. */
  function SourceOf(chunk: GroundingChunk): (src: Source)
    ensures src.title != [] && src.url != []
    ensures chunk.web.None? ==> src == Source(DefaultTitle, DefaultUrl)
    ensures chunk.web.Some? ==>
      (src.title == OrElse(chunk.web.value.title, DefaultTitle)
       && src.url == OrElse(chunk.web.value.uri, DefaultUrl))
  {
    match chunk.web
    case None => Source(DefaultTitle, DefaultUrl)
    case Some(w) => Source(OrElse(w.title, DefaultTitle), OrElse(w.uri, DefaultUrl))
  }

  /** `chunks.map(...)`: one source per chunk, in chunk order. */
  function SourcesOf(chunks: seq<GroundingChunk>): (sources: seq<Source>)
    ensures |sources| == |chunks|
    ensures forall i :: 0 <= i < |chunks| ==> sources[i] == SourceOf(chunks[i])
  {
    if chunks == [] then []
    else [SourceOf(chunks[0])] + SourcesOf(chunks[1..])
  }

  /** `response.candidates?.[0]?.groundingMetadata?.groundingChunks`. */
  function GroundingChunksOf(response: SearchResponse): (chunks: Option<seq<GroundingChunk>>)
    ensures chunks.Some? <==>
      && response.candidates.Some? && |response.candidates.value| > 0
      && response.candidates.value[0].groundingMetadata.Some?
      && response.candidates.value[0].groundingMetadata.value.groundingChunks.Some?
  {
    match response.candidates
    case None => None
    case Some(cs) =>
      if cs == [] then None
      else match cs[0].groundingMetadata
        case None => None
        case Some(m) => m.groundingChunks
  }

  /** The `sources` returned by `legalRadarSearch`: empty when any link of
      the optional chain is missing. */
  function RadarSources(response: SearchResponse): (sources: seq<Source>)
    ensures GroundingChunksOf(response).None? ==> sources == []
    ensures GroundingChunksOf(response).Some? ==>
      var chunks := GroundingChunksOf(response).value;
      |sources| == |chunks| && forall i :: 0 <= i < |chunks| ==> sources[i] == SourceOf(chunks[i])
    ensures forall i :: 0 <= i < |sources| ==> sources[i].title != [] && sources[i].url != []
  {
    match GroundingChunksOf(response)
    case None => []
    case Some(chunks) => SourcesOf(chunks)
  }
}
