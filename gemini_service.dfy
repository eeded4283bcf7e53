/** The service layer (geminiService.ts): what each call asks the provider
    for, and how the provider's outcome becomes the caller's. The provider
    is not modelled: every call takes the outcome of its request as a
    parameter. */
module GeminiService {
  import opened Text
  import opened Types
  import VideoLab
  import ChatFormat

  /** A settled request: the value it resolved with, or the message of the
      error it was rejected with. */
  datatype Outcome<T> = Ok(value: T) | Failed(message: string)

  /** How `new GoogleGenAI(...)` went. Every call builds its client before
      its `try` (lines 6, 70, 87 and 123), so a throw there is not mapped by
      the call: the call rejects with the constructor's own message. */
  datatype Setup = Ready | SetupError(message: string)

  // ---------------------------------------------------------------------
  // Threat analysis: the instruction

  datatype ContentKind = Url | Email | Sms

  /** The `type` argument as it is written into the instruction. */
  function KindName(k: ContentKind): string {
    match k
    case Url => "url"
    case Email => "email"
    case Sms => "sms"
  }

  /** Different kinds are written differently. */
  lemma KindNameInjective(a: ContentKind, b: ContentKind)
    ensures KindName(a) == KindName(b) <==> a == b
  {
    if a != b {
      assert KindName(a)[0] != KindName(b)[0] || |KindName(a)| != |KindName(b)|;
    }
  }

  /** The three layers of analysis every instruction asks for. */
  datatype Layer = PsychologicalTriggerDetection | LinguisticManipulationLayer | BehavioralRiskProfiling

  /** The extra checks asked for a URL. */
  datatype UrlCheck = HomographAttacks | Typosquatting | TldReputation | PhishingStructures

  const Layers: seq<Layer> := [PsychologicalTriggerDetection, LinguisticManipulationLayer, BehavioralRiskProfiling]

  const UrlChecks: seq<UrlCheck> := [HomographAttacks, Typosquatting, TldReputation, PhishingStructures]

  /** The structure of the system instruction: the content kind it names, the
      layers and URL checks it asks for, and the fields it asks to be
      returned, in order. */
  datatype Instruction = Instruction(kind: string, layers: seq<Layer>, urlChecks: seq<UrlCheck>, returned: seq<Field>)

  function ThreatInstruction(k: ContentKind): (ins: Instruction)
    ensures ins.kind == KindName(k)
    ensures ins.urlChecks != [] <==> k == Url
    ensures |ins.layers| == 3 && ins.returned == AllFields
  {
    Instruction(KindName(k), Layers, if k == Url then UrlChecks else [], AllFields)
  }

  /** The instruction tells the kinds apart: two kinds get the same
      instruction only when they are the same kind. */
  lemma InstructionDeterminesKind(a: ContentKind, b: ContentKind)
    ensures ThreatInstruction(a) == ThreatInstruction(b) <==> a == b
  {
    KindNameInjective(a, b);
  }

  // ---------------------------------------------------------------------
  // Threat analysis: the response schema

  datatype Property = Property(field: Field, ty: JsonType)

  datatype Schema = Schema(properties: seq<Property>, required: seq<Field>)

  const ResponseSchema := Schema(
    [Property(RiskScore, Number), Property(Level, Str), Property(ConfidenceLevel, Number),
     Property(Category, Str), Property(LinguisticManipulation, StrList),
     Property(PsychologicalTriggers, StrList), Property(Explanation, Str),
     Property(Recommendation, Str), Property(Indicators, StrList),
     Property(BehavioralRiskIndex, Number)],
    [RiskScore, Level, ConfidenceLevel, Category, Explanation, Recommendation, Indicators])

  /** The schema lists the ten declared fields in order, each with its
      declared type, and requires seven of them: all but the two lists of
      patterns and triggers and the behavioural index. */
  lemma SchemaShape()
    ensures |ResponseSchema.properties| == 10 && |ResponseSchema.required| == 7
    ensures forall k :: 0 <= k < 10 ==>
      (ResponseSchema.properties[k].field == AllFields[k]
       && ResponseSchema.properties[k].ty == DeclaredType(AllFields[k]))
    ensures forall f: Field :: (f in ResponseSchema.required
      <==> !(f == LinguisticManipulation || f == PsychologicalTriggers || f == BehavioralRiskIndex))
  {
    var props := ResponseSchema.properties;
    forall k | 0 <= k < 10
      ensures props[k].field == AllFields[k] && props[k].ty == DeclaredType(AllFields[k])
    {
    }
  }

  /** A decoded object carrying every field the schema requires. */
  predicate MeetsRequired(d: Decoded) {
    forall k :: 0 <= k < |ResponseSchema.required| ==> Present(d, ResponseSchema.required[k])
  }

  /** Meeting the schema does not make the two lists present: the result
      panel's unguarded reads are not covered by the schema. */
  lemma RequiredLeavesListsOptional() returns (d: Decoded)
    ensures MeetsRequired(d) && !ListsPresent(d)
  {
    d := Decoded(Some(0.0), Some("Low"), Some(0.0), Some([]), None, None, Some([]), Some([]), Some([]), None);
    forall k | 0 <= k < |ResponseSchema.required|
      ensures Present(d, ResponseSchema.required[k])
    {
    }
  }

  // ---------------------------------------------------------------------
  // Threat analysis: the outcome

  const CoreOffline := "Intelligence core offline."

  /** `response.text || "{}"`: a missing or empty reply is read as `{}`. */
  function JsonText(text: Option<string>): (t: string)
    ensures t != []
    ensures text.Some? && text.value != [] ==> t == text.value
    ensures text.None? || text.value == [] ==> t == "{}"
  {
    OrElse(text, "{}")
  }

  /** `analyzeThreat`. `setup` is how the client's construction went,
      `reply` the outcome of the request (its text, if any) and `parse` is
      `JSON.parse`, `None` when it throws. The parsed object is returned as it
      is, with nothing checked; once the client exists, any failure becomes
      the one message `Intelligence core offline.`, while a failure to build
      the client escapes with its own message. */
  function AnalyzeThreat(setup: Setup, reply: Outcome<Option<string>>, parse: string -> Option<Decoded>): (r: Outcome<Decoded>)
    ensures setup.SetupError? ==> r == Failed(setup.message)
    ensures setup.Ready? && r.Failed? ==> r.message == CoreOffline
    ensures r.Ok? <==> setup.Ready? && reply.Ok? && parse(JsonText(reply.value)).Some?
    ensures r.Ok? ==> r.value == parse(JsonText(reply.value)).value
  {
    match setup
    case SetupError(m) => Failed(m)
    case Ready =>
      match reply
      case Failed(_) => Failed(CoreOffline)
      case Ok(text) =>
        match parse(JsonText(text))
        case None => Failed(CoreOffline)
        case Some(d) => Ok(d)
  }

  /** An empty or missing reply is parsed as `{}`, and the empty object is
      handed on as the result, though it has none of the declared fields. */
  lemma EmptyReplyIsEmptyObject(text: Option<string>, parse: string -> Option<Decoded>)
    requires text.None? || text.value == []
    requires parse("{}") == Some(EmptyObject)
    ensures AnalyzeThreat(Ready, Ok(text), parse) == Ok(EmptyObject)
    ensures !ListsPresent(AnalyzeThreat(Ready, Ok(text), parse).value)
  {
  }

  // ---------------------------------------------------------------------
  // Threat intelligence search

  datatype Site = Site(uri: Option<string>, title: Option<string>)

  /** A grounding chunk: a web source, a maps source, or neither. */
  datatype GroundingChunk = GroundingChunk(web: Option<Site>, maps: Option<Site>)

  /** The parts of the reply the search reads: its text and
      `candidates?.[0]?.groundingMetadata?.groundingChunks`, missing when any
      link of that chain is. */
  datatype SearchResponse = SearchResponse(text: Option<string>, groundingChunks: Option<seq<GroundingChunk>>)

  datatype IntelResult = IntelResult(text: Option<string>, sources: seq<GroundingChunk>)

  const SearchFailed := "Intelligence search failed."

  const SearchLead := "Search for real-time cyber threats and phishing patterns matching: "

  const SearchFocus := ". Focus on technical indicators, geographic trends, and psychological tactics."

  /** The search request's contents, with the query embedded. */
  function SearchPrompt(query: string): (p: string)
    ensures OccursAt(p, query, |SearchLead|)
    ensures |p| == |SearchLead| + |query| + |SearchFocus|
  {
    EmbedsMiddle(SearchLead, query, SearchFocus);
    SearchLead + query + SearchFocus
  }

  /** The query a search request carries. */
  function QueryOf(p: string): string
    requires |SearchLead| + |SearchFocus| <= |p|
  {
    p[|SearchLead|..|p| - |SearchFocus|]
  }

  /** The query is recovered from the request made for it. */
  lemma SearchPromptRoundTrip(query: string)
    ensures QueryOf(SearchPrompt(query)) == query
  {
    EmbedsMiddle(SearchLead, query, SearchFocus);
  }

  /** `searchThreatIntelligence`: the reply's text and its grounding chunks
      (none when they are missing). Once the client exists, a failed request
      is not an error for the caller but the text `Intelligence search
      failed.` with no sources; a failure to build the client escapes with
      its own message. */
  function SearchThreatIntelligence(setup: Setup, response: Outcome<SearchResponse>): (r: Outcome<IntelResult>)
    ensures r.Failed? <==> setup.SetupError?
    ensures setup.SetupError? ==> r == Failed(setup.message)
    ensures setup.Ready? && response.Failed? ==> r == Ok(IntelResult(Some(SearchFailed), []))
    ensures setup.Ready? && response.Ok? ==> r.value.text == response.value.text
    ensures setup.Ready? && response.Ok? && response.value.groundingChunks.Some? ==> r.value.sources == response.value.groundingChunks.value
    ensures setup.Ready? && response.Ok? && response.value.groundingChunks.None? ==> r.value.sources == []
  {
    match setup
    case SetupError(m) => Failed(m)
    case Ready =>
      match response
      case Failed(_) => Ok(IntelResult(Some(SearchFailed), []))
      case Ok(s) => Ok(IntelResult(s.text, if s.groundingChunks.Some? then s.groundingChunks.value else []))
  }

  // ---------------------------------------------------------------------
  // Video analysis

  /** The tags the video instruction asks for, in order. */
  const VideoTags: seq<string> := ["VERDICT", "CONFIDENCE", "VISUAL_INTEGRITY", "PSYCHOLOGICAL_ANALYSIS", "TECHNICAL_FLAGS"]

  /** The format the instruction lays out: one `[TAG]: (hint)` line per tag. */
  const VideoFormat: seq<VideoLab.Entry> := [
    VideoLab.Entry("VERDICT", "(One of: CRITICAL, SUSPICIOUS, or SECURE)"),
    VideoLab.Entry("CONFIDENCE", "(0-100%)"),
    VideoLab.Entry("VISUAL_INTEGRITY", "(Explain deepfake/AI indicators)"),
    VideoLab.Entry("PSYCHOLOGICAL_ANALYSIS", "(Explain coercion/impersonation tactics)"),
    VideoLab.Entry("TECHNICAL_FLAGS", "(List any meta-data or behavioral anomalies)")]

  /** A part of the request's contents: the video inline, or the instruction,
      reduced here to the format it lays out. */
  datatype Part = InlineData(data: string, mimeType: string) | FormatRequest(format: seq<VideoLab.Entry>)

  /** The request's parts: the video with the caller's MIME type first, then
      the instruction asking for the five tags in order. */
  function VideoRequest(videoBase64: string, mimeType: string): (parts: seq<Part>)
    ensures |parts| == 2 && parts[0] == InlineData(videoBase64, mimeType)
    ensures parts[1].FormatRequest? && |parts[1].format| == |VideoTags|
    ensures forall k :: 0 <= k < |VideoTags| ==> parts[1].format[k].tag == VideoTags[k]
  {
    [InlineData(videoBase64, mimeType), FormatRequest(VideoFormat)]
  }

  const VideoLabError := "Video lab error."

  /** `analyzeVideoForThreats`: the reply's text, or, once the client
      exists, the error `Video lab error.` whatever went wrong with the
      request; a failure to build the client escapes with its own message. */
  function AnalyzeVideo(setup: Setup, response: Outcome<Option<string>>): (r: Outcome<Option<string>>)
    ensures r.Failed? <==> setup.SetupError? || response.Failed?
    ensures setup.SetupError? ==> r == Failed(setup.message)
    ensures setup.Ready? && r.Failed? ==> r.message == VideoLabError
    ensures r.Ok? ==> r.value == response.value
  {
    match setup
    case SetupError(m) => Failed(m)
    case Ready =>
      match response
      case Failed(_) => Failed(VideoLabError)
      case Ok(text) => Ok(text)
  }

  /** The page reads exactly the tags the instruction asks for, in the same
      order. */
  lemma ParserReadsRequestedTags(raw: string)
    ensures VideoLab.ParseReport(raw) == VideoLab.ParsedReport(
      VideoLab.Extract(raw, VideoTags[0]), VideoLab.Extract(raw, VideoTags[1]),
      VideoLab.Extract(raw, VideoTags[2]), VideoLab.Extract(raw, VideoTags[3]),
      VideoLab.Extract(raw, VideoTags[4]))
  {
  }

  /** A reply in the requested format: one line per requested tag. */
  function Answer(values: seq<string>): (entries: seq<VideoLab.Entry>)
    requires |values| == |VideoTags|
    ensures |entries| == |VideoTags|
    ensures forall k :: 0 <= k < |VideoTags| ==> entries[k] == VideoLab.Entry(VideoTags[k], values[k])
  {
    seq(|VideoTags|, k requires 0 <= k < |VideoTags| => VideoLab.Entry(VideoTags[k], values[k]))
  }

  lemma VideoTagsAreTags()
    ensures forall k :: 0 <= k < |VideoTags| ==> VideoLab.IsTagName(VideoTags[k])
    ensures forall i, j :: 0 <= i < j < |VideoTags| ==> VideoTags[i] != VideoTags[j]
  {
    forall k | 0 <= k < |VideoTags|
      ensures VideoLab.IsTagName(VideoTags[k])
    {
      assert IsWord(VideoTags[k]);
      WordShape(VideoTags[k]);
    }
    forall i, j | 0 <= i < j < |VideoTags|
      ensures VideoTags[i] != VideoTags[j]
    {
      assert |VideoTags[i]| != |VideoTags[j]|;
    }
  }

  /** A reply that follows the requested format, with bracket-free values,
      fills each field of the page's report with its trimmed value. */
  lemma AnswerFillsReport(values: seq<string>)
    requires |values| == |VideoTags|
    requires forall k :: 0 <= k < |values| ==> '[' !in values[k]
    ensures VideoLab.ParseReport(VideoLab.ReportText(Answer(values))) == VideoLab.ParsedReport(
      Trim(values[0]), Trim(values[1]), Trim(values[2]), Trim(values[3]), Trim(values[4]))
  {
    var entries := Answer(values);
    var raw := VideoLab.ReportText(entries);
    VideoTagsAreTags();
    forall k | 0 <= k < |VideoTags|
      ensures VideoLab.Extract(raw, VideoTags[k]) == Trim(values[k])
    {
      AnswerField(values, k);
    }
    ParserReadsRequestedTags(raw);
  }

  lemma AnswerField(values: seq<string>, k: nat)
    requires |values| == |VideoTags| && k < |VideoTags|
    requires forall k :: 0 <= k < |values| ==> '[' !in values[k]
    ensures VideoLab.Extract(VideoLab.ReportText(Answer(values)), VideoTags[k]) == Trim(values[k])
  {
    var entries := Answer(values);
    VideoTagsAreTags();
    assert VideoLab.WellFormed(entries);
    VideoLab.FirstValueOfDistinct(entries, k);
    VideoLab.ExtractFromReport(entries, VideoTags[k]);
  }

  // ---------------------------------------------------------------------
  // The chat instruction

  /** The section headers of the structured reply format, in order. */
  const ChatHeaders: seq<string> := ["VERDICT", "FORENSIC_SUMMARY", "THREAT_INDICATORS", "BEHAVIORAL_LOG", "RECOMMENDED_ACTIONS"]

  /** One `### [NAME]` block per header, holding the given bodies. */
  function ChatBlocks(bodies: seq<string>): (blocks: seq<ChatFormat.Block>)
    requires |bodies| == |ChatHeaders|
    ensures |blocks| == |ChatHeaders|
    ensures forall k :: 0 <= k < |ChatHeaders| ==> blocks[k] == ChatFormat.Block(ChatHeaders[k], bodies[k])
  {
    seq(|ChatHeaders|, k requires 0 <= k < |ChatHeaders| => ChatFormat.Block(ChatHeaders[k], bodies[k]))
  }

  /** The chat's system instruction: an opening text, then the five blocks. */
  function ChatInstruction(preamble: string, bodies: seq<string>): string
    requires |bodies| == |ChatHeaders|
  {
    preamble + ChatFormat.Reply(ChatBlocks(bodies))
  }

  lemma ChatHeadersAreNames()
    ensures forall k :: 0 <= k < |ChatHeaders| ==>
      '[' !in ChatHeaders[k] && ']' !in ChatHeaders[k] && '#' !in ChatHeaders[k]
      && '\n' !in ChatHeaders[k] && Trim(ChatHeaders[k]) == ChatHeaders[k]
  {
    forall k | 0 <= k < |ChatHeaders|
      ensures '[' !in ChatHeaders[k] && ']' !in ChatHeaders[k] && '#' !in ChatHeaders[k]
      && '\n' !in ChatHeaders[k] && Trim(ChatHeaders[k]) == ChatHeaders[k]
    {
      assert IsWord(ChatHeaders[k]);
      WordShape(ChatHeaders[k]);
    }
  }

  lemma ChatBlocksGood(bodies: seq<string>)
    requires |bodies| == |ChatHeaders|
    requires forall k :: 0 <= k < |bodies| ==> '#' !in bodies[k]
    ensures forall k :: 0 <= k < |ChatHeaders| ==> ChatFormat.GoodBlock(ChatBlocks(bodies)[k])
  {
    ChatHeadersAreNames();
  }

  /** A reply in the instructed format (at most whitespace before the first
      header, bodies without `#`) renders as five sections titled VERDICT,
      FORENSIC_SUMMARY, THREAT_INDICATORS, BEHAVIORAL_LOG and
      RECOMMENDED_ACTIONS, each holding its trimmed body. */
  lemma StructuredReplySections(preamble: string, bodies: seq<string>)
    requires '#' !in preamble && IsBlank(preamble)
    requires |bodies| == |ChatHeaders|
    requires forall k :: 0 <= k < |bodies| ==> '#' !in bodies[k]
    ensures ChatFormat.FormatMessage(ChatInstruction(preamble, bodies)).Sections?
    ensures |ChatFormat.FormatMessage(ChatInstruction(preamble, bodies)).sections| == |ChatHeaders|
    ensures forall k :: 0 <= k < |ChatHeaders| ==>
      ChatFormat.FormatMessage(ChatInstruction(preamble, bodies)).sections[k]
        == ChatFormat.Section(ChatHeaders[k], Trim(bodies[k]))
  {
    var blocks := ChatBlocks(bodies);
    ChatBlocksGood(bodies);
    ChatHeadersAreNames();
    ChatFormat.FormatBlocks(preamble, blocks);
  }

  /** The instruction itself, with its opening text, renders as six
      sections: the opening text's own, then the five headers in order. */
  lemma InstructionSections(preamble: string, bodies: seq<string>)
    requires '#' !in preamble && !IsBlank(preamble)
    requires |bodies| == |ChatHeaders|
    requires forall k :: 0 <= k < |bodies| ==> '#' !in bodies[k]
    ensures ChatFormat.FormatMessage(ChatInstruction(preamble, bodies)).Sections?
    ensures |ChatFormat.FormatMessage(ChatInstruction(preamble, bodies)).sections| == 1 + |ChatHeaders|
    ensures forall k :: 0 <= k < |ChatHeaders| ==>
      ChatFormat.FormatMessage(ChatInstruction(preamble, bodies)).sections[k + 1]
        == ChatFormat.Section(ChatHeaders[k], Trim(bodies[k]))
  {
    var blocks := ChatBlocks(bodies);
    ChatBlocksGood(bodies);
    ChatHeadersAreNames();
    ChatFormat.FormatAfterPreamble(preamble, blocks);
  }
}
