/** The analyzer page (pages/Analyzer.tsx): the request each submission
    makes from the active tab, the page state it updates, and what the
    result and intelligence panels show. */
module Analyzer {
  import opened Text
  import opened Types
  import opened GeminiService

  // ---------------------------------------------------------------------
  // The result panel

  datatype Band = Red | Amber | Green

  /** The colour of the risk gauge. */
  function RiskBand(score: real): Band {
    if score > 80.0 then Red else if score > 40.0 then Amber else Green
  }

  /** How alarming a band is, for comparing bands. */
  function Severity(b: Band): nat {
    match b
    case Green => 0
    case Amber => 1
    case Red => 2
  }

  /** The bands split the scores at 80 and 40, both bounds excluded from
      the higher band, and a higher score never gets a milder band. */
  lemma RiskBandPartition(score: real, higher: real)
    ensures RiskBand(score) == Red <==> score > 80.0
    ensures RiskBand(score) == Amber <==> 40.0 < score <= 80.0
    ensures RiskBand(score) == Green <==> score <= 40.0
    ensures score <= higher ==> Severity(RiskBand(score)) <= Severity(RiskBand(higher))
  {
  }

  /** A missing score compares false with both bounds and is shown green. */
  function ScoreBand(score: Option<real>): (b: Band)
    ensures score.None? ==> b == Green
    ensures score.Some? ==> b == RiskBand(score.value)
  {
    if score.Some? then RiskBand(score.value) else Green
  }

  /** The level badge is the alarming one exactly for the string `Critical`. */
  predicate CriticalBadge(d: Decoded) {
    d.threatLevel == Some("Critical")
  }

  /** For a record of the declared shape the badge is alarming exactly for the
      Critical level. */
  lemma CriticalBadgeOfRecord(a: ThreatAnalysis)
    ensures CriticalBadge(Encode(a)) <==> a.threatLevel == Critical
  {
    if a.threatLevel != Critical {
      assert |LevelName(a.threatLevel)| != |"Critical"|;
    }
  }

  /** What a list panel shows: the items, or `NONE_DETECTED` when the list
      is empty. */
  datatype ListView = NoneDetected | Items(items: seq<string>)

  /** The patterns and triggers panels, as written: the items are drawn with
      a guard (`?.map`) but the emptiness test reads `.length` without one, so
      the list must be present. */
  function ListPanel(list: Option<seq<string>>): (v: ListView)
    requires list.Some?
    ensures v.NoneDetected? <==> list.value == []
    ensures v.Items? ==> v.items == list.value
  {
    if |list.value| == 0 then NoneDetected else Items(list.value)
  }

  /** The panels with the emptiness test guarded as well, a missing list
      counting as an empty one. */
  function GuardedListPanel(list: Option<seq<string>>): (v: ListView)
    ensures v.NoneDetected? <==> list.None? || list.value == []
    ensures v.Items? ==> list.Some? && v.items == list.value
  {
    ListPanel(Some(if list.Some? then list.value else []))
  }

  /** The guarded panel shows what the written one shows wherever that one
      can be shown, and `NONE_DETECTED` for a missing list. */
  lemma GuardedListPanelAgrees(list: Option<seq<string>>)
    ensures list.Some? ==> GuardedListPanel(list) == ListPanel(list)
    ensures list.None? ==> GuardedListPanel(list) == NoneDetected
  {
  }

  /** A result the page accepts without the lists: the one an empty reply
      gives. Drawing the written panels for it fails. */
  lemma EmptyReplyBreaksListPanels(text: Option<string>, parse: string -> Option<Decoded>)
    requires text.None? || text.value == []
    requires parse("{}") == Some(EmptyObject)
    ensures AnalyzeThreat(Ready, Ok(text), parse).Ok?
    ensures AnalyzeThreat(Ready, Ok(text), parse).value.linguisticManipulation.None?
    ensures GuardedListPanel(AnalyzeThreat(Ready, Ok(text), parse).value.linguisticManipulation) == NoneDetected
  {
    EmptyReplyIsEmptyObject(text, parse);
  }

  /** An indicator is drawn in red when it mentions a homograph or a typo. */
  predicate IsHighlighted(item: string) {
    Contains(ToLower(item), "homograph") || Contains(ToLower(item), "typo")
  }

  /** The test ignores case. */
  lemma HighlightIgnoresCase(item: string)
    ensures IsHighlighted(item) <==> OccursIgnoringCase(item, "homograph") || OccursIgnoringCase(item, "typo")
  {
    assert ToLower("homograph") == "homograph";
    assert ToLower("typo") == "typo";
    LowerSearchIgnoresCase(item, "homograph");
    LowerSearchIgnoresCase(item, "typo");
  }

  datatype Flag = Flag(text: string, highlighted: bool)

  datatype IndicatorView = CleanForensics | Flags(flags: seq<Flag>)

  /** The indicators panel, guarded: `CLEAN_FORENSICS` when the list is
      missing or empty, else every indicator in order with its highlight. */
  function IndicatorPanel(indicators: Option<seq<string>>): (v: IndicatorView)
    ensures v.CleanForensics? <==> indicators.None? || indicators.value == []
    ensures v.Flags? ==> |v.flags| == |indicators.value|
    ensures v.Flags? ==> forall k :: 0 <= k < |v.flags| ==>
      v.flags[k] == Flag(indicators.value[k], IsHighlighted(indicators.value[k]))
  {
    if indicators.None? || |indicators.value| == 0 then CleanForensics
    else
      var items := indicators.value;
      Flags(seq(|items|, k requires 0 <= k < |items| => Flag(items[k], IsHighlighted(items[k]))))
  }

  /** The parts of the result panel that depend on the analysis. */
  datatype ResultView = ResultView(band: Band, critical: bool, patterns: ListView, triggers: ListView, indicators: IndicatorView)

  /** The result panel, with the list panels guarded. Where the page as
      written can draw it (both lists present) it shows the same; a missing
      list shows `NONE_DETECTED`. */
  function ResultPanel(d: Decoded): (v: ResultView)
    ensures v.band == ScoreBand(d.riskScore) && v.critical == CriticalBadge(d)
    ensures v.indicators == IndicatorPanel(d.indicators)
    ensures ListsPresent(d) ==> v.patterns == ListPanel(d.linguisticManipulation)
    ensures ListsPresent(d) ==> v.triggers == ListPanel(d.psychologicalTriggers)
    ensures d.linguisticManipulation.None? ==> v.patterns == NoneDetected
    ensures d.psychologicalTriggers.None? ==> v.triggers == NoneDetected
  {
    GuardedListPanelAgrees(d.linguisticManipulation);
    GuardedListPanelAgrees(d.psychologicalTriggers);
    ResultView(ScoreBand(d.riskScore), CriticalBadge(d), GuardedListPanel(d.linguisticManipulation),
      GuardedListPanel(d.psychologicalTriggers), IndicatorPanel(d.indicators))
  }

  /** A record of the declared shape can always be drawn: its band follows
      its score, its badge its level, and its panels its lists. */
  lemma ResultPanelOfRecord(a: ThreatAnalysis)
    ensures ListsPresent(Encode(a))
    ensures ResultPanel(Encode(a)).band == RiskBand(a.riskScore)
    ensures ResultPanel(Encode(a)).critical <==> a.threatLevel == Critical
    ensures ResultPanel(Encode(a)).patterns.NoneDetected? <==> a.linguisticManipulation == []
    ensures ResultPanel(Encode(a)).triggers.NoneDetected? <==> a.psychologicalTriggers == []
    ensures ResultPanel(Encode(a)).indicators.CleanForensics? <==> a.indicators == []
  {
    CriticalBadgeOfRecord(a);
  }

  // ---------------------------------------------------------------------
  // The grounding links of the intelligence panel

  function UriOf(site: Option<Site>): Option<string> {
    if site.Some? then site.value.uri else None
  }

  function TitleOf(site: Option<Site>): Option<string> {
    if site.Some? then site.value.title else None
  }

  datatype Link = Link(url: string, title: string)

  const DefaultTitle := "Verification Link"

  /** The link drawn for a chunk: the web URL, else the maps one; the web
      title, else the maps one, else `Verification Link`. A chunk with no URL
      draws nothing. */
  function LinkOf(c: GroundingChunk): (l: Option<Link>)
    ensures l.Some? <==> Truthy(UriOf(c.web)) || Truthy(UriOf(c.maps))
    ensures l.Some? ==> l.value.url != [] && l.value.title != []
    ensures l.Some? && Truthy(UriOf(c.web)) ==> l.value.url == UriOf(c.web).value
    ensures l.Some? && !Truthy(UriOf(c.web)) ==> l.value.url == UriOf(c.maps).value
    ensures l.Some? ==>
      (l.value.title == if Truthy(TitleOf(c.web)) then TitleOf(c.web).value
                        else if Truthy(TitleOf(c.maps)) then TitleOf(c.maps).value
                        else DefaultTitle)
  {
    var url := Or(UriOf(c.web), UriOf(c.maps));
    var title := Or(Or(TitleOf(c.web), TitleOf(c.maps)), Some(DefaultTitle));
    if Truthy(url) then Some(Link(url.value, title.value)) else None
  }

  /** The links drawn for the sources, in order, skipping those without URL. */
  function SourceLinks(chunks: seq<GroundingChunk>): (links: seq<Link>)
    ensures |links| <= |chunks|
    ensures forall k :: 0 <= k < |links| ==> links[k].url != [] && links[k].title != []
    decreases |chunks|
  {
    if chunks == [] then []
    else
      var rest := SourceLinks(chunks[1..]);
      match LinkOf(chunks[0])
      case None => rest
      case Some(l) => [l] + rest
  }

  /** Links are drawn chunk by chunk. */
  lemma {:induction false} SourceLinksConcat(a: seq<GroundingChunk>, b: seq<GroundingChunk>)
    ensures SourceLinks(a + b) == SourceLinks(a) + SourceLinks(b)
    decreases |a|
  {
    if a == [] {
      assert a + b == b;
    } else {
      assert (a + b)[1..] == a[1..] + b;
      assert (a + b)[0] == a[0];
      SourceLinksConcat(a[1..], b);
    }
  }

  /** When every source has a URL, there is one link per source, in order. */
  lemma {:induction false} SourceLinksAllDrawn(chunks: seq<GroundingChunk>)
    requires forall k :: 0 <= k < |chunks| ==> LinkOf(chunks[k]).Some?
    ensures |SourceLinks(chunks)| == |chunks|
    ensures forall k :: 0 <= k < |chunks| ==> SourceLinks(chunks)[k] == LinkOf(chunks[k]).value
    decreases |chunks|
  {
    if chunks != [] {
      var rest := chunks[1..];
      assert forall k :: 0 <= k < |rest| ==> rest[k] == chunks[k + 1];
      SourceLinksAllDrawn(rest);
    }
  }

  /** Sources none of which has a URL draw no link. */
  lemma {:induction false} SourceLinksNoneDrawn(chunks: seq<GroundingChunk>)
    requires forall k :: 0 <= k < |chunks| ==> LinkOf(chunks[k]).None?
    ensures SourceLinks(chunks) == []
    decreases |chunks|
  {
    if chunks != [] {
      var rest := chunks[1..];
      assert forall k :: 0 <= k < |rest| ==> rest[k] == chunks[k + 1];
      SourceLinksNoneDrawn(rest);
    }
  }

  // ---------------------------------------------------------------------
  // The page state

  datatype Tab = UrlTab | EmailTab | SmsTab | IntelligenceTab

  /** The content kind of an analysis tab. */
  function TabKind(t: Tab): ContentKind
    requires t != IntelligenceTab
  {
    match t
    case UrlTab => Url
    case EmailTab => Email
    case SmsTab => Sms
  }

  /** The service call a submission makes. */
  datatype Request = ThreatRequest(kind: ContentKind, content: string) | SearchRequest(query: string)

  /** The intelligence tab searches for the input; every other tab analyses
      it as its own kind of content. */
  function RequestFor(tab: Tab, input: string): (r: Request)
    ensures r.SearchRequest? <==> tab == IntelligenceTab
    ensures r.SearchRequest? ==> r.query == input
    ensures r.ThreatRequest? ==> r.kind == TabKind(tab) && r.content == input
  {
    if tab == IntelligenceTab then SearchRequest(input) else ThreatRequest(TabKind(tab), input)
  }

  /** The analysis tabs ask for different kinds of content. */
  lemma RequestKindsDiffer(a: Tab, b: Tab, input: string)
    requires a != IntelligenceTab && b != IntelligenceTab
    ensures RequestFor(a, input) == RequestFor(b, input) <==> a == b
  {
  }

  const LinkFailed := "Intelligence Link Failed."

  /** `err.message || "Intelligence Link Failed."`. */
  function ErrorMessage(message: string): (m: string)
    ensures m != []
    ensures message != [] ==> m == message
    ensures message == [] ==> m == LinkFailed
  {
    OrElse(Some(message), LinkFailed)
  }

  /** A failed analysis shows `Intelligence core offline.` once the client
      exists, so the fallback is reached only through a failure to build the
      client. */
  lemma AnalysisErrorMessage(setup: Setup, reply: Outcome<Option<string>>, parse: string -> Option<Decoded>)
    requires AnalyzeThreat(setup, reply, parse).Failed?
    ensures ErrorMessage(AnalyzeThreat(setup, reply, parse).message)
      == if setup.Ready? then CoreOffline else ErrorMessage(setup.message)
    ensures setup.Ready? ==> ErrorMessage(AnalyzeThreat(setup, reply, parse).message) != LinkFailed
  {
    assert |CoreOffline| != |LinkFailed|;
  }

  /** A search shows an error only when its client could not be built. */
  lemma SearchErrorMessage(setup: Setup, response: Outcome<SearchResponse>)
    ensures SearchThreatIntelligence(setup, response).Failed? <==> setup.SetupError?
    ensures setup.SetupError? ==>
      ErrorMessage(SearchThreatIntelligence(setup, response).message) == ErrorMessage(setup.message)
  {
  }

  class AnalyzerPage {
    var activeTab: Tab
    var input: string
    var isAnalyzing: bool
    var result: Option<Decoded>
    var intelResult: Option<IntelResult>
    var error: Option<string>

    /** At most one result panel at a time, none beside an error, and none
        while a request is under way. */
    ghost predicate Valid()
      reads this
    {
      !(result.Some? && intelResult.Some?)
      && (error.Some? ==> result.None? && intelResult.None?)
      && (isAnalyzing ==> result.None? && intelResult.None? && error.None?)
    }

    constructor()
      ensures activeTab == UrlTab && input == [] && !isAnalyzing
      ensures result.None? && intelResult.None? && error.None?
      ensures Valid()
    {
      activeTab := UrlTab;
      input := [];
      isAnalyzing := false;
      result := None;
      intelResult := None;
      error := None;
    }

    /** A tab switch clears both results and the input, and keeps the error. */
    method SelectTab(t: Tab)
      requires Valid()
      modifies this
      ensures activeTab == t && input == []
      ensures result.None? && intelResult.None?
      ensures error == old(error) && isAnalyzing == old(isAnalyzing)
      ensures Valid()
    {
      activeTab := t;
      result := None;
      intelResult := None;
      input := [];
    }

    method SetInput(s: string)
      requires Valid()
      modifies this
      ensures input == s
      ensures activeTab == old(activeTab) && isAnalyzing == old(isAnalyzing)
      ensures result == old(result) && intelResult == old(intelResult) && error == old(error)
      ensures Valid()
    {
      input := s;
    }

    /** The start of `handleAnalyze`: nothing happens for a blank input;
        otherwise both results and the error are cleared, the page is busy,
        and the request for the active tab is made. */
    method Start() returns (request: Option<Request>)
      requires Valid()
      modifies this
      ensures IsBlank(old(input)) ==> request.None?
      ensures IsBlank(old(input)) ==>
        (isAnalyzing == old(isAnalyzing) && result == old(result)
         && intelResult == old(intelResult) && error == old(error))
      ensures !IsBlank(old(input)) ==> request == Some(RequestFor(activeTab, input))
      ensures !IsBlank(old(input)) ==> isAnalyzing && result.None? && intelResult.None? && error.None?
      ensures activeTab == old(activeTab) && input == old(input)
      ensures Valid()
    {
      if IsBlank(input) {
        request := None;
      } else {
        isAnalyzing := true;
        result := None;
        intelResult := None;
        error := None;
        request := Some(RequestFor(activeTab, input));
      }
    }

    /** The analysis settled: its object becomes the result, or its message
        the error; the page is no longer busy. */
    method FinishAnalysis(outcome: Outcome<Decoded>)
      requires Valid() && isAnalyzing
      modifies this
      ensures outcome.Ok? ==> result == Some(outcome.value) && error.None?
      ensures outcome.Failed? ==> result.None? && error == Some(ErrorMessage(outcome.message))
      ensures intelResult.None? && !isAnalyzing
      ensures activeTab == old(activeTab) && input == old(input)
      ensures Valid()
    {
      isAnalyzing := false;
      match outcome
      case Ok(d) => result := Some(d);
      case Failed(m) => error := Some(ErrorMessage(m));
    }

    /** The search settled: its result is shown, or its message becomes the
        error; the page is no longer busy. */
    method FinishSearch(outcome: Outcome<IntelResult>)
      requires Valid() && isAnalyzing
      modifies this
      ensures outcome.Ok? ==> intelResult == Some(outcome.value) && error.None?
      ensures outcome.Failed? ==> intelResult.None? && error == Some(ErrorMessage(outcome.message))
      ensures result.None? && !isAnalyzing
      ensures activeTab == old(activeTab) && input == old(input)
      ensures Valid()
    {
      isAnalyzing := false;
      match outcome
      case Ok(intel) => intelResult := Some(intel);
      case Failed(m) => error := Some(ErrorMessage(m));
    }

    /** `handleAnalyze` from start to end, given how each service call would
        settle. */
    method Analyze(setup: Setup, threatReply: Outcome<Option<string>>, parse: string -> Option<Decoded>,
                   searchReply: Outcome<SearchResponse>)
      returns (request: Option<Request>)
      requires Valid()
      modifies this
      ensures IsBlank(old(input)) ==>
        (request.None? && isAnalyzing == old(isAnalyzing)
         && result == old(result) && intelResult == old(intelResult) && error == old(error))
      ensures !IsBlank(old(input)) ==> request == Some(RequestFor(old(activeTab), old(input))) && !isAnalyzing
      ensures !IsBlank(old(input)) && old(activeTab) == IntelligenceTab && setup.Ready? ==>
        (intelResult == Some(SearchThreatIntelligence(setup, searchReply).value) && result.None? && error.None?)
      ensures !IsBlank(old(input)) && old(activeTab) != IntelligenceTab ==>
        (intelResult.None?
         && (AnalyzeThreat(setup, threatReply, parse).Ok? ==>
               result == Some(AnalyzeThreat(setup, threatReply, parse).value) && error.None?)
         && (AnalyzeThreat(setup, threatReply, parse).Failed? && setup.Ready? ==>
               result.None? && error == Some(CoreOffline)))
      ensures !IsBlank(old(input)) && setup.SetupError? ==>
        (result.None? && intelResult.None? && error == Some(ErrorMessage(setup.message)))
      ensures activeTab == old(activeTab) && input == old(input)
      ensures Valid()
    {
      request := Start();
      if request.Some? {
        match request.value
        case SearchRequest(_) =>
          FinishSearch(SearchThreatIntelligence(setup, searchReply));
        case ThreatRequest(_, _) =>
          var outcome := AnalyzeThreat(setup, threatReply, parse);
          if outcome.Failed? {
            AnalysisErrorMessage(setup, threatReply, parse);
          }
          FinishAnalysis(outcome);
      }
    }
  }
}
