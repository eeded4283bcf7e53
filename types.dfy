/** The analysis record of types.ts, and the view of it the analyzer page
    really holds: the service casts whatever JSON the model sent to the
    record without checking it, so every field may be missing. */
module Types {
  import opened Text

  datatype ThreatLevel = Low | Medium | High | Critical

  /** `ThreatAnalysis` as the interface declares it. */
  datatype ThreatAnalysis = ThreatAnalysis(
    riskScore: real,
    threatLevel: ThreatLevel,
    confidenceLevel: real,
    category: string,
    linguisticManipulation: seq<string>,
    psychologicalTriggers: seq<string>,
    explanation: string,
    recommendation: string,
    indicators: seq<string>,
    behavioralRiskIndex: real)

  /** What `JSON.parse(text) as ThreatAnalysis` gives: any field may be
      absent, and the level is whatever string was sent. */
  datatype Decoded = Decoded(
    riskScore: Option<real>,
    threatLevel: Option<string>,
    confidenceLevel: Option<real>,
    category: Option<string>,
    linguisticManipulation: Option<seq<string>>,
    psychologicalTriggers: Option<seq<string>>,
    explanation: Option<string>,
    recommendation: Option<string>,
    indicators: Option<seq<string>>,
    behavioralRiskIndex: Option<real>)

  /** The fields of the record, in declaration order. */
  datatype Field =
    | RiskScore | Level | ConfidenceLevel | Category | LinguisticManipulation
    | PsychologicalTriggers | Explanation | Recommendation | Indicators | BehavioralRiskIndex

  const AllFields: seq<Field> := [
    RiskScore, Level, ConfidenceLevel, Category, LinguisticManipulation,
    PsychologicalTriggers, Explanation, Recommendation, Indicators, BehavioralRiskIndex]

  /** The JSON type the declaration gives each field: numbers, strings (the
      level among them) and lists of strings. */
  datatype JsonType = Number | Str | StrList

  function DeclaredType(f: Field): JsonType {
    match f
    case RiskScore | ConfidenceLevel | BehavioralRiskIndex => Number
    case LinguisticManipulation | PsychologicalTriggers | Indicators => StrList
    case Level | Category | Explanation | Recommendation => Str
  }

  /** Whether the decoded object carries the field at all. */
  predicate Present(d: Decoded, f: Field) {
    match f
    case RiskScore => d.riskScore.Some?
    case Level => d.threatLevel.Some?
    case ConfidenceLevel => d.confidenceLevel.Some?
    case Category => d.category.Some?
    case LinguisticManipulation => d.linguisticManipulation.Some?
    case PsychologicalTriggers => d.psychologicalTriggers.Some?
    case Explanation => d.explanation.Some?
    case Recommendation => d.recommendation.Some?
    case Indicators => d.indicators.Some?
    case BehavioralRiskIndex => d.behavioralRiskIndex.Some?
  }

  /** What `JSON.parse("{}")` gives: no field at all. */
  const EmptyObject := Decoded(None, None, None, None, None, None, None, None, None, None)

  /** The two lists the result panel reads without a guard
      (pages/Analyzer.tsx:212 and :223). */
  predicate ListsPresent(d: Decoded) {
    d.linguisticManipulation.Some? && d.psychologicalTriggers.Some?
  }

  function LevelName(l: ThreatLevel): string {
    match l
    case Low => "Low"
    case Medium => "Medium"
    case High => "High"
    case Critical => "Critical"
  }

  /** The level a string names, if any. */
  function ParseLevel(s: string): (r: Option<ThreatLevel>)
    ensures r.Some? ==> LevelName(r.value) == s
  {
    if s == "Low" then Some(Low)
    else if s == "Medium" then Some(Medium)
    else if s == "High" then Some(High)
    else if s == "Critical" then Some(Critical)
    else None
  }

  /** Every level is read back from its own name. */
  lemma LevelNameRoundTrip(l: ThreatLevel)
    ensures ParseLevel(LevelName(l)) == Some(l)
  {
    match l
    case Low =>
    case Medium =>
      assert |LevelName(l)| != |"Low"|;
    case High =>
      assert |LevelName(l)| != |"Low"|;
      assert LevelName(l)[0] != "Medium"[0];
    case Critical =>
      assert |LevelName(l)| != |"Low"| && LevelName(l)[0] != "Medium"[0] && |LevelName(l)| != |"High"|;
  }

  /** The record as the service promises it, seen as a decoded object. */
  function Encode(a: ThreatAnalysis): (d: Decoded)
    ensures forall f :: Present(d, f)
    ensures ListsPresent(d)
  {
    Decoded(
      Some(a.riskScore), Some(LevelName(a.threatLevel)), Some(a.confidenceLevel), Some(a.category),
      Some(a.linguisticManipulation), Some(a.psychologicalTriggers), Some(a.explanation),
      Some(a.recommendation), Some(a.indicators), Some(a.behavioralRiskIndex))
  }

  /** The record a decoded object stands for when it actually has the
      declared shape: every field present and a known level. */
  function Conform(d: Decoded): (r: Option<ThreatAnalysis>)
    ensures r.Some? <==> (forall f :: Present(d, f)) && d.threatLevel.Some? && ParseLevel(d.threatLevel.value).Some?
  {
    if d.riskScore.Some? && d.threatLevel.Some? && d.confidenceLevel.Some? && d.category.Some?
       && d.linguisticManipulation.Some? && d.psychologicalTriggers.Some? && d.explanation.Some?
       && d.recommendation.Some? && d.indicators.Some? && d.behavioralRiskIndex.Some?
    then
      match ParseLevel(d.threatLevel.value)
      case None => None
      case Some(l) =>
        Some(ThreatAnalysis(
          d.riskScore.value, l, d.confidenceLevel.value, d.category.value,
          d.linguisticManipulation.value, d.psychologicalTriggers.value, d.explanation.value,
          d.recommendation.value, d.indicators.value, d.behavioralRiskIndex.value))
    else
      assert !Present(d, RiskScore) || !Present(d, Level) || !Present(d, ConfidenceLevel)
        || !Present(d, Category) || !Present(d, LinguisticManipulation)
        || !Present(d, PsychologicalTriggers) || !Present(d, Explanation)
        || !Present(d, Recommendation) || !Present(d, Indicators) || !Present(d, BehavioralRiskIndex);
      None
  }

  /** A promised record survives being seen as a decoded object. */
  lemma ConformEncode(a: ThreatAnalysis)
    ensures Conform(Encode(a)) == Some(a)
  {
    LevelNameRoundTrip(a.threatLevel);
  }

  /** A decoded object of the declared shape is exactly the encoding of the
      record it stands for. */
  lemma EncodeConform(d: Decoded)
    requires Conform(d).Some?
    ensures Encode(Conform(d).value) == d
  {
  }

  /** The empty object has no field, so it does not have the declared shape
      and reading its lists fails. */
  lemma EmptyObjectShape()
    ensures forall f :: !Present(EmptyObject, f)
    ensures Conform(EmptyObject).None? && !ListsPresent(EmptyObject)
  {
  }
}
