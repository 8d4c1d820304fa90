/** Record types shared by the knowledge base and the diagnostic engine. */
module Types {

  type SymptomId = string
  type DiseaseId = string

  /** A symptom of the catalogue; its category plays no part in the engine. */
  datatype Symptom = Symptom(id: SymptomId, name: string)

  /** A disease (a rule's conclusion); severity and description play no part in the engine. */
  datatype Disease = Disease(id: DiseaseId, name: string)

  /** A rule "requirements => conclusion unless exclusions". An absent `optional`
      or `exclusions` list behaves exactly like an empty one, so both are plain sequences. */
  datatype Rule = Rule(
    id: string,
    conclusion: DiseaseId,
    requirements: seq<SymptomId>,
    optional: seq<SymptomId>,
    exclusions: seq<SymptomId>,
    description: string)

  datatype KnowledgeBase = KnowledgeBase(
    symptoms: seq<Symptom>,
    diseases: seq<Disease>,
    rules: seq<Rule>)

  /** One line of a rule's reasoning trace, carrying the values its message interpolates. */
  datatype TraceLine =
    | Invalidated(ruleId: string, conflicting: seq<string>)   // "Rule R invalidated by exclusion: ..."
    | Checking(diseaseName: string, found: nat, total: nat)    // "Checking requirements for D: m/t found."
    | Missing(names: seq<string>)                              // "Missing: ..."
    | Bonus(optionalMatches: nat)                              // "Bonus matches (optional): o"

  datatype DiagnosticResult = DiagnosticResult(
    diseaseId: DiseaseId,
    diseaseName: string,
    confidence: int,
    matchCount: nat,
    missingCount: nat,
    satisfied: bool,
    conflicting: seq<string>,
    missingRequired: seq<string>,
    trace: seq<TraceLine>,
    reason: string)

  datatype UncertaintyReport = UncertaintyReport(
    incomplete: seq<DiagnosticResult>,
    conflicting: seq<DiagnosticResult>,
    ambiguous: seq<DiagnosticResult>,
    noise: seq<string>)

  /** The one way the engine fails: a rule whose conclusion names no listed disease
      (the non-null assertion on the disease lookup, followed by a property access). */
  datatype EngineError = UnknownConclusion(ruleId: string, conclusion: DiseaseId)

  datatype Option<T> = None | Some(value: T)

  datatype Result<T> = Success(value: T) | Failure(error: EngineError)
}
