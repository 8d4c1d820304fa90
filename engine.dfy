/** The diagnostic engine object: it holds the knowledge base it was built with and runs
    forward chaining, the goal lookup and the uncertainty analysis step by step. Each
    method is proved equal to a pure specification: the three operations and the rule
    loop to functions of `Chaining`, the steps of one rule to functions of `Evaluation`,
    and the set additions to set comprehensions. */
module FolEngine {
  import opened Types
  import opened Evaluation
  import opened Ranking
  import opened Chaining

  class DiagnosticEngine {
    const kb: KnowledgeBase

    constructor (kb: KnowledgeBase)
      ensures this.kb == kb
    {
      this.kb := kb;
    }

    /** The exclusion check: the names of the selected exclusions, in exclusion order. */
    method ExclusionNames(rule: Rule, selected: seq<SymptomId>) returns (conflicting: seq<string>)
      ensures conflicting == Names(kb.symptoms, Present(rule.exclusions, selected))
    {
      conflicting := [];
      var foundExclusions := Present(rule.exclusions, selected);
      for i := 0 to |foundExclusions|
        invariant conflicting == Names(kb.symptoms, foundExclusions[..i])
      {
        assert foundExclusions[..i + 1] == foundExclusions[..i] + [foundExclusions[i]];
        NamesSnoc(kb.symptoms, foundExclusions[..i], foundExclusions[i]);
        conflicting := conflicting + [SymptomName(kb.symptoms, foundExclusions[i])];
      }
      assert foundExclusions[..|foundExclusions|] == foundExclusions;
    }

    /** The requirement check: how many requirements are selected, and the names of the
        others, in requirement order. */
    method CheckRequirements(rule: Rule, selected: seq<SymptomId>) returns (matchCount: nat, missingRequired: seq<string>)
      ensures matchCount == |Present(rule.requirements, selected)|
      ensures missingRequired == Names(kb.symptoms, Absent(rule.requirements, selected))
    {
      matchCount, missingRequired := 0, [];
      for i := 0 to |rule.requirements|
        invariant matchCount == |Present(rule.requirements[..i], selected)|
        invariant missingRequired == Names(kb.symptoms, Absent(rule.requirements[..i], selected))
      {
        var reqId := rule.requirements[i];
        assert rule.requirements[..i + 1] == rule.requirements[..i] + [reqId];
        PresentAbsentSnoc(rule.requirements[..i], reqId, selected);
        if reqId in selected {
          matchCount := matchCount + 1;
        } else {
          NamesSnoc(kb.symptoms, Absent(rule.requirements[..i], selected), reqId);
          missingRequired := missingRequired + [SymptomName(kb.symptoms, reqId)];
        }
      }
      assert rule.requirements[..|rule.requirements|] == rule.requirements;
    }

    /** The body of the forward-chaining loop for one rule whose conclusion resolved to `disease`. */
    method EvaluateRule(rule: Rule, disease: Disease, selected: seq<SymptomId>) returns (result: DiagnosticResult)
      ensures result == RuleResult(kb.symptoms, disease, rule, selected)
    {
      var trace: seq<TraceLine> := [];
      var conflicting := ExclusionNames(rule, selected);
      if |conflicting| > 0 {
        trace := trace + [Invalidated(rule.id, conflicting)];
      }
      var matchCount, missingRequired := CheckRequirements(rule, selected);

      // confidence, in per cent: while a requirement is missing the quotient may be 0/0,
      // which the source computes (NaN) and then overwrites in the all-met branch
      var totalRequired := |rule.requirements|;
      var optionalMatches := |Present(rule.optional, selected)|;
      var confidence := Ratio(80 * matchCount, totalRequired);
      if totalRequired == matchCount {
        var d := OptionalDenominator(|rule.optional|);
        confidence := Ratio(80 * d + 20 * optionalMatches, d);
      }
      if |conflicting| > 0 {
        confidence := ExclusionPenalty(confidence);
      }
      assert confidence == var q := BaseConfidence(matchCount, totalRequired, optionalMatches, |rule.optional|);
                           if |conflicting| > 0 then ExclusionPenalty(q) else q;

      trace := trace + [Checking(disease.name, matchCount, totalRequired)];
      if |missingRequired| > 0 {
        trace := trace + [Missing(missingRequired)];
      }
      if optionalMatches > 0 {
        trace := trace + [Bonus(optionalMatches)];
      }

      assert trace == Trace(rule, disease, conflicting, matchCount, missingRequired, optionalMatches);
      result := DiagnosticResult(
        disease.id, disease.name, RoundHalfUp(confidence), matchCount, |missingRequired|,
        matchCount == totalRequired && |conflicting| == 0,
        conflicting, missingRequired, trace, rule.description);
    }

    /** The loop of `forwardChain`: evaluates every rule in order, failing at the first rule
        whose conclusion is not a listed disease. */
    method EvaluateRules(selected: seq<SymptomId>) returns (r: Result<seq<DiagnosticResult>>)
      ensures r.Success? <==> forall i :: 0 <= i < |kb.rules| ==> Resolves(kb, kb.rules[i])
      ensures r.Success? ==> r.value == RuleResults(kb, kb.rules, selected)
      ensures r.Failure? ==> r == Forward(kb, selected)
    {
      var results: seq<DiagnosticResult> := [];
      for i := 0 to |kb.rules|
        invariant forall k :: 0 <= k < i ==> Resolves(kb, kb.rules[k])
        invariant results == RuleResults(kb, kb.rules[..i], selected)
      {
        var rule := kb.rules[i];
        var disease := FindDisease(kb.diseases, rule.conclusion);
        if disease.None? {
          // the non-null assertion on the lookup does not hold: reading the name throws
          ForwardFailsAt(kb, selected, i);
          return Failure(UnknownConclusion(rule.id, rule.conclusion));
        }
        var result := EvaluateRule(rule, disease.value, selected);
        assert kb.rules[..i + 1] == kb.rules[..i] + [rule];
        RuleResultsSnoc(kb, kb.rules[..i], rule, selected);
        results := results + [result];
      }
      assert kb.rules[..|kb.rules|] == kb.rules;
      r := Success(results);
    }

    /** `forwardChain`: one result per rule, sorted by confidence, highest first. */
    method ForwardChain(selected: seq<SymptomId>) returns (r: Result<seq<DiagnosticResult>>)
      ensures r == Forward(kb, selected)
      ensures r.Success? <==> forall i :: 0 <= i < |kb.rules| ==> Resolves(kb, kb.rules[i])
      ensures r.Success? ==> |r.value| == |kb.rules| && Ranked(r.value)
    {
      r := EvaluateRules(selected);
      if r.Success? {
        ForwardSucceeds(kb, selected);
        r := Success(Rank(r.value));
      }
    }

    /** `backwardChain`: null (`Success(None)`) when no rule concludes `goal`; otherwise the
        entry for `goal` in a fresh forward-chaining run (null if there is none). */
    method BackwardChain(goal: DiseaseId, selected: seq<SymptomId>) returns (r: Result<Option<DiagnosticResult>>)
      ensures r == Backward(kb, goal, selected)
    {
      var rule := FindRule(kb.rules, goal);
      if rule.None? {
        return Success(None);
      }
      var results := ForwardChain(selected);
      if results.Failure? {
        return Failure(results.error);
      }
      r := Success(FindResult(results.value, goal));
    }

    /** Adds every id of `ids` to `relevant`, one at a time. */
    method AddIds(relevant: set<SymptomId>, ids: seq<SymptomId>) returns (r: set<SymptomId>)
      ensures r == relevant + (set id | id in ids)
    {
      r := relevant;
      for j := 0 to |ids|
        invariant r == relevant + (set id | id in ids[..j])
      {
        assert ids[..j + 1] == ids[..j] + [ids[j]];
        r := r + {ids[j]};
      }
      assert ids[..|ids|] == ids;
    }

    /** The first loop of `analyzeUncertainty`: the ids of every rule's requirements and
        optional symptoms, collected into a set rule by rule. */
    method CollectRelevant() returns (relevant: set<SymptomId>)
      ensures relevant == RelevantIds(kb.rules)
    {
      relevant := {};
      for i := 0 to |kb.rules|
        invariant relevant == RelevantIds(kb.rules[..i])
      {
        var rule := kb.rules[i];
        relevant := AddIds(relevant, rule.requirements);
        relevant := AddIds(relevant, rule.optional);
        assert kb.rules[..i + 1][..i] == kb.rules[..i];
      }
      assert kb.rules[..|kb.rules|] == kb.rules;
    }

    /** `analyzeUncertainty`: the selected ids no rule mentions as required or optional are
        noise; the results are grouped as conflicting, incomplete and ambiguous. */
    method AnalyzeUncertainty(results: seq<DiagnosticResult>, selected: seq<SymptomId>) returns (report: UncertaintyReport)
      ensures report == Uncertainty(kb, results, selected)
      ensures forall id :: id in selected && id !in RelevantIds(kb.rules) ==>
                SymptomName(kb.symptoms, id) in report.noise
      ensures forall x :: x in report.conflicting ==> x !in report.incomplete
      ensures report.ambiguous == [] || report.ambiguous == results[..2]
    {
      var relevant := CollectRelevant();
      var noise := Names(kb.symptoms, Irrelevant(selected, relevant));
      report := UncertaintyReport(
        IncompleteResults(results), ConflictingResults(results), AmbiguousPair(results), noise);
      UncertaintyNoise(kb, results, selected);
      UncertaintyGroups(kb, results, selected);
    }
  }
}
