/** The shipped knowledge base (14 symptoms, 5 diseases, 5 rules), its well-formedness,
    and worked scenarios evaluated against it. */
module MedicalKnowledgeBase {
  import opened Types
  import opened Evaluation
  import opened Chaining

  const Symptoms: seq<Symptom> := [
    Symptom("S1", "High Fever"),
    Symptom("S2", "Persistent Cough"),
    Symptom("S3", "Shortness of Breath"),
    Symptom("S4", "Fatigue"),
    Symptom("S5", "Loss of Taste/Smell"),
    Symptom("S6", "Body Aches"),
    Symptom("S7", "Sore Throat"),
    Symptom("S8", "Runny Nose"),
    Symptom("S9", "Chest Pain"),
    Symptom("S10", "Skin Rash"),
    Symptom("S11", "Itchy Eyes"),
    Symptom("S12", "Sneezing"),
    Symptom("S13", "Headache"),
    Symptom("S14", "Rapid Heart Rate")
  ]

  const Diseases: seq<Disease> := [
    Disease("D1", "Common Cold"),
    Disease("D2", "Influenza (Flu)"),
    Disease("D3", "COVID-19"),
    Disease("D4", "Allergic Rhinitis"),
    Disease("D5", "Pneumonia")
  ]

  const R1: Rule := Rule("R1", "D1", ["S8", "S12"], ["S7", "S13"], ["S1", "S9"],
    "Common Cold diagnosis requires runny nose and sneezing without high fever.")
  const R2: Rule := Rule("R2", "D2", ["S1", "S6", "S4"], ["S2", "S13"], ["S11"],
    "Influenza is likely if fever, aches, and fatigue are present.")
  const R3: Rule := Rule("R3", "D3", ["S1", "S2", "S5"], ["S3", "S4"], ["S12"],
    "COVID-19 profile: Fever, cough, and characteristic loss of taste/smell.")
  const R4: Rule := Rule("R4", "D4", ["S11", "S12", "S8"], ["S7"], ["S1"],
    "Allergies characterized by itchy eyes and sneezing, but no fever.")
  const R5: Rule := Rule("R5", "D5", ["S1", "S2", "S3", "S9"], ["S4"], [],
    "Pneumonia is critical, involving chest pain and significant respiratory distress.")

  const KB: KnowledgeBase := KnowledgeBase(Symptoms, Diseases, [R1, R2, R3, R4, R5])

  lemma SymptomIdsListed()
    ensures SymptomIds(Symptoms) == ["S1", "S2", "S3", "S4", "S5", "S6", "S7", "S8", "S9", "S10", "S11", "S12", "S13", "S14"]
  {
  }

  /** Every id the rules mention is a listed symptom. */
  lemma RulesMentionListedSymptoms()
    ensures forall i :: 0 <= i < |KB.rules| ==> MentionsListedSymptoms(KB.symptoms, KB.rules[i])
  {
    SymptomIdsListed();
  }

  /** Every listed disease is the conclusion of some rule (R1..R5 conclude D1..D5). */
  lemma DiseasesConcluded()
    ensures EveryDiseaseConcluded(KB)
  {
    assert KB.rules[0].conclusion == Diseases[0].id && KB.rules[1].conclusion == Diseases[1].id;
    assert KB.rules[2].conclusion == Diseases[2].id && KB.rules[3].conclusion == Diseases[3].id;
    assert KB.rules[4].conclusion == Diseases[4].id;
  }

  /** No two rules share a conclusion. */
  lemma ConclusionsDistinct()
    ensures forall i, k :: 0 <= i < |KB.rules| && 0 <= k < |KB.rules| && i != k ==>
              KB.rules[i].conclusion != KB.rules[k].conclusion
  {
  }

  /** Within each rule the requirement, optional and exclusion lists share no id. */
  lemma RuleListsDisjoint()
    ensures forall i :: 0 <= i < |KB.rules| ==> ListsDisjoint(KB.rules[i])
  {
    ColdListsDisjoint();
    FluListsDisjoint();
    CovidListsDisjoint();
    AllergyListsDisjoint();
    PneumoniaListsDisjoint();
  }

  lemma ColdListsDisjoint()
    ensures ListsDisjoint(R1)
  {
  }

  lemma FluListsDisjoint()
    ensures ListsDisjoint(R2)
  {
  }

  lemma CovidListsDisjoint()
    ensures ListsDisjoint(R3)
  {
  }

  lemma AllergyListsDisjoint()
    ensures ListsDisjoint(R4)
  {
  }

  lemma PneumoniaListsDisjoint()
    ensures ListsDisjoint(R5)
  {
  }

  /** Every rule has at least one requirement and concludes a listed disease. */
  lemma RulesResolve()
    ensures forall i :: 0 <= i < |KB.rules| ==> KB.rules[i].requirements != [] && Resolves(KB, KB.rules[i])
  {
  }

  /** The shipped knowledge base satisfies every invariant the engine relies on; in
      particular every rule has a requirement, so no confidence divides by zero. */
  lemma KnowledgeBaseWellFormed()
    ensures WellFormed(KB)
  {
    RulesResolve();
    RulesMentionListedSymptoms();
    DiseasesConcluded();
    ConclusionsDistinct();
    RuleListsDisjoint();
  }

  /** Scenario: runny nose, sneezing and sore throat. The common-cold rule matches both
      requirements and one of two optional symptoms: confidence 90, satisfied. */
  lemma ColdWithSoreThroat()
    ensures var r := RuleResult(Symptoms, Diseases[0], R1, ["S8", "S12", "S7"]);
      r.matchCount == 2 && r.missingCount == 0 && r.confidence == 90 && r.satisfied && r.conflicting == []
  {
  }

  /** Scenario: runny nose, sneezing and high fever. High fever excludes a cold: the result
      names it as conflicting, the confidence drops from 80 to 8 and the rule is not satisfied. */
  lemma ColdWithFever()
    ensures var r := RuleResult(Symptoms, Diseases[0], R1, ["S8", "S12", "S1"]);
      r.matchCount == 2 && r.conflicting == ["High Fever"] && r.confidence == 8 && !r.satisfied
  {
  }

  /** The cold scenarios, read from the goal lookup: backward chaining for the common cold
      returns R1's result, with confidence 90 when sore throat is added and 8 when high
      fever is. */
  lemma ColdWithSoreThroatDiagnosed()
    ensures var r := Backward(KB, "D1", ["S8", "S12", "S7"]);
      r.Success? && r.value.Some? && r.value.value.diseaseId == "D1" &&
      r.value.value.confidence == 90 && r.value.value.satisfied
  {
    KnowledgeBaseWellFormed();
    BackwardFinds(KB, "D1", ["S8", "S12", "S7"], 0);
    assert Concluded(KB, R1) == Diseases[0];
    ColdWithSoreThroat();
  }

  lemma ColdWithFeverDiagnosed()
    ensures var r := Backward(KB, "D1", ["S8", "S12", "S1"]);
      r.Success? && r.value.Some? && r.value.value.conflicting == ["High Fever"] &&
      r.value.value.confidence == 8 && !r.value.value.satisfied
  {
    KnowledgeBaseWellFormed();
    BackwardFinds(KB, "D1", ["S8", "S12", "S1"], 0);
    assert Concluded(KB, R1) == Diseases[0];
    ColdWithFever();
  }

  /** The disease catalogue lists D1..D5 in order, and rule Ri concludes Di. */
  lemma DiseaseIdsListed()
    ensures seq(|Diseases|, j requires 0 <= j < |Diseases| => Diseases[j].id) == ["D1", "D2", "D3", "D4", "D5"]
    ensures seq(|KB.rules|, i requires 0 <= i < |KB.rules| => KB.rules[i].conclusion) == ["D1", "D2", "D3", "D4", "D5"]
  {
  }

  /** Skin rash (S10) appears in no rule's requirements or optional symptoms. */
  lemma RashIrrelevant()
    ensures "S10" !in RelevantIds(KB.rules)
  {
    assert "S10" !in R1.requirements + R1.optional && "S10" !in R2.requirements + R2.optional;
    assert "S10" !in R3.requirements + R3.optional && "S10" !in R4.requirements + R4.optional;
    assert "S10" !in R5.requirements + R5.optional;
  }

  /** Rapid heart rate (S14) appears in no rule's requirements or optional symptoms. */
  lemma HeartRateIrrelevant()
    ensures "S14" !in RelevantIds(KB.rules)
  {
    assert "S14" !in R1.requirements + R1.optional && "S14" !in R2.requirements + R2.optional;
    assert "S14" !in R3.requirements + R3.optional && "S14" !in R4.requirements + R4.optional;
    assert "S14" !in R5.requirements + R5.optional;
  }

  lemma RashName()
    ensures SymptomName(Symptoms, "S10") == "Skin Rash"
  {
    NameAt(Symptoms, 9);
  }

  lemma HeartRateName()
    ensures SymptomName(Symptoms, "S14") == "Rapid Heart Rate"
  {
    NameAt(Symptoms, 13);
  }

  lemma IrrelevantOfThree(a: SymptomId, b: SymptomId, c: SymptomId, relevant: set<SymptomId>)
    requires a !in relevant && b in relevant && c !in relevant
    ensures Irrelevant([a, b, c], relevant) == [a, c]
  {
    assert [a, b, c][..2] == [a, b] && [a, b][..1] == [a] && [a][..0] == [];
  }

  /** Selecting skin rash, runny nose and rapid heart rate reports the first and the last as noise. */
  lemma RashAndHeartRateAreNoise(results: seq<DiagnosticResult>)
    ensures Uncertainty(KB, results, ["S10", "S8", "S14"]).noise == ["Skin Rash", "Rapid Heart Rate"]
  {
    RashIrrelevant();
    HeartRateIrrelevant();
    assert KB.rules[0] == R1 && "S8" in R1.requirements;
    IrrelevantOfThree("S10", "S8", "S14", RelevantIds(KB.rules));
    NamesOfTwo(Symptoms, "S10", "S14");
    RashName();
    HeartRateName();
  }

  lemma NamesOfTwo(symptoms: seq<Symptom>, a: SymptomId, b: SymptomId)
    ensures Names(symptoms, [a, b]) == [SymptomName(symptoms, a), SymptomName(symptoms, b)]
  {
  }

  /** Whatever else is selected, selecting skin rash or rapid heart rate puts its name in the noise. */
  lemma RashOrHeartRateIsNoise(results: seq<DiagnosticResult>, facts: seq<SymptomId>)
    ensures "S10" in facts ==> "Skin Rash" in Uncertainty(KB, results, facts).noise
    ensures "S14" in facts ==> "Rapid Heart Rate" in Uncertainty(KB, results, facts).noise
  {
    RashIrrelevant();
    HeartRateIrrelevant();
    RashName();
    HeartRateName();
    UncertaintyNoise(KB, results, facts);
  }

  /** The goal lookup for an id no rule concludes returns the not-found signal. */
  lemma UnknownGoalNotFound(facts: seq<SymptomId>)
    ensures Backward(KB, "UNKNOWN_ID", facts) == Success(None)
  {
    assert forall i :: 0 <= i < |KB.rules| ==> KB.rules[i].conclusion != "UNKNOWN_ID";
  }
}
