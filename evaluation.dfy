/** The rule evaluator: what the forward-chaining loop computes for ONE rule
    (exclusion check, requirement check, two-stage confidence, trace, satisfied flag),
    stated as pure functions of the rule, its disease and the selected symptom ids. */
module Evaluation {
  import opened Types

  // ---------------------------------------------------------------------------
  // Lookups in the catalogue

  /** Index of the first symptom whose id is `id` (`symptoms.find(s => s.id === id)`). */
  function FindSymptom(symptoms: seq<Symptom>, id: SymptomId): (r: Option<nat>)
    ensures r.Some? ==> r.value < |symptoms| && symptoms[r.value].id == id
    ensures r.Some? ==> forall j :: 0 <= j < r.value ==> symptoms[j].id != id
    ensures r.None? ==> forall j :: 0 <= j < |symptoms| ==> symptoms[j].id != id
  {
    if symptoms == [] then None
    else if symptoms[0].id == id then Some(0)
    else match FindSymptom(symptoms[1..], id)
      case None => None
      case Some(k) => Some(k + 1)
  }

  /** The display name of a symptom id: the first matching symptom's name, or the id
      itself when no symptom matches or the matching name is the empty string. */
  function SymptomName(symptoms: seq<Symptom>, id: SymptomId): (name: string)
    ensures (forall j :: 0 <= j < |symptoms| ==> symptoms[j].id != id) ==> name == id
    ensures forall k :: 0 <= k < |symptoms| && symptoms[k].id == id &&
                        (forall j :: 0 <= j < k ==> symptoms[j].id != id) ==>
                        name == (if symptoms[k].name != "" then symptoms[k].name else id)
  {
    match FindSymptom(symptoms, id)
    case None => id
    case Some(k) => if symptoms[k].name != "" then symptoms[k].name else id
  }

  /** The ids of the catalogue, in catalogue order. */
  function SymptomIds(symptoms: seq<Symptom>): seq<SymptomId>
  {
    seq(|symptoms|, k requires 0 <= k < |symptoms| => symptoms[k].id)
  }

  /** A listed id always resolves to a symptom; only an unlisted id falls back to itself. */
  lemma ListedResolves(symptoms: seq<Symptom>, id: SymptomId)
    ensures FindSymptom(symptoms, id).Some? <==> id in SymptomIds(symptoms)
  {
    if id in SymptomIds(symptoms) {
      var k :| 0 <= k < |symptoms| && SymptomIds(symptoms)[k] == id;
      assert symptoms[k].id == id;
    }
    if FindSymptom(symptoms, id).Some? {
      var k := FindSymptom(symptoms, id).value;
      assert SymptomIds(symptoms)[k] == id;
    }
  }

  /** The name of a symptom whose id no earlier symptom has. */
  lemma NameAt(symptoms: seq<Symptom>, k: nat)
    requires k < |symptoms| && forall j :: 0 <= j < k ==> symptoms[j].id != symptoms[k].id
    ensures SymptomName(symptoms, symptoms[k].id) ==
              if symptoms[k].name != "" then symptoms[k].name else symptoms[k].id
  {
  }

  /** The names of `ids`, position by position. */
  function Names(symptoms: seq<Symptom>, ids: seq<SymptomId>): seq<string>
  {
    seq(|ids|, k requires 0 <= k < |ids| => SymptomName(symptoms, ids[k]))
  }

  /** Naming a concatenation names its parts. */
  lemma NamesAppend(symptoms: seq<Symptom>, a: seq<SymptomId>, b: seq<SymptomId>)
    ensures Names(symptoms, a + b) == Names(symptoms, a) + Names(symptoms, b)
  {
    var whole, parts := Names(symptoms, a + b), Names(symptoms, a) + Names(symptoms, b);
    forall k | 0 <= k < |whole| ensures whole[k] == parts[k] {
      if k < |a| {
        assert (a + b)[k] == a[k];
      } else {
        assert (a + b)[k] == b[k - |a|];
      }
    }
  }

  /** The first disease whose id is `id` (`diseases.find(d => d.id === id)`). */
  function FindDisease(diseases: seq<Disease>, id: DiseaseId): (r: Option<Disease>)
    ensures r.Some? ==> r.value.id == id && r.value in diseases
    ensures r.Some? ==> exists k :: 0 <= k < |diseases| && diseases[k] == r.value &&
                                    forall j :: 0 <= j < k ==> diseases[j].id != id
    ensures r.None? <==> forall j :: 0 <= j < |diseases| ==> diseases[j].id != id
  {
    if diseases == [] then None
    else if diseases[0].id == id then Some(diseases[0])
    else
      var r := FindDisease(diseases[1..], id);
      if r.Some? then
        ghost var k :| 0 <= k < |diseases[1..]| && diseases[1..][k] == r.value &&
                       forall j :: 0 <= j < k ==> diseases[1..][j].id != id;
        assert diseases[k + 1] == r.value;
        assert forall j :: 0 <= j < k + 1 ==> diseases[j].id != id by {
          forall j | 0 <= j < k + 1 ensures diseases[j].id != id {
            if j > 0 { assert diseases[j] == diseases[1..][j - 1]; }
          }
        }
        r
      else
        assert forall j :: 0 <= j < |diseases| ==> diseases[j].id != id by {
          forall j | 0 <= j < |diseases| ensures diseases[j].id != id {
            if j > 0 { assert diseases[j] == diseases[1..][j - 1]; }
          }
        }
        r
  }

  // ---------------------------------------------------------------------------
  // Filters of an id list by the selected symptoms (`ids.filter(id => facts.includes(id))`)

  /** The ids of `ids` that were selected, in list order (duplicates kept). */
  function Present(ids: seq<SymptomId>, facts: seq<SymptomId>): (r: seq<SymptomId>)
    ensures |r| <= |ids|
  {
    if ids == [] then []
    else
      var last := ids[|ids| - 1];
      Present(ids[..|ids| - 1], facts) + (if last in facts then [last] else [])
  }

  /** The ids of `ids` that were not selected, in list order (duplicates kept). */
  function Absent(ids: seq<SymptomId>, facts: seq<SymptomId>): (r: seq<SymptomId>)
    ensures |r| <= |ids|
  {
    if ids == [] then []
    else
      var last := ids[|ids| - 1];
      Absent(ids[..|ids| - 1], facts) + (if last !in facts then [last] else [])
  }

  /** The present ids are exactly the listed and selected ones, the absent ids the listed and
      unselected ones. */
  lemma {:induction false} PresentAbsentMembers(ids: seq<SymptomId>, facts: seq<SymptomId>)
    ensures forall x :: x in Present(ids, facts) <==> x in ids && x in facts
    ensures forall x :: x in Absent(ids, facts) <==> x in ids && x !in facts
  {
    if ids != [] {
      PresentAbsentMembers(ids[..|ids| - 1], facts);
      assert ids == ids[..|ids| - 1] + [ids[|ids| - 1]];
    }
  }

  lemma NamesSnoc(symptoms: seq<Symptom>, ids: seq<SymptomId>, x: SymptomId)
    ensures Names(symptoms, ids + [x]) == Names(symptoms, ids) + [SymptomName(symptoms, x)]
  {
  }

  /** Extending the id list by one id extends the filters by at most that id. */
  lemma PresentAbsentSnoc(ids: seq<SymptomId>, x: SymptomId, facts: seq<SymptomId>)
    ensures Present(ids + [x], facts) == Present(ids, facts) + (if x in facts then [x] else [])
    ensures Absent(ids + [x], facts) == Absent(ids, facts) + (if x in facts then [] else [x])
  {
    assert (ids + [x])[..|ids|] == ids;
  }

  /** Every position of `ids` is either matched or missing. */
  lemma {:induction false} PresentAbsentPartition(ids: seq<SymptomId>, facts: seq<SymptomId>)
    ensures |Present(ids, facts)| + |Absent(ids, facts)| == |ids|
  {
    if ids != [] {
      PresentAbsentPartition(ids[..|ids| - 1], facts);
    }
  }

  /** With nothing selected, every id is missing and none is present. */
  lemma {:induction false} NothingSelected(ids: seq<SymptomId>)
    ensures Present(ids, []) == [] && Absent(ids, []) == ids
  {
    if ids != [] {
      NothingSelected(ids[..|ids| - 1]);
      assert ids == ids[..|ids| - 1] + [ids[|ids| - 1]];
    }
  }

  // ---------------------------------------------------------------------------
  // Confidence, in exact arithmetic

  /** A non-negative rational number num/den, used for confidences measured in per cent. */
  datatype Ratio = Ratio(num: nat, den: nat)

  /** `Math.round` of the non-negative value num/den: the nearest integer, halves rounded up,
      that is r - 1/2 <= num/den < r + 1/2. */
  function RoundHalfUp(q: Ratio): (r: nat)
    requires q.den > 0
    ensures q.den * (2 * r) <= 2 * q.num + q.den < q.den * (2 * r + 2)
  {
    (2 * q.num + q.den) / (2 * q.den)
  }

  lemma MulCancel(d: int, a: int, b: int)
    requires d > 0 && d * a < d * b
    ensures a < b
  {
  }

  lemma RoundAtMost(q: Ratio, k: nat)
    requires q.den > 0 && q.num <= k * q.den
    ensures RoundHalfUp(q) <= k
  {
    var r := RoundHalfUp(q);
    assert q.den * (2 * k + 2) == 2 * (k * q.den) + 2 * q.den;
    MulCancel(q.den, 2 * r, 2 * k + 2);
  }

  lemma RoundAtLeast(q: Ratio, k: nat)
    requires q.den > 0 && q.num >= k * q.den
    ensures RoundHalfUp(q) >= k
  {
    var r := RoundHalfUp(q);
    assert q.den * (2 * k) == 2 * (k * q.den);
    MulCancel(q.den, 2 * k, 2 * r + 2);
  }

  /** The denominator of the optional-symptom fraction: the list length, or 1 when it is empty. */
  function OptionalDenominator(optionalCount: nat): (d: nat)
    ensures d >= 1
  {
    if optionalCount == 0 then 1 else optionalCount
  }

  /** The confidence, in per cent and before the exclusion penalty: 80·matched/total while a
      requirement is missing, 80 + 20·optionalMatches/max(optionalCount, 1) once all are met. */
  function BaseConfidence(matched: nat, total: nat, optionalMatches: nat, optionalCount: nat): (q: Ratio)
    requires matched <= total
    ensures q.den > 0
    ensures matched < total ==> q.num <= 80 * q.den
    ensures matched == total && optionalMatches <= optionalCount ==> 80 * q.den <= q.num <= 100 * q.den
  {
    if matched == total then
      var d := OptionalDenominator(optionalCount);
      Ratio(80 * d + 20 * optionalMatches, d)
    else
      Ratio(80 * matched, total)
  }

  /** A present exclusion multiplies the confidence by 0.1. */
  function ExclusionPenalty(q: Ratio): (r: Ratio)
    ensures q.den > 0 ==> r.den > 0
    ensures q.num <= 100 * q.den ==> r.num <= 10 * r.den
  {
    Ratio(q.num, 10 * q.den)
  }

  /** The reported confidence: the rounded per-cent value, after the exclusion penalty. */
  function Confidence(matched: nat, total: nat, optionalMatches: nat, optionalCount: nat, excluded: bool): (c: nat)
    requires matched <= total
  {
    var q := BaseConfidence(matched, total, optionalMatches, optionalCount);
    RoundHalfUp(if excluded then ExclusionPenalty(q) else q)
  }

  /** The confidence always lies in 0..100; an exclusion caps it at 10; with every
      requirement met and no exclusion it is at least 80, and exactly 80 without optional symptoms;
      with a requirement missing and no exclusion it is at most 80. */
  lemma ConfidenceBounds(matched: nat, total: nat, optionalMatches: nat, optionalCount: nat, excluded: bool)
    requires matched <= total && optionalMatches <= optionalCount
    ensures Confidence(matched, total, optionalMatches, optionalCount, excluded) <= 100
    ensures excluded ==> Confidence(matched, total, optionalMatches, optionalCount, excluded) <= 10
    ensures !excluded && matched == total ==> Confidence(matched, total, optionalMatches, optionalCount, excluded) >= 80
    ensures !excluded && matched == total && optionalCount == 0 ==>
              Confidence(matched, total, optionalMatches, optionalCount, excluded) == 80
    ensures !excluded && matched < total ==> Confidence(matched, total, optionalMatches, optionalCount, excluded) <= 80
    ensures matched == 0 && total > 0 ==> Confidence(matched, total, optionalMatches, optionalCount, excluded) == 0
  {
    var q := BaseConfidence(matched, total, optionalMatches, optionalCount);
    if matched == total {
      var d := OptionalDenominator(optionalCount);
      assert q.num <= 100 * q.den && q.num >= 80 * q.den;
      if optionalCount == 0 { assert q == Ratio(80, 1); }
    } else {
      assert q.num <= 80 * q.den;
    }
    if excluded {
      RoundAtMost(ExclusionPenalty(q), 10);
    } else {
      RoundAtMost(q, 100);
      if matched == total {
        RoundAtLeast(q, 80);
      } else {
        RoundAtMost(q, 80);
      }
    }
    if matched == 0 && total > 0 {
      var p := if excluded then ExclusionPenalty(q) else q;
      RoundAtMost(p, 0);
    }
  }

  // ---------------------------------------------------------------------------
  // One rule

  /** The trace: the exclusion line if an exclusion was found, the requirement summary,
      the missing line if a requirement is missing, the bonus line if an optional symptom matched. */
  function Trace(rule: Rule, disease: Disease, conflicting: seq<string>, matched: nat,
                 missing: seq<string>, optionalMatches: nat): seq<TraceLine>
  {
    (if |conflicting| > 0 then [Invalidated(rule.id, conflicting)] else [])
    + [Checking(disease.name, matched, |rule.requirements|)]
    + (if |missing| > 0 then [Missing(missing)] else [])
    + (if optionalMatches > 0 then [Bonus(optionalMatches)] else [])
  }

  /** The result the forward-chaining loop builds for `rule`, whose conclusion resolved to `disease`. */
  function RuleResult(symptoms: seq<Symptom>, disease: Disease, rule: Rule, facts: seq<SymptomId>): DiagnosticResult
  {
    var conflicting := Names(symptoms, Present(rule.exclusions, facts));
    var matched := |Present(rule.requirements, facts)|;
    var missing := Names(symptoms, Absent(rule.requirements, facts));
    var optionalMatches := |Present(rule.optional, facts)|;
    var confidence := Confidence(matched, |rule.requirements|, optionalMatches, |rule.optional|, |conflicting| > 0);
    DiagnosticResult(
      disease.id, disease.name, confidence, matched, |missing|,
      matched == |rule.requirements| && |conflicting| == 0,
      conflicting, missing,
      Trace(rule, disease, conflicting, matched, missing, optionalMatches),
      rule.description)
  }

  /** The counts: matched plus missing is the number of requirements; the matched ones are the
      selected requirements and `missingRequired` names the others, in requirement order. */
  lemma RuleCounts(symptoms: seq<Symptom>, disease: Disease, rule: Rule, facts: seq<SymptomId>)
    ensures var r := RuleResult(symptoms, disease, rule, facts);
      && r.matchCount + r.missingCount == |rule.requirements|
      && r.matchCount == |Present(rule.requirements, facts)|
      && |r.missingRequired| == r.missingCount
      && r.missingRequired == Names(symptoms, Absent(rule.requirements, facts))
      && (forall x :: x in Absent(rule.requirements, facts) <==> x in rule.requirements && x !in facts)
      && r.diseaseId == disease.id && r.diseaseName == disease.name && r.reason == rule.description
  {
    PresentAbsentPartition(rule.requirements, facts);
    PresentAbsentMembers(rule.requirements, facts);
  }

  /** The confidence formula and its bounds, for every result. */
  lemma RuleConfidence(symptoms: seq<Symptom>, disease: Disease, rule: Rule, facts: seq<SymptomId>)
    ensures var r := RuleResult(symptoms, disease, rule, facts);
      var m, t := r.matchCount, |rule.requirements|;
      var o := |Present(rule.optional, facts)|;
      && 0 <= r.confidence <= 100
      && (r.conflicting == [] && m < t ==> r.confidence == RoundHalfUp(Ratio(80 * m, t)) <= 80)
      && (r.conflicting == [] && m == t ==>
            r.confidence == RoundHalfUp(Ratio(80 * OptionalDenominator(|rule.optional|) + 20 * o,
                                              OptionalDenominator(|rule.optional|))) >= 80)
      && (r.conflicting == [] && m == t && rule.optional == [] ==> r.confidence == 80)
  {
    var r := RuleResult(symptoms, disease, rule, facts);
    ConfidenceBounds(r.matchCount, |rule.requirements|, |Present(rule.optional, facts)|, |rule.optional|,
                     |r.conflicting| > 0);
  }

  /** A present exclusion: `conflicting` names the selected exclusions in exclusion order, the
      first trace line is the invalidation line, and the confidence is the unpenalised value
      times 0.1, hence at most 10. With no exclusion present, `conflicting` is empty and no
      invalidation line appears. */
  lemma RuleExclusion(symptoms: seq<Symptom>, disease: Disease, rule: Rule, facts: seq<SymptomId>)
    ensures var r := RuleResult(symptoms, disease, rule, facts);
      var found := Present(rule.exclusions, facts);
      var m, t := r.matchCount, |rule.requirements|;
      && r.conflicting == Names(symptoms, found)
      && (found != [] <==> exists x :: x in rule.exclusions && x in facts)
      && (found != [] ==>
            && r.trace[0] == Invalidated(rule.id, r.conflicting)
            && r.confidence == RoundHalfUp(ExclusionPenalty(
                 BaseConfidence(m, t, |Present(rule.optional, facts)|, |rule.optional|)))
            && r.confidence <= 10
            && !r.satisfied)
      && (found == [] ==>
            && r.conflicting == []
            && forall k :: 0 <= k < |r.trace| ==> !r.trace[k].Invalidated?)
  {
    var r := RuleResult(symptoms, disease, rule, facts);
    var found := Present(rule.exclusions, facts);
    PresentAbsentMembers(rule.exclusions, facts);
    if found != [] {
      assert found[0] in found;
    }
    ConfidenceBounds(r.matchCount, |rule.requirements|, |Present(rule.optional, facts)|, |rule.optional|,
                     found != []);
  }

  /** `satisfied` holds exactly when every requirement matched and no exclusion is present;
      a satisfied result has nothing missing and a confidence of at least 80. */
  lemma RuleSatisfied(symptoms: seq<Symptom>, disease: Disease, rule: Rule, facts: seq<SymptomId>)
    ensures var r := RuleResult(symptoms, disease, rule, facts);
      && (r.satisfied <==> r.matchCount == |rule.requirements| && r.conflicting == [])
      && (r.satisfied <==> (forall x :: x in rule.requirements ==> x in facts) &&
                           (forall x :: x in rule.exclusions ==> x !in facts))
      && (r.satisfied ==> r.missingCount == 0 && r.missingRequired == [] && r.confidence >= 80)
  {
    var r := RuleResult(symptoms, disease, rule, facts);
    RuleCounts(symptoms, disease, rule, facts);
    RuleConfidence(symptoms, disease, rule, facts);
    var absent := Absent(rule.requirements, facts);
    var found := Present(rule.exclusions, facts);
    PresentAbsentMembers(rule.exclusions, facts);
    if absent != [] { assert absent[0] in absent; }
    if found != [] { assert found[0] in found; }
  }

  /** The trace has one line more than the summary for each of: an exclusion found,
      a requirement missing, an optional symptom matched; the summary reports m/t. */
  lemma RuleTraceShape(symptoms: seq<Symptom>, disease: Disease, rule: Rule, facts: seq<SymptomId>)
    ensures var r := RuleResult(symptoms, disease, rule, facts);
      var o := |Present(rule.optional, facts)|;
      var e := if r.conflicting != [] then 1 else 0;
      && |r.trace| == 1 + e + (if r.missingCount > 0 then 1 else 0) + (if o > 0 then 1 else 0)
      && r.trace[e] == Checking(disease.name, r.matchCount, |rule.requirements|)
      && (r.missingCount > 0 ==> r.trace[e + 1] == Missing(r.missingRequired))
      && (o > 0 ==> r.trace[|r.trace| - 1] == Bonus(o))
  {
  }

  /** With no symptom selected: nothing matched, nothing conflicts, every requirement is
      missing, and a rule with at least one requirement has confidence 0 and is not satisfied. */
  lemma RuleWithoutFacts(symptoms: seq<Symptom>, disease: Disease, rule: Rule)
    ensures var r := RuleResult(symptoms, disease, rule, []);
      && r.matchCount == 0 && r.conflicting == []
      && r.missingRequired == Names(symptoms, rule.requirements)
      && (rule.requirements != [] ==> r.confidence == 0 && !r.satisfied)
  {
    NothingSelected(rule.requirements);
    NothingSelected(rule.exclusions);
    NothingSelected(rule.optional);
    ConfidenceBounds(0, |rule.requirements|, 0, |rule.optional|, false);
  }
}
