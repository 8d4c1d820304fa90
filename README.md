# MediLogic diagnostic engine, modelled in Dafny

This project models the first-order-logic diagnostic engine of MediLogic. It also models
the medical knowledge base the engine ships with. The knowledge base lists symptoms,
diseases and rules. A rule names a disease (its conclusion), a list of required symptoms,
a list of optional symptoms that raise confidence, and a list of exclusions that
invalidate it. The engine has three operations:

- **forward chaining** evaluates every rule against the selected symptom ids. For each rule
  it finds the selected exclusions, counts the matched requirements and names the missing
  ones. It then computes a two-stage confidence, builds a trace and sets a `satisfied`
  flag. Last, it sorts all results by confidence, highest first.
- **backward chaining** looks up the forward-chaining result for a goal disease.
- **uncertainty analysis** sorts the input and the results into four groups: noise
  (selected symptoms no rule uses), conflicting, incomplete and ambiguous.

Layout:

- `types.dfy` (`Types`): the records. Optional arrays are plain sequences, where an absent
  list is the empty sequence. An unknown rule conclusion is an error value.
- `evaluation.dfy` (`Evaluation`): one rule's evaluation as pure functions: name lookups,
  the exclusion and requirement filters, exact confidence arithmetic and rounding, the
  trace and the result record. It also holds their lemmas.
- `ranking.dfy` (`Ranking`): the stable sort by confidence, highest first. It is specified
  as a stable insertion sort and proved ranked, a permutation and stable.
- `chaining.dfy` (`Chaining`): specification functions for the three operations over any
  knowledge base, the knowledge-base invariants, and the lemmas relating them.
- `engine.dfy` (`FolEngine`): the engine class. Its fields never change after
  construction. Its methods do what the source does, step by step: loops that push to
  lists, a counter, a confidence that is reassigned, and a set filled rule by rule. Each
  method is proved equal to a pure specification. The three operations and the rule loop
  are proved against `Chaining` functions, the steps of one rule against `Evaluation`
  functions, and the set additions against set comprehensions.
- `knowledge_base.dfy` (`MedicalKnowledgeBase`): the shipped 14 symptoms, 5 diseases and
  5 rules. It proves their well-formedness and several worked scenarios.

Confidence is exact. It is a ratio in per cent (`80·m/t`, `80 + 20·o/max(|optional|, 1)`,
and ×0.1 for an exclusion). `Math.round` becomes round-half-up on a non-negative rational
number.

Two inputs make the code reach a value it does not check for. The model follows what the
code does:

- **A rule with no requirements.** `matchCount / totalRequired` is `0/0`, so the first
  confidence is NaN. But `totalRequired === matchCount` then holds (0 === 0), so the NaN
  is overwritten at once. Such a rule gets confidence 80 or more and is `satisfied` when
  no exclusion is present. The model reproduces this: the ratio with denominator 0 is
  built and overwritten, never rounded. Separately,
  `MedicalKnowledgeBase.KnowledgeBaseWellFormed` proves the shipped rules all have
  requirements.
- **A rule whose conclusion is not a listed disease.** The `find` on line 18 returns
  `undefined`, the non-null assertion `!` does not check it, and reading `.name` on line 58
  throws a `TypeError`. The model makes this exception an error value: it returns
  `Failure(UnknownConclusion(rule id, conclusion))` at the first such rule, and
  `backwardChain` passes that failure on, as the exception would propagate.

## Model

| member | source | states |
|---|---|---|
| Evaluation.FindSymptom | engine/folEngine.ts:27 | The index found has the id and is the first one with it. None means no symptom has the id. |
| Evaluation.SymptomName | engine/folEngine.ts:27-28 | The name is the first matching symptom's name. It falls back to the id when no symptom matches or the name is empty. |
| Evaluation.ListedResolves | engine/folEngine.ts:39-40 | The lookup finds a symptom exactly when the id is one of the listed ids. |
| Evaluation.NameAt | engine/folEngine.ts:39-40 | A symptom whose id no earlier symptom has is named by its own name, or by its id if the name is empty. |
| Evaluation.FindDisease | engine/folEngine.ts:18 | The disease found has the goal id and is the first listed one with it. None exactly when no disease has the id. |
| Evaluation.Present | engine/folEngine.ts:24 | The selected sublist is no longer than the list. |
| Evaluation.Absent | engine/folEngine.ts:35-42 | The unselected sublist is no longer than the list. |
| Evaluation.PresentAbsentMembers | engine/folEngine.ts:24 | Present holds exactly the listed, selected ids. Absent holds exactly the listed, unselected ids. |
| Evaluation.PresentAbsentPartition | engine/folEngine.ts:35-42 | Every requirement is counted as matched or missing, never both. |
| Evaluation.NothingSelected | engine/folEngine.ts:35-42 | With an empty input, nothing is present and every id is absent. |
| Evaluation.RoundHalfUp | engine/folEngine.ts:69 | The result r is the nearest integer, halves rounded up: r − ½ ≤ q < r + ½. |
| Evaluation.RoundAtMost | engine/folEngine.ts:69 | Rounding keeps an upper bound k. |
| Evaluation.RoundAtLeast | engine/folEngine.ts:69 | Rounding keeps a lower bound k. |
| Evaluation.NamesAppend | engine/folEngine.ts:26-29 | `Names` maps ids to names one by one: naming a concatenation gives the concatenation of the names. |
| Evaluation.NamesSnoc | engine/folEngine.ts:39-40 | Naming one more id appends exactly that id's name. |
| Evaluation.OptionalDenominator | engine/folEngine.ts:52 | The optional-fraction denominator (the list length, or 1 for an empty list) is at least 1. |
| Evaluation.BaseConfidence | engine/folEngine.ts:45-53 | The confidence before the penalty has a positive denominator. It is at most 80 % with a requirement missing, and within 80..100 % with all met. |
| Evaluation.ExclusionPenalty | engine/folEngine.ts:56 | The penalty keeps the denominator positive and turns a bound of 100 % into a bound of 10 %. |
| Evaluation.ConfidenceBounds | engine/folEngine.ts:49-56 | The value lies in 0..100. It is ≤ 10 after an exclusion. With all requirements met and no exclusion it is ≥ 80, and exactly 80 without optionals. With a requirement missing and no exclusion it is ≤ 80. With nothing matched and at least one requirement, it is 0. These are the bounds of `Confidence`, the rounded value after the exclusion penalty. |
| Evaluation.RuleCounts | engine/folEngine.ts:34-42 | About `RuleResult`, one rule's result record: matchCount + missingCount equals the number of requirements. `missingRequired` names exactly the unselected requirements, in requirement order, with the id fallback. The disease id, name and reason are copied. |
| Evaluation.RuleConfidence | engine/folEngine.ts:45-53 | Confidence is round(80·m/t) ≤ 80 when m < t, and round(80 + 20·o/max(#optional, 1)) ≥ 80 when m = t. It is exactly 80 with no optionals and always within 0..100. |
| Evaluation.RuleExclusion | engine/folEngine.ts:24-31 | With a selected exclusion, `conflicting` names those exclusions in exclusion order, the first trace line is the invalidation line and confidence is round(base × 0.1) ≤ 10. Without one, `conflicting` is empty and no invalidation line appears. |
| Evaluation.RuleSatisfied | engine/folEngine.ts:72 | `satisfied` holds iff every requirement is selected and no exclusion is. Then nothing is missing and confidence is ≥ 80. |
| Evaluation.RuleTraceShape | engine/folEngine.ts:58-64 | The trace built by `Trace` has 1 + [exclusion found] + [something missing] + [optional matched] lines, each in its place. |
| Evaluation.RuleWithoutFacts | engine/folEngine.ts:34-53 | With an empty input: no match, no conflict, every requirement missing. A rule with a requirement then gets confidence 0 and is not satisfied. |
| Ranking.Insert | engine/folEngine.ts:80 | Insertion adds exactly one element and keeps all the others (multiset). |
| Ranking.InsertRanked | engine/folEngine.ts:80 | Inserting into a non-increasing list keeps it non-increasing. |
| Ranking.Rank | engine/folEngine.ts:80 | The sort's output is non-increasing in confidence and a permutation of its input. |
| Ranking.InsertStable | engine/folEngine.ts:80 | Insertion puts a new entry after every entry of equal confidence. |
| Ranking.RankStable | engine/folEngine.ts:80 | The sort is stable: results of equal confidence keep their input order. |
| Chaining.Concluded | engine/folEngine.ts:18 | A resolving rule's disease is a listed disease whose id is the conclusion. |
| Chaining.FirstUnresolved | engine/folEngine.ts:17-18 | Finds the first rule that does not `Resolves`, i.e. whose conclusion is not a listed disease. None iff every rule resolves. |
| Chaining.RuleResults | engine/folEngine.ts:17-78 | There is one result per rule, in rule order, and result i carries rule i's conclusion and description. |
| Chaining.Forward | engine/folEngine.ts:14-81 | Success iff every conclusion resolves. Otherwise it fails with the first unresolved rule. On success there is one result per rule, ranked, a permutation of the per-rule results. |
| Chaining.ForwardFailsAt | engine/folEngine.ts:17-18 | The first rule with an unknown conclusion decides the error. |
| Chaining.ForwardSucceeds | engine/folEngine.ts:78-80 | When every rule resolves, the output is the ranked list of per-rule results. |
| Chaining.ForwardStable | engine/folEngine.ts:80 | Results of equal confidence appear in rule order. |
| Chaining.ForwardEntries | engine/folEngine.ts:66-80 | Every rule's result is in the output, and every output entry is some rule's result. |
| Chaining.ForwardWithoutFacts | engine/folEngine.ts:14-81 | With an empty input, there is still one result per rule, and each has no match, confidence 0 and is not satisfied. |
| Chaining.FindRule | engine/folEngine.ts:87 | The rule found concludes the goal. None iff no rule does. |
| Chaining.FindResult | engine/folEngine.ts:92 | The result found is in the list and has the goal id, and no earlier entry has it (the first match, as `find` returns). None iff no result has it. |
| Chaining.Backward | engine/folEngine.ts:86-94 | Null iff no rule concludes the goal. Otherwise it is the first entry with the goal id in the ranked forward-chaining list. It fails only as forward chaining fails. |
| Chaining.ConcludedGoalRanked | engine/folEngine.ts:87-92 | When a rule concludes the goal and forward chaining succeeds, the ranked list has an entry for the goal. |
| Chaining.BackwardFinds | engine/folEngine.ts:86-94 | In a knowledge base that is `WellFormed` (rules resolve, mention listed symptoms, have disjoint lists and distinct conclusions), the goal of rule i gives exactly rule i's result. |
| Chaining.RelevantIds | engine/folEngine.ts:101-105 | The relevant set holds exactly the ids in some rule's requirements or optionals. |
| Chaining.Irrelevant | engine/folEngine.ts:106-107 | Keeps exactly the selected ids outside the relevant set, and is no longer than the input. Order and repeats are stated by `IrrelevantAppend` and `IrrelevantSingle`. |
| Chaining.ConflictingResults | engine/folEngine.ts:111 | Holds exactly the results with a conflict and at least one match. |
| Chaining.IncompleteResults | engine/folEngine.ts:114 | Holds exactly the results with some match, a missing requirement and no conflict. |
| Chaining.IrrelevantAppend | engine/folEngine.ts:106-107 | Filtering a concatenation filters each part and concatenates, so the input order and repeated ids are kept. |
| Chaining.IrrelevantSnoc | engine/folEngine.ts:106-107 | One more id is appended exactly when it is outside the relevant set. |
| Chaining.IrrelevantSingle | engine/folEngine.ts:107 | A single id is kept iff it is not relevant. |
| Chaining.ConflictingAppend | engine/folEngine.ts:111 | The conflicting filter of a concatenation is the concatenation of the filters, so result order is kept. |
| Chaining.ConflictingSingle | engine/folEngine.ts:111 | A single result is kept iff it has a conflict and a match. |
| Chaining.IncompleteAppend | engine/folEngine.ts:114 | The incomplete filter of a concatenation is the concatenation of the filters, so result order is kept. |
| Chaining.IncompleteSingle | engine/folEngine.ts:114 | A single result is kept iff it has a match, fewer matches than requirements and no conflict. |
| Chaining.Abs | engine/folEngine.ts:117 | The absolute value is x or −x and non-negative. |
| Chaining.AmbiguousPair | engine/folEngine.ts:117-119 | Non-empty iff there are at least two results whose confidences differ by less than 15. Then it is the first two results. |
| Chaining.UncertaintyNoise | engine/folEngine.ts:101-108 | The `noise` of `Uncertainty` is the names of the irrelevant selected ids, in input order. A selected id that no rule requires or lists as optional has its name in it, even if the id is an exclusion. Noise is no longer than the input. |
| Chaining.UncertaintyGroups | engine/folEngine.ts:110-119 | In `Uncertainty`, conflicting and incomplete are disjoint, and incomplete results have something missing. Ambiguous is [] or the top two results, and it is non-empty iff there are ≥ 2 results less than 15 apart. |
| Chaining.NoiseInOrder | engine/folEngine.ts:106-108 | The noise of a concatenated input is the noise of each part, concatenated. A single id gives [] if relevant, else its name. |
| Chaining.GroupsInOrder | engine/folEngine.ts:110-114 | The conflicting and incomplete groups of concatenated results are those of each part, concatenated, so they keep result order and repeats. |
| Chaining.RuleResultsSnoc | engine/folEngine.ts:66 | Evaluating one more rule appends exactly its result. |
| FolEngine.DiagnosticEngine.constructor | engine/folEngine.ts:7-9 | The engine holds the given knowledge base. |
| FolEngine.DiagnosticEngine.ExclusionNames | engine/folEngine.ts:24-29 | The loop builds the names of the selected exclusions, in order. |
| FolEngine.DiagnosticEngine.CheckRequirements | engine/folEngine.ts:34-42 | The counter equals the number of selected requirements. The list names the unselected ones, in order. |
| FolEngine.DiagnosticEngine.EvaluateRule | engine/folEngine.ts:19-77 | The loop body builds exactly the per-rule result: confidence, trace, flags and lists. |
| FolEngine.DiagnosticEngine.EvaluateRules | engine/folEngine.ts:15-78 | The loop yields the per-rule results in rule order, or the first unknown-conclusion failure. |
| FolEngine.DiagnosticEngine.ForwardChain | engine/folEngine.ts:14-81 | Equals `Chaining.Forward`. Success iff every rule resolves. One result per rule, ranked. |
| FolEngine.DiagnosticEngine.BackwardChain | engine/folEngine.ts:86-94 | Equals `Chaining.Backward`. |
| FolEngine.DiagnosticEngine.AddIds | engine/folEngine.ts:103-104 | Each `forEach` adds exactly a list's ids to the set. |
| FolEngine.DiagnosticEngine.CollectRelevant | engine/folEngine.ts:101-105 | The set filled rule by rule is the set of relevant ids. |
| FolEngine.DiagnosticEngine.AnalyzeUncertainty | engine/folEngine.ts:99-122 | Equals `Chaining.Uncertainty`. Unused selected ids are noise, conflicting and incomplete are disjoint, and ambiguous is [] or the first two results. |
| MedicalKnowledgeBase.SymptomIdsListed | data/knowledgeBase.ts:5-20 | The catalogue ids are S1..S14, in order. |
| MedicalKnowledgeBase.DiseaseIdsListed | data/knowledgeBase.ts:21-69 | The disease ids are D1..D5, in order, and the rules R1..R5 conclude D1..D5 in that order. |
| MedicalKnowledgeBase.RulesMentionListedSymptoms | data/knowledgeBase.ts:28-69 | Every id in a rule's three lists is a listed symptom id. |
| MedicalKnowledgeBase.DiseasesConcluded | data/knowledgeBase.ts:21-27 | Every listed disease is some rule's conclusion. |
| MedicalKnowledgeBase.ConclusionsDistinct | data/knowledgeBase.ts:28-69 | No two rules share a conclusion, so each disease concludes exactly one rule. |
| MedicalKnowledgeBase.RuleListsDisjoint | data/knowledgeBase.ts:28-69 | Within each rule, the three lists are pairwise disjoint. |
| MedicalKnowledgeBase.ColdListsDisjoint | data/knowledgeBase.ts:32-34 | R1's lists are pairwise disjoint. |
| MedicalKnowledgeBase.FluListsDisjoint | data/knowledgeBase.ts:40-42 | R2's lists are pairwise disjoint. |
| MedicalKnowledgeBase.CovidListsDisjoint | data/knowledgeBase.ts:48-50 | R3's lists are pairwise disjoint. |
| MedicalKnowledgeBase.AllergyListsDisjoint | data/knowledgeBase.ts:56-58 | R4's lists are pairwise disjoint. |
| MedicalKnowledgeBase.PneumoniaListsDisjoint | data/knowledgeBase.ts:64-66 | R5's lists are pairwise disjoint. |
| MedicalKnowledgeBase.RulesResolve | data/knowledgeBase.ts:28-69 | Every rule has a requirement, so the confidence never divides by zero. Every conclusion is a listed disease. |
| MedicalKnowledgeBase.KnowledgeBaseWellFormed | data/knowledgeBase.ts:4-70 | The shipped knowledge base `KB`, built from the constants `Symptoms`, `Diseases` and `R1`..`R5`, is `WellFormed`: it meets every invariant the engine relies on. |
| MedicalKnowledgeBase.ColdWithSoreThroat | data/knowledgeBase.ts:29-36 | For input [S8, S12, S7], R1 has matchCount 2, nothing missing, confidence 90, is satisfied and has no conflict. |
| MedicalKnowledgeBase.ColdWithFever | data/knowledgeBase.ts:29-36 | For input [S8, S12, S1], R1 has conflicting ["High Fever"], confidence 8 and is not satisfied. |
| MedicalKnowledgeBase.ColdWithSoreThroatDiagnosed | data/knowledgeBase.ts:29-36 | Backward chaining for D1 with input [S8, S12, S7] returns the Common Cold result with confidence 90, satisfied. |
| MedicalKnowledgeBase.ColdWithFeverDiagnosed | data/knowledgeBase.ts:29-36 | Backward chaining for D1 with input [S8, S12, S1] returns a result with conflicting ["High Fever"], confidence 8, not satisfied. |
| MedicalKnowledgeBase.RashIrrelevant | data/knowledgeBase.ts:15 | S10 is in no rule's requirements or optionals. |
| MedicalKnowledgeBase.HeartRateIrrelevant | data/knowledgeBase.ts:19 | S14 is in no rule's requirements or optionals. |
| MedicalKnowledgeBase.RashName | data/knowledgeBase.ts:15 | S10 is named "Skin Rash". |
| MedicalKnowledgeBase.HeartRateName | data/knowledgeBase.ts:19 | S14 is named "Rapid Heart Rate". |
| MedicalKnowledgeBase.RashOrHeartRateIsNoise | data/knowledgeBase.ts:15-19 | For any input, selecting S10 or S14 puts its name in the noise. |
| MedicalKnowledgeBase.RashAndHeartRateAreNoise | data/knowledgeBase.ts:13-19 | For input [S10, S8, S14], the noise is exactly ["Skin Rash", "Rapid Heart Rate"], in input order. |
| MedicalKnowledgeBase.UnknownGoalNotFound | data/knowledgeBase.ts:28-69 | Backward chaining for a goal that no rule concludes returns null. |

## Left out

- The React user interface (`App.tsx`), its state hooks and chart, and its call to the
  Gemini `generateContent` service. They are UI and an asynchronous network call.
- IEEE floating point. Confidence is computed exactly on rationals. A float result could
  differ only at an exact .5 rounding boundary.
- The built-in JS sort algorithm and its in-place update of `results`. The sort is
  specified by `Ranking.Rank`, which is stable and sorts by confidence, highest first.
  `ForwardChain` returns a new ranked sequence.
- The exact wording of trace lines. Each line is a token carrying the interpolated data
  (`Invalidated`, `Checking`, `Missing`, `Bonus`).
- Symptom `category`, disease `severity` and `description`, and the unused local
  `totalPotential`. Nothing reads them.
- The distinction between an absent `optional` or `exclusions` list and an empty one. The
  code treats both the same (`|| []`, `|| 0`, `|| 1`).
- The body of the forward-chaining loop and the relevant-id collection are split into
  helper methods (`EvaluateRule`, `ExclusionNames`, `CheckRequirements`, `EvaluateRules`,
  `AddIds`, `CollectRelevant`). They keep the same order of steps.
- Evaluation.Present: its own contract only bounds the length. Membership is stated
  separately, in `Evaluation.PresentAbsentMembers`.
- Evaluation.Absent: its own contract only bounds the length. Membership is stated
  separately, in `Evaluation.PresentAbsentMembers`.
