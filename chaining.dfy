/** Forward chaining over every rule, the goal lookup, and the uncertainty classification,
    as pure functions of the knowledge base and the selected symptom ids. */
module Chaining {
  import opened Types
  import opened Evaluation
  import opened Ranking

  // ---------------------------------------------------------------------------
  // Forward chaining

  /** The rule's conclusion names a listed disease. */
  predicate Resolves(kb: KnowledgeBase, rule: Rule)
  {
    FindDisease(kb.diseases, rule.conclusion).Some?
  }

  /** The disease a resolving rule concludes: the first listed disease with that id. */
  function Concluded(kb: KnowledgeBase, rule: Rule): (d: Disease)
    requires Resolves(kb, rule)
    ensures d in kb.diseases && d.id == rule.conclusion
  {
    FindDisease(kb.diseases, rule.conclusion).value
  }

  /** The index of the first rule whose conclusion does not resolve, if any. */
  function FirstUnresolved(kb: KnowledgeBase, rules: seq<Rule>): (r: Option<nat>)
    ensures r.None? <==> forall i :: 0 <= i < |rules| ==> Resolves(kb, rules[i])
    ensures r.Some? ==> r.value < |rules| && !Resolves(kb, rules[r.value])
    ensures r.Some? ==> forall i :: 0 <= i < r.value ==> Resolves(kb, rules[i])
  {
    if rules == [] then None
    else if !Resolves(kb, rules[0]) then Some(0)
    else
      var r := FirstUnresolved(kb, rules[1..]);
      if r.None? then
        assert forall i :: 0 <= i < |rules| ==> Resolves(kb, rules[i]) by {
          forall i | 0 <= i < |rules| ensures Resolves(kb, rules[i]) {
            if i > 0 { assert rules[i] == rules[1..][i - 1]; }
          }
        }
        None
      else
        assert rules[r.value + 1] == rules[1..][r.value];
        assert forall i :: 0 <= i < r.value + 1 ==> Resolves(kb, rules[i]) by {
          forall i | 0 <= i < r.value + 1 ensures Resolves(kb, rules[i]) {
            if i > 0 { assert rules[i] == rules[1..][i - 1]; }
          }
        }
        Some(r.value + 1)
  }

  /** The per-rule results, in rule order. */
  function RuleResults(kb: KnowledgeBase, rules: seq<Rule>, facts: seq<SymptomId>): (rs: seq<DiagnosticResult>)
    requires forall i :: 0 <= i < |rules| ==> Resolves(kb, rules[i])
    ensures |rs| == |rules|
    ensures forall i :: 0 <= i < |rules| ==>
              rs[i].diseaseId == rules[i].conclusion && rs[i].reason == rules[i].description
  {
    seq(|rules|, i requires 0 <= i < |rules| => RuleResult(kb.symptoms, Concluded(kb, rules[i]), rules[i], facts))
  }

  lemma RuleResultsSnoc(kb: KnowledgeBase, rules: seq<Rule>, rule: Rule, facts: seq<SymptomId>)
    requires forall i :: 0 <= i < |rules| ==> Resolves(kb, rules[i])
    requires Resolves(kb, rule)
    ensures forall i :: 0 <= i < |rules + [rule]| ==> Resolves(kb, (rules + [rule])[i])
    ensures RuleResults(kb, rules + [rule], facts) ==
              RuleResults(kb, rules, facts) + [RuleResult(kb.symptoms, Concluded(kb, rule), rule, facts)]
  {
    assert forall i :: 0 <= i < |rules| ==> (rules + [rule])[i] == rules[i];
  }

  /** `forwardChain`: fails at the first rule whose conclusion is not a listed disease;
      otherwise one result per rule, ranked by confidence, highest first. */
  function Forward(kb: KnowledgeBase, facts: seq<SymptomId>): (r: Result<seq<DiagnosticResult>>)
    ensures r.Success? <==> forall i :: 0 <= i < |kb.rules| ==> Resolves(kb, kb.rules[i])
    ensures r.Failure? ==> exists k :: 0 <= k < |kb.rules| && !Resolves(kb, kb.rules[k]) &&
                                       (forall i :: 0 <= i < k ==> Resolves(kb, kb.rules[i])) &&
                                       r.error == UnknownConclusion(kb.rules[k].id, kb.rules[k].conclusion)
    ensures r.Success? ==> |r.value| == |kb.rules| && Ranked(r.value)
    ensures r.Success? ==> multiset(r.value) == multiset(RuleResults(kb, kb.rules, facts))
  {
    match FirstUnresolved(kb, kb.rules)
    case Some(k) => Failure(UnknownConclusion(kb.rules[k].id, kb.rules[k].conclusion))
    case None => Success(Rank(RuleResults(kb, kb.rules, facts)))
  }

  /** Forward chaining fails with the first rule whose conclusion does not resolve. */
  lemma ForwardFailsAt(kb: KnowledgeBase, facts: seq<SymptomId>, k: nat)
    requires k < |kb.rules| && !Resolves(kb, kb.rules[k])
    requires forall i :: 0 <= i < k ==> Resolves(kb, kb.rules[i])
    ensures Forward(kb, facts) == Failure(UnknownConclusion(kb.rules[k].id, kb.rules[k].conclusion))
  {
    var first := FirstUnresolved(kb, kb.rules);
    assert first.Some?;
    assert first.value == k;
  }

  /** Forward chaining over rules that all resolve ranks their results. */
  lemma ForwardSucceeds(kb: KnowledgeBase, facts: seq<SymptomId>)
    requires forall i :: 0 <= i < |kb.rules| ==> Resolves(kb, kb.rules[i])
    ensures Forward(kb, facts) == Success(Rank(RuleResults(kb, kb.rules, facts)))
  {
    assert FirstUnresolved(kb, kb.rules).None?;
  }

  /** Forward chaining keeps, for every confidence value, the rule order of its results. */
  lemma ForwardStable(kb: KnowledgeBase, facts: seq<SymptomId>, c: int)
    requires Forward(kb, facts).Success?
    ensures WithConfidence(Forward(kb, facts).value, c) == WithConfidence(RuleResults(kb, kb.rules, facts), c)
  {
    RankStable(RuleResults(kb, kb.rules, facts), c);
  }

  /** The ranked list holds exactly the rules' results: each rule's result is in it, and
      each entry is the result of some rule. */
  lemma ForwardEntries(kb: KnowledgeBase, facts: seq<SymptomId>)
    requires Forward(kb, facts).Success?
    ensures var rs, ranked := RuleResults(kb, kb.rules, facts), Forward(kb, facts).value;
      && (forall i :: 0 <= i < |rs| ==> rs[i] in ranked)
      && (forall x :: x in ranked ==> exists i :: 0 <= i < |rs| && rs[i] == x)
  {
    var rs, ranked := RuleResults(kb, kb.rules, facts), Forward(kb, facts).value;
    forall i | 0 <= i < |rs| ensures rs[i] in ranked {
      assert rs[i] in multiset(rs);
    }
    forall x | x in ranked ensures exists i :: 0 <= i < |rs| && rs[i] == x {
      assert x in multiset(ranked);
    }
  }

  /** With no symptom selected (and every rule resolving and having a requirement), every
      result has no match, confidence 0 and is not satisfied. */
  lemma ForwardWithoutFacts(kb: KnowledgeBase)
    requires forall i :: 0 <= i < |kb.rules| ==> Resolves(kb, kb.rules[i]) && kb.rules[i].requirements != []
    ensures Forward(kb, []).Success? && |Forward(kb, []).value| == |kb.rules|
    ensures forall x :: x in Forward(kb, []).value ==> x.matchCount == 0 && x.confidence == 0 && !x.satisfied
  {
    ForwardEntries(kb, []);
    var rs := RuleResults(kb, kb.rules, []);
    forall x | x in Forward(kb, []).value ensures x.matchCount == 0 && x.confidence == 0 && !x.satisfied {
      var i :| 0 <= i < |rs| && rs[i] == x;
      RuleWithoutFacts(kb.symptoms, Concluded(kb, kb.rules[i]), kb.rules[i]);
    }
  }

  // ---------------------------------------------------------------------------
  // Goal lookup

  /** The first rule concluding `goal` (`rules.find(r => r.conclusion === goal)`). */
  function FindRule(rules: seq<Rule>, goal: DiseaseId): (r: Option<Rule>)
    ensures r.Some? ==> r.value in rules && r.value.conclusion == goal
    ensures r.None? <==> forall i :: 0 <= i < |rules| ==> rules[i].conclusion != goal
  {
    if rules == [] then None
    else if rules[0].conclusion == goal then Some(rules[0])
    else
      assert forall i :: 1 <= i < |rules| ==> rules[i] == rules[1..][i - 1];
      FindRule(rules[1..], goal)
  }

  /** The first result for `goal` (`results.find(r => r.diseaseId === goal)`). */
  function FindResult(rs: seq<DiagnosticResult>, goal: DiseaseId): (r: Option<DiagnosticResult>)
    ensures r.Some? ==> r.value in rs && r.value.diseaseId == goal
    ensures r.Some? ==> exists k :: 0 <= k < |rs| && rs[k] == r.value &&
                                    forall j :: 0 <= j < k ==> rs[j].diseaseId != goal
    ensures r.None? <==> forall x :: x in rs ==> x.diseaseId != goal
  {
    if rs == [] then None
    else if rs[0].diseaseId == goal then Some(rs[0])
    else
      assert rs == [rs[0]] + rs[1..];
      var r := FindResult(rs[1..], goal);
      if r.Some? then
        ghost var k :| 0 <= k < |rs[1..]| && rs[1..][k] == r.value &&
                       forall j :: 0 <= j < k ==> rs[1..][j].diseaseId != goal;
        assert rs[k + 1] == r.value;
        assert forall j :: 0 <= j < k + 1 ==> rs[j].diseaseId != goal by {
          forall j | 0 <= j < k + 1 ensures rs[j].diseaseId != goal {
            if j > 0 { assert rs[j] == rs[1..][j - 1]; }
          }
        }
        r
      else
        r
  }

  /** `backwardChain`: null when no rule concludes `goal`; otherwise the first entry for
      `goal` in the ranked forward-chaining list. It fails only where forward chaining fails. */
  function Backward(kb: KnowledgeBase, goal: DiseaseId, facts: seq<SymptomId>): (r: Result<Option<DiagnosticResult>>)
    ensures r == Success(None) <==> forall i :: 0 <= i < |kb.rules| ==> kb.rules[i].conclusion != goal
    ensures r.Success? && r.value.Some? ==>
              Forward(kb, facts).Success? && r.value.value in Forward(kb, facts).value &&
              r.value.value.diseaseId == goal
    ensures r.Success? && r.value.Some? ==>
              exists k :: 0 <= k < |Forward(kb, facts).value| && Forward(kb, facts).value[k] == r.value.value &&
                          forall j :: 0 <= j < k ==> Forward(kb, facts).value[j].diseaseId != goal
    ensures r.Failure? ==> Forward(kb, facts).Failure? && r.error == Forward(kb, facts).error
  {
    if FindRule(kb.rules, goal).None? then Success(None)
    else
      match Forward(kb, facts)
      case Failure(e) => Failure(e)
      case Success(rs) =>
        ConcludedGoalRanked(kb, goal, facts);
        Success(FindResult(rs, goal))
  }

  /** When some rule concludes `goal` and forward chaining succeeds, its ranked list has an
      entry for `goal`. */
  lemma ConcludedGoalRanked(kb: KnowledgeBase, goal: DiseaseId, facts: seq<SymptomId>)
    requires FindRule(kb.rules, goal).Some? && Forward(kb, facts).Success?
    ensures FindResult(Forward(kb, facts).value, goal).Some?
  {
    var rule := FindRule(kb.rules, goal).value;
    var i :| 0 <= i < |kb.rules| && kb.rules[i] == rule;
    ForwardEntries(kb, facts);
    assert RuleResults(kb, kb.rules, facts)[i].diseaseId == goal;
  }

  // ---------------------------------------------------------------------------
  // Uncertainty analysis

  /** The ids in any rule's requirements or optional list (exclusions do not count). */
  function RelevantIds(rules: seq<Rule>): (ids: set<SymptomId>)
    ensures forall id :: id in ids <==>
              exists i :: 0 <= i < |rules| && (id in rules[i].requirements || id in rules[i].optional)
  {
    if rules == [] then {}
    else
      var last := rules[|rules| - 1];
      var init := rules[..|rules| - 1];
      assert forall i :: 0 <= i < |init| ==> init[i] == rules[i];
      RelevantIds(init) + (set id | id in last.requirements) + (set id | id in last.optional)
  }

  /** The selected ids, in selection order, that are not relevant. */
  function Irrelevant(facts: seq<SymptomId>, relevant: set<SymptomId>): (r: seq<SymptomId>)
    ensures |r| <= |facts|
    ensures forall x :: x in r <==> x in facts && x !in relevant
  {
    if facts == [] then []
    else
      var last := facts[|facts| - 1];
      assert facts == facts[..|facts| - 1] + [last];
      Irrelevant(facts[..|facts| - 1], relevant) + (if last !in relevant then [last] else [])
  }

  /** Results with a present exclusion and at least one matched requirement, in list order. */
  function ConflictingResults(rs: seq<DiagnosticResult>): (r: seq<DiagnosticResult>)
    ensures forall x :: x in r <==> x in rs && x.conflicting != [] && x.matchCount > 0
  {
    if rs == [] then []
    else
      assert rs == [rs[0]] + rs[1..];
      (if rs[0].conflicting != [] && rs[0].matchCount > 0 then [rs[0]] else []) + ConflictingResults(rs[1..])
  }

  /** Results with some but not all requirements matched and no exclusion, in list order. */
  function IncompleteResults(rs: seq<DiagnosticResult>): (r: seq<DiagnosticResult>)
    ensures forall x :: x in r <==>
              x in rs && x.matchCount > 0 && x.matchCount < x.missingCount + x.matchCount && x.conflicting == []
  {
    if rs == [] then []
    else
      assert rs == [rs[0]] + rs[1..];
      var x := rs[0];
      (if x.matchCount > 0 && x.matchCount < x.missingCount + x.matchCount && x.conflicting == [] then [x] else [])
      + IncompleteResults(rs[1..])
  }

  /** The fixed confidence gap below which the top two results are ambiguous. */
  const AmbiguityGap: int := 15

  function Abs(x: int): (r: nat)
    ensures r == x || r == -x
  {
    if x < 0 then -x else x
  }

  /** The top two results when their confidences differ by less than the gap, otherwise none. */
  function AmbiguousPair(rs: seq<DiagnosticResult>): (r: seq<DiagnosticResult>)
    ensures r != [] <==> |rs| >= 2 && -AmbiguityGap < rs[0].confidence - rs[1].confidence < AmbiguityGap
    ensures r != [] ==> r == rs[..2]
  {
    if |rs| >= 2 && Abs(rs[0].confidence - rs[1].confidence) < AmbiguityGap then [rs[0], rs[1]] else []
  }

  /** `analyzeUncertainty`. */
  function Uncertainty(kb: KnowledgeBase, rs: seq<DiagnosticResult>, facts: seq<SymptomId>): UncertaintyReport
  {
    UncertaintyReport(
      IncompleteResults(rs),
      ConflictingResults(rs),
      AmbiguousPair(rs),
      Names(kb.symptoms, Irrelevant(facts, RelevantIds(kb.rules))))
  }

  /** The noise group: the names of the selected ids that occur in no rule's requirements or
      optional list, in selection order (an id that only occurs in exclusions is noise). */
  lemma UncertaintyNoise(kb: KnowledgeBase, rs: seq<DiagnosticResult>, facts: seq<SymptomId>)
    ensures var u := Uncertainty(kb, rs, facts);
      && (forall id :: id in facts && (forall i :: 0 <= i < |kb.rules| ==>
            id !in kb.rules[i].requirements && id !in kb.rules[i].optional) ==>
              SymptomName(kb.symptoms, id) in u.noise)
      && (forall id :: id in Irrelevant(facts, RelevantIds(kb.rules)) <==>
            id in facts && forall i :: 0 <= i < |kb.rules| ==>
              id !in kb.rules[i].requirements && id !in kb.rules[i].optional)
      && u.noise == Names(kb.symptoms, Irrelevant(facts, RelevantIds(kb.rules)))
      && |u.noise| == |Irrelevant(facts, RelevantIds(kb.rules))| <= |facts|
  {
    var irrelevant := Irrelevant(facts, RelevantIds(kb.rules));
    forall id | id in facts && (forall i :: 0 <= i < |kb.rules| ==>
                  id !in kb.rules[i].requirements && id !in kb.rules[i].optional)
      ensures SymptomName(kb.symptoms, id) in Uncertainty(kb, rs, facts).noise
    {
      assert id in irrelevant;
      var k :| 0 <= k < |irrelevant| && irrelevant[k] == id;
      assert Names(kb.symptoms, irrelevant)[k] == SymptomName(kb.symptoms, id);
    }
  }

  /** The result groups: conflicting and incomplete are disjoint; incomplete results have
      something missing; the ambiguous group is empty or exactly the top two results, and it
      is not empty exactly when they are less than 15 apart. */
  lemma UncertaintyGroups(kb: KnowledgeBase, rs: seq<DiagnosticResult>, facts: seq<SymptomId>)
    ensures var u := Uncertainty(kb, rs, facts);
      && (forall x :: x in u.conflicting ==> x !in u.incomplete)
      && (forall x :: x in u.incomplete ==> 0 < x.matchCount && x.missingCount > 0 && x.conflicting == [])
      && (u.ambiguous == [] || u.ambiguous == [rs[0], rs[1]])
      && (u.ambiguous != [] <==> |rs| >= 2 && -15 < rs[0].confidence - rs[1].confidence < 15)
  {
  }

  /** The filters keep order and duplicates: filtering a concatenation concatenates the
      filtered parts, and a single element is kept exactly when it passes the test. */
  lemma {:induction false} IrrelevantAppend(a: seq<SymptomId>, b: seq<SymptomId>, relevant: set<SymptomId>)
    ensures Irrelevant(a + b, relevant) == Irrelevant(a, relevant) + Irrelevant(b, relevant)
  {
    if b == [] {
      assert a + b == a;
    } else {
      var init, last := b[..|b| - 1], b[|b| - 1];
      var kept := if last !in relevant then [last] else [];
      assert a + b == (a + init) + [last];
      assert b == init + [last];
      calc {
        Irrelevant(a + b, relevant);
        { IrrelevantSnoc(a + init, last, relevant); }
        Irrelevant(a + init, relevant) + kept;
        { IrrelevantAppend(a, init, relevant); }
        (Irrelevant(a, relevant) + Irrelevant(init, relevant)) + kept;
        Irrelevant(a, relevant) + (Irrelevant(init, relevant) + kept);
        { IrrelevantSnoc(init, last, relevant); }
        Irrelevant(a, relevant) + Irrelevant(b, relevant);
      }
    }
  }

  lemma IrrelevantSnoc(s: seq<SymptomId>, x: SymptomId, relevant: set<SymptomId>)
    ensures Irrelevant(s + [x], relevant) == Irrelevant(s, relevant) + (if x !in relevant then [x] else [])
  {
    assert (s + [x])[..|s|] == s;
  }

  lemma IrrelevantSingle(id: SymptomId, relevant: set<SymptomId>)
    ensures Irrelevant([id], relevant) == if id in relevant then [] else [id]
  {
    assert [id][..0] == [];
  }

  lemma {:induction false} ConflictingAppend(a: seq<DiagnosticResult>, b: seq<DiagnosticResult>)
    ensures ConflictingResults(a + b) == ConflictingResults(a) + ConflictingResults(b)
  {
    if a == [] {
      assert a + b == b;
    } else {
      assert (a + b)[0] == a[0] && (a + b)[1..] == a[1..] + b;
      ConflictingAppend(a[1..], b);
    }
  }

  lemma ConflictingSingle(x: DiagnosticResult)
    ensures ConflictingResults([x]) == if x.conflicting != [] && x.matchCount > 0 then [x] else []
  {
    assert [x][1..] == [];
  }

  lemma {:induction false} IncompleteAppend(a: seq<DiagnosticResult>, b: seq<DiagnosticResult>)
    ensures IncompleteResults(a + b) == IncompleteResults(a) + IncompleteResults(b)
  {
    if a == [] {
      assert a + b == b;
    } else {
      assert (a + b)[0] == a[0] && (a + b)[1..] == a[1..] + b;
      IncompleteAppend(a[1..], b);
    }
  }

  lemma IncompleteSingle(x: DiagnosticResult)
    ensures IncompleteResults([x]) ==
              if x.matchCount > 0 && x.missingCount > 0 && x.conflicting == [] then [x] else []
  {
    assert [x][1..] == [];
  }

  /** The report keeps input order: the noise of a concatenated selection is the noise of
      the first part followed by that of the second, and a single id is noise, by name,
      exactly when no rule requires it or lists it as optional. */
  lemma NoiseInOrder(kb: KnowledgeBase, rs: seq<DiagnosticResult>, a: seq<SymptomId>, b: seq<SymptomId>, id: SymptomId)
    ensures Uncertainty(kb, rs, a + b).noise == Uncertainty(kb, rs, a).noise + Uncertainty(kb, rs, b).noise
    ensures Uncertainty(kb, rs, [id]).noise ==
              if id in RelevantIds(kb.rules) then [] else [SymptomName(kb.symptoms, id)]
  {
    var relevant := RelevantIds(kb.rules);
    IrrelevantAppend(a, b, relevant);
    NamesAppend(kb.symptoms, Irrelevant(a, relevant), Irrelevant(b, relevant));
    IrrelevantSingle(id, relevant);
  }

  /** The conflicting and incomplete groups keep the results' list order. */
  lemma GroupsInOrder(kb: KnowledgeBase, a: seq<DiagnosticResult>, b: seq<DiagnosticResult>, facts: seq<SymptomId>)
    ensures Uncertainty(kb, a + b, facts).conflicting ==
              Uncertainty(kb, a, facts).conflicting + Uncertainty(kb, b, facts).conflicting
    ensures Uncertainty(kb, a + b, facts).incomplete ==
              Uncertainty(kb, a, facts).incomplete + Uncertainty(kb, b, facts).incomplete
  {
    ConflictingAppend(a, b);
    IncompleteAppend(a, b);
  }

  // ---------------------------------------------------------------------------
  // Well-formedness of a knowledge base

  /** Every id a rule mentions is a listed symptom. */
  predicate MentionsListedSymptoms(symptoms: seq<Symptom>, rule: Rule)
  {
    forall id :: id in rule.requirements + rule.optional + rule.exclusions ==> id in SymptomIds(symptoms)
  }

  /** A rule's three lists share no id. */
  predicate ListsDisjoint(rule: Rule)
  {
    && (forall id :: id in rule.requirements ==> id !in rule.optional && id !in rule.exclusions)
    && (forall id :: id in rule.optional ==> id !in rule.exclusions)
  }

  /** Every listed disease is the conclusion of some rule. */
  predicate EveryDiseaseConcluded(kb: KnowledgeBase)
  {
    forall j :: 0 <= j < |kb.diseases| ==>
      exists i :: 0 <= i < |kb.rules| && kb.rules[i].conclusion == kb.diseases[j].id
  }

  /** The knowledge base's invariants: every rule has a requirement, concludes a listed
      disease and mentions only listed symptoms in three disjoint lists; every listed
      disease is the conclusion of some rule, and no two rules share a conclusion. */
  predicate WellFormed(kb: KnowledgeBase)
  {
    && (forall i :: 0 <= i < |kb.rules| ==> kb.rules[i].requirements != [])
    && (forall i :: 0 <= i < |kb.rules| ==> Resolves(kb, kb.rules[i]))
    && (forall i :: 0 <= i < |kb.rules| ==> MentionsListedSymptoms(kb.symptoms, kb.rules[i]))
    && (forall i :: 0 <= i < |kb.rules| ==> ListsDisjoint(kb.rules[i]))
    && EveryDiseaseConcluded(kb)
    && (forall i, k :: 0 <= i < |kb.rules| && 0 <= k < |kb.rules| && i != k ==>
          kb.rules[i].conclusion != kb.rules[k].conclusion)
  }

  /** Two rules with the same conclusion are the same rule. */
  lemma SingleRuleFor(kb: KnowledgeBase, i: nat, k: nat)
    requires forall i, k :: 0 <= i < |kb.rules| && 0 <= k < |kb.rules| && i != k ==>
               kb.rules[i].conclusion != kb.rules[k].conclusion
    requires i < |kb.rules| && k < |kb.rules| && kb.rules[i].conclusion == kb.rules[k].conclusion
    ensures i == k
  {
  }

  /** In a well-formed knowledge base, forward chaining never fails and the goal lookup,
      for a goal some rule concludes, returns exactly that rule's result. */
  lemma BackwardFinds(kb: KnowledgeBase, goal: DiseaseId, facts: seq<SymptomId>, i: nat)
    requires WellFormed(kb)
    requires i < |kb.rules| && kb.rules[i].conclusion == goal
    ensures Forward(kb, facts).Success?
    ensures Backward(kb, goal, facts) ==
              Success(Some(RuleResult(kb.symptoms, Concluded(kb, kb.rules[i]), kb.rules[i], facts)))
  {
    assert forall j :: 0 <= j < |kb.rules| ==> Resolves(kb, kb.rules[j]);
    var rs := RuleResults(kb, kb.rules, facts);
    ForwardSucceeds(kb, facts);
    var ranked := Forward(kb, facts).value;
    assert FindRule(kb.rules, goal).Some?;
    assert Backward(kb, goal, facts) == Success(FindResult(ranked, goal));
    ConcludedGoalRanked(kb, goal, facts);
    var x := FindResult(ranked, goal).value;
    assert x in multiset(rs) by {
      assert x in multiset(ranked);
    }
    var k :| 0 <= k < |rs| && rs[k] == x;
    SingleRuleFor(kb, i, k);
  }
}
