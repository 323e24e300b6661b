/** The ordered policy rules. The first rule that matches the principal and the operation decides. */
module Policy {
  import opened Wrappers
  import opened Journal

  datatype Rule = Rule(
    ruleId: string,
    principals: seq<string>,
    operations: seq<string>,
    decision: Verdict,
    authorities: seq<string>)

  datatype PolicyDecision = PolicyDecision(outcome: Verdict, ruleId: Option<string>, granted: seq<string>)

  /** The rule names one of the principals, and the operation; "*" stands for all. */
  predicate Matches(rule: Rule, principals: seq<string>, operation: string) {
    && ("*" in rule.principals || exists p :: p in principals && p in rule.principals)
    && ("*" in rule.operations || operation in rule.operations)
  }

  /** The rule has every authority that the operation needs. */
  predicate Grants(rule: Rule, required: seq<string>) {
    forall a :: a in required ==> a in rule.authorities
  }

  /** The decision of one matching rule. */
  function DecisionOf(rule: Rule, required: seq<string>): PolicyDecision {
    if !Grants(rule, required) then PolicyDecision(Deny, Some(rule.ruleId), [])
    else PolicyDecision(rule.decision, Some(rule.ruleId), required)
  }

  /** `i` is the first rule that matches. */
  ghost predicate FirstMatch(rules: seq<Rule>, principals: seq<string>, operation: string, i: nat) {
    i < |rules| && Matches(rules[i], principals, operation) &&
    forall j :: 0 <= j < i ==> !Matches(rules[j], principals, operation)
  }

  /** The decision of a rule list. The default is always to deny. */
  function Decision(
    rules: seq<Rule>, principals: seq<string>, operation: string, required: seq<string>): PolicyDecision
  {
    if rules == [] then PolicyDecision(Deny, None, [])
    else if Matches(rules[0], principals, operation) then DecisionOf(rules[0], required)
    else Decision(rules[1..], principals, operation, required)
  }

  lemma {:induction false} FirstMatchDecides(
    rules: seq<Rule>, principals: seq<string>, operation: string, required: seq<string>, i: nat)
    requires FirstMatch(rules, principals, operation, i)
    ensures Decision(rules, principals, operation, required) == DecisionOf(rules[i], required)
  {
    if i > 0 {
      assert forall j :: 0 <= j < i - 1 ==> rules[1..][j] == rules[j + 1];
      FirstMatchDecides(rules[1..], principals, operation, required, i - 1);
    }
  }

  /** Rule `i` is the first that names the operation, or "*", and a principal, or "*". */
  ghost predicate DecidesAt(rules: seq<Rule>, principals: seq<string>, operation: string, i: nat) {
    && i < |rules|
    && ("*" in rules[i].operations || operation in rules[i].operations)
    && ("*" in rules[i].principals || exists p <- principals :: p in rules[i].principals)
    && forall j :: 0 <= j < i ==>
         || ("*" !in rules[j].operations && operation !in rules[j].operations)
         || ("*" !in rules[j].principals && forall p <- principals :: p !in rules[j].principals)
  }

  /** The decision: the one of the rule that decides, if it has every authority, and otherwise to deny. */
  method Evaluate(rules: seq<Rule>, principals: seq<string>, operation: string, required: seq<string>)
    returns (d: PolicyDecision)
    ensures d == Decision(rules, principals, operation, required)
    ensures forall i: nat :: FirstMatch(rules, principals, operation, i) <==> DecidesAt(rules, principals, operation, i)
    ensures d.outcome != Deny <==>
              exists i: nat ::
                && DecidesAt(rules, principals, operation, i)
                && (forall a <- required :: a in rules[i].authorities)
                && rules[i].decision == d.outcome != Deny
    ensures forall i: nat :: DecidesAt(rules, principals, operation, i) ==>
              && d.ruleId == Some(rules[i].ruleId)
              && if forall a <- required :: a in rules[i].authorities
                 then d.outcome == rules[i].decision && d.granted == required
                 else d.outcome == Deny && d.granted == []
    ensures (forall i: nat :: !DecidesAt(rules, principals, operation, i)) ==> d == PolicyDecision(Deny, None, [])
  {
    for index := 0 to |rules|
      invariant forall j :: 0 <= j < index ==> !Matches(rules[j], principals, operation)
      invariant Decision(rules, principals, operation, required)
             == Decision(rules[index..], principals, operation, required)
    {
      var rule := rules[index];
      if Matches(rule, principals, operation) {
        assert FirstMatch(rules, principals, operation, index);
        FirstMatchIsDecider(rules, principals, operation);
        if exists a :: a in required && a !in rule.authorities {
          return PolicyDecision(Deny, Some(rule.ruleId), []);
        }
        return PolicyDecision(rule.decision, Some(rule.ruleId), required);
      }
      assert rules[index..][1..] == rules[index + 1..];
    }
    FirstMatchIsDecider(rules, principals, operation);
    return PolicyDecision(Deny, None, []);
  }

  lemma FirstMatchIsDecider(rules: seq<Rule>, principals: seq<string>, operation: string)
    ensures forall i: nat :: FirstMatch(rules, principals, operation, i) <==> DecidesAt(rules, principals, operation, i)
    ensures forall i: nat, j: nat ::
              DecidesAt(rules, principals, operation, i) && DecidesAt(rules, principals, operation, j) ==> i == j
  {
  }

  /** Whatever follows the first match does not matter: the decision stays the same. */
  lemma LaterRulesDoNotMatter(
    rules: seq<Rule>, more: seq<Rule>, principals: seq<string>, operation: string, required: seq<string>, i: nat)
    requires FirstMatch(rules, principals, operation, i)
    ensures Decision(rules[..i + 1] + more, principals, operation, required)
         == Decision(rules, principals, operation, required)
  {
    var other := rules[..i + 1] + more;
    assert forall j :: 0 <= j <= i ==> other[j] == rules[j];
    FirstMatchDecides(rules, principals, operation, required, i);
    FirstMatchDecides(other, principals, operation, required, i);
  }
}
