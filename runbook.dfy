/** The runbook service: evaluates a fixed, ordered table of automation rules
    against the context of a query and reports the ones that fire. */
module Runbook {
  import opened Common

  /** The evaluation context: `context.get("intent")` (None when the key is
      absent) and `context.get("docs", [])`. */
  datatype Context = Context(intent: Option<string>, docs: seq<Doc>)

  /** The conditions the rule table uses. */
  datatype Condition =
    | EligibilityWithDocuments  // intent is "eligibility_question" and there are documents
    | EscalationNeeded          // intent is "escalation_needed"
    | Always

  datatype Rule = Rule(name: string, condition: Condition, action: string, priority: string)

  /** A rule that fired, as reported: its name, action and priority. */
  datatype TriggeredRule = TriggeredRule(name: string, action: string, priority: string)

  datatype Evaluation = Evaluation(
    triggeredRules: seq<TriggeredRule>,
    actionsTaken: seq<string>,
    ruleCount: nat)

  const EmailRule: Rule := Rule("Send confirmation email", EligibilityWithDocuments, "email_confirmation", "low")
  const TicketRule: Rule := Rule("Create support ticket", EscalationNeeded, "create_ticket", "high")
  const LogRule: Rule := Rule("Log query for analytics", Always, "log_query", "low")

  /** The rule table, in evaluation order. */
  const Rules: seq<Rule> := [EmailRule, TicketRule, LogRule]

  predicate Holds(c: Condition, ctx: Context) {
    match c
    case EligibilityWithDocuments => ctx.intent == Some("eligibility_question") && |ctx.docs| > 0
    case EscalationNeeded => ctx.intent == Some("escalation_needed")
    case Always => true
  }

  function Report(r: Rule): TriggeredRule {
    TriggeredRule(r.name, r.action, r.priority)
  }

  /** The rules of `rules` whose condition holds, in table order. */
  function Triggered(rules: seq<Rule>, ctx: Context): seq<TriggeredRule>
    decreases |rules|
  {
    if rules == [] then []
    else
      var r := rules[|rules| - 1];
      Triggered(rules[..|rules| - 1], ctx) + (if Holds(r.condition, ctx) then [Report(r)] else [])
  }

  function Actions(ts: seq<TriggeredRule>): (actions: seq<string>)
    ensures |actions| == |ts|
    ensures forall i :: 0 <= i < |ts| ==> actions[i] == ts[i].action
  {
    seq(|ts|, i requires 0 <= i < |ts| => ts[i].action)
  }

  /** `evaluate_rules`. */
  method EvaluateRules(ctx: Context) returns (result: Evaluation)
    ensures result.triggeredRules == Triggered(Rules, ctx)
    ensures |result.actionsTaken| == |result.triggeredRules|
    ensures forall i :: 0 <= i < |result.actionsTaken| ==>
      result.actionsTaken[i] == result.triggeredRules[i].action
    ensures result.ruleCount == |result.triggeredRules|
  {
    var triggered: seq<TriggeredRule> := [];
    var k := 0;
    while k < |Rules|
      invariant 0 <= k <= |Rules|
      invariant triggered == Triggered(Rules[..k], ctx)
    {
      var rule := Rules[k];
      assert Rules[..k + 1][..k] == Rules[..k];
      if Holds(rule.condition, ctx) {
        triggered := triggered + [Report(rule)];
      }
      k := k + 1;
    }
    assert Rules[..k] == Rules;
    result := Evaluation(triggered, Actions(triggered), |triggered|);
  }

  // ---------------------------------------------------------------------------
  // Properties

  /** A rule is reported exactly when it is in the table and its condition holds;
      no more rules are reported than the table has. */
  lemma {:induction false} TriggeredMembers(rules: seq<Rule>, ctx: Context, r: Rule)
    ensures r in rules && Holds(r.condition, ctx) ==> Report(r) in Triggered(rules, ctx)
    ensures forall t :: t in Triggered(rules, ctx) ==>
      exists q :: q in rules && Holds(q.condition, ctx) && t == Report(q)
    ensures |Triggered(rules, ctx)| <= |rules|
    decreases |rules|
  {
    if rules != [] {
      var init := rules[..|rules| - 1];
      var last := rules[|rules| - 1];
      TriggeredMembers(init, ctx, r);
      assert r in rules ==> r in init || r == last;
      forall t | t in Triggered(rules, ctx)
        ensures exists q :: q in rules && Holds(q.condition, ctx) && t == Report(q)
      {
        if t in Triggered(init, ctx) {
          var q :| q in init && Holds(q.condition, ctx) && t == Report(q);
          assert q in rules;
        } else {
          assert last in rules;
        }
      }
    }
  }

  /** The triggered rules, spelled out: the email rule when the intent is an
      eligibility question with documents, the ticket rule when the intent is
      "escalation_needed", and always the logging rule, last. */
  lemma TriggeredInTableOrder(ctx: Context)
    ensures Triggered(Rules, ctx) ==
      (if Holds(EligibilityWithDocuments, ctx) then [Report(EmailRule)] else [])
      + (if Holds(EscalationNeeded, ctx) then [Report(TicketRule)] else [])
      + [Report(LogRule)]
  {
    var one := [EmailRule];
    var two := [EmailRule, TicketRule];
    assert Rules[..|Rules| - 1] == two;
    assert two[..|two| - 1] == one;
    assert one[..|one| - 1] == [];
    assert Triggered(one, ctx) == (if Holds(EligibilityWithDocuments, ctx) then [Report(EmailRule)] else []);
    assert Triggered(two, ctx) == Triggered(one, ctx)
      + (if Holds(EscalationNeeded, ctx) then [Report(TicketRule)] else []);
  }

  /** "log_query" is always taken and always last; "create_ticket" exactly for
      "escalation_needed"; "email_confirmation" exactly for an eligibility
      question with documents; and one or two rules fire. */
  lemma ActionsTaken(ctx: Context, result: Evaluation)
    requires result.triggeredRules == Triggered(Rules, ctx)
    requires |result.actionsTaken| == |result.triggeredRules|
    requires forall i :: 0 <= i < |result.actionsTaken| ==>
      result.actionsTaken[i] == result.triggeredRules[i].action
    requires result.ruleCount == |result.triggeredRules|
    ensures result.actionsTaken != [] && result.actionsTaken[|result.actionsTaken| - 1] == "log_query"
    ensures "create_ticket" in result.actionsTaken <==> ctx.intent == Some("escalation_needed")
    ensures "email_confirmation" in result.actionsTaken <==>
      ctx.intent == Some("eligibility_question") && |ctx.docs| > 0
    ensures 1 <= result.ruleCount <= 2
  {
    TriggeredInTableOrder(ctx);
    var a := result.actionsTaken;
    if Holds(EligibilityWithDocuments, ctx) {
      assert a == ["email_confirmation", "log_query"];
    } else if Holds(EscalationNeeded, ctx) {
      assert a == ["create_ticket", "log_query"];
    } else {
      assert a == ["log_query"];
    }
  }
}
