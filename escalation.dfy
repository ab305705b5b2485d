/** The escalation agent: decides whether a query goes to a human expert,
    from five boolean triggers, and explains why. */
module Escalation {
  import opened Common

  /** `confidence < 0.7` marks a classification as unreliable. */
  const LowConfidenceThreshold: real := 0.7

  /** The confidence `check_escalation` assumes when its caller gives none. */
  const DefaultConfidence: real := 0.5

  const CaseIdPrefix: string := "CLW-2024-ESC-"

  const UpperHexDigits: string := "0123456789ABCDEF"
  const LowerHexDigits: string := "0123456789abcdef"

  /** Keyword pairs whose terms, found in two different documents, signal a conflict. */
  const ConflictingPairs: seq<(string, string)> :=
    [("eligible", "ineligible"), ("approved", "denied"), ("yes", "no")]

  /** The five keys of the triggers dictionary. */
  datatype Trigger =
    | LowConfidence
    | NoDocuments
    | HighRiskIntent
    | ConflictingInformation
    | MissingCriticalData

  /** The order in which the triggers dictionary is declared (and iterated). */
  const Declared: seq<Trigger> :=
    [LowConfidence, NoDocuments, HighRiskIntent, ConflictingInformation, MissingCriticalData]

  function Key(t: Trigger): string {
    match t
    case LowConfidence => "low_confidence"
    case NoDocuments => "no_documents"
    case HighRiskIntent => "high_risk_intent"
    case ConflictingInformation => "conflicting_information"
    case MissingCriticalData => "missing_critical_data"
  }

  /** Position of a trigger in the declaration order. */
  function Rank(t: Trigger): (n: nat)
    ensures n < |Declared| && Declared[n] == t
  {
    match t
    case LowConfidence => 0
    case NoDocuments => 1
    case HighRiskIntent => 2
    case ConflictingInformation => 3
    case MissingCriticalData => 4
  }

  /** Position of a reason key in the declaration order; 5 for any other string. */
  function KeyRank(k: string): nat {
    if k == "low_confidence" then 0
    else if k == "no_documents" then 1
    else if k == "high_risk_intent" then 2
    else if k == "conflicting_information" then 3
    else if k == "missing_critical_data" then 4
    else 5
  }

  /** The value of each trigger for one query. */
  datatype Signals = Signals(
    lowConfidence: bool,
    noDocuments: bool,
    highRiskIntent: bool,
    conflictingInformation: bool,
    missingCriticalData: bool)

  /** The escalation decision returned to the pipeline. */
  datatype Decision = Decision(
    shouldEscalate: bool,
    caseId: Option<string>,
    priority: string,
    triggeredReasons: seq<string>,
    reasoning: string)

  predicate Holds(t: Trigger, s: Signals) {
    match t
    case LowConfidence => s.lowConfidence
    case NoDocuments => s.noDocuments
    case HighRiskIntent => s.highRiskIntent
    case ConflictingInformation => s.conflictingInformation
    case MissingCriticalData => s.missingCriticalData
  }

  /** `all(doc.get("content") for doc in documents)`. */
  predicate AllHaveContent(docs: seq<Doc>) {
    forall i :: 0 <= i < |docs| ==> Truthy(docs[i].content)
  }

  function SignalsOf(intent: string, docs: seq<Doc>, confidence: real, conflicts: bool): Signals {
    Signals(
      confidence < LowConfidenceThreshold,
      |docs| == 0,
      intent in HighRiskIntents,
      conflicts,
      !AllHaveContent(docs))
  }

  /** `any(escalation_triggers.values())`. */
  predicate AnyHolds(s: Signals) {
    s.lowConfidence || s.noDocuments || s.highRiskIntent || s.conflictingInformation || s.missingCriticalData
  }

  /** The triggers of `ts` that hold, in the order of `ts`. */
  function Fired(ts: seq<Trigger>, s: Signals): seq<Trigger>
    decreases |ts|
  {
    if ts == [] then []
    else (if Holds(ts[0], s) then [ts[0]] else []) + Fired(ts[1..], s)
  }

  function Keys(ts: seq<Trigger>): (ks: seq<string>)
    ensures |ks| == |ts|
    ensures forall i :: 0 <= i < |ts| ==> ks[i] == Key(ts[i])
  {
    seq(|ts|, i requires 0 <= i < |ts| => Key(ts[i]))
  }

  // ---------------------------------------------------------------------------
  // Case identifiers

  /** What `uuid.uuid4().hex` yields: 32 lower-case hexadecimal digits. */
  predicate IsUuidHex(h: string) {
    |h| == 32 && forall i :: 0 <= i < |h| ==> h[i] in LowerHexDigits
  }

  /** The case number of an escalated query: the prefix, then the first six
      hexadecimal digits of the random UUID in upper case. */
  function CaseId(uuidHex: string): string
    requires IsUuidHex(uuidHex)
  {
    CaseIdPrefix + Upper(uuidHex[..6])
  }

  predicate IsCaseId(c: string) {
    |c| == |CaseIdPrefix| + 6
    && c[..|CaseIdPrefix|] == CaseIdPrefix
    && forall i :: |CaseIdPrefix| <= i < |c| ==> c[i] in UpperHexDigits
  }

  lemma CaseIdShape(uuidHex: string)
    requires IsUuidHex(uuidHex)
    ensures IsCaseId(CaseId(uuidHex))
  {
    var c := CaseId(uuidHex);
    forall i | |CaseIdPrefix| <= i < |c|
      ensures c[i] in UpperHexDigits
    {
      var d := uuidHex[i - |CaseIdPrefix|];
      assert c[i] == UpperChar(d);
      assert d in LowerHexDigits;
    }
  }

  // ---------------------------------------------------------------------------
  // Reasoning text

  /** `reason_map.get(r, r)`. */
  function Explain(reason: string): string {
    if reason == "low_confidence" then "The system has low confidence in its classification"
    else if reason == "no_documents" then "No relevant policy documents were found"
    else if reason == "high_risk_intent" then "This query involves high-stakes compliance decisions"
    else if reason == "conflicting_information" then "Retrieved documents contain conflicting information"
    else if reason == "missing_critical_data" then "Critical information is missing from available documents"
    else reason
  }

  /** `_generate_escalation_reasoning`. */
  function GenerateReasoning(reasons: seq<string>): string {
    Join(" | ", seq(|reasons|, i requires 0 <= i < |reasons| => Explain(reasons[i])))
  }

  /** The reasoning is empty exactly when no reason is given (for non-empty
      reason keys, as every trigger key is). */
  lemma ReasoningEmptyIff(reasons: seq<string>)
    requires forall i :: 0 <= i < |reasons| ==> reasons[i] != ""
    ensures GenerateReasoning(reasons) == "" <==> reasons == []
  {
    var parts := seq(|reasons|, i requires 0 <= i < |reasons| => Explain(reasons[i]));
    forall i | 0 <= i < |parts|
      ensures parts[i] != ""
    {
      assert reasons[i] != "";
    }
    JoinEmptyIff(" | ", parts);
  }

  // ---------------------------------------------------------------------------
  // Conflict detection

  const NullContentError: string := "AttributeError: 'NoneType' object has no attribute 'lower'"

  /** Some pair's first term occurs in `c1` and its second term in `c2`. */
  predicate AnyPair(c1: string, c2: string) {
    exists p :: 0 <= p < |ConflictingPairs|
      && Contains(c1, ConflictingPairs[p].0) && Contains(c2, ConflictingPairs[p].1)
  }

  /** The lower-cased content a document contributes, with an absent key as "". */
  function LoweredContent(d: Doc): string {
    match d.content
    case Text(s) => Lower(s)
    case _ => ""
  }

  /** Two value-unequal documents whose contents hold the two terms of a pair. */
  predicate Clash(d1: Doc, d2: Doc) {
    d1 != d2 && AnyPair(LoweredContent(d1), LoweredContent(d2))
  }

  /** What `_check_conflicts` is meant to detect: a clashing pair of documents. */
  ghost predicate HasConflict(docs: seq<Doc>) {
    exists a, b :: 0 <= a < |docs| && 0 <= b < |docs| && Clash(docs[a], docs[b])
  }

  predicate NoNullContent(docs: seq<Doc>) {
    forall i :: 0 <= i < |docs| ==> !docs[i].content.Null?
  }

  /** The inner loop of `_check_conflicts`: compare `d1` (lower-cased content `c1`)
      with `docs[j..]`; a present-but-None content raises. */
  function ScanInner(docs: seq<Doc>, d1: Doc, c1: string, j: nat): Result<bool, string>
    decreases |docs| - j
  {
    if j >= |docs| then Ok(false)
    else if d1 == docs[j] then ScanInner(docs, d1, c1, j + 1)
    else match GetOr(docs[j].content, "")
      case Text(c2) =>
        if AnyPair(c1, Lower(c2)) then Ok(true) else ScanInner(docs, d1, c1, j + 1)
      case _ => Err(NullContentError)
  }

  /** The outer loop of `_check_conflicts`, from document `i` on. */
  function ScanOuter(docs: seq<Doc>, i: nat): Result<bool, string>
    decreases |docs| - i
  {
    if i >= |docs| then Ok(false)
    else match GetOr(docs[i].content, "")
      case Text(c1) =>
        (match ScanInner(docs, docs[i], Lower(c1), 0)
         case Ok(found) => if found then Ok(true) else ScanOuter(docs, i + 1)
         case Err(e) => Err(e))
      case _ => Err(NullContentError)
  }

  /** `_check_conflicts`. */
  function CheckConflicts(docs: seq<Doc>): Result<bool, string> {
    if |docs| < 2 then Ok(false) else ScanOuter(docs, 0)
  }

  lemma EmptyHasNoPair(c: string)
    ensures !AnyPair(c, "") && !AnyPair("", c)
  {
    forall p | 0 <= p < |ConflictingPairs|
      ensures !Contains("", ConflictingPairs[p].0) && !Contains("", ConflictingPairs[p].1)
    {
      assert |ConflictingPairs[p].0| > 0 && |ConflictingPairs[p].1| > 0;
    }
  }

  /** Some document of `docs[j..]` clashes with `d1`. */
  ghost predicate ClashWith(docs: seq<Doc>, d1: Doc, j: nat) {
    exists k :: j <= k < |docs| && Clash(d1, docs[k])
  }

  /** Some document of `docs[i..]` clashes with some document of `docs`. */
  ghost predicate ClashFrom(docs: seq<Doc>, i: nat) {
    exists a, b :: i <= a < |docs| && 0 <= b < |docs| && Clash(docs[a], docs[b])
  }

  /** Some document of `docs[j..]` has a None content. */
  ghost predicate NullFrom(docs: seq<Doc>, j: nat) {
    exists k :: j <= k < |docs| && docs[k].content.Null?
  }

  lemma ClashWithStep(docs: seq<Doc>, d1: Doc, j: nat)
    requires j < |docs|
    ensures ClashWith(docs, d1, j) <==> Clash(d1, docs[j]) || ClashWith(docs, d1, j + 1)
  {
    if ClashWith(docs, d1, j) {
      var k :| j <= k < |docs| && Clash(d1, docs[k]);
      if k > j { assert ClashWith(docs, d1, j + 1); }
    }
  }

  lemma NullFromStep(docs: seq<Doc>, j: nat)
    requires j < |docs|
    ensures NullFrom(docs, j) <==> docs[j].content.Null? || NullFrom(docs, j + 1)
  {
    if NullFrom(docs, j) {
      var k :| j <= k < |docs| && docs[k].content.Null?;
      if k > j { assert NullFrom(docs, j + 1); }
    }
  }

  lemma ClashFromStep(docs: seq<Doc>, i: nat)
    requires i < |docs|
    ensures ClashFrom(docs, i) <==> ClashWith(docs, docs[i], 0) || ClashFrom(docs, i + 1)
  {
    if ClashFrom(docs, i) {
      var a, b :| i <= a < |docs| && 0 <= b < |docs| && Clash(docs[a], docs[b]);
      if a == i { assert ClashWith(docs, docs[i], 0); } else { assert ClashFrom(docs, i + 1); }
    }
    if ClashWith(docs, docs[i], 0) {
      var k :| 0 <= k < |docs| && Clash(docs[i], docs[k]);
      assert ClashFrom(docs, i);
    }
  }

  lemma {:induction false} ScanInnerSound(docs: seq<Doc>, d1: Doc, j: nat)
    ensures ScanInner(docs, d1, LoweredContent(d1), j).Ok? ==>
      ScanInner(docs, d1, LoweredContent(d1), j).value == ClashWith(docs, d1, j)
    ensures ScanInner(docs, d1, LoweredContent(d1), j).Err? ==> NullFrom(docs, j)
    ensures !NullFrom(docs, j) ==> ScanInner(docs, d1, LoweredContent(d1), j).Ok?
    decreases |docs| - j
  {
    if j < |docs| {
      ScanInnerSound(docs, d1, j + 1);
      ClashWithStep(docs, d1, j);
      NullFromStep(docs, j);
      EmptyHasNoPair(LoweredContent(d1));
    }
  }

  /** The content string `GetOr` yields for a document whose content is not None. */
  function LoweredContentRaw(d: Doc): string
    requires !d.content.Null?
    ensures Lower(LoweredContentRaw(d)) == LoweredContent(d)
  {
    match d.content
    case Text(s) => s
    case _ => ""
  }

  lemma {:induction false} ScanOuterSound(docs: seq<Doc>, i: nat)
    ensures ScanOuter(docs, i).Ok? ==> ScanOuter(docs, i).value == ClashFrom(docs, i)
    ensures ScanOuter(docs, i).Err? ==> NullFrom(docs, 0)
    ensures !NullFrom(docs, 0) ==> ScanOuter(docs, i).Ok?
    decreases |docs| - i
  {
    if i < |docs| {
      var d1 := docs[i];
      ScanInnerSound(docs, d1, 0);
      ScanOuterSound(docs, i + 1);
      ClashFromStep(docs, i);
      if d1.content.Null? {
        assert NullFrom(docs, 0);
      } else {
        assert GetOr(d1.content, "") == Text(LoweredContentRaw(d1));
      }
    }
  }

  /** `_check_conflicts` returns True exactly for a clashing pair of documents;
      it can only fail on a document whose content is None, and never fails
      when there is none. */
  lemma CheckConflictsCorrect(docs: seq<Doc>)
    ensures CheckConflicts(docs).Ok? ==> (CheckConflicts(docs).value <==> HasConflict(docs))
    ensures CheckConflicts(docs).Err? ==> !NoNullContent(docs)
    ensures NoNullContent(docs) ==> CheckConflicts(docs) == Ok(HasConflict(docs))
  {
    if |docs| < 2 {
      ShortHasNoConflict(docs);
    } else {
      ScanOuterSound(docs, 0);
      assert HasConflict(docs) == ClashFrom(docs, 0);
      assert NoNullContent(docs) == !NullFrom(docs, 0);
    }
  }

  lemma ShortHasNoConflict(docs: seq<Doc>)
    requires |docs| < 2
    ensures !HasConflict(docs)
  {
  }

  /** Fewer than two documents never conflict. */
  lemma ConflictsNeedTwoDocuments(docs: seq<Doc>)
    requires |docs| < 2
    ensures CheckConflicts(docs) == Ok(false)
    ensures !HasConflict(docs)
  {
    CheckConflictsCorrect(docs);
  }

  // ---------------------------------------------------------------------------
  // The decision

  /** The decision once the triggers are known. */
  function Decide(s: Signals, uuidHex: string): Decision
    requires IsUuidHex(uuidHex)
  {
    var escalate := AnyHolds(s);
    var reasons := Keys(Fired(Declared, s));
    Decision(
      escalate,
      if escalate then Some(CaseId(uuidHex)) else None,
      if |reasons| > 2 then "high" else "medium",
      reasons,
      GenerateReasoning(reasons))
  }

  /** `check_escalation`, with the UUID drawn by the caller. */
  function CheckEscalation(intent: string, docs: seq<Doc>, confidence: real, uuidHex: string): Result<Decision, string>
    requires IsUuidHex(uuidHex)
  {
    match CheckConflicts(docs)
    case Ok(conflicts) => Ok(Decide(SignalsOf(intent, docs, confidence, conflicts), uuidHex))
    case Err(e) => Err(e)
  }

  lemma {:induction false} FiredMembers(ts: seq<Trigger>, s: Signals)
    ensures forall t :: t in Fired(ts, s) <==> t in ts && Holds(t, s)
    decreases |ts|
  {
    if ts != [] {
      FiredMembers(ts[1..], s);
      assert forall t :: t in ts <==> t == ts[0] || t in ts[1..];
    }
  }

  lemma {:induction false} FiredOrdered(ts: seq<Trigger>, s: Signals)
    requires forall i, j :: 0 <= i < j < |ts| ==> Rank(ts[i]) < Rank(ts[j])
    ensures forall i, j :: 0 <= i < j < |Fired(ts, s)| ==> Rank(Fired(ts, s)[i]) < Rank(Fired(ts, s)[j])
    decreases |ts|
  {
    if ts != [] {
      var rest := Fired(ts[1..], s);
      FiredOrdered(ts[1..], s);
      FiredMembers(ts[1..], s);
      forall t | t in rest
        ensures Rank(ts[0]) < Rank(t)
      {
        var k :| 0 <= k < |ts[1..]| && ts[1..][k] == t;
        assert ts[k + 1] == t;
      }
    }
  }

  lemma KeyRanks(t: Trigger)
    ensures KeyRank(Key(t)) == Rank(t)
  {
  }

  lemma KeyInKeys(ts: seq<Trigger>, t: Trigger)
    ensures Key(t) in Keys(ts) <==> t in ts
  {
    if Key(t) in Keys(ts) {
      var k :| 0 <= k < |ts| && Keys(ts)[k] == Key(t);
      assert ts[k] == t;
    }
    if t in ts {
      var k :| 0 <= k < |ts| && ts[k] == t;
      assert Keys(ts)[k] == Key(t);
    }
  }

  /** A trigger that holds, when any does. */
  function WitnessTrigger(s: Signals): (t: Trigger)
    requires AnyHolds(s)
    ensures Holds(t, s)
  {
    if s.lowConfidence then LowConfidence
    else if s.noDocuments then NoDocuments
    else if s.highRiskIntent then HighRiskIntent
    else if s.conflictingInformation then ConflictingInformation
    else MissingCriticalData
  }

  /** The listed reasons are the keys of exactly the triggers that hold. */
  lemma FiredKeysMembers(s: Signals)
    ensures forall t :: Key(t) in Keys(Fired(Declared, s)) <==> Holds(t, s)
  {
    FiredMembers(Declared, s);
    forall t
      ensures Key(t) in Keys(Fired(Declared, s)) <==> Holds(t, s)
    {
      KeyInKeys(Fired(Declared, s), t);
      assert t in Declared by { assert Declared[Rank(t)] == t; }
    }
  }

  /** The listed reasons keep the declaration order. */
  lemma FiredKeysOrdered(s: Signals)
    ensures forall i, j :: 0 <= i < j < |Keys(Fired(Declared, s))| ==>
      KeyRank(Keys(Fired(Declared, s))[i]) < KeyRank(Keys(Fired(Declared, s))[j])
    ensures |Fired(Declared, s)| <= |Declared|
  {
    var fired := Fired(Declared, s);
    FiredOrdered(Declared, s);
    forall i, j | 0 <= i < j < |fired|
      ensures KeyRank(Keys(fired)[i]) < KeyRank(Keys(fired)[j])
    {
      KeyRanks(fired[i]);
      KeyRanks(fired[j]);
    }
    FiredLength(Declared, s);
  }

  lemma {:induction false} FiredLength(ts: seq<Trigger>, s: Signals)
    ensures |Fired(ts, s)| <= |ts|
    decreases |ts|
  {
    if ts != [] {
      FiredLength(ts[1..], s);
    }
  }

  /** Some reason is listed exactly when some trigger holds. */
  lemma FiredKeysNonEmpty(s: Signals)
    ensures Keys(Fired(Declared, s)) != [] <==> AnyHolds(s)
  {
    FiredKeysMembers(s);
    if AnyHolds(s) {
      var t := WitnessTrigger(s);
      assert Key(t) in Keys(Fired(Declared, s));
    }
    if Keys(Fired(Declared, s)) != [] {
      var t := Fired(Declared, s)[0];
      FiredMembers(Declared, s);
      assert Holds(t, s);
    }
  }

  /** Every reason key is non-empty. */
  lemma KeysNonEmpty(ts: seq<Trigger>)
    ensures forall i :: 0 <= i < |Keys(ts)| ==> Keys(ts)[i] != ""
  {
    forall i | 0 <= i < |Keys(ts)|
      ensures Keys(ts)[i] != ""
    {
      assert Keys(ts)[i] == Key(ts[i]);
    }
  }

  /** The decision of `check_escalation` is the one its triggers give. */
  lemma DecisionFromSignals(intent: string, docs: seq<Doc>, confidence: real, uuidHex: string, d: Decision)
    requires IsUuidHex(uuidHex)
    requires CheckEscalation(intent, docs, confidence, uuidHex) == Ok(d)
    ensures d == Decide(SignalsOf(intent, docs, confidence, HasConflict(docs)), uuidHex)
  {
    CheckConflictsCorrect(docs);
  }

  /** `should_escalate` holds exactly when one of the five triggers does, and
      exactly when some reason is listed. */
  lemma EscalatesIffSomeTrigger(intent: string, docs: seq<Doc>, confidence: real, uuidHex: string, d: Decision)
    requires IsUuidHex(uuidHex)
    requires CheckEscalation(intent, docs, confidence, uuidHex) == Ok(d)
    ensures d.shouldEscalate <==>
      confidence < LowConfidenceThreshold
      || |docs| == 0
      || intent in HighRiskIntents
      || HasConflict(docs)
      || !AllHaveContent(docs)
    ensures d.shouldEscalate <==> d.triggeredReasons != []
  {
    DecisionFromSignals(intent, docs, confidence, uuidHex, d);
    FiredKeysNonEmpty(SignalsOf(intent, docs, confidence, HasConflict(docs)));
  }

  /** `triggered_reasons` lists exactly the keys of the triggers that hold, in
      declaration order. */
  lemma ReasonsAreTheTriggersThatHold(intent: string, docs: seq<Doc>, confidence: real, uuidHex: string, d: Decision)
    requires IsUuidHex(uuidHex)
    requires CheckEscalation(intent, docs, confidence, uuidHex) == Ok(d)
    ensures forall t :: Key(t) in d.triggeredReasons <==>
      Holds(t, SignalsOf(intent, docs, confidence, HasConflict(docs)))
    ensures forall i, j :: 0 <= i < j < |d.triggeredReasons| ==>
      KeyRank(d.triggeredReasons[i]) < KeyRank(d.triggeredReasons[j])
    ensures |d.triggeredReasons| <= |Declared|
    ensures forall r :: r in d.triggeredReasons ==> exists t :: r == Key(t)
  {
    DecisionFromSignals(intent, docs, confidence, uuidHex, d);
    var s := SignalsOf(intent, docs, confidence, HasConflict(docs));
    FiredKeysMembers(s);
    FiredKeysOrdered(s);
  }

  /** A case id is issued exactly on escalation, and has the documented shape. */
  lemma CaseIdIffEscalates(intent: string, docs: seq<Doc>, confidence: real, uuidHex: string, d: Decision)
    requires IsUuidHex(uuidHex)
    requires CheckEscalation(intent, docs, confidence, uuidHex) == Ok(d)
    ensures d.caseId.Some? <==> d.shouldEscalate
    ensures d.caseId.Some? ==> IsCaseId(d.caseId.value)
  {
    DecisionFromSignals(intent, docs, confidence, uuidHex, d);
    CaseIdShape(uuidHex);
  }

  /** Priority is "high" with more than two reasons and "medium" otherwise; the
      reasoning is empty exactly when nothing escalates. */
  lemma PriorityAndReasoning(intent: string, docs: seq<Doc>, confidence: real, uuidHex: string, d: Decision)
    requires IsUuidHex(uuidHex)
    requires CheckEscalation(intent, docs, confidence, uuidHex) == Ok(d)
    ensures d.priority == (if |d.triggeredReasons| > 2 then "high" else "medium")
    ensures d.reasoning == GenerateReasoning(d.triggeredReasons)
    ensures d.reasoning == "" <==> !d.shouldEscalate
  {
    DecisionFromSignals(intent, docs, confidence, uuidHex, d);
    var s := SignalsOf(intent, docs, confidence, HasConflict(docs));
    FiredKeysNonEmpty(s);
    KeysNonEmpty(Fired(Declared, s));
    ReasoningEmptyIff(d.triggeredReasons);
  }

  /** With the default confidence of 0.5 every successful decision escalates. */
  lemma DefaultConfidenceEscalates(intent: string, docs: seq<Doc>, uuidHex: string, d: Decision)
    requires IsUuidHex(uuidHex)
    requires CheckEscalation(intent, docs, DefaultConfidence, uuidHex) == Ok(d)
    ensures d.shouldEscalate
    ensures Key(LowConfidence) in d.triggeredReasons
  {
    ReasonsAreTheTriggersThatHold(intent, docs, DefaultConfidence, uuidHex, d);
    EscalatesIffSomeTrigger(intent, docs, DefaultConfidence, uuidHex, d);
  }

  /** An empty document list always escalates through `no_documents`, and
      `missing_critical_data` does not fire on it. */
  lemma EmptyDocumentsEscalate(intent: string, confidence: real, uuidHex: string)
    requires IsUuidHex(uuidHex)
    ensures CheckEscalation(intent, [], confidence, uuidHex).Ok?
    ensures CheckEscalation(intent, [], confidence, uuidHex).value.shouldEscalate
    ensures Key(NoDocuments) in CheckEscalation(intent, [], confidence, uuidHex).value.triggeredReasons
    ensures Key(MissingCriticalData) !in CheckEscalation(intent, [], confidence, uuidHex).value.triggeredReasons
  {
    ConflictsNeedTwoDocuments([]);
    var s := SignalsOf(intent, [], confidence, false);
    assert CheckEscalation(intent, [], confidence, uuidHex) == Ok(Decide(s, uuidHex));
    FiredKeysMembers(s);
    FiredKeysNonEmpty(s);
  }
}
