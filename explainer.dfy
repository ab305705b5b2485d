/** The explainer agent: builds the document context for the language-model
    prompt and, when the model cannot answer, a template explanation. */
module Explainer {
  import opened Common
  import Escalation

  /** Only the first documents go into the context and the fallback. */
  const TopDocuments: nat := 3

  /** Characters of each document's content that go into the context. */
  const ContentSliceChars: nat := 500

  const HumanReviewHeader: string := "\U{26A0}\U{FE0F} This query requires human review.\n\n**Case ID:** "
  const HumanReviewFooter: string :=
    "\n\nAn International Student Office advisor will review your case within 24 hours.\n"
  const RecommendationFooter: string :=
    "\n\n**Recommendation:** Please refer to the above resources or contact your International Student Office for specific guidance.\n"

  const NoneJoinError: string := "TypeError: sequence item: expected str instance, NoneType found"

  /** `documents[:3]`. */
  function Top(docs: seq<Doc>): (top: seq<Doc>)
    ensures |top| == if |docs| < TopDocuments then |docs| else TopDocuments
    ensures forall i :: 0 <= i < |top| ==> top[i] == docs[i]
  {
    if |docs| <= TopDocuments then docs else docs[..TopDocuments]
  }

  function Slice(s: string, n: nat): string {
    if |s| <= n then s else s[..n]
  }

  /** "[source]: " followed by the first 500 characters of the content; None
      where slicing a None content raises. */
  function ContextPart(d: Doc): Option<string> {
    match GetOr(d.content, "")
    case Text(c) => Some("[" + Show(GetOr(d.source, "Unknown")) + "]: " + Slice(c, ContentSliceChars))
    case _ => None
  }

  /** The parts the context loop appends, document by document. */
  function ContextParts(docs: seq<Doc>): Option<seq<string>>
    decreases |docs|
  {
    if docs == [] then Some([])
    else match ContextParts(docs[..|docs| - 1])
      case None => None
      case Some(parts) =>
        match ContextPart(docs[|docs| - 1])
        case None => None
        case Some(p) => Some(parts + [p])
  }

  /** The context of the prompt, or None when building it raises. */
  function ContextOf(docs: seq<Doc>): Option<string> {
    match ContextParts(Top(docs))
    case Some(parts) => Some(Join("\n\n", parts))
    case None => None
  }

  /** The context loop of `explain_steps`. */
  method BuildContext(documents: seq<Doc>) returns (context: Option<string>)
    ensures context == ContextOf(documents)
  {
    var top := if |documents| <= TopDocuments then documents else documents[..TopDocuments];
    var parts: seq<string> := [];
    var i := 0;
    while i < |top|
      invariant 0 <= i <= |top|
      invariant ContextParts(top[..i]) == Some(parts)
    {
      var doc := top[i];
      assert top[..i + 1][..i] == top[..i];
      var content := GetOr(doc.content, "");
      if !content.Text? {
        ContextPartsSpec(top);
        ContextPartsSpec(top[..i + 1]);
        return None;
      }
      var part := "[" + Show(GetOr(doc.source, "Unknown")) + "]: " + Slice(content.s, ContentSliceChars);
      parts := parts + [part];
      i := i + 1;
    }
    assert top[..i] == top;
    context := Some(Join("\n\n", parts));
  }

  /** `doc.get('title', 'Document')` for the fallback listing. */
  function TitleOf(d: Doc): Field {
    GetOr(d.title, "Document")
  }

  /** The titles of the listed documents, or None when one of them is None
      (joining it raises). */
  function Titles(docs: seq<Doc>): Option<seq<string>>
    decreases |docs|
  {
    if docs == [] then Some([])
    else match Titles(docs[..|docs| - 1])
      case None => None
      case Some(ts) =>
        match TitleOf(docs[|docs| - 1])
        case Text(t) => Some(ts + [t])
        case _ => None
  }

  function ShowCaseId(c: Option<string>): string {
    match c
    case Some(id) => id
    case None => "None"
  }

  function HumanReviewText(caseId: string, reasoning: string): string {
    HumanReviewHeader + caseId + "\n**Reason:** " + reasoning + HumanReviewFooter
  }

  function ListingText(intent: string, titles: string): string {
    "Based on intent: " + intent + "\n\n**Relevant Information:**\n- " + titles + RecommendationFooter
  }

  /** `_fallback_explanation`. */
  function FallbackExplanation(intent: string, documents: seq<Doc>, escalation: Escalation.Decision): Result<string, string> {
    if escalation.shouldEscalate then
      Ok(HumanReviewText(ShowCaseId(escalation.caseId), escalation.reasoning))
    else match Titles(Top(documents))
      case Some(ts) => Ok(ListingText(intent, Join(", ", ts)))
      case None => Err(NoneJoinError)
  }

  /** `explain_steps`: the model's answer to the prompt built from the context,
      or the fallback when building the context or calling the model raises.
      `reply` stands for the chat-completion call. */
  method ExplainSteps(intent: string, documents: seq<Doc>, escalation: Escalation.Decision,
                      reply: string -> Option<string>) returns (explanation: Result<string, string>)
    ensures ContextOf(documents).None? ==> explanation == FallbackExplanation(intent, documents, escalation)
    ensures ContextOf(documents).Some? && reply(ContextOf(documents).value).None? ==>
      explanation == FallbackExplanation(intent, documents, escalation)
    ensures ContextOf(documents).Some? && reply(ContextOf(documents).value).Some? ==>
      explanation == Ok(reply(ContextOf(documents).value).value)
  {
    var context := BuildContext(documents);
    if context.None? {
      return FallbackExplanation(intent, documents, escalation);
    }
    var answer := reply(context.value);
    if answer.None? {
      return FallbackExplanation(intent, documents, escalation);
    }
    return Ok(answer.value);
  }

  // ---------------------------------------------------------------------------
  // Properties

  /** The label of a document in the context: its source, "Unknown" when the
      key is absent, "None" when it is None. */
  function SourceLabel(d: Doc): string {
    match d.source
    case Absent => "Unknown"
    case Null => "None"
    case Text(s) => s
  }

  /** The content of a document as sliced: "" when the key is absent. */
  function ContentText(d: Doc): string {
    match d.content
    case Text(c) => c
    case _ => ""
  }

  /** The context parts: one per document, "[source]: " and the first 500
      characters of its content; building fails exactly when some content is None. */
  lemma {:induction false} ContextPartsSpec(docs: seq<Doc>)
    ensures ContextParts(docs).None? <==> exists i :: 0 <= i < |docs| && docs[i].content.Null?
    ensures ContextParts(docs).Some? ==>
      |ContextParts(docs).value| == |docs|
      && forall i :: 0 <= i < |docs| ==>
        ContextParts(docs).value[i] == "[" + SourceLabel(docs[i]) + "]: " + Slice(ContentText(docs[i]), ContentSliceChars)
    decreases |docs|
  {
    if docs != [] {
      var init := docs[..|docs| - 1];
      ContextPartsSpec(init);
      forall i | 0 <= i < |init|
        ensures init[i] == docs[i]
      {
      }
    }
  }

  /** The context covers at most the first three documents: the rest never
      affect it. */
  lemma ContextIgnoresLaterDocuments(docs: seq<Doc>, more: seq<Doc>)
    requires |docs| >= TopDocuments
    ensures ContextOf(docs + more) == ContextOf(docs)
  {
    assert Top(docs + more) == Top(docs);
  }

  /** On escalation the fallback is the human-review text with the case id and
      the reasoning, whatever the documents. */
  lemma EscalatedFallback(intent: string, documents: seq<Doc>, other: seq<Doc>, escalation: Escalation.Decision)
    requires escalation.shouldEscalate
    ensures FallbackExplanation(intent, documents, escalation)
      == Ok(HumanReviewText(ShowCaseId(escalation.caseId), escalation.reasoning))
    ensures FallbackExplanation(intent, documents, escalation) == FallbackExplanation(intent, other, escalation)
  {
  }

  /** The title listed for a document: its title, or "Document" when the key is absent. */
  function ListedTitle(d: Doc): string {
    match d.title
    case Text(t) => t
    case _ => "Document"
  }

  lemma {:induction false} TitlesSpec(docs: seq<Doc>)
    ensures Titles(docs).None? <==> exists i :: 0 <= i < |docs| && docs[i].title.Null?
    ensures Titles(docs).Some? ==>
      |Titles(docs).value| == |docs|
      && forall i :: 0 <= i < |docs| ==> Titles(docs).value[i] == ListedTitle(docs[i])
    decreases |docs|
  {
    if docs != [] {
      var init := docs[..|docs| - 1];
      TitlesSpec(init);
      forall i | 0 <= i < |init|
        ensures init[i] == docs[i]
      {
      }
    }
  }

  /** The titles the fallback lists: one per document among the first three. */
  function ListedTitles(docs: seq<Doc>): (titles: seq<string>)
    ensures |titles| == |Top(docs)|
    ensures forall i :: 0 <= i < |titles| ==> titles[i] == ListedTitle(docs[i])
  {
    seq(|Top(docs)|, i requires 0 <= i < |Top(docs)| => ListedTitle(docs[i]))
  }

  /** Without escalation the fallback lists the titles of at most the first
      three documents ("Document" for a missing title), joined by ", "; it
      raises only when one of those titles is None. */
  lemma ListingFallback(intent: string, documents: seq<Doc>, escalation: Escalation.Decision)
    requires !escalation.shouldEscalate
    ensures FallbackExplanation(intent, documents, escalation).Err? <==>
      exists i :: 0 <= i < |documents| && i < TopDocuments && documents[i].title.Null?
    ensures FallbackExplanation(intent, documents, escalation).Ok? ==>
      FallbackExplanation(intent, documents, escalation)
        == Ok(ListingText(intent, Join(", ", ListedTitles(documents))))
  {
    var top := Top(documents);
    TitlesSpec(top);
    if exists i :: 0 <= i < |documents| && i < TopDocuments && documents[i].title.Null? {
      var i :| 0 <= i < |documents| && i < TopDocuments && documents[i].title.Null?;
      assert top[i] == documents[i];
    }
    if Titles(top).Some? {
      assert Titles(top).value == ListedTitles(documents);
    }
  }
}
