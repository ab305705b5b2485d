/** The validator agent: checks the retrieved documents for completeness and
    collects warnings and missing critical fields. */
module Validator {
  import opened Common

  const NoDocumentsWarning: string := "No relevant documents found"
  const HighRiskWarning: string := "High-risk intent detected - human review recommended"

  /** The critical fields every document must carry, in the order they are checked. */
  datatype CriticalField = Source | Content | Category

  const CriticalFields: seq<CriticalField> := [Source, Content, Category]

  function FieldName(f: CriticalField): string {
    match f
    case Source => "source"
    case Content => "content"
    case Category => "category"
  }

  function FieldOf(d: Doc, f: CriticalField): Field {
    match f
    case Source => d.source
    case Content => d.content
    case Category => d.category
  }

  /** The validation record returned to the pipeline. */
  datatype Validation = Validation(
    checklistPass: bool,
    completenessScore: real,
    authenticityFlags: seq<string>,
    missingFields: seq<string>,
    warnings: seq<string>)

  function MissingMessage(d: Doc, f: CriticalField): string {
    "Missing " + FieldName(f) + " in document " + Show(d.id)
  }

  /** The messages for the fields of `fs` that `d` lacks (absent, None or
      empty), in the order of `fs`. */
  function MissingIn(d: Doc, fs: seq<CriticalField>): seq<string>
    decreases |fs|
  {
    if fs == [] then []
    else
      var f := fs[|fs| - 1];
      MissingIn(d, fs[..|fs| - 1]) + (if Truthy(FieldOf(d, f)) then [] else [MissingMessage(d, f)])
  }

  /** The missing-field messages of `docs`, document by document. */
  function MissingFields(docs: seq<Doc>): seq<string>
    decreases |docs|
  {
    if docs == [] then []
    else MissingFields(docs[..|docs| - 1]) + MissingIn(docs[|docs| - 1], CriticalFields)
  }

  /** `min(len(documents) / 3, 1.0)`. */
  function Completeness(n: nat): real {
    var ratio := n as real / 3.0;
    if ratio < 1.0 then ratio else 1.0
  }

  predicate IsHighRisk(intent: string) {
    intent in HighRiskIntents
  }

  function IntentWarnings(intent: string): seq<string> {
    if IsHighRisk(intent) then [HighRiskWarning] else []
  }

  /** The result `validate_document` builds, as a value. */
  function Validate(intent: string, docs: seq<Doc>): Validation {
    if docs == [] then Validation(false, 0.0, [], [], [NoDocumentsWarning])
    else
      var missing := MissingFields(docs);
      Validation(missing == [], Completeness(|docs|), [], missing, IntentWarnings(intent))
  }

  /** `validate_document`: the result record is built step by step. The uploaded
      files are accepted and ignored. */
  method ValidateDocument<F>(intent: string, documents: seq<Doc>, uploadedFiles: seq<F>) returns (result: Validation)
    ensures result == Validate(intent, documents)
  {
    result := Validation(true, 0.0, [], [], []);

    if |documents| == 0 {
      result := result.(checklistPass := false);
      result := result.(warnings := result.warnings + [NoDocumentsWarning]);
      result := result.(completenessScore := 0.0);
      return;
    }

    var ratio := |documents| as real / 3.0;
    result := result.(completenessScore := if ratio < 1.0 then ratio else 1.0);

    if IsHighRisk(intent) {
      result := result.(warnings := result.warnings + [HighRiskWarning]);
    }

    var i := 0;
    while i < |documents|
      invariant 0 <= i <= |documents|
      invariant result.checklistPass && result.authenticityFlags == []
      invariant result.completenessScore == Completeness(|documents|)
      invariant result.warnings == IntentWarnings(intent)
      invariant result.missingFields == MissingFields(documents[..i])
    {
      result := CheckCriticalFields(result, documents[i]);
      MissingFieldsStep(documents, i);
      i := i + 1;
    }
    assert documents[..i] == documents;
    assert result.missingFields == MissingFields(documents);

    if result.missingFields != [] {
      result := result.(checklistPass := false);
    }
    assert result.checklistPass == (MissingFields(documents) == []);
  }

  /** The inner loop of `validate_document`: appends to `missing_fields` one
      message per critical field that `doc` lacks; nothing else changes. */
  method CheckCriticalFields(before: Validation, doc: Doc) returns (result: Validation)
    ensures result == before.(missingFields := before.missingFields + MissingIn(doc, CriticalFields))
  {
    result := before;
    var k := 0;
    while k < |CriticalFields|
      invariant 0 <= k <= |CriticalFields|
      invariant result == before.(missingFields := before.missingFields + MissingIn(doc, CriticalFields[..k]))
    {
      var field := CriticalFields[k];
      MissingInStep(doc, CriticalFields, k);
      if !Truthy(FieldOf(doc, field)) {
        result := result.(missingFields := result.missingFields + [MissingMessage(doc, field)]);
      }
      k := k + 1;
    }
    assert CriticalFields[..k] == CriticalFields;
  }

  lemma MissingInStep(d: Doc, fs: seq<CriticalField>, k: nat)
    requires k < |fs|
    ensures MissingIn(d, fs[..k + 1])
      == MissingIn(d, fs[..k]) + (if Truthy(FieldOf(d, fs[k])) then [] else [MissingMessage(d, fs[k])])
  {
    assert fs[..k + 1][..k] == fs[..k];
  }

  lemma MissingFieldsStep(docs: seq<Doc>, i: nat)
    requires i < |docs|
    ensures MissingFields(docs[..i + 1]) == MissingFields(docs[..i]) + MissingIn(docs[i], CriticalFields)
  {
    assert docs[..i + 1][..i] == docs[..i];
  }

  // ---------------------------------------------------------------------------
  // Properties

  /** A document has every critical field. */
  predicate Complete(d: Doc) {
    Truthy(d.source) && Truthy(d.content) && Truthy(d.category)
  }

  /** `m` is the message for some critical field that `d` lacks. */
  predicate ReportsMissing(d: Doc, m: string) {
    exists f :: !Truthy(FieldOf(d, f)) && m == MissingMessage(d, f)
  }

  lemma {:induction false} MissingInMembers(d: Doc, fs: seq<CriticalField>)
    ensures forall m :: m in MissingIn(d, fs) ==> ReportsMissing(d, m)
    ensures forall f :: f in fs && !Truthy(FieldOf(d, f)) ==> MissingMessage(d, f) in MissingIn(d, fs)
    ensures |MissingIn(d, fs)| <= |fs|
    decreases |fs|
  {
    if fs != [] {
      var init := fs[..|fs| - 1];
      MissingInMembers(d, init);
      assert forall f :: f in fs ==> f in init || f == fs[|fs| - 1];
    }
  }

  lemma MissingInAll(d: Doc)
    ensures forall m :: m in MissingIn(d, CriticalFields) <==> ReportsMissing(d, m)
    ensures |MissingIn(d, CriticalFields)| <= |CriticalFields|
  {
    MissingInMembers(d, CriticalFields);
    forall m | ReportsMissing(d, m)
      ensures m in MissingIn(d, CriticalFields)
    {
      var f :| !Truthy(FieldOf(d, f)) && m == MissingMessage(d, f);
      assert f in CriticalFields by { assert f == Source || f == Content || f == Category; }
    }
  }

  /** `missing_fields` holds the message of every (document, field) pair whose
      field is missing, and nothing else; at most three per document. */
  lemma {:induction false} MissingFieldsMembers(docs: seq<Doc>)
    ensures forall m :: m in MissingFields(docs) <==>
      exists i :: 0 <= i < |docs| && ReportsMissing(docs[i], m)
    ensures |MissingFields(docs)| <= |CriticalFields| * |docs|
    decreases |docs|
  {
    if docs != [] {
      var init := docs[..|docs| - 1];
      var last := docs[|docs| - 1];
      MissingFieldsMembers(init);
      MissingInAll(last);
      forall m
        ensures m in MissingFields(docs) <==> exists i :: 0 <= i < |docs| && ReportsMissing(docs[i], m)
      {
        if m in MissingFields(docs) && m in MissingFields(init) {
          var i :| 0 <= i < |init| && ReportsMissing(init[i], m);
          assert docs[i] == init[i];
        }
        if exists i :: 0 <= i < |docs| && ReportsMissing(docs[i], m) {
          var i :| 0 <= i < |docs| && ReportsMissing(docs[i], m);
          if i < |init| {
            assert init[i] == docs[i];
          }
        }
      }
    }
  }

  /** No missing-field message exactly when every document is complete. */
  lemma MissingFieldsEmptyIff(docs: seq<Doc>)
    ensures MissingFields(docs) == [] <==> forall i :: 0 <= i < |docs| ==> Complete(docs[i])
  {
    MissingFieldsMembers(docs);
    if MissingFields(docs) != [] {
      var m := MissingFields(docs)[0];
      assert m in MissingFields(docs);
    } else {
      forall i | 0 <= i < |docs|
        ensures Complete(docs[i])
      {
        forall f
          ensures Truthy(FieldOf(docs[i], f))
        {
          assert MissingMessage(docs[i], f) !in MissingFields(docs);
          ReportedWhenMissing(docs[i], f);
        }
        assert FieldOf(docs[i], Source) == docs[i].source;
        assert FieldOf(docs[i], Content) == docs[i].content;
        assert FieldOf(docs[i], Category) == docs[i].category;
      }
    }
  }

  lemma ReportedWhenMissing(d: Doc, f: CriticalField)
    ensures !Truthy(FieldOf(d, f)) ==> ReportsMissing(d, MissingMessage(d, f))
  {
  }

  /** No documents: the checklist fails with score 0 and the single warning. */
  lemma EmptyDocumentsFail(intent: string)
    ensures Validate(intent, []).checklistPass == false
    ensures Validate(intent, []).completenessScore == 0.0
    ensures Validate(intent, []).warnings == [NoDocumentsWarning]
    ensures Validate(intent, []).missingFields == []
    ensures Validate(intent, []).authenticityFlags == []
  {
  }

  /** With documents the score lies in (0, 1] and is 1 from three documents on. */
  lemma CompletenessBounds(intent: string, docs: seq<Doc>)
    requires docs != []
    ensures 0.0 < Validate(intent, docs).completenessScore <= 1.0
    ensures Validate(intent, docs).completenessScore == 1.0 <==> |docs| >= 3
    ensures |docs| < 3 ==> Validate(intent, docs).completenessScore == |docs| as real / 3.0
  {
  }

  /** With documents, a high-risk intent adds exactly one warning and any other
      intent none. */
  lemma WarningsFollowIntent(intent: string, docs: seq<Doc>)
    requires docs != []
    ensures intent in HighRiskIntents ==> Validate(intent, docs).warnings == [HighRiskWarning]
    ensures intent !in HighRiskIntents ==> Validate(intent, docs).warnings == []
  {
  }

  /** With documents, the checklist passes exactly when every document carries
      all three critical fields, i.e. when no field is reported missing. */
  lemma ChecklistPassIff(intent: string, docs: seq<Doc>)
    requires docs != []
    ensures Validate(intent, docs).checklistPass <==> Validate(intent, docs).missingFields == []
    ensures Validate(intent, docs).checklistPass <==> forall i :: 0 <= i < |docs| ==> Complete(docs[i])
    ensures Validate(intent, docs).authenticityFlags == []
  {
    MissingFieldsEmptyIff(docs);
  }
}
