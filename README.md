# Compliance assistant backend agents, in Dafny

This project models the decision logic of the compliance assistant's Python
backend. It covers the agents that score a query, the upload route that turns
files into text, and the in-memory session store. It then proves what each
of them promises.

- `common.dfy` (`Common`): documents are Python dictionaries, so a `Doc`
  records for each key the code reads (`id`, `title`, `content`, `source`,
  `category`) whether it is absent, present but `None`, or a string. With
  that, `doc.get(key, default)` behaves as in Python, including the
  exceptions a `None` value causes. The module also has the string helpers
  the agents use: lower and upper case, substring search, `str.join` and
  `str.strip`.
- `escalation.dfy` (`Escalation`): `check_escalation`. It covers the five
  triggers, the pairwise keyword conflict scan, the case identifier built
  from a UUID, the priority, and the reasoning text.
- `validator.dfy` (`Validator`): `validate_document`, as a method that
  builds the result record field by field in the source's nested loops. It
  is proved equal to a reference function, and the completeness, warning
  and missing-field properties are proved about that function.
- `safety.dfy` (`Safety`): `run_safety_check`. It includes a hand-written
  scanner for the SSN pattern `\b\d{3}-\d{2}-\d{4}\b`, as both search and
  substitution.
- `runbook.dfy` (`Runbook`): `evaluate_rules` over its fixed table of
  three rules.
- `uploads.dfy` (`Uploads`): `extract_text_from_file`, with its size limit
  and dispatch by extension, and the `upload_files` loop that excerpts each
  file or records its error.
- `session_store.dfy` (`Sessions`): the `SessionStore` class, a mutable
  map from session id to message list.
- `explainer.dfy` (`Explainer`): the context-building loop of
  `explain_steps`, the call to the language model, and the template
  `_fallback_explanation` used when anything in it raises.

An exception that the source lets escape becomes an `Err` result. Examples
are `None.lower()` in the conflict scan and joining a `None` title in the
fallback. An exception the source catches leads to the fallback value the
source substitutes.

## Model

| member | source | states |
|---|---|---|
| Escalation.EscalatesIffSomeTrigger | backend/agents/escalation.py:20-28 | escalation happens exactly when confidence is below 0.7, there are no documents, the intent is high-risk, two documents conflict, or some document lacks content; and exactly when some reason is listed |
| Escalation.ReasonsAreTheTriggersThatHold | backend/agents/escalation.py:36 | the listed reasons are exactly the keys of the triggers that hold, and nothing else, in declaration order, at most five |
| Escalation.FiredKeysMembers | backend/agents/escalation.py:36 | a trigger's key is listed exactly when the trigger holds |
| Escalation.FiredKeysOrdered | backend/agents/escalation.py:20-36 | listed keys keep the order in which the triggers dictionary is declared |
| Escalation.FiredKeysNonEmpty | backend/agents/escalation.py:28-36 | some key is listed exactly when any trigger holds |
| Escalation.DecisionFromSignals | backend/agents/escalation.py:20-44 | a successful decision is determined by the five trigger values alone, with the conflict trigger equal to the existence of a clashing pair |
| Escalation.CaseIdIffEscalates | backend/agents/escalation.py:30-34 | a case id is issued exactly on escalation |
| Escalation.CaseIdShape | backend/agents/escalation.py:34 | a case id is "CLW-2024-ESC-" followed by six upper-case hexadecimal digits |
| Escalation.PriorityAndReasoning | backend/agents/escalation.py:41-43 | priority is "high" with more than two reasons and "medium" otherwise; the reasoning is empty exactly when there is no escalation |
| Escalation.ReasoningEmptyIff | backend/agents/escalation.py:69-80 | joining the explanations of non-empty reason keys with a vertical-bar separator gives the empty string exactly when there are no reasons |
| Escalation.DefaultConfidenceEscalates | backend/agents/escalation.py:8-28 | with the default confidence 0.5, every decision escalates and lists low_confidence |
| Escalation.EmptyDocumentsEscalate | backend/agents/escalation.py:22-25 | an empty document list escalates through no_documents and never through missing_critical_data |
| Escalation.CheckConflictsCorrect | backend/agents/escalation.py:47-66 | the scan answers True exactly when two unequal documents hold the first and second terms of one keyword pair; it fails only when some content is None, and never fails otherwise |
| Escalation.ConflictsNeedTwoDocuments | backend/agents/escalation.py:50-51 | fewer than two documents never conflict |
| Escalation.ScanInnerSound | backend/agents/escalation.py:58-64 | the inner loop finds a clash with the outer document exactly when one exists among the rest; it fails only on a None content |
| Escalation.ScanOuterSound | backend/agents/escalation.py:56-66 | the outer loop finds a clash exactly when some document from its position on clashes with any document |
| Validator.ValidateDocument | backend/agents/validator.py:11-56 | the record built in place equals the reference result `Validate` |
| Validator.CheckCriticalFields | backend/agents/validator.py:47-51 | the inner loop appends one message per critical field the document lacks, in field order, and changes nothing else |
| Validator.EmptyDocumentsFail | backend/agents/validator.py:32-36 | with no documents the checklist fails, the score is 0, the only warning is "No relevant documents found", and no field or authenticity flag is reported |
| Validator.CompletenessBounds | backend/agents/validator.py:39 | with documents the score is in (0, 1], equals n/3 below three documents, and is 1 exactly from three documents on |
| Validator.WarningsFollowIntent | backend/agents/validator.py:42-44 | a high-risk intent gives exactly the human-review warning, and any other intent none |
| Validator.MissingFieldsMembers | backend/agents/validator.py:46-51 | a message is reported exactly when some document lacks the named field (absent, None or empty); at most three per document |
| Validator.MissingFieldsEmptyIff | backend/agents/validator.py:46-51 | nothing is reported missing exactly when every document has a source, a content and a category |
| Validator.ChecklistPassIff | backend/agents/validator.py:53-54 | with documents the checklist passes exactly when no field is missing, and no authenticity flag is ever raised |
| Safety.SearchSsn | backend/agents/safety.py:41-42 | the scan reports a match exactly when some position holds three digits, a dash, two digits, a dash and four digits between word boundaries |
| Safety.SubstituteSsn | backend/agents/safety.py:44 | the loop produces the left-to-right, non-overlapping replacement of every match by "[REDACTED]" |
| Safety.RunSafetyCheck | backend/agents/safety.py:8-53 | the issues are the overconfident patterns found in the lower-cased text, then the bias patterns, then one SSN issue if a match exists; the content is redacted; the report is safe exactly when there are no issues, and moderation is applied exactly when it is not safe |
| Safety.PatternIssuesMembers | backend/agents/safety.py:28-37 | an issue names a pattern exactly when that pattern is listed and occurs in the text; at most one issue per pattern |
| Safety.SsnIssueIsNoPatternIssue | backend/agents/safety.py:29-43 | the SSN message never coincides with a pattern message |
| Safety.OneSsnIssue | backend/agents/safety.py:41-43 | the SSN issue appears once if there is any match, however many there are, and otherwise not at all |
| Safety.RedactUnchangedIff | backend/agents/safety.py:41-44 | redaction leaves the text unchanged exactly when there is no match, so the content changes only when an SSN issue is reported |
| Runbook.EvaluateRules | backend/services/runbook_evaluator.py:44-60 | the loop reports the table's rules whose condition holds, in table order; the actions are their actions, and the count is their number |
| Runbook.TriggeredMembers | backend/services/runbook_evaluator.py:44-52 | a rule is reported exactly when it is in the table and its condition holds; never more reports than rules |
| Runbook.TriggeredInTableOrder | backend/services/runbook_evaluator.py:23-42 | the email rule fires for an eligibility question with documents, the ticket rule for "escalation_needed", and the log rule always, in that order |
| Runbook.ActionsTaken | backend/services/runbook_evaluator.py:23-60 | "log_query" is always taken and last; "create_ticket" exactly for "escalation_needed"; "email_confirmation" exactly for an eligibility question with documents; one or two rules fire |
| Uploads.OversizeRefusedBeforeDispatch | backend/routes/uploads.py:22-23 | a file over 10 MiB is refused with a 400 error naming it, whatever its extension or the extractors |
| Uploads.KindBySuffix | backend/routes/uploads.py:26-78 | each extractor is chosen exactly by its own lower-cased suffix, so the order of the tests never matters |
| Uploads.ExtractionNeverRaises | backend/routes/uploads.py:25-78 | a readable file within the limit always yields text: each failing extractor is replaced by its fixed message, including the OCR fallback of a PDF whose pages hold no text, and an unknown extension by a message naming the file |
| Uploads.PdfTextNonEmpty | backend/routes/uploads.py:41-59 | PDF text is never empty: stripped page text, else stripped OCR text, else a fixed message |
| Uploads.EntryShape | backend/routes/uploads.py:88-105 | each entry names its file and holds either a prefix of at most 3000 characters of the text or an error, "Unknown error occurred." for an unexpected exception |
| Uploads.UploadFiles | backend/routes/uploads.py:81-106 | no files is a 400 error "No files uploaded."; otherwise one entry per file, in order, each as the single-file rule gives it |
| Sessions.SessionStore.constructor | backend/services/session_store.py:14-17 | a new store holds no sessions |
| Sessions.SessionStore.GetSession | backend/services/session_store.py:19-20 | the saved messages for a known id, [] for an unknown one, i.e. `Lookup` of the current map, which the lemmas below are about; the store is not modified |
| Sessions.SessionStore.SaveSession | backend/services/session_store.py:22-23 | the id now maps to the given messages and every other id is unchanged |
| Sessions.SaveThenLookup | backend/services/session_store.py:19-23 | a save is read back under its id, and other ids read as before |
| Sessions.SecondSaveOverwrites | backend/services/session_store.py:22-23 | a later save under the same id replaces the earlier one completely |
| Explainer.BuildContext | backend/agents/explainer.py:30-35 | the loop yields the context built from the first three documents, or nothing when a None content makes slicing raise |
| Explainer.ContextPartsSpec | backend/agents/explainer.py:31-33 | one part per document, "[source]: " followed by at most 500 characters of content, with "Unknown" for a missing source; building fails exactly when some content is None |
| Explainer.ContextIgnoresLaterDocuments | backend/agents/explainer.py:32 | documents after the third never affect the context |
| Explainer.ExplainSteps | backend/agents/explainer.py:23-65 | the model's answer when the context builds and the call succeeds; otherwise the fallback explanation |
| Explainer.EscalatedFallback | backend/agents/explainer.py:70-77 | on escalation the fallback is the human-review text with the case id and reasoning, whatever the documents |
| Explainer.TitlesSpec | backend/agents/explainer.py:79 | one title per listed document, "Document" for a missing key; collecting them fails exactly when a title is None |
| Explainer.ListingFallback | backend/agents/explainer.py:79-86 | without escalation the fallback lists the titles of at most the first three documents joined by ", ", and raises exactly when one of those titles is None |

## Left out

- Unicode: `lower()`, `upper()`, `strip()`, `\d` and `\w` are modelled on ASCII only. Python applies the Unicode rules. For `strip()` that means characters such as U+0085, U+00A0 and U+2028 are kept. All ASCII characters Python strips are stripped: space, `\t`, `\n`, `\v`, `\f`, `\r` and 0x1C to 0x1F.
- Floating point: confidences and the completeness score are exact reals.
- Randomness: `uuid.uuid4().hex` is a parameter constrained to 32 lower-case hexadecimal digits.
- Format libraries: JSON parsing, UTF-8 decoding, PyPDF2, python-docx, PIL and Tesseract are uninterpreted functions that either answer or fail. The walk over each PDF page's image objects is one such function.
- Reading the upload is an optional byte string, where none means the read raised. `seek(0)` and the FastAPI request and response wrapping are not modelled.
- The language-model call: client construction and `chat.completions.create` are one function of the document context that either answers or fails. The intent, validation and escalation text of the prompt are not part of its input, and a `None` message content is not modelled.
- Explainer.ExplainSteps: takes the escalation decision as the `Decision` record, not an arbitrary dictionary.
- Sessions.SessionStore.GetSession: returns the message list as a value. Python returns the stored list object itself, so later mutation by the caller would show in the store; that aliasing is not modelled.
- Runbook.EvaluateRules: the `print` of a rule's exception is not modelled. A `docs` key holding `None` (whose `len` would raise) is also not modelled: the context always carries a document list.
- Documents: keys other than `id`, `title`, `content`, `source` and `category` matter only for the dictionary equality in the conflict scan, and are kept as a string map.
- `backend/main.py`, the classifier, the retriever, the search, OpenAI and Foundry services, and the front end are not part of this model.
