/**
 * `validate_answer`: classifies an answer to a question against the
 * knowledge base, and renders the verdict as one of three exact strings.
 */
module Validator {
  import opened Text
  import opened KnowledgeBase

  datatype Option<T> = None | Some(value: T)

  datatype Verdict = Valid | RetryMismatch(expected: string) | RetryOutOfDomain

  function ValidText(): string { "VALID" }
  function RetryText(): string { "RETRY" }
  function MismatchPrefix(): string { RetryText() + ": answer differs from KB (expected: " }
  function MismatchSuffix(): string { ")" }
  function OutOfDomainText(): string { RetryText() + ": out-of-domain" }

  /** Answers match when they agree after `lower().strip()`. */
  predicate Matches(answer: string, correct: string) {
    Normalize(answer) == Normalize(correct)
  }

  /** The decision of `validate_answer`, over the records of the knowledge base. */
  function Validate(kb: seq<Entry>, question: string, answer: string): (v: Verdict)
    ensures v == RetryOutOfDomain <==> forall i :: 0 <= i < |kb| ==> kb[i].question != question
    ensures forall i :: IsLastFor(kb, i) && kb[i].question == question ==>
              (v == Valid <==> Matches(answer, kb[i].answer)) &&
              (v != Valid ==> v == RetryMismatch(kb[i].answer))
  {
    var kbQaPairs := KbMap(kb);
    if question in kbQaPairs then
      KbMapKeysFromRecords(kb, question);
      var correctAnswer := kbQaPairs[question];
      if Matches(answer, correctAnswer) then Valid else RetryMismatch(correctAnswer)
    else
      assert forall i :: 0 <= i < |kb| ==> kb[i].question != question;
      RetryOutOfDomain
  }

  /** The exact string `validate_answer` returns for a verdict. */
  function Render(v: Verdict): (s: string)
    ensures StartsWith(s, RetryText()) <==> !v.Valid?
  {
    match v
    case Valid =>
      assert ValidText()[0] != RetryText()[0];
      ValidText()
    case RetryMismatch(expected) =>
      assert MismatchPrefix()[..|RetryText()|] == RetryText();
      assert (MismatchPrefix() + expected + MismatchSuffix())[..|RetryText()|] == MismatchPrefix()[..|RetryText()|];
      MismatchPrefix() + expected + MismatchSuffix()
    case RetryOutOfDomain =>
      assert OutOfDomainText()[..|RetryText()|] == RetryText();
      OutOfDomainText()
  }

  /** Reads a verdict back from its string; the inverse of Render. */
  function Parse(s: string): Option<Verdict> {
    if s == ValidText() then Some(Valid)
    else if s == OutOfDomainText() then Some(RetryOutOfDomain)
    else if |s| > |MismatchPrefix()| && s[..|MismatchPrefix()|] == MismatchPrefix() && s[|s| - 1..] == MismatchSuffix()
    then Some(RetryMismatch(s[|MismatchPrefix()|..|s| - 1]))
    else None
  }

  /** No two verdicts render alike: the string carries the whole verdict. */
  lemma ParseRender(v: Verdict)
    ensures Parse(Render(v)) == Some(v)
  {
    if v.RetryMismatch? {
      var s := Render(v);
      assert |s| == |MismatchPrefix()| + |v.expected| + 1;
      assert s[..|MismatchPrefix()|] == MismatchPrefix();
      assert s[|MismatchPrefix()|..|s| - 1] == v.expected;
    }
  }

  /** `validate_answer(question, answer)` with the knowledge base passed in. */
  function ValidateAnswer(kb: seq<Entry>, question: string, answer: string): (r: string)
    ensures Parse(r) == Some(Validate(kb, question, answer))
    ensures r == ValidText() || r == OutOfDomainText() || StartsWith(r, MismatchPrefix())
    ensures StartsWith(r, RetryText()) <==> r != ValidText()
  {
    var v := Validate(kb, question, answer);
    ParseRender(v);
    assert v.RetryMismatch? ==>
      (MismatchPrefix() + v.expected + MismatchSuffix())[..|MismatchPrefix()|] == MismatchPrefix();
    Render(v)
  }

  /** A question absent from the knowledge base is out of domain, whatever the answer. */
  lemma OutOfDomainWhateverTheAnswer(kb: seq<Entry>, question: string, answer: string)
    requires question !in KbMap(kb)
    ensures ValidateAnswer(kb, question, answer) == OutOfDomainText()
  {
  }

  /** The stored answer itself validates. */
  lemma StoredAnswerValidates(kb: seq<Entry>, question: string)
    requires question in KbMap(kb)
    ensures ValidateAnswer(kb, question, KbMap(kb)[question]) == ValidText()
  {
  }

  /** The result depends on the knowledge base only through its lookup: two
      record lists that build the same dictionary validate every answer alike. */
  lemma DependsOnLookupOnly(kb1: seq<Entry>, kb2: seq<Entry>, question: string, answer: string)
    requires KbMap(kb1) == KbMap(kb2)
    ensures ValidateAnswer(kb1, question, answer) == ValidateAnswer(kb2, question, answer)
  {
  }

  /** An answer that matches the last record for the question validates, even
      with other letter case and surrounding whitespace. */
  lemma ValidIgnoresCaseAndPadding(kb: seq<Entry>, i: int, p: string, answer: string, q: string)
    requires IsLastFor(kb, i)
    requires AllSpaces(p) && AllSpaces(q)
    requires Lower(answer) == Lower(kb[i].answer)
    ensures ValidateAnswer(kb, kb[i].question, p + answer + q) == ValidText()
  {
    NormalizeIgnoresCaseAndPadding(p, answer, q, kb[i].answer);
  }

  /** For a known question, a non-matching answer yields the mismatch string
      quoting the stored answer as it is, not normalised. */
  lemma MismatchQuotesStoredAnswer(kb: seq<Entry>, i: int, answer: string)
    requires IsLastFor(kb, i)
    requires !Matches(answer, kb[i].answer)
    ensures ValidateAnswer(kb, kb[i].question, answer) == MismatchPrefix() + kb[i].answer + MismatchSuffix()
  {
  }

  /** When a question occurs twice, the later record decides the verdict. */
  lemma LaterDuplicateDecides(kb: seq<Entry>, question: string, first: string, second: string, answer: string)
    requires !Matches(first, second)
    ensures ValidateAnswer(kb + [Entry(question, first), Entry(question, second)], question, second) == ValidText()
    ensures Matches(answer, first) ==>
              ValidateAnswer(kb + [Entry(question, first), Entry(question, second)], question, answer)
              == MismatchPrefix() + second + MismatchSuffix()
  {
    var kb' := kb + [Entry(question, first), Entry(question, second)];
    assert IsLastFor(kb', |kb'| - 1);
  }
}
