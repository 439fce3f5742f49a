/**
 * `ask_model`: the simulated model. The shared random source is injected as
 * a stream of coins, `coins(k)` standing for the k-th `random.random() < 0.7`
 * test; `next` is the position of the first unused coin, and the reply says
 * where the next call must continue.
 */
module Generator {
  import opened Text
  import opened KnowledgeBase
  import opened Validator

  function IncorrectPrefix(): string { "Simulated incorrect answer for: " }
  function OutOfDomainPrefix(): string { "Simulated answer for out-of-domain question: " }

  datatype Reply = Reply(answer: string, nextCoin: nat)

  /** A call draws a coin only for a known question on a first attempt:
      `not retry and random.random() < 0.7` short-circuits on a retry, and an
      unknown question never reaches the test. */
  predicate DrawsCoin(kb: seq<Entry>, question: string, retry: bool) {
    question in KbMap(kb) && !retry
  }

  function AskModel(kb: seq<Entry>, question: string, retry: bool, coins: nat -> bool, next: nat): (r: Reply)
    ensures r.nextCoin == if DrawsCoin(kb, question, retry) then next + 1 else next
  {
    var kbQuestions := KbMap(kb);
    if question in kbQuestions then
      if !retry then
        if coins(next) then Reply(kbQuestions[question], next + 1)
        else Reply(IncorrectPrefix() + question, next + 1)
      else Reply(IncorrectPrefix() + question, next)
    else Reply(OutOfDomainPrefix() + question, next)
  }

  /** An unknown question gets the out-of-domain string, on any attempt and
      whatever the coins, and no coin is used. */
  lemma AskModelOutOfDomain(kb: seq<Entry>, question: string, retry: bool, coins: nat -> bool, next: nat)
    requires forall i :: 0 <= i < |kb| ==> kb[i].question != question
    ensures AskModel(kb, question, retry, coins, next) == Reply(OutOfDomainPrefix() + question, next)
  {
    if question in KbMap(kb) {
      KbMapKeysFromRecords(kb, question);
    }
  }

  /** A retry on a known question always gets the incorrect string, and no coin is used. */
  lemma AskModelRetry(kb: seq<Entry>, i: int, coins: nat -> bool, next: nat)
    requires 0 <= i < |kb|
    ensures AskModel(kb, kb[i].question, true, coins, next) == Reply(IncorrectPrefix() + kb[i].question, next)
  {
  }

  /** A first attempt on a known question uses exactly one coin: heads gives the
      answer of the question's last record verbatim, tails the incorrect string. */
  lemma AskModelFirstAttempt(kb: seq<Entry>, i: int, coins: nat -> bool, next: nat)
    requires IsLastFor(kb, i)
    ensures AskModel(kb, kb[i].question, false, coins, next)
            == Reply(if coins(next) then kb[i].answer else IncorrectPrefix() + kb[i].question, next + 1)
  {
  }

  /** The reply depends on the coin stream only through the coin at `next`. */
  lemma AskModelReadsOneCoin(kb: seq<Entry>, question: string, retry: bool, c1: nat -> bool, c2: nat -> bool, next: nat)
    requires c1(next) == c2(next)
    ensures AskModel(kb, question, retry, c1, next) == AskModel(kb, question, retry, c2, next)
  {
  }

  /** What the validator makes of a generated answer: a known question answered
      from the knowledge base validates, an unknown one is out of domain, and the
      incorrect string is a mismatch unless the stored answer normalises to it. */
  lemma ValidateGenerated(kb: seq<Entry>, question: string, retry: bool, coins: nat -> bool, next: nat)
    ensures var a := AskModel(kb, question, retry, coins, next).answer;
            && (question !in KbMap(kb) ==> ValidateAnswer(kb, question, a) == OutOfDomainText())
            && (DrawsCoin(kb, question, retry) && coins(next) ==> ValidateAnswer(kb, question, a) == ValidText())
            && (question in KbMap(kb) && (retry || !coins(next)) ==>
                  (ValidateAnswer(kb, question, a) == ValidText()
                   <==> Matches(IncorrectPrefix() + question, KbMap(kb)[question])))
  {
    if question in KbMap(kb) {
      LookupFindsLastRecord(kb, question);
    }
  }

  /** The incorrect string is not guaranteed to differ from the stored answer:
      a record whose answer is that very string makes even the retry validate. */
  lemma IncorrectAnswerCanValidate(coins: nat -> bool, next: nat)
    ensures var kb := [Entry("Q", IncorrectPrefix() + "Q")];
            ValidateAnswer(kb, "Q", AskModel(kb, "Q", true, coins, next).answer) == ValidText()
  {
    var kb := [Entry("Q", IncorrectPrefix() + "Q")];
    assert IsLastFor(kb, 0);
  }
}
