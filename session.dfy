/**
 * `run_qa_process`: builds the session question list, shuffles it, and for
 * each question makes a first attempt, validates it, makes one second attempt
 * when the verdict asks for a retry, and writes the exchange to the log.
 *
 * The log is the sequence of strings handed to `log_file.write`, in order.
 * The transcript (`Transcript`, a sequence of `Exchange` values) is the
 * structured record of the same session that the log renders.
 */
module Session {
  import opened Text
  import opened KnowledgeBase
  import opened Validator
  import opened Generator

  // Fixed strings are zero-argument functions rather than constants throughout
  // the project: the verifier then unfolds a literal only where a proof needs
  // its characters, which keeps the proofs about the log small.

  /** The five questions `run_qa_process` adds to those of the knowledge base. */
  function UnseenQuestions(): (qs: seq<string>)
    ensures |qs| == 5
  {
    [
    "What is the speed of light?",
    "Who is the current president of Brazil?",
    "What is the capital of Australia?",
    "How many chromosomes do humans have?",
    "What year was the internet invented?"
    ]
  }

  function LogHeader(): string { "=== Q&A Session Log ===\n\n" }

  /** `kb_questions + unseen_questions`, before the shuffle. */
  function SessionQuestions(kb: seq<Entry>): (qs: seq<string>)
    ensures |qs| == |kb| + 5
    ensures forall i :: 0 <= i < |kb| ==> qs[i] == kb[i].question
    ensures qs[|kb|..] == UnseenQuestions()
  {
    KbQuestions(kb) + UnseenQuestions()
  }

  /** How many entries of `s` are questions of the knowledge base. */
  function CountKnown(kb: seq<Entry>, s: seq<string>): (n: nat)
    ensures n <= |s|
    decreases |s|
  {
    if s == [] then 0
    else CountKnown(kb, s[..|s| - 1]) + (if s[|s| - 1] in KbMap(kb) then 1 else 0)
  }

  datatype Attempt = Attempt(answer: string, validation: string)
  datatype Exchange = Exchange(question: string, first: Attempt, second: Option<Attempt>)
  datatype Step = Step(exchange: Exchange, nextCoin: nat)

  /** One pass of the loop body on `question`, starting at coin `next`. */
  function Handle(kb: seq<Entry>, question: string, coins: nat -> bool, next: nat): (s: Step)
    ensures s.exchange.question == question
    ensures s.nextCoin == next + (if question in KbMap(kb) then 1 else 0)
    ensures s.exchange.second.Some? <==> s.exchange.first.validation != ValidText()
  {
    var first := AskModel(kb, question, false, coins, next);
    var validation := ValidateAnswer(kb, question, first.answer);
    if StartsWith(validation, RetryText()) then
      var second := AskModel(kb, question, true, coins, first.nextCoin);
      var secondValidation := ValidateAnswer(kb, question, second.answer);
      Step(Exchange(question, Attempt(first.answer, validation), Some(Attempt(second.answer, secondValidation))),
           second.nextCoin)
    else
      Step(Exchange(question, Attempt(first.answer, validation), None), first.nextCoin)
  }

  /** The exchanges of a walk over `order` in which `handle(q, next)` deals with
      question `q` starting at coin `next`; each question starts at the coin
      after those the earlier known questions used. */
  function Exchanges(kb: seq<Entry>, order: seq<string>, handle: (string, nat) -> Exchange): (es: seq<Exchange>)
    ensures |es| == |order|
    decreases |order|
  {
    if order == [] then []
    else
      var n := |order| - 1;
      Exchanges(kb, order[..n], handle) + [handle(order[n], CountKnown(kb, order[..n]))]
  }

  /** The loop body as a step of the walk, for a fixed knowledge base and coin stream. */
  function HandleWith(kb: seq<Entry>, coins: nat -> bool): (string, nat) -> Exchange {
    (q: string, next: nat) => Handle(kb, q, coins, next).exchange
  }

  /** The exchanges of a session over `order` with the coin stream `coins`. */
  function Transcript(kb: seq<Entry>, order: seq<string>, coins: nat -> bool): seq<Exchange> {
    Exchanges(kb, order, HandleWith(kb, coins))
  }

  // The lines `run_qa_process` writes, one function per `log_file.write`.
  function QuestionLine(number: nat, question: string): string { "Question " + NatToString(number) + ": " + question + "\n" }
  function FirstAnswerLine(answer: string): string { "First answer: " + answer + "\n" }
  function ValidationLine(validation: string): string { "Validation: " + validation + "\n" }
  function SecondAttemptNotice(): string { "Making second attempt...\n" }
  function SecondAnswerLine(answer: string): string { "Second answer: " + answer + "\n" }
  function SecondValidationLine(validation: string): string { "Second validation: " + validation + "\n" }
  function BlockDelimiter(): string { "\n---\n\n" }

  /** The lines written for the exchange at position `k` (numbered `k + 1`). */
  function BlockLines(k: nat, e: Exchange): seq<string> {
    [QuestionLine(k + 1, e.question), FirstAnswerLine(e.first.answer), ValidationLine(e.first.validation)]
    + SecondAttemptLines(e.second)
    + [BlockDelimiter()]
  }

  function SecondAttemptLines(second: Option<Attempt>): seq<string> {
    match second
    case None => []
    case Some(a) => [SecondAttemptNotice(), SecondAnswerLine(a.answer), SecondValidationLine(a.validation)]
  }

  function Lines(es: seq<Exchange>): seq<string>
    decreases |es|
  {
    if es == [] then [] else Lines(es[..|es| - 1]) + BlockLines(|es| - 1, es[|es| - 1])
  }

  /** Everything written to `run.log` in a session over `order`. */
  function SessionLog(kb: seq<Entry>, order: seq<string>, coins: nat -> bool): seq<string> {
    [LogHeader()] + Lines(Transcript(kb, order, coins))
  }

  // ---------------------------------------------------------------------------
  // Counting the coins

  lemma {:induction false} CountKnownAppend(kb: seq<Entry>, s: seq<string>, t: seq<string>)
    ensures CountKnown(kb, s + t) == CountKnown(kb, s) + CountKnown(kb, t)
    decreases |t|
  {
    if t == [] {
      assert s + t == s;
    } else {
      var t' := t[..|t| - 1];
      assert (s + t)[..|s + t| - 1] == s + t';
      CountKnownAppend(kb, s, t');
    }
  }

  /** All entries count when all are known, and none when none is. */
  lemma {:induction false} CountKnownExtremes(kb: seq<Entry>, s: seq<string>)
    ensures (forall i :: 0 <= i < |s| ==> s[i] in KbMap(kb)) ==> CountKnown(kb, s) == |s|
    ensures (forall i :: 0 <= i < |s| ==> s[i] !in KbMap(kb)) ==> CountKnown(kb, s) == 0
    decreases |s|
  {
    if s != [] {
      var s' := s[..|s| - 1];
      assert forall i :: 0 <= i < |s'| ==> s'[i] == s[i];
      CountKnownExtremes(kb, s');
    }
  }

  lemma CountKnownStep(kb: seq<Entry>, order: seq<string>, i: nat)
    requires i < |order|
    ensures CountKnown(kb, order[..i + 1]) == CountKnown(kb, order[..i]) + (if order[i] in KbMap(kb) then 1 else 0)
  {
    assert order[..i + 1][..i] == order[..i];
  }

  /** The count does not depend on the order of the entries. */
  lemma {:induction false} CountKnownPermutation(kb: seq<Entry>, s: seq<string>, t: seq<string>)
    requires multiset(s) == multiset(t)
    ensures CountKnown(kb, s) == CountKnown(kb, t)
    decreases |s|
  {
    if s == [] {
      assert |t| == |multiset(t)| == 0;
    } else {
      var s', x := s[..|s| - 1], s[|s| - 1];
      assert s == s' + [x];
      assert x in multiset(t);
      var j :| 0 <= j < |t| && t[j] == x;
      var t' := t[..j] + t[j + 1..];
      assert t == t[..j] + [x] + t[j + 1..];
      assert multiset(t') == multiset(t) - multiset{x};
      assert multiset(s') == multiset(s) - multiset{x};
      CountKnownPermutation(kb, s', t');
      CountKnownAppend(kb, t[..j] + [x], t[j + 1..]);
      CountKnownAppend(kb, t[..j], [x]);
      CountKnownAppend(kb, t[..j], t[j + 1..]);
      assert CountKnown(kb, [x]) == CountKnown(kb, s) - CountKnown(kb, s') by {
        assert [x][..0] == [];
      }
    }
  }

  /** Every question of the knowledge base's own list is known. */
  lemma {:induction false} CountKnownKbQuestions(kb: seq<Entry>)
    ensures CountKnown(kb, KbQuestions(kb)) == |kb|
  {
    var qs := KbQuestions(kb);
    var i := 0;
    while i < |kb|
      invariant 0 <= i <= |kb|
      invariant CountKnown(kb, qs[..i]) == i
    {
      assert qs[..i + 1][..i] == qs[..i];
      i := i + 1;
    }
    assert qs[..|kb|] == qs;
  }

  /** A known question draws its own coin: no later question reuses it. */
  lemma CoinsAreNotReused(kb: seq<Entry>, order: seq<string>, k1: nat, k2: nat)
    requires k1 < k2 <= |order|
    requires order[k1] in KbMap(kb)
    ensures CountKnown(kb, order[..k1]) < CountKnown(kb, order[..k2])
  {
    assert order[..k1 + 1][..k1] == order[..k1];
    assert order[..k2] == order[..k1 + 1] + order[k1 + 1..k2];
    CountKnownAppend(kb, order[..k1 + 1], order[k1 + 1..k2]);
  }

  // ---------------------------------------------------------------------------
  // The transcript

  lemma {:induction false} ExchangesAt(kb: seq<Entry>, order: seq<string>, handle: (string, nat) -> Exchange, k: nat)
    requires k < |order|
    ensures Exchanges(kb, order, handle)[k] == handle(order[k], CountKnown(kb, order[..k]))
    decreases |order|
  {
    var n := |order| - 1;
    if k < n {
      ExchangesAt(kb, order[..n], handle, k);
      assert order[..n][..k] == order[..k];
    }
  }

  /** Walking one more question extends the exchanges by that question's. */
  lemma ExchangesStep(kb: seq<Entry>, order: seq<string>, handle: (string, nat) -> Exchange, i: nat)
    requires i < |order|
    ensures Exchanges(kb, order[..i + 1], handle)
            == Exchanges(kb, order[..i], handle) + [handle(order[i], CountKnown(kb, order[..i]))]
  {
    assert order[..i + 1][..i] == order[..i];
  }

  lemma TranscriptAt(kb: seq<Entry>, order: seq<string>, coins: nat -> bool, k: nat)
    requires k < |order|
    ensures Transcript(kb, order, coins)[k] == Handle(kb, order[k], coins, CountKnown(kb, order[..k])).exchange
  {
    ExchangesAt(kb, order, HandleWith(kb, coins), k);
  }

  /** Every question gets one first attempt, which is not a retry; a second
      attempt, a retry, exactly when the first verdict starts with "RETRY";
      and nothing more. */
  lemma AttemptsPerQuestion(kb: seq<Entry>, order: seq<string>, coins: nat -> bool, k: nat)
    requires k < |order|
    ensures var e, next := Transcript(kb, order, coins)[k], CountKnown(kb, order[..k]);
            var first := AskModel(kb, order[k], false, coins, next);
            && e.question == order[k]
            && e.first == Attempt(first.answer, ValidateAnswer(kb, order[k], first.answer))
            && (e.second.Some? <==> StartsWith(e.first.validation, RetryText()))
            && (e.second.Some? ==>
                  var second := AskModel(kb, order[k], true, coins, first.nextCoin);
                  e.second.value == Attempt(second.answer, ValidateAnswer(kb, order[k], second.answer)))
  {
    TranscriptAt(kb, order, coins, k);
  }

  /** An out-of-domain question is always retried, and the retry is out of
      domain too: knowledge-base membership does not change between attempts. */
  lemma OutOfDomainRetryAlsoOutOfDomain(kb: seq<Entry>, order: seq<string>, coins: nat -> bool, k: nat)
    requires k < |order|
    requires order[k] !in KbMap(kb)
    ensures Transcript(kb, order, coins)[k]
            == Exchange(order[k], Attempt(OutOfDomainPrefix() + order[k], OutOfDomainText()),
                        Some(Attempt(OutOfDomainPrefix() + order[k], OutOfDomainText())))
  {
    TranscriptAt(kb, order, coins, k);
    assert OutOfDomainText()[..|RetryText()|] == RetryText();
  }

  /** A known question whose first answer fails is retried with the incorrect string. */
  lemma KnownQuestionRetryIsIncorrectString(kb: seq<Entry>, order: seq<string>, coins: nat -> bool, k: nat)
    requires k < |order|
    requires order[k] in KbMap(kb)
    requires Transcript(kb, order, coins)[k].second.Some?
    ensures Transcript(kb, order, coins)[k].second.value.answer == IncorrectPrefix() + order[k]
  {
    TranscriptAt(kb, order, coins, k);
  }

  // ---------------------------------------------------------------------------
  // The log

  /** A block is four lines, or seven with a second attempt; it opens with the
      numbered question, closes with the delimiter, and the second-attempt
      notice is its fourth line when there is a retry and absent otherwise. */
  lemma BlockShape(k: nat, e: Exchange)
    ensures var b := BlockLines(k, e);
            && |b| == (if e.second.Some? then 7 else 4)
            && b[0] == QuestionLine(k + 1, e.question)
            && b[|b| - 1] == BlockDelimiter()
            && forall j :: 0 <= j < |b| ==> (b[j] == SecondAttemptNotice() <==> e.second.Some? && j == 3)
  {
    var b := BlockLines(k, e);
    assert b[0][0] == 'Q' && b[1][0] == 'F' && b[2][0] == 'V' && b[|b| - 1][0] == '\n';
    if e.second.Some? {
      assert b[4][0] == 'S' && b[5][0] == 'S';
    }
  }

  lemma {:induction false} LinesPrefix(es: seq<Exchange>, j: nat)
    requires j <= |es|
    ensures Lines(es[..j]) <= Lines(es)
    decreases |es|
  {
    if j < |es| {
      var n := |es| - 1;
      assert es[..n][..j] == es[..j];
      LinesPrefix(es[..n], j);
    } else {
      assert es[..j] == es;
    }
  }

  lemma LinesSnoc(es: seq<Exchange>, e: Exchange)
    ensures Lines(es + [e]) == Lines(es) + BlockLines(|es|, e)
  {
    assert (es + [e])[..|es|] == es;
  }

  /** Rendering one more exchange appends its block. */
  lemma LinesStep(es: seq<Exchange>, k: nat)
    requires k < |es|
    ensures Lines(es[..k + 1]) == Lines(es[..k]) + BlockLines(k, es[k])
  {
    var p := es[..k + 1];
    assert p[..|p| - 1] == es[..k] && p[|p| - 1] == es[k];
  }

  lemma BlocksInOrder(es: seq<Exchange>, k: nat)
    requires k < |es|
    ensures Lines(es[..k]) + BlockLines(k, es[k]) <= Lines(es)
  {
    LinesStep(es, k);
    LinesPrefix(es, k + 1);
  }

  lemma HeaderThenBlocksInOrder(es: seq<Exchange>, k: nat)
    requires k < |es|
    ensures [LogHeader()] + Lines(es[..k]) + BlockLines(k, es[k]) <= [LogHeader()] + Lines(es)
  {
    BlocksInOrder(es, k);
    AppendAssoc([LogHeader()], Lines(es[..k]), BlockLines(k, es[k]));
  }

  /** Blocks are written in traversal order: the log up to and including the
      block of the k-th question is a prefix of the whole log. */
  lemma LogInTraversalOrder(kb: seq<Entry>, order: seq<string>, coins: nat -> bool, k: nat)
    requires k < |order|
    ensures var es := Transcript(kb, order, coins);
            [LogHeader()] + Lines(es[..k]) + BlockLines(k, es[k]) <= SessionLog(kb, order, coins)
  {
    HeaderThenBlocksInOrder(Transcript(kb, order, coins), k);
  }

  // ---------------------------------------------------------------------------
  // The scenarios of a one-record knowledge base

  function France(): string { "What is the capital of France?" }
  function Paris(): string { "Paris" }

  lemma ScenarioCorrectFirstAnswer(coins: nat -> bool)
    requires coins(0)
    ensures Handle([Entry(France(), Paris())], France(), coins, 0)
            == Step(Exchange(France(), Attempt(Paris(), ValidText()), None), 1)
  {
    assert IsLastFor([Entry(France(), Paris())], 0);
  }

  lemma ScenarioIncorrectTwice(coins: nat -> bool)
    requires !coins(0)
    ensures var mismatch := Attempt(IncorrectPrefix() + France(), MismatchPrefix() + Paris() + MismatchSuffix());
            Handle([Entry(France(), Paris())], France(), coins, 0) == Step(Exchange(France(), mismatch, Some(mismatch)), 1)
  {
    var kb := [Entry(France(), Paris())];
    assert IsLastFor(kb, 0);
    IncorrectStringIsNotParis();
    assert (MismatchPrefix() + Paris() + MismatchSuffix())[..|RetryText()|] == RetryText();
  }

  /** The incorrect string for the France question does not match "Paris". */
  lemma IncorrectStringIsNotParis()
    ensures !Matches(IncorrectPrefix() + France(), Paris())
  {
    var wrong := IncorrectPrefix() + France();
    assert Lower(wrong)[0] == 's' && Lower(wrong)[|wrong| - 1] == '?';
    StripUnpadded(Lower(wrong));
    assert Lower(Paris())[0] == 'p' && Lower(Paris())[|Paris()| - 1] == 's';
    StripUnpadded(Lower(Paris()));
  }

  lemma ScenarioOutOfDomain(coins: nat -> bool)
    ensures var light := UnseenQuestions()[0];
            var ood := Attempt(OutOfDomainPrefix() + light, OutOfDomainText());
            Handle([Entry(France(), Paris())], light, coins, 0) == Step(Exchange(light, ood, Some(ood)), 0)
  {
    var light := UnseenQuestions()[0];
    assert |light| != |France()|;
    assert OutOfDomainText()[..|RetryText()|] == RetryText();
  }

  // ---------------------------------------------------------------------------
  // The imperative part

  /** `s` with the entries at `i` and `j` exchanged. */
  function Swap<T>(s: seq<T>, i: nat, j: nat): (r: seq<T>)
    requires i < |s| && j < |s|
    ensures |r| == |s| && r[i] == s[j] && r[j] == s[i]
    ensures forall k :: 0 <= k < |s| && k != i && k != j ==> r[k] == s[k]
  {
    s[i := s[j]][j := s[i]]
  }

  lemma SwapPermutes<T>(s: seq<T>, i: nat, j: nat)
    requires i < |s| && j < |s|
    ensures multiset(Swap(s, i, j)) == multiset(s)
  {
    if i != j {
      assert s[i := s[j]] == s[..i] + [s[j]] + s[i + 1..];
      assert s == s[..i] + [s[i]] + s[i + 1..];
    }
  }

  /** `random.shuffle` on the first `n` entries of `s`, its draws taken from
      `draws(k)` on: position `n - 1` is exchanged with the one `draws(k) % n`
      picks among `0..n - 1`, then the first `n - 1` are shuffled. */
  function ShuffleFrom<T>(s: seq<T>, n: nat, draws: nat -> nat, k: nat): (r: seq<T>)
    requires n <= |s|
    ensures |r| == |s|
    ensures r[n..] == s[n..]
    decreases n
  {
    if n <= 1 then s else ShuffleFrom(Swap(s, n - 1, draws(k) % n), n - 1, draws, k + 1)
  }

  function Shuffled<T>(s: seq<T>, draws: nat -> nat): seq<T> {
    ShuffleFrom(s, |s|, draws, 0)
  }

  /** Whatever the draws, shuffling only rearranges the entries. */
  lemma {:induction false} ShuffleFromPermutes<T>(s: seq<T>, n: nat, draws: nat -> nat, k: nat)
    requires n <= |s|
    ensures |ShuffleFrom(s, n, draws, k)| == |s|
    ensures multiset(ShuffleFrom(s, n, draws, k)) == multiset(s)
    decreases n
  {
    if n > 1 {
      SwapPermutes(s, n - 1, draws(k) % n);
      ShuffleFromPermutes(Swap(s, n - 1, draws(k) % n), n - 1, draws, k + 1);
    }
  }

  /** `random.shuffle`: Fisher-Yates from the back, the k-th draw choosing the
      partner of position i - 1 among 0..i - 1. */
  method Shuffle<T>(a: array<T>, draws: nat -> nat)
    modifies a
    ensures a[..] == Shuffled(old(a[..]), draws)
  {
    var i := a.Length;
    var k := 0;
    while i > 1
      invariant 0 <= i <= a.Length
      invariant ShuffleFrom(a[..], i, draws, k) == Shuffled(old(a[..]), draws)
    {
      var j := draws(k) % i;
      ghost var before := a[..];
      a[i - 1], a[j] := a[j], a[i - 1];
      assert a[..] == Swap(before, i - 1, j);
      i, k := i - 1, k + 1;
    }
  }

  lemma AppendAssoc<T>(a: seq<T>, b: seq<T>, c: seq<T>)
    ensures a + b + c == a + (b + c)
  {
  }

  /** Three single appends are one append of the three elements. */
  lemma AppendThree<T>(s: seq<T>, x: T, y: T, z: T)
    ensures s + [x] + [y] + [z] == s + [x, y, z]
  {
  }

  /** The lines of a block, appended one at a time, form the block. */
  lemma AppendBlock<T>(log: seq<T>, a: T, b: T, c: T, middle: seq<T>, d: T)
    ensures log + [a] + [b] + [c] + middle + [d] == log + ([a, b, c] + middle + [d])
  {
  }

  /** The loop pass when the first verdict asks for no retry. */
  lemma HandleWithoutRetry(kb: seq<Entry>, question: string, coins: nat -> bool, next: nat)
    requires var first := AskModel(kb, question, false, coins, next);
             !StartsWith(ValidateAnswer(kb, question, first.answer), RetryText())
    ensures var first := AskModel(kb, question, false, coins, next);
            Handle(kb, question, coins, next)
            == Step(Exchange(question, Attempt(first.answer, ValidateAnswer(kb, question, first.answer)), None), first.nextCoin)
  {
  }

  /** The loop pass when the first verdict asks for a retry. */
  lemma HandleWithRetry(kb: seq<Entry>, question: string, coins: nat -> bool, next: nat)
    requires var first := AskModel(kb, question, false, coins, next);
             StartsWith(ValidateAnswer(kb, question, first.answer), RetryText())
    ensures var first := AskModel(kb, question, false, coins, next);
            var second := AskModel(kb, question, true, coins, first.nextCoin);
            Handle(kb, question, coins, next)
            == Step(Exchange(question, Attempt(first.answer, ValidateAnswer(kb, question, first.answer)),
                             Some(Attempt(second.answer, ValidateAnswer(kb, question, second.answer)))),
                    second.nextCoin)
  {
  }

  /** One pass of the loop body: writes the block of `question`, numbered
      `i + 1`, starting at coin `next`; returns the log and the next coin. */
  method WriteExchange(kb: seq<Entry>, i: nat, question: string, coins: nat -> bool, next: nat, log: seq<string>)
    returns (log': seq<string>, next': nat)
    ensures var s := Handle(kb, question, coins, next);
            log' == log + BlockLines(i, s.exchange) && next' == s.nextCoin
  {
    log' := log + [QuestionLine(i + 1, question)];
    var first := AskModel(kb, question, false, coins, next);
    next' := first.nextCoin;
    log' := log' + [FirstAnswerLine(first.answer)];
    var validation := ValidateAnswer(kb, question, first.answer);
    log' := log' + [ValidationLine(validation)];
    ghost var opening := log';
    ghost var second: Option<Attempt> := None;
    ghost var middle: seq<string> := [];
    if StartsWith(validation, RetryText()) {
      log' := log' + [SecondAttemptNotice()];
      var retry := AskModel(kb, question, true, coins, next');
      next' := retry.nextCoin;
      log' := log' + [SecondAnswerLine(retry.answer)];
      var secondValidation := ValidateAnswer(kb, question, retry.answer);
      log' := log' + [SecondValidationLine(secondValidation)];
      second := Some(Attempt(retry.answer, secondValidation));
      middle := SecondAttemptLines(second);
      AppendThree(opening, SecondAttemptNotice(), SecondAnswerLine(retry.answer), SecondValidationLine(secondValidation));
      HandleWithRetry(kb, question, coins, next);
    } else {
      assert log' == opening + middle;
      HandleWithoutRetry(kb, question, coins, next);
    }
    log' := log' + [BlockDelimiter()];
    AppendBlock(log, QuestionLine(i + 1, question), FirstAnswerLine(first.answer), ValidationLine(validation), middle, BlockDelimiter());
  }

  /** The loop of `run_qa_process` over an already shuffled list. Returns the
      lines written and the number of coins drawn. */
  method RunSession(kb: seq<Entry>, order: seq<string>, coins: nat -> bool) returns (log: seq<string>, used: nat)
    ensures log == SessionLog(kb, order, coins)
    ensures used == CountKnown(kb, order)
  {
    log := [LogHeader()];
    used := 0;
    ghost var handle := HandleWith(kb, coins);
    for i := 0 to |order|
      invariant log == [LogHeader()] + Lines(Exchanges(kb, order[..i], handle))
      invariant used == CountKnown(kb, order[..i])
    {
      ghost var before, start := log, used;
      log, used := WriteExchange(kb, i, order[i], coins, used, log);
      ghost var e := Handle(kb, order[i], coins, start).exchange;
      assert handle(order[i], start) == e;
      ExchangesStep(kb, order, handle, i);
      LinesSnoc(Exchanges(kb, order[..i], handle), e);
      AppendAssoc([LogHeader()], Lines(Exchanges(kb, order[..i], handle)), BlockLines(i, e));
      CountKnownStep(kb, order, i);
    }
    assert order[..|order|] == order;
  }

  /** `run_qa_process`: the question list, its shuffle, and the session. */
  method RunQaProcess(kb: seq<Entry>, draws: nat -> nat, coins: nat -> bool)
    returns (order: seq<string>, log: seq<string>, used: nat)
    ensures |order| == |kb| + |UnseenQuestions()|
    ensures order == Shuffled(SessionQuestions(kb), draws)
    ensures multiset(order) == multiset(SessionQuestions(kb))
    ensures log == SessionLog(kb, order, coins)
    ensures used == |kb| + CountKnown(kb, UnseenQuestions())
  {
    var kbQuestions := KbQuestions(kb);
    var allQuestions := kbQuestions + UnseenQuestions();
    var a := new string[|allQuestions|](i requires 0 <= i < |allQuestions| => allQuestions[i]);
    assert a[..] == allQuestions;
    Shuffle(a, draws);
    order := a[..];
    ShuffleFromPermutes(allQuestions, |allQuestions|, draws, 0);
    log, used := RunSession(kb, order, coins);
    CountKnownPermutation(kb, order, allQuestions);
    CountKnownAppend(kb, kbQuestions, UnseenQuestions());
    CountKnownKbQuestions(kb);
  }
}
