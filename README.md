# Q&A retry simulation, modelled in Dafny

The system is a small question-answering retry simulation built from two Python files:

- `validate_answer` (validator.py) checks an answer against a knowledge base of question/answer records. The answer is compared after lower-casing and stripping. The result is one of three strings: `"VALID"`, `"RETRY: answer differs from KB (expected: <answer>)"` or `"RETRY: out-of-domain"`.
- `ask_model` (ask_model.py) simulates a language model. It has three possible replies:
  - for a known question on a first attempt, a coin decides between the stored answer and a fixed "incorrect" string;
  - a known question on a retry always gets the "incorrect" string;
  - an unknown question always gets an "out-of-domain" string.
- `run_qa_process` (ask_model.py):
  - appends five fixed unseen questions to the questions of the knowledge base and shuffles the list;
  - for each question, asks, validates, and asks once more when the verdict starts with `"RETRY"`;
  - writes every step to `run.log`.

The Dafny project has five modules, one file each:

- `text.dfy` (`Text`): ASCII `lower()`, `strip()` and `startswith`, and the decimal rendering of the question number.
- `knowledge_base.dfy` (`KnowledgeBase`): the records and the lookup dictionary that both files build from them.
- `validator.dfy` (`Validator`): a verdict datatype, the decision, the exact strings, and a parser that inverts them.
- `generator.dfy` (`Generator`): `ask_model`, with its random coin injected as a stream.
- `session.dfy` (`Session`): `random.shuffle` as an in-place Fisher-Yates method over an array, and the session loop as a method that appends one string to the log per `log_file.write`.

The log is proved equal to a rendering of a structured transcript of the session. That transcript is a sequence of `Exchange` values: the question, the first attempt, and the optional second attempt.

Randomness is supplied as two streams:
- `coins(k)` is the outcome of the k-th `random.random() < 0.7`;
- `draws(k)` is the k-th draw that `random.shuffle` makes.

Each call of `AskModel` takes the position of the next unused coin and returns the position after it. This makes "no coin is drawn" a statement about the model. It also shows how many coins a whole session uses: one per known question.

## Model

| member | source | states |
|---|---|---|
| Text.IsSpace | validator.py:43 | the whitespace `strip()` removes: ASCII TAB, LF, VT, FF, CR, 0x1C-0x1F and SPACE, as Python's `str.isspace` classifies them (a predicate; its behaviour is pinned by the trim contracts below) |
| Text.Lower | validator.py:43 | `lower()` keeps the length |
| Text.LowerChangesOnlyUpper | validator.py:43 | `lower()` changes a character exactly when it is an upper-case ASCII letter, and then to the matching lower-case letter |
| Text.TrimStart | validator.py:43 | the left half of `strip()`: no longer than the input, every dropped leading character is whitespace, and the result does not start with whitespace |
| Text.TrimStartIsSuffix | validator.py:43 | what the left trim leaves is a suffix of the input, so with TrimStart exactly the leading whitespace is removed |
| Text.TrimEnd | validator.py:43 | the right half of `strip()`: no longer than the input, every dropped trailing character is whitespace, and the result does not end with whitespace |
| Text.TrimEndIsPrefix | validator.py:43 | what the right trim leaves is a prefix of the input, so with TrimEnd exactly the trailing whitespace is removed |
| Text.Strip | validator.py:43 | `strip()`: no longer than its input, and the result neither starts nor ends with whitespace; with TrimStart, TrimEnd and StripIgnoresPadding it removes exactly the surrounding whitespace |
| Text.TrimStartAppend | validator.py:43 | trimming the front of a concatenation reaches into the second part only when the first is all whitespace |
| Text.TrimEndPrepend | validator.py:43 | trimming the back of a concatenation reaches into the first part only when the second is all whitespace |
| Text.StripUnpadded | validator.py:43 | a string without whitespace at either end is its own strip |
| Text.LowerTrimStart | validator.py:43 | lower-casing commutes with trimming the front |
| Text.LowerTrimEnd | validator.py:43 | lower-casing commutes with trimming the back |
| Text.StripIgnoresPadding | validator.py:43 | whitespace padding on either side does not change the stripped string |
| Text.NormalizeOrderIrrelevant | validator.py:43 | `lower().strip()` equals `strip().lower()` on every string |
| Text.Normalize | validator.py:43 | `lower().strip()` in that order; NormalizeOrderIrrelevant and NormalizeIgnoresCaseAndPadding state what it identifies |
| Text.NormalizeIgnoresCaseAndPadding | validator.py:43 | a padded string normalises like any string that differs from it only in letter case |
| Text.LowerAppend | validator.py:43 | `lower()` distributes over concatenation |
| Text.StartsWith | ask_model.py:79 | `str.startswith`: the prefix is no longer than the string and equals its first characters (a predicate; Render and ValidateAnswer state which verdict strings satisfy it for `"RETRY"`) |
| Text.NatToString | ask_model.py:67 | the question number's text is non-empty and has no leading zero |
| Text.DecimalRoundTrip | ask_model.py:67 | the question number's text is all decimal digits and reads back as the number through DecimalValue |
| KnowledgeBase.KbMap | validator.py:35 | every record's question is a key, and it maps to the answer of the last record with that question |
| KnowledgeBase.KbMapKeysFromRecords | validator.py:35 | every key of the lookup is the question of some record |
| KnowledgeBase.LookupFindsLastRecord | validator.py:35-40 | a question is in the lookup iff some record carries it, and then the last such record supplies the value |
| KnowledgeBase.KbQuestions | ask_model.py:42 | the list of questions has one entry per record, in record order |
| Validator.Matches | validator.py:43 | two answers match when their `lower().strip()` forms are equal; ValidIgnoresCaseAndPadding and MismatchQuotesStoredAnswer state its consequences for the verdict |
| Validator.Validate | validator.py:35-49 | out of domain iff no record has the question; otherwise valid iff the answer matches the last record's answer after `lower().strip()`, and a mismatch carries that answer |
| Validator.Render | validator.py:44-49 | the rendered string starts with `"RETRY"` iff the verdict is not valid |
| Validator.ParseRender | validator.py:44-49 | each verdict renders to a string from which it reads back unchanged |
| Validator.ValidateAnswer | validator.py:17-49 | the result is `"VALID"`, `"RETRY: out-of-domain"` or starts with the mismatch prefix; it parses back to the decision; it starts with `"RETRY"` iff it is not `"VALID"` |
| Validator.OutOfDomainWhateverTheAnswer | validator.py:38-49 | a question absent from the lookup gives `"RETRY: out-of-domain"` for every answer |
| Validator.StoredAnswerValidates | validator.py:38-44 | the stored answer itself is `"VALID"` |
| Validator.DependsOnLookupOnly | validator.py:31-49 | two record lists that build the same lookup give the same result for every question and answer |
| Validator.ValidIgnoresCaseAndPadding | validator.py:40-44 | an answer differing from the stored one only in case and surrounding whitespace is `"VALID"` |
| Validator.MismatchQuotesStoredAnswer | validator.py:45-46 | a non-matching answer yields the mismatch string quoting the stored answer unnormalised |
| Validator.LaterDuplicateDecides | validator.py:35 | with a question recorded twice, the later answer validates and one matching only the earlier answer is a mismatch quoting the later one |
| Generator.AskModel | ask_model.py:13-36 | a coin is consumed exactly when the question is known and the call is a first attempt |
| Generator.AskModelOutOfDomain | ask_model.py:27-36 | an unknown question gets the out-of-domain string on any attempt and with any coins, and uses no coin |
| Generator.AskModelRetry | ask_model.py:29-33 | a retry on a known question gets the incorrect string and uses no coin |
| Generator.AskModelFirstAttempt | ask_model.py:27-33 | a first attempt on a known question uses one coin: heads gives the last record's answer verbatim, tails the incorrect string |
| Generator.AskModelReadsOneCoin | ask_model.py:29 | the reply depends on the coin stream only through the coin at the current position |
| Generator.ValidateGenerated | ask_model.py:13-36 | an unknown question's reply is out of domain; a heads reply is valid; the incorrect string is valid iff it matches the stored answer |
| Generator.IncorrectAnswerCanValidate | ask_model.py:31-33 | a record whose answer is the incorrect string itself makes even the retry validate |
| Session.UnseenQuestions | ask_model.py:45-51 | the five fixed unseen questions |
| Session.SessionQuestions | ask_model.py:42-54 | the list before the shuffle: one question per record in record order, followed by the five unseen questions |
| Session.CountKnown | ask_model.py:27-29 | the number of entries that are questions of the lookup, at most the length |
| Session.CountKnownExtremes | ask_model.py:27-29 | all entries count when all are known, and none when none is |
| Session.CountKnownAppend | ask_model.py:66-88 | the number of known questions is additive over concatenation |
| Session.CountKnownPermutation | ask_model.py:54-55 | the number of known questions does not depend on the order of the list |
| Session.CountKnownKbQuestions | ask_model.py:42 | every question of the knowledge base's own list is known |
| Session.CoinsAreNotReused | ask_model.py:70 | a known question's coin position is below that of every later question |
| Session.Handle | ask_model.py:66-86 | one loop pass keeps the question, draws a coin iff the question is known, and makes a second attempt iff the first verdict is not `"VALID"` |
| Session.Exchanges | ask_model.py:66 | the walk produces one exchange per question |
| Session.ExchangesAt | ask_model.py:66-70 | the k-th exchange is the handling of the k-th question, starting after the coins of the known questions before it |
| Session.Transcript | ask_model.py:66-86 | the exchanges of a session, one loop pass per question in list order; TranscriptAt and AttemptsPerQuestion state each entry |
| Session.HandleWithoutRetry | ask_model.py:69-88 | when the first verdict does not start with `"RETRY"`, the pass records the first attempt alone and ends at the coin after it |
| Session.HandleWithRetry | ask_model.py:69-88 | when the first verdict starts with `"RETRY"`, the pass adds a retry attempt at the coin after the first, and ends where the retry leaves the coins |
| Session.TranscriptAt | ask_model.py:66-86 | the k-th exchange of a session is one loop pass on the k-th question |
| Session.AttemptsPerQuestion | ask_model.py:69-86 | each question has one first attempt, which is not a retry; a second attempt, which is a retry, iff the first verdict starts with `"RETRY"`; and no third |
| Session.OutOfDomainRetryAlsoOutOfDomain | ask_model.py:79-86 | an unknown question is retried and both validations are `"RETRY: out-of-domain"` |
| Session.KnownQuestionRetryIsIncorrectString | ask_model.py:81 | the retry of a known question answers with the incorrect string |
| Session.LogHeader | ask_model.py:63 | the header line written before any question |
| Session.QuestionLine | ask_model.py:67 | the numbered question line; BlockShape places it first in each block |
| Session.FirstAnswerLine | ask_model.py:71 | the first answer line |
| Session.ValidationLine | ask_model.py:76 | the validation line |
| Session.SecondAttemptNotice | ask_model.py:80 | the retry notice; BlockShape shows it appears only in a block with a retry |
| Session.SecondAnswerLine | ask_model.py:82 | the second answer line |
| Session.SecondValidationLine | ask_model.py:86 | the second validation line |
| Session.BlockDelimiter | ask_model.py:88 | the delimiter closing every block |
| Session.SecondAttemptLines | ask_model.py:79-86 | no lines without a retry, otherwise the notice, the second answer and the second validation |
| Session.BlockLines | ask_model.py:67-88 | the lines of one loop pass in write order; BlockShape states their number and positions |
| Session.Lines | ask_model.py:66-88 | the blocks of the exchanges in list order, numbered from 1; LinesSnoc, LinesPrefix and BlocksInOrder state its structure |
| Session.SessionLog | ask_model.py:62-88 | the header followed by the blocks of the session transcript; RunSession writes exactly this |
| Session.BlockShape | ask_model.py:67-88 | a block has 4 lines, or 7 with a retry; it opens with the numbered question line and closes with the delimiter; the retry notice is its fourth line iff there is a retry |
| Session.LinesPrefix | ask_model.py:66-88 | the log of the first j exchanges is a prefix of the log of all of them |
| Session.LinesSnoc | ask_model.py:66-88 | one more exchange appends exactly its block |
| Session.LinesStep | ask_model.py:66-88 | the log up to exchange k + 1 is the log up to k followed by block k |
| Session.BlocksInOrder | ask_model.py:66-88 | the blocks before k, followed by block k, form a prefix of the log |
| Session.HeaderThenBlocksInOrder | ask_model.py:63-88 | the header, the blocks before k and block k form a prefix of the header followed by all blocks |
| Session.LogInTraversalOrder | ask_model.py:63-88 | in a session log, the header and the blocks up to question k come first, in list order |
| Session.ScenarioCorrectFirstAnswer | ask_model.py:66-88 | with one record and heads, the stored answer is valid at once and no retry happens |
| Session.ScenarioIncorrectTwice | ask_model.py:66-88 | with one record and tails, both attempts give the incorrect string and both are mismatches quoting the stored answer |
| Session.IncorrectStringIsNotParis | ask_model.py:33 | the incorrect string for the France question does not match "Paris" under `lower().strip()` |
| Session.ScenarioOutOfDomain | ask_model.py:66-88 | an unseen question gets the out-of-domain string twice, both out of domain, and uses no coin |
| Session.Swap | ask_model.py:55 | exchanges two entries and keeps the others |
| Session.SwapPermutes | ask_model.py:55 | an exchange keeps the multiset of entries |
| Session.ShuffleFrom | ask_model.py:55 | Fisher-Yates from the back over the first n entries, as CPython's `random.shuffle` swaps; the length and the entries past n are kept |
| Session.Shuffled | ask_model.py:55 | the shuffle of the whole list with the given draws; ShuffleFromPermutes proves it a permutation |
| Session.ShuffleFromPermutes | ask_model.py:55 | Fisher-Yates keeps the length and the multiset of entries, whatever the draws |
| Session.Shuffle | ask_model.py:55 | the in-place shuffle of the array leaves exactly the Fisher-Yates result of the draws |
| Session.WriteExchange | ask_model.py:67-88 | one loop pass appends exactly the block of that question's exchange and advances the coin position as `Handle` does |
| Session.RunSession | ask_model.py:62-88 | the log written is the header followed by the blocks of the session transcript, and the coins used are the number of known questions in the list |
| Session.RunQaProcess | ask_model.py:39-88 | the list is the Fisher-Yates shuffle of the KB questions followed by the five unseen ones, so it has their length and multiset; the log is the session log; the coins used are the number of records plus the number of unseen questions that are known |

## Left out

- Reading `kb.json` (`load_knowledge_base`, ask_model.py:7-10, validator.py:3-15) is not modelled. The knowledge base is a parameter. Both functions re-read the file on every call; the model assumes it does not change during a session.
- Opening and writing `run.log`, and creating `results/` (ask_model.py:58-62), are not modelled. The log is the sequence of strings written, in order.
- `random.random() < 0.7` is an injected coin stream. The probability 0.7 is not modelled.
- `random.shuffle`: the draws are an injected stream, and the k-th draw's position is taken modulo the range size. This replaces `randbelow`'s rejection sampling. Both use one shared Python random state; the model gives each its own stream.
- Python's `str.lower`, `str.strip` and `str.isspace` are modelled over ASCII only. Case folding covers `A`-`Z`, and whitespace is TAB, LF, VT, FF, CR, the separators 0x1C-0x1F and SPACE. Other Unicode behaviour is not modelled.
- The `__main__` demo blocks and their `print` calls (ask_model.py:90-93, validator.py:51-67) are not modelled.
- Records are assumed to carry a string `question` and a string `answer`. A record missing either key raises `KeyError` in the comprehensions (validator.py:35, ask_model.py:24, ask_model.py:42). A non-string answer raises `AttributeError` at validator.py:43 after the question and first-answer lines are written (ask_model.py:67-71), ending the session. Neither error is modelled, and a non-string question cannot be expressed.
- The in-function `from validator import validate_answer` (ask_model.py:74) is not modelled. `ValidateAnswer` is called directly.

## Where the intent and the code differ

- The comment at ask_model.py:32 calls the incorrect reply "different from the correct one". The code does not ensure this: a record whose answer is `"Simulated incorrect answer for: " + q` makes the retry validate (`Generator.IncorrectAnswerCanValidate`). The model follows the code.
- A retry on a known question never returns a different plausible answer. It always returns the incorrect string (`Generator.AskModelRetry`). So a known question whose first answer fails fails its second attempt too, unless the stored answer normalises to that string. `Generator.ValidateGenerated` proves this for every knowledge base; `Session.ScenarioIncorrectTwice` shows it for one record.
