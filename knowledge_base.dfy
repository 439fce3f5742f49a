/**
 * The knowledge base as the two core files see it once it is loaded: the
 * list of `{question, answer}` records under the `questions` key, and the
 * lookup dictionary both files build from it with a comprehension.
 */
module KnowledgeBase {

  datatype Entry = Entry(question: string, answer: string)

  /** `i` is the last record of `kb` that carries its question. */
  ghost predicate IsLastFor(kb: seq<Entry>, i: int) {
    0 <= i < |kb| && forall j :: i < j < |kb| ==> kb[j].question != kb[i].question
  }

  /** `{q['question']: q['answer'] for q in kb['questions']}`: the keys are the
      questions of the records, and a question that occurs more than once maps
      to the answer of its last record, since later insertions overwrite. */
  function KbMap(kb: seq<Entry>): (m: map<string, string>)
    ensures forall i :: 0 <= i < |kb| ==> kb[i].question in m
    ensures forall i :: IsLastFor(kb, i) ==> m[kb[i].question] == kb[i].answer
    decreases |kb|
  {
    if kb == [] then map[]
    else
      var prefix, last := kb[..|kb| - 1], kb[|kb| - 1];
      var m := KbMap(prefix);
      assert forall i :: IsLastFor(kb, i) && i < |prefix| ==> IsLastFor(prefix, i);
      assert forall i :: 0 <= i < |prefix| ==> prefix[i] == kb[i];
      m[last.question := last.answer]
  }

  /** Every key of the lookup is the question of some record. */
  lemma {:induction false} KbMapKeysFromRecords(kb: seq<Entry>, q: string)
    requires q in KbMap(kb)
    ensures exists i :: 0 <= i < |kb| && kb[i].question == q
    decreases |kb|
  {
    var prefix, last := kb[..|kb| - 1], kb[|kb| - 1];
    if q != last.question {
      KbMapKeysFromRecords(prefix, q);
      var i :| 0 <= i < |prefix| && prefix[i].question == q;
      assert kb[i] == prefix[i];
    }
  }

  /** The questions of the records, in list order and with repetitions:
      `[q['question'] for q in kb['questions']]`. */
  function KbQuestions(kb: seq<Entry>): (qs: seq<string>)
    ensures |qs| == |kb|
    ensures forall i :: 0 <= i < |kb| ==> qs[i] == kb[i].question
  {
    seq(|kb|, i requires 0 <= i < |kb| => kb[i].question)
  }

  /** A question is a key of the lookup exactly when some record carries it,
      and then the last such record supplies the value. */
  lemma LookupFindsLastRecord(kb: seq<Entry>, q: string)
    ensures q in KbMap(kb) <==> exists i :: 0 <= i < |kb| && kb[i].question == q
    ensures q in KbMap(kb) ==> exists i :: IsLastFor(kb, i) && kb[i].question == q && KbMap(kb)[q] == kb[i].answer
  {
    if q in KbMap(kb) {
      KbMapKeysFromRecords(kb, q);
      var i :| 0 <= i < |kb| && kb[i].question == q;
      while !IsLastFor(kb, i)
        invariant 0 <= i < |kb| && kb[i].question == q
        decreases |kb| - i
      {
        var j :| i < j < |kb| && kb[j].question == kb[i].question;
        i := j;
      }
    }
  }
}
