/**
 Reading through a COM enumerator: `ReadTable` of drpdb/src/DIACommon.h and the inner loop of `ReadSource` in
 drpdb/src/DIA2Input.cpp. An enumerator is the list of answers it will give to `Next`, whatever they are; behind
 its last answer it has nothing more.
 */
module Enumerators {

  datatype Status = Ok | PastTheEnd | Failed

  /** One reply to `Next`: the status, and the elements fetched. */
  datatype Answer<T> = Answer(status: Status, batch: seq<T>)

  class Enumerator<T> {
    var answers: seq<Answer<T>>

    constructor (answers: seq<Answer<T>>)
      ensures this.answers == answers
    {
      this.answers := answers;
    }

    method Next() returns (answer: Answer<T>)
      modifies this
      ensures old(answers) == [] ==> answer == Answer(PastTheEnd, []) && answers == []
      ensures old(answers) != [] ==> answer == old(answers)[0] && answers == old(answers)[1..]
    {
      if answers == [] {
        return Answer(PastTheEnd, []);
      }
      answer := answers[0];
      answers := answers[1..];
    }
  }

  /** The receiver of the elements: `p.element(...)`. */
  class Collector<T> {
    var received: seq<T>

    constructor ()
      ensures received == []
    {
      received := [];
    }

    method Element(item: T)
      modifies this
      ensures received == old(received) + [item]
    {
      received := received + [item];
    }

    method Elements(batch: seq<T>)
      modifies this
      ensures received == old(received) + batch
    {
      for f := 0 to |batch|
        invariant received == old(received) + batch[..f]
      {
        Element(batch[f]);
        assert batch[..f + 1] == batch[..f] + [batch[f]];
      }
      assert batch[..|batch|] == batch;
    }
  }

  // ------------------------------------------------------------- ReadTable

  /** What arrives: batch after batch, up to the first failure or empty batch. */
  function Delivered<T>(answers: seq<Answer<T>>): seq<T> {
    if answers == [] || answers[0].status.Failed? || answers[0].batch == [] then []
    else answers[0].batch + Delivered(answers[1..])
  }

  method ReadTable<T>(enumerator: Enumerator<T>, p: Collector<T>)
    modifies enumerator, p
    ensures p.received == old(p.received) + Delivered(old(enumerator.answers))
  {
    ghost var goal := p.received + Delivered(enumerator.answers);
    while true
      invariant p.received + Delivered(enumerator.answers) == goal
      decreases |enumerator.answers|
    {
      ghost var before := enumerator.answers;
      var answer := enumerator.Next();
      if answer.status.Failed? || |answer.batch| == 0 {
        assert Delivered(before) == [];
        break;
      }
      assert p.received + (answer.batch + Delivered(enumerator.answers))
          == p.received + answer.batch + Delivered(enumerator.answers);
      p.Elements(answer.batch);
    }
  }

  function AllBatches<T>(answers: seq<Answer<T>>): seq<T> {
    if answers == [] then [] else answers[0].batch + AllBatches(answers[1..])
  }

  /** An empty batch means that nothing is left. */
  predicate Finite<T>(answers: seq<Answer<T>>) {
    answers == [] ||
    (if answers[0].batch == [] then AllBatches(answers[1..]) == [] else Finite(answers[1..]))
  }

  predicate NeverFails<T>(answers: seq<Answer<T>>) {
    answers == [] || (!answers[0].status.Failed? && NeverFails(answers[1..]))
  }

  /** Batch sizes do not matter: every element arrives once and in order. */
  lemma {:induction false} BatchingIsInvisible<T>(answers: seq<Answer<T>>)
    requires NeverFails(answers) && Finite(answers)
    ensures Delivered(answers) == AllBatches(answers)
  {
    if answers != [] && answers[0].batch != [] {
      BatchingIsInvisible(answers[1..]);
    }
  }

  /** With interruptions, what arrives is a prefix of what there is. */
  lemma {:induction false} DeliveredIsPrefix<T>(answers: seq<Answer<T>>)
    ensures Delivered(answers) <= AllBatches(answers)
  {
    if answers != [] {
      DeliveredIsPrefix(answers[1..]);
    }
  }

  predicate Stops<T>(answer: Answer<T>) {
    answer.status.Failed? || answer.batch == []
  }

  /** All batches before the first failure or empty batch arrive, and nothing behind it does, whatever it is. */
  lemma {:induction false} NothingBehindAStop<T>(
      answers: seq<Answer<T>>, stop: Answer<T>, behind: seq<Answer<T>>)
    requires forall answer :: answer in answers ==> !Stops(answer)
    requires Stops(stop)
    ensures Delivered(answers + [stop] + behind) == AllBatches(answers)
  {
    var all := answers + [stop] + behind;
    if answers == [] {
      assert all[0] == stop;
    } else {
      assert all[0] == answers[0] && all[1..] == answers[1..] + [stop] + behind;
      assert answers[0] in answers;
      NothingBehindAStop(answers[1..], stop, behind);
    }
  }

  // ------------------------------------------------------------ ReadSource

  const BATCH := 64

  /** What the loop of `ReadSource` records: only batches that come with `S_OK`. */
  function Recorded<T>(answers: seq<Answer<T>>): seq<T> {
    if answers == [] || !answers[0].status.Ok? then [] else answers[0].batch + Recorded(answers[1..])
  }

  /** `S_OK` comes with exactly the batches that hold something. */
  predicate OkMarksBatches<T>(answers: seq<Answer<T>>) {
    answers == [] || ((answers[0].status.Ok? <==> answers[0].batch != []) && OkMarksBatches(answers[1..]))
  }

  /** Under that rule nothing is missed. */
  lemma {:induction false} AllRecorded<T>(answers: seq<Answer<T>>)
    requires OkMarksBatches(answers) && Finite(answers)
    ensures Recorded(answers) == AllBatches(answers)
  {
    if answers != [] && answers[0].batch != [] {
      AllRecorded(answers[1..]);
    }
  }

  /** All batches before the first answer that is not `S_OK` are recorded, and nothing of that answer or behind it. */
  lemma {:induction false} NothingBehindNotOk<T>(answers: seq<Answer<T>>, stop: Answer<T>, behind: seq<Answer<T>>)
    requires forall answer :: answer in answers ==> answer.status.Ok?
    requires !stop.status.Ok?
    ensures Recorded(answers + [stop] + behind) == AllBatches(answers)
  {
    var all := answers + [stop] + behind;
    if answers == [] {
      assert all[0] == stop;
    } else {
      assert all[0] == answers[0] && all[1..] == answers[1..] + [stop] + behind;
      assert answers[0] in answers;
      NothingBehindNotOk(answers[1..], stop, behind);
    }
  }

  /**
   The answers of an enumerator that keeps to the COM rule: `S_OK` with a full batch of the size asked for, and
   `S_FALSE` with a shorter last one.
   */
  function ComAnswers<T>(items: seq<T>): seq<Answer<T>>
    decreases |items|
  {
    if |items| < BATCH then [Answer(PastTheEnd, items)]
    else [Answer(Ok, items[..BATCH])] + ComAnswers(items[BATCH..])
  }

  /** Such an enumerator loses its last batch in `ReadSource`, because that one does not come with `S_OK`. */
  lemma {:induction false} LastBatchIsLost<T>(items: seq<T>)
    ensures Recorded(ComAnswers(items)) == items[..|items| - |items| % BATCH]
    ensures Recorded(ComAnswers(items)) == items <==> |items| % BATCH == 0
    decreases |items|
  {
    if |items| >= BATCH {
      var rest := items[BATCH..];
      LastBatchIsLost(rest);
      assert ComAnswers(items)[1..] == ComAnswers(rest);
      assert |items| % BATCH == |rest| % BATCH;
      assert items[..|items| - |items| % BATCH] == items[..BATCH] + rest[..|rest| - |rest| % BATCH];
    }
    assert items[..|items|] == items;
  }
}
