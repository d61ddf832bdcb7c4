/**
  `DataGenerator.run` without its file and console output: look the problem
  up, ask the completion source for a batch of chain-of-thought samples
  through the self-consistency step, and keep every sample whose extracted
  answer the verifier accepts as one `{problem, reasoning_path}` record.
 */
module DataGenerator {
  import opened Wrappers
  import opened Parser
  import opened Verification
  import opened SelfConsistency
  import opened Prompts

  /** One line of the output file */
  datatype Record = Record(problem: string, reasoningPath: string)

  /** What a run produces: nothing for an unknown id, otherwise the records and their count */
  datatype RunResult =
    | ProblemNotFound
    | Generated(records: seq<Record>, correctPaths: nat)

  /** The verdict `run` applies to every sample: does its extracted answer verify against the ground truth? */
  function Acceptance(groundTruth: string): (accept: string -> bool)
  {
    s => Verify(Extract(s), groundTruth)
  }

  /** A completion with no answer, or an empty one, is never accepted */
  lemma AcceptanceNeedsAnswer(groundTruth: string, s: string)
    ensures Acceptance(groundTruth)(s) ==> Extract(s).Some? && Extract(s).value != ""
  {
  }

  /** The records written for `samples`: one per accepted sample, in sample order */
  function AcceptedRecords(problem: string, accept: string -> bool, samples: seq<string>): (rs: seq<Record>)
    ensures |rs| <= |samples|
    decreases |samples|
  {
    if |samples| == 0 then []
    else
      var init, last := samples[..|samples| - 1], samples[|samples| - 1];
      assert samples == init + [last];
      var rs := AcceptedRecords(problem, accept, init);
      if accept(last) then rs + [Record(problem, last)] else rs
  }

  /** The records of a concatenated batch are those of its parts, in order */
  lemma {:induction false} AcceptedRecordsAppend(problem: string, accept: string -> bool, xs: seq<string>, ys: seq<string>)
    ensures AcceptedRecords(problem, accept, xs + ys) ==
      AcceptedRecords(problem, accept, xs) + AcceptedRecords(problem, accept, ys)
    decreases |ys|
  {
    if |ys| == 0 {
      assert xs + ys == xs;
    } else {
      var init, last := ys[..|ys| - 1], ys[|ys| - 1];
      assert xs + ys == (xs + init) + [last];
      assert (xs + ys)[..|xs + ys| - 1] == xs + init;
      AcceptedRecordsAppend(problem, accept, xs, init);
    }
  }

  /**
    No deduplication: a sample that is accepted gives as many records as it
    occurs in the batch, and a rejected one gives none.
   */
  lemma {:induction false} AcceptedRecordsCount(problem: string, accept: string -> bool, samples: seq<string>, s: string)
    ensures multiset(AcceptedRecords(problem, accept, samples))[Record(problem, s)] ==
      if accept(s) then multiset(samples)[s] else 0
    decreases |samples|
  {
    if |samples| > 0 {
      var init, last := samples[..|samples| - 1], samples[|samples| - 1];
      assert samples == init + [last];
      assert multiset(samples) == multiset(init) + multiset{last};
      AcceptedRecordsCount(problem, accept, init, s);
    }
  }

  /**
    A record is written for a sample exactly when the sample is accepted,
    and every record pairs the problem with a whole, unchanged sample.
   */
  lemma {:induction false} AcceptedRecordsMembers(problem: string, accept: string -> bool, samples: seq<string>)
    ensures forall r :: r in AcceptedRecords(problem, accept, samples) ==>
      r.problem == problem && r.reasoningPath in samples && accept(r.reasoningPath)
    ensures forall s :: s in samples && accept(s) ==> Record(problem, s) in AcceptedRecords(problem, accept, samples)
    decreases |samples|
  {
    if |samples| > 0 {
      var init, last := samples[..|samples| - 1], samples[|samples| - 1];
      assert samples == init + [last];
      AcceptedRecordsMembers(problem, accept, init);
    }
  }

  /** Every sample whose answer verifies has a record, and no other sample has one */
  ghost predicate RecordedExactlyVerified(problem: string, groundTruth: string, samples: seq<string>, records: seq<Record>) {
    forall s {:trigger Verify(Extract(s), groundTruth)} ::
      Record(problem, s) in records <==> s in samples && Verify(Extract(s), groundTruth)
  }

  /** Under `run`'s verdict, a sample has a record exactly when it is in the batch and its answer verifies */
  lemma RecordsAreVerifiedSamples(problem: string, groundTruth: string, samples: seq<string>)
    ensures forall s :: Record(problem, s) in AcceptedRecords(problem, Acceptance(groundTruth), samples) <==>
      s in samples && Verify(Extract(s), groundTruth)
  {
    AcceptedRecordsMembers(problem, Acceptance(groundTruth), samples);
  }

  /**
    The writing loop of `run`: every sample is checked on its own with
    `accept` (the verifier applied to the extracted answer), and the counter
    goes up exactly when a record is written.
   */
  method CollectAccepted(problem: string, accept: string -> bool, samples: seq<string>)
    returns (records: seq<Record>, correctPaths: nat)
    ensures records == AcceptedRecords(problem, accept, samples)
    ensures correctPaths == |records| <= |samples|
  {
    records, correctPaths := [], 0;
    var i := 0;
    while i < |samples|
      invariant 0 <= i <= |samples|
      invariant records == AcceptedRecords(problem, accept, samples[..i])
      invariant correctPaths == |records|
    {
      var response := samples[i];
      assert samples[..i + 1][..i] == samples[..i];
      if accept(response) {
        correctPaths := correctPaths + 1;
        records := records + [Record(problem, response)];
      }
      i := i + 1;
    }
    assert samples[..i] == samples;
  }

  /** What `run` produces for a problem it found, given the completions it received */
  function Outcome(p: Problem, samples: seq<string>): RunResult
  {
    var records := AcceptedRecords(p.statement, Acceptance(p.groundTruth), samples);
    Generated(records, |records|)
  }

  /** The records of a run are exactly the completions whose extracted answer verifies */
  lemma OutcomeRecordsVerified(p: Problem, samples: seq<string>)
    ensures RecordedExactlyVerified(p.statement, p.groundTruth, samples, Outcome(p, samples).records)
  {
    RecordsAreVerifiedSamples(p.statement, p.groundTruth, samples);
  }

  /**
    `DataGenerator.run(problem_id, n_samples)`. The completion source is a
    parameter: it maps a prompt and a sample count to the completions. The
    answer chosen by the vote is not used.
   */
  method Run(bank: seq<Problem>, problemId: string, nSamples: nat, source: (string, nat) -> seq<string>)
    returns (result: RunResult)
    ensures match GetProblem(bank, problemId)
      case None => result == ProblemNotFound
      case Some(p) => result == Outcome(p, source(ZeroShotCot(p.statement), nSamples))
  {
    var problemData := GetProblem(bank, problemId);
    if problemData.None? {
      return ProblemNotFound;
    }
    var problem := problemData.value.statement;
    var groundTruth := problemData.value.groundTruth;
    var cotPrompt := ZeroShotCot(problem);
    var (_, rawResponses) := Reason(source(cotPrompt, nSamples));
    var records, correctPaths := CollectAccepted(problem, Acceptance(groundTruth), rawResponses);
    return Generated(records, correctPaths);
  }

  /**
    Three completions, two answering 70 and one 65, checked against a
    ground truth of 70: the first two become records, in order.
   */
  lemma RunScenario(problem: string, s1: string, s2: string, s3: string)
    requires Extract(s1) == Some("70") && Extract(s2) == Some("70") && Extract(s3) == Some("65")
    ensures AcceptedRecords(problem, Acceptance("70"), [s1, s2, s3]) == [Record(problem, s1), Record(problem, s2)]
  {
    VerifySeventyExample("70", "65", "70");
    AcceptanceIs("70", s1, Some("70"));
    AcceptanceIs("70", s2, Some("70"));
    AcceptanceIs("70", s3, Some("65"));
    RecordsOfThree(problem, Acceptance("70"), s1, s2, s3);
  }

  /** A sample is judged by the verifier on its extracted answer */
  lemma AcceptanceIs(groundTruth: string, s: string, e: Option<string>)
    requires Extract(s) == e
    ensures Acceptance(groundTruth)(s) == Verify(e, groundTruth)
  {
  }

  lemma RecordsOfThree(problem: string, accept: string -> bool, s1: string, s2: string, s3: string)
    requires accept(s1) && accept(s2) && !accept(s3)
    ensures AcceptedRecords(problem, accept, [s1, s2, s3]) == [Record(problem, s1), Record(problem, s2)]
  {
    assert [s1][..0] == [];
    assert AcceptedRecords(problem, accept, [s1]) == [Record(problem, s1)];
    assert [s1, s2][..1] == [s1];
    assert AcceptedRecords(problem, accept, [s1, s2]) == [Record(problem, s1), Record(problem, s2)];
    assert [s1, s2, s3][..2] == [s1, s2];
  }

  /** An empty batch gives no records */
  lemma NoSamplesNoRecords(problem: string, accept: string -> bool)
    ensures AcceptedRecords(problem, accept, []) == []
  {
  }
}
