/**
 * The plugin evaluator: every generated question is answered from the
 * user's memories, scored against its ground-truth answer, and passes when
 * the similarity reaches 0.8; the session summary counts passes and
 * failures, the pass rate in percent, and asks for reconstruction when the
 * rate is below 70.
 *
 * The question generator, the store's search, the answering model and the
 * embedding similarity are oracles; the similarity is a real number.
 */
module MemoryEvaluator {
  import opened Text
  import opened Seqs
  import opened Records
  import opened LlmReply

  const SimilarityThreshold: real := 0.8
  const PassRateThreshold: real := 70.0
  const NoPairsError: string := "No valid QA pairs generated"
  const MissingInfo: string := "missing info"
  const ContentDeviation: string := "content deviation"
  const LineBreak: char := '\n'

  // ---------------------------------------------------------------------
  // Retrieval

  /** One item of a search result list; `content` is missing when the item has no such key. */
  datatype SearchItem = SearchItem(content: Option<string>)

  /** The lists a store's search returns; a missing key is an empty list. */
  datatype Retrieved = Retrieved(memories: seq<SearchItem>, episodic: seq<SearchItem>, semantic: seq<SearchItem>)

  function Contents(items: seq<SearchItem>): seq<string> {
    seq(|items|, i requires 0 <= i < |items| => items[i].content.GetOr([]))
  }

  /** The list whose contents go into the prompt: `memories`, or `episodic + semantic` when it is empty. */
  function ContextItems(r: Retrieved): seq<SearchItem> {
    if r.memories != [] then r.memories else r.episodic + r.semantic
  }

  /** The `memories` text of the answering prompt: the chosen contents, one per line. */
  function RetrievalContext(r: Retrieved): (ctx: string)
    ensures r.memories == [] && r.episodic == [] && r.semantic == [] ==> ctx == []
  {
    Join(Contents(ContextItems(r)), LineBreak)
  }

  /**
   * The context has one line per item of the chosen list, holding that
   * item's content (or "" when it has none), in order, provided no content
   * itself holds a line break.
   */
  lemma ContextLines(r: Retrieved)
    requires ContextItems(r) != []
    requires forall i :: 0 <= i < |ContextItems(r)| ==> LineBreak !in ContextItems(r)[i].content.GetOr([])
    ensures Split(RetrievalContext(r), LineBreak) == Contents(ContextItems(r))
    ensures r.memories != [] ==> |Split(RetrievalContext(r), LineBreak)| == |r.memories|
    ensures r.memories == [] ==> |Split(RetrievalContext(r), LineBreak)| == |r.episodic| + |r.semantic|
  {
    SplitJoin(Contents(ContextItems(r)), LineBreak);
  }

  /**
   * `retrieve_answer`: searches the user's memories for the question and
   * asks the model to answer from their contents. The answer is the reply's
   * content ("" when it has none); a failed search or a failed call gives "".
   */
  function RetrieveAnswer(userId: string, question: string,
                          search: (string, string) -> Option<Retrieved>,
                          answer: (string, string) -> Reply): (a: string)
    ensures search(userId, question).None? ==> a == []
    ensures (search(userId, question).Some? &&
             answer(RetrievalContext(search(userId, question).value), question).CallFailed?) ==> a == []
    ensures (search(userId, question).Some? &&
             answer(RetrievalContext(search(userId, question).value), question).Reply?) ==>
      a == answer(RetrievalContext(search(userId, question).value), question).content.GetOr([])
  {
    match search(userId, question)
    case None => []
    case Some(found) =>
      match answer(RetrievalContext(found), question)
      case CallFailed(_) => []
      case Reply(content) => content.GetOr([])
  }

  // ---------------------------------------------------------------------
  // Scoring and the session summary

  predicate Passes(rec: EvalRecord) {
    rec.isPass
  }

  predicate Fails(rec: EvalRecord) {
    !rec.isPass
  }

  /** The `result_item` of one question. */
  function RecordFor(qa: QaPair, userId: string,
                     search: (string, string) -> Option<Retrieved>,
                     answer: (string, string) -> Reply,
                     similarity: (string, string) -> real): EvalRecord
  {
    var retrieved := RetrieveAnswer(userId, qa.question, search, answer);
    var sim := similarity(qa.answer, retrieved);
    EvalRecord(qa.question, qa.answer, retrieved, sim, sim >= SimilarityThreshold)
  }

  /**
   * The records of a session: one per generated pair, in order, carrying
   * the pair's question and answer, the answer retrieved from the store for
   * the question, the similarity of the true answer to it, and passing
   * exactly when that similarity is at least 0.8.
   */
  function SessionRecords(pairs: seq<QaPair>, userId: string,
                          search: (string, string) -> Option<Retrieved>,
                          answer: (string, string) -> Reply,
                          similarity: (string, string) -> real): (records: seq<EvalRecord>)
    ensures |records| == |pairs|
    ensures forall i :: 0 <= i < |pairs| ==>
      && records[i].question == pairs[i].question
      && records[i].trueAnswer == pairs[i].answer
      && records[i].retrievedAnswer == RetrieveAnswer(userId, pairs[i].question, search, answer)
      && records[i].similarity == similarity(pairs[i].answer, records[i].retrievedAnswer)
      && (records[i].isPass <==> records[i].similarity >= SimilarityThreshold)
  {
    seq(|pairs|, i requires 0 <= i < |pairs| => RecordFor(pairs[i], userId, search, answer, similarity))
  }

  datatype Summary = Summary(qaPairsCount: nat, passed: nat, failed: nat, passRate: real, needReconstruct: bool)

  datatype ErrorAnalysis = ErrorAnalysis(errorCount: nat, errorTypes: seq<string>)

  /**
   * The evaluator's result dictionary: the error with an empty summary when
   * no pairs were generated, or the summary, the failing records and the
   * error analysis. The duration is not modelled.
   */
  datatype Evaluation =
    | NoPairs(error: string)
    | Evaluated(summary: Summary, failedQa: seq<EvalRecord>, errorAnalysis: ErrorAnalysis)

  /** `passed / total * 100`, or 0 without questions. */
  function PassRate(passed: nat, total: nat): real {
    if total == 0 then 0.0 else (passed as real) / (total as real) * 100.0
  }

  /** The result assembled from the records of all questions. */
  function Assess(records: seq<EvalRecord>): (e: Evaluation)
    ensures e.NoPairs? <==> records == []
  {
    if records == [] then NoPairs(NoPairsError)
    else
      var failedQa := Filter(records, Fails);
      var passed := |Filter(records, Passes)|;
      var rate := PassRate(passed, |records|);
      Evaluated(
        Summary(|records|, passed, |failedQa|, rate, rate < PassRateThreshold),
        failedQa,
        ErrorAnalysis(|failedQa|, if failedQa != [] then [MissingInfo, ContentDeviation] else []))
  }

  /** The flag returned next to the result: False when no pairs were generated. */
  function NeedsReconstruct(e: Evaluation): bool {
    e.Evaluated? && e.summary.needReconstruct
  }

  /** What `evaluate_session_memories` returns; without pairs nothing is retrieved or scored. */
  function SessionEvaluation(userId: string, dialogue: string,
                             generate: string -> seq<QaPair>,
                             search: (string, string) -> Option<Retrieved>,
                             answer: (string, string) -> Reply,
                             similarity: (string, string) -> real): (e: Evaluation)
    ensures generate(dialogue) == [] ==> e == NoPairs(NoPairsError) && !NeedsReconstruct(e)
    ensures generate(dialogue) != [] ==> e.Evaluated? && e.summary.qaPairsCount == |generate(dialogue)|
  {
    Assess(SessionRecords(generate(dialogue), userId, search, answer, similarity))
  }

  // ---------------------------------------------------------------------
  // Properties

  /**
   * Every question is counted once: `passed` counts the passing records,
   * passes and failures add up to the number of questions, and `failed_qa`
   * holds exactly the failing records, in question order and with their
   * multiplicity. The pass rate is `passed / total * 100`, and reconstruction
   * is asked for when it is below 70.
   */
  lemma AssessCounts(records: seq<EvalRecord>)
    requires records != []
    ensures var e := Assess(records);
      && e.Evaluated?
      && e.summary.qaPairsCount == |records|
      && e.summary.passed + e.summary.failed == |records|
      && e.summary.failed == |e.failedQa|
      && IsSubsequence(e.failedQa, records)
      && (forall k :: 0 <= k < |e.failedQa| ==> !e.failedQa[k].isPass)
      && (forall i :: 0 <= i < |records| && !records[i].isPass ==> records[i] in e.failedQa)
      && e.failedQa == Filter(records, Fails)
      && e.summary.passed == |Filter(records, Passes)|
      && e.summary.passRate == PassRate(e.summary.passed, |records|)
      && (e.summary.needReconstruct <==> e.summary.passRate < PassRateThreshold)
  {
    FilterComplementCount(records, Passes, Fails);
    FilterIsSubsequence(records, Fails);
    FilterSatisfies(records, Fails);
    FilterKeepsAll(records, Fails);
  }

  /** The pass rate is a percentage, and is 100 exactly when every question passed. */
  lemma PassRateBounds(passed: nat, total: nat)
    requires 0 < total && passed <= total
    ensures 0.0 <= PassRate(passed, total) <= 100.0
    ensures PassRate(passed, total) == 100.0 <==> passed == total
  {
    var p := passed as real;
    var t := total as real;
    assert PassRate(passed, total) == p / t * 100.0;
    assert p / t <= 1.0;
    if p / t * 100.0 == 100.0 {
      assert p / t == 1.0;
      assert p == t;
    }
  }

  lemma SignOfProduct(x: real, t: real)
    requires t > 0.0
    ensures x < 0.0 <==> x * t < 0.0
  {
    if x < 0.0 {
      assert x * t == -((-x) * t);
    }
  }

  /** `passed / total * 100 < 70` compares the counts without division. */
  lemma RateBelowThreshold(passed: nat, total: nat)
    requires total > 0
    ensures PassRate(passed, total) < PassRateThreshold <==> 10 * passed < 7 * total
  {
    var p := passed as real;
    var t := total as real;
    var q := p / t;
    assert PassRate(passed, total) == q * 100.0;
    assert q * t == p;
    assert 10.0 * p - 7.0 * t == (10.0 * q - 7.0) * t;
    SignOfProduct(10.0 * q - 7.0, t);
    assert PassRate(passed, total) < PassRateThreshold <==> 10.0 * q - 7.0 < 0.0;
    assert 10.0 * p - 7.0 * t == (10 * passed - 7 * total) as real;
  }

  /** Reconstruction is asked for exactly when fewer than 70% of the questions passed. */
  lemma NeedReconstructIff(records: seq<EvalRecord>)
    requires records != []
    ensures var e := Assess(records);
      e.Evaluated? &&
      (NeedsReconstruct(e) <==> 10 * e.summary.passed < 7 * e.summary.qaPairsCount)
  {
    RateBelowThreshold(|Filter(records, Passes)|, |records|);
  }

  /** Seven passes out of ten sit on the threshold and do not ask for reconstruction; six do. */
  lemma SevenOfTen(records: seq<EvalRecord>)
    requires |records| == 10
    ensures |Filter(records, Passes)| == 7 ==> !NeedsReconstruct(Assess(records))
    ensures |Filter(records, Passes)| == 6 ==> NeedsReconstruct(Assess(records))
  {
    NeedReconstructIff(records);
  }

  /**
   * The error analysis counts the failing records, and lists error types
   * exactly when some question failed, which is exactly when not all passed.
   */
  lemma ErrorAnalysisMatches(records: seq<EvalRecord>)
    requires records != []
    ensures var e := Assess(records);
      && e.Evaluated?
      && e.errorAnalysis.errorCount == |e.failedQa| == e.summary.failed
      && (e.errorAnalysis.errorTypes != [] <==> e.failedQa != [])
      && (e.failedQa != [] <==> e.summary.passed < e.summary.qaPairsCount)
  {
    FilterComplementCount(records, Passes, Fails);
  }

  // ---------------------------------------------------------------------
  // The loop

  /**
   * The question loop of `evaluate_session_memories`: answers and scores
   * each pair in order, counting the passes and collecting the failing
   * records.
   */
  method ScoreQuestions(pairs: seq<QaPair>, userId: string,
                        search: (string, string) -> Option<Retrieved>,
                        answer: (string, string) -> Reply,
                        similarity: (string, string) -> real)
    returns (passedCount: nat, failedQa: seq<EvalRecord>)
    ensures passedCount == |Filter(SessionRecords(pairs, userId, search, answer, similarity), Passes)|
    ensures failedQa == Filter(SessionRecords(pairs, userId, search, answer, similarity), Fails)
  {
    ghost var records := SessionRecords(pairs, userId, search, answer, similarity);
    passedCount := 0;
    failedQa := [];
    var i := 0;
    while i < |pairs|
      invariant 0 <= i <= |pairs|
      invariant passedCount == |Filter(records[..i], Passes)|
      invariant failedQa == Filter(records[..i], Fails)
    {
      var qa := pairs[i];
      var retrieved := RetrieveAnswer(userId, qa.question, search, answer);
      var sim := similarity(qa.answer, retrieved);
      var isPass := sim >= SimilarityThreshold;
      var item := EvalRecord(qa.question, qa.answer, retrieved, sim, isPass);
      assert item == records[i];
      FilterSnoc(records, i, Passes);
      FilterSnoc(records, i, Fails);
      if isPass {
        passedCount := passedCount + 1;
        assert failedQa == Filter(records[..i + 1], Fails);
      } else {
        failedQa := failedQa + [item];
        assert passedCount == |Filter(records[..i + 1], Passes)|;
      }
      i := i + 1;
    }
    assert records[..i] == records;
  }

  /**
   * `evaluate_session_memories`: generates the pairs, answers and scores
   * each one, counts passes, collects failures, and returns the result with
   * the reconstruction flag.
   */
  method EvaluateSessionMemories(userId: string, dialogue: string,
                                 generate: string -> seq<QaPair>,
                                 search: (string, string) -> Option<Retrieved>,
                                 answer: (string, string) -> Reply,
                                 similarity: (string, string) -> real)
    returns (result: Evaluation, needReconstruct: bool)
    ensures result == SessionEvaluation(userId, dialogue, generate, search, answer, similarity)
    ensures needReconstruct == NeedsReconstruct(result)
    ensures result.Evaluated? ==> needReconstruct == result.summary.needReconstruct
  {
    var pairs := generate(dialogue);
    if pairs == [] {
      return NoPairs(NoPairsError), false;
    }
    var passedCount, failedQa := ScoreQuestions(pairs, userId, search, answer, similarity);
    var rate := PassRate(passedCount, |pairs|);
    needReconstruct := rate < PassRateThreshold;
    var errorTypes := if failedQa != [] then [MissingInfo, ContentDeviation] else [];
    result := Evaluated(Summary(|pairs|, passedCount, |failedQa|, rate, needReconstruct), failedQa,
                        ErrorAnalysis(|failedQa|, errorTypes));
  }
}
