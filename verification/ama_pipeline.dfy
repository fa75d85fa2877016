/**
 * The session-level pipeline: every generated question is answered from the
 * session's memory entries and judged by a language model; the judgements
 * are analysed (passes, failures, failures per error type), summarized,
 * and, when more than two questions failed, an update strategy is requested
 * and reconstruction is signalled.
 *
 * The question generator, the answerer, the judge and the strategy
 * generator are oracles; a judgement is reduced to the keys the pipeline
 * reads.
 */
module AmaPipeline {
  import opened Text
  import opened Seqs
  import opened Records
  import MemoryEvaluator

  const UnknownErrorType: string := "unknown"
  const LineBreak: char := '\n'
  /** Reconstruction is signalled when more than this many questions failed. */
  const ReconstructAbove: nat := 2

  /**
   * A judge's evaluation: its `missing_summary`, its `is_pass` flag and the
   * `analysis.error_type`, either of the last two possibly missing.
   */
  datatype Judgement = Judgement(missingSummary: string, isPass: Option<bool>, errorType: Option<string>)

  /** Counted as passed: `e.get("is_pass", False)`. */
  predicate Passed(e: Judgement) {
    e.isPass.GetOr(false)
  }

  predicate NotPassed(e: Judgement) {
    !Passed(e)
  }

  /** Counted under an error type: `not e.get("is_pass", True)`, so only an explicit False. */
  predicate Flagged(e: Judgement) {
    !e.isPass.GetOr(true)
  }

  function ErrorTypeOf(e: Judgement): string {
    e.errorType.GetOr(UnknownErrorType)
  }

  function FlaggedAs(t: string): Judgement -> bool {
    (e: Judgement) => Flagged(e) && ErrorTypeOf(e) == t
  }

  // ---------------------------------------------------------------------
  // Error types: a dictionary from type to count, in insertion order

  datatype TypeCount = TypeCount(errorType: string, count: nat)

  /** `error_types[t] += 1` on a `defaultdict(int)`: a new key goes last with count 1. */
  function Bump(counts: seq<TypeCount>, t: string): seq<TypeCount>
    decreases |counts|
  {
    if counts == [] then [TypeCount(t, 1)]
    else if counts[0].errorType == t then [TypeCount(t, counts[0].count + 1)] + counts[1..]
    else [counts[0]] + Bump(counts[1..], t)
  }

  /** The count stored under `t`, 0 when it is absent. */
  function CountOf(counts: seq<TypeCount>, t: string): nat
    decreases |counts|
  {
    if counts == [] then 0
    else if counts[0].errorType == t then counts[0].count
    else CountOf(counts[1..], t)
  }

  /** The sum of all counts. */
  function Total(counts: seq<TypeCount>): nat
    decreases |counts|
  {
    if counts == [] then 0 else counts[0].count + Total(counts[1..])
  }

  function Types(counts: seq<TypeCount>): set<string>
    decreases |counts|
  {
    if counts == [] then {} else {counts[0].errorType} + Types(counts[1..])
  }

  /** Each type is a key once, with a positive count. */
  predicate WellFormed(counts: seq<TypeCount>)
    decreases |counts|
  {
    counts == [] ||
    (counts[0].count > 0 && counts[0].errorType !in Types(counts[1..]) && WellFormed(counts[1..]))
  }

  /** The error types of the failing evaluations, counted in the order they first appear. */
  function ErrorTypes(evals: seq<Judgement>): seq<TypeCount>
    decreases |evals|
  {
    if evals == [] then []
    else
      var prev := ErrorTypes(evals[..|evals| - 1]);
      var last := evals[|evals| - 1];
      if Flagged(last) then Bump(prev, ErrorTypeOf(last)) else prev
  }

  lemma {:induction false} BumpCount(counts: seq<TypeCount>, t: string, u: string)
    ensures CountOf(Bump(counts, t), u) == CountOf(counts, u) + (if u == t then 1 else 0)
    decreases |counts|
  {
    if counts != [] && counts[0].errorType != t {
      BumpCount(counts[1..], t, u);
      assert ([counts[0]] + Bump(counts[1..], t))[1..] == Bump(counts[1..], t);
    } else if counts != [] {
      assert ([TypeCount(t, counts[0].count + 1)] + counts[1..])[1..] == counts[1..];
    }
  }

  lemma {:induction false} BumpTotal(counts: seq<TypeCount>, t: string)
    ensures Total(Bump(counts, t)) == Total(counts) + 1
    decreases |counts|
  {
    if counts != [] && counts[0].errorType != t {
      BumpTotal(counts[1..], t);
      assert ([counts[0]] + Bump(counts[1..], t))[1..] == Bump(counts[1..], t);
    } else if counts != [] {
      assert ([TypeCount(t, counts[0].count + 1)] + counts[1..])[1..] == counts[1..];
    }
  }

  lemma {:induction false} BumpWellFormed(counts: seq<TypeCount>, t: string)
    requires WellFormed(counts)
    ensures Types(Bump(counts, t)) == Types(counts) + {t}
    ensures WellFormed(Bump(counts, t))
    decreases |counts|
  {
    if counts != [] && counts[0].errorType != t {
      BumpWellFormed(counts[1..], t);
      assert ([counts[0]] + Bump(counts[1..], t))[1..] == Bump(counts[1..], t);
    } else if counts != [] {
      assert ([TypeCount(t, counts[0].count + 1)] + counts[1..])[1..] == counts[1..];
    }
  }

  /** In a well-formed dictionary, a type is a key exactly when its count is positive. */
  lemma {:induction false} KeyIffCounted(counts: seq<TypeCount>, t: string)
    requires WellFormed(counts)
    ensures t in Types(counts) <==> CountOf(counts, t) > 0
    decreases |counts|
  {
    if counts != [] && counts[0].errorType != t {
      KeyIffCounted(counts[1..], t);
    }
  }

  /**
   * `error_types` has each type once, counts for every type exactly the
   * failing evaluations of that type, and its counts add up to the number of
   * failing evaluations that carry `is_pass`.
   */
  lemma {:induction false} ErrorTypesExactly(evals: seq<Judgement>)
    ensures WellFormed(ErrorTypes(evals))
    ensures Total(ErrorTypes(evals)) == |Filter(evals, Flagged)|
    ensures forall t :: CountOf(ErrorTypes(evals), t) == |Filter(evals, FlaggedAs(t))|
    ensures forall t :: t in Types(ErrorTypes(evals)) <==> |Filter(evals, FlaggedAs(t))| > 0
    decreases |evals|
  {
    if evals != [] {
      var init := evals[..|evals| - 1];
      var last := evals[|evals| - 1];
      var prev := ErrorTypes(init);
      ErrorTypesExactly(init);
      if Flagged(last) {
        BumpTotal(prev, ErrorTypeOf(last));
        BumpWellFormed(prev, ErrorTypeOf(last));
        forall t ensures CountOf(ErrorTypes(evals), t) == |Filter(evals, FlaggedAs(t))| {
          BumpCount(prev, ErrorTypeOf(last), t);
        }
      }
      forall t ensures t in Types(ErrorTypes(evals)) <==> |Filter(evals, FlaggedAs(t))| > 0 {
        KeyIffCounted(ErrorTypes(evals), t);
      }
    }
  }

  /**
   * Evaluations flagged with an error type are among the failures, and are
   * all of them when every evaluation carries `is_pass`.
   */
  lemma {:induction false} FlaggedAmongFailures(evals: seq<Judgement>)
    ensures |Filter(evals, Flagged)| + |Filter(evals, Passed)| <= |evals|
    ensures (forall i :: 0 <= i < |evals| ==> evals[i].isPass.Some?) ==>
      |Filter(evals, Flagged)| + |Filter(evals, Passed)| == |evals|
    decreases |evals|
  {
    if evals != [] {
      FlaggedAmongFailures(evals[..|evals| - 1]);
    }
  }

  // ---------------------------------------------------------------------
  // Analysis and summary

  /**
   * The `_analyze_session_errors` dictionary; `pass_rate` and `error_types`
   * are missing when there are no evaluations.
   */
  datatype ErrorReport = ErrorReport(
    total: nat,
    passed: nat,
    failed: nat,
    passRate: Option<real>,
    errorTypes: Option<seq<TypeCount>>)

  function AnalyzeSessionErrors(evals: seq<Judgement>): ErrorReport {
    if evals == [] then ErrorReport(0, 0, 0, None, None)
    else
      var passed := |Filter(evals, Passed)|;
      ErrorReport(|evals|, passed, |evals| - passed, Some(MemoryEvaluator.PassRate(passed, |evals|)), Some(ErrorTypes(evals)))
  }

  datatype SessionSummary = SessionSummary(qaPairsCount: nat, passed: nat, failed: nat, passRate: real, needsUpdate: bool)

  /** `_generate_session_summary`, reading the evaluations and the analysis. */
  function GenerateSessionSummary(evals: seq<Judgement>, report: ErrorReport): SessionSummary {
    SessionSummary(|evals|, report.passed, report.failed, report.passRate.GetOr(0.0), report.failed > 0)
  }

  /**
   * The analysis counts every evaluation once: passes and failures add up
   * to the total, which is the number of evaluations; all three are 0 and
   * the rate is missing when there are none.
   */
  lemma AnalysisCounts(evals: seq<Judgement>)
    ensures var report := AnalyzeSessionErrors(evals);
      && report.total == |evals|
      && report.passed + report.failed == report.total
      && report.failed == |Filter(evals, NotPassed)|
      && (evals == [] ==> report.passed == 0 && report.failed == 0 && report.passRate.None?)
      && (evals != [] ==> report.passRate == Some(MemoryEvaluator.PassRate(report.passed, report.total)))
  {
    FilterComplementCount(evals, Passed, NotPassed);
  }

  /**
   * The per-type counts add up to at most the number of failures, and to
   * exactly that number when every evaluation carries `is_pass`.
   */
  lemma ErrorTypesBound(evals: seq<Judgement>)
    requires evals != []
    ensures var report := AnalyzeSessionErrors(evals);
      && report.errorTypes.Some?
      && Total(report.errorTypes.value) <= report.failed
      && ((forall i :: 0 <= i < |evals| ==> evals[i].isPass.Some?) ==> Total(report.errorTypes.value) == report.failed)
  {
    ErrorTypesExactly(evals);
    FlaggedAmongFailures(evals);
  }

  /**
   * The summary counts the evaluations, and asks for an update exactly when
   * some evaluation did not pass.
   */
  lemma SummaryFacts(evals: seq<Judgement>)
    ensures var summary := GenerateSessionSummary(evals, AnalyzeSessionErrors(evals));
      && summary.qaPairsCount == |evals|
      && (summary.needsUpdate <==> exists i :: 0 <= i < |evals| && !Passed(evals[i]))
  {
    FilterComplementCount(evals, Passed, NotPassed);
    FilterEmpty(evals, NotPassed);
  }

  // ---------------------------------------------------------------------
  // The session loop

  /** What `generate_session_strategy` returns, reduced to its `improve_instructions`. */
  datatype Strategy = Strategy(improveInstructions: Option<string>)

  /** The `result` dictionary; `summary` is None while it is the empty dictionary. */
  datatype PipelineResult = PipelineResult(
    sessionIdx: int,
    qaPairs: seq<QaPair>,
    evaluations: seq<Judgement>,
    errorAnalysis: Option<ErrorReport>,
    updateStrategy: Option<Strategy>,
    summary: Option<SessionSummary>,
    improveInstructions: string)

  /** One judgement per question, in order, of the answer given from the entries. */
  function Evaluations<E>(pairs: seq<QaPair>, entries: seq<E>, sessionIdx: int,
                          answerFromMemory: (seq<E>, string) -> string,
                          judge: (string, string, string, int) -> Judgement): (evals: seq<Judgement>)
    ensures |evals| == |pairs|
    ensures forall i :: 0 <= i < |pairs| ==>
      evals[i] == judge(pairs[i].question, pairs[i].answer, answerFromMemory(entries, pairs[i].question), sessionIdx)
  {
    seq(|pairs|, i requires 0 <= i < |pairs| =>
      judge(pairs[i].question, pairs[i].answer, answerFromMemory(entries, pairs[i].question), sessionIdx))
  }

  /** `missing_summary`: a line break before each evaluation's missing summary, in order. */
  function MissingSummary(evals: seq<Judgement>): string
    decreases |evals|
  {
    if evals == [] then []
    else MissingSummary(evals[..|evals| - 1]) + [LineBreak] + evals[|evals| - 1].missingSummary
  }

  function Summaries(evals: seq<Judgement>): seq<string> {
    seq(|evals|, i requires 0 <= i < |evals| => evals[i].missingSummary)
  }

  /**
   * `missing_summary` is an empty line followed by one line per evaluation
   * holding its missing summary, provided none holds a line break itself.
   */
  lemma {:induction false} MissingSummaryLines(evals: seq<Judgement>)
    ensures MissingSummary(evals) == Join([[]] + Summaries(evals), LineBreak)
    ensures (forall i :: 0 <= i < |evals| ==> LineBreak !in evals[i].missingSummary) ==>
      Split(MissingSummary(evals), LineBreak) == [[]] + Summaries(evals)
    decreases |evals|
  {
    if evals != [] {
      var init := evals[..|evals| - 1];
      MissingSummaryLines(init);
      assert Summaries(evals) == Summaries(init) + [evals[|evals| - 1].missingSummary];
      assert [[]] + Summaries(evals) == ([[]] + Summaries(init)) + [evals[|evals| - 1].missingSummary];
      JoinSnoc([[]] + Summaries(init), evals[|evals| - 1].missingSummary, LineBreak);
    }
    if forall i :: 0 <= i < |evals| ==> LineBreak !in evals[i].missingSummary {
      SplitJoin([[]] + Summaries(evals), LineBreak);
    }
  }

  /**
   * `SessionMemoryQA.evaluate_session_memories`: without questions the
   * result is returned untouched with False and ""; otherwise each question
   * is answered and judged, the judgements are analysed and summarized, and
   * more than two failures request a strategy and signal reconstruction.
   */
  method EvaluateSessionMemories<E>(dialogue: string, entries: seq<E>, sessionIdx: int,
                                    generate: (string, int) -> seq<QaPair>,
                                    answerFromMemory: (seq<E>, string) -> string,
                                    judge: (string, string, string, int) -> Judgement,
                                    strategize: (seq<Judgement>, ErrorReport, int) -> Strategy)
    returns (result: PipelineResult, reconstruct: bool, missingSummary: string)
    ensures result.sessionIdx == sessionIdx && result.qaPairs == generate(dialogue, sessionIdx)
    ensures generate(dialogue, sessionIdx) == [] ==>
      result == PipelineResult(sessionIdx, [], [], None, None, None, []) && !reconstruct && missingSummary == []
    ensures generate(dialogue, sessionIdx) != [] ==>
      var evals := Evaluations(generate(dialogue, sessionIdx), entries, sessionIdx, answerFromMemory, judge);
      var report := AnalyzeSessionErrors(evals);
      && result.evaluations == evals
      && result.errorAnalysis == Some(report)
      && (reconstruct <==> report.failed > ReconstructAbove)
      && (result.updateStrategy.Some? <==> reconstruct)
      && (reconstruct ==> result.updateStrategy == Some(strategize(evals, report, sessionIdx)))
      && result.improveInstructions ==
           (if reconstruct then strategize(evals, report, sessionIdx).improveInstructions.GetOr([]) else [])
      && result.summary == Some(GenerateSessionSummary(evals, report))
      && (reconstruct ==> result.summary.value.needsUpdate)
      && missingSummary == MissingSummary(evals)
  {
    var pairs := generate(dialogue, sessionIdx);
    result := PipelineResult(sessionIdx, pairs, [], None, None, None, []);
    missingSummary := [];
    if pairs == [] {
      return result, false, missingSummary;
    }
    ghost var evals := Evaluations(pairs, entries, sessionIdx, answerFromMemory, judge);
    var i := 0;
    while i < |pairs|
      invariant 0 <= i <= |pairs|
      invariant result == PipelineResult(sessionIdx, pairs, evals[..i], None, None, None, [])
      invariant missingSummary == MissingSummary(evals[..i])
    {
      var qa := pairs[i];
      var memoryAnswer := answerFromMemory(entries, qa.question);
      var evaluation := judge(qa.question, qa.answer, memoryAnswer, sessionIdx);
      assert evaluation == evals[i];
      assert evals[..i + 1][..i] == evals[..i];
      assert evals[..i + 1] == evals[..i] + [evaluation];
      result := result.(evaluations := result.evaluations + [evaluation]);
      missingSummary := missingSummary + [LineBreak] + evaluation.missingSummary;
      i := i + 1;
    }
    assert evals[..i] == evals;
    var report := AnalyzeSessionErrors(result.evaluations);
    result := result.(errorAnalysis := Some(report));
    reconstruct := false;
    if report.failed > ReconstructAbove {
      var strategy := strategize(result.evaluations, report, sessionIdx);
      result := result.(updateStrategy := Some(strategy), improveInstructions := strategy.improveInstructions.GetOr([]));
      reconstruct := true;
    }
    result := result.(summary := Some(GenerateSessionSummary(result.evaluations, report)));
  }
}
