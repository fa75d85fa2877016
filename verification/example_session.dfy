/**
 * The session orchestrator of the example: build the memory from the
 * dialogue, evaluate it, and when the evaluator asks for it filter the
 * dialogue, reconstruct the memory and evaluate again; the result record is
 * filled in step by step, and any exception ends the run with its message.
 * Also the transcript built from a JSON list of turns.
 *
 * The store, the evaluator and the adapter are passed as the outcomes of
 * their calls; an evaluation is indexed by the round (0 before, 1 after
 * reconstruction), since the store changes in between.
 */
module ExampleSession {
  import opened Text
  import opened Records
  import opened SimpleMemory
  import opened MemoryEvaluator

  /** `str(KeyError("pass_rate"))`: the message of indexing the empty summary. */
  const MissingPassRate: string := "'pass_rate'"
  const PathSeparator: string := "/"
  const NameSeparator: string := "_"
  const ReconstructedSuffix: string := "_reconstructed_memory.json"
  const OriginalSuffix: string := "_original_memory.json"
  const RoleSeparator: string := ": "
  const DefaultRole: string := "user"
  const LineBreak: char := '\n'
  const InitialRound: nat := 0
  const AfterReconstruction: nat := 1

  /** A call that may raise: its value, or the message of the exception. */
  datatype Outcome<T> = Ok(value: T) | Raised(message: string)

  /** The evaluator's pair: the result dictionary and the reconstruction flag. */
  datatype EvalReturn = EvalReturn(evaluation: Evaluation, needReconstruct: bool)

  /** The `after_reconstruct` record. */
  datatype Counts = Counts(passRate: real, qaCount: nat, passed: nat, failed: nat)

  /** The `result` dictionary; a key not yet set is None. */
  datatype SessionResult = SessionResult(
    sessionId: string,
    userId: string,
    success: bool,
    passRate: real,
    reconstructed: bool,
    memoryFile: Option<string>,
    qaCount: Option<nat>,
    passed: Option<nat>,
    failed: Option<nat>,
    initialPassRate: Option<real>,
    afterReconstruct: Option<Counts>,
    error: Option<string>)

  /** The record before any step: not successful, rate 0, not reconstructed, no file. */
  function Initial(sessionId: string, userId: string): SessionResult {
    SessionResult(sessionId, userId, false, 0.0, false, None, None, None, None, None, None, None)
  }

  function CountsOf(s: Summary): Counts {
    Counts(s.passRate, s.qaPairsCount, s.passed, s.failed)
  }

  /** `output_dir / f"{user_id}_{session_id}<suffix>"`: a file in the output directory ending in the suffix. */
  function MemoryFile(outputDir: string, userId: string, sessionId: string, suffix: string): (path: string)
    ensures outputDir + PathSeparator <= path
    ensures |path| >= |suffix| && path[|path| - |suffix|..] == suffix
  {
    var path := outputDir + PathSeparator + userId + NameSeparator + sessionId + suffix;
    assert path[|path| - |suffix|..] == suffix;
    assert path[..|outputDir + PathSeparator|] == outputDir + PathSeparator;
    path
  }

  /**
   * `process_session`. The build status is only reported, so it never stops
   * the run; a missing pass rate (no questions were generated) raises
   * `KeyError`, which, like every other exception, leaves `success` False
   * and records the message.
   */
  method ProcessSession(userId: string, sessionId: string, dialogue: string, outputDir: string,
                        build: Outcome<BuildResult>,
                        evaluate: (string, nat) -> Outcome<EvalReturn>,
                        update: (string, seq<EvalRecord>, seq<string>) -> Outcome<string>,
                        reconstruct: (string, seq<EvalRecord>) -> Outcome<bool>,
                        save: string -> Option<string>)
    returns (result: SessionResult)
    ensures result.sessionId == sessionId && result.userId == userId
    ensures result.success <==> result.error.None?
    ensures build.Raised? ==> result == Initial(sessionId, userId).(error := Some(build.message))
    ensures build.Ok? && evaluate(dialogue, InitialRound).Raised? ==>
      result == Initial(sessionId, userId).(error := Some(evaluate(dialogue, InitialRound).message))
    ensures build.Ok? && evaluate(dialogue, InitialRound).Ok? && evaluate(dialogue, InitialRound).value.evaluation.NoPairs? ==>
      result == Initial(sessionId, userId).(error := Some(MissingPassRate))
    ensures build.Ok? && evaluate(dialogue, InitialRound).Ok? && evaluate(dialogue, InitialRound).value.evaluation.Evaluated? ==>
      var first := evaluate(dialogue, InitialRound).value;
      var s := first.evaluation.summary;
      var failedQa := first.evaluation.failedQa;
      var filtered := update(dialogue, failedQa, first.evaluation.errorAnalysis.errorTypes);
      && result.passRate == s.passRate
      && result.initialPassRate == Some(s.passRate)
      && result.qaCount == Some(s.qaPairsCount)
      && result.passed == Some(s.passed)
      && result.failed == Some(s.failed)
      && (result.reconstructed <==>
            first.needReconstruct && filtered.Ok? && reconstruct(filtered.value, failedQa) == Ok(true))
      && (!first.needReconstruct ==>
            var file := MemoryFile(outputDir, userId, sessionId, OriginalSuffix);
            && result.afterReconstruct.None?
            && (save(file).None? ==> result.success && result.memoryFile == Some(file))
            && (save(file).Some? ==> result.memoryFile.None? && result.error == save(file)))
      && (first.needReconstruct && filtered.Raised? ==> result.error == Some(filtered.message))
      && (first.needReconstruct && filtered.Ok? && reconstruct(filtered.value, failedQa).Raised? ==>
            result.error == Some(reconstruct(filtered.value, failedQa).message))
      && (first.needReconstruct && !result.reconstructed ==>
            && result.memoryFile.None?
            && result.afterReconstruct.None?
            && (result.success <==> filtered.Ok? && reconstruct(filtered.value, failedQa).Ok?))
      && (result.reconstructed ==>
            var file := MemoryFile(outputDir, userId, sessionId, ReconstructedSuffix);
            var second := evaluate(dialogue, AfterReconstruction);
            && (save(file).Some? ==>
                  result.memoryFile.None? && result.afterReconstruct.None? && result.error == save(file))
            && (save(file).None? ==>
                  && result.memoryFile == Some(file)
                  && (second.Raised? ==> result.afterReconstruct.None? && result.error == Some(second.message))
                  && (second.Ok? && second.value.evaluation.NoPairs? ==>
                        result.afterReconstruct.None? && result.error == Some(MissingPassRate))
                  && (second.Ok? && second.value.evaluation.Evaluated? ==>
                        result.success && result.afterReconstruct == Some(CountsOf(second.value.evaluation.summary)))))
  {
    result := Initial(sessionId, userId);
    if build.Raised? {
      result := result.(error := Some(build.message));
      return;
    }
    var firstCall := evaluate(dialogue, InitialRound);
    if firstCall.Raised? {
      result := result.(error := Some(firstCall.message));
      return;
    }
    var first := firstCall.value;
    if first.evaluation.NoPairs? {
      result := result.(error := Some(MissingPassRate));
      return;
    }
    var s := first.evaluation.summary;
    result := result.(passRate := s.passRate, qaCount := Some(s.qaPairsCount), passed := Some(s.passed), failed := Some(s.failed));
    result := result.(initialPassRate := Some(result.passRate));
    if first.needReconstruct {
      var failedQa := first.evaluation.failedQa;
      var failedReasons := first.evaluation.errorAnalysis.errorTypes;
      var filtered := update(dialogue, failedQa, failedReasons);
      if filtered.Raised? {
        result := result.(error := Some(filtered.message));
        return;
      }
      var rebuilt := reconstruct(filtered.value, failedQa);
      if rebuilt.Raised? {
        result := result.(error := Some(rebuilt.message));
        return;
      }
      result := result.(reconstructed := rebuilt.value);
      if rebuilt.value {
        var file := MemoryFile(outputDir, userId, sessionId, ReconstructedSuffix);
        var saveError := save(file);
        if saveError.Some? {
          result := result.(error := saveError);
          return;
        }
        result := result.(memoryFile := Some(file));
        var secondCall := evaluate(dialogue, AfterReconstruction);
        if secondCall.Raised? {
          result := result.(error := Some(secondCall.message));
          return;
        }
        if secondCall.value.evaluation.NoPairs? {
          result := result.(error := Some(MissingPassRate));
          return;
        }
        result := result.(afterReconstruct := Some(CountsOf(secondCall.value.evaluation.summary)));
      }
    } else {
      var file := MemoryFile(outputDir, userId, sessionId, OriginalSuffix);
      var saveError := save(file);
      if saveError.Some? {
        result := result.(error := saveError);
        return;
      }
      result := result.(memoryFile := Some(file));
    }
    result := result.(success := true);
  }

  // ---------------------------------------------------------------------
  // The transcript of a list of turns

  /** One element of a JSON list of turns; every key may be missing. */
  datatype Turn = Turn(role: Option<string>, speaker: Option<string>, content: Option<string>, text: Option<string>)

  /** `role`, else `speaker`, else "user". */
  function Speaker(t: Turn): string {
    t.role.GetOr(t.speaker.GetOr(DefaultRole))
  }

  /** `content`, else `text`, else "". */
  function Said(t: Turn): string {
    t.content.GetOr(t.text.GetOr([]))
  }

  function TurnLine(t: Turn): string {
    Speaker(t) + RoleSeparator + Said(t)
  }

  function TurnLines(turns: seq<Turn>): seq<string> {
    seq(|turns|, i requires 0 <= i < |turns| => TurnLine(turns[i]))
  }

  /** The session dialogue built from a list of turns: one `speaker: text` line per turn. */
  function Transcript(turns: seq<Turn>): (dialogue: string)
    ensures turns == [] ==> dialogue == []
  {
    Join(TurnLines(turns), LineBreak)
  }

  /**
   * When no speaker or text holds a line break, the transcript has exactly
   * one line per turn, in order, each starting with the turn's speaker and
   * `": "` and ending with what was said.
   */
  lemma TranscriptLines(turns: seq<Turn>)
    requires turns != []
    requires forall i :: 0 <= i < |turns| ==> LineBreak !in Speaker(turns[i]) && LineBreak !in Said(turns[i])
    ensures |Split(Transcript(turns), LineBreak)| == |turns|
    ensures forall i :: 0 <= i < |turns| ==>
      && Speaker(turns[i]) + RoleSeparator <= Split(Transcript(turns), LineBreak)[i]
      && Split(Transcript(turns), LineBreak)[i] == Speaker(turns[i]) + RoleSeparator + Said(turns[i])
  {
    assert LineBreak !in RoleSeparator;
    forall i | 0 <= i < |turns| ensures LineBreak !in TurnLines(turns)[i] {
      assert TurnLines(turns)[i] == Speaker(turns[i]) + RoleSeparator + Said(turns[i]);
    }
    SplitJoin(TurnLines(turns), LineBreak);
  }
}
