/**
 * The adapter that repairs a session's memory after a failed evaluation:
 * `update` narrows the session dialogue to the lines that mention keywords
 * of the failed questions and answers, and `reconstruct` rebuilds the store
 * from that text plus a block of corrections, then injects the corrections
 * as entries of their own.
 */
module SimpleAdapter {
  import opened Text
  import opened Seqs
  import opened Records
  import opened LlmReply
  import opened SimpleMemory

  const StopWords: set<string> := {
    "how", "what", "when", "where", "why", "who", "which", "is", "are", "was", "were",
    "in", "on", "at", "for", "with", "to", "and", "or", "but", "the", "a", "an"
  }
  const MinKeywordLength: nat := 3
  const NewLine: char := '\n'

  // ---------------------------------------------------------------------
  // Keywords

  /** A token is kept as a keyword when it has at least three characters and is not a stop word. */
  predicate IsKeyword(w: string) {
    |w| >= MinKeywordLength && w !in StopWords
  }

  /** The keywords among a list of tokens, gathered as the token loop adds them. */
  function KeywordsOf(words: seq<string>): set<string>
    decreases |words|
  {
    if words == [] then {}
    else KeywordsOf(words[..|words| - 1]) + (if IsKeyword(words[|words| - 1]) then {words[|words| - 1]} else {})
  }

  /** The keywords of one text: its lowercased word tokens that pass `IsKeyword`. */
  function TextKeywords(text: string): set<string> {
    KeywordsOf(Words(Lower(text)))
  }

  /** The keywords one failed pair contributes, from its stripped answer and question. */
  function PairKeywords(qa: EvalRecord): set<string> {
    TextKeywords(Strip(qa.trueAnswer)) + TextKeywords(Strip(qa.question))
  }

  /** `key_keywords` after the loop over the failed pairs. */
  function Keywords(failedQa: seq<EvalRecord>): set<string>
    decreases |failedQa|
  {
    if failedQa == [] then {}
    else Keywords(failedQa[..|failedQa| - 1]) + PairKeywords(failedQa[|failedQa| - 1])
  }

  /** A token list yields exactly its tokens that pass `IsKeyword`. */
  lemma {:induction false} KeywordsOfExactly(words: seq<string>, w: string)
    ensures w in KeywordsOf(words) <==> w in words && IsKeyword(w)
    decreases |words|
  {
    if words != [] {
      var init := words[..|words| - 1];
      KeywordsOfExactly(init, w);
      assert words == init + [words[|words| - 1]];
    }
  }

  /** `w` is a word token of the pair's stripped answer or of its stripped question. */
  predicate InPair(qa: EvalRecord, w: string) {
    w in Words(Lower(Strip(qa.trueAnswer))) || w in Words(Lower(Strip(qa.question)))
  }

  lemma PairKeywordsExactly(qa: EvalRecord, w: string)
    ensures w in PairKeywords(qa) <==> IsKeyword(w) && InPair(qa, w)
  {
    KeywordsOfExactly(Words(Lower(Strip(qa.trueAnswer))), w);
    KeywordsOfExactly(Words(Lower(Strip(qa.question))), w);
  }

  /**
   * The keyword set is exactly the lowercase word tokens of some failed
   * pair's stripped answer or question that are at least three characters
   * long and not stop words.
   */
  lemma {:induction false} KeywordsExactly(failedQa: seq<EvalRecord>, w: string)
    ensures w in Keywords(failedQa) <==> IsKeyword(w) && exists i :: 0 <= i < |failedQa| && InPair(failedQa[i], w)
    decreases |failedQa|
  {
    if failedQa != [] {
      var n := |failedQa| - 1;
      var init := failedQa[..n];
      KeywordsExactly(init, w);
      PairKeywordsExactly(failedQa[n], w);
      if w in Keywords(init) {
        var i :| 0 <= i < |init| && InPair(init[i], w);
        assert failedQa[i] == init[i];
      }
      if IsKeyword(w) && exists i :: 0 <= i < |failedQa| && InPair(failedQa[i], w) {
        var i :| 0 <= i < |failedQa| && InPair(failedQa[i], w);
        if i < n {
          assert init[i] == failedQa[i];
        }
      }
    }
  }

  /** Every keyword is long enough and not a stop word. */
  lemma KeywordsAreKeywords(failedQa: seq<EvalRecord>, w: string)
    requires w in Keywords(failedQa)
    ensures IsKeyword(w)
  {
    KeywordsExactly(failedQa, w);
  }

  // ---------------------------------------------------------------------
  // The filter

  /** `any(kw in line.lower() for kw in key_keywords)`. */
  predicate LineMatches(keywords: set<string>, line: string) {
    exists kw :: kw in keywords && Contains(Lower(line), kw)
  }

  function LineMatcher(keywords: set<string>): string -> bool {
    (line: string) => LineMatches(keywords, line)
  }

  /** `max(1, len(lines) // 3)`: how many leading lines the fallback keeps. */
  function FallbackCount(n: nat): (k: nat)
    ensures k >= 1
    ensures n >= 1 ==> k <= n
  {
    if n / 3 < 1 then 1 else n / 3
  }

  /** Whether `update` narrows the dialogue at all. */
  predicate Narrows(failedQa: seq<EvalRecord>) {
    failedQa != [] && Keywords(failedQa) != {}
  }

  /**
   * The dialogue `update` returns: unchanged when there are no failed pairs
   * or no keywords; otherwise the lines that mention a keyword, or, when no
   * line does, the first third of the lines (at least one).
   */
  function FilterDialogue(failedQa: seq<EvalRecord>, dialogue: string): (r: string)
    ensures failedQa == [] || Keywords(failedQa) == {} ==> r == dialogue
  {
    var keywords := Keywords(failedQa);
    if failedQa == [] || keywords == {} then dialogue
    else
      var lines := Split(dialogue, NewLine);
      var kept := Filter(lines, LineMatcher(keywords));
      if kept != [] then Join(kept, NewLine)
      else Join(lines[..FallbackCount(|lines|)], NewLine)
  }


  lemma LinesHaveNoNewLine(lines: seq<string>, dialogue: string)
    requires IsSubsequence(lines, Split(dialogue, NewLine))
    ensures NoSep(lines, NewLine)
  {
    SplitPartsHaveNoSep(dialogue, NewLine);
    SubsequenceMembers(lines, Split(dialogue, NewLine));
  }

  /**
   * When some line mentions a keyword, the output's lines are exactly the
   * input lines that mention one, in their original order.
   */
  lemma MatchedLines(failedQa: seq<EvalRecord>, dialogue: string)
    requires Narrows(failedQa)
    requires Filter(Split(dialogue, NewLine), LineMatcher(Keywords(failedQa))) != []
    ensures var lines := Split(dialogue, NewLine);
      && Split(FilterDialogue(failedQa, dialogue), NewLine) == Filter(lines, LineMatcher(Keywords(failedQa)))
      && IsSubsequence(Split(FilterDialogue(failedQa, dialogue), NewLine), lines)
      && (forall l :: l in Split(FilterDialogue(failedQa, dialogue), NewLine) ==> LineMatches(Keywords(failedQa), l))
      && (forall i :: 0 <= i < |lines| && LineMatches(Keywords(failedQa), lines[i]) ==>
            lines[i] in Split(FilterDialogue(failedQa, dialogue), NewLine))
  {
    var lines := Split(dialogue, NewLine);
    var p := LineMatcher(Keywords(failedQa));
    var kept := Filter(lines, p);
    FilterIsSubsequence(lines, p);
    LinesHaveNoNewLine(kept, dialogue);
    SplitJoin(kept, NewLine);
    FilterSatisfies(lines, p);
    FilterKeepsAll(lines, p);
    forall l | l in kept ensures LineMatches(Keywords(failedQa), l) {
      var j :| 0 <= j < |kept| && kept[j] == l;
      assert p(kept[j]);
    }
    forall i | 0 <= i < |lines| && LineMatches(Keywords(failedQa), lines[i]) ensures lines[i] in kept {
      assert p(lines[i]);
    }
  }

  /**
   * When no line mentions a keyword, the output is the first
   * `max(1, len(lines) // 3)` lines: at least one line, a prefix of the
   * input's lines and a prefix of the input text.
   */
  lemma FallbackLines(failedQa: seq<EvalRecord>, dialogue: string)
    requires Narrows(failedQa)
    requires Filter(Split(dialogue, NewLine), LineMatcher(Keywords(failedQa))) == []
    ensures var lines := Split(dialogue, NewLine);
      && Split(FilterDialogue(failedQa, dialogue), NewLine) == lines[..FallbackCount(|lines|)]
      && |Split(FilterDialogue(failedQa, dialogue), NewLine)| >= 1
      && FilterDialogue(failedQa, dialogue) <= dialogue
  {
    var lines := Split(dialogue, NewLine);
    var k := FallbackCount(|lines|);
    SplitPartsHaveNoSep(dialogue, NewLine);
    assert NoSep(lines[..k], NewLine) by {
      forall i | 0 <= i < k ensures NewLine !in lines[..k][i] {
        assert lines[..k][i] == lines[i];
      }
    }
    SplitJoin(lines[..k], NewLine);
    JoinTakeIsPrefix(lines, k, NewLine);
    JoinSplit(dialogue, NewLine);
  }

  /** Whatever `update` does, the output's lines are a subsequence of the input's. */
  lemma {:induction false} OutputIsSubsequence(failedQa: seq<EvalRecord>, dialogue: string)
    ensures IsSubsequence(Split(FilterDialogue(failedQa, dialogue), NewLine), Split(dialogue, NewLine))
  {
    var lines := Split(dialogue, NewLine);
    if !Narrows(failedQa) {
      SubsequenceReflexive(lines);
    } else if Filter(lines, LineMatcher(Keywords(failedQa))) != [] {
      MatchedLines(failedQa, dialogue);
    } else {
      FallbackLines(failedQa, dialogue);
      SubsequenceReflexive(lines);
      SubsequencePrefix(lines, lines, lines[..FallbackCount(|lines|)]);
    }
  }

  lemma {:induction false} SubsequenceReflexive<T>(s: seq<T>)
    ensures IsSubsequence(s, s)
    decreases |s|
  {
    if s != [] {
      SubsequenceReflexive(s[..|s| - 1]);
    }
  }

  /**
   * Filtering the output again with the same failed pairs never yields more
   * lines: it changes nothing when lines matched, and otherwise keeps a
   * prefix of the previous output's lines.
   */
  lemma RefilterNeverGrows(failedQa: seq<EvalRecord>, dialogue: string)
    ensures var once := FilterDialogue(failedQa, dialogue);
      var twice := FilterDialogue(failedQa, once);
      && |Split(twice, NewLine)| <= |Split(once, NewLine)|
      && Split(twice, NewLine) <= Split(once, NewLine)
      && (Filter(Split(dialogue, NewLine), LineMatcher(Keywords(failedQa))) != [] ==> twice == once)
  {
    var once := FilterDialogue(failedQa, dialogue);
    if Narrows(failedQa) {
      var p := LineMatcher(Keywords(failedQa));
      var lines := Split(dialogue, NewLine);
      if Filter(lines, p) != [] {
        MatchedLines(failedQa, dialogue);
        var kept := Split(once, NewLine);
        assert forall i :: 0 <= i < |kept| ==> p(kept[i]);
        FilterAllPass(kept, p);
      } else {
        FallbackLines(failedQa, dialogue);
        var k := FallbackCount(|lines|);
        var again := Split(once, NewLine);
        assert again == lines[..k];
        forall i | 0 <= i < |again| ensures !p(again[i]) {
          assert again[i] == lines[i];
          FilterKeepsAll(lines, p);
        }
        FilterEmpty(again, p);
        FallbackLines(failedQa, once);
      }
    }
  }

  lemma JoinStartsWithFirst(parts: seq<string>, sep: char)
    requires |parts| >= 1
    ensures parts[0] <= Join(parts, sep)
  {
  }

  lemma JoinOfSeveralIsNotEmpty(parts: seq<string>, sep: char)
    requires |parts| >= 2
    ensures Join(parts, sep) != []
  {
  }

  /**
   * The output is empty only when the input's first line is empty: a line
   * that mentions a keyword has at least three characters, so an empty
   * result can only come from a fallback that keeps a single empty line.
   */
  lemma EmptyOnlyFromEmptyFirstLine(failedQa: seq<EvalRecord>, dialogue: string)
    ensures FilterDialogue(failedQa, dialogue) == [] ==> Split(dialogue, NewLine)[0] == []
  {
    var lines := Split(dialogue, NewLine);
    if Narrows(failedQa) && FilterDialogue(failedQa, dialogue) == [] {
      var keywords := Keywords(failedQa);
      var p := LineMatcher(keywords);
      var kept := Filter(lines, p);
      if kept != [] {
        FilterSatisfies(lines, p);
        assert p(kept[0]);
        var kw :| kw in keywords && Contains(Lower(kept[0]), kw);
        KeywordsAreKeywords(failedQa, kw);
        ContainsNeedsRoom(Lower(kept[0]), kw);
        JoinStartsWithFirst(kept, NewLine);
        assert false;
      } else {
        var k := FallbackCount(|lines|);
        if k >= 2 {
          JoinOfSeveralIsNotEmpty(lines[..k], NewLine);
          assert false;
        }
      }
    } else if FilterDialogue(failedQa, dialogue) == [] {
      assert dialogue == [];
    }
  }

  lemma ZzzIsAKeyword()
    ensures TextKeywords(Strip("zzz")) == {"zzz"}
  {
    assert Strip("zzz") == "zzz";
    assert Lower("zzz") == "zzz";
    assert RunLength("zzz", IsWordChar) == 3;
    assert "zzz"[..3] == "zzz" && "zzz"[3..] == [];
    assert Runs([], IsWordChar) == [];
    assert Words("zzz") == ["zzz"];
    assert "zzz" !in StopWords;
    assert ["zzz"][..0] == [];
  }

  lemma EmptyHasNoKeyword()
    ensures TextKeywords(Strip("")) == {}
  {
    assert Words(Lower("")) == [];
  }

  /**
   * A non-empty dialogue can come back empty: `"\nab"` filtered with a
   * failed pair whose answer is "zzz" matches no line and keeps only its
   * first line, which is empty.
   */
  lemma EmptyFromNonEmptyDialogue()
    ensures FilterDialogue([EvalRecord("", "zzz", "", 0.0, false)], "\nab") == []
  {
    var qas := [EvalRecord("", "zzz", "", 0.0, false)];
    ZzzIsAKeyword();
    EmptyHasNoKeyword();
    assert qas[..0] == [];
    assert Keywords(qas) == {"zzz"};
    var lines := ["", "ab"];
    assert Join(lines, NewLine) == "\nab";
    SplitJoin(lines, NewLine);
    var p := LineMatcher({"zzz"});
    forall i | 0 <= i < |lines| ensures !p(lines[i]) {
      if Contains(Lower(lines[i]), "zzz") {
        ContainsNeedsRoom(Lower(lines[i]), "zzz");
      }
    }
    FilterEmpty(lines, p);
  }

  // ---------------------------------------------------------------------
  // The update loop

  /** The token loop for one text: adds the text's keywords to `keywords`; an empty text adds none. */
  method AddTextKeywords(keywords: set<string>, text: string) returns (r: set<string>)
    ensures r == keywords + TextKeywords(text)
  {
    r := keywords;
    var words := Words(Lower(text));
    if text == [] {
      assert words == [];
      return;
    }
    var i := 0;
    while i < |words|
      invariant 0 <= i <= |words|
      invariant r == keywords + KeywordsOf(words[..i])
    {
      assert words[..i + 1][..i] == words[..i];
      if |words[i]| >= MinKeywordLength && words[i] !in StopWords {
        r := r + {words[i]};
      }
      i := i + 1;
    }
    assert words[..i] == words;
  }

  /** The loop over the failed pairs that builds `key_keywords`. */
  method CollectKeywords(failedQa: seq<EvalRecord>) returns (keywords: set<string>)
    ensures keywords == Keywords(failedQa)
  {
    keywords := {};
    var i := 0;
    while i < |failedQa|
      invariant 0 <= i <= |failedQa|
      invariant keywords == Keywords(failedQa[..i])
    {
      assert failedQa[..i + 1][..i] == failedQa[..i];
      var trueAnswer := Strip(failedQa[i].trueAnswer);
      var question := Strip(failedQa[i].question);
      keywords := AddTextKeywords(keywords, trueAnswer);
      keywords := AddTextKeywords(keywords, question);
      i := i + 1;
    }
    assert failedQa[..i] == failedQa;
  }

  /** The loop that keeps the lines mentioning a keyword, in order. */
  method KeepMatchingLines(lines: seq<string>, keywords: set<string>) returns (kept: seq<string>)
    ensures kept == Filter(lines, LineMatcher(keywords))
  {
    kept := [];
    var i := 0;
    while i < |lines|
      invariant 0 <= i <= |lines|
      invariant kept == Filter(lines[..i], LineMatcher(keywords))
    {
      assert lines[..i + 1][..i] == lines[..i];
      var lineLower := Lower(lines[i]);
      if exists kw :: kw in keywords && Contains(lineLower, kw) {
        kept := kept + [lines[i]];
      }
      i := i + 1;
    }
    assert lines[..i] == lines;
  }

  /**
   * `update`: the failure-driven dialogue filter. (The store, the user and
   * `failed_reasons` are not read by it; `None` for the failed pairs is the
   * empty list.)
   */
  method Update(dialogue: string, failedQa: seq<EvalRecord>) returns (r: string)
    ensures r == FilterDialogue(failedQa, dialogue)
  {
    if failedQa == [] {
      return dialogue;
    }
    var keywords := CollectKeywords(failedQa);
    if keywords == {} {
      return dialogue;
    }
    var lines := Split(dialogue, NewLine);
    var kept := KeepMatchingLines(lines, keywords);
    r := if kept != [] then Join(kept, NewLine) else dialogue;
    if kept == [] {
      r := Join(lines[..FallbackCount(|lines|)], NewLine);
    }
  }

  // ---------------------------------------------------------------------
  // Reconstruction

  const CorrectionsTitle: string := "Corrections:"
  const CorrectionsHeader: string := "\n\nCorrections:\n"
  const QuestionTag: string := "Q: "
  const AnswerTag: string := " A: "

  /** One line of the corrections block; question and answer are not stripped here. */
  function CorrectionLine(qa: EvalRecord): string {
    QuestionTag + qa.question + AnswerTag + qa.trueAnswer
  }

  function CorrectionLines(failedQa: seq<EvalRecord>): (r: seq<string>)
    ensures |r| == |failedQa|
    ensures forall i :: 0 <= i < |failedQa| ==> r[i] == CorrectionLine(failedQa[i])
  {
    seq(|failedQa|, i requires 0 <= i < |failedQa| => CorrectionLine(failedQa[i]))
  }

  /**
   * The text `reconstruct` hands to `build_memory`: the filtered dialogue,
   * followed, when there are failed pairs, by the corrections block with
   * one `Q: ... A: ...` line per pair in order.
   */
  function ReconstructionText(filtered: string, failedQa: seq<EvalRecord>): string {
    if failedQa == [] then filtered
    else filtered + CorrectionsHeader + Join(CorrectionLines(failedQa), NewLine)
  }

  /**
   * The reconstruction text starts with the filtered dialogue, is exactly
   * it when there are no failed pairs, and otherwise continues with the
   * corrections header and the pairs' lines.
   */
  lemma ReconstructionTextShape(filtered: string, failedQa: seq<EvalRecord>)
    ensures var r := ReconstructionText(filtered, failedQa);
      && filtered <= r
      && (r == filtered <==> failedQa == [])
      && (failedQa != [] ==> r[|filtered|..] == CorrectionsHeader + Join(CorrectionLines(failedQa), NewLine))
  {
    var r := ReconstructionText(filtered, failedQa);
    if failedQa != [] {
      assert r[|filtered|..] == CorrectionsHeader + Join(CorrectionLines(failedQa), NewLine);
    }
  }

  /** A correction line opens with the question and closes with the true answer. */
  lemma CorrectionLineEnds(qa: EvalRecord)
    ensures var line := CorrectionLine(qa);
      && QuestionTag + qa.question <= line
      && |line| >= |AnswerTag + qa.trueAnswer|
      && line[|line| - |AnswerTag + qa.trueAnswer|..] == AnswerTag + qa.trueAnswer
  {
    assert CorrectionLine(qa) == (QuestionTag + qa.question) + (AnswerTag + qa.trueAnswer);
  }

  lemma CorrectionLinesHaveNoNewLine(failedQa: seq<EvalRecord>)
    requires forall i :: 0 <= i < |failedQa| ==> NewLine !in failedQa[i].question && NewLine !in failedQa[i].trueAnswer
    ensures NoSep(CorrectionLines(failedQa), NewLine)
  {
    assert NewLine !in QuestionTag && NewLine !in AnswerTag;
    forall i | 0 <= i < |failedQa| ensures NewLine !in CorrectionLines(failedQa)[i] {
      assert CorrectionLines(failedQa)[i] == QuestionTag + failedQa[i].question + AnswerTag + failedQa[i].trueAnswer;
    }
  }

  /**
   * When no failed question or answer holds a line break, the lines of the
   * reconstruction text are those of the filtered dialogue, an empty line,
   * the "Corrections:" title and then one line per failed pair, in order,
   * each opening with the pair's question and closing with its true answer.
   */
  lemma CorrectionBlockLines(filtered: string, failedQa: seq<EvalRecord>)
    requires failedQa != []
    requires forall i :: 0 <= i < |failedQa| ==> NewLine !in failedQa[i].question && NewLine !in failedQa[i].trueAnswer
    ensures var lines := Split(ReconstructionText(filtered, failedQa), NewLine);
      && lines == Split(filtered, NewLine) + [[], CorrectionsTitle] + CorrectionLines(failedQa)
      && |lines| == |Split(filtered, NewLine)| + 2 + |failedQa|
      && forall i :: 0 <= i < |failedQa| ==>
           var line := lines[|Split(filtered, NewLine)| + 2 + i];
           && QuestionTag + failedQa[i].question <= line
           && |line| >= |AnswerTag + failedQa[i].trueAnswer|
           && line[|line| - |AnswerTag + failedQa[i].trueAnswer|..] == AnswerTag + failedQa[i].trueAnswer
  {
    ReconstructionSplit(filtered, failedQa);
    forall i | 0 <= i < |failedQa|
      ensures var line := CorrectionLines(failedQa)[i];
        && QuestionTag + failedQa[i].question <= line
        && |line| >= |AnswerTag + failedQa[i].trueAnswer|
        && line[|line| - |AnswerTag + failedQa[i].trueAnswer|..] == AnswerTag + failedQa[i].trueAnswer
    {
      CorrectionLineEnds(failedQa[i]);
    }
  }

  lemma ReconstructionSplit(filtered: string, failedQa: seq<EvalRecord>)
    requires failedQa != []
    requires forall i :: 0 <= i < |failedQa| ==> NewLine !in failedQa[i].question && NewLine !in failedQa[i].trueAnswer
    ensures Split(ReconstructionText(filtered, failedQa), NewLine)
      == Split(filtered, NewLine) + [[], CorrectionsTitle] + CorrectionLines(failedQa)
  {
    var block := Join(CorrectionLines(failedQa), NewLine);
    CorrectionLinesHaveNoNewLine(failedQa);
    SplitJoin(CorrectionLines(failedQa), NewLine);
    HeaderIsTitleLine();
    assert ReconstructionText(filtered, failedQa) == filtered + ([NewLine] + [NewLine] + CorrectionsTitle + [NewLine]) + block;
    SplitAroundTitle(filtered, CorrectionsTitle, block);
  }

  lemma HeaderIsTitleLine()
    ensures CorrectionsHeader == [NewLine] + [NewLine] + CorrectionsTitle + [NewLine]
    ensures NewLine !in CorrectionsTitle
  {
  }

  /** A text, an empty line, a title line and a block split into their lines in that order. */
  lemma SplitAroundTitle(a: string, title: string, b: string)
    requires NewLine !in title
    ensures Split(a + ([NewLine] + [NewLine] + title + [NewLine]) + b, NewLine)
      == Split(a, NewLine) + [[], title] + Split(b, NewLine)
  {
    var tail := [] + [NewLine] + (title + [NewLine] + b);
    assert a + ([NewLine] + [NewLine] + title + [NewLine]) + b == a + [NewLine] + tail;
    SplitConcat(a, tail, NewLine);
    SplitConcat([], title + [NewLine] + b, NewLine);
    SplitConcat(title, b, NewLine);
    SplitWithoutSep(title, NewLine);
  }

  /**
   * What a successful reconstruction appends to the user's entries: one
   * entry per summarized memory, then one per complete failed pair, with
   * consecutive fresh ids from `firstId`. The rebuild and the corrections
   * each read the clock: `buildNow` and `correctionNow`.
   */
  function RebuiltEntries(userId: string, s: Summarization, failedQa: seq<EvalRecord>, firstId: nat,
                          buildNow: string, correctionNow: string): seq<MemoryEntry>
  {
    var built := BuiltEntries(userId, s, firstId, buildNow);
    built + CorrectionEntries(userId, failedQa, firstId + |built|, correctionNow)
  }

  /**
   * `reconstruct`: rebuilds the store from the filtered dialogue and the
   * corrections block and, only when the rebuild succeeded, injects the
   * corrections as entries. The result is whether the rebuild succeeded;
   * how many corrections were injected does not change it. A failed
   * rebuild leaves the store as it was. The rebuild's clock reading
   * (`buildNow`) and the later one of the corrections (`correctionNow`) are
   * separate parameters.
   */
  method Reconstruct(memory: SimpleMemorySystem, userId: string, filtered: string, failedQa: seq<EvalRecord>,
                     summarize: string -> Reply, decode: string -> Decoded,
                     buildNow: string, correctionNow: string)
    returns (ok: bool)
    requires memory.Valid()
    modifies memory
    ensures memory.Valid()
    ensures var s := Summarize(ReconstructionText(filtered, failedQa), summarize, decode);
      && (ok <==> s.Summarized?)
      && (!ok ==> memory.memories == old(memory.memories) && memory.nextId == old(memory.nextId))
      && (ok ==>
            var added := RebuiltEntries(userId, s, failedQa, old(memory.nextId), buildNow, correctionNow);
            && memory.memories == old(memory.memories)[userId := UserEntries(old(memory.memories), userId) + added]
            && memory.nextId == old(memory.nextId) + |added|)
  {
    var dialogue := ReconstructionText(filtered, failedQa);
    ghost var s := Summarize(dialogue, summarize, decode);
    ghost var m0, n0 := memory.memories, memory.nextId;
    var result := memory.BuildMemory(userId, dialogue, summarize, decode, buildNow);
    ghost var m1, n1 := memory.memories, memory.nextId;
    ok := result.Built?;
    if ok {
      var _ := memory.AddCorrectionMemories(userId, failedQa, correctionNow);
    }
    RebuildOutcome(userId, s, result, ok, m0, n0, m1, n1, memory.memories, memory.nextId);
    if ok {
      RebuildThenCorrect(userId, s, failedQa, buildNow, correctionNow, m0, n0, m1, n1, memory.memories, memory.nextId);
    }
  }

  /** The rebuild's outcome decides the result, and a failed rebuild changes nothing. */
  lemma RebuildOutcome(userId: string, s: Summarization, result: BuildResult, ok: bool,
                       m0: map<string, seq<MemoryEntry>>, n0: nat, m1: map<string, seq<MemoryEntry>>, n1: nat,
                       m2: map<string, seq<MemoryEntry>>, n2: nat)
    requires s.NotSummarized? ==> result == BuildError(s.error) && m1 == m0 && n1 == n0
    requires s.Summarized? ==> result == Built(s.summary, |s.memories|, |UserEntries(m0, userId)| + |s.memories|)
    requires ok == result.Built?
    requires !ok ==> m2 == m1 && n2 == n1
    ensures ok <==> s.Summarized?
    ensures !ok ==> m2 == m0 && n2 == n0
  {
  }

  /**
   * After a successful rebuild, the corrections land behind the summarized
   * entries, with ids continuing where the rebuild's stopped.
   */
  lemma RebuildThenCorrect(userId: string, s: Summarization, failedQa: seq<EvalRecord>,
                           buildNow: string, correctionNow: string,
                           m0: map<string, seq<MemoryEntry>>, n0: nat, m1: map<string, seq<MemoryEntry>>, n1: nat,
                           m2: map<string, seq<MemoryEntry>>, n2: nat)
    requires s.Summarized?
    requires m1 == m0[userId := UserEntries(m0, userId) + BuiltEntries(userId, s, n0, buildNow)]
    requires n1 == n0 + |s.memories|
    requires failedQa == [] ==> m2 == m1
    requires failedQa != [] ==> m2 == m1[userId := UserEntries(m1, userId) + CorrectionEntries(userId, failedQa, n1, correctionNow)]
    requires n2 == n1 + |CorrectionEntries(userId, failedQa, n1, correctionNow)|
    ensures var added := RebuiltEntries(userId, s, failedQa, n0, buildNow, correctionNow);
      m2 == m0[userId := UserEntries(m0, userId) + added] && n2 == n0 + |added|
  {
    var built := BuiltEntries(userId, s, n0, buildNow);
    var corrections := CorrectionEntries(userId, failedQa, n1, correctionNow);
    assert RebuiltEntries(userId, s, failedQa, n0, buildNow, correctionNow) == built + corrections;
    if failedQa == [] {
      assert corrections == [];
    }
    AppendTwice(m0, m1, m2, userId, built, corrections, failedQa == []);
  }

  /**
   * Two appends to the same user's entries are one append of both, in
   * order; a skipped second append adds nothing.
   */
  lemma AppendTwice(m0: map<string, seq<MemoryEntry>>, m1: map<string, seq<MemoryEntry>>,
                    m2: map<string, seq<MemoryEntry>>, userId: string, first: seq<MemoryEntry>,
                    second: seq<MemoryEntry>, skipped: bool)
    requires m1 == m0[userId := UserEntries(m0, userId) + first]
    requires skipped ==> m2 == m1 && second == []
    requires !skipped ==> m2 == m1[userId := UserEntries(m1, userId) + second]
    ensures m2 == m0[userId := UserEntries(m0, userId) + (first + second)]
  {
    assert UserEntries(m0, userId) + first + second == UserEntries(m0, userId) + (first + second);
    if skipped {
      assert UserEntries(m0, userId) + first + [] == UserEntries(m0, userId) + first;
    }
  }
}
