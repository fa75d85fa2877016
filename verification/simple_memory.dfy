/**
 * The JSON-backed memory store: a per-user list of entries, kept in the
 * `_memories` cache and only ever appended to; keyword search with top-k
 * truncation; rebuilding from a dialogue through a summarizing language
 * model; and direct injection of correction entries.
 *
 * Files, JSON encoding and the language model are outside the model: the
 * model's reply is the `summarize` oracle, `json.loads` with the key lookups
 * is the `decode` oracle, `uuid4` is the counter `nextId`, and the clock
 * reading is the `now` parameter.
 */
module SimpleMemory {
  import opened Text
  import opened Seqs
  import opened Records
  import opened LlmReply

  datatype Metadata =
    | FromDialogue(summary: string)
    | FromCorrection(question: string, trueAnswer: string)
  {
    /** The `metadata.source` tag. */
    function Source(): string {
      match this
      case FromDialogue(_) => DialogueSource
      case FromCorrection(_, _) => CorrectionSource
    }
  }

  datatype MemoryEntry = MemoryEntry(
    memoryId: nat,
    userId: string,
    content: string,
    timestamp: string,
    createdAt: string,
    metadata: Metadata)

  /** One element of the summarizer's `memories` list; either key may be missing. */
  datatype SummarizedMemory = SummarizedMemory(content: Option<string>, timestamp: Option<string>)

  /** The summarizer's JSON object; either key may be missing. */
  datatype SummaryObject = SummaryObject(summary: Option<string>, memories: Option<seq<SummarizedMemory>>)

  /** What `json.loads` and the `.get` lookups make of the reply text. */
  datatype Decoded =
    | Decoded(value: SummaryObject)
    | NotJson(error: string)     // json.JSONDecodeError
    | NotAnObject(error: string) // any other exception, e.g. a top-level JSON list

  /** The dictionary `build_memory` returns; `Built` is `status == "built"`. */
  datatype BuildResult =
    | Built(summary: string, memoriesCount: nat, totalMemories: nat)
    | BuildError(error: string)

  /** The dictionary `search` returns; this store fills only `memories`. */
  datatype SearchResult = SearchResult(
    memories: seq<MemoryEntry>,
    episodic: seq<MemoryEntry>,
    semantic: seq<MemoryEntry>)

  const ParseErrorPrefix: string := "Failed to parse JSON response: "
  const BuildErrorPrefix: string := "Failed to build memory: "
  const DefaultTopK: int := 10
  const DialogueSource: string := "dialogue_summarization"
  const CorrectionSource: string := "correction"
  const QuestionLabel: string := "Question: "
  const AnswerLabel: string := ". Correct Answer: "
  const Period: string := "."

  // ---------------------------------------------------------------------
  // Rebuilding from a dialogue

  datatype Summarization =
    | Summarized(summary: string, memories: seq<SummarizedMemory>)
    | NotSummarized(error: string)

  /** The summarizing call and the parsing of its reply, with the error text each failure yields. */
  function Summarize(dialogue: string, summarize: string -> Reply, decode: string -> Decoded): Summarization {
    match summarize(dialogue)
    case CallFailed(e) => NotSummarized(BuildErrorPrefix + e)
    case Reply(_) =>
      match decode(ReplyText(summarize(dialogue)).value)
      case NotJson(e) => NotSummarized(ParseErrorPrefix + e)
      case NotAnObject(e) => NotSummarized(BuildErrorPrefix + e)
      case Decoded(obj) => Summarized(obj.summary.GetOr(""), obj.memories.GetOr([]))
  }

  function SummaryEntry(userId: string, summary: string, m: SummarizedMemory, id: nat, now: string): MemoryEntry {
    MemoryEntry(id, userId, m.content.GetOr(""), m.timestamp.GetOr(now), m.timestamp.GetOr(now), FromDialogue(summary))
  }

  /** The entries a successful rebuild appends, one per summarized memory, with fresh ids from `firstId`. */
  function SummaryEntries(userId: string, summary: string, ms: seq<SummarizedMemory>, firstId: nat, now: string): seq<MemoryEntry> {
    seq(|ms|, k requires 0 <= k < |ms| => SummaryEntry(userId, summary, ms[k], firstId + k, now))
  }

  /** The entries `build_memory` appends: those of the summary, or none when summarizing failed. */
  function BuiltEntries(userId: string, s: Summarization, firstId: nat, now: string): (r: seq<MemoryEntry>)
    ensures s.NotSummarized? ==> r == []
    ensures s.Summarized? ==> |r| == |s.memories|
    ensures forall k :: 0 <= k < |r| ==>
      r[k].metadata.FromDialogue? && r[k].userId == userId && r[k].memoryId == firstId + k
    ensures s.Summarized? ==> forall k :: 0 <= k < |r| ==>
      && r[k].content == s.memories[k].content.GetOr([])
      && r[k].timestamp == r[k].createdAt == s.memories[k].timestamp.GetOr(now)
      && r[k].metadata == FromDialogue(s.summary)
  {
    match s
    case Summarized(summary, ms) => SummaryEntries(userId, summary, ms, firstId, now)
    case NotSummarized(_) => []
  }

  lemma SummaryEntriesSnoc(userId: string, summary: string, ms: seq<SummarizedMemory>, i: nat, firstId: nat, now: string)
    requires i < |ms|
    ensures SummaryEntries(userId, summary, ms[..i + 1], firstId, now)
         == SummaryEntries(userId, summary, ms[..i], firstId, now) + [SummaryEntry(userId, summary, ms[i], firstId + i, now)]
  {
  }

  // ---------------------------------------------------------------------
  // Corrections

  /** A failed pair is turned into a correction when its stripped question and answer are both non-empty. */
  predicate IsCorrectable(qa: EvalRecord) {
    Strip(qa.question) != [] && Strip(qa.trueAnswer) != []
  }

  function CorrectionContent(question: string, trueAnswer: string): string {
    QuestionLabel + question + AnswerLabel + trueAnswer + Period
  }

  /**
   * The correction entry for one failed pair: tagged with the pair's
   * stripped question and answer, which its content restates, with the
   * given id and both times set to the clock reading.
   */
  function CorrectionEntry(userId: string, qa: EvalRecord, id: nat, now: string): (e: MemoryEntry)
    ensures e.metadata == FromCorrection(Strip(qa.question), Strip(qa.trueAnswer))
    ensures IsStripped(e.metadata.question) && IsStripped(e.metadata.trueAnswer)
    ensures e.content == CorrectionContent(e.metadata.question, e.metadata.trueAnswer)
    ensures e.memoryId == id && e.userId == userId && e.timestamp == now && e.createdAt == now
  {
    var question, trueAnswer := Strip(qa.question), Strip(qa.trueAnswer);
    StripResult(qa.question);
    StripResult(qa.trueAnswer);
    MemoryEntry(id, userId, CorrectionContent(question, trueAnswer), now, now, FromCorrection(question, trueAnswer))
  }

  /** The entries `add_correction_memories` appends, with fresh ids from `firstId`, built as its loop builds them. */
  function CorrectionEntries(userId: string, qas: seq<EvalRecord>, firstId: nat, now: string): (es: seq<MemoryEntry>)
    ensures |es| <= |qas|
    decreases |qas|
  {
    if qas == [] then []
    else
      var prev := CorrectionEntries(userId, qas[..|qas| - 1], firstId, now);
      var last := qas[|qas| - 1];
      if IsCorrectable(last) then prev + [CorrectionEntry(userId, last, firstId + |prev|, now)] else prev
  }

  lemma CorrectionEntriesSnoc(userId: string, qas: seq<EvalRecord>, i: nat, firstId: nat, now: string)
    requires i < |qas|
    ensures var done := CorrectionEntries(userId, qas[..i], firstId, now);
      CorrectionEntries(userId, qas[..i + 1], firstId, now)
      == if IsCorrectable(qas[i]) then done + [CorrectionEntry(userId, qas[i], firstId + |done|, now)] else done
  {
    assert qas[..i + 1][..i] == qas[..i];
  }

  /**
   * Every correction entry is tagged "correction", carries the next id and
   * restates a stripped, complete failed pair.
   */
  lemma {:induction false} CorrectionEntriesShape(userId: string, qas: seq<EvalRecord>, firstId: nat, now: string)
    ensures forall k :: 0 <= k < |CorrectionEntries(userId, qas, firstId, now)| ==>
      var e := CorrectionEntries(userId, qas, firstId, now)[k];
      && e.metadata.Source() == CorrectionSource && e.memoryId == firstId + k && e.userId == userId
      && e.metadata.question != [] && e.metadata.trueAnswer != []
      && IsStripped(e.metadata.question) && IsStripped(e.metadata.trueAnswer)
      && e.content == CorrectionContent(e.metadata.question, e.metadata.trueAnswer)
    decreases |qas|
  {
    if qas != [] {
      CorrectionEntriesShape(userId, qas[..|qas| - 1], firstId, now);
    }
  }

  /**
   * The entries follow the complete pairs one for one: a pair is skipped
   * exactly when its stripped question or answer is empty.
   */
  lemma {:induction false} CorrectionsFollowCompletePairs(userId: string, qas: seq<EvalRecord>, firstId: nat, now: string)
    ensures |CorrectionEntries(userId, qas, firstId, now)| == |Filter(qas, IsCorrectable)|
    ensures forall k :: 0 <= k < |CorrectionEntries(userId, qas, firstId, now)| ==>
      CorrectionEntries(userId, qas, firstId, now)[k] == CorrectionEntry(userId, Filter(qas, IsCorrectable)[k], firstId + k, now)
    decreases |qas|
  {
    if qas != [] {
      CorrectionsFollowCompletePairs(userId, qas[..|qas| - 1], firstId, now);
    }
  }

  /**
   * Every complete pair yields a correction, a list of complete pairs one
   * correction each, and a list yields none exactly when no pair is complete.
   */
  lemma CorrectionsCoverCompletePairs(userId: string, qas: seq<EvalRecord>, firstId: nat, now: string)
    ensures forall i :: 0 <= i < |qas| && IsCorrectable(qas[i]) ==>
      exists k :: 0 <= k < |CorrectionEntries(userId, qas, firstId, now)| &&
        CorrectionEntries(userId, qas, firstId, now)[k].metadata
          == FromCorrection(Strip(qas[i].question), Strip(qas[i].trueAnswer))
    ensures (forall i :: 0 <= i < |qas| ==> IsCorrectable(qas[i])) ==>
      |CorrectionEntries(userId, qas, firstId, now)| == |qas|
    ensures (forall i :: 0 <= i < |qas| ==> !IsCorrectable(qas[i])) <==>
      CorrectionEntries(userId, qas, firstId, now) == []
  {
    var ps := Filter(qas, IsCorrectable);
    var es := CorrectionEntries(userId, qas, firstId, now);
    CorrectionsFollowCompletePairs(userId, qas, firstId, now);
    FilterKeepsAll(qas, IsCorrectable);
    FilterEmpty(qas, IsCorrectable);
    forall i | 0 <= i < |qas| && IsCorrectable(qas[i])
      ensures exists k :: 0 <= k < |es| && es[k].metadata == FromCorrection(Strip(qas[i].question), Strip(qas[i].trueAnswer))
    {
      var k :| 0 <= k < |ps| && ps[k] == qas[i];
      assert es[k] == CorrectionEntry(userId, qas[i], firstId + k, now);
    }
    if forall i :: 0 <= i < |qas| ==> IsCorrectable(qas[i]) {
      FilterAllPass(qas, IsCorrectable);
    }
  }

  /**
   * The loop of `add_correction_memories`: appends to a user's list, with
   * ids from `firstId`, the correction of each failed pair whose stripped
   * question and answer are both non-empty, counting them. (The source
   * appends to the cached list through an alias; the caller writes the
   * result back to the cache.)
   */
  method AppendCorrections(existing: seq<MemoryEntry>, userId: string, failedQa: seq<EvalRecord>, firstId: nat, now: string)
    returns (entries: seq<MemoryEntry>, count: nat)
    ensures entries == existing + CorrectionEntries(userId, failedQa, firstId, now)
    ensures count == |CorrectionEntries(userId, failedQa, firstId, now)|
  {
    ghost var added: seq<MemoryEntry> := [];
    entries := existing;
    count := 0;
    var id := firstId;
    var i := 0;
    assert failedQa[..0] == [];
    while i < |failedQa|
      invariant 0 <= i <= |failedQa|
      invariant added == CorrectionEntries(userId, failedQa[..i], firstId, now)
      invariant entries == existing + added
      invariant count == |added| && id == firstId + count
    {
      CorrectionEntriesSnoc(userId, failedQa, i, firstId, now);
      var question := Strip(failedQa[i].question);
      var trueAnswer := Strip(failedQa[i].trueAnswer);
      if question != [] && trueAnswer != [] {
        assert IsCorrectable(failedQa[i]);
        var entry := CorrectionEntry(userId, failedQa[i], id, now);
        assert existing + added + [entry] == existing + (added + [entry]);
        assert entry == CorrectionEntry(userId, failedQa[i], firstId + |added|, now);
        assert added + [entry] == CorrectionEntries(userId, failedQa[..i + 1], firstId, now);
        entries := entries + [entry];
        added := added + [entry];
        id := id + 1;
        count := count + 1;
      } else {
        assert !IsCorrectable(failedQa[i]);
        assert added == CorrectionEntries(userId, failedQa[..i + 1], firstId, now);
      }
      i := i + 1;
    }
    assert failedQa[..i] == failedQa;
  }

  /** The loop of `build_memory`: one "dialogue_summarization" entry per summarized memory, ids from `firstId`. */
  method AppendSummaries(existing: seq<MemoryEntry>, userId: string, summary: string, ms: seq<SummarizedMemory>,
                         firstId: nat, now: string)
    returns (entries: seq<MemoryEntry>)
    ensures entries == existing + SummaryEntries(userId, summary, ms, firstId, now)
  {
    entries := existing;
    var id := firstId;
    var i := 0;
    assert SummaryEntries(userId, summary, ms[..0], firstId, now) == [];
    while i < |ms|
      invariant 0 <= i <= |ms|
      invariant entries == existing + SummaryEntries(userId, summary, ms[..i], firstId, now)
      invariant id == firstId + i
    {
      var entry := SummaryEntry(userId, summary, ms[i], id, now);
      SummaryEntriesSnoc(userId, summary, ms, i, firstId, now);
      assert existing + (SummaryEntries(userId, summary, ms[..i], firstId, now) + [entry])
          == existing + SummaryEntries(userId, summary, ms[..i], firstId, now) + [entry];
      entries := entries + [entry];
      id := id + 1;
      i := i + 1;
    }
    assert ms[..i] == ms;
  }

  // ---------------------------------------------------------------------
  // Search

  /**
   * An entry matches when its lowercased content contains the whole
   * lowercased query, or one of the query's whitespace-separated words
   * longer than two characters.
   */
  predicate ContentMatches(content: string, query: string) {
    var c := Lower(content);
    var q := Lower(query);
    Contains(c, q) || exists w :: w in Fields(q) && |w| > 2 && Contains(c, w)
  }

  function MatchesQuery(query: string): MemoryEntry -> bool {
    (e: MemoryEntry) => ContentMatches(e.content, query)
  }

  /** `top_k_memories or 10`. */
  function SearchLimit(topK: Option<int>): int {
    match topK
    case None => DefaultTopK
    case Some(k) => if k == 0 then DefaultTopK else k
  }

  /** The entries `search` returns for `entries` stored for the user. */
  function SearchHits(entries: seq<MemoryEntry>, query: string, topK: Option<int>): seq<MemoryEntry> {
    PyTake(Filter(entries, MatchesQuery(query)), SearchLimit(topK))
  }

  /**
   * Search returns the first matching stored entries, in stored order:
   * `min(top_k, matches)` of them for the limit `top_k` (10 when
   * `top_k_memories` is None or 0), all but the last `-top_k` for a
   * negative one, and all the matching ones when there are no more than
   * the limit.
   */
  lemma SearchHitsSound(entries: seq<MemoryEntry>, query: string, topK: Option<int>)
    ensures IsSubsequence(SearchHits(entries, query, topK), entries)
    ensures SearchHits(entries, query, topK) <= Filter(entries, MatchesQuery(query))
    ensures var n := |Filter(entries, MatchesQuery(query))|;
      && (SearchLimit(topK) >= 0 ==> |SearchHits(entries, query, topK)| == if SearchLimit(topK) < n then SearchLimit(topK) else n)
      && (SearchLimit(topK) < 0 ==> |SearchHits(entries, query, topK)| == if n + SearchLimit(topK) < 0 then 0 else n + SearchLimit(topK))
    ensures forall i :: 0 <= i < |SearchHits(entries, query, topK)| ==>
      ContentMatches(SearchHits(entries, query, topK)[i].content, query)
    ensures SearchLimit(topK) > 0 ==> |SearchHits(entries, query, topK)| <= SearchLimit(topK)
    ensures (topK == None || topK == Some(0)) ==> |SearchHits(entries, query, topK)| <= 10
    ensures 0 <= |Filter(entries, MatchesQuery(query))| <= SearchLimit(topK) ==>
      forall i :: 0 <= i < |entries| && ContentMatches(entries[i].content, query) ==>
        entries[i] in SearchHits(entries, query, topK)
  {
    var all := Filter(entries, MatchesQuery(query));
    FilterIsSubsequence(entries, MatchesQuery(query));
    SubsequencePrefix(all, entries, SearchHits(entries, query, topK));
    FilterSatisfies(entries, MatchesQuery(query));
    FilterKeepsAll(entries, MatchesQuery(query));
    var hits := SearchHits(entries, query, topK);
    forall i | 0 <= i < |hits| ensures ContentMatches(hits[i].content, query) {
      assert hits[i] == all[i];
      assert MatchesQuery(query)(all[i]);
    }
    if |all| <= SearchLimit(topK) {
      assert hits == all;
      forall i | 0 <= i < |entries| && ContentMatches(entries[i].content, query)
        ensures entries[i] in hits
      {
        assert MatchesQuery(query)(entries[i]);
      }
    }
  }

  /** The matching loop of `search`: the entries whose content matches the query, in stored order. */
  method MatchingEntries(entries: seq<MemoryEntry>, query: string) returns (matched: seq<MemoryEntry>)
    ensures matched == Filter(entries, MatchesQuery(query))
  {
    matched := [];
    var i := 0;
    while i < |entries|
      invariant 0 <= i <= |entries|
      invariant matched == Filter(entries[..i], MatchesQuery(query))
    {
      if ContentMatches(entries[i].content, query) {
        matched := matched + [entries[i]];
      }
      assert entries[..i + 1][..i] == entries[..i];
      i := i + 1;
    }
    assert entries[..i] == entries;
  }

  // ---------------------------------------------------------------------
  // Identifiers

  /** Ids strictly increase along a user's list and are all below `bound`. */
  ghost predicate IdsAscendBelow(entries: seq<MemoryEntry>, bound: nat) {
    (forall i :: 0 <= i < |entries| ==> entries[i].memoryId < bound) &&
    (forall i, j :: 0 <= i < j < |entries| ==> entries[i].memoryId < entries[j].memoryId)
  }

  /** Ids are `first`, `first + 1`, ... */
  ghost predicate IdsFrom(entries: seq<MemoryEntry>, first: nat) {
    forall i :: 0 <= i < |entries| ==> entries[i].memoryId == first + i
  }

  /**
   * Appending entries with fresh consecutive ids to one user's list keeps
   * every user's ids ascending and below the advanced counter.
   */
  lemma AppendFreshIds(m: map<string, seq<MemoryEntry>>, bound: nat, u: string, added: seq<MemoryEntry>)
    requires forall v :: v in m ==> IdsAscendBelow(m[v], bound)
    requires u in m && IdsFrom(added, bound)
    ensures var m' := m[u := m[u] + added];
      forall v :: v in m' ==> IdsAscendBelow(m'[v], bound + |added|)
  {
  }

  lemma {:induction false} CorrectionIds(userId: string, qas: seq<EvalRecord>, firstId: nat, now: string)
    ensures IdsFrom(CorrectionEntries(userId, qas, firstId, now), firstId)
    decreases |qas|
  {
    if qas != [] {
      CorrectionIds(userId, qas[..|qas| - 1], firstId, now);
    }
  }

  // ---------------------------------------------------------------------
  // The store

  /** A user's entries in a cache; a user never loaded has none (no storage file is modelled). */
  function UserEntries(memories: map<string, seq<MemoryEntry>>, userId: string): seq<MemoryEntry> {
    if userId in memories then memories[userId] else []
  }

  class SimpleMemorySystem {
    /** `_memories`: the per-user entry lists loaded so far. */
    var memories: map<string, seq<MemoryEntry>>
    /** Stands for `uuid4`: the next identifier to hand out. */
    var nextId: nat

    /** Every identifier handed out is unique and below `nextId`. */
    ghost predicate Valid()
      reads this
    {
      forall u :: u in memories ==> IdsAscendBelow(memories[u], nextId)
    }

    /** The entries of a user in the cache. */
    function Entries(userId: string): seq<MemoryEntry>
      reads this
    {
      UserEntries(memories, userId)
    }

    constructor ()
      ensures Valid()
      ensures memories == map[] && nextId == 0
    {
      memories := map[];
      nextId := 0;
    }

    /** `_load_user_memories`: fills the cache entry of a user seen for the first time. */
    method LoadUserMemories(userId: string) returns (entries: seq<MemoryEntry>)
      requires Valid()
      modifies this
      ensures Valid()
      ensures entries == old(Entries(userId))
      ensures memories == old(memories)[userId := entries] && nextId == old(nextId)
    {
      if userId !in memories {
        memories := memories[userId := []];
      }
      entries := memories[userId];
    }

    /** Keyword search with top-k truncation; stored entries stay as they are. */
    method Search(userId: string, query: string, topK: Option<int>) returns (r: SearchResult)
      requires Valid()
      modifies this
      ensures Valid()
      ensures r == SearchResult(SearchHits(old(Entries(userId)), query, topK), [], [])
      ensures forall u :: Entries(u) == old(Entries(u))
      ensures nextId == old(nextId)
    {
      var entries := LoadUserMemories(userId);
      var matched := MatchingEntries(entries, query);
      r := SearchResult(PyTake(matched, SearchLimit(topK)), [], []);
    }

    /**
     * `add_correction_memories`: appends one correction entry per failed pair
     * whose stripped question and answer are both non-empty, and returns how
     * many it appended. An empty list changes nothing, not even the cache.
     */
    method AddCorrectionMemories(userId: string, failedQa: seq<EvalRecord>, now: string) returns (count: nat)
      requires Valid()
      modifies this
      ensures Valid()
      ensures failedQa == [] ==> memories == old(memories)
      ensures failedQa != [] ==>
        memories == old(memories)[userId := old(Entries(userId)) + CorrectionEntries(userId, failedQa, old(nextId), now)]
      ensures count == |CorrectionEntries(userId, failedQa, old(nextId), now)| && nextId == old(nextId) + count
    {
      if failedQa == [] {
        return 0;
      }
      var existing := LoadUserMemories(userId);
      var firstId := nextId;
      ghost var added := CorrectionEntries(userId, failedQa, firstId, now);
      var entries;
      entries, count := AppendCorrections(existing, userId, failedQa, firstId, now);
      CorrectionIds(userId, failedQa, firstId, now);
      AppendFreshIds(memories, firstId, userId, added);
      memories := memories[userId := entries];
      nextId := firstId + count;
    }

    /**
     * `build_memory`: summarizes the dialogue and, when the reply parses,
     * appends one "dialogue_summarization" entry per summarized memory. A
     * failed call or an unparsable reply appends nothing and reports an error.
     */
    method BuildMemory(userId: string, dialogue: string, summarize: string -> Reply, decode: string -> Decoded, now: string)
      returns (r: BuildResult)
      requires Valid()
      modifies this
      ensures Valid()
      ensures var s := Summarize(dialogue, summarize, decode);
        && (s.NotSummarized? ==> r == BuildError(s.error) && memories == old(memories) && nextId == old(nextId))
        && (s.Summarized? ==>
              && r == Built(s.summary, |s.memories|, |old(Entries(userId))| + |s.memories|)
              && memories == old(memories)[userId := old(Entries(userId)) + BuiltEntries(userId, s, old(nextId), now)]
              && nextId == old(nextId) + |s.memories|)
    {
      var s := Summarize(dialogue, summarize, decode);
      if s.NotSummarized? {
        return BuildError(s.error);
      }
      var total := AppendSummarized(userId, s.summary, s.memories, now);
      r := Built(s.summary, |s.memories|, total);
    }

    /** The append loop of `build_memory`, after a successful parse; returns the user's new entry count. */
    method AppendSummarized(userId: string, summary: string, ms: seq<SummarizedMemory>, now: string) returns (total: nat)
      requires Valid()
      modifies this
      ensures Valid()
      ensures memories == old(memories)[userId := old(Entries(userId)) + SummaryEntries(userId, summary, ms, old(nextId), now)]
      ensures nextId == old(nextId) + |ms| && total == |old(Entries(userId))| + |ms|
    {
      var existing := LoadUserMemories(userId);
      var firstId := nextId;
      var entries := AppendSummaries(existing, userId, summary, ms, firstId, now);
      AppendFreshIds(memories, firstId, userId, SummaryEntries(userId, summary, ms, firstId, now));
      memories := memories[userId := entries];
      nextId := firstId + |ms|;
      total := |entries|;
    }
  }
}
