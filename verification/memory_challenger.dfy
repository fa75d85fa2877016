/**
 * The question generator's post-processing of a reply: fence stripping, the
 * items that carry both a question and an answer (stripped, in order), the
 * `num_qa` truncation, and the empty list on any failure.
 */
module MemoryChallenger {
  import opened Text
  import opened Seqs
  import opened Records
  import opened LlmReply

  /** The value under one key of a generated item: missing, a string, or a value of another type. */
  datatype Field = Absent | Str(text: string) | NotStr

  /** One element of the reply's "qa_pairs" list. */
  datatype QaItem = QaItem(question: Field, answer: Field)

  /**
   * `json.loads` of the reply text: an object, with its "qa_pairs" list if
   * it has one, or a failure (not JSON, or not an object).
   */
  datatype QaDecoded = QaObject(qaPairs: Option<seq<QaItem>>) | QaUnreadable(error: string)

  /** `"question" in item and "answer" in item`. */
  predicate HasBoth(item: QaItem) {
    item.question != Absent && item.answer != Absent
  }

  /** A kept item whose values are not both strings makes `.strip()` raise. */
  predicate Breaks(item: QaItem) {
    HasBoth(item) && !(item.question.Str? && item.answer.Str?)
  }

  function StrippedPair(item: QaItem): QaPair
    requires HasBoth(item) && !Breaks(item)
  {
    QaPair(Strip(item.question.text), Strip(item.answer.text))
  }

  /**
   * The pairs the item loop collects, or `None` when an item with both keys
   * has a value that is not a string (the loop then raises).
   */
  function KeptPairs(items: seq<QaItem>): Option<seq<QaPair>>
    decreases |items|
  {
    if items == [] then Some([])
    else
      var last := items[|items| - 1];
      match KeptPairs(items[..|items| - 1])
      case None => None
      case Some(prev) =>
        if !HasBoth(last) then Some(prev)
        else if Breaks(last) then None
        else Some(prev + [StrippedPair(last)])
  }

  /**
   * What `generate_qa_pairs` returns for a reply: the first `num_qa` kept
   * pairs (all but the last `-num_qa` for a negative `num_qa`), or the
   * empty list when the call failed, the text did not decode to an object,
   * or an item broke the loop.
   */
  function QaPairsFrom(reply: Reply, decode: string -> QaDecoded, numQa: int): (r: seq<QaPair>)
    ensures numQa >= 0 ==> |r| <= numQa
    ensures reply.CallFailed? ==> r == []
    ensures ReplyText(reply).Some? && decode(ReplyText(reply).value).QaUnreadable? ==> r == []
    ensures ReplyText(reply).Some? && decode(ReplyText(reply).value) == QaObject(None) ==> r == []
    ensures ReplyText(reply).Some? && decode(ReplyText(reply).value).QaObject? ==>
      var kept := KeptPairs(decode(ReplyText(reply).value).qaPairs.GetOr([]));
      && (kept.None? ==> r == [])
      && (kept.Some? ==> r <= kept.value)
      && (kept.Some? && numQa >= 0 ==> |r| == if numQa < |kept.value| then numQa else |kept.value|)
      && (kept.Some? && numQa < 0 ==> |r| == if |kept.value| + numQa < 0 then 0 else |kept.value| + numQa)
  {
    match ReplyText(reply)
    case None => []
    case Some(text) =>
      match decode(text)
      case QaUnreadable(_) => []
      case QaObject(qaPairs) =>
        match KeptPairs(qaPairs.GetOr([]))
        case None => []
        case Some(pairs) => PyTake(pairs, numQa)
  }

  // ---------------------------------------------------------------------
  // Properties

  /** Collection fails exactly when some item with both keys has a value that is not a string. */
  lemma {:induction false} KeptPairsFails(items: seq<QaItem>)
    ensures KeptPairs(items).None? <==> exists i :: 0 <= i < |items| && Breaks(items[i])
    decreases |items|
  {
    if items != [] {
      var init := items[..|items| - 1];
      KeptPairsFails(init);
      if exists i :: 0 <= i < |init| && Breaks(init[i]) {
        var i :| 0 <= i < |init| && Breaks(init[i]);
        assert items[i] == init[i];
      }
      if exists i :: 0 <= i < |items| && Breaks(items[i]) {
        var i :| 0 <= i < |items| && Breaks(items[i]);
        if i < |init| {
          assert init[i] == items[i];
        }
      }
    }
  }

  /**
   * When collection succeeds, the pairs are the items with both keys, in
   * order, with their question and answer stripped.
   */
  lemma {:induction false} KeptPairsExactly(items: seq<QaItem>)
    requires KeptPairs(items).Some?
    ensures var pairs := KeptPairs(items).value;
      var complete := Filter(items, HasBoth);
      && |pairs| == |complete|
      && forall k :: 0 <= k < |pairs| ==>
           !Breaks(complete[k]) && HasBoth(complete[k]) && pairs[k] == StrippedPair(complete[k])
    decreases |items|
  {
    if items != [] {
      var init := items[..|items| - 1];
      KeptPairsExactly(init);
      FilterSatisfies(items, HasBoth);
    }
  }

  /** Every generated question and answer is stripped. */
  lemma {:induction false} KeptPairsStripped(items: seq<QaItem>)
    requires KeptPairs(items).Some?
    ensures forall k :: 0 <= k < |KeptPairs(items).value| ==>
      IsStripped(KeptPairs(items).value[k].question) && IsStripped(KeptPairs(items).value[k].answer)
    decreases |items|
  {
    if items != [] {
      var init := items[..|items| - 1];
      KeptPairsStripped(init);
      var last := items[|items| - 1];
      if HasBoth(last) && !Breaks(last) {
        StripResult(last.question.text);
        StripResult(last.answer.text);
      }
    }
  }

  // ---------------------------------------------------------------------
  // The loop

  /** The failure of the item loop persists: once an item breaks it, no later item matters. */
  lemma {:induction false} KeptPairsFailurePersists(items: seq<QaItem>, i: nat)
    requires i <= |items| && KeptPairs(items[..i]).None?
    ensures KeptPairs(items).None?
    decreases |items| - i
  {
    if i < |items| {
      assert items[..i + 1][..i] == items[..i];
      KeptPairsFailurePersists(items, i + 1);
    } else {
      assert items[..i] == items;
    }
  }

  /** The item loop of `generate_qa_pairs`; `None` stands for the exception a non-string value raises. */
  method CollectPairs(items: seq<QaItem>) returns (r: Option<seq<QaPair>>)
    ensures r == KeptPairs(items)
  {
    var pairs: seq<QaPair> := [];
    var i := 0;
    assert items[..0] == [];
    while i < |items|
      invariant 0 <= i <= |items|
      invariant KeptPairs(items[..i]) == Some(pairs)
    {
      var item := items[i];
      assert items[..i + 1][..i] == items[..i];
      if item.question != Absent && item.answer != Absent {
        if !(item.question.Str? && item.answer.Str?) {
          assert KeptPairs(items[..i + 1]).None?;
          KeptPairsFailurePersists(items, i + 1);
          return None;
        }
        pairs := pairs + [QaPair(Strip(item.question.text), Strip(item.answer.text))];
      }
      i := i + 1;
    }
    assert items[..i] == items;
    return Some(pairs);
  }

  /**
   * `generate_qa_pairs`: asks the model for `num_qa` pairs about the
   * dialogue and post-processes the reply; every failure gives `[]`.
   */
  method GenerateQaPairs(dialogue: string, numQa: int, complete: (string, int) -> Reply, decode: string -> QaDecoded)
    returns (r: seq<QaPair>)
    ensures r == QaPairsFrom(complete(dialogue, numQa), decode, numQa)
  {
    var text := ReplyText(complete(dialogue, numQa));
    if text.None? {
      return [];
    }
    var data := decode(text.value);
    if data.QaUnreadable? {
      return [];
    }
    var kept := CollectPairs(data.qaPairs.GetOr([]));
    if kept.None? {
      return [];
    }
    r := PyTake(kept.value, numQa);
  }
}
