/**
 * The text of a chat-completion reply, as both the summarizer of the store
 * and the question generator read it: `(content or "").strip()`, then the
 * code-fence and `json` tag removal.
 */
module LlmReply {
  import opened Text

  /** A chat-completion call: the message content (possibly `None`), or a transport failure. */
  datatype Reply = Reply(content: Option<string>) | CallFailed(error: string)

  const Fence: string := "```"
  const JsonTag: string := "json"

  /**
   * `s.split(delim)[0]`: the part of `s` before the first occurrence of
   * `delim`, or all of `s` when there is none. No occurrence starts inside
   * the result, and one starts right after it unless it is all of `s`.
   */
  function UpTo(s: string, delim: string): (r: string)
    requires delim != []
    ensures r <= s
    ensures !Contains(r, delim)
    ensures forall i :: 0 <= i < |r| ==> !(delim <= s[i..])
    ensures r == s || delim <= s[|r|..]
    decreases |s|
  {
    if delim <= s || s == [] then []
    else
      var rest := UpTo(s[1..], delim);
      assert forall i :: 1 <= i <= |rest| ==> s[i..] == s[1..][i - 1..];
      assert [s[0]] + rest <= s;
      assert !(delim <= [s[0]] + rest);
      assert ([s[0]] + rest)[1..] == rest;
      [s[0]] + rest
  }

  /** Text whose first character does not open `delim` runs up to the `delim` that follows it. */
  lemma {:induction false} UpToBefore(inner: string, delim: string, rest: string)
    requires delim != [] && delim[0] !in inner
    ensures UpTo(inner + delim + rest, delim) == inner
    decreases |inner|
  {
    if inner != [] {
      var s := inner + delim + rest;
      assert s[0] != delim[0];
      assert s[1..] == inner[1..] + delim + rest;
      UpToBefore(inner[1..], delim, rest);
    }
  }

  /**
   * A reply that starts with a fence is replaced by the stripped text between
   * the first two fences (`content.split("```")[1].strip()`); then a leading
   * `json` tag is dropped and the rest stripped.
   */
  function StripFences(content: string): string {
    Untagged(if Fence <= content then Strip(UpTo(content[|Fence|..], Fence)) else content)
  }

  /**
   * After a leading fence is handled no fence is left in the text; a reply
   * with neither a fence nor a `json` tag at its start is left as it is.
   */
  lemma StripFencesResult(content: string)
    ensures Fence <= content ==> !Contains(StripFences(content), Fence)
    ensures !(Fence <= content) && !(JsonTag <= content) ==> StripFences(content) == content
  {
    if Fence <= content {
      var c := Strip(UpTo(content[|Fence|..], Fence));
      StripKeepsAbsence(UpTo(content[|Fence|..], Fence), Fence);
      if JsonTag <= c {
        if Contains(c[|JsonTag|..], Fence) {
          ContainsInSuffix(c, |JsonTag|, Fence);
        }
        StripKeepsAbsence(c[|JsonTag|..], Fence);
      }
    }
  }

  /** A leading `json` tag is dropped and the rest stripped. */
  function Untagged(c: string): string {
    if JsonTag <= c then Strip(c[|JsonTag|..]) else c
  }

  /**
   * A fenced reply keeps the stripped text between its first two fences
   * (then a leading `json` tag is dropped): for `"```" + inner + "```" +
   * rest` with no backtick in `inner`, that is `inner`.
   */
  lemma FencedReply(inner: string, rest: string)
    requires '`' !in inner
    ensures StripFences(Fence + inner + Fence + rest) == Untagged(Strip(inner))
  {
    var content := Fence + inner + Fence + rest;
    assert content[|Fence|..] == inner + Fence + rest;
    UpToBefore(inner, Fence, rest);
  }

  /** The text handed to `json.loads`; `None` for a failed call. */
  function ReplyText(reply: Reply): (r: Option<string>)
    ensures reply.CallFailed? <==> r.None?
  {
    match reply
    case CallFailed(_) => None
    case Reply(content) => Some(StripFences(Strip(content.GetOr(""))))
  }
}
