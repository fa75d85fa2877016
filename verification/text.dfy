/**
 * String helpers with Python's semantics, shared by every other module:
 * `str.lower`, `str.strip`, `str.split("\n")`, `"\n".join`, `str.split()`,
 * `re.findall(r"\b\w+\b", ...)`, the `in` substring test and the prefix slice
 * `xs[:k]` (negative `k` counts from the end).
 * Character classes are the ASCII ones (see README, "Left out").
 */
module Text {
  import opened Seqs

  datatype Option<+T> = None | Some(value: T) {
    function GetOr(default: T): T {
      match this
      case Some(v) => v
      case None => default
    }
  }

  // ---------------------------------------------------------------------
  // Characters

  /** Python's `str.isspace` restricted to ASCII. */
  predicate IsSpace(c: char) {
    c == ' ' || ('\t' <= c <= '\r') || ('\U{1C}' <= c <= '\U{1F}')
  }

  /** The characters the regular expression class `\w` matches, restricted to ASCII. */
  predicate IsWordChar(c: char) {
    ('a' <= c <= 'z') || ('A' <= c <= 'Z') || ('0' <= c <= '9') || c == '_'
  }

  predicate IsNotSpace(c: char) {
    !IsSpace(c)
  }

  function LowerChar(c: char): (r: char)
    ensures !('A' <= r <= 'Z')
    ensures !('A' <= c <= 'Z') ==> r == c
  {
    if 'A' <= c <= 'Z' then (c as int + 32) as char else c
  }

  /**
   * `s.lower()`: same length, no upper-case letter left, every upper-case
   * letter replaced by its lower-case form and every other character kept.
   */
  function Lower(s: string): (r: string)
    ensures |r| == |s|
    ensures forall i :: 0 <= i < |r| ==> !('A' <= r[i] <= 'Z')
    ensures forall i :: 0 <= i < |s| && 'A' <= s[i] <= 'Z' ==> r[i] as int == s[i] as int + 32
    ensures forall i :: 0 <= i < |s| && !('A' <= s[i] <= 'Z') ==> r[i] == s[i]
  {
    seq(|s|, i requires 0 <= i < |s| => LowerChar(s[i]))
  }

  /** Lowercasing twice is lowercasing once. */
  lemma LowerIdempotent(s: string)
    ensures Lower(Lower(s)) == Lower(s)
  {
  }

  // ---------------------------------------------------------------------
  // Substrings and prefixes

  /** Python's `needle in hay` on strings. */
  predicate Contains(hay: string, needle: string)
    decreases |hay|
  {
    needle <= hay || (hay != [] && Contains(hay[1..], needle))
  }

  lemma {:induction false} ContainsNeedsRoom(hay: string, needle: string)
    requires Contains(hay, needle)
    ensures |needle| <= |hay|
  {
    if !(needle <= hay) {
      ContainsNeedsRoom(hay[1..], needle);
    }
  }

  /** Whatever occurs in a prefix of `s` occurs in `s`. */
  lemma {:induction false} ContainsInPrefix(p: string, s: string, needle: string)
    requires p <= s && Contains(p, needle)
    ensures Contains(s, needle)
  {
    if !(needle <= p) {
      assert p[1..] <= s[1..];
      ContainsInPrefix(p[1..], s[1..], needle);
    }
  }

  /** Whatever occurs in the suffix `s[k..]` occurs in `s`. */
  lemma {:induction false} ContainsInSuffix(s: string, k: nat, needle: string)
    requires k <= |s| && Contains(s[k..], needle)
    ensures Contains(s, needle)
  {
    if k > 0 {
      assert s[1..][k - 1..] == s[k..];
      ContainsInSuffix(s[1..], k - 1, needle);
    }
  }

  /** `xs[:k]` for a Python list or string: a negative `k` drops `-k` elements from the end. */
  function PyTake<T>(xs: seq<T>, k: int): (r: seq<T>)
    ensures r <= xs
    ensures k >= 0 ==> |r| == if k < |xs| then k else |xs|
    ensures k < 0 ==> |r| == if |xs| + k < 0 then 0 else |xs| + k
  {
    if k >= 0 then
      (if k < |xs| then xs[..k] else xs)
    else
      (if |xs| + k < 0 then [] else xs[..|xs| + k])
  }

  // ---------------------------------------------------------------------
  // strip

  /** `s.strip()`: leading and trailing whitespace removed. */
  function Strip(s: string): string
    decreases |s|
  {
    if s != [] && IsSpace(s[0]) then Strip(s[1..])
    else if s != [] && IsSpace(s[|s| - 1]) then Strip(s[..|s| - 1])
    else s
  }

  /** A stripped string neither starts nor ends with whitespace. */
  predicate IsStripped(s: string) {
    s == [] || (!IsSpace(s[0]) && !IsSpace(s[|s| - 1]))
  }

  /** Only whitespace lies before `i` and from `j` on. */
  predicate SpaceOutside(s: string, i: nat, j: nat)
    requires i <= j <= |s|
  {
    (forall k :: 0 <= k < i ==> IsSpace(s[k])) && (forall k :: j <= k < |s| ==> IsSpace(s[k]))
  }

  /** The result of `strip` is stripped, so stripping twice is stripping once. */
  lemma {:induction false} StripResult(s: string)
    ensures IsStripped(Strip(s))
    ensures Strip(Strip(s)) == Strip(s)
    decreases |s|
  {
    if s != [] && IsSpace(s[0]) {
      StripResult(s[1..]);
    } else if s != [] && IsSpace(s[|s| - 1]) {
      StripResult(s[..|s| - 1]);
    }
  }

  /**
   * `strip` removes exactly the leading and trailing whitespace: the result
   * is a slice `s[i..j]` with only whitespace outside it, and (by
   * `StripResult`) it neither starts nor ends with whitespace.
   */
  lemma {:induction false} StripSlice(s: string)
    ensures exists i, j :: 0 <= i <= j <= |s| && Strip(s) == s[i..j] && SpaceOutside(s, i, j)
    decreases |s|
  {
    if s != [] && IsSpace(s[0]) {
      var tail := s[1..];
      StripSlice(tail);
      var i, j :| 0 <= i <= j <= |tail| && Strip(tail) == tail[i..j] && SpaceOutside(tail, i, j);
      SpaceOutsideCons(s, i, j);
      assert Strip(s) == s[i + 1..j + 1];
    } else if s != [] && IsSpace(s[|s| - 1]) {
      var init := s[..|s| - 1];
      StripSlice(init);
      var i, j :| 0 <= i <= j <= |init| && Strip(init) == init[i..j] && SpaceOutside(init, i, j);
      SpaceOutsideSnoc(s, i, j);
      assert Strip(s) == s[i..j];
    } else {
      assert Strip(s) == s[0..|s|];
    }
  }

  /** Whitespace outside a slice of `s[1..]` stays outside it when a leading space is put back. */
  lemma SpaceOutsideCons(s: string, i: nat, j: nat)
    requires s != [] && IsSpace(s[0])
    requires i <= j <= |s| - 1 && SpaceOutside(s[1..], i, j)
    ensures SpaceOutside(s, i + 1, j + 1)
  {
    forall k | 0 < k < i + 1 ensures IsSpace(s[k]) {
      assert s[k] == s[1..][k - 1];
    }
    forall k | j + 1 <= k < |s| ensures IsSpace(s[k]) {
      assert s[k] == s[1..][k - 1];
    }
  }

  /** Whitespace outside a slice of `s[..|s| - 1]` stays outside it when a trailing space is put back. */
  lemma SpaceOutsideSnoc(s: string, i: nat, j: nat)
    requires s != [] && IsSpace(s[|s| - 1])
    requires i <= j <= |s| - 1 && SpaceOutside(s[..|s| - 1], i, j)
    ensures SpaceOutside(s, i, j)
  {
    assert forall k :: 0 <= k < |s| - 1 ==> s[k] == s[..|s| - 1][k];
  }

  /** Stripping never creates an occurrence of a substring. */
  lemma {:induction false} StripKeepsAbsence(s: string, needle: string)
    requires !Contains(s, needle)
    ensures !Contains(Strip(s), needle)
    decreases |s|
  {
    if s != [] && IsSpace(s[0]) {
      StripKeepsAbsence(s[1..], needle);
    } else if s != [] && IsSpace(s[|s| - 1]) {
      if Contains(s[..|s| - 1], needle) {
        ContainsInPrefix(s[..|s| - 1], s, needle);
      }
      StripKeepsAbsence(s[..|s| - 1], needle);
    }
  }

  // ---------------------------------------------------------------------
  // split on one character and join

  /** `s.split(sep)` for a one-character separator: never empty, `""` gives `[""]`. */
  function Split(s: string, sep: char): (parts: seq<string>)
    ensures |parts| >= 1
    decreases |s|
  {
    if s == [] then [[]]
    else
      var rest := Split(s[1..], sep);
      if s[0] == sep then [[]] + rest
      else [[s[0]] + rest[0]] + rest[1..]
  }

  /** `sep.join(parts)` for a one-character separator. */
  function Join(parts: seq<string>, sep: char): string
    decreases |parts|
  {
    if |parts| == 0 then []
    else if |parts| == 1 then parts[0]
    else parts[0] + [sep] + Join(parts[1..], sep)
  }

  predicate NoSep(parts: seq<string>, sep: char) {
    forall i :: 0 <= i < |parts| ==> sep !in parts[i]
  }

  /** No part produced by `split` contains the separator. */
  lemma {:induction false} SplitPartsHaveNoSep(s: string, sep: char)
    ensures NoSep(Split(s, sep), sep)
    decreases |s|
  {
    if s != [] {
      SplitPartsHaveNoSep(s[1..], sep);
    }
  }

  /** Joining what `split` produced gives the string back. */
  lemma {:induction false} JoinSplit(s: string, sep: char)
    ensures Join(Split(s, sep), sep) == s
    decreases |s|
  {
    if s != [] {
      var rest := Split(s[1..], sep);
      JoinSplit(s[1..], sep);
      if s[0] == sep {
        assert ([[]] + rest)[1..] == rest;
      } else {
        var parts := [[s[0]] + rest[0]] + rest[1..];
        if |rest| == 1 {
          assert parts == [[s[0]] + rest[0]];
        } else {
          assert parts[1..] == rest[1..];
          assert Join(rest, sep) == rest[0] + [sep] + Join(rest[1..], sep);
        }
      }
    }
  }

  lemma {:induction false} SplitWithoutSep(s: string, sep: char)
    requires sep !in s
    ensures Split(s, sep) == [s]
    decreases |s|
  {
    if s != [] {
      SplitWithoutSep(s[1..], sep);
      assert [s[0]] + s[1..] == s;
    }
  }

  lemma {:induction false} SplitAfterPart(p: string, t: string, sep: char)
    requires sep !in p
    ensures Split(p + [sep] + t, sep) == [p] + Split(t, sep)
    decreases |p|
  {
    var s := p + [sep] + t;
    if p == [] {
      assert s[1..] == t;
    } else {
      assert s[1..] == p[1..] + [sep] + t;
      SplitAfterPart(p[1..], t, sep);
      assert [p[0]] + p[1..] == p;
    }
  }

  /** A separator between two texts separates their parts. */
  lemma {:induction false} SplitConcat(a: string, b: string, sep: char)
    ensures Split(a + [sep] + b, sep) == Split(a, sep) + Split(b, sep)
    decreases |a|
  {
    var s := a + [sep] + b;
    if a == [] {
      assert s[1..] == b;
    } else {
      assert s[1..] == a[1..] + [sep] + b;
      SplitConcat(a[1..], b, sep);
    }
  }

  /** Splitting what was joined gives the parts back, when no part holds the separator. */
  lemma {:induction false} SplitJoin(parts: seq<string>, sep: char)
    requires |parts| >= 1 && NoSep(parts, sep)
    ensures Split(Join(parts, sep), sep) == parts
    decreases |parts|
  {
    if |parts| == 1 {
      SplitWithoutSep(parts[0], sep);
    } else {
      SplitJoin(parts[1..], sep);
      SplitAfterPart(parts[0], Join(parts[1..], sep), sep);
      assert [parts[0]] + parts[1..] == parts;
    }
  }

  /** Joining the first `k` parts gives a prefix of joining all of them. */
  lemma {:induction false} JoinTakeIsPrefix(parts: seq<string>, k: nat, sep: char)
    requires k <= |parts|
    ensures Join(parts[..k], sep) <= Join(parts, sep)
    decreases |parts|
  {
    if k >= 2 {
      JoinTakeIsPrefix(parts[1..], k - 1, sep);
      assert parts[..k][1..] == parts[1..][..k - 1];
    } else if k == 1 && |parts| >= 2 {
      assert parts[..k] == [parts[0]];
    }
  }

  /** Joining one more part adds a separator and that part. */
  lemma {:induction false} JoinSnoc(parts: seq<string>, x: string, sep: char)
    requires |parts| >= 1
    ensures Join(parts + [x], sep) == Join(parts, sep) + [sep] + x
    decreases |parts|
  {
    if |parts| == 1 {
      assert (parts + [x])[1..] == [x];
    } else {
      JoinSnoc(parts[1..], x, sep);
      assert (parts + [x])[1..] == parts[1..] + [x];
    }
  }

  // ---------------------------------------------------------------------
  // tokens

  /** Length of the run of characters satisfying `p` at the start of `s`. */
  function RunLength(s: string, p: char -> bool): (n: nat)
    ensures n <= |s|
    ensures forall i :: 0 <= i < n ==> p(s[i])
    ensures n < |s| ==> !p(s[n])
    decreases |s|
  {
    if s == [] || !p(s[0]) then 0 else 1 + RunLength(s[1..], p)
  }

  /** The maximal non-empty runs of characters satisfying `p`, in order. */
  function Runs(s: string, p: char -> bool): seq<string>
    decreases |s|
  {
    if s == [] then []
    else if !p(s[0]) then Runs(s[1..], p)
    else
      var n := RunLength(s, p);
      [s[..n]] + Runs(s[n..], p)
  }

  /** `re.findall(r"\b\w+\b", s)`: the maximal runs of word characters. */
  function Words(s: string): seq<string> {
    Runs(s, IsWordChar)
  }

  /** `s.split()` with no argument: the maximal runs of non-whitespace. */
  function Fields(s: string): seq<string> {
    Runs(s, IsNotSpace)
  }

  /**
   * The pieces of `s` between the characters that fail `p`, empty ones
   * included (`re.split(r"\W", s)` for word characters).
   */
  function Pieces(s: string, p: char -> bool): (parts: seq<string>)
    ensures |parts| >= 1
    decreases |s|
  {
    if s == [] then [[]]
    else
      var rest := Pieces(s[1..], p);
      if !p(s[0]) then [[]] + rest
      else [[s[0]] + rest[0]] + rest[1..]
  }

  predicate NonEmpty(w: string) {
    w != []
  }

  /** A leading stretch of `p` characters is glued to the front of the first piece. */
  lemma {:induction false} PiecesAfterRun(s: string, p: char -> bool, k: nat)
    requires k <= |s|
    requires forall i :: 0 <= i < k ==> p(s[i])
    ensures Pieces(s, p)[0] == s[..k] + Pieces(s[k..], p)[0]
    ensures Pieces(s, p)[1..] == Pieces(s[k..], p)[1..]
    decreases k
  {
    if k > 0 {
      PiecesAfterRun(s[1..], p, k - 1);
      assert s[1..][k - 1..] == s[k..];
      assert s[..k] == [s[0]] + s[1..][..k - 1];
    }
  }

  /** Every run is non-empty and made only of characters satisfying `p`. */
  lemma {:induction false} RunsAreRuns(s: string, p: char -> bool)
    ensures forall i :: 0 <= i < |Runs(s, p)| ==> Runs(s, p)[i] != []
    ensures forall i, j :: 0 <= i < |Runs(s, p)| && 0 <= j < |Runs(s, p)[i]| ==> p(Runs(s, p)[i][j])
    decreases |s|
  {
    if s != [] {
      if !p(s[0]) {
        RunsAreRuns(s[1..], p);
      } else {
        RunsAreRuns(s[RunLength(s, p)..], p);
      }
    }
  }

  /**
   * The runs are exactly the non-empty pieces between the characters that
   * fail `p`, in order: no character satisfying `p` is missed and no run is
   * cut short or merged with the next.
   */
  lemma {:induction false} RunsArePieces(s: string, p: char -> bool)
    ensures Runs(s, p) == Filter(Pieces(s, p), NonEmpty)
    decreases |s|
  {
    if s != [] {
      if !p(s[0]) {
        RunsArePieces(s[1..], p);
        FilterCons([], Pieces(s[1..], p), NonEmpty);
      } else {
        var n := RunLength(s, p);
        if n == |s| {
          RunStopsAtEnd(s, p);
        } else {
          RunsArePieces(s[n + 1..], p);
          RunStopsBeforeSeparator(s, p);
        }
      }
    }
  }

  /** A run that reaches the end of the text is its only piece. */
  lemma RunStopsAtEnd(s: string, p: char -> bool)
    requires s != [] && p(s[0]) && RunLength(s, p) == |s|
    ensures Runs(s, p) == [s] == Filter(Pieces(s, p), NonEmpty)
  {
    var n := |s|;
    PiecesAfterRun(s, p, n);
    assert s[n..] == [] && s[..n] == s;
    assert Pieces(s, p)[0] == s && Pieces(s, p)[1..] == [];
    assert Pieces(s, p) == [s];
    assert Filter([s], NonEmpty) == Filter([s][..0], NonEmpty) + [s];
  }

  /** A run that stops at a separator is the first piece, and the rest follows the separator. */
  lemma RunStopsBeforeSeparator(s: string, p: char -> bool)
    requires s != [] && p(s[0]) && RunLength(s, p) < |s|
    ensures var n := RunLength(s, p);
      && Runs(s, p) == [s[..n]] + Runs(s[n + 1..], p)
      && Filter(Pieces(s, p), NonEmpty) == [s[..n]] + Filter(Pieces(s[n + 1..], p), NonEmpty)
  {
    var n := RunLength(s, p);
    var after := s[n + 1..];
    PiecesAfterRun(s, p, n);
    assert s[n..][1..] == after;
    assert Pieces(s[n..], p) == [[]] + Pieces(after, p);
    assert Pieces(s[n..], p)[0] == [] && Pieces(s[n..], p)[1..] == Pieces(after, p);
    assert s[..n] + [] == s[..n];
    assert Pieces(s, p)[0] == s[..n] && Pieces(s, p)[1..] == Pieces(after, p);
    assert Pieces(s, p) == [s[..n]] + Pieces(after, p);
    FilterCons(s[..n], Pieces(after, p), NonEmpty);
  }
}
