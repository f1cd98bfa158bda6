/** `count_sentences`: segment the text with `re.findall(r"\b[^.!?]+[.!?]*")`,
    ignore segments of at most two words, and floor the result at 1. */
module Sentences {
  import opened Util
  import opened Collaborators

  /** The sentence-terminal marks. */
  predicate IsTerminal(c: char)
  {
    c == '.' || c == '!' || c == '?'
  }

  /** `\b` at position `p`: exactly one of the characters around `p` is a
      word character (a position outside the text counts as a non-word one). */
  predicate AtBoundary(text: string, isWord: char -> bool, p: nat)
    requires p <= |text|
  {
    (p > 0 && isWord(text[p - 1])) != (p < |text| && isWord(text[p]))
  }

  /** End of the maximal run of non-terminal characters from `p` (`[^.!?]+`, greedy). */
  function NonTerminalRun(text: string, p: nat): (e: nat)
    requires p <= |text|
    ensures p <= e <= |text|
    ensures forall k :: p <= k < e ==> !IsTerminal(text[k])
    ensures e < |text| ==> IsTerminal(text[e])
    decreases |text| - p
  {
    if p < |text| && !IsTerminal(text[p]) then NonTerminalRun(text, p + 1) else p
  }

  /** End of the maximal run of terminal marks from `p` (`[.!?]*`, greedy). */
  function TerminalRun(text: string, p: nat): (e: nat)
    requires p <= |text|
    ensures p <= e <= |text|
    ensures forall k :: p <= k < e ==> IsTerminal(text[k])
    ensures e < |text| ==> !IsTerminal(text[e])
    decreases |text| - p
  {
    if p < |text| && IsTerminal(text[p]) then TerminalRun(text, p + 1) else p
  }

  /** A match of the pattern: text[start..end]. */
  datatype Span = Span(start: nat, end: nat)

  /** End of the pattern's match starting at `p`, if it matches there. The
      greedy `[^.!?]+` never needs to backtrack, since `[.!?]*` always matches. */
  function MatchAt(text: string, isWord: char -> bool, p: nat): (m: Option<nat>)
    requires p <= |text|
    ensures m.Some? ==> p < m.value <= |text|
  {
    if p < |text| && AtBoundary(text, isWord, p) && !IsTerminal(text[p]) then
      Some(TerminalRun(text, NonTerminalRun(text, p)))
    else None
  }

  /** `re.findall` from position `p`: the leftmost match, then the search
      resumes where it ended; where nothing matches, one position further. */
  function FindAll(text: string, isWord: char -> bool, p: nat): (spans: seq<Span>)
    requires p <= |text|
    ensures forall i :: 0 <= i < |spans| ==> p <= spans[i].start < spans[i].end <= |text|
    decreases |text| - p
  {
    if p == |text| then []
    else match MatchAt(text, isWord, p)
      case Some(e) => [Span(p, e)] + FindAll(text, isWord, e)
      case None => FindAll(text, isWord, p + 1)
  }

  /** The matched substrings, in order. */
  function SpanTexts(text: string, spans: seq<Span>): (segs: seq<string>)
    requires forall i :: 0 <= i < |spans| ==> spans[i].start <= spans[i].end <= |text|
    ensures |segs| == |spans|
    ensures forall i :: 0 <= i < |spans| ==> segs[i] == text[spans[i].start..spans[i].end]
  {
    if spans == [] then []
    else [text[spans[0].start..spans[0].end]] + SpanTexts(text, spans[1..])
  }

  /** `re.findall(r"\b[^.!?]+[.!?]*", text, re.UNICODE)`. */
  function Segments(text: string, isWord: char -> bool): (segs: seq<string>)
    ensures |segs| == |FindAll(text, isWord, 0)|
    ensures forall i :: 0 <= i < |segs| ==> |segs[i]| > 0 && !IsTerminal(segs[i][0])
    ensures forall i, j, k :: 0 <= i < |segs| && 0 <= j < k < |segs[i]| && IsTerminal(segs[i][j]) ==>
      IsTerminal(segs[i][k])
  {
    var spans := FindAll(text, isWord, 0);
    FindAllMatches(text, isWord, 0);
    var segs := SpanTexts(text, spans);
    assert forall i, j :: 0 <= i < |segs| && 0 <= j < |segs[i]| ==>
      segs[i][j] == text[spans[i].start + j];
    segs
  }

  /** What one match looks like: it starts at a word boundary with a
      non-terminal character, terminal marks occur in it only as a suffix,
      the suffix of marks is maximal, and the non-terminal run before it is
      maximal (a match that stops before the end of the text ends in a mark). */
  predicate IsSentenceMatch(text: string, isWord: char -> bool, sp: Span)
  {
    && sp.start < sp.end <= |text|
    && AtBoundary(text, isWord, sp.start)
    && !IsTerminal(text[sp.start])
    && (forall i, j :: sp.start <= i < j < sp.end && IsTerminal(text[i]) ==> IsTerminal(text[j]))
    && (sp.end < |text| ==> !IsTerminal(text[sp.end]) && IsTerminal(text[sp.end - 1]))
  }

  /** Every span `findall` reports is a match of the pattern, and the spans
      are in order and do not overlap. */
  lemma {:induction false} FindAllMatches(text: string, isWord: char -> bool, p: nat)
    requires p <= |text|
    ensures var spans := FindAll(text, isWord, p);
      && (forall i :: 0 <= i < |spans| ==> IsSentenceMatch(text, isWord, spans[i]))
      && (forall i :: 0 < i < |spans| ==> spans[i - 1].end <= spans[i].start)
    decreases |text| - p
  {
    if p < |text| {
      match MatchAt(text, isWord, p)
      case Some(e) =>
        FindAllMatches(text, isWord, e);
        var m := NonTerminalRun(text, p);
        assert IsSentenceMatch(text, isWord, Span(p, e));
        var spans := FindAll(text, isWord, p);
        assert spans == [Span(p, e)] + FindAll(text, isWord, e);
      case None =>
        FindAllMatches(text, isWord, p + 1);
        assert FindAll(text, isWord, p) == FindAll(text, isWord, p + 1);
    }
  }

  /** Nothing is skipped: every position from `p` on where a match could
      start (a word boundary before a non-mark) lies inside a reported span. */
  lemma {:induction false} FindAllComplete(text: string, isWord: char -> bool, p: nat, q: nat)
    requires p <= q < |text|
    requires AtBoundary(text, isWord, q) && !IsTerminal(text[q])
    ensures var spans := FindAll(text, isWord, p);
      exists i :: 0 <= i < |spans| && spans[i].start <= q < spans[i].end
    decreases |text| - p
  {
    var spans := FindAll(text, isWord, p);
    match MatchAt(text, isWord, p)
    case Some(e) =>
      assert spans == [Span(p, e)] + FindAll(text, isWord, e);
      if q < e {
        assert spans[0].start <= q < spans[0].end;
      } else {
        FindAllComplete(text, isWord, e, q);
        var rest := FindAll(text, isWord, e);
        var i :| 0 <= i < |rest| && rest[i].start <= q < rest[i].end;
        assert spans[i + 1] == rest[i];
      }
    case None =>
      assert p != q;
      FindAllComplete(text, isWord, p + 1, q);
      assert spans == FindAll(text, isWord, p + 1);
      assert exists j :: 0 <= j < |spans| && spans[j].start <= q < spans[j].end;
      assert spans == FindAll(text, isWord, p);
  }

  /** A text made only of terminal marks (or empty) has no segments. */
  lemma {:induction false} OnlyMarksNoSegments(text: string, isWord: char -> bool, p: nat)
    requires p <= |text|
    requires forall k :: 0 <= k < |text| ==> IsTerminal(text[k])
    ensures FindAll(text, isWord, p) == []
    decreases |text| - p
  {
    if p < |text| {
      OnlyMarksNoSegments(text, isWord, p + 1);
    }
  }

  /** A segment is ignored when it has at most two words. */
  function IsFragment(env: Backend): string -> bool
  {
    seg => env.countWords(seg) <= 2
  }

  /** The value `count_sentences` returns: never below 1. */
  function SentenceCount(env: Backend, text: string): (n: nat)
    ensures n >= 1
  {
    var segs := Segments(text, env.isWordChar);
    var ignored := CountIf(segs, IsFragment(env));
    if |segs| - ignored > 1 then |segs| - ignored else 1
  }

  /** `count_sentences(text)`: counts the ignored segments in a loop over the
      `findall` result and returns `max(1, len(sentences) - ignore_count)`. */
  method CountSentences(env: Backend, text: string) returns (n: int)
    ensures n == SentenceCount(env, text)
  {
    var ignoreCount := 0;
    var sentences := Segments(text, env.isWordChar);
    for i := 0 to |sentences|
      invariant ignoreCount == CountIf(sentences[..i], IsFragment(env))
    {
      assert sentences[..i + 1][..i] == sentences[..i];
      if env.countWords(sentences[i]) <= 2 {
        ignoreCount := ignoreCount + 1;
      }
    }
    assert sentences[..|sentences|] == sentences;
    n := if 1 > |sentences| - ignoreCount then 1 else |sentences| - ignoreCount;
  }

  /** The count is `max(1, #segments - #segments of at most two words)`,
      counting segments by position, and never exceeds `max(1, #segments)`. */
  lemma SentenceCountBounds(env: Backend, text: string)
    ensures var segs := Segments(text, env.isWordChar);
      var short := set i: nat | i < |segs| && env.countWords(segs[i]) <= 2;
      && SentenceCount(env, text) == (if |segs| - |short| > 1 then |segs| - |short| else 1)
      && SentenceCount(env, text) <= (if |segs| > 1 then |segs| else 1)
  {
    var segs := Segments(text, env.isWordChar);
    CountIfIsIndexCount(segs, IsFragment(env));
    assert MatchingIndices(segs, IsFragment(env))
        == set i: nat | i < |segs| && env.countWords(segs[i]) <= 2;
  }

  /** The empty text, or one holding only terminal marks, counts as one sentence. */
  lemma OnlyMarksCountOne(env: Backend, text: string)
    requires forall k :: 0 <= k < |text| ==> IsTerminal(text[k])
    ensures Segments(text, env.isWordChar) == []
    ensures SentenceCount(env, text) == 1
  {
    OnlyMarksNoSegments(text, env.isWordChar, 0);
  }
}
