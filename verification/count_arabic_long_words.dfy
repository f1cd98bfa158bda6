/** `count_arabic_long_words`: delete the short-vowel diacritics (tashkeel),
    remove punctuation, and count the whitespace-separated tokens longer than
    five characters. */
module ArabicLongWords {
  import opened Util
  import opened Collaborators

  /** The eleven diacritics the substitution deletes: U+064B through U+0653,
      U+0657 and U+0658. */
  predicate IsTashkeel(c: char)
  {
    ('\U{064B}' <= c <= '\U{0653}') || c == '\U{0657}' || c == '\U{0658}'
  }

  /** `re.sub(tashkeel, "", text)`: the text with every diacritic deleted and
      every other character kept, in order. */
  function StripTashkeel(text: string): (r: string)
    ensures |r| == |text| - CountIf(text, IsTashkeel)
    ensures forall k :: 0 <= k < |r| ==> !IsTashkeel(r[k])
  {
    Delete(text, IsTashkeel)
  }

  /** A token counts as long when it has more than five characters. */
  predicate IsLongWord(t: string)
  {
    |t| > 5
  }

  /** The tokens the loop runs over. */
  function Tokens(env: Backend, text: string): seq<string>
  {
    Split(env.removePunctuation(StripTashkeel(text), true), env.isSpace)
  }

  /** The value `count_arabic_long_words` returns. */
  function LongWordCount(env: Backend, text: string): (n: nat)
    ensures n <= |Tokens(env, text)|
  {
    CountIf(Tokens(env, text), IsLongWord)
  }

  /** `count_arabic_long_words(text)`: rewrite the text twice, then count the
      long tokens in a loop. */
  method CountArabicLongWords(env: Backend, text: string) returns (count: int)
    ensures count == LongWordCount(env, text)
  {
    var cleaned := StripTashkeel(text);
    cleaned := env.removePunctuation(cleaned, true);

    count := 0;
    var tokens := Split(cleaned, env.isSpace);
    for i := 0 to |tokens|
      invariant count == CountIf(tokens[..i], IsLongWord)
    {
      assert tokens[..i + 1][..i] == tokens[..i];
      if |tokens[i]| > 5 {
        count := count + 1;
      }
    }
    assert tokens[..|tokens|] == tokens;
  }

  /** Stripping changes a text exactly when it holds a diacritic: every other
      character survives. */
  lemma StripTashkeelExactly(text: string)
    ensures StripTashkeel(text) == text <==> CountIf(text, IsTashkeel) == 0
    ensures CountIf(text, IsTashkeel) == 0 <==> forall k :: 0 <= k < |text| ==> !IsTashkeel(text[k])
  {
    CountIfIsIndexCount(text, IsTashkeel);
    if forall k :: 0 <= k < |text| ==> !IsTashkeel(text[k]) {
      assert MatchingIndices(text, IsTashkeel) == {};
      DeleteNone(text, IsTashkeel);
    } else {
      var k :| 0 <= k < |text| && IsTashkeel(text[k]);
      assert k in MatchingIndices(text, IsTashkeel);
    }
  }

  /** Inserting a diacritic anywhere in the input (or, read backwards,
      deleting one) does not change the count. */
  lemma DiacriticInsertionInvariant(env: Backend, a: string, d: char, b: string)
    requires IsTashkeel(d)
    ensures LongWordCount(env, a + [d] + b) == LongWordCount(env, a + b)
  {
    DeleteAppend(a + [d], b, IsTashkeel);
    DeleteAppend(a, [d], IsTashkeel);
    DeleteAppend(a, b, IsTashkeel);
    DeleteSingle(d, IsTashkeel);
    assert StripTashkeel(a + [d] + b) == StripTashkeel(a + b);
  }

  /** The count is the number of token positions holding more than five
      characters, so a token of exactly five is not counted and a text with
      no tokens gives 0. */
  lemma LongWordCountIsIndexCount(env: Backend, text: string)
    ensures var ts := Tokens(env, text);
      LongWordCount(env, text) == |set i: nat | i < |ts| && |ts[i]| > 5|
    ensures Tokens(env, text) == [] ==> LongWordCount(env, text) == 0
  {
    var ts := Tokens(env, text);
    CountIfIsIndexCount(ts, IsLongWord);
    assert MatchingIndices(ts, IsLongWord) == set i: nat | i < |ts| && |ts[i]| > 5;
  }

  /** A single token of five characters is not counted; one of six is. */
  lemma SingleTokenCount(env: Backend, text: string, w: string)
    requires Tokens(env, text) == [w]
    ensures |w| == 5 ==> LongWordCount(env, text) == 0
    ensures |w| == 6 ==> LongWordCount(env, text) == 1
  {
    assert [w][..0] == [];
  }
}
