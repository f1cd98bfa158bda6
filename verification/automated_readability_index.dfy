/** `automated_readability_index`: 4.71 characters per word plus 0.5 words
    per sentence minus 21.43. */
module ReadabilityIndex {
  import opened Collaborators
  import opened Sentences
  import opened WordLengths

  /** `automated_readability_index(text)`. */
  function AutomatedReadabilityIndex(env: Backend, text: string): (r: real)
    ensures env.countWords(text) == 0 ==> r == 0.0
    ensures env.countWords(text) > 0 ==> r > -21.43
  {
    var chrs := env.countChars(text, true);
    var words := env.countWords(text);
    var sentences := SentenceCount(env, text);
    if words == 0 then 0.0
    else
      var a := chrs as real / words as real;
      var b := words as real / sentences as real;
      4.71 * a + 0.5 * b - 21.43
  }

  /** Zero words is the only way to the 0.0 fallback (the sentence count is
      never 0); otherwise the index is the formula over the average word
      length `chars_per_word` with spaces ignored, and it exceeds -21.43. */
  lemma ReadabilityIndexFormula(env: Backend, text: string)
    ensures env.countWords(text) == 0 ==> AutomatedReadabilityIndex(env, text) == 0.0
    ensures env.countWords(text) > 0 ==>
      AutomatedReadabilityIndex(env, text)
        == 4.71 * CharsPerWord(env, text)
         + 0.5 * (env.countWords(text) as real / SentenceCount(env, text) as real) - 21.43
    ensures env.countWords(text) > 0 ==> AutomatedReadabilityIndex(env, text) > -21.43
  {
    var words := env.countWords(text);
    var sentences := SentenceCount(env, text);
    if words > 0 {
      assert CharsPerWord(env, text) == env.countChars(text, true) as real / words as real;
      assert words as real / sentences as real > 0.0;
    }
  }
}
