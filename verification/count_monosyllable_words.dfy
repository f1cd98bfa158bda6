/** `count_monosyllable_words`: the words of the text with exactly one syllable. */
module Monosyllables {
  import opened Util
  import opened Collaborators

  /** The filter of the list comprehension. */
  function IsMonosyllabic(env: Backend, lang: string): string -> bool
  {
    w => env.countSyllables(w, lang) == 1
  }

  /** `len([w for w in words if count_syllables(w, lang) == 1])`. */
  function CountMonosyllables(env: Backend, lang: string, words: seq<string>): (n: nat)
    ensures n <= |words|
  {
    CountIf(words, IsMonosyllabic(env, lang))
  }

  /** `count_monosyllable_words(text, lang)`. */
  function MonosyllableWords(env: Backend, text: string, lang: string): (n: nat)
    ensures n <= |env.listWords(text)|
  {
    CountMonosyllables(env, lang, env.listWords(text))
  }

  /** The count is the number of positions of the word list holding a
      one-syllable word, so an empty list gives 0. */
  lemma MonosyllablesByPosition(env: Backend, lang: string, words: seq<string>)
    ensures CountMonosyllables(env, lang, words)
         == |set i: nat | i < |words| && env.countSyllables(words[i], lang) == 1|
    ensures words == [] ==> CountMonosyllables(env, lang, words) == 0
  {
    CountIfIsIndexCount(words, IsMonosyllabic(env, lang));
    assert MatchingIndices(words, IsMonosyllabic(env, lang))
        == set i: nat | i < |words| && env.countSyllables(words[i], lang) == 1;
  }

  /** Counting is additive over the list, so every occurrence of a repeated
      word counts again: a list repeated twice counts twice as many. */
  lemma MonosyllablesPerOccurrence(env: Backend, lang: string, a: seq<string>, b: seq<string>)
    ensures CountMonosyllables(env, lang, a + b)
         == CountMonosyllables(env, lang, a) + CountMonosyllables(env, lang, b)
    ensures CountMonosyllables(env, lang, a + a) == 2 * CountMonosyllables(env, lang, a)
  {
    CountIfAppend(a, b, IsMonosyllabic(env, lang));
    CountIfAppend(a, a, IsMonosyllabic(env, lang));
  }

  /** A list of one-syllable words counts in full; a list without any counts 0. */
  lemma MonosyllablesExtremes(env: Backend, lang: string, words: seq<string>)
    ensures (forall i :: 0 <= i < |words| ==> env.countSyllables(words[i], lang) == 1)
        ==> CountMonosyllables(env, lang, words) == |words|
    ensures (forall i :: 0 <= i < |words| ==> env.countSyllables(words[i], lang) != 1)
        ==> CountMonosyllables(env, lang, words) == 0
  {
    if forall i :: 0 <= i < |words| ==> env.countSyllables(words[i], lang) == 1 {
      CountIfAll(words, IsMonosyllabic(env, lang));
    }
    if forall i :: 0 <= i < |words| ==> env.countSyllables(words[i], lang) != 1 {
      CountIfNone(words, IsMonosyllabic(env, lang));
    }
  }
}
