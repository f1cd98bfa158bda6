/** `smog_index`: 1.043 times the square root of 30 polysyllables per
    sentence, plus 3.1291; texts of fewer than three sentences score 0.0. */
module Smog {
  import opened Collaborators
  import opened Numeric
  import opened Sentences

  /** `smog_index(text, lang)`, with `x ** 0.5` taken by the given `sqrt`. */
  function SmogIndex(env: Backend, text: string, lang: string, sqrt: real -> real): (r: real)
    ensures SentenceCount(env, text) < 3 ==> r == 0.0
    ensures IsSqrt(sqrt) && SentenceCount(env, text) >= 3 ==> r >= 3.1291
  {
    var sentences := SentenceCount(env, text);
    if sentences < 3 then 0.0
    else
      var polySyllab := env.countPolysyllableWords(text, lang);
      1.043 * sqrt(30.0 * (polySyllab as real / sentences as real)) + 3.1291
  }

  /** On three or more sentences the index is at least 3.1291, and the
      polysyllable density can be read back from it: the formula is
      invertible. */
  lemma SmogFormula(env: Backend, text: string, lang: string, sqrt: real -> real)
    requires IsSqrt(sqrt)
    requires SentenceCount(env, text) >= 3
    ensures SmogIndex(env, text, lang, sqrt) >= 3.1291
    ensures var root := (SmogIndex(env, text, lang, sqrt) - 3.1291) / 1.043;
      root * root
        == 30.0 * (env.countPolysyllableWords(text, lang) as real / SentenceCount(env, text) as real)
  {
    var s := SentenceCount(env, text) as real;
    var p := env.countPolysyllableWords(text, lang) as real;
    var x := 30.0 * (p / s);
    assert 0.0 <= x;
    var root := sqrt(x);
    assert 0.0 <= root && root * root == x;
    assert (1.043 * root + 3.1291 - 3.1291) / 1.043 == root;
  }

  /** Fewer than three sentences give 0.0 whatever the polysyllable count:
      it is not consulted. The empty text is such a text. */
  lemma SmogFewSentences(env: Backend, text: string, lang: string, sqrt: real -> real,
                         poly: (string, string) -> nat)
    requires SentenceCount(env, text) < 3
    ensures SmogIndex(env, text, lang, sqrt) == 0.0
    ensures SmogIndex(env.(countPolysyllableWords := poly), text, lang, sqrt) == 0.0
  {
    assert SentenceCount(env.(countPolysyllableWords := poly), text) == SentenceCount(env, text);
  }

  /** The empty text has one sentence, so its index is 0.0. */
  lemma SmogEmptyText(env: Backend, lang: string, sqrt: real -> real)
    ensures SmogIndex(env, "", lang, sqrt) == 0.0
  {
    OnlyMarksCountOne(env, "");
  }
}
