/** `chars_per_word`: the average word length in characters. */
module WordLengths {
  import opened Collaborators

  /** `chars_per_word(text, ignore_spaces)`: characters over words; when
      there are no words the division fails and the raw character count is
      returned instead. Both paths count characters with the same flag,
      which defaults to ignoring spaces. */
  function CharsPerWord(env: Backend, text: string, ignoreSpaces: bool := true): (r: real)
    ensures 0.0 <= r <= env.countChars(text, ignoreSpaces) as real
    ensures env.countWords(text) > 0
        ==> r * env.countWords(text) as real == env.countChars(text, ignoreSpaces) as real
    ensures env.countWords(text) == 0 ==> r == env.countChars(text, ignoreSpaces) as real
  {
    var chars := env.countChars(text, ignoreSpaces) as real;
    var words := env.countWords(text);
    if words == 0 then chars
    else
      AverageBounds(chars, words as real);
      chars / words as real
  }

  lemma AverageBounds(chars: real, words: real)
    requires 0.0 <= chars && 1.0 <= words
    ensures 0.0 <= chars / words <= chars
    ensures (chars / words) * words == chars
  {
    assert chars - chars / words == chars * (words - 1.0) / words;
  }
}
