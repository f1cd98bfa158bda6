/** The readability engine's external collaborators. Their code is not part of
    this model, so each is an arbitrary (uninterpreted) function handed to the
    operations that call it; the non-negative counts are typed `nat`. */
module Collaborators {

  datatype Backend = Backend(
    /** The regular-expression class `\s` and the separator set of `str.split()`. */
    isSpace: char -> bool,
    /** The regular-expression class `\w`, which decides the word boundary `\b`. */
    isWordChar: char -> bool,
    /** `remove_punctuation(text, rm_apostrophe)`. */
    removePunctuation: (string, bool) -> string,
    /** `count_words(text)` with its default punctuation removal. */
    countWords: string -> nat,
    /** `list_words(text)`. */
    listWords: string -> seq<string>,
    /** `count_syllables(text, lang)` (hyphenation-dictionary based). */
    countSyllables: (string, string) -> nat,
    /** `count_chars(text, ignore_spaces)`. */
    countChars: (string, bool) -> nat,
    /** `count_polysyllable_words(text, lang)`. */
    countPolysyllableWords: (string, string) -> nat,
    /** `get_grade_suffix(n)`: "st", "nd", "rd" or "th". */
    gradeSuffix: int -> string,
    /** The grade formulas whose code is not part of this model. The SMOG
        index and the ARI that `text_standard` uses come from the modules
        `_smog_index` and `_automated_readability_index`, which are not part
        of this model either. */
    fleschKincaidGrade: (string, string) -> real,
    fleschReadingEase: (string, string) -> real,
    smogIndex: (string, string) -> real,
    automatedReadabilityIndex: string -> real,
    colemanLiauIndex: string -> real,
    daleChallReadabilityScore: (string, string) -> real,
    linsearWriteFormula: (string, string) -> real,
    gunningFog: (string, string) -> real,
    spacheReadability: (string, string) -> real
  )
}
