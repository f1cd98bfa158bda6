/** `count_arabic_syllables`: short vowel marks (tashkeel) followed by a long
    vowel letter count as long syllables, other marks as short ones; stress
    marks count double; without any short syllable the count falls back to
    "length of the stripped text minus 2". */
module ArabicSyllables {
  import opened Util
  import opened Collaborators

  const Fatha: char := '\U{064E}'
  const Damma: char := '\U{064F}'
  const Kasra: char := '\U{0650}'
  const Alef: char := '\U{0627}'
  const AlefMaksura: char := '\U{0649}'
  const Waw: char := '\U{0648}'
  const Yaa: char := '\U{064A}'

  /** The tashkeel tokens as the source writes them: raw strings, so each is
      a backslash, a 'u' and four hex digits, six characters in all. */
  const RawTashkeel: seq<string> := ["\\u064E", "\\u064F", "\\u0650"]

  /** The tokens the comments describe: the single characters fatha, damma, kasra. */
  const Tashkeel: seq<string> := [[Fatha], [Damma], [Kasra]]

  /** Alef, waw or yaa: the letters that lengthen a preceding short vowel. */
  predicate IsLongVowel(c: char)
  {
    c == Alef || c == Waw || c == Yaa
  }

  /** Tanween fath, tanween damm, tanween kasr and shadda. */
  predicate IsStress(c: char)
  {
    c == '\U{064B}' || c == '\U{064C}' || c == '\U{064D}' || c == '\U{0651}'
  }

  /** The class `[اى\?\.\!\,\s*]` of the fallback substitution. */
  predicate IsFiller(env: Backend, c: char)
  {
    c == Alef || c == AlefMaksura || c == '?' || c == '.' || c == '!' || c == ',' || c == '*'
    || env.isSpace(c)
  }

  /** The filler class as a character test. */
  function Filler(env: Backend): char -> bool
  {
    c => IsFiller(env, c)
  }

  /** The fallback substitution: the text with every filler character
      deleted, so it is shorter by exactly the number of fillers in it. */
  function Stripped(env: Backend, text: string): (r: string)
    ensures |r| == |text| - CountIf(text, Filler(env))
    ensures forall k :: 0 <= k < |r| ==> !IsFiller(env, r[k])
  {
    Delete(text, Filler(env))
  }

  /** `char_list`: the characters of the words of the punctuation-free text. */
  function CharList(env: Backend, text: string): string
  {
    Flatten(Split(env.removePunctuation(text, true), env.isSpace))
  }

  /** A match of token `t` at position `i` is long when a long vowel follows it. */
  predicate LongAt(cl: string, i: nat)
    requires i < |cl|
  {
    i + 1 < |cl| && IsLongVowel(cl[i + 1])
  }

  /** Positions below `n` where `t` matches and which count as long. */
  function LongHits(cl: string, t: string, n: nat): nat
    requires n <= |cl|
  {
    if n == 0 then 0
    else LongHits(cl, t, n - 1) + (if [cl[n - 1]] == t && LongAt(cl, n - 1) then 1 else 0)
  }

  /** Positions below `n` where `t` matches and which count as short. */
  function ShortHits(cl: string, t: string, n: nat): nat
    requires n <= |cl|
  {
    if n == 0 then 0
    else ShortHits(cl, t, n - 1) + (if [cl[n - 1]] == t && !LongAt(cl, n - 1) then 1 else 0)
  }

  /** Long syllables found by the scans for the given tokens. */
  function TotalLong(cl: string, tokens: seq<string>): nat
  {
    if tokens == [] then 0
    else TotalLong(cl, tokens[..|tokens| - 1]) + LongHits(cl, tokens[|tokens| - 1], |cl|)
  }

  /** Short syllables found by the scans for the given tokens. */
  function TotalShort(cl: string, tokens: seq<string>): nat
  {
    if tokens == [] then 0
    else TotalShort(cl, tokens[..|tokens| - 1]) + ShortHits(cl, tokens[|tokens| - 1], |cl|)
  }

  /** The value `count_arabic_syllables` returns for the given token list. */
  function ArabicSyllables(env: Backend, text: string, tokens: seq<string>): (r: int)
    ensures r >= 2 * CountIf(text, IsStress) - 2
  {
    var cl := CharList(env, text);
    var short := TotalShort(cl, tokens);
    var long := TotalLong(cl, tokens);
    var stress := CountIf(text, IsStress);
    (if short == 0 then |Stripped(env, text)| - 2 else short) + 2 * (long + stress)
  }

  /** `count_arabic_syllables(text)` with the token list as a parameter: one
      scan of `char_list` per token, then the stress count, then the fallback. */
  method CountArabicSyllables(env: Backend, text: string, tashkeel: seq<string>) returns (r: int)
    ensures r == ArabicSyllables(env, text, tashkeel)
  {
    var shortCount := 0;
    var longCount := 0;
    var charList := Flatten(Split(env.removePunctuation(text, true), env.isSpace));

    for ti := 0 to |tashkeel|
      invariant shortCount == TotalShort(charList, tashkeel[..ti])
      invariant longCount == TotalLong(charList, tashkeel[..ti])
    {
      var t := tashkeel[ti];
      assert tashkeel[..ti + 1][..ti] == tashkeel[..ti];
      for i := 0 to |charList|
        invariant shortCount == TotalShort(charList, tashkeel[..ti]) + ShortHits(charList, t, i)
        invariant longCount == TotalLong(charList, tashkeel[..ti]) + LongHits(charList, t, i)
      {
        var c := charList[i];
        if [c] != t {
          continue;
        }
        if i + 1 < |charList| && IsLongVowel(charList[i + 1]) {
          longCount := longCount + 1;
        } else {
          shortCount := shortCount + 1;
        }
      }
    }
    assert tashkeel[..|tashkeel|] == tashkeel;

    var stressCount := CountIf(text, IsStress);

    var text' := text;
    if shortCount == 0 {
      text' := Stripped(env, text);
      shortCount := |text'| - 2;
    }
    r := shortCount + 2 * (longCount + stressCount);
  }

  /** Every position where a token matches feeds exactly one counter. */
  lemma {:induction false} HitsPartition(cl: string, t: string, n: nat)
    requires n <= |cl|
    ensures LongHits(cl, t, n) + ShortHits(cl, t, n) == CountIf(cl[..n], c => [c] == t)
  {
    if n > 0 {
      HitsPartition(cl, t, n - 1);
      assert cl[..n][..n - 1] == cl[..n - 1];
    }
  }

  /** A token that is not a single character never matches. */
  lemma {:induction false} NoHitsForLongToken(cl: string, t: string, n: nat)
    requires n <= |cl| && |t| != 1
    ensures LongHits(cl, t, n) == 0 && ShortHits(cl, t, n) == 0
  {
    if n > 0 {
      NoHitsForLongToken(cl, t, n - 1);
    }
  }

  lemma {:induction false} NoHitsForLongTokens(cl: string, tokens: seq<string>)
    requires forall k :: 0 <= k < |tokens| ==> |tokens[k]| != 1
    ensures TotalLong(cl, tokens) == 0 && TotalShort(cl, tokens) == 0
  {
    if tokens != [] {
      NoHitsForLongTokens(cl, tokens[..|tokens| - 1]);
      NoHitsForLongToken(cl, tokens[|tokens| - 1], |cl|);
    }
  }

  /** With the six-character tokens as written, no mark is ever found, so the
      result is always the fallback: the stripped length minus 2 plus twice
      the stress marks; it is never below -2 (and is -2 for the empty text). */
  lemma RawTokensCollapse(env: Backend, text: string)
    ensures ArabicSyllables(env, text, RawTashkeel)
         == |Stripped(env, text)| - 2 + 2 * CountIf(text, IsStress)
    ensures ArabicSyllables(env, text, RawTashkeel) >= -2
    ensures text == [] ==> ArabicSyllables(env, text, RawTashkeel) == -2
  {
    assert |RawTashkeel[0]| == 6 && |RawTashkeel[1]| == 6 && |RawTashkeel[2]| == 6;
    NoHitsForLongTokens(CharList(env, text), RawTashkeel);
  }

  /** U+0641 U+064E U+0627 (feh, fatha, alef): the code as written returns 0. */
  lemma RawTokensExample(env: Backend)
    requires !env.isSpace('\U{0641}') && !env.isSpace(Fatha)
    ensures ArabicSyllables(env, ['\U{0641}', Fatha, Alef], RawTashkeel) == 0
  {
    var text := ['\U{0641}', Fatha, Alef];
    RawTokensCollapse(env, text);
    ExampleStripped(env, text);
    assert CountIf(text, IsStress) == 0 by {
      CountIfNone(text, IsStress);
    }
  }

  /** Of feh, fatha and alef, only the alef is a filler. */
  lemma ExampleStripped(env: Backend, text: string)
    requires text == ['\U{0641}', Fatha, Alef]
    requires !env.isSpace('\U{0641}') && !env.isSpace(Fatha)
    ensures |Stripped(env, text)| == 2
  {
    var f := Filler(env);
    assert f(Alef) && !f(Fatha) && !f('\U{0641}');
    var t2 := text[..2];
    var t1 := t2[..1];
    assert t2 == ['\U{0641}', Fatha] && t1 == ['\U{0641}'] && t1[..0] == [];
    assert CountIf(t1, f) == 0;
    assert CountIf(t2, f) == 0;
    assert CountIf(text, f) == 1;
  }

  /** With single-character tokens, the fatha followed by alef is one long
      syllable: the short count stays 0, the fallback adds the stripped length
      minus 2 (= 0), and the total is 2. */
  lemma CorrectedTokensExample(env: Backend)
    requires !env.isSpace('\U{0641}') && !env.isSpace(Fatha) && !env.isSpace(Alef)
    requires env.removePunctuation(['\U{0641}', Fatha, Alef], true) == ['\U{0641}', Fatha, Alef]
    ensures ArabicSyllables(env, ['\U{0641}', Fatha, Alef], Tashkeel) == 2
  {
    var text := ['\U{0641}', Fatha, Alef];
    ExampleCharList(env, text);
    ExampleTotals(text);
    ExampleStripped(env, text);
    CountIfNone(text, IsStress);
  }

  lemma ExampleCharList(env: Backend, text: string)
    requires text == ['\U{0641}', Fatha, Alef]
    requires !env.isSpace('\U{0641}') && !env.isSpace(Fatha) && !env.isSpace(Alef)
    requires env.removePunctuation(text, true) == text
    ensures CharList(env, text) == text
  {
    FlattenSplit(text, env.isSpace);
    DeleteNone(text, env.isSpace);
  }

  lemma ExampleTotals(cl: string)
    requires cl == ['\U{0641}', Fatha, Alef]
    ensures TotalLong(cl, Tashkeel) == 1 && TotalShort(cl, Tashkeel) == 0
  {
    assert LongAt(cl, 1);
    HitsOfExample(cl, [Fatha], 1);
    HitsOfExample(cl, [Damma], 0);
    HitsOfExample(cl, [Kasra], 0);
    var t1, t2 := Tashkeel[..1], Tashkeel[..2];
    assert t1 == [[Fatha]] && t2 == [[Fatha], [Damma]];
    assert t2[..1] == t1 && t1[..0] == [];
    assert TotalLong(cl, t1) == 1 && TotalShort(cl, t1) == 0;
    assert TotalLong(cl, t2) == 1 && TotalShort(cl, t2) == 0;
  }

  lemma HitsOfExample(cl: string, t: string, long: nat)
    requires |cl| == 3 && |t| == 1 && t[0] != cl[0] && t[0] != cl[2]
    requires LongAt(cl, 1) && long == (if t[0] == cl[1] then 1 else 0)
    ensures LongHits(cl, t, 3) == long && ShortHits(cl, t, 3) == 0
  {
    assert [cl[0]] != t && [cl[2]] != t;
    assert [cl[1]] == t <==> t[0] == cl[1];
    assert LongHits(cl, t, 1) == 0 && ShortHits(cl, t, 1) == 0;
    assert LongHits(cl, t, 2) == long && ShortHits(cl, t, 2) == 0;
  }
}
