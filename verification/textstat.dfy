/** The `textstatistics` front end: the per-instance settings (language,
    rounding, apostrophe handling), the output rounding they control, and the
    grade-band rendering of the consensus grade. */
module Textstat {
  import opened Util
  import opened Collaborators
  import opened Numeric
  import opened Consensus

  /** What a front-end method returns: a float, an int or a string. */
  datatype Output = Float(x: real) | Int(n: int) | Str(s: string)

  /** The scores `text_standard(text, lang)` reads, in one record. */
  function ScoresOf(env: Backend, text: string, lang: string): Scores
  {
    Scores(env.fleschKincaidGrade(text, lang), env.fleschReadingEase(text, lang),
           env.smogIndex(text, lang), env.colemanLiauIndex(text),
           env.automatedReadabilityIndex(text), env.daleChallReadabilityScore(text, lang),
           env.linsearWriteFormula(text, lang), env.gunningFog(text, lang))
  }

  /** "{lower}{suffix} and {upper}{suffix} grade" with upper = lower + 1. */
  function Band(env: Backend, lower: int): string
  {
    IntToString(lower) + env.gradeSuffix(lower) + " and "
    + IntToString(lower + 1) + env.gradeSuffix(lower + 1) + " grade"
  }

  /** The band as the code renders it: it starts one below `int(value)`. */
  function GradeBand(env: Backend, standardValue: real): (r: string)
    ensures ReadsAsBand(env, r, Trunc(standardValue) - 1)
  {
    BandReadsBack(env, Trunc(standardValue) - 1);
    Band(env, Trunc(standardValue) - 1)
  }

  /** The band the tests expect: it starts at `int(value)`. */
  function IntendedGradeBand(env: Backend, standardValue: real): (r: string)
    ensures ReadsAsBand(env, r, Trunc(standardValue))
  {
    BandReadsBack(env, Trunc(standardValue));
    Band(env, Trunc(standardValue))
  }

  /** `band` reads as the grades `lower` and `lower + 1`, each followed by
      its suffix from `env`, joined by " and " and ending in " grade". */
  ghost predicate ReadsAsBand(env: Backend, band: string, lower: int)
  {
    BandOf(band, lower, env.gradeSuffix(lower), env.gradeSuffix(lower + 1))
  }

  /** `band` is exactly the decimal numeral of `lower`, then `sa`, then
      " and ", then the numeral of `lower + 1`, then `sb`, then " grade";
      `BandNumeralsReadBack` reads the two numerals back. */
  ghost predicate BandOf(band: string, lower: int, sa: string, sb: string)
  {
    var n1 := |IntToString(lower)|;
    var k := n1 + |sa| + 5;
    var n2 := |IntToString(lower + 1)|;
    && |band| == k + n2 + |sb| + 6
    && band[..n1] == IntToString(lower)
    && band[n1..n1 + |sa|] == sa
    && band[n1 + |sa|..k] == " and "
    && band[k..k + n2] == IntToString(lower + 1)
    && band[k + n2..|band| - 6] == sb
    && band[|band| - 6..] == " grade"
  }

  /** A band is made of the numerals of `lower` and `lower + 1`, each
      followed by its suffix, joined by " and ", and ends in " grade". */
  lemma BandReadsBack(env: Backend, lower: int)
    ensures ReadsAsBand(env, Band(env, lower), lower)
  {
    BandOfParts(lower, env.gradeSuffix(lower), env.gradeSuffix(lower + 1));
  }

  /** A bare sign is not a numeral: the band for 0 must open with "0". */
  lemma BandRejectsBareSign()
    ensures !BandOf("-th and 1st grade", 0, "th", "st")
  {
    assert IntToString(0) == "0";
    assert "-th and 1st grade"[..1] == "-";
  }

  /** Rendering the two numerals around any suffixes gives a band made of
      exactly those parts. */
  lemma BandOfParts(lower: int, sa: string, sb: string)
    ensures BandOf(IntToString(lower) + sa + " and " + IntToString(lower + 1) + sb + " grade",
                   lower, sa, sb)
  {
    BandLayout(IntToString(lower), sa, IntToString(lower + 1), sb);
  }

  /** The two numerals of any band read back as `lower` and `lower + 1`. */
  lemma BandNumeralsReadBack(band: string, lower: int, sa: string, sb: string)
    requires BandOf(band, lower, sa, sb)
    ensures ParseInt(band[..|IntToString(lower)|]) == Some(lower)
    ensures var k := |IntToString(lower)| + |sa| + 5;
      ParseInt(band[k..k + |IntToString(lower + 1)|]) == Some(lower + 1)
  {
    IntToStringRoundTrip(lower);
    IntToStringRoundTrip(lower + 1);
  }

  /** Where each of the six parts of "{a}{sa} and {b}{sb} grade" sits. */
  lemma BandLayout(a: string, sa: string, b: string, sb: string)
    ensures var band := a + sa + " and " + b + sb + " grade";
      var k := |a| + |sa| + 5;
      && |band| == k + |b| + |sb| + 6
      && band[..|a|] == a
      && band[|a|..|a| + |sa|] == sa
      && band[|a| + |sa|..k] == " and "
      && band[k..k + |b|] == b
      && band[k + |b|..|band| - 6] == sb
      && band[|band| - 6..] == " grade"
  {
    var front := a + sa + " and ";
    var band := front + b + (sb + " grade");
    assert a + sa + " and " + b + sb + " grade" == band;
    FrontLayout(a, sa);
    Pieces(front, b, sb + " grade");
    Pieces(sb, " grade", "");
    assert band[..|a|] == front[..|a|];
    assert band[|a|..|a| + |sa|] == front[|a|..|a| + |sa|];
    assert band[|a| + |sa|..|front|] == front[|a| + |sa|..];
    assert band[|front| + |b|..|band| - 6] == (sb + " grade")[..|sb|];
    assert band[|band| - 6..] == (sb + " grade")[|sb|..];
  }

  /** Where the numeral, the suffix and " and " sit in "{a}{sa} and ". */
  lemma FrontLayout(a: string, sa: string)
    ensures (a + sa + " and ")[..|a|] == a
    ensures (a + sa + " and ")[|a|..|a| + |sa|] == sa
    ensures (a + sa + " and ")[|a| + |sa|..] == " and "
  {
    Pieces(a, sa, " and ");
  }

  /** The band's first numeral reads back as `lower`. */
  lemma BandFirstNumeral(env: Backend, lower: int)
    ensures ParseInt(Band(env, lower)[..|IntToString(lower)|]) == Some(lower)
  {
    var a := IntToString(lower);
    var rest := env.gradeSuffix(lower) + " and " + IntToString(lower + 1)
                + env.gradeSuffix(lower + 1) + " grade";
    assert Band(env, lower) == a + rest;
    Pieces(a, rest, "");
    IntToStringRoundTrip(lower);
  }

  /** Where the three parts of a concatenation sit in it. */
  lemma Pieces(x: string, y: string, z: string)
    ensures |x + y + z| == |x| + |y| + |z|
    ensures (x + y + z)[..|x|] == x
    ensures (x + y + z)[|x|..|x| + |y|] == y
    ensures (x + y + z)[|x| + |y|..] == z
  {
  }

  /** As rendered, an integral grade `v` yields a band whose first numeral
      reads back as `v - 1`; the intended band's first numeral reads back as
      `v` itself. */
  lemma GradeBandOffByOne(env: Backend, v: int)
    ensures GradeBand(env, v as real) == Band(env, v - 1)
    ensures IntendedGradeBand(env, v as real) == Band(env, v)
    ensures ParseInt(GradeBand(env, v as real)[..|IntToString(v - 1)|]) == Some(v - 1)
    ensures ParseInt(IntendedGradeBand(env, v as real)[..|IntToString(v)|]) == Some(v)
  {
    TruncOfInt(v);
    BandFirstNumeral(env, v - 1);
    BandFirstNumeral(env, v);
  }

  lemma TruncOfInt(v: int)
    ensures Trunc(v as real) == v
  {
  }

  /** The grade 0.0 is rendered as a band opening with "-1", where the
      intended band opens with "0". */
  lemma ZeroGradeBand(env: Backend)
    ensures GradeBand(env, 0.0)[..2] == "-1"
    ensures IntendedGradeBand(env, 0.0)[..1] == "0"
  {
    assert Trunc(0.0) == 0;
    assert IntToString(-1) == "-1";
    assert IntToString(0) == "0";
    assert IntToString(1) == "1";
    var band := Band(env, -1);
    assert band[..2] == "-1";
    var band' := Band(env, 0);
    assert band'[..1] == "0";
  }

  class TextStatistics {
    /** `__lang`: the locale passed to the language-dependent counts. */
    var lang: string
    /** `__round_points`: decimals for rounding outputs; None disables rounding. */
    var roundPoints: Option<int>
    /** `__rm_apostrophe`: whether punctuation removal also drops apostrophes. */
    var rmApostrophe: bool

    /** A fresh instance carries the class defaults. */
    constructor ()
      ensures lang == "en_US" && roundPoints == None && rmApostrophe
    {
      lang := "en_US";
      roundPoints := None;
      rmApostrophe := true;
    }

    /** `_legacy_round(number)`: unchanged when rounding is off, otherwise the
        value rounded to `roundPoints` decimals: a whole number of units of
        the last kept place, the nearest one (ties to even), so within half a
        unit of the value. */
    function LegacyRound(number: real): (r: real)
      reads this
      ensures roundPoints.None? ==> r == number
      ensures roundPoints.Some? ==>
        -0.5 / Pow10(roundPoints.value) <= r - number <= 0.5 / Pow10(roundPoints.value)
    {
      if roundPoints.None? then number else RoundTo(number, roundPoints.value)
    }

    /** With rounding on, the output is a whole number of units of the last
        kept place, the nearest one to the input (halves to the even one). */
    lemma LegacyRoundUnits(number: real, unit: real)
      requires roundPoints.Some? && unit == Pow10(roundPoints.value)
      ensures LegacyRound(number) * unit == RoundHalfEven(number * unit) as real
    {
      RoundToUnits(number, roundPoints.value, unit);
    }

    /** `set_rounding_points(points)`. */
    method SetRoundingPoints(points: Option<int>)
      modifies this
      ensures roundPoints == points
      ensures lang == old(lang) && rmApostrophe == old(rmApostrophe)
    {
      roundPoints := points;
    }

    /** `set_rounding(rounding, points)`: switching rounding off clears the
        points whatever was passed, after which outputs pass through unrounded. */
    method SetRounding(rounding: bool, points: Option<int> := None)
      modifies this
      ensures roundPoints == (if rounding then points else None)
      ensures lang == old(lang) && rmApostrophe == old(rmApostrophe)
      ensures !rounding ==> forall x :: LegacyRound(x) == x
    {
      if rounding {
        roundPoints := points;
      } else {
        roundPoints := None;
      }
    }

    /** `set_rm_apostrophe(rm_apostrophe)`: punctuation removal then uses the
        new flag. */
    method SetRmApostrophe(rmApostrophe: bool)
      modifies this
      ensures this.rmApostrophe == rmApostrophe
      ensures lang == old(lang) && roundPoints == old(roundPoints)
      ensures forall env, text :: RemovePunctuation(env, text) == env.removePunctuation(text, rmApostrophe)
    {
      this.rmApostrophe := rmApostrophe;
    }

    /** `set_lang(lang)`: syllables are then counted for the new language,
        and punctuation removal is unaffected. */
    method SetLang(lang: string)
      modifies this
      ensures this.lang == lang
      ensures roundPoints == old(roundPoints) && rmApostrophe == old(rmApostrophe)
      ensures forall env, text, l :: SyllableCount(env, text, l) == env.countSyllables(text, lang)
      ensures forall env, text :: RemovePunctuation(env, text) == old(RemovePunctuation(env, text))
    {
      this.lang := lang;
    }

    /** `remove_punctuation(text)`: delegates with the instance's apostrophe flag. */
    function RemovePunctuation(env: Backend, text: string): (r: string)
      reads this
      ensures r == env.removePunctuation(text, rmApostrophe)
    {
      env.removePunctuation(text, rmApostrophe)
    }

    /** `syllable_count(text, lang)`: the deprecated `lang` argument only
        triggers a warning; the instance language is used. */
    function SyllableCount(env: Backend, text: string, lang: Option<string> := None): (n: nat)
      reads this
      ensures n == env.countSyllables(text, this.lang)
    {
      env.countSyllables(text, this.lang)
    }

    /** Whatever is passed as the deprecated language, the count is the same. */
    lemma SyllableCountIgnoresLang(env: Backend, text: string, a: Option<string>, b: Option<string>)
      ensures SyllableCount(env, text, a) == SyllableCount(env, text, b) == SyllableCount(env, text)
    {
    }

    /** `spache_readability(text, float_output)`: the rounded score, or the
        score truncated toward zero by `int()`. */
    function SpacheReadability(env: Backend, text: string, floatOutput: bool := true): (r: Output)
      reads this
      ensures floatOutput ==> r == Float(LegacyRound(env.spacheReadability(text, lang)))
      ensures !floatOutput ==> r.Int?
      ensures !floatOutput ==>
        var score := env.spacheReadability(text, lang);
        (0.0 <= score ==> 0 <= r.n && r.n as real <= score < r.n as real + 1.0)
        && (score < 0.0 ==> r.n <= 0 && r.n as real - 1.0 < score <= r.n as real)
    {
      var readabilityScore := env.spacheReadability(text, lang);
      if floatOutput then Float(LegacyRound(readabilityScore))
      else Int(Trunc(readabilityScore))
    }

    /** `text_standard(text, float_output)`: the consensus grade of the
        formulas for the instance language, rounded, or rendered as a band. */
    method TextStandard(env: Backend, text: string, floatOutput: bool := false) returns (r: Output)
      ensures exists v: int ::
        (IsConsensus(Votes(ScoresOf(env, text, lang)), v)
         && r == (if floatOutput then Float(LegacyRound(v as real)) else Str(GradeBand(env, v as real))))
    {
      var standardValue := Consensus.TextStandard(ScoresOf(env, text, lang));
      if floatOutput {
        r := Float(LegacyRound(standardValue));
      } else {
        var lowerScore := Trunc(standardValue) - 1;
        var upperScore := lowerScore + 1;
        r := Str(IntToString(lowerScore) + env.gradeSuffix(lowerScore) + " and "
                 + IntToString(upperScore) + env.gradeSuffix(upperScore) + " grade");
      }
      var v := Floor(standardValue);
      assert standardValue == v as real;
      assert IsConsensus(Votes(ScoresOf(env, text, lang)), v);
    }
  }
}
