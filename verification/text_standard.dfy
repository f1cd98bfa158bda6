/** The consensus grade (`text_standard`): every grade formula casts two votes,
    its floor and its ceiling; the reading-ease score casts one or two votes
    from a bucket table; the result is the most frequent vote, ties going to
    the value first seen in the vote list. */
module Consensus {
  import opened Numeric
  import opened Util

  /** The eight formula scores the consensus reads, each for one (text, lang). */
  datatype Scores = Scores(
    fleschKincaidGrade: real,
    fleschReadingEase: real,
    smogIndex: real,
    colemanLiauIndex: real,
    automatedReadabilityIndex: real,
    daleChallReadabilityScore: real,
    linsearWriteFormula: real,
    gunningFog: real)

  /** The seven grade formulas in the order they vote. */
  function GradeScore(s: Scores, k: nat): real
    requires k < 7
  {
    [s.fleschKincaidGrade, s.smogIndex, s.colemanLiauIndex, s.automatedReadabilityIndex,
     s.daleChallReadabilityScore, s.linsearWriteFormula, s.gunningFog][k]
  }

  /** The reading-ease bucket table: the [60, 70) bucket votes twice. */
  function EaseVotes(score: real): (v: seq<int>)
    ensures |v| == (if 60.0 <= score < 70.0 then 2 else 1)
    ensures forall k :: 0 <= k < |v| ==> 5 <= v[k] <= 13
    ensures score < 30.0 || 100.0 <= score ==> v == [13]
  {
    if score < 100.0 && score >= 90.0 then [5]
    else if score < 90.0 && score >= 80.0 then [6]
    else if score < 80.0 && score >= 70.0 then [7]
    else if score < 70.0 && score >= 60.0 then [8, 9]
    else if score < 60.0 && score >= 50.0 then [10]
    else if score < 50.0 && score >= 40.0 then [11]
    else if score < 40.0 && score >= 30.0 then [12]
    else [13]
  }

  /** Within the table's range [30, 100) an easier text never gets a higher
      grade, and a text in a strictly higher bucket gets strictly lower votes. */
  lemma EaseVotesAntitone(lo: real, hi: real)
    requires 30.0 <= lo <= hi < 100.0
    ensures EaseVotes(hi)[|EaseVotes(hi)| - 1] <= EaseVotes(lo)[|EaseVotes(lo)| - 1]
    ensures Floor(lo / 10.0) < Floor(hi / 10.0) ==>
              EaseVotes(hi)[|EaseVotes(hi)| - 1] < EaseVotes(lo)[0]
  {
  }

  /** The two votes of one grade formula: its floor, then its ceiling. */
  function Pair(score: real): (v: seq<int>)
  {
    [Floor(score), Ceil(score)]
  }

  /** The vote list in the order `text_standard` appends to it. */
  function Votes(s: Scores): (v: seq<int>)
    ensures |v| == (if 60.0 <= s.fleschReadingEase < 70.0 then 16 else 15)
  {
    Pair(s.fleschKincaidGrade)
    + EaseVotes(s.fleschReadingEase)
    + Pair(s.smogIndex)
    + Pair(s.colemanLiauIndex)
    + Pair(s.automatedReadabilityIndex)
    + Pair(s.daleChallReadabilityScore)
    + Pair(s.linsearWriteFormula)
    + Pair(s.gunningFog)
  }

  /** Layout of the vote list: FK's pair first, then the reading-ease votes,
      then one floor/ceiling pair per formula in the fixed order; the two
      votes of a pair are equal or one apart. */
  lemma VoteLayout(s: Scores)
    ensures var e := |EaseVotes(s.fleschReadingEase)|;
      && Votes(s)[2..2 + e] == EaseVotes(s.fleschReadingEase)
      && (forall k :: 0 <= k < 7 ==>
            var at := if k == 0 then 0 else e + 2 * k;
            && Votes(s)[at] == Floor(GradeScore(s, k))
            && Votes(s)[at + 1] == Ceil(GradeScore(s, k))
            && Votes(s)[at] <= Votes(s)[at + 1] <= Votes(s)[at] + 1)
  {
    var ev := EaseVotes(s.fleschReadingEase);
    var e := |ev|;
    var front := Pair(s.fleschKincaidGrade);
    var tail := GradePairs(s);
    VotesSpelled(s);
    assert (front + ev + tail)[2..2 + e] == ev;
    forall k | 0 <= k < 7
      ensures var at := if k == 0 then 0 else e + 2 * k;
        && Votes(s)[at] == Floor(GradeScore(s, k))
        && Votes(s)[at + 1] == Ceil(GradeScore(s, k))
        && Votes(s)[at] <= Votes(s)[at + 1] <= Votes(s)[at] + 1
    {
      FloorCeilAdjacent(GradeScore(s, k));
      if k > 0 {
        assert Votes(s)[e + 2 * k] == tail[2 * k - 2];
        assert Votes(s)[e + 2 * k + 1] == tail[2 * k - 1];
      }
    }
  }

  /** The votes of the six formulas after the reading ease, pair by pair. */
  function GradePairs(s: Scores): (v: seq<int>)
    ensures |v| == 12
    ensures forall k :: 1 <= k < 7 ==>
      v[2 * k - 2] == Floor(GradeScore(s, k)) && v[2 * k - 1] == Ceil(GradeScore(s, k))
  {
    [Floor(s.smogIndex), Ceil(s.smogIndex),
     Floor(s.colemanLiauIndex), Ceil(s.colemanLiauIndex),
     Floor(s.automatedReadabilityIndex), Ceil(s.automatedReadabilityIndex),
     Floor(s.daleChallReadabilityScore), Ceil(s.daleChallReadabilityScore),
     Floor(s.linsearWriteFormula), Ceil(s.linsearWriteFormula),
     Floor(s.gunningFog), Ceil(s.gunningFog)]
  }

  lemma VotesSpelled(s: Scores)
    ensures Votes(s) == Pair(s.fleschKincaidGrade) + EaseVotes(s.fleschReadingEase) + GradePairs(s)
  {
  }

  // ---------------------------------------------------------------------------
  // Counting votes

  /** How many times `x` was voted. */
  function Occurrences(votes: seq<int>, x: int): nat
  {
    CountIf(votes, y => y == x)
  }

  lemma OccurrencesAppend(a: seq<int>, b: seq<int>, x: int)
    ensures Occurrences(a + b, x) == Occurrences(a, x) + Occurrences(b, x)
  {
    CountIfAppend(a, b, y => y == x);
  }

  lemma OccurrencesSnoc(a: seq<int>, v: int, x: int)
    ensures Occurrences(a + [v], x) == Occurrences(a, x) + (if v == x then 1 else 0)
  {
    OccurrencesAppend(a, [v], x);
    assert [v][..0] == [];
  }

  /** First position holding `x`. */
  ghost function FirstIndex(votes: seq<int>, x: int): (i: nat)
    requires x in votes
    ensures i < |votes| && votes[i] == x && x !in votes[..i]
  {
    if votes[0] == x then 0
    else
      var i := 1 + FirstIndex(votes[1..], x);
      assert votes[..i] == [votes[0]] + votes[1..][..i - 1];
      i
  }

  lemma OccurrencesAbsent(a: seq<int>, x: int)
    requires x !in a
    ensures Occurrences(a, x) == 0
  {
    CountIfNone(a, y => y == x);
  }

  /** The most common vote, ties broken by first appearance: `g` is a vote, no
      vote occurs more often than `g`, and every vote occurring as often as
      `g` sits no earlier than the first occurrence of `g`. */
  ghost predicate IsConsensus(votes: seq<int>, g: int)
  {
    && g in votes
    && (forall i :: 0 <= i < |votes| ==> Occurrences(votes, votes[i]) <= Occurrences(votes, g))
    && (forall i :: 0 <= i < |votes| && Occurrences(votes, votes[i]) == Occurrences(votes, g) ==>
          FirstIndex(votes, g) <= i)
  }

  /** The distinct votes in order of first appearance (the key order of
      `Counter`, which keeps insertion order). */
  function Distinct(votes: seq<int>): (d: seq<int>)
  {
    if votes == [] then []
    else
      var d := Distinct(votes[..|votes| - 1]);
      if votes[|votes| - 1] in d then d else d + [votes[|votes| - 1]]
  }

  lemma {:induction false} DistinctMembers(votes: seq<int>)
    ensures forall x :: x in Distinct(votes) <==> x in votes
    ensures forall a, b :: 0 <= a < b < |Distinct(votes)| ==> Distinct(votes)[a] != Distinct(votes)[b]
  {
    if votes != [] {
      var init := votes[..|votes| - 1];
      DistinctMembers(init);
      assert votes == init + [votes[|votes| - 1]];
    }
  }

  /** The keys seen after a prefix of the votes are a prefix of all the keys. */
  lemma {:induction false} DistinctPrefix(votes: seq<int>, j: nat)
    requires j <= |votes|
    ensures |Distinct(votes[..j])| <= |Distinct(votes)|
    ensures Distinct(votes[..j]) == Distinct(votes)[..|Distinct(votes[..j])|]
    decreases |votes|
  {
    if j == |votes| {
      assert votes[..j] == votes;
    } else {
      var init := votes[..|votes| - 1];
      DistinctPrefix(init, j);
      assert init[..j] == votes[..j];
    }
  }

  /** Two values that both meet the consensus condition first appear at the
      same place, hence are equal: `text_standard` is deterministic. */
  lemma ConsensusUnique(votes: seq<int>, a: int, b: int)
    requires IsConsensus(votes, a) && IsConsensus(votes, b)
    ensures a == b
  {
    ConsensusFirst(votes, a, b);
    ConsensusFirst(votes, b, a);
  }

  lemma ConsensusFirst(votes: seq<int>, a: int, b: int)
    requires IsConsensus(votes, a) && IsConsensus(votes, b)
    ensures FirstIndex(votes, a) <= FirstIndex(votes, b)
  {
    var ia := FirstIndex(votes, a);
    var ib := FirstIndex(votes, b);
    ConsensusAt(votes, a, ib);
    ConsensusAt(votes, b, ia);
  }

  lemma ConsensusAt(votes: seq<int>, g: int, i: nat)
    requires IsConsensus(votes, g) && i < |votes|
    ensures Occurrences(votes, votes[i]) <= Occurrences(votes, g)
    ensures Occurrences(votes, votes[i]) == Occurrences(votes, g) ==> FirstIndex(votes, g) <= i
  {
  }

  /** Taking the first key of maximal count, in key order, yields the consensus. */
  lemma FirstMaximalKey(votes: seq<int>, best: nat)
    requires best < |Distinct(votes)|
    requires forall m :: 0 <= m < |Distinct(votes)| ==>
      Occurrences(votes, Distinct(votes)[m]) <= Occurrences(votes, Distinct(votes)[best])
    requires forall m :: 0 <= m < best ==>
      Occurrences(votes, Distinct(votes)[m]) < Occurrences(votes, Distinct(votes)[best])
    ensures IsConsensus(votes, Distinct(votes)[best])
  {
    var keys := Distinct(votes);
    var g := keys[best];
    DistinctMembers(votes);
    forall i | 0 <= i < |votes|
      ensures Occurrences(votes, votes[i]) <= Occurrences(votes, g)
      ensures Occurrences(votes, votes[i]) == Occurrences(votes, g) ==> FirstIndex(votes, g) <= i
    {
      var x := votes[i];
      assert x in keys;
      var m :| 0 <= m < |keys| && keys[m] == x;
      if Occurrences(votes, x) == Occurrences(votes, g) {
        FirstMaximalTie(votes, best, i);
      }
    }
  }

  /** A vote tying with the first maximal key first appears no earlier than
      that key: among the keys seen up to it, the key comes first. */
  lemma FirstMaximalTie(votes: seq<int>, best: nat, i: nat)
    requires best < |Distinct(votes)| && i < |votes|
    requires forall m :: 0 <= m < best ==>
      Occurrences(votes, Distinct(votes)[m]) < Occurrences(votes, Distinct(votes)[best])
    requires Occurrences(votes, votes[i]) == Occurrences(votes, Distinct(votes)[best])
    ensures Distinct(votes)[best] in votes && FirstIndex(votes, Distinct(votes)[best]) <= i
  {
    var keys := Distinct(votes);
    var g := keys[best];
    var x := votes[i];
    var prefix := votes[..i + 1];
    DistinctMembers(votes);
    DistinctPrefix(votes, i + 1);
    DistinctMembers(prefix);
    var seen := Distinct(prefix);
    assert prefix[i] == x;
    var m :| 0 <= m < |seen| && seen[m] == x;
    assert keys[m] == x;
    assert best <= m;
    assert seen[best] == g;
    assert g in prefix;
  }

  /** `Counter(votes)`: the count of every vote, and the keys in order of
      first appearance. */
  method Tally(votes: seq<int>) returns (counts: map<int, nat>, keys: seq<int>)
    ensures keys == Distinct(votes)
    ensures forall x :: x in counts <==> x in votes
    ensures forall x :: x in counts ==> counts[x] == Occurrences(votes, x)
  {
    counts := map[];
    keys := [];
    var i := 0;
    while i < |votes|
      invariant 0 <= i <= |votes|
      invariant Tallied(votes[..i], counts, keys)
    {
      var x := votes[i];
      assert votes[..i + 1] == votes[..i] + [x];
      if x in counts {
        TallyBump(votes[..i], x, counts, keys);
        counts := counts[x := counts[x] + 1];
      } else {
        TallyNew(votes[..i], x, counts, keys);
        counts := counts[x := 1];
        keys := keys + [x];
      }
      i := i + 1;
    }
    assert votes[..i] == votes;
  }

  /** `counts` and `keys` are the tally of `prefix`. */
  ghost predicate Tallied(prefix: seq<int>, counts: map<int, nat>, keys: seq<int>)
  {
    && keys == Distinct(prefix)
    && (forall x :: x in counts <==> x in prefix)
    && (forall x :: x in counts ==> counts[x] == Occurrences(prefix, x))
  }

  /** Counting a vote already seen bumps its count and keeps the keys. */
  lemma TallyBump(prefix: seq<int>, x: int, counts: map<int, nat>, keys: seq<int>)
    requires Tallied(prefix, counts, keys) && x in counts
    ensures Tallied(prefix + [x], counts[x := counts[x] + 1], keys)
  {
    var next := prefix + [x];
    assert next[..|next| - 1] == prefix && next[|next| - 1] == x;
    DistinctMembers(prefix);
    assert Distinct(next) == keys;
    var bumped := counts[x := counts[x] + 1];
    forall y | y in bumped
      ensures bumped[y] == Occurrences(next, y)
    {
      OccurrencesSnoc(prefix, x, y);
    }
    forall y
      ensures y in bumped <==> y in next
    {
      assert y in next <==> y in prefix || y == x;
    }
  }

  /** Counting a new vote gives it count 1 and appends it to the keys. */
  lemma TallyNew(prefix: seq<int>, x: int, counts: map<int, nat>, keys: seq<int>)
    requires Tallied(prefix, counts, keys) && x !in counts
    ensures Tallied(prefix + [x], counts[x := 1], keys + [x])
  {
    var next := prefix + [x];
    assert next[..|next| - 1] == prefix && next[|next| - 1] == x;
    DistinctMembers(prefix);
    assert Distinct(next) == keys + [x];
    OccurrencesAbsent(prefix, x);
    var added := counts[x := 1];
    forall y | y in added
      ensures added[y] == Occurrences(next, y)
    {
      OccurrencesSnoc(prefix, x, y);
    }
    forall y
      ensures y in added <==> y in next
    {
      assert y in next <==> y in prefix || y == x;
    }
  }

  /** `Counter(votes).most_common(1)[0][0]`: tally the votes, then keep the
      first key, in key order, of strictly larger count. */
  method MostCommon(votes: seq<int>) returns (g: int)
    requires |votes| > 0
    ensures IsConsensus(votes, g)
  {
    var counts, keys := Tally(votes);
    DistinctMembers(votes);
    assert votes[0] in votes;
    assert forall x :: x in keys <==> x in counts;
    var best := 0;
    g := keys[0];
    var j := 1;
    while j < |keys|
      invariant 1 <= j <= |keys|
      invariant 0 <= best < j && g == keys[best]
      invariant forall m :: 0 <= m < j ==> counts[keys[m]] <= counts[g]
      invariant forall m :: 0 <= m < best ==> counts[keys[m]] < counts[g]
    {
      if counts[keys[j]] > counts[g] {
        best, g := j, keys[j];
      }
      j := j + 1;
    }
    assert forall m :: 0 <= m < |keys| ==> counts[keys[m]] == Occurrences(votes, keys[m]);
    FirstMaximalKey(votes, best);
  }

  /** `lower = math.floor(score); upper = math.ceil(score)`, then both appended. */
  method AppendFloorCeil(grade: seq<int>, score: real) returns (grade': seq<int>)
    ensures grade' == grade + Pair(score)
  {
    var lower := Floor(score);
    var upper := Ceil(score);
    grade' := grade + [lower];
    grade' := grade' + [upper];
  }

  /** `text_standard(text, lang)` on the scores of that text: builds the vote
      list by successive appends and returns the most common vote as a float. */
  method TextStandard(s: Scores) returns (standard: real)
    ensures standard == Floor(standard) as real
    ensures IsConsensus(Votes(s), Floor(standard))
  {
    var grade: seq<int> := [];
    grade := AppendFloorCeil(grade, s.fleschKincaidGrade);

    var score := s.fleschReadingEase;
    if score < 100.0 && score >= 90.0 {
      grade := grade + [5];
    } else if score < 90.0 && score >= 80.0 {
      grade := grade + [6];
    } else if score < 80.0 && score >= 70.0 {
      grade := grade + [7];
    } else if score < 70.0 && score >= 60.0 {
      grade := grade + [8];
      grade := grade + [9];
    } else if score < 60.0 && score >= 50.0 {
      grade := grade + [10];
    } else if score < 50.0 && score >= 40.0 {
      grade := grade + [11];
    } else if score < 40.0 && score >= 30.0 {
      grade := grade + [12];
    } else {
      grade := grade + [13];
    }
    assert grade == Pair(s.fleschKincaidGrade) + EaseVotes(score);

    grade := AppendFloorCeil(grade, s.smogIndex);
    grade := AppendFloorCeil(grade, s.colemanLiauIndex);
    grade := AppendFloorCeil(grade, s.automatedReadabilityIndex);
    grade := AppendFloorCeil(grade, s.daleChallReadabilityScore);
    grade := AppendFloorCeil(grade, s.linsearWriteFormula);
    grade := AppendFloorCeil(grade, s.gunningFog);

    // Counter(grade).most_common(1)[0][0]
    var g := MostCommon(grade);
    standard := g as real;
    assert Floor(standard) == g;
  }

  /** When every grade formula scores 0.0 (the empty text), their fourteen
      zero votes outnumber the at most two reading-ease votes, so the
      consensus is 0 whatever the reading ease. */
  lemma AllZeroGrades(s: Scores, g: int)
    requires forall k :: 0 <= k < 7 ==> GradeScore(s, k) == 0.0
    requires IsConsensus(Votes(s), g)
    ensures g == 0
  {
    var votes := Votes(s);
    var ease := EaseVotes(s.fleschReadingEase);
    var z := Pair(s.fleschKincaidGrade);
    var tail := GradePairs(s);
    VotesSpelled(s);
    ZeroGradeVotes(s);
    OccurrencesAppend(z + ease, tail, 0);
    OccurrencesAppend(z, ease, 0);
    OccurrencesAppend(z + ease, tail, g);
    OccurrencesAppend(z, ease, g);
    assert Occurrences(votes, 0) >= 14;
    ConsensusAt(votes, g, 0);
    if g != 0 {
      OccurrencesAbsent(tail, g);
      OccurrencesAbsent(z, g);
      assert false;
    }
  }

  lemma ZeroGradeVotes(s: Scores)
    requires forall k :: 0 <= k < 7 ==> GradeScore(s, k) == 0.0
    ensures Pair(s.fleschKincaidGrade) == [0, 0]
    ensures forall i :: 0 <= i < 12 ==> GradePairs(s)[i] == 0
    ensures Occurrences(Pair(s.fleschKincaidGrade), 0) == 2
    ensures Occurrences(GradePairs(s), 0) == 12
  {
    assert GradeScore(s, 0) == 0.0 && GradeScore(s, 1) == 0.0 && GradeScore(s, 2) == 0.0
      && GradeScore(s, 3) == 0.0 && GradeScore(s, 4) == 0.0 && GradeScore(s, 5) == 0.0
      && GradeScore(s, 6) == 0.0;
    assert Floor(0.0) == 0 && Ceil(0.0) == 0;
    CountIfAll(Pair(s.fleschKincaidGrade), y => y == 0);
    CountIfAll(GradePairs(s), y => y == 0);
  }
}
