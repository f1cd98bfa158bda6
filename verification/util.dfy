/** Shared helpers: filter-counting over lists, Python's whitespace `str.split()`,
    and decimal rendering of integers (what `"{}".format(n)` does for an int). */
module Util {

  datatype Option<+T> = None | Some(value: T)

  /** Number of entries of `s` satisfying `p`, counted once per occurrence
      (the shape `len([x for x in s if p(x)])`). */
  function CountIf<T>(s: seq<T>, p: T -> bool): (n: nat)
    ensures n <= |s|
  {
    if s == [] then 0 else CountIf(s[..|s| - 1], p) + (if p(s[|s| - 1]) then 1 else 0)
  }

  /** The set of positions of `s` whose entry satisfies `p`. */
  function MatchingIndices<T>(s: seq<T>, p: T -> bool): set<nat>
  {
    set i: nat | i < |s| && p(s[i])
  }

  /** Reference definition: the count is the number of matching positions. */
  lemma {:induction false} CountIfIsIndexCount<T>(s: seq<T>, p: T -> bool)
    ensures CountIf(s, p) == |MatchingIndices(s, p)|
  {
    if s != [] {
      var init := s[..|s| - 1];
      CountIfIsIndexCount(init, p);
      var last := |s| - 1;
      if p(s[last]) {
        assert MatchingIndices(s, p) == MatchingIndices(init, p) + {last};
        assert last !in MatchingIndices(init, p);
      } else {
        assert MatchingIndices(s, p) == MatchingIndices(init, p);
      }
    }
  }

  /** Counting distributes over concatenation. */
  lemma {:induction false} CountIfAppend<T>(a: seq<T>, b: seq<T>, p: T -> bool)
    ensures CountIf(a + b, p) == CountIf(a, p) + CountIf(b, p)
  {
    if b == [] {
      assert a + b == a;
    } else {
      var b' := b[..|b| - 1];
      CountIfAppend(a, b', p);
      assert (a + b)[..|a + b| - 1] == a + b';
    }
  }

  /** When every entry satisfies `p`, every entry is counted. */
  lemma {:induction false} CountIfAll<T>(s: seq<T>, p: T -> bool)
    requires forall i :: 0 <= i < |s| ==> p(s[i])
    ensures CountIf(s, p) == |s|
  {
    if s != [] {
      CountIfAll(s[..|s| - 1], p);
    }
  }

  /** When no entry satisfies `p`, nothing is counted. */
  lemma {:induction false} CountIfNone<T>(s: seq<T>, p: T -> bool)
    requires forall i :: 0 <= i < |s| ==> !p(s[i])
    ensures CountIf(s, p) == 0
  {
    if s != [] {
      CountIfNone(s[..|s| - 1], p);
    }
  }

  // ---------------------------------------------------------------------------
  // str.split() with no separator: maximal runs of non-whitespace characters.

  /** Length of the longest prefix of `s` holding no whitespace. */
  function WordLength(s: string, isSpace: char -> bool): (n: nat)
    ensures n <= |s|
    ensures forall k :: 0 <= k < n ==> !isSpace(s[k])
    ensures n < |s| ==> isSpace(s[n])
  {
    if s == [] || isSpace(s[0]) then 0 else 1 + WordLength(s[1..], isSpace)
  }

  /** Python's `s.split()`: leading, trailing and repeated whitespace
      produce no empty tokens. */
  function Split(s: string, isSpace: char -> bool): (ts: seq<string>)
    ensures forall i :: 0 <= i < |ts| ==> |ts[i]| > 0
    ensures forall i, k :: 0 <= i < |ts| && 0 <= k < |ts[i]| ==> !isSpace(ts[i][k])
    decreases |s|
  {
    if s == [] then []
    else if isSpace(s[0]) then Split(s[1..], isSpace)
    else
      var n := WordLength(s, isSpace);
      [s[..n]] + Split(s[n..], isSpace)
  }

  /** Concatenation of a list of strings (`[c for w in ws for c in w]`). */
  function Flatten(ws: seq<string>): string
  {
    if ws == [] then [] else ws[0] + Flatten(ws[1..])
  }

  /** `s` with every entry satisfying `p` deleted and the others kept in
      order (what `re.sub(<class>, "", s)` does for a character class). */
  function Delete<T>(s: seq<T>, p: T -> bool): (r: seq<T>)
    ensures |r| == |s| - CountIf(s, p)
    ensures forall k :: 0 <= k < |r| ==> !p(r[k])
  {
    if s == [] then []
    else Delete(s[..|s| - 1], p) + (if p(s[|s| - 1]) then [] else [s[|s| - 1]])
  }

  /** Deletion distributes over concatenation. */
  lemma {:induction false} DeleteAppend<T>(a: seq<T>, b: seq<T>, p: T -> bool)
    ensures Delete(a + b, p) == Delete(a, p) + Delete(b, p)
    decreases |b|
  {
    if b == [] {
      assert a + b == a;
    } else {
      var b' := b[..|b| - 1];
      assert (a + b)[..|a + b| - 1] == a + b';
      assert (a + b)[|a + b| - 1] == b[|b| - 1];
      DeleteAppend(a, b', p);
    }
  }

  /** A sequence with nothing to delete is kept whole. */
  lemma {:induction false} DeleteNone<T>(s: seq<T>, p: T -> bool)
    requires forall k :: 0 <= k < |s| ==> !p(s[k])
    ensures Delete(s, p) == s
  {
    if s != [] {
      var front := s[..|s| - 1];
      assert s == front + [s[|s| - 1]];
      DeleteNone(front, p);
    }
  }

  /** A single entry is deleted exactly when it satisfies `p`. */
  lemma DeleteSingle<T>(x: T, p: T -> bool)
    ensures Delete([x], p) == (if p(x) then [] else [x])
  {
    assert [x][..0] == [];
  }

  /** Whitespace ends a token: the word length of `a + t`, with `t` starting
      with whitespace, is that of `a`. */
  lemma {:induction false} WordLengthBeforeSpace(a: string, t: string, isSpace: char -> bool)
    requires |t| > 0 && isSpace(t[0])
    ensures WordLength(a + t, isSpace) == WordLength(a, isSpace)
    decreases |a|
  {
    if a == [] {
      assert a + t == t;
    } else if !isSpace(a[0]) {
      assert (a + t)[1..] == a[1..] + t;
      WordLengthBeforeSpace(a[1..], t, isSpace);
    }
  }

  /** `str.split()` breaks at every whitespace character: splitting around
      one gives the tokens of the left part followed by those of the right. */
  lemma {:induction false} SplitAtSpace(a: string, c: char, b: string, isSpace: char -> bool)
    requires isSpace(c)
    ensures Split(a + [c] + b, isSpace) == Split(a, isSpace) + Split(b, isSpace)
    decreases |a|
  {
    var s := a + [c] + b;
    if a == [] {
      assert s[1..] == b;
    } else if isSpace(a[0]) {
      assert s[0] == a[0] && s[1..] == a[1..] + [c] + b;
      assert Split(s, isSpace) == Split(s[1..], isSpace);
      SplitAtSpace(a[1..], c, b, isSpace);
    } else {
      var n := WordLength(a, isSpace);
      var rest := a[n..] + [c] + b;
      WordAtFront(a, c, b, isSpace);
      assert Split(s, isSpace) == [a[..n]] + Split(rest, isSpace);
      assert Split(a, isSpace) == [a[..n]] + Split(a[n..], isSpace);
      SplitAtSpace(a[n..], c, b, isSpace);
    }
  }

  /** The first token of `a + [c] + b`, for a whitespace `c` and `a` starting
      with a non-space, is the first token of `a`. */
  lemma WordAtFront(a: string, c: char, b: string, isSpace: char -> bool)
    requires isSpace(c) && |a| > 0 && !isSpace(a[0])
    ensures var s := a + [c] + b;
      var n := WordLength(a, isSpace);
      && 0 < n <= |a|
      && WordLength(s, isSpace) == n
      && s[..n] == a[..n]
      && s[n..] == a[n..] + [c] + b
  {
    WordLengthPositive(a, isSpace);
    WordLengthAroundSpace(a, c, b, isSpace);
    SlicesAround(a, c, b, WordLength(a, isSpace));
  }

  lemma WordLengthPositive(a: string, isSpace: char -> bool)
    requires |a| > 0 && !isSpace(a[0])
    ensures WordLength(a, isSpace) > 0
  {
  }

  lemma WordLengthAroundSpace(a: string, c: char, b: string, isSpace: char -> bool)
    requires isSpace(c)
    ensures WordLength(a + [c] + b, isSpace) == WordLength(a, isSpace)
  {
    assert a + [c] + b == a + ([c] + b);
    WordLengthBeforeSpace(a, [c] + b, isSpace);
  }

  /** Cutting `a + [c] + b` inside `a`. */
  lemma SlicesAround<T>(a: seq<T>, c: T, b: seq<T>, n: nat)
    requires n <= |a|
    ensures (a + [c] + b)[..n] == a[..n]
    ensures (a + [c] + b)[n..] == a[n..] + [c] + b
  {
  }

  /** A non-empty run without whitespace is a single token. */
  lemma SplitWord(w: string, isSpace: char -> bool)
    requires |w| > 0 && forall k :: 0 <= k < |w| ==> !isSpace(w[k])
    ensures Split(w, isSpace) == [w]
  {
    var n := WordLength(w, isSpace);
    assert n == |w|;
    assert w[..n] == w && w[n..] == [];
  }

  /** Whitespace alone gives no token. */
  lemma {:induction false} SplitAllSpace(s: string, isSpace: char -> bool)
    requires forall k :: 0 <= k < |s| ==> isSpace(s[k])
    ensures Split(s, isSpace) == []
    decreases |s|
  {
    if s != [] {
      SplitAllSpace(s[1..], isSpace);
    }
  }

  /** Joining the tokens of `s.split()` gives back `s` without its whitespace:
      splitting loses exactly the whitespace and nothing else. */
  lemma {:induction false} FlattenSplit(s: string, isSpace: char -> bool)
    ensures Flatten(Split(s, isSpace)) == Delete(s, isSpace)
    decreases |s|
  {
    if s == [] {
    } else if isSpace(s[0]) {
      FlattenSplit(s[1..], isSpace);
      assert s == [s[0]] + s[1..];
      DeleteAppend([s[0]], s[1..], isSpace);
      DeleteSingle(s[0], isSpace);
    } else {
      var n := WordLength(s, isSpace);
      FlattenSplit(s[n..], isSpace);
      var ts := Split(s, isSpace);
      assert ts == [s[..n]] + Split(s[n..], isSpace);
      assert ts[1..] == Split(s[n..], isSpace);
      assert s == s[..n] + s[n..];
      DeleteAppend(s[..n], s[n..], isSpace);
      DeleteNone(s[..n], isSpace);
    }
  }

  // ---------------------------------------------------------------------------
  // Decimal rendering of integers.

  function DigitChar(d: nat): (c: char)
    requires d < 10
    ensures '0' <= c <= '9' && (c as int) - ('0' as int) == d
  {
    ['0', '1', '2', '3', '4', '5', '6', '7', '8', '9'][d]
  }

  predicate IsDigit(c: char) { '0' <= c <= '9' }

  /** Decimal digits of `n`, most significant first, no leading zero. */
  function NatToString(n: nat): (s: string)
    ensures |s| > 0
    ensures forall k :: 0 <= k < |s| ==> IsDigit(s[k])
    ensures |s| > 1 ==> s[0] != '0'
  {
    if n < 10 then [DigitChar(n)] else NatToString(n / 10) + [DigitChar(n % 10)]
  }

  /** Python's `str(n)` for an int: a leading '-' for negative values. */
  function IntToString(n: int): (s: string)
    ensures |s| > 0
    ensures (s[0] == '-') <==> n < 0
  {
    if n < 0 then "-" + NatToString(-n) else NatToString(n)
  }

  /** Reads back a string of decimal digits. */
  function ParseDigits(s: string): nat
    requires forall k :: 0 <= k < |s| ==> IsDigit(s[k])
  {
    if s == [] then 0 else 10 * ParseDigits(s[..|s| - 1]) + DigitValue(s[|s| - 1])
  }

  function DigitValue(c: char): (d: nat)
    requires IsDigit(c)
    ensures d < 10
  {
    (c as int) - ('0' as int)
  }

  /** Reads back the output of IntToString: an optional '-' followed by at
      least one digit. */
  function ParseInt(s: string): (r: Option<int>)
    ensures s == [] || s == "-" ==> r == None
    ensures r.Some? ==> exists k :: 0 <= k < |s| && IsDigit(s[k])
  {
    if s == [] || s == "-" then None
    else if s[0] == '-' then
      (if forall k :: 1 <= k < |s| ==> IsDigit(s[k]) then Some(0 - ParseDigits(s[1..]) as int) else None)
    else if forall k :: 0 <= k < |s| ==> IsDigit(s[k]) then Some(ParseDigits(s))
    else None
  }

  lemma {:induction false} ParseNatToString(n: nat)
    ensures ParseDigits(NatToString(n)) == n
  {
    if n >= 10 {
      ParseNatToString(n / 10);
      var s := NatToString(n);
      assert s[..|s| - 1] == NatToString(n / 10);
    }
  }

  /** Rendering an integer in decimal loses nothing: it parses back. */
  lemma IntToStringRoundTrip(n: int)
    ensures ParseInt(IntToString(n)) == Some(n)
  {
    ParseNatToString(if n < 0 then -n else n);
    if n < 0 {
      var s := IntToString(n);
      assert s[1..] == NatToString(-n);
    }
  }
}
