/**
 * Word extraction (`limpiar_texto`): the words of a text are the runs of
 * accepted letters that `\b[a-záéíóúüñ]+\b` finds, kept once each in order
 * of first occurrence.
 *
 * The text is taken after lowercasing. Whether a character counts as a
 * word character for `\b` is the classifier `w`; the model only demands
 * that it includes the accepted letters, the ASCII digits and `_`.
 */
module Words {
  import opened Lib

  /** The accepted alphabet: a-z and á é í ó ú ü ñ. */
  predicate IsLetter(c: char)
  {
    ('a' <= c <= 'z') || c == 'á' || c == 'é' || c == 'í' || c == 'ó' || c == 'ú' || c == 'ü' || c == 'ñ'
  }

  /** The word-character classifier of `\b` includes the letters, the digits and `_`. */
  predicate CoversWordChars(w: char -> bool)
  {
    forall c :: (IsLetter(c) || IsDigit(c) || c == '_') ==> w(c)
  }

  /** `\b` holds at position p of s: exactly one side of p is a word character. */
  predicate AtBoundary(s: string, p: nat, w: char -> bool)
    requires p <= |s|
  {
    (p > 0 && w(s[p - 1])) != (p < |s| && w(s[p]))
  }

  /** End of the run of accepted letters that starts at p. */
  function RunEnd(s: string, p: nat): (q: nat)
    requires p <= |s|
    ensures p <= q <= |s|
    ensures forall m :: p <= m < q ==> IsLetter(s[m])
    ensures q == |s| || !IsLetter(s[q])
    decreases |s| - p
  {
    if p == |s| || !IsLetter(s[p]) then p else RunEnd(s, p + 1)
  }

  /** The half-open interval [lo, hi) of one match. */
  datatype Span = Span(lo: nat, hi: nat)

  /**
   * The matches of `\b[a-záéíóúüñ]+\b` from position p on, as the regex
   * engine finds them scanning left to right. At a letter the greedy run
   * extends to the end of the letter run; backtracking to a shorter run can
   * never meet `\b` (both sides would be letters), and no position inside
   * the run can start a match, so the scan resumes after the run.
   */
  function Matches(s: string, p: nat, w: char -> bool): (ms: seq<Span>)
    requires p <= |s|
    ensures forall k :: 0 <= k < |ms| ==> p <= ms[k].lo < ms[k].hi <= |s|
    ensures forall a, b :: 0 <= a < b < |ms| ==> ms[a].hi <= ms[b].lo
    decreases |s| - p
  {
    if p == |s| then []
    else if !IsLetter(s[p]) then Matches(s, p + 1, w)
    else
      var q := RunEnd(s, p);
      if AtBoundary(s, p, w) && AtBoundary(s, q, w) then [Span(p, q)] + Matches(s, q, w)
      else Matches(s, q, w)
  }

  /** `re.findall`: the matched texts, in order. */
  function FindAll(s: string, w: char -> bool): (ts: seq<string>)
    ensures |ts| == |Matches(s, 0, w)|
    ensures forall k :: 0 <= k < |ts| ==> ts[k] == s[Matches(s, 0, w)[k].lo..Matches(s, 0, w)[k].hi]
  {
    var ms := Matches(s, 0, w);
    seq(|ms|, k requires 0 <= k < |ms| => s[ms[k].lo..ms[k].hi])
  }

  /**
   * A token: a non-empty run of accepted letters whose neighbours (where
   * they exist) are not word characters.
   */
  ghost predicate IsToken(s: string, i: nat, j: nat, w: char -> bool)
  {
    && i < j <= |s|
    && (forall m :: i <= m < j ==> IsLetter(s[m]))
    && (i == 0 || !w(s[i - 1]))
    && (j == |s| || !w(s[j]))
  }

  /** Positions from which the scan may resume: not strictly inside a letter run. */
  ghost predicate Resumable(s: string, p: nat)
    requires p <= |s|
  {
    p == 0 || p == |s| || !IsLetter(s[p - 1]) || !IsLetter(s[p])
  }

  /** Every match is a token, and every token from p on is a match. */
  lemma {:induction false} MatchesAreTokens(s: string, p: nat, w: char -> bool)
    requires CoversWordChars(w)
    requires p <= |s| && Resumable(s, p)
    ensures forall k :: 0 <= k < |Matches(s, p, w)| ==>
      IsToken(s, Matches(s, p, w)[k].lo, Matches(s, p, w)[k].hi, w)
    ensures forall i: nat, j: nat :: p <= i && IsToken(s, i, j, w) ==> Span(i, j) in Matches(s, p, w)
    decreases |s| - p
  {
    var ms := Matches(s, p, w);
    if p == |s| {
    } else if !IsLetter(s[p]) {
      MatchesAreTokens(s, p + 1, w);
      forall i: nat, j: nat | p <= i && IsToken(s, i, j, w) ensures Span(i, j) in ms {
        assert i != p;
      }
    } else {
      var q := RunEnd(s, p);
      var rest := Matches(s, q, w);
      MatchesAreTokens(s, q, w);
      assert w(s[p]) && w(s[q - 1]);
      assert IsToken(s, p, q, w) <==> AtBoundary(s, p, w) && AtBoundary(s, q, w);
      // a token cannot start inside the run, and one starting at p ends with it
      assert forall m :: p <= m < q ==> w(s[m]);
    }
  }

  /**
   * What `re.findall` returns here: the texts of the tokens of s, one per
   * token, from left to right. Each found text is the text of a token, the
   * tokens behind consecutive texts are in left-to-right order without
   * overlap, and every token's text is found at its own place.
   */
  lemma FindAllTokens(s: string, w: char -> bool)
    requires CoversWordChars(w)
    ensures var ts, ms := FindAll(s, w), Matches(s, 0, w);
      && |ts| == |ms|
      && (forall k :: 0 <= k < |ts| ==> IsToken(s, ms[k].lo, ms[k].hi, w) && ts[k] == s[ms[k].lo..ms[k].hi])
      && (forall a, b :: 0 <= a < b < |ms| ==> ms[a].hi <= ms[b].lo)
      && (forall i: nat, j: nat :: IsToken(s, i, j, w) ==> exists k :: 0 <= k < |ts| && ms[k] == Span(i, j) && ts[k] == s[i..j])
  {
    var ts, ms := FindAll(s, w), Matches(s, 0, w);
    MatchesAreTokens(s, 0, w);
    forall i: nat, j: nat | IsToken(s, i, j, w)
      ensures exists k :: 0 <= k < |ts| && ms[k] == Span(i, j) && ts[k] == s[i..j]
    {
      var k :| 0 <= k < |ms| && ms[k] == Span(i, j);
      assert ts[k] == s[i..j];
    }
  }

  /** The output of `OrderedDict.fromkeys` turned back into a list: each element once, at its first place. */
  function Dedup<T(==, !new)>(xs: seq<T>): (r: seq<T>)
    ensures NoDuplicates(r)
    ensures forall x :: x in r <==> x in xs
    ensures forall a, b :: 0 <= a < b < |r| ==> IndexOf(xs, r[a]) < IndexOf(xs, r[b])
  {
    if xs == [] then []
    else
      var init := xs[..|xs| - 1];
      var x := xs[|xs| - 1];
      var r := Dedup(init);
      assert xs == init + [x];
      assert forall y :: y in init ==> IndexOf(xs, y) == IndexOf(init, y) by {
        forall y | y in init ensures IndexOf(xs, y) == IndexOf(init, y) {
          assert init == xs[..|xs| - 1];
          IndexOfPrefix(xs, |xs| - 1, y);
        }
      }
      if x in r then r
      else
        assert IndexOf(xs, x) == |xs| - 1;
        r + [x]
  }

  /** `limpiar_texto` applied to the lowercased text. */
  function CleanText(lowered: string, w: char -> bool): (palabras: seq<string>)
    requires CoversWordChars(w)
    ensures NoDuplicates(palabras)
    ensures forall t :: t in palabras <==> t in FindAll(lowered, w)
    ensures forall a, b :: 0 <= a < b < |palabras| ==>
      IndexOf(FindAll(lowered, w), palabras[a]) < IndexOf(FindAll(lowered, w), palabras[b])
  {
    Dedup(FindAll(lowered, w))
  }

  /** Every token of the text is one of its words. */
  lemma CleanTextComplete(lowered: string, w: char -> bool)
    requires CoversWordChars(w)
    ensures forall i: nat, j: nat :: IsToken(lowered, i, j, w) ==> lowered[i..j] in CleanText(lowered, w)
  {
    var ms := Matches(lowered, 0, w);
    var ts := FindAll(lowered, w);
    MatchesAreTokens(lowered, 0, w);
    forall i: nat, j: nat | IsToken(lowered, i, j, w) ensures lowered[i..j] in ts {
      var k :| 0 <= k < |ms| && ms[k] == Span(i, j);
      assert ts[k] == lowered[i..j];
    }
  }

  /** Every word of the text is the text of one of its tokens, so it is made of accepted letters only. */
  lemma CleanTextSound(lowered: string, w: char -> bool, t: string)
    requires CoversWordChars(w)
    requires t in CleanText(lowered, w)
    ensures exists i: nat, j: nat :: IsToken(lowered, i, j, w) && lowered[i..j] == t
    ensures t != [] && forall m :: 0 <= m < |t| ==> IsLetter(t[m])
  {
    var ms := Matches(lowered, 0, w);
    var ts := FindAll(lowered, w);
    MatchesAreTokens(lowered, 0, w);
    assert t in ts;
    var k :| 0 <= k < |ts| && ts[k] == t;
    var i, j := ms[k].lo, ms[k].hi;
    assert IsToken(lowered, i, j, w);
    assert lowered[i..j] == t;
    TokenLetters(lowered, i, j, w);
  }

  lemma TokenLetters(s: string, i: nat, j: nat, w: char -> bool)
    requires IsToken(s, i, j, w)
    ensures s[i..j] != [] && forall m :: 0 <= m < |s[i..j]| ==> IsLetter(s[i..j][m])
  {
    forall m | 0 <= m < |s[i..j]| ensures IsLetter(s[i..j][m]) {
      assert s[i..j][m] == s[i + m];
    }
  }

  /** A run glued to a digit is dropped whole, not split: "abc1" has no words. */
  lemma GluedRunDropped(w: char -> bool)
    requires CoversWordChars(w)
    ensures CleanText("abc1", w) == []
  {
    assert w('1');
    assert RunEnd("abc1", 0) == 3;
  }
}
