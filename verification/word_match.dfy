/** Whole-word matching as the JavaScript patterns `\b(w1|w2|...)\b` do
    it: case-sensitive, with word characters `[A-Za-z0-9_]` (no `u`
    flag), a boundary wherever exactly one neighbour is a word character
    and the string ends counting as non-word. */
module WordMatch {

  predicate IsWordChar(c: char)
  {
    ('A' <= c <= 'Z') || ('a' <= c <= 'z') || ('0' <= c <= '9') || c == '_'
  }

  /** `\b` at position `p` of `s`. */
  predicate BoundaryAt(s: string, p: int)
    requires 0 <= p <= |s|
  {
    (p > 0 && IsWordChar(s[p - 1])) != (p < |s| && IsWordChar(s[p]))
  }

  /** `w` occurs in `s` at `i` with a boundary on each side. */
  predicate WholeWordAt(s: string, w: string, i: int)
  {
    0 <= i && i + |w| <= |s| && s[i..i + |w|] == w && BoundaryAt(s, i) && BoundaryAt(s, i + |w|)
  }

  /** `/\bw\b/.test(s)`. */
  predicate ContainsWord(s: string, w: string)
  {
    exists i | 0 <= i <= |s| - |w| :: WholeWordAt(s, w, i)
  }

  /** `/\b(w1|...|wn)\b/.test(s)`: the engine backtracks over every
      alternative at every start position, so the test succeeds exactly
      when one alternative occurs as a whole word. */
  predicate MatchesAny(s: string, ws: seq<string>)
  {
    exists j | 0 <= j < |ws| :: ContainsWord(s, ws[j])
  }

  /** A non-empty run of word characters. */
  predicate IsToken(w: string)
  {
    |w| > 0 && forall i :: 0 <= i < |w| ==> IsWordChar(w[i])
  }

  /** The length of the leading run of word characters. */
  function RunLength(s: string): (n: nat)
    ensures n <= |s|
    ensures forall i :: 0 <= i < n ==> IsWordChar(s[i])
    ensures n < |s| ==> !IsWordChar(s[n])
  {
    if |s| == 0 || !IsWordChar(s[0]) then 0 else 1 + RunLength(s[1..])
  }

  /** The maximal runs of word characters of `s`, left to right: an
      independent reading of "appears as a whole word". */
  function Tokens(s: string): seq<string>
    decreases |s|
  {
    if |s| == 0 then []
    else if !IsWordChar(s[0]) then Tokens(s[1..])
    else
      var n := RunLength(s);
      [s[..n]] + Tokens(s[n..])
  }

  /** Dropping a prefix of `n` characters moves every whole-word
      occurrence after the cut by `n`, provided the cut itself is not
      inside a word. */
  lemma ShiftOccurrence(s: string, n: int, w: string, i: int)
    requires 0 <= n <= i && n <= |s| && |w| > 0
    requires i > n || n == 0 || !IsWordChar(s[n - 1])
    ensures WholeWordAt(s, w, i) <==> WholeWordAt(s[n..], w, i - n)
  {
    var t := s[n..];
    if i + |w| <= |s| {
      assert t[i - n..i - n + |w|] == s[i..i + |w|];
      assert BoundaryAt(s, i) == BoundaryAt(t, i - n);
      assert BoundaryAt(s, i + |w|) == BoundaryAt(t, i + |w| - n);
    }
  }

  /** For a keyword made of word characters only, the regular-expression
      test agrees with looking the keyword up among the tokens. */
  lemma {:induction false} ContainsWordIffToken(s: string, w: string)
    requires IsToken(w)
    ensures ContainsWord(s, w) <==> w in Tokens(s)
    decreases |s|
  {
    if |s| == 0 {
    } else if !IsWordChar(s[0]) {
      SkipSeparator(s, w);
      ContainsWordIffToken(s[1..], w);
    } else {
      var n := RunLength(s);
      SkipToken(s, w);
      ContainsWordIffToken(s[n..], w);
      assert Tokens(s) == [s[..n]] + Tokens(s[n..]);
    }
  }

  /** A leading separator neither starts nor hides an occurrence. */
  lemma SkipSeparator(s: string, w: string)
    requires IsToken(w) && |s| > 0 && !IsWordChar(s[0])
    ensures ContainsWord(s, w) <==> ContainsWord(s[1..], w)
  {
    var t := s[1..];
    if ContainsWord(s, w) {
      var i :| 0 <= i <= |s| - |w| && WholeWordAt(s, w, i);
      if i == 0 {
        assert false;
      }
      ShiftOccurrence(s, 1, w, i);
      assert WholeWordAt(t, w, i - 1);
    }
    if ContainsWord(t, w) {
      var i :| 0 <= i <= |t| - |w| && WholeWordAt(t, w, i);
      ShiftOccurrence(s, 1, w, i + 1);
      assert WholeWordAt(s, w, i + 1);
    }
  }

  /** Past a leading token the keyword is either that token or occurs
      further on. */
  lemma SkipToken(s: string, w: string)
    requires IsToken(w) && |s| > 0 && IsWordChar(s[0])
    ensures var n := RunLength(s);
      ContainsWord(s, w) <==> w == s[..n] || ContainsWord(s[n..], w)
  {
    var n := RunLength(s);
    if ContainsWord(s, w) {
      var i :| 0 <= i <= |s| - |w| && WholeWordAt(s, w, i);
      OccurrenceInTokenOrAfter(s, w, n, i);
    }
    if w == s[..n] {
      assert WholeWordAt(s, w, 0);
    } else if ContainsWord(s[n..], w) {
      var i :| 0 <= i <= |s[n..]| - |w| && WholeWordAt(s[n..], w, i);
      OccurrenceAfterToken(s, w, n, i);
    }
  }

  lemma OccurrenceInTokenOrAfter(s: string, w: string, n: nat, i: int)
    requires IsToken(w) && |s| > 0 && IsWordChar(s[0]) && n == RunLength(s)
    requires WholeWordAt(s, w, i)
    ensures w == s[..n] || ContainsWord(s[n..], w)
  {
    if i == 0 {
      TokenAtStart(s, w, n);
    } else if i < n {
      assert false;
    } else if i == n {
      assert false;
    } else {
      ShiftOccurrence(s, n, w, i);
      assert WholeWordAt(s[n..], w, i - n);
    }
  }

  lemma OccurrenceAfterToken(s: string, w: string, n: nat, i: int)
    requires IsToken(w) && |s| > 0 && IsWordChar(s[0]) && n == RunLength(s)
    requires WholeWordAt(s[n..], w, i)
    ensures ContainsWord(s, w)
  {
    if i == 0 {
      assert false;
    }
    ShiftOccurrence(s, n, w, i + n);
    assert WholeWordAt(s, w, i + n);
  }

  /** A whole word at the very start is the whole leading token. */
  lemma TokenAtStart(s: string, w: string, n: nat)
    requires IsToken(w) && WholeWordAt(s, w, 0) && n == RunLength(s)
    ensures w == s[..n]
  {
    assert s[..|w|] == w;
    if n > |w| {
      assert false;
    } else if n < |w| {
      assert false;
    }
  }

  /** A keyword with a word character right after it or right before it
      is not matched there: the pattern does not look inside words. */
  lemma NoMatchInsideWord(s: string, w: string, i: int)
    requires IsToken(w) && 0 <= i && i + |w| <= |s| && s[i..i + |w|] == w
    requires (i + |w| < |s| && IsWordChar(s[i + |w|])) || (i > 0 && IsWordChar(s[i - 1]))
    ensures !WholeWordAt(s, w, i)
  {
    assert s[i] == w[0] && s[i + |w| - 1] == w[|w| - 1];
  }
}
