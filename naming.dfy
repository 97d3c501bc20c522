/**
 * `camel_to_snake` (tools/bsk_message_converter.py, lines 1-10): the field
 * name normaliser. Two regular-expression substitutions insert `_` at word
 * boundaries, then the name is lower-cased, runs of `_` are collapsed and
 * `_` is stripped from both ends.
 */
module Naming {
  import opened Text

  /** No `"__"` anywhere in `s`. */
  predicate NoDoubleUnderscore(s: string) {
    forall i :: 0 <= i < |s| - 1 ==> !(s[i] == '_' && s[i + 1] == '_')
  }

  predicate NoUpper(s: string) {
    forall i :: 0 <= i < |s| ==> !IsUpper(s[i])
  }

  /** A lower-case letter or a digit directly followed by a capital. */
  predicate CaseBoundaryAt(s: string, i: int)
    requires 0 <= i < |s| - 1
  {
    (IsLower(s[i]) || IsDigit(s[i])) && IsUpper(s[i + 1])
  }

  /** The shape every normalised name has: no capital, no `"__"`, no `_` at
      either end. */
  predicate IsNormalized(s: string) {
    && NoUpper(s)
    && NoDoubleUnderscore(s)
    && (s != [] ==> s[0] != '_' && s[|s| - 1] != '_')
  }

  // ---------------------------------------------------------------------
  // Line 3: re.sub('(.)([A-Z][a-z]+)', r'\1_\2', name)
  // ---------------------------------------------------------------------

  /** Where `(.)([A-Z][a-z]+)` can match: a character other than `'\n'`,
      then a capital, then a lower-case letter. */
  predicate WordStartsAt(s: string, i: nat) {
    i + 2 < |s| && s[i] != '\n' && IsUpper(s[i + 1]) && IsLower(s[i + 2])
  }

  /** The first substitution. Matches are tried left to right and do not
      overlap: a match is a character other than `'\n'`, a capital and the
      whole run of lower-case letters after it; scanning resumes after that
      run, so the run's last letter cannot start the next match. */
  function InsertBeforeWords(s: string): (r: string)
    ensures |s| <= |r|
    ensures s != [] ==> r[0] == s[0]
    decreases |s|
  {
    if WordStartsAt(s, 0) then
      var j := 2 + Span(s[2..], IsLower);
      [s[0], '_'] + s[1..j] + InsertBeforeWords(s[j..])
    else if s == [] then []
    else [s[0]] + InsertBeforeWords(s[1..])
  }

  /** The first substitution only inserts underscores. */
  lemma {:induction false} InsertBeforeWordsOnlyInserts(s: string)
    ensures WithoutUnderscores(InsertBeforeWords(s)) == WithoutUnderscores(s)
    decreases |s|
  {
    if WordStartsAt(s, 0) {
      var j := 2 + Span(s[2..], IsLower);
      InsertBeforeWordsAtMatch(s, j, s[1..j], s[j..]);
      InsertBeforeWordsOnlyInserts(s[j..]);
      UnderscoreAfterFirst(s[0], s[1..j], InsertBeforeWords(s[j..]), s[j..]);
      SplitAfterFirst(s, j);
    } else if s != [] {
      InsertBeforeWordsOnlyInserts(s[1..]);
      WithoutUnderscoresConcat([s[0]], InsertBeforeWords(s[1..]));
      WithoutUnderscoresConcat([s[0]], s[1..]);
      assert s == [s[0]] + s[1..];
    }
  }

  /** A text is its first character, a slice after it and the rest. */
  lemma SplitAfterFirst(s: string, j: nat)
    requires 1 <= j <= |s|
    ensures s == [s[0]] + s[1..j] + s[j..]
  {
    assert s == s[..1] + s[1..j] + s[j..];
  }

  /** An `_` inserted after the first character disappears with the other
      underscores. */
  lemma UnderscoreAfterFirst(x: char, p: string, rest: string, t: string)
    requires WithoutUnderscores(rest) == WithoutUnderscores(t)
    ensures WithoutUnderscores([x, '_'] + p + rest) == WithoutUnderscores([x] + p + t)
  {
    WithoutUnderscoresConcat([x, '_'] + p, rest);
    WithoutUnderscoresConcat([x, '_'], p);
    WithoutUnderscoresConcat([x], ['_']);
    assert [x] + ['_'] == [x, '_'];
    WithoutUnderscoresConcat([x] + p, t);
    WithoutUnderscoresConcat([x], p);
  }

  /** A name without capitals has nothing for the first substitution to match. */
  lemma {:induction false} InsertBeforeWordsUnchanged(s: string)
    requires NoUpper(s)
    ensures InsertBeforeWords(s) == s
    decreases |s|
  {
    if s != [] {
      InsertBeforeWordsUnchanged(s[1..]);
      assert s == [s[0]] + s[1..];
    }
  }

  /** Where no match starts, the first character is copied. */
  lemma InsertBeforeWordsNoMatch(s: string)
    requires s != [] && !WordStartsAt(s, 0)
    ensures InsertBeforeWords(s) == [s[0]] + InsertBeforeWords(s[1..])
  {
  }

  /** A prefix in which no match starts is copied unchanged. */
  lemma {:induction false} InsertBeforeWordsSkips(a: string, b: string)
    requires forall i :: 0 <= i < |a| ==> !WordStartsAt(a + b, i)
    ensures InsertBeforeWords(a + b) == a + InsertBeforeWords(b)
  {
    if a != [] {
      var s := a + b;
      assert !WordStartsAt(s, 0);
      InsertBeforeWordsNoMatch(s);
      assert s[1..] == a[1..] + b;
      forall i | 0 <= i < |a| - 1 ensures !WordStartsAt(s[1..], i) {
        assert !WordStartsAt(s, i + 1);
      }
      InsertBeforeWordsSkips(a[1..], b);
      var rest := InsertBeforeWords(b);
      assert InsertBeforeWords(s) == [a[0]] + (a[1..] + rest);
      Reassociate([a[0]], a[1..], rest);
      assert a == [a[0]] + a[1..];
    } else {
      assert a + b == b;
    }
  }

  /** A match of `(.)([A-Z][a-z]+)`: a character other than `'\n'`, a
      capital and the whole run of lower-case letters after it get an `_`
      after the first character, and the scan resumes behind the run, after
      a prefix in which no match starts. */
  lemma InsertBeforeWordsMatch(a: string, x: char, u: char, w: string, b: string)
    requires forall i :: 0 <= i < |a| ==> !WordStartsAt(a + ([x, u] + w + b), i)
    requires x != '\n' && IsUpper(u) && w != [] && All(w, IsLower)
    requires b == [] || !IsLower(b[0])
    ensures InsertBeforeWords(a + [x, u] + w + b) == a + [x, '_', u] + w + InsertBeforeWords(b)
  {
    var t := [x, u] + w + b;
    InsertBeforeWordsSkips(a, t);
    InsertBeforeWordsMatchAtStart(x, u, w, b);
    RegroupPrefix(a, x, u, w, b, InsertBeforeWords(b));
  }

  lemma RegroupPrefix(a: string, x: char, u: char, w: string, b: string, rest: string)
    ensures a + [x, u] + w + b == a + ([x, u] + w + b)
    ensures a + ([x, '_', u] + w + rest) == a + [x, '_', u] + w + rest
  {
  }

  lemma InsertBeforeWordsMatchAtStart(x: char, u: char, w: string, b: string)
    requires x != '\n' && IsUpper(u) && w != [] && All(w, IsLower)
    requires b == [] || !IsLower(b[0])
    ensures InsertBeforeWords([x, u] + w + b) == [x, '_', u] + w + InsertBeforeWords(b)
  {
    var s := [x, u] + w + b;
    MatchPieces(x, u, w, b);
    InsertBeforeWordsAtMatch(s, 2 + |w|, [u] + w, b);
    RegroupMatch(x, u, w, InsertBeforeWords(b));
  }

  lemma RegroupMatch(x: char, u: char, w: string, rest: string)
    ensures [x, '_'] + ([u] + w) + rest == [x, '_', u] + w + rest
  {
  }

  /** The pieces of a text that starts with a match. */
  lemma MatchPieces(x: char, u: char, w: string, b: string)
    requires x != '\n' && IsUpper(u) && w != [] && All(w, IsLower)
    requires b == [] || !IsLower(b[0])
    ensures var s := [x, u] + w + b;
            && WordStartsAt(s, 0) && s[0] == x && 2 + Span(s[2..], IsLower) == 2 + |w|
            && s[1..2 + |w|] == [u] + w && s[2 + |w|..] == b
  {
    var s := [x, u] + w + b;
    assert s[2..] == w + b;
    assert s[2] == w[0];
    SpanOfConcat(w, b, IsLower);
  }

  /** Where a match starts, the first substitution inserts `_` after the
      first character and resumes behind the lower-case run. */
  lemma InsertBeforeWordsAtMatch(s: string, j: nat, run: string, tail: string)
    requires WordStartsAt(s, 0) && j == 2 + Span(s[2..], IsLower)
    requires run == s[1..j] && tail == s[j..]
    ensures InsertBeforeWords(s) == [s[0], '_'] + run + InsertBeforeWords(tail)
  {
  }

  // ---------------------------------------------------------------------
  // Line 4: re.sub('([a-z0-9])([A-Z])', r'\1_\2', s1)
  // ---------------------------------------------------------------------

  /** The second substitution: an `_` between a lower-case letter or digit and
      the capital after it. */
  function SplitCaseBoundaries(s: string): (r: string)
    ensures |s| > 0 ==> |r| > 0 && r[0] == s[0]
    decreases |s|
  {
    if |s| >= 2 && (IsLower(s[0]) || IsDigit(s[0])) && IsUpper(s[1]) then
      [s[0], '_', s[1]] + SplitCaseBoundaries(s[2..])
    else if s == [] then []
    else [s[0]] + SplitCaseBoundaries(s[1..])
  }

  /** After the second substitution no lower-case letter or digit is directly
      followed by a capital. */
  lemma {:induction false} SplitCaseBoundariesComplete(s: string)
    ensures forall i :: 0 <= i < |SplitCaseBoundaries(s)| - 1 ==> !CaseBoundaryAt(SplitCaseBoundaries(s), i)
    decreases |s|
  {
    var r := SplitCaseBoundaries(s);
    if |s| >= 2 && (IsLower(s[0]) || IsDigit(s[0])) && IsUpper(s[1]) {
      SplitCaseBoundariesComplete(s[2..]);
      var rest := SplitCaseBoundaries(s[2..]);
      forall i | 0 <= i < |r| - 1 ensures !CaseBoundaryAt(r, i) {
        if i >= 3 {
          assert r[i] == rest[i - 3] && r[i + 1] == rest[i - 2];
          assert !CaseBoundaryAt(rest, i - 3);
        }
      }
    } else if s != [] {
      SplitCaseBoundariesComplete(s[1..]);
      var rest := SplitCaseBoundaries(s[1..]);
      forall i | 0 <= i < |r| - 1 ensures !CaseBoundaryAt(r, i) {
        if i >= 1 {
          assert r[i] == rest[i - 1] && r[i + 1] == rest[i];
          assert !CaseBoundaryAt(rest, i - 1);
        }
      }
    }
  }

  /** The second substitution only inserts underscores. */
  lemma {:induction false} SplitCaseBoundariesOnlyInserts(s: string)
    ensures WithoutUnderscores(SplitCaseBoundaries(s)) == WithoutUnderscores(s)
    decreases |s|
  {
    if |s| >= 2 && (IsLower(s[0]) || IsDigit(s[0])) && IsUpper(s[1]) {
      var rest := SplitCaseBoundaries(s[2..]);
      assert SplitCaseBoundaries(s) == [s[0], '_', s[1]] + rest;
      SplitCaseBoundariesOnlyInserts(s[2..]);
      WithoutUnderscoresConcat([s[0], '_', s[1]], rest);
      WithoutUnderscoresConcat([s[0], s[1]], s[2..]);
      assert s == [s[0], s[1]] + s[2..];
      assert WithoutUnderscores([s[0], '_', s[1]]) == [s[0], s[1]] by {
        assert !IsUnderscore(s[0]) && !IsUnderscore(s[1]);
      }
      assert WithoutUnderscores([s[0], s[1]]) == [s[0], s[1]];
    } else if s != [] {
      var rest := SplitCaseBoundaries(s[1..]);
      assert SplitCaseBoundaries(s) == [s[0]] + rest;
      SplitCaseBoundariesOnlyInserts(s[1..]);
      WithoutUnderscoresConcat([s[0]], rest);
      WithoutUnderscoresConcat([s[0]], s[1..]);
      assert s == [s[0]] + s[1..];
    }
  }

  /** A prefix with no boundary in it, nor at its junction with the rest, is
      copied unchanged. */
  lemma {:induction false} SplitCaseBoundariesSkips(a: string, b: string)
    requires forall i :: 0 <= i < |a| && i < |a + b| - 1 ==> !CaseBoundaryAt(a + b, i)
    ensures SplitCaseBoundaries(a + b) == a + SplitCaseBoundaries(b)
  {
    if a != [] {
      assert |a + b| >= 2 ==> !CaseBoundaryAt(a + b, 0);
      assert (a + b)[1..] == a[1..] + b;
      forall i | 0 <= i < |a| - 1 && i < |a[1..] + b| - 1 ensures !CaseBoundaryAt(a[1..] + b, i) {
        assert !CaseBoundaryAt(a + b, i + 1);
      }
      SplitCaseBoundariesSkips(a[1..], b);
      assert a == [a[0]] + a[1..];
    } else {
      assert a + b == b;
    }
  }

  lemma {:induction false} SplitCaseBoundariesUnchanged(s: string)
    requires NoUpper(s)
    ensures SplitCaseBoundaries(s) == s
    decreases |s|
  {
    if s != [] {
      SplitCaseBoundariesUnchanged(s[1..]);
      assert s == [s[0]] + s[1..];
    }
  }

  // ---------------------------------------------------------------------
  // Line 7: re.sub(r'_+', '_', s3)
  // ---------------------------------------------------------------------

  /** Every run of `_` becomes a single `_`. */
  function CollapseUnderscores(s: string): (r: string)
    ensures |r| > 0 <==> |s| > 0
    ensures |s| > 0 ==> r[0] == s[0]
    ensures forall i :: 0 <= i < |r| ==> r[i] in s
    ensures NoDoubleUnderscore(r)
    decreases |s|
  {
    if s == [] then []
    else if s[0] == '_' then
      var k := Span(s, IsUnderscore);
      ['_'] + CollapseUnderscores(s[k..])
    else [s[0]] + CollapseUnderscores(s[1..])
  }

  lemma {:induction false} CollapseUnderscoresOnlyRemoves(s: string)
    ensures WithoutUnderscores(CollapseUnderscores(s)) == WithoutUnderscores(s)
    decreases |s|
  {
    if s != [] {
      if s[0] == '_' {
        var k := Span(s, IsUnderscore);
        CollapseUnderscoresOnlyRemoves(s[k..]);
        WithoutUnderscoresConcat(['_'], CollapseUnderscores(s[k..]));
        assert s == s[..k] + s[k..];
        WithoutUnderscoresConcat(s[..k], s[k..]);
        WithoutUnderscoresOfUnderscores(s[..k]);
      } else {
        CollapseUnderscoresOnlyRemoves(s[1..]);
        WithoutUnderscoresConcat([s[0]], CollapseUnderscores(s[1..]));
        WithoutUnderscoresConcat([s[0]], s[1..]);
        assert s == [s[0]] + s[1..];
      }
    }
  }

  lemma {:induction false} CollapseUnderscoresUnchanged(s: string)
    requires NoDoubleUnderscore(s)
    ensures CollapseUnderscores(s) == s
    decreases |s|
  {
    if s != [] {
      if s[0] == '_' {
        assert Span(s, IsUnderscore) == 1;
      }
      CollapseUnderscoresUnchanged(s[1..]);
      assert s == [s[0]] + s[1..];
    }
  }

  // ---------------------------------------------------------------------
  // The whole normaliser
  // ---------------------------------------------------------------------

  /** `camel_to_snake(name)`. Whatever the input, the result is normalised:
      no capital, no `"__"`, and no `_` at either end. */
  function CamelToSnake(name: string): (r: string)
    ensures IsNormalized(r)
  {
    var s1 := InsertBeforeWords(name);
    var s2 := SplitCaseBoundaries(s1);
    var s3 := Lower(s2);
    var s4 := CollapseUnderscores(s3);
    assert NoUpper(s4) by {
      forall i | 0 <= i < |s4| ensures !IsUpper(s4[i]) {
        assert s4[i] in s3;
      }
    }
    Trim(s4, IsUnderscore)
  }

  /** The normaliser keeps every letter and digit, in order, only lower-casing
      them: it changes nothing but case and underscores. */
  lemma CamelToSnakeKeepsCharacters(name: string)
    ensures WithoutUnderscores(CamelToSnake(name)) == Lower(WithoutUnderscores(name))
  {
    var s1 := InsertBeforeWords(name);
    var s2 := SplitCaseBoundaries(s1);
    var s3 := Lower(s2);
    var s4 := CollapseUnderscores(s3);
    InsertBeforeWordsOnlyInserts(name);
    SplitCaseBoundariesOnlyInserts(s1);
    WithoutUnderscoresLower(s2);
    CollapseUnderscoresOnlyRemoves(s3);
    TrimUnderscoresOnlyRemoves(s4);
    assert CamelToSnake(name) == Trim(s4, IsUnderscore);
  }

  /** Line 9, `strip('_')`, only removes underscores. */
  lemma TrimUnderscoresOnlyRemoves(s: string)
    ensures WithoutUnderscores(Trim(s, IsUnderscore)) == WithoutUnderscores(s)
  {
    var k := Span(s, IsUnderscore);
    var r := Trim(s, IsUnderscore);
    assert s == s[..k] + r + s[k + |r|..];
    WithoutUnderscoresConcat(s[..k] + r, s[k + |r|..]);
    WithoutUnderscoresConcat(s[..k], r);
    WithoutUnderscoresOfUnderscores(s[..k]);
    WithoutUnderscoresOfUnderscores(s[k + |r|..]);
  }

  /** The names the normaliser leaves unchanged are exactly the normalised
      ones; in particular it is the identity on snake_case names, and applying
      it twice is the same as applying it once. */
  lemma CamelToSnakeFixedPoints(s: string)
    ensures CamelToSnake(s) == s <==> IsNormalized(s)
    ensures CamelToSnake(CamelToSnake(s)) == CamelToSnake(s)
  {
    NormalizedUnchanged(s);
    NormalizedUnchanged(CamelToSnake(s));
  }

  lemma NormalizedUnchanged(s: string)
    ensures IsNormalized(s) ==> CamelToSnake(s) == s
  {
    if IsNormalized(s) {
      InsertBeforeWordsUnchanged(s);
      SplitCaseBoundariesUnchanged(s);
      LowerUnchanged(s);
      CollapseUnderscoresUnchanged(s);
      TrimUnchanged(s, IsUnderscore);
    }
  }
}
