/**
 * The string primitives the converter borrows from Python: the character
 * classes of its regular expressions, greedy runs, `str.strip`, `str.lower`,
 * `int(text)`, `str(n)`, `str.splitlines`, line iteration over a text file
 * and `'\n'.join`.
 */
module Text {
  import opened Wrappers

  // ---------------------------------------------------------------------
  // Character classes
  // ---------------------------------------------------------------------

  /** `[A-Z]` */
  predicate IsUpper(c: char) { 'A' <= c <= 'Z' }

  /** `[a-z]` */
  predicate IsLower(c: char) { 'a' <= c <= 'z' }

  /** `[0-9]` */
  predicate IsDigit(c: char) { '0' <= c <= '9' }

  predicate IsUnderscore(c: char) { c == '_' }

  predicate NotNewline(c: char) { c != '\n' }

  /** `\w`, over ASCII: a letter, a digit or `_`. */
  predicate IsWordChar(c: char) { IsUpper(c) || IsLower(c) || IsDigit(c) || c == '_' }

  /** Python's `str.isspace`, which is also what `\s` and `str.strip()` use. */
  predicate IsSpace(c: char) {
    var n := c as int;
    (9 <= n <= 13) || (28 <= n <= 32) || n == 0x85 || n == 0xA0 || n == 0x1680
    || (0x2000 <= n <= 0x200A) || n == 0x2028 || n == 0x2029 || n == 0x202F
    || n == 0x205F || n == 0x3000
  }

  /** The characters at which Python's `str.splitlines` ends a line. */
  predicate IsLineBoundary(c: char) {
    var n := c as int;
    (10 <= n <= 13) || (28 <= n <= 30) || n == 0x85 || n == 0x2028 || n == 0x2029
  }

  predicate NotLineBoundary(c: char) { !IsLineBoundary(c) }

  predicate All(s: string, p: char -> bool) {
    forall i :: 0 <= i < |s| ==> p(s[i])
  }

  /** `All` holds of a concatenation when it holds of both parts. */
  lemma AllConcat(a: string, b: string, p: char -> bool)
    requires All(a, p) && All(b, p)
    ensures All(a + b, p)
  {
    forall i | 0 <= i < |a + b| ensures p((a + b)[i]) {
      if i < |a| {
        assert (a + b)[i] == a[i];
      } else {
        assert (a + b)[i] == b[i - |a|];
      }
    }
  }

  /** `s` begins with `prefix`. */
  predicate StartsWith(s: string, prefix: string) {
    |prefix| <= |s| && s[..|prefix|] == prefix
  }

  /** A non-empty run of `\w` characters, i.e. what `(\w+)` captures. */
  predicate IsWord(s: string) {
    s != [] && All(s, IsWordChar)
  }

  // ---------------------------------------------------------------------
  // Greedy runs and stripping
  // ---------------------------------------------------------------------

  /** The length of the longest prefix of `s` made of characters satisfying `p`:
      how far a greedy `[p]*` reaches. */
  function Span(s: string, p: char -> bool): (n: nat)
    ensures n <= |s|
    ensures forall i :: 0 <= i < n ==> p(s[i])
    ensures n < |s| ==> !p(s[n])
  {
    if s == [] || !p(s[0]) then 0 else 1 + Span(s[1..], p)
  }

  /** The index at which a greedy `[p]*` started at index `i` of `s` stops.
      Scanning by index rather than by slicing keeps proofs about several
      consecutive runs cheap; `RunEndIsSpan` relates it to `Span`. */
  function RunEnd(s: string, i: nat, p: char -> bool): (n: nat)
    requires i <= |s|
    ensures i <= n <= |s|
    ensures n < |s| ==> !p(s[n])
    decreases |s| - i
  {
    if i == |s| || !p(s[i]) then i else RunEnd(s, i + 1, p)
  }

  /** Every character the run passes over satisfies `p`. */
  lemma {:induction false} RunEndAll(s: string, i: nat, p: char -> bool)
    requires i <= |s|
    ensures forall k :: i <= k < RunEnd(s, i, p) ==> p(s[k])
    decreases |s| - i
  {
    if i < |s| && p(s[i]) {
      RunEndAll(s, i + 1, p);
    }
  }

  /** A run of `p` characters from `i` to `j`, followed by the end of the
      string or a character that is not `p`, ends at `j`. */
  lemma {:induction false} RunEndAt(s: string, i: nat, j: nat, p: char -> bool)
    requires i <= j <= |s|
    requires forall k :: i <= k < j ==> p(s[k])
    requires j == |s| || !p(s[j])
    ensures RunEnd(s, i, p) == j
    decreases j - i
  {
    if i < j {
      RunEndAt(s, i + 1, j, p);
    }
  }

  /** A run over the whole of `s[i..j]` that `s[j]` does not continue ends
      at `j`. */
  lemma RunEndOver(s: string, i: nat, j: nat, p: char -> bool)
    requires i <= j <= |s|
    requires All(s[i..j], p)
    requires j == |s| || !p(s[j])
    ensures RunEnd(s, i, p) == j
  {
    assert forall k :: i <= k < j ==> s[k] == s[i..j][k - i];
    RunEndAt(s, i, j, p);
  }

  lemma {:induction false} RunEndIsSpan(s: string, i: nat, p: char -> bool)
    requires i <= |s|
    ensures RunEnd(s, i, p) == i + Span(s[i..], p)
    decreases |s| - i
  {
    if i < |s| && p(s[i]) {
      RunEndIsSpan(s, i + 1, p);
      assert s[i..][1..] == s[i + 1..];
    }
  }

  /** A run of `p` characters followed by a character that is not one is
      exactly as long as the run. */
  lemma {:induction false} SpanOfConcat(a: string, b: string, p: char -> bool)
    requires All(a, p)
    requires b == [] || !p(b[0])
    ensures Span(a + b, p) == |a|
  {
    if a != [] {
      assert (a + b)[1..] == a[1..] + b;
      SpanOfConcat(a[1..], b, p);
    }
  }

  /** `s` without its longest suffix of characters satisfying `p`. */
  function TrimEnd(s: string, p: char -> bool): (r: string)
    ensures |r| <= |s| && r == s[..|r|]
    ensures r == [] || !p(r[|r| - 1])
    ensures forall k :: |r| <= k < |s| ==> p(s[k])
  {
    if s != [] && p(s[|s| - 1]) then TrimEnd(s[..|s| - 1], p) else s
  }

  /** Python's `s.strip(chars)`: drop the longest prefix and the longest suffix
      of characters satisfying `p`. The result is the slice of `s` that starts
      at the first character not satisfying `p` and ends after the last one. */
  function Trim(s: string, p: char -> bool): (r: string)
    ensures Span(s, p) + |r| <= |s|
    ensures r == s[Span(s, p)..Span(s, p) + |r|]
    ensures forall k :: 0 <= k < Span(s, p) ==> p(s[k])
    ensures forall k :: Span(s, p) + |r| <= k < |s| ==> p(s[k])
    ensures r != [] ==> !p(r[0]) && !p(r[|r| - 1])
  {
    TrimEnd(s[Span(s, p)..], p)
  }

  /** Stripping a string that neither starts nor ends with a `p` character
      leaves it unchanged. */
  lemma TrimUnchanged(s: string, p: char -> bool)
    requires s != [] ==> !p(s[0]) && !p(s[|s| - 1])
    ensures Trim(s, p) == s
  {
    assert Span(s, p) == 0;
    assert s[0..] == s;
  }

  /** Trailing `p` characters are what `TrimEnd` removes. */
  lemma {:induction false} TrimEndPadded(t: string, b: string, p: char -> bool)
    requires All(b, p)
    requires t != [] && !p(t[|t| - 1])
    ensures TrimEnd(t + b, p) == t
    decreases |b|
  {
    if b == [] {
      assert t + b == t;
    } else {
      var init := b[..|b| - 1];
      assert (t + b)[..|t + b| - 1] == t + init;
      TrimEndPadded(t, init, p);
    }
  }

  /** Stripping a text padded on both sides gives back the text. */
  lemma TrimPadded(a: string, t: string, b: string, p: char -> bool)
    requires All(a, p) && All(b, p)
    requires t != [] && !p(t[0]) && !p(t[|t| - 1])
    ensures Trim(a + t + b, p) == t
  {
    var s := a + t + b;
    assert s == a + (t + b);
    assert (t + b)[0] == t[0];
    SpanOfConcat(a, t + b, p);
    assert s[|a|..] == t + b;
    TrimEndPadded(t, b, p);
  }

  // ---------------------------------------------------------------------
  // Case and underscores
  // ---------------------------------------------------------------------

  /** Python's `str.lower` on one character, over ASCII. */
  function LowerChar(c: char): (d: char)
    ensures !IsUpper(d)
    ensures IsUpper(c) ==> d as int == c as int + 32
    ensures !IsUpper(c) ==> d == c
  {
    if IsUpper(c) then (c as int + 32) as char else c
  }

  /** Python's `str.lower`, over ASCII. */
  function Lower(s: string): (r: string)
    ensures |r| == |s|
    ensures forall i :: 0 <= i < |s| ==> r[i] == LowerChar(s[i])
  {
    seq(|s|, i requires 0 <= i < |s| => LowerChar(s[i]))
  }

  lemma LowerUnchanged(s: string)
    requires forall i :: 0 <= i < |s| ==> !IsUpper(s[i])
    ensures Lower(s) == s
  {
  }

  /** `s` with every `_` removed: the letters and digits of a name in order. */
  function WithoutUnderscores(s: string): string
  {
    if s == [] then [] else (if s[0] == '_' then [] else [s[0]]) + WithoutUnderscores(s[1..])
  }

  lemma {:induction false} WithoutUnderscoresConcat(a: string, b: string)
    ensures WithoutUnderscores(a + b) == WithoutUnderscores(a) + WithoutUnderscores(b)
  {
    if a == [] {
      assert a + b == b;
    } else {
      assert (a + b)[0] == a[0];
      assert (a + b)[1..] == a[1..] + b;
      WithoutUnderscoresConcat(a[1..], b);
    }
  }

  lemma {:induction false} WithoutUnderscoresOfUnderscores(s: string)
    requires All(s, IsUnderscore)
    ensures WithoutUnderscores(s) == []
  {
    if s != [] {
      WithoutUnderscoresOfUnderscores(s[1..]);
    }
  }

  /** Lower-casing and removing underscores commute. */
  lemma {:induction false} WithoutUnderscoresLower(s: string)
    ensures WithoutUnderscores(Lower(s)) == Lower(WithoutUnderscores(s))
  {
    if s != [] {
      assert Lower(s) == [LowerChar(s[0])] + Lower(s[1..]);
      WithoutUnderscoresLower(s[1..]);
      if s[0] != '_' {
        assert Lower([s[0]] + WithoutUnderscores(s[1..]))
            == [LowerChar(s[0])] + Lower(WithoutUnderscores(s[1..]));
      }
    }
  }

  // ---------------------------------------------------------------------
  // Integers: Python's int(text) and str(n)
  // ---------------------------------------------------------------------

  function DigitValue(c: char): nat
    requires IsDigit(c)
  {
    c as int - '0' as int
  }

  function DigitChar(d: nat): (c: char)
    requires d < 10
    ensures IsDigit(c) && DigitValue(c) == d
  {
    ('0' as int + d) as char
  }

  /** The digit string of a Python integer literal as `int()` reads it:
      ASCII digits, with single `_` separators between digits. */
  predicate IsDigitText(s: string) {
    && s != []
    && IsDigit(s[0])
    && IsDigit(s[|s| - 1])
    && (forall i :: 0 <= i < |s| ==> IsDigit(s[i]) || s[i] == '_')
    && (forall i :: 0 <= i < |s| - 1 ==> !(s[i] == '_' && s[i + 1] == '_'))
  }

  /** The value of a digit string, ignoring `_` separators. */
  function DigitsValue(s: string): nat
    requires forall i :: 0 <= i < |s| ==> IsDigit(s[i]) || s[i] == '_'
  {
    if s == [] then 0
    else if s[|s| - 1] == '_' then DigitsValue(s[..|s| - 1])
    else DigitsValue(s[..|s| - 1]) * 10 + DigitValue(s[|s| - 1])
  }

  function ParseDigits(s: string): Option<int>
  {
    if IsDigitText(s) then Some(DigitsValue(s)) else None
  }

  /** The whitespace `int(text)` strips: below U+007F only space, tab and
      `\n \v \f \r`; above it every character `str.isspace` accepts (CPython
      turns those into spaces before parsing). The separators U+001C to
      U+001F satisfy `str.isspace` but not this. */
  predicate IsIntSpace(c: char) {
    if (c as int) < 0x7F then c == ' ' || (9 <= c as int <= 13) else IsSpace(c)
  }

  /** Python's `int(text)` for a `str` argument (ASCII digits only):
      surrounding whitespace, then an optional sign, then a digit string. */
  function ParseInt(text: string): (r: Option<int>)
    ensures Trim(text, IsIntSpace) == [] ==> r.None?
    ensures r.Some? ==> exists k :: 0 <= k < |text| && IsDigit(text[k])
  {
    var t := Trim(text, IsIntSpace);
    if t != [] && (t[0] == '+' || t[0] == '-') then
      match ParseDigits(t[1..])
      case Some(n) =>
        assert IsDigit(text[Span(text, IsIntSpace) + 1]) by { assert t[1..][0] == t[1]; }
        Some(if t[0] == '-' then -n else n)
      case None => None
    else
      var r := ParseDigits(t);
      assert r.Some? ==> IsDigit(text[Span(text, IsIntSpace)]);
      r
  }

  /** The decimal rendering of a natural number, without leading zeros. */
  function NatToString(n: nat): (r: string)
    ensures r != [] && All(r, IsDigit)
    ensures r[0] == '0' ==> n == 0 && |r| == 1
  {
    if n < 10 then [DigitChar(n)] else NatToString(n / 10) + [DigitChar(n % 10)]
  }

  /** Python's `str(n)` for an integer `n`. */
  function IntToString(n: int): string
  {
    if n < 0 then "-" + NatToString(-n) else NatToString(n)
  }

  lemma {:induction false} NatToStringValue(n: nat)
    ensures IsDigitText(NatToString(n))
    ensures DigitsValue(NatToString(n)) == n
  {
    var r := NatToString(n);
    if n >= 10 {
      NatToStringValue(n / 10);
      assert r[..|r| - 1] == NatToString(n / 10);
    } else {
      assert r[..|r| - 1] == [];
    }
  }

  /** `int(str(n)) == n`: the decimal rendering reads back as the same integer. */
  lemma ParseIntOfIntToString(n: int)
    ensures ParseInt(IntToString(n)) == Some(n)
  {
    var s := IntToString(n);
    var digits := NatToString(if n < 0 then -n else n);
    NatToStringValue(if n < 0 then -n else n);
    assert !IsIntSpace(s[0]) && !IsIntSpace(s[|s| - 1]);
    TrimUnchanged(s, IsIntSpace);
    if n < 0 {
      assert s[1..] == digits;
    }
  }

  // ---------------------------------------------------------------------
  // Lines
  // ---------------------------------------------------------------------

  /** The lines a `for line in f` loop reads from a text file holding `text`:
      each line keeps its terminating `'\n'`, the last one may lack it. */
  function FileLines(text: string): (r: seq<string>)
    ensures forall i :: 0 <= i < |r| ==> r[i] != []
    decreases |text|
  {
    if text == [] then []
    else
      var n := RunEnd(text, 0, NotNewline);
      if n == |text| then [text] else [text[..n + 1]] + FileLines(text[n + 1..])
  }

  /** A text without a newline is read as one line. */
  lemma FileLinesSingle(text: string)
    requires text != [] && All(text, NotNewline)
    ensures FileLines(text) == [text]
  {
    RunEndAt(text, 0, |text|, NotNewline);
  }

  /** A line ends at its first newline, which it keeps: the first line read
      from `line + "\n" + rest` is `line + "\n"`, and reading goes on with
      `rest`. */
  lemma FileLinesCons(line: string, rest: string)
    requires All(line, NotNewline)
    ensures FileLines(line + "\n" + rest) == [line + "\n"] + FileLines(rest)
  {
    var s := line + "\n" + rest;
    var n := |line|;
    assert forall k :: 0 <= k < n ==> s[k] == line[k];
    assert s[n] == '\n';
    RunEndAt(s, 0, n, NotNewline);
    assert s[..n + 1] == line + "\n";
    assert s[n + 1..] == rest;
  }

  /** The concatenation of a sequence of strings. */
  function Concat(ss: seq<string>): string
  {
    if ss == [] then [] else ss[0] + Concat(ss[1..])
  }

  /** Reading a file line by line loses nothing: the lines, put back
      together, are the whole text. */
  lemma {:induction false} FileLinesConcat(text: string)
    ensures Concat(FileLines(text)) == text
    decreases |text|
  {
    if text != [] {
      var n := RunEnd(text, 0, NotNewline);
      if n < |text| {
        var line, rest := text[..n + 1], text[n + 1..];
        assert FileLines(text) == [line] + FileLines(rest);
        FileLinesConcat(rest);
        ConcatCons(line, FileLines(rest));
        assert text == line + rest;
      } else {
        ConcatOne(text);
      }
    }
  }

  /** A slice grows by the piece that follows it. */
  lemma ExtendSlice(s: string, i: nat, j: nat, k: nat, piece: string)
    requires i <= j <= k <= |s| && s[j..k] == piece
    ensures s[i..k] == s[i..j] + piece
  {
    SliceJoin(s, i, j, k);
  }

  /** A slice that is a concatenation splits into the two parts. */
  lemma PeelSlice(s: string, i: nat, n: nat, x: string, y: string)
    requires i <= n <= |s| && s[i..n] == x + y
    ensures i + |x| <= n && s[i..i + |x|] == x && s[i + |x|..n] == y
  {
    assert s[i..n][..|x|] == x && s[i..n][|x|..] == y;
    assert s[i..i + |x|] == s[i..n][..|x|];
    assert s[i + |x|..n] == s[i..n][|x|..];
  }

  /** A slice of a suffix is a slice of the whole, moved by `p`. */
  lemma SliceOfSuffix(s: string, p: nat, i: nat, j: nat)
    requires p + i <= p + j <= |s|
    ensures s[p..][i..j] == s[p + i..p + j]
  {
  }

  /** The text from `p` on begins with `prefix` exactly when the slice of
      that length at `p` is `prefix`. */
  lemma StartsWithAt(s: string, p: nat, prefix: string)
    requires p <= |s|
    ensures StartsWith(s[p..], prefix) <==> p + |prefix| <= |s| && s[p..p + |prefix|] == prefix
  {
    if p + |prefix| <= |s| {
      SliceOfSuffix(s, p, 0, |prefix|);
    }
  }

  /** Concatenation is associative. */
  lemma Reassociate(x: string, y: string, z: string)
    ensures x + (y + z) == (x + y) + z
  {
  }

  /** Concatenation regrouped: a front of three parts and a back of five. */
  lemma Regroup(f1: string, f2: string, f3: string, b1: string, b2: string, b3: string, b4: string, b5: string)
    ensures (f1 + f2 + f3) + (b1 + b2 + b3 + b4 + b5) == f1 + f2 + f3 + b1 + b2 + b3 + b4 + b5
  {
  }

  /** Two adjacent slices make up the slice that spans both. */
  lemma SliceJoin(s: string, i: nat, j: nat, k: nat)
    requires i <= j <= k <= |s|
    ensures s[i..j] + s[j..k] == s[i..k]
  {
  }

  /** The text a run passes over is made of `p` characters. */
  lemma RunSlice(s: string, i: nat, p: char -> bool)
    requires i <= |s|
    ensures All(s[i..RunEnd(s, i, p)], p)
  {
    RunEndAll(s, i, p);
    var n := RunEnd(s, i, p);
    forall k | 0 <= k < n - i ensures p(s[i..n][k]) {
      assert s[i..n][k] == s[i + k];
    }
  }

  lemma SliceSplit(s: string, i: nat, j: nat)
    requires i <= j <= |s|
    ensures s[i..] == s[i..j] + s[j..]
  {
  }

  lemma ConcatOne(s: string)
    ensures Concat([s]) == s
  {
    assert [s][1..] == [];
    assert s + [] == s;
  }

  lemma ConcatCons(s: string, ss: seq<string>)
    ensures Concat([s] + ss) == s + Concat(ss)
  {
    assert ([s] + ss)[1..] == ss;
  }

  /** Python's `str.splitlines()`: the pieces between line boundaries,
      `"\r\n"` counting as one boundary, no trailing empty piece. */
  function SplitLines(s: string): (r: seq<string>)
    ensures forall i :: 0 <= i < |r| ==> All(r[i], NotLineBoundary)
    decreases |s|
  {
    if s == [] then []
    else
      var n := Span(s, NotLineBoundary);
      if n == |s| then [s]
      else
        var next := if s[n] == '\r' && n + 1 < |s| && s[n + 1] == '\n' then n + 2 else n + 1;
        [s[..n]] + SplitLines(s[next..])
  }

  /** A text without a line boundary is one line. */
  lemma SplitLinesSingle(s: string)
    requires s != [] && All(s, NotLineBoundary)
    ensures SplitLines(s) == [s]
  {
    SpanOfConcat(s, [], NotLineBoundary);
    assert s + [] == s;
  }

  /** A line ended by `'\n'` is split off the front. */
  lemma SplitLinesCons(line: string, rest: string)
    requires All(line, NotLineBoundary)
    ensures SplitLines(line + "\n" + rest) == [line] + SplitLines(rest)
  {
    var s := line + "\n" + rest;
    assert s == line + ("\n" + rest);
    SpanOfConcat(line, "\n" + rest, NotLineBoundary);
    assert s[..|line|] == line && s[|line|] == '\n';
    assert s[|line| + 1..] == rest;
  }

  /** A line ended by `"\r\n"` is split off the front: the pair is one
      boundary, so no empty piece comes between `'\r'` and `'\n'`. */
  lemma SplitLinesCrLf(line: string, rest: string)
    requires All(line, NotLineBoundary)
    ensures SplitLines(line + "\r\n" + rest) == [line] + SplitLines(rest)
  {
    var s := line + "\r\n" + rest;
    assert s == line + ("\r\n" + rest);
    SpanOfConcat(line, "\r\n" + rest, NotLineBoundary);
    assert s[..|line|] == line && s[|line|] == '\r' && s[|line| + 1] == '\n';
    assert s[|line| + 2..] == rest;
  }

  /** A line ended by any single boundary character is split off the front,
      unless that character is a `'\r'` that starts a `"\r\n"`. */
  lemma SplitLinesBoundary(line: string, b: char, rest: string)
    requires All(line, NotLineBoundary) && IsLineBoundary(b)
    requires !(b == '\r' && rest != [] && rest[0] == '\n')
    ensures SplitLines(line + [b] + rest) == [line] + SplitLines(rest)
  {
    var s := line + [b] + rest;
    assert s == line + ([b] + rest);
    SpanOfConcat(line, [b] + rest, NotLineBoundary);
    assert s[..|line|] == line && s[|line|] == b;
    assert s[|line| + 1..] == rest;
    assert b == '\r' && |line| + 1 < |s| ==> s[|line| + 1] == rest[0];
  }

  /** Python's `'\n'.join(lines)`. */
  function Join(lines: seq<string>): string
  {
    if lines == [] then []
    else if |lines| == 1 then lines[0]
    else Join(lines[..|lines| - 1]) + "\n" + lines[|lines| - 1]
  }

  /** Every line followed by `'\n'`, one after the other. */
  function Terminated(lines: seq<string>): string
  {
    if lines == [] then [] else Terminated(lines[..|lines| - 1]) + lines[|lines| - 1] + "\n"
  }

  /** `'\n'.join(lines) + '\n'` terminates every line of a non-empty list. */
  lemma {:induction false} JoinTerminated(lines: seq<string>)
    requires lines != []
    ensures Join(lines) + "\n" == Terminated(lines)
  {
    if |lines| > 1 {
      JoinTerminated(lines[..|lines| - 1]);
    } else {
      assert lines[..0] == [];
    }
  }

  lemma {:induction false} TerminatedConcat(a: seq<string>, b: seq<string>)
    ensures Terminated(a + b) == Terminated(a) + Terminated(b)
  {
    if b == [] {
      assert a + b == a;
    } else {
      assert (a + b)[..|a + b| - 1] == a + b[..|b| - 1];
      TerminatedConcat(a, b[..|b| - 1]);
    }
  }
}
