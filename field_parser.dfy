/**
 * `parse_struct_fields` (tools/bsk_message_converter.py, lines 50-76): strip
 * the comments from a struct body, then read one field declaration per
 * line, keeping the fields whose C type the type table knows.
 */
module FieldParser {
  import opened Wrappers
  import opened Text
  import opened RosTypes

  /** What the declaration pattern of line 58 captures: the C type, the field
      name and, for an array, the text between the brackets. */
  datatype Declaration = Declaration(cType: string, name: string, arrayLength: Option<string>)

  /** One entry of the returned list (lines 72 and 75): the `.msg` type, the
      field name as written in C, and the array length token, if any. */
  datatype Field = Field(rosType: string, name: string, arrayLength: Option<string>)

  /** No `"//"` anywhere in `s`. */
  predicate NoDoubleSlash(s: string) {
    forall i :: 0 <= i < |s| - 1 ==> !(s[i] == '/' && s[i + 1] == '/')
  }

  // ---------------------------------------------------------------------
  // Lines 52 and 54: re.sub(r'//.*', '', s) and re.sub(r'//!<.*', '', s)
  // ---------------------------------------------------------------------

  /** Delete every occurrence of `marker` together with the rest of its line
      (`.` does not match a newline, so the newline itself stays). Matches
      are found left to right, and scanning resumes at the newline. */
  function StripToLineEnd(s: string, marker: string): (r: string)
    requires marker != [] && marker[0] != '\n'
    ensures |r| <= |s|
    ensures r != [] ==> r[0] == '\n' || (!StartsWith(s, marker) && r[0] == s[0])
    decreases |s|
  {
    if StartsWith(s, marker) then
      var e := RunEnd(s, |marker|, NotNewline);
      StripToLineEnd(s[e..], marker)
    else if s == [] then []
    else [s[0]] + StripToLineEnd(s[1..], marker)
  }

  /** After the pass of line 52 no `"//"` is left. */
  lemma {:induction false} LineCommentsGone(s: string)
    ensures NoDoubleSlash(StripToLineEnd(s, "//"))
    decreases |s|
  {
    if StartsWith(s, "//") {
      var e := RunEnd(s, 2, NotNewline);
      LineCommentsGone(s[e..]);
    } else if s != [] {
      var rest := StripToLineEnd(s[1..], "//");
      LineCommentsGone(s[1..]);
      assert |s| >= 2 ==> s[..2] == [s[0], s[1]];
      assert rest != [] ==> rest[0] == '\n' || rest[0] == s[1];
      ConsNoDoubleSlash(s[0], rest);
    }
  }

  /** Putting a character in front of a string without `"//"` keeps it so,
      unless both are slashes. */
  lemma ConsNoDoubleSlash(c: char, s: string)
    requires NoDoubleSlash(s)
    requires s != [] && s[0] == '/' ==> c != '/'
    ensures NoDoubleSlash([c] + s)
  {
    var r := [c] + s;
    forall i | 0 < i < |r| - 1 ensures !(r[i] == '/' && r[i + 1] == '/') {
      assert r[i] == s[i - 1] && r[i + 1] == s[i];
    }
  }

  lemma NoDoubleSlashSuffix(s: string, k: nat)
    requires NoDoubleSlash(s) && k <= |s|
    ensures NoDoubleSlash(s[k..])
  {
    var t := s[k..];
    forall i | 0 <= i < |t| - 1 ensures !(t[i] == '/' && t[i + 1] == '/') {
      assert t[i] == s[k + i] && t[i + 1] == s[k + i + 1];
    }
  }

  /** A line comment is deleted up to its newline, and everything before it
      is kept: text without `"//"` (a division sign included) that does not
      end in `/` survives the pass of line 52 as it is. */
  lemma LineCommentRemoved(a: string, c: string, rest: string)
    requires NoDoubleSlash(a) && (a == [] || a[|a| - 1] != '/')
    requires All(c, NotNewline)
    requires rest == [] || rest[0] == '\n'
    ensures StripToLineEnd(a + "//" + c + rest, "//") == a + StripToLineEnd(rest, "//")
  {
    assert a + "//" + c + rest == a + ("//" + c + rest);
    LineCommentPrefixKept(a, "//" + c + rest);
    LineCommentDropped(c, rest);
  }

  /** Text before which no line comment starts is copied. */
  lemma {:induction false} LineCommentPrefixKept(a: string, t: string)
    requires NoDoubleSlash(a) && (a == [] || a[|a| - 1] != '/')
    ensures StripToLineEnd(a + t, "//") == a + StripToLineEnd(t, "//")
    decreases |a|
  {
    if a != [] {
      var s := a + t;
      NoLineCommentAtStart(a, t);
      StripToLineEndCopies(s, "//");
      NoDoubleSlashSuffix(a, 1);
      LineCommentPrefixKept(a[1..], t);
      var x := StripToLineEnd(t, "//");
      var y := StripToLineEnd(a[1..] + t, "//");
      TailOfConcat(a, t);
      assert StripToLineEnd(s, "//") == [a[0]] + y;
      ConsPrefix(a, x, y, StripToLineEnd(s, "//"));
    } else {
      assert a + t == t;
      assert a + StripToLineEnd(t, "//") == StripToLineEnd(t, "//");
    }
  }

  lemma TailOfConcat(a: string, t: string)
    requires a != []
    ensures (a + t)[1..] == a[1..] + t && (a + t)[0] == a[0]
  {
  }

  lemma ConsPrefix(a: string, x: string, y: string, z: string)
    requires a != [] && y == a[1..] + x && z == [a[0]] + y
    ensures z == a + x
  {
    assert [a[0]] + a[1..] == a;
  }

  lemma NoLineCommentAtStart(a: string, t: string)
    requires a != [] && NoDoubleSlash(a) && a[|a| - 1] != '/'
    ensures !StartsWith(a + t, "//")
  {
    var s := a + t;
    assert s[0] == a[0];
    assert |a| >= 2 ==> s[1] == a[1] && !(a[0] == '/' && a[1] == '/');
    if |s| >= 2 { assert s[..2] == [s[0], s[1]]; }
  }

  /** Where no match starts, the first character is copied. */
  lemma StripToLineEndCopies(s: string, marker: string)
    requires marker != [] && marker[0] != '\n'
    requires s != [] && !StartsWith(s, marker)
    ensures StripToLineEnd(s, marker) == [s[0]] + StripToLineEnd(s[1..], marker)
  {
  }

  /** A line comment at the start goes, up to its newline. */
  lemma LineCommentDropped(c: string, rest: string)
    requires All(c, NotNewline)
    requires rest == [] || rest[0] == '\n'
    ensures StripToLineEnd("//" + c + rest, "//") == StripToLineEnd(rest, "//")
  {
    var s := "//" + c + rest;
    assert s[..2] == "//";
    forall k | 2 <= k < 2 + |c| ensures NotNewline(s[k]) {
      assert s[k] == c[k - 2];
    }
    assert 2 + |c| < |s| ==> s[2 + |c|] == rest[0];
    RunEndAt(s, 2, 2 + |c|, NotNewline);
    assert s[2 + |c|..] == rest;
  }

  /** A string without `"//"` holds no match of a marker that begins with
      `"//"`: the passes of line 52 and of line 54 leave it unchanged, even
      when it ends in a single `/`. */
  lemma {:induction false} NoMarkerUnchanged(s: string, marker: string)
    requires NoDoubleSlash(s)
    requires |marker| >= 2 && marker[0] == '/' && marker[1] == '/'
    ensures StripToLineEnd(s, marker) == s
    decreases |s|
  {
    if s != [] {
      assert |s| >= |marker| ==> s[..|marker|][0] == s[0] && s[..|marker|][1] == s[1];
      assert |s| >= 2 ==> !(s[0] == '/' && s[1] == '/');
      NoDoubleSlashSuffix(s, 1);
      NoMarkerUnchanged(s[1..], marker);
      assert s == [s[0]] + s[1..];
    }
  }

  // ---------------------------------------------------------------------
  // Line 53: re.sub(r'/\*!<.*?\*/', '', s, flags=re.DOTALL)
  // ---------------------------------------------------------------------

  predicate CloseAt(s: string, j: int)
    requires 0 <= j < |s| - 1
  {
    s[j] == '*' && s[j + 1] == '/'
  }

  // The first star-slash that starts at or after index `from`: where the
  // lazy `.*?` stops.
  function FindClose(s: string, from: nat): (r: Option<nat>)
    requires from <= |s|
    ensures r.Some? ==> from <= r.value < |s| - 1 && CloseAt(s, r.value)
    ensures r.Some? ==> forall k :: from <= k < r.value ==> !CloseAt(s, k)
    ensures r.None? ==> forall k :: from <= k < |s| - 1 ==> !CloseAt(s, k)
    decreases |s| - from
  {
    if from + 2 > |s| then None
    else if CloseAt(s, from) then Some(from)
    else FindClose(s, from + 1)
  }

  // Delete every doc comment `/*!< ... */`, each ending at the first `*/`
  // after its opening, across lines. An opening without any later closing
  // is not a match and stays.
  function StripDocComments(s: string): (r: string)
    ensures |r| <= |s|
    decreases |s|
  {
    if StartsWith(s, "/*!<") && FindClose(s, 4).Some? then
      StripDocComments(s[FindClose(s, 4).value + 2..])
    else if s == [] then []
    else [s[0]] + StripDocComments(s[1..])
  }

  /** No doc comment opens anywhere in `s`. */
  predicate NoDocOpening(s: string) {
    forall k :: 0 <= k < |s| ==> !StartsWith(s[k..], "/*!<")
  }

  // No star-slash anywhere in `s`.
  predicate NoClose(s: string) {
    forall k :: 0 <= k < |s| - 1 ==> !(s[k] == '*' && s[k + 1] == '/')
  }

  /** The lazy search stops at the first star-slash. */
  lemma {:induction false} FindCloseAt(s: string, from: nat, j: nat)
    requires from <= j < |s| - 1 && CloseAt(s, j)
    requires forall k :: from <= k < j ==> !CloseAt(s, k)
    ensures FindClose(s, from) == Some(j)
    decreases j - from
  {
    if from < j {
      FindCloseAt(s, from + 1, j);
    }
  }

  /** Text in which no doc comment opens, such as a plain block comment or
      a division, is left as it is by the pass of line 53. */
  lemma {:induction false} NoDocOpeningUnchanged(s: string)
    requires NoDocOpening(s)
    ensures StripDocComments(s) == s
    decreases |s|
  {
    if s != [] {
      assert s[0..] == s;
      forall k | 0 <= k < |s| - 1 ensures !StartsWith(s[1..][k..], "/*!<") {
        assert s[1..][k..] == s[k + 1..];
      }
      NoDocOpeningUnchanged(s[1..]);
      assert s == [s[0]] + s[1..];
    }
  }

  /** Without a star-slash no doc comment can close: an opening `/*!<` that
      no `*/` follows is no match, and the text stays as it is. */
  lemma {:induction false} NoCloseUnchanged(s: string)
    requires NoClose(s)
    ensures StripDocComments(s) == s
    decreases |s|
  {
    if s != [] {
      assert StartsWith(s, "/*!<") ==> FindClose(s, 4).None?;
      forall k | 0 <= k < |s[1..]| - 1 ensures !(s[1..][k] == '*' && s[1..][k + 1] == '/') {
        assert s[1..][k] == s[k + 1] && s[1..][k + 1] == s[k + 2];
      }
      NoCloseUnchanged(s[1..]);
      assert s == [s[0]] + s[1..];
    }
  }

  /** A doc comment is deleted through its first star-slash, and the text before
      it is kept. */
  lemma DocCommentRemoved(a: string, c: string, rest: string)
    requires NoDocOpening(a) && NoClose(c)
    ensures StripDocComments(a + "/*!<" + c + "*/" + rest) == a + StripDocComments(rest)
  {
    var t := "/*!<" + c + "*/" + rest;
    assert a + "/*!<" + c + "*/" + rest == a + t;
    DocCommentPrefixKept(a, t);
    DocCommentDropped(c, rest);
  }

  /** Text in which no doc comment opens is copied, when what follows it
      starts with a slash (so no opening straddles the two). */
  lemma {:induction false} DocCommentPrefixKept(a: string, t: string)
    requires NoDocOpening(a) && t != [] && t[0] == '/'
    ensures StripDocComments(a + t) == a + StripDocComments(t)
    decreases |a|
  {
    if a != [] {
      var s := a + t;
      NoDocCommentAtStart(a, t);
      forall k | 0 <= k < |a| - 1 ensures !StartsWith(a[1..][k..], "/*!<") {
        assert a[1..][k..] == a[k + 1..];
      }
      DocCommentPrefixKept(a[1..], t);
      var x := StripDocComments(t);
      var y := StripDocComments(a[1..] + t);
      TailOfConcat(a, t);
      assert StripDocComments(s) == [a[0]] + y;
      ConsPrefix(a, x, y, StripDocComments(s));
    } else {
      assert a + t == t;
      assert a + StripDocComments(t) == StripDocComments(t);
    }
  }

  lemma NoDocCommentAtStart(a: string, t: string)
    requires a != [] && NoDocOpening(a) && t != [] && t[0] == '/'
    ensures !StartsWith(a + t, "/*!<")
  {
    var s := a + t;
    if |a| >= 4 {
      assert a[0..] == a && s[..4] == a[..4];
    } else {
      assert s[|a|] == '/' && "/*!<"[|a|] != '/';
      if |s| >= 4 { assert s[..4][|a|] == s[|a|]; }
    }
  }

  lemma DocCommentDropped(c: string, rest: string)
    requires NoClose(c)
    ensures StripDocComments("/*!<" + c + "*/" + rest) == StripDocComments(rest)
  {
    var s := "/*!<" + c + "*/" + rest;
    var j := 4 + |c|;
    assert s[..4] == "/*!<";
    assert s[j] == '*' && s[j + 1] == '/';
    forall k | 4 <= k < j ensures !CloseAt(s, k) {
      assert s[k] == c[k - 4];
      if k + 1 < j { assert s[k + 1] == c[k - 3]; } else { assert s[k + 1] == '*'; }
    }
    FindCloseAt(s, 4, j);
    assert s[j + 2..] == rest;
  }

  /** Deleting doc comments from a string without `"//"` cannot create one: a
      deletion only joins the character before an opening `/` to the one
      after a closing `/`. */
  lemma {:induction false} DocCommentsKeepNoDoubleSlash(s: string)
    requires NoDoubleSlash(s)
    ensures NoDoubleSlash(StripDocComments(s))
    ensures StripDocComments(s) != [] && StripDocComments(s)[0] == '/' ==> s != [] && s[0] == '/'
    decreases |s|
  {
    if StartsWith(s, "/*!<") && FindClose(s, 4).Some? {
      var j := FindClose(s, 4).value;
      NoDoubleSlashSuffix(s, j + 2);
      DocCommentsKeepNoDoubleSlash(s[j + 2..]);
      assert s[..4][0] == s[0];
    } else if s != [] {
      NoDoubleSlashSuffix(s, 1);
      DocCommentsKeepNoDoubleSlash(s[1..]);
      assert |s| >= 2 ==> s[1..][0] == s[1] && !(s[0] == '/' && s[1] == '/');
      ConsNoDoubleSlash(s[0], StripDocComments(s[1..]));
    }
  }

  /** The three substitutions of lines 52-54, in order. No `"//"` survives
      them, and the third one (line 54) never changes anything: the first one
      has already removed every `//!<` comment. */
  function StripComments(body: string): (r: string)
    ensures NoDoubleSlash(r)
    ensures r == StripDocComments(StripToLineEnd(body, "//"))
    ensures |r| <= |body|
  {
    LineCommentsGone(body);
    DocCommentsKeepNoDoubleSlash(StripToLineEnd(body, "//"));
    NoMarkerUnchanged(StripDocComments(StripToLineEnd(body, "//")), "//!<");
    StripToLineEnd(StripDocComments(StripToLineEnd(body, "//")), "//!<")
  }

  /** A body without a slash holds no comment: stripping leaves it as it
      is. */
  lemma NoSlashUnchanged(body: string)
    requires forall i :: 0 <= i < |body| ==> body[i] != '/'
    ensures StripComments(body) == body
  {
    NoMarkerStripUnchanged(body, "//");
    NoOpeningUnchanged(body);
    NoMarkerStripUnchanged(body, "//!<");
  }

  lemma {:induction false} NoMarkerStripUnchanged(s: string, marker: string)
    requires marker != [] && marker[0] != '\n'
    requires forall i :: 0 <= i < |s| ==> s[i] != marker[0]
    ensures StripToLineEnd(s, marker) == s
    decreases |s|
  {
    if s != [] {
      assert !StartsWith(s, marker) by { assert s[0] != marker[0]; }
      NoMarkerStripUnchanged(s[1..], marker);
      assert s == [s[0]] + s[1..];
    }
  }

  lemma {:induction false} NoOpeningUnchanged(s: string)
    requires forall i :: 0 <= i < |s| ==> s[i] != '/'
    ensures StripDocComments(s) == s
    decreases |s|
  {
    if s != [] {
      assert !StartsWith(s, "/*!<") by { assert s[0] != '/'; }
      NoOpeningUnchanged(s[1..]);
      assert s == [s[0]] + s[1..];
    }
  }

  // ---------------------------------------------------------------------
  // Line 58: ^(\w+)\s+(\w+)(\[(\w+)\])?\s*;
  // ---------------------------------------------------------------------

  /** Where the optional `(\[(\w+)\])` group ends when tried at index `c`, and
      its inner group: an opening bracket, a word, a closing bracket. When it
      does not fit, the group is skipped and matching goes on at `c`. */
  function MatchLength(line: string, c: nat): (r: (Option<string>, nat))
    requires c <= |line|
    ensures c <= r.1 <= |line|
    ensures r.0.Some? ==> IsWord(r.0.value) && r.1 > c + 2 && line[c] == '[' && line[r.1 - 1] == ']'
                          && r.0.value == line[c + 1..r.1 - 1]
    ensures r.0.None? ==> r.1 == c
  {
    if c < |line| && line[c] == '[' then
      var d := RunEnd(line, c + 1, IsWordChar);
      if d > c + 1 && d < |line| && line[d] == ']' then
        RunEndAll(line, c + 1, IsWordChar);
        (Some(line[c + 1..d]), d + 1)
      else (None, c)
    else (None, c)
  }

  /** The field pattern of line 58, matched at the start of a stripped line.
      Each run is greedy and no backtracking can help: a shorter run would
      leave a word or space character where the pattern needs something
      else, and when the bracket group fits but no `;` follows it, skipping
      the group leaves `[` where `\s*;` is needed. Whatever follows the `;`
      is ignored. */
  function MatchField(line: string): (r: Option<Declaration>)
    ensures r.Some? ==> IsWord(r.value.cType) && IsWord(r.value.name)
    ensures r.Some? ==> r.value.arrayLength.Some? ==> IsWord(r.value.arrayLength.value)
    ensures r.Some? ==> StartsWith(line, r.value.cType) && ';' in line
  {
    var a := RunEnd(line, 0, IsWordChar);
    if a == 0 then None
    else
      var b := RunEnd(line, a, IsSpace);
      if b == a then None
      else
        var c := RunEnd(line, b, IsWordChar);
        if c == b then None
        else
          var (len, pos) := MatchLength(line, c);
          var e := RunEnd(line, pos, IsSpace);
          if e < |line| && line[e] == ';' then
            RunEndAll(line, 0, IsWordChar);
            RunEndAll(line, b, IsWordChar);
            Some(Declaration(line[..a], line[b..c], len))
          else None
  }

  /** The bracket group is recognised around any word. */
  lemma MatchLengthAccepts(line: string, c: nat, len: string)
    requires c + |len| + 2 <= |line| && IsWord(len)
    requires line[c] == '[' && line[c + 1..c + 1 + |len|] == len && line[c + 1 + |len|] == ']'
    ensures MatchLength(line, c) == (Some(len), c + |len| + 2)
  {
    forall k | c + 1 <= k < c + 1 + |len| ensures IsWordChar(line[k]) {
      assert line[k] == len[k - c - 1];
    }
    RunEndAt(line, c + 1, c + 1 + |len|, IsWordChar);
  }

  /** Every declaration `type`, whitespace, `name`, an optional `[length]`,
      optional whitespace and `;` is recognised, with exactly those parts,
      whatever follows the `;`. */
  lemma MatchFieldAccepts(cType: string, ws1: string, name: string, len: Option<string>,
                          ws2: string, tail: string)
    requires IsWord(cType) && IsWord(name)
    requires ws1 != [] && All(ws1, IsSpace) && All(ws2, IsSpace)
    requires len.Some? ==> IsWord(len.value)
    ensures MatchField(cType + ws1 + name + Bracketed(len) + ws2 + ";" + tail)
            == Some(Declaration(cType, name, len))
  {
    var rest := Bracketed(len) + (ws2 + (";" + tail));
    var line := cType + ws1 + name + rest;
    assert cType + ws1 + name + Bracketed(len) + ws2 + ";" + tail == line;
    BracketedStart(len, ws2, tail);
    var a := |cType|;
    var b := a + |ws1|;
    var c := b + |name|;
    var pos := c + |Bracketed(len)|;
    var e := pos + |ws2|;
    MatchFieldHead(line, cType, ws1, name, rest, a, b, c);
    MatchFieldTail(line, c, len, ws2, tail, pos, e);
    MatchFieldAt(line, a, b, c, len, pos, e);
  }

  /** The text of line 58's pattern at the start of `line`, with exactly the
      captures of `d`: the type, whitespace, the name, the optional
      bracketed length, optional whitespace and `;`. */
  ghost predicate FieldShape(line: string, d: Declaration) {
    && IsWord(d.cType) && IsWord(d.name)
    && (d.arrayLength.Some? ==> IsWord(d.arrayLength.value))
    && exists ws1, ws2 :: ws1 != [] && All(ws1, IsSpace) && All(ws2, IsSpace)
         && StartsWith(line, d.cType + ws1 + d.name + Bracketed(d.arrayLength) + ws2 + ";")
  }

  /** The recogniser yields a declaration exactly when the line begins with
      the pattern's text for that declaration: a line without that shape
      yields nothing. */
  lemma MatchFieldIff(line: string, d: Declaration)
    ensures MatchField(line) == Some(d) <==> FieldShape(line, d)
  {
    if MatchField(line) == Some(d) {
      MatchFieldSound(line);
    }
    if FieldShape(line, d) {
      var ws1, ws2 :| ws1 != [] && All(ws1, IsSpace) && All(ws2, IsSpace)
         && StartsWith(line, d.cType + ws1 + d.name + Bracketed(d.arrayLength) + ws2 + ";");
      var head := d.cType + ws1 + d.name + Bracketed(d.arrayLength) + ws2;
      var tail := line[|head| + 1..];
      assert line == head + ";" + tail by {
        assert line[..|head| + 1] == head + ";";
        SliceSplit(line, 0, |head| + 1);
      }
      MatchFieldAccepts(d.cType, ws1, d.name, d.arrayLength, ws2, tail);
    }
  }

  /** A recognised line has the pattern's shape. */
  lemma MatchFieldSound(line: string)
    requires MatchField(line).Some?
    ensures FieldShape(line, MatchField(line).value)
  {
    var d := MatchField(line).value;
    var a := RunEnd(line, 0, IsWordChar);
    var b := RunEnd(line, a, IsSpace);
    var c := RunEnd(line, b, IsWordChar);
    var (len, pos) := MatchLength(line, c);
    var e := RunEnd(line, pos, IsSpace);
    var ws1, ws2 := line[a..b], line[pos..e];
    RunSlice(line, a, IsSpace);
    RunSlice(line, pos, IsSpace);
    assert d == Declaration(line[..a], line[b..c], len);
    BracketedOfMatchLength(line, c);
    FieldPieces(line, a, b, c, pos, e, len);
  }

  /** The optional group spans exactly its bracketed text. */
  lemma BracketedOfMatchLength(line: string, c: nat)
    requires c <= |line|
    ensures line[c..MatchLength(line, c).1] == Bracketed(MatchLength(line, c).0)
  {
    var (len, pos) := MatchLength(line, c);
    if len.Some? {
      assert line[c..pos] == [line[c]] + line[c + 1..pos - 1] + [line[pos - 1]];
    }
  }

  /** A line cut at the ends of the pattern's parts. */
  lemma FieldPieces(line: string, a: nat, b: nat, c: nat, pos: nat, e: nat, len: Option<string>)
    requires a <= b <= c <= pos <= e < |line| && line[e] == ';'
    requires line[c..pos] == Bracketed(len)
    ensures line[..e + 1] == line[..a] + line[a..b] + line[b..c] + Bracketed(len) + line[pos..e] + ";"
  {
    SliceJoin(line, 0, a, b);
    SliceJoin(line, 0, b, c);
    SliceJoin(line, 0, c, pos);
    SliceJoin(line, 0, pos, e);
    SliceJoin(line, 0, e, e + 1);
    assert line[e..e + 1] == ";";
  }

  /** What follows the name never continues it. */
  lemma BracketedStart(len: Option<string>, ws2: string, tail: string)
    requires All(ws2, IsSpace)
    ensures var rest := Bracketed(len) + (ws2 + (";" + tail));
      rest != [] && !IsWordChar(rest[0])
  {
    if ws2 != [] { SpaceIsNotWord(ws2[0]); }
  }

  /** The three runs of the head of the pattern, `(\w+)\s+(\w+)`. */
  lemma MatchFieldHead(line: string, cType: string, ws1: string, name: string, rest: string,
                       a: nat, b: nat, c: nat)
    requires line == cType + ws1 + name + rest
    requires a == |cType| && b == a + |ws1| && c == b + |name|
    requires IsWord(cType) && IsWord(name)
    requires ws1 != [] && All(ws1, IsSpace)
    requires rest == [] || !IsWordChar(rest[0])
    ensures RunEnd(line, 0, IsWordChar) == a && RunEnd(line, a, IsSpace) == b
    ensures RunEnd(line, b, IsWordChar) == c
    ensures line[..a] == cType && line[b..c] == name && line[c..] == rest
  {
    forall k | 0 <= k < a ensures IsWordChar(line[k]) { assert line[k] == cType[k]; }
    forall k | a <= k < b ensures IsSpace(line[k]) { assert line[k] == ws1[k - a]; }
    forall k | b <= k < c ensures IsWordChar(line[k]) { assert line[k] == name[k - b]; }
    SpaceIsNotWord(ws1[0]);
    assert line[a] == ws1[0];
    assert c < |line| ==> line[c] == rest[0];
    assert !IsSpace(line[b]) by { assert line[b] == name[0]; }
    RunEndAt(line, 0, a, IsWordChar);
    RunEndAt(line, a, b, IsSpace);
    RunEndAt(line, b, c, IsWordChar);
    assert line[..a] == cType;
    assert line[b..c] == name;
    assert line[c..] == rest;
  }

  /** The tail of the pattern, `(\[(\w+)\])?\s*;`, from index `c`. */
  lemma MatchFieldTail(line: string, c: nat, len: Option<string>, ws2: string, tail: string,
                       pos: nat, e: nat)
    requires c <= |line| && line[c..] == Bracketed(len) + (ws2 + (";" + tail))
    requires pos == c + |Bracketed(len)| && e == pos + |ws2|
    requires All(ws2, IsSpace)
    requires len.Some? ==> IsWord(len.value)
    ensures MatchLength(line, c) == (len, pos)
    ensures RunEnd(line, pos, IsSpace) == e && e < |line| && line[e] == ';'
  {
    var u := ws2 + (";" + tail);
    DropOfSuffix(line, c, Bracketed(len), u);
    MatchFieldSemicolon(line, pos, ws2, tail);
    match len
    case Some(w) =>
      assert |Bracketed(len)| == |w| + 2;
      MatchLengthOfBracketed(line, c, w, u);
    case None =>
      assert Bracketed(len) + u == u;
      MatchLengthOfNone(line, c, ws2, tail);
  }

  lemma DropOfSuffix(line: string, c: nat, x: string, y: string)
    requires c <= |line| && line[c..] == x + y
    ensures line[c + |x|..] == y
  {
    assert line[c..][|x|..] == y;
  }

  lemma MatchLengthOfNone(line: string, c: nat, ws2: string, tail: string)
    requires c <= |line| && line[c..] == ws2 + (";" + tail)
    requires All(ws2, IsSpace)
    ensures MatchLength(line, c) == (None, c)
  {
    assert line[c] == line[c..][0];
    if ws2 != [] { SpaceIsNotWord(ws2[0]); }
  }

  lemma MatchLengthOfBracketed(line: string, c: nat, w: string, u: string)
    requires c <= |line| && line[c..] == Bracketed(Some(w)) + u
    requires IsWord(w)
    ensures MatchLength(line, c) == (Some(w), c + |w| + 2)
  {
    var t := line[c..];
    assert t == ['['] + w + [']'] + u;
    assert line[c] == t[0] == '[';
    assert line[c + 1..c + 1 + |w|] == t[1..1 + |w|] == w;
    assert line[c + 1 + |w|] == t[1 + |w|] == ']';
    MatchLengthAccepts(line, c, w);
  }

  lemma MatchFieldSemicolon(line: string, pos: nat, ws2: string, tail: string)
    requires pos <= |line| && line[pos..] == ws2 + (";" + tail)
    requires All(ws2, IsSpace)
    ensures RunEnd(line, pos, IsSpace) == pos + |ws2| && pos + |ws2| < |line|
    ensures line[pos + |ws2|] == ';'
  {
    var e := pos + |ws2|;
    var u := line[pos..];
    forall k | pos <= k < e ensures IsSpace(line[k]) {
      assert line[k] == u[k - pos] == ws2[k - pos];
    }
    assert line[e] == u[|ws2|] == ';';
    RunEndAt(line, pos, e, IsSpace);
  }

  /** The recogniser's result once the positions of its runs are known. */
  lemma MatchFieldAt(line: string, a: nat, b: nat, c: nat, len: Option<string>, pos: nat, e: nat)
    requires 0 < a < b < c <= pos <= e < |line|
    requires RunEnd(line, 0, IsWordChar) == a && RunEnd(line, a, IsSpace) == b
    requires RunEnd(line, b, IsWordChar) == c
    requires MatchLength(line, c) == (len, pos)
    requires RunEnd(line, pos, IsSpace) == e && line[e] == ';'
    ensures MatchField(line) == Some(Declaration(line[..a], line[b..c], len))
  {
  }

  /** The optional `[length]` part of a declaration. */
  function Bracketed(len: Option<string>): string
  {
    match len
    case Some(t) => "[" + t + "]"
    case None => ""
  }

  lemma SpaceIsNotWord(c: char)
    requires IsSpace(c)
    ensures !IsWordChar(c) && c != '['
  {
  }

  // ---------------------------------------------------------------------
  // Lines 59-76: the loop over the lines
  // ---------------------------------------------------------------------

  /** What one line contributes (lines 60-75): nothing for a blank line, a
      line the pattern does not match, an `enum`, or a C type the table does
      not know; otherwise one field with the table's type. */
  function LineField(line: string): (r: seq<Field>)
    ensures |r| <= 1
    ensures r != [] ==> r[0].rosType in CToRosType.Values && IsWord(r[0].name)
    ensures r != [] ==> r[0].arrayLength.Some? ==> IsWord(r[0].arrayLength.value)
  {
    var t := Trim(line, IsSpace);
    if t == [] then []
    else
      match MatchField(t)
      case None => []
      case Some(d) =>
        if d.cType == "enum" || d.cType !in CToRosType then []
        else [Field(CToRosType[d.cType], d.name, d.arrayLength)]
  }

  /** A line holding a declaration of a known type yields that one field,
      whatever follows the `;`: a second declaration on the same line is
      not read, because the pattern is matched once, at the start. */
  lemma LineFieldOfDeclaration(cType: string, ws1: string, name: string, len: Option<string>,
                               ws2: string, tail: string)
    requires IsWord(cType) && cType in CToRosType && IsWord(name)
    requires ws1 != [] && All(ws1, IsSpace) && All(ws2, IsSpace)
    requires len.Some? ==> IsWord(len.value)
    requires tail != [] ==> !IsSpace(tail[|tail| - 1])
    ensures LineField(cType + ws1 + name + Bracketed(len) + ws2 + ";" + tail)
            == [Field(CToRosType[cType], name, len)]
  {
    var head := cType + ws1 + name + Bracketed(len) + ws2;
    assert head[0] == cType[0] && IsWordChar(cType[0]);
    TrimAroundSemicolon(head, tail);
    MatchFieldAccepts(cType, ws1, name, len, ws2, tail);
    TableShape();
    LineFieldCases(head + ";" + tail);
  }

  /** A declaration of `enum` or of a type the table does not know yields
      no field. */
  lemma LineFieldOfUnknownType(cType: string, ws1: string, name: string, len: Option<string>,
                               ws2: string, tail: string)
    requires IsWord(cType) && (cType == "enum" || cType !in CToRosType) && IsWord(name)
    requires ws1 != [] && All(ws1, IsSpace) && All(ws2, IsSpace)
    requires len.Some? ==> IsWord(len.value)
    requires tail != [] ==> !IsSpace(tail[|tail| - 1])
    ensures LineField(cType + ws1 + name + Bracketed(len) + ws2 + ";" + tail) == []
  {
    var head := cType + ws1 + name + Bracketed(len) + ws2;
    assert head[0] == cType[0] && IsWordChar(cType[0]);
    TrimAroundSemicolon(head, tail);
    MatchFieldAccepts(cType, ws1, name, len, ws2, tail);
    LineFieldCases(head + ";" + tail);
  }

  /** A line that yields a field holds a declaration, after trimming, of a
      type the table knows, and the field carries that type's image. */
  lemma LineFieldImage(line: string)
    requires LineField(line) != []
    ensures var t := Trim(line, IsSpace);
      MatchField(t).Some? && MatchField(t).value.cType in CToRosType
      && MatchField(t).value.cType != "enum"
      && LineField(line) == [Field(CToRosType[MatchField(t).value.cType], MatchField(t).value.name,
                                   MatchField(t).value.arrayLength)]
  {
    LineFieldCases(line);
  }

  lemma TrimAroundSemicolon(head: string, tail: string)
    requires head != [] && !IsSpace(head[0])
    requires tail != [] ==> !IsSpace(tail[|tail| - 1])
    ensures Trim(head + ";" + tail, IsSpace) == head + ";" + tail
  {
    var line := head + ";" + tail;
    assert line[0] == head[0];
    assert line[|line| - 1] == if tail == [] then ';' else tail[|tail| - 1];
    TrimUnchanged(line, IsSpace);
  }

  /** Surrounding whitespace makes no difference to a line. */
  lemma LineFieldOfTrimmed(line: string)
    ensures LineField(Trim(line, IsSpace)) == LineField(line)
  {
    var t := Trim(line, IsSpace);
    TrimUnchanged(t, IsSpace);
    LineFieldCases(line);
    LineFieldCases(t);
  }

  /** The fields of a sequence of lines, in order. */
  function FieldsOfLines(lines: seq<string>): (r: seq<Field>)
    ensures |r| <= |lines|
  {
    if lines == [] then []
    else FieldsOfLines(lines[..|lines| - 1]) + LineField(lines[|lines| - 1])
  }

  /** The lines are read in order: the fields of two blocks of lines are
      the fields of the first block followed by those of the second. */
  lemma {:induction false} FieldsOfLinesConcat(a: seq<string>, b: seq<string>)
    ensures FieldsOfLines(a + b) == FieldsOfLines(a) + FieldsOfLines(b)
  {
    FieldsOfLinesIsFlatMap(a + b);
    FieldsOfLinesIsFlatMap(a);
    FieldsOfLinesIsFlatMap(b);
    FlatMapConcat(a, b, LineField);
  }

  /** Each line's contribution, in line order. */
  function FlatMap(lines: seq<string>, each: string -> seq<Field>): seq<Field>
  {
    if lines == [] then []
    else FlatMap(lines[..|lines| - 1], each) + each(lines[|lines| - 1])
  }

  lemma {:induction false} FlatMapConcat(a: seq<string>, b: seq<string>, each: string -> seq<Field>)
    ensures FlatMap(a + b, each) == FlatMap(a, each) + FlatMap(b, each)
    decreases |b|
  {
    if b == [] {
      assert a + b == a;
    } else {
      var init := b[..|b| - 1];
      FlatMapConcat(a, init, each);
      assert (a + b)[..|a + b| - 1] == a + init;
    }
  }

  lemma {:induction false} FieldsOfLinesIsFlatMap(lines: seq<string>)
    ensures FieldsOfLines(lines) == FlatMap(lines, LineField)
  {
    if lines != [] {
      FieldsOfLinesIsFlatMap(lines[..|lines| - 1]);
    }
  }

  /** Every field carries one of the nine ROS primitive types and a plain
      identifier as its name, and a length, when it has one, is a plain
      identifier too. */
  lemma {:induction false} FieldsOfLinesShape(lines: seq<string>)
    ensures forall f :: f in FieldsOfLines(lines) ==>
      f.rosType in RosPrimitives && IsWord(f.name)
      && (f.arrayLength.Some? ==> IsWord(f.arrayLength.value))
  {
    if lines != [] {
      TableShape();
      FieldsOfLinesShape(lines[..|lines| - 1]);
    }
  }

  /** The fields of a struct body: the fields of the lines of the body once
      its comments are gone. */
  function StructFields(body: string): (r: seq<Field>)
    ensures forall f :: f in r ==>
      f.rosType in RosPrimitives && IsWord(f.name)
      && (f.arrayLength.Some? ==> IsWord(f.arrayLength.value))
  {
    FieldsOfLinesShape(SplitLines(StripComments(body)));
    FieldsOfLines(SplitLines(StripComments(body)))
  }

  /** The array length tokens the fields use, collected as `macros_used`
      is (line 73): a token is collected exactly when some field has it as
      its length. */
  function LengthTokens(fields: seq<Field>): (r: set<string>)
    ensures forall t :: t in r <==>
      exists k :: 0 <= k < |fields| && fields[k].arrayLength == Some(t)
  {
    if fields == [] then {}
    else
      var init := fields[..|fields| - 1];
      var last := fields[|fields| - 1];
      assert forall k :: 0 <= k < |init| ==> init[k] == fields[k];
      LengthTokens(init) + if last.arrayLength.Some? then {last.arrayLength.value} else {}
  }

  /** Some line of `lines` yields exactly the field `f`. */
  predicate FromSomeLine(lines: seq<string>, f: Field) {
    exists i :: 0 <= i < |lines| && LineField(lines[i]) == [f]
  }

  /** Each field comes from one line and that line's declaration, so its C
      type is one the table knows and it carries the table's type. */
  lemma {:induction false} FieldsComeFromLines(lines: seq<string>)
    ensures forall f :: f in FieldsOfLines(lines) ==> FromSomeLine(lines, f)
  {
    if lines != [] {
      var init := lines[..|lines| - 1];
      FieldsComeFromLines(init);
      var last := LineField(lines[|lines| - 1]);
      assert FieldsOfLines(lines) == FieldsOfLines(init) + last;
      forall f | f in FieldsOfLines(lines) ensures FromSomeLine(lines, f) {
        if f in FieldsOfLines(init) {
          var i :| 0 <= i < |init| && LineField(init[i]) == [f];
          assert lines[i] == init[i];
        } else {
          assert last == [f];
          assert LineField(lines[|lines| - 1]) == [f];
        }
      }
    }
  }

  /** The body of the loop of lines 60-75 for one line: strip it, skip it
      when it is blank, when the pattern does not match or when the C type is
      `enum` or unknown, and otherwise build the field with the table's type. */
  method ParseLine(raw: string) returns (field: Option<Field>)
    ensures LineField(raw) == (if field.Some? then [field.value] else [])
  {
    LineFieldCases(raw);
    var line := Trim(raw, IsSpace);
    if line == [] {
      return None;
    }
    var m := MatchField(line);
    if m.None? {
      return None;
    }
    var d := m.value;
    if d.cType == "enum" || d.cType !in CToRosType {
      return None;
    }
    var rosType := CToRosType[d.cType];
    return Some(Field(rosType, d.name, d.arrayLength));
  }

  /** `parse_struct_fields(struct_body)`: the fields in order and the set of
      array length tokens they use. */
  method ParseStructFields(body: string) returns (fields: seq<Field>, macrosUsed: set<string>)
    ensures fields == StructFields(body)
    ensures macrosUsed == LengthTokens(fields)
  {
    var stripped := StripToLineEnd(body, "//");
    stripped := StripDocComments(stripped);
    stripped := StripToLineEnd(stripped, "//!<");
    fields := [];
    macrosUsed := {};
    var lines := SplitLines(stripped);
    assert lines[..0] == [];
    for i := 0 to |lines|
      invariant fields == FieldsOfLines(lines[..i])
      invariant macrosUsed == LengthTokens(fields)
    {
      FieldsOfLinesStep(lines, i);
      var field := ParseLine(lines[i]);
      if field.Some? {
        var f := field.value;
        LengthTokensAppend(fields, f);
        fields := fields + [f];
        if f.arrayLength.Some? {
          macrosUsed := macrosUsed + {f.arrayLength.value};
        }
      }
    }
    assert lines[..|lines|] == lines;
  }

  /** The four outcomes of one line, as the loop of lines 59-75 tells them
      apart. */
  lemma LineFieldCases(line: string)
    ensures var t := Trim(line, IsSpace);
      if t == [] || MatchField(t).None? then LineField(line) == []
      else
        var d := MatchField(t).value;
        if d.cType == "enum" || d.cType !in CToRosType then LineField(line) == []
        else LineField(line) == [Field(CToRosType[d.cType], d.name, d.arrayLength)]
  {
  }

  lemma FieldsOfLinesStep(lines: seq<string>, i: nat)
    requires i < |lines|
    ensures FieldsOfLines(lines[..i + 1]) == FieldsOfLines(lines[..i]) + LineField(lines[i])
  {
    assert lines[..i + 1][..i] == lines[..i];
  }

  lemma LengthTokensAppend(fields: seq<Field>, f: Field)
    ensures f.arrayLength.Some? ==> LengthTokens(fields + [f]) == LengthTokens(fields) + {f.arrayLength.value}
    ensures f.arrayLength.None? ==> LengthTokens(fields + [f]) == LengthTokens(fields)
  {
    assert (fields + [f])[..|fields|] == fields;
  }
}
