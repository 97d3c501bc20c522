/**
 * The macro table: `parse_macro_definitions` (tools/bsk_message_converter.py,
 * lines 31-48) and the merge of global and local macros in
 * `convert_header_to_msg` (lines 84-85).
 */
module MacroTable {
  import opened Wrappers
  import opened Text

  /** One `#define NAME VALUE` line as the pattern at line 39 captures it:
      the name and the raw text of the value. */
  datatype Define = Define(name: string, value: string)

  /** The evaluation at line 44, `str(eval(value, {}, {}))`: `Some` of the
      printed result, or `None` when `eval` raises. */
  type Evaluator = string -> Option<string>

  /** A character of the value class at line 39: `\w`, a parenthesis, `+`,
      `-`, `*` or a slash. */
  predicate IsValueChar(c: char) {
    IsWordChar(c) || c == '(' || c == ')' || c == '+' || c == '-' || c == '*' || c == '/'
  }

  lemma WordCharIsNotSpace(c: char)
    requires IsWordChar(c)
    ensures !IsSpace(c)
  {
  }

  // The recogniser of line 39:  re.match(r'#define\s+(\w+)\s+([\w\(\)\+\-\*/]+)', line)
  /** The `#define` recogniser of line 39. The match is anchored at the
      start of the line; each run is greedy and no backtracking can help, so
      the groups are the maximal runs. Whatever follows the value is
      ignored. */
  function MatchDefine(line: string): (r: Option<Define>)
    ensures r.Some? ==> |line| > 7 && line[..7] == "#define" && IsSpace(line[7])
    ensures r.Some? ==> IsWord(r.value.name)
    ensures r.Some? ==> r.value.value != [] && All(r.value.value, IsValueChar)
  {
    if |line| < 7 || line[..7] != "#define" then None
    else
      var a := RunEnd(line, 7, IsSpace);
      if a == 7 then None
      else
        var b := RunEnd(line, a, IsWordChar);
        if b == a then None
        else
          var c := RunEnd(line, b, IsSpace);
          if c == b then None
          else
            var d := RunEnd(line, c, IsValueChar);
            if d == c then None
            else
              RunEndAll(line, 7, IsSpace);
              RunEndAll(line, a, IsWordChar);
              RunEndAll(line, c, IsValueChar);
              Some(Define(line[a..b], line[c..d]))
  }

  /** Every line of the form `#define`, whitespace, a name, whitespace, a
      value, then anything that does not continue the value, is recognised,
      with exactly that name and value. */
  lemma MatchDefineAccepts(ws1: string, name: string, ws2: string, value: string, tail: string)
    requires ws1 != [] && All(ws1, IsSpace)
    requires IsWord(name)
    requires ws2 != [] && All(ws2, IsSpace)
    requires value != [] && All(value, IsValueChar)
    requires tail == [] || !IsValueChar(tail[0])
    ensures MatchDefine("#define" + ws1 + name + ws2 + value + tail) == Some(Define(name, value))
  {
    var line := "#define" + ws1 + name + ws2 + value + tail;
    var a := 7 + |ws1|;
    var b := a + |name|;
    var c := b + |ws2|;
    var d := c + |value|;
    assert line[..7] == "#define";
    assert line[7..a] == ws1 && line[a..b] == name && line[b..c] == ws2 && line[c..d] == value;
    assert line[d..] == tail;
    assert line[a] == name[0] && line[b] == ws2[0] && line[c] == value[0];
    WordCharIsNotSpace(name[0]);
    assert !IsSpace(value[0]) by {
      if IsWordChar(value[0]) { WordCharIsNotSpace(value[0]); }
    }
    RunEndOver(line, 7, a, IsSpace);
    RunEndOver(line, a, b, IsWordChar);
    RunEndOver(line, b, c, IsSpace);
    RunEndOver(line, c, d, IsValueChar);
    MatchDefineAt(line, a, b, c, d);
  }

  /** The text of line 39's pattern at the start of `line`, with exactly the
      captures of `d`: `#define`, whitespace, the name, whitespace and the
      value, which the next character, if any, does not continue. */
  ghost predicate DefineShape(line: string, d: Define) {
    && IsWord(d.name) && d.value != [] && All(d.value, IsValueChar)
    && exists ws1, ws2 :: ws1 != [] && All(ws1, IsSpace) && ws2 != [] && All(ws2, IsSpace)
         && StartsWith(line, "#define" + ws1 + d.name + ws2 + d.value)
         && ValueEnds(line, |"#define" + ws1 + d.name + ws2 + d.value|)
  }

  /** No value character at index `n`. */
  predicate ValueEnds(line: string, n: nat) {
    n >= |line| || !IsValueChar(line[n])
  }

  /** The recogniser yields a definition exactly when the line begins with
      the pattern's text for it: a line without that shape defines
      nothing. */
  lemma MatchDefineIff(line: string, d: Define)
    ensures MatchDefine(line) == Some(d) <==> DefineShape(line, d)
  {
    if MatchDefine(line) == Some(d) {
      MatchDefineSound(line);
    }
    if DefineShape(line, d) {
      var ws1, ws2 :| ws1 != [] && All(ws1, IsSpace) && ws2 != [] && All(ws2, IsSpace)
         && StartsWith(line, "#define" + ws1 + d.name + ws2 + d.value)
         && ValueEnds(line, |"#define" + ws1 + d.name + ws2 + d.value|);
      var head := "#define" + ws1 + d.name + ws2 + d.value;
      var tail := line[|head|..];
      assert line == head + tail by {
        SliceSplit(line, 0, |head|);
      }
      assert tail != [] ==> tail[0] == line[|head|];
      MatchDefineAccepts(ws1, d.name, ws2, d.value, tail);
    }
  }

  /** A recognised line has the pattern's shape. */
  lemma MatchDefineSound(line: string)
    requires MatchDefine(line).Some?
    ensures DefineShape(line, MatchDefine(line).value)
  {
    var a := RunEnd(line, 7, IsSpace);
    var b := RunEnd(line, a, IsWordChar);
    var c := RunEnd(line, b, IsSpace);
    var d := RunEnd(line, c, IsValueChar);
    assert MatchDefine(line).value == Define(line[a..b], line[c..d]);
    RunSlice(line, 7, IsSpace);
    RunSlice(line, b, IsSpace);
    DefinePieces(line, a, b, c, d);
  }

  /** A line cut at the ends of the pattern's parts. */
  lemma DefinePieces(line: string, a: nat, b: nat, c: nat, d: nat)
    requires 7 <= a <= b <= c <= d <= |line| && line[..7] == "#define"
    ensures line[..d] == "#define" + line[7..a] + line[a..b] + line[b..c] + line[c..d]
  {
    SliceJoin(line, 0, 7, a);
    SliceJoin(line, 0, a, b);
    SliceJoin(line, 0, b, c);
    SliceJoin(line, 0, c, d);
  }

  /** The recogniser's result once the four runs are known. */
  lemma MatchDefineAt(line: string, a: nat, b: nat, c: nat, d: nat)
    requires |line| >= 7 && line[..7] == "#define"
    requires 7 < a <= |line| && RunEnd(line, 7, IsSpace) == a
    requires a < b <= |line| && RunEnd(line, a, IsWordChar) == b
    requires b < c <= |line| && RunEnd(line, b, IsSpace) == c
    requires c < d <= |line| && RunEnd(line, c, IsValueChar) == d
    ensures MatchDefine(line) == Some(Define(line[a..b], line[c..d]))
  {
  }

  /** The value a definition stores (lines 43-47): the evaluated text, or the
      raw text when evaluation fails. */
  function Evaluated(d: Define, evaluate: Evaluator): string
  {
    match evaluate(d.value)
    case Some(v) => v
    case None => d.value
  }

  /** The definition on one line, if it holds one: at most one, and only one
      of the pattern's shape. */
  function DefinesOfLine(line: string): (r: seq<Define>)
    ensures |r| <= 1
    ensures forall d :: d in r ==> DefineShape(line, d)
  {
    match MatchDefine(line)
    case Some(d) => MatchDefineSound(line); [d]
    case None => []
  }

  /** The definitions in a sequence of lines, in order. */
  function DefinesOfLines(lines: seq<string>): seq<Define>
  {
    if lines == [] then []
    else DefinesOfLines(lines[..|lines| - 1]) + DefinesOfLine(lines[|lines| - 1])
  }

  /** The definitions in one file; `None` stands for a path that is not a
      file, which is skipped (line 35). */
  function DefinesOfFile(file: Option<string>): seq<Define>
  {
    match file
    case Some(text) => DefinesOfLines(FileLines(text))
    case None => []
  }

  /** The definitions in a sequence of files, in order. */
  function DefinesOfFiles(files: seq<Option<string>>): seq<Define>
  {
    if files == [] then []
    else DefinesOfFiles(files[..|files| - 1]) + DefinesOfFile(files[|files| - 1])
  }

  /** The dictionary that storing the definitions one after the other builds:
      its names are exactly the names that some definition defines. */
  function TableOf(defines: seq<Define>, evaluate: Evaluator): (r: map<string, string>)
    ensures r.Keys == set d | d in defines :: d.name
  {
    if defines == [] then map[]
    else
      var init := defines[..|defines| - 1];
      var last := defines[|defines| - 1];
      assert defines == init + [last];
      TableOf(init, evaluate)[last.name := Evaluated(last, evaluate)]
  }

  lemma TableOfAppend(defines: seq<Define>, d: Define, evaluate: Evaluator)
    ensures TableOf(defines + [d], evaluate) == TableOf(defines, evaluate)[d.name := Evaluated(d, evaluate)]
  {
    assert (defines + [d])[..|defines|] == defines;
  }

  /** A later `#define` of a name overwrites an earlier one: the table holds
      the value of the last definition of each name. */
  lemma {:induction false} LastDefineWins(defines: seq<Define>, evaluate: Evaluator, i: nat)
    requires i < |defines|
    requires forall j :: i < j < |defines| ==> defines[j].name != defines[i].name
    ensures defines[i].name in TableOf(defines, evaluate)
    ensures TableOf(defines, evaluate)[defines[i].name] == Evaluated(defines[i], evaluate)
  {
    var init := defines[..|defines| - 1];
    if i < |defines| - 1 {
      forall j | i < j < |init| ensures init[j].name != init[i].name {
        assert init[j] == defines[j];
      }
      LastDefineWins(init, evaluate, i);
    }
  }

  lemma DefinesOfLinesStep(lines: seq<string>, k: nat)
    requires k < |lines|
    ensures DefinesOfLines(lines[..k + 1]) == DefinesOfLines(lines[..k]) + DefinesOfLine(lines[k])
  {
    assert lines[..k + 1][..k] == lines[..k];
  }

  lemma DefinesOfFilesStep(files: seq<Option<string>>, i: nat)
    requires i < |files|
    ensures DefinesOfFiles(files[..i + 1]) == DefinesOfFiles(files[..i]) + DefinesOfFile(files[i])
  {
    assert files[..i + 1][..i] == files[..i];
  }

  /** Storing the definition found on one more line, if any. */
  lemma TableOfLine(before: seq<Define>, done: seq<Define>, line: string, evaluate: Evaluator)
    ensures MatchDefine(line).Some? ==>
      TableOf(before + (done + DefinesOfLine(line)), evaluate)
      == TableOf(before + done, evaluate)[MatchDefine(line).value.name := Evaluated(MatchDefine(line).value, evaluate)]
    ensures MatchDefine(line).None? ==>
      TableOf(before + (done + DefinesOfLine(line)), evaluate) == TableOf(before + done, evaluate)
  {
    assert before + (done + DefinesOfLine(line)) == (before + done) + DefinesOfLine(line);
    if MatchDefine(line).Some? {
      TableOfAppend(before + done, MatchDefine(line).value, evaluate);
    } else {
      assert (before + done) + DefinesOfLine(line) == before + done;
    }
  }

  /** `parse_macro_definitions(*macro_paths)`: read every existing file line
      by line and store each definition, a later one overwriting an earlier
      one of the same name. */
  method ParseMacroDefinitions(files: seq<Option<string>>, evaluate: Evaluator)
    returns (macros: map<string, string>)
    ensures macros == TableOf(DefinesOfFiles(files), evaluate)
  {
    macros := map[];
    for i := 0 to |files|
      invariant macros == TableOf(DefinesOfFiles(files[..i]), evaluate)
    {
      DefinesOfFilesStep(files, i);
      if files[i].None? {
        assert DefinesOfFile(files[i]) == [];
        assert DefinesOfFiles(files[..i + 1]) == DefinesOfFiles(files[..i]);
        continue;
      }
      var lines := FileLines(files[i].value);
      ghost var before := DefinesOfFiles(files[..i]);
      assert DefinesOfLines(lines[..0]) == [];
      assert before + DefinesOfLines(lines[..0]) == before;
      for k := 0 to |lines|
        invariant macros == TableOf(before + DefinesOfLines(lines[..k]), evaluate)
      {
        DefinesOfLinesStep(lines, k);
        TableOfLine(before, DefinesOfLines(lines[..k]), lines[k], evaluate);
        var m := MatchDefine(lines[k]);
        if m.Some? {
          macros := macros[m.value.name := Evaluated(m.value, evaluate)];
        }
      }
      assert lines[..|lines|] == lines;
      assert DefinesOfFile(files[i]) == DefinesOfLines(lines);
    }
    assert files[..|files|] == files;
  }

  /** `macros = dict(global_macros); macros.update(local_macros)` (lines 84-85):
      every name either table defines, with the local value where the header
      defines the name and the global value otherwise. */
  function Merge(globals: map<string, string>, locals: map<string, string>): (m: map<string, string>)
    ensures m.Keys == globals.Keys + locals.Keys
    ensures forall name :: name in locals ==> m[name] == locals[name]
    ensures forall name :: name in globals && name !in locals ==> m[name] == globals[name]
  {
    globals + locals
  }
}
