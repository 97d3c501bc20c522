/**
 * Worked examples: concrete inputs worked through the model, with the outputs
 * the two-pass rule of `camel_to_snake`, the constant classification, the
 * array length resolution and the whole conversion give. The step lemmas
 * take their input as a parameter equal to the literal, which keeps the
 * verifier from evaluating every function on the literal at once.
 */
module Examples {
  import opened Wrappers
  import opened Text
  import opened Naming
  import opened RosTypes
  import opened MacroTable
  import opened FieldParser
  import opened MsgConverter
  import opened StructLocator
  import opened Sorting

  // ---------------------------------------------------------------------
  // camel_to_snake
  // ---------------------------------------------------------------------

  /** `camel_to_snake` computed pass by pass. */
  lemma CamelToSnakeOfPasses(name: string, s1: string, s2: string, r: string)
    requires InsertBeforeWords(name) == s1
    requires SplitCaseBoundaries(s1) == s2
    requires Lower(s2) == r
    requires IsNormalized(r)
    ensures CamelToSnake(name) == r
  {
    CollapseUnderscoresUnchanged(r);
    TrimUnchanged(r, IsUnderscore);
  }

  /** One step of the second substitution where no boundary starts. */
  lemma SplitStep(s: string)
    requires s != [] && !(|s| >= 2 && (IsLower(s[0]) || IsDigit(s[0])) && IsUpper(s[1]))
    ensures SplitCaseBoundaries(s) == [s[0]] + SplitCaseBoundaries(s[1..])
  {
  }

  /** One step of the second substitution where a boundary starts. */
  lemma SplitBoundary(s: string)
    requires |s| >= 2 && (IsLower(s[0]) || IsDigit(s[0])) && IsUpper(s[1])
    ensures SplitCaseBoundaries(s) == [s[0], '_', s[1]] + SplitCaseBoundaries(s[2..])
  {
  }

  lemma MPointsFirstPass(s: string)
    requires s == "mPoints"
    ensures InsertBeforeWords(s) == "m_Points"
  {
    InsertBeforeWordsMatchAtStart('m', 'P', "oints", "");
    assert s == ['m', 'P'] + "oints" + "";
    assert InsertBeforeWords("") == "";
    MPointsSpelling();
  }

  lemma MPointsSpelling()
    ensures ['m', '_', 'P'] + "oints" + "" == "m_Points"
  {
  }

  lemma NumPointsFirstPass(s: string)
    requires s == "numPoints"
    ensures InsertBeforeWords(s) == "num_Points"
  {
    var t := s[1..];
    MPointsFirstPass(t[1..]);
    InsertBeforeWordsNoMatch(t);
    InsertBeforeWordsNoMatch(s);
    NumPointsSpelling(s[0], t[0]);
  }

  lemma NumPointsSpelling(a: char, b: char)
    requires a == 'n' && b == 'u'
    ensures [a] + ([b] + "m_Points") == "num_Points"
  {
  }

  /** The second pass leaves a capitalised word after an underscore as it
      is, when nothing before it is a case boundary: `num_Points` and
      `ABC_Def` pass unchanged. */
  lemma UnderscoreWordSecondPass(s: string, p: string, u: char, w: string)
    requires s == p + "_" + [u] + w
    requires forall i :: 0 <= i < |p| - 1 ==> !CaseBoundaryAt(p, i)
    requires IsUpper(u) && NoUpper(w)
    ensures SplitCaseBoundaries(s) == s
  {
    var a, t := p + "_", [u] + w;
    assert s == a + t;
    forall i | 0 <= i < |a| && i < |s| - 1
      ensures !CaseBoundaryAt(s, i)
    {
      if i < |p| - 1 {
        assert s[i] == p[i] && s[i + 1] == p[i + 1];
        assert !CaseBoundaryAt(p, i);
      } else if i == |p| - 1 {
        assert s[i + 1] == '_';
      } else {
        assert s[i] == '_';
      }
    }
    SplitStep(t);
    assert t[1..] == w;
    SplitCaseBoundariesUnchanged(w);
    SplitCaseBoundariesSkips(a, t);
  }

  lemma UnderscoreWordExamples(s1: string, s2: string)
    requires s1 == "num_Points" && s2 == "ABC_Def"
    ensures SplitCaseBoundaries(s1) == s1
    ensures SplitCaseBoundaries(s2) == s2
  {
    UnderscoreWordSecondPass(s1, "num", 'P', "oints");
    UnderscoreWordSecondPass(s2, "ABC", 'D', "ef");
  }

  lemma NumPointsLower(s: string)
    requires s == "num_Points"
    ensures Lower(s) == "num_points"
  {
  }

  lemma NumPointsNormalized(s: string)
    requires s == "num_points"
    ensures IsNormalized(s)
  {
  }

  /** A lower-case word after a capital is split off: `numPoints` becomes
      `num_points`. */
  lemma CamelToSnakeNumPoints()
    ensures CamelToSnake("numPoints") == "num_points"
  {
    NumPointsFirstPass("numPoints");
    UnderscoreWordExamples("num_Points", "ABC_Def");
    NumPointsLower("num_Points");
    NumPointsNormalized("num_points");
    CamelToSnakeOfPasses("numPoints", "num_Points", "num_Points", "num_points");
  }

  lemma SigmaBNLower(s: string)
    requires s == "sigma_BN"
    ensures Lower(s) == "sigma_bn" && IsNormalized("sigma_bn")
  {
  }

  lemma SigmaBNFirstPass(s: string)
    requires s == "sigma_BN"
    ensures InsertBeforeWords(s) == s
  {
    assert s + "" == s;
    InsertBeforeWordsSkips(s, "");
  }

  lemma SigmaBNSecondPass(s: string)
    requires s == "sigma_BN"
    ensures SplitCaseBoundaries(s) == s
  {
    assert s + "" == s;
    SplitCaseBoundariesSkips(s, "");
  }

  /** A trailing acronym only loses its capitals: `sigma_BN` becomes
      `sigma_bn`. */
  lemma CamelToSnakeSigmaBN()
    ensures CamelToSnake("sigma_BN") == "sigma_bn"
  {
    SigmaBNFirstPass("sigma_BN");
    SigmaBNSecondPass("sigma_BN");
    SigmaBNLower("sigma_BN");
    CamelToSnakeOfPasses("sigma_BN", "sigma_BN", "sigma_BN", "sigma_bn");
  }

  lemma ABCDefFirstPass(s: string)
    requires s == "ABCDef"
    ensures InsertBeforeWords(s) == "ABC_Def"
  {
    var t := s[1..];
    var u := t[1..];
    assert WordStartsAt(u, 0);
    assert u[2..] == "ef";
    assert Span("ef", IsLower) == 2;
    assert u[4..] == [];
    InsertBeforeWordsNoMatch(t);
    InsertBeforeWordsNoMatch(s);
  }

  lemma ABCDefLower(s: string)
    requires s == "ABC_Def"
    ensures Lower(s) == "abc_def" && IsNormalized("abc_def")
  {
  }

  /** An acronym followed by a capitalised word is split before the word's
      capital: `ABCDef` becomes `abc_def`. */
  lemma CamelToSnakeABCDef()
    ensures CamelToSnake("ABCDef") == "abc_def"
  {
    ABCDefFirstPass("ABCDef");
    UnderscoreWordExamples("num_Points", "ABC_Def");
    ABCDefLower("ABC_Def");
    CamelToSnakeOfPasses("ABCDef", "ABC_Def", "ABC_Def", "abc_def");
  }

  lemma ABcDeFirstPass(s: string)
    requires s == "aBcDe"
    ensures InsertBeforeWords(s) == "a_BcDe"
  {
    assert WordStartsAt(s, 0);
    assert s[2..] == "cDe";
    assert Span("cDe", IsLower) == 1;
    var rest := s[3..];
    assert rest == "De";
    InsertBeforeWordsSkips(rest, "");
    assert rest + "" == rest;
  }

  lemma ABcDeSecondPass(s: string)
    requires s == "a_BcDe"
    ensures SplitCaseBoundaries(s) == "a_Bc_De"
  {
    var rest := s[3..];
    assert rest == "cDe";
    SplitBoundary(rest);
    SplitCaseBoundariesUnchanged(rest[2..]);
    assert s[..3] + rest == s;
    SplitCaseBoundariesSkips(s[..3], rest);
  }

  lemma ABcDeLower(s: string)
    requires s == "a_Bc_De"
    ensures Lower(s) == "a_bc_de" && IsNormalized("a_bc_de")
  {
  }

  /** The first pass consumes `Bc` whole, so it cannot also split `cD`; the
      second pass does: `aBcDe` becomes `a_BcDe`, then `a_Bc_De`, then
      `a_bc_de`. */
  lemma CamelToSnakeABcDe()
    ensures CamelToSnake("aBcDe") == "a_bc_de"
  {
    ABcDeFirstPass("aBcDe");
    ABcDeSecondPass("a_BcDe");
    ABcDeLower("a_Bc_De");
    CamelToSnakeOfPasses("aBcDe", "a_BcDe", "a_Bc_De", "a_bc_de");
  }

  // ---------------------------------------------------------------------
  // Constants, array lengths, duplicates and one-declaration lines
  // ---------------------------------------------------------------------

  lemma DigitsOf(s: string, n: nat)
    requires IsDigitText(s) && DigitsValue(s) == n
    requires !IsIntSpace(s[0]) && !IsIntSpace(s[|s| - 1]) && s[0] != '+' && s[0] != '-'
    ensures ParseInt(s) == Some(n)
  {
    TrimUnchanged(s, IsIntSpace);
  }

  lemma Parse200(s: string)
    requires s == "200"
    ensures ParseInt(s) == Some(200)
  {
    assert IsDigitText(s);
    var s1 := s[..1];
    var s2 := s[..2];
    assert s2[..1] == s1 && s[..2] == s2;
    assert DigitsValue(s1[..0]) == 0;
    assert DigitsValue(s1) == 2;
    assert DigitsValue(s2) == 20;
    assert DigitsValue(s) == 200;
    DigitsOf(s, 200);
  }

  lemma Parse300(s: string)
    requires s == "300"
    ensures ParseInt(s) == Some(300)
  {
    assert IsDigitText(s);
    var s1 := s[..1];
    var s2 := s[..2];
    assert s2[..1] == s1 && s[..2] == s2;
    assert DigitsValue(s1[..0]) == 0;
    assert DigitsValue(s1) == 3;
    assert DigitsValue(s2) == 30;
    assert DigitsValue(s) == 300;
    DigitsOf(s, 300);
  }

  lemma ParseHex(s: string)
    requires s == "0x10"
    ensures ParseInt(s) == None
  {
    TrimUnchanged(s, IsIntSpace);
    assert !IsDigit(s[1]) && s[1] != '_';
  }

  /** `int()` strips a tab and a newline around the digits, but not the
      file separator U+001C, although `str.isspace` accepts it. */
  lemma IntWhitespace(padded: string, separated: string)
    requires padded == "\t5\n" && separated == "\U{1C}5"
    ensures ParseInt(padded) == Some(5)
    ensures ParseInt(separated) == None
    ensures IsSpace(separated[0])
  {
    IntPadded(padded);
    IntSeparated(separated);
  }

  lemma IntPadded(padded: string)
    requires padded == "\t" + "5" + "\n"
    ensures ParseInt(padded) == Some(5)
  {
    TrimPadded("\t", "5", "\n", IsIntSpace);
    ParseSingle("5");
  }

  lemma IntSeparated(separated: string)
    requires separated == "\U{1C}5"
    ensures ParseInt(separated) == None && IsSpace(separated[0])
  {
    TrimUnchanged(separated, IsIntSpace);
    assert !IsDigit(separated[0]);
  }

  lemma ConstantTypeExamples()
    ensures ConstantType("200") == "uint8"
    ensures ConstantType("300") == "int32"
    ensures ConstantType("0x10") == "int32"
  {
    Parse200("200");
    Parse300("300");
    ParseHex("0x10");
  }

  lemma ParseSingle(s: string)
    requires |s| == 1 && IsDigit(s[0])
    ensures ParseInt(s) == Some(DigitValue(s[0]))
    ensures IntToString(DigitValue(s[0])) == s
  {
    assert s[..0] == [];
    DigitsOf(s, DigitValue(s[0]));
  }

  lemma ResolveOverride()
    ensures ResolveLength("SIZE", Merge(map["SIZE" := "4"], map["SIZE" := "8"])) == "8"
  {
    ParseSingle("8");
  }

  lemma Parse007(s: string)
    requires s == "007"
    ensures ParseInt(s) == Some(7)
  {
    assert IsDigitText(s);
    var s1 := s[..1];
    var s2 := s[..2];
    assert s2[..1] == s1 && s[..2] == s2;
    assert DigitsValue(s1[..0]) == 0;
    assert DigitsValue(s1) == 0;
    assert DigitsValue(s2) == 0;
    assert DigitsValue(s) == 7;
    DigitsOf(s, 7);
  }

  lemma ResolveNumeric()
    ensures ResolveLength("007", map[]) == "7"
  {
    Parse007("007");
    ParseSingle("7");
  }

  /** A macro whose value `eval` rejects is stored raw (`(M)` names no
      variable), and `int()` rejects it too, so the length stays as text. */
  lemma ResolveRaw()
    ensures ResolveLength("N", map["N" := "(M)"]) == "(M)"
  {
    var s := "(M)";
    TrimUnchanged(s, IsIntSpace);
    assert !IsDigit(s[0]);
  }

  /** Of two fields that normalise to the same name only the first is kept. */
  lemma KeptOfTwo(f1: Field, f2: Field, nameOf: Field -> string)
    requires nameOf(f1) == nameOf(f2)
    ensures Kept([f1, f2], nameOf) == [f1]
  {
    var fs := [f1, f2];
    assert fs[..1] == [f1];
    assert [f1][..0] == [];
    assert NamesOf([f1], nameOf) == {nameOf(f1)};
    assert Kept([f1], nameOf) == [f1];
  }

  lemma SameSnake(a: string, b: string)
    requires a == "numPoints" && b == "num_points"
    ensures CamelToSnake(a) == CamelToSnake(b)
  {
    CamelToSnakeNumPoints();
    NumPointsNormalized(b);
    NormalizedUnchanged(b);
  }

  /** `numPoints` and `num_points` both become `num_points`: the second
      field is dropped. */
  lemma DuplicateSnake()
    ensures Kept([Field("float64", "numPoints", None), Field("int32", "num_points", None)], Snake)
            == [Field("float64", "numPoints", None)]
  {
    SameSnake("numPoints", "num_points");
    KeptOfTwo(Field("float64", "numPoints", None), Field("int32", "num_points", None), Snake);
  }

  lemma DeclarationLine(line: string, cType: string, name: string, len: string, tail: string)
    requires line == "double sigma_BN[3]; int numPoints;"
    requires cType == "double" && name == "sigma_BN" && len == "3" && tail == line[19..]
    ensures line == cType + " " + name + Bracketed(Some(len)) + "" + ";" + tail
  {
  }

  lemma DeclarationWords(cType: string, name: string, len: string)
    requires cType == "double" && name == "sigma_BN" && len == "3"
    ensures IsWord(cType) && IsWord(name) && IsWord(len)
    ensures cType in CToRosType && CToRosType[cType] == "float64"
  {
  }

  /** Only the first declaration on a line is read. */
  lemma FirstDeclarationOnly(line: string)
    requires line == "double sigma_BN[3]; int numPoints;"
    ensures LineField(line) == [Field("float64", "sigma_BN", Some("3"))]
  {
    var tail := line[19..];
    assert tail == " int numPoints;";
    DeclarationLine(line, "double", "sigma_BN", "3", tail);
    DeclarationWords("double", "sigma_BN", "3");
    LineFieldOfDeclaration("double", " ", "sigma_BN", Some("3"), "", tail);
  }

  // ---------------------------------------------------------------------
  // Reading a macro file
  // ---------------------------------------------------------------------

  /** A file of two `#define` lines is read as those two lines, each with its
      newline. */
  lemma TwoDefineLines(l1: string, l2: string)
    requires l1 == "#define A 1" && l2 == "#define B 2"
    ensures FileLines(l1 + "\n" + (l2 + "\n" + "")) == [l1 + "\n", l2 + "\n"]
  {
    FileLinesCons(l2, "");
    FileLinesCons(l1, l2 + "\n" + "");
  }

  /** Those two lines define `A` and then `B`. */
  lemma TwoDefines(l1: string, l2: string)
    requires l1 == "#define" + " " + "A" + " " + "1" && l2 == "#define" + " " + "B" + " " + "2"
    ensures DefinesOfFile(Some(l1 + "\n" + (l2 + "\n" + ""))) == [Define("A", "1"), Define("B", "2")]
  {
    TwoDefineLines(l1, l2);
    OneDefine(l1, "A", "1");
    OneDefine(l2, "B", "2");
    DefinesOfTwoLines(l1 + "\n", l2 + "\n", Define("A", "1"), Define("B", "2"));
  }

  /** So the dictionary read from that file names both. */
  lemma TwoDefinesTable(l1: string, l2: string, evaluate: Evaluator)
    requires l1 == "#define" + " " + "A" + " " + "1" && l2 == "#define" + " " + "B" + " " + "2"
    ensures TableOf(DefinesOfFile(Some(l1 + "\n" + (l2 + "\n" + ""))), evaluate).Keys == {"A", "B"}
  {
    TwoDefines(l1, l2);
    var ds := [Define("A", "1"), Define("B", "2")];
    assert (set d | d in ds :: d.name) == {"A", "B"} by {
      assert ds[0].name == "A" && ds[1].name == "B";
    }
  }

  lemma OneDefine(line: string, name: string, value: string)
    requires line == "#define" + " " + name + " " + value
    requires IsWord(name) && value != [] && All(value, IsValueChar)
    ensures DefinesOfLine(line + "\n") == [Define(name, value)]
  {
    MatchDefineAccepts(" ", name, " ", value, "\n");
  }

  lemma DefinesOfTwoLines(x: string, y: string, dx: Define, dy: Define)
    requires DefinesOfLine(x) == [dx] && DefinesOfLine(y) == [dy]
    ensures DefinesOfLines([x, y]) == [dx, dy]
  {
    assert [x, y][..1] == [x];
    assert [x][..0] == [];
    assert DefinesOfLines([x]) == DefinesOfLines([]) + DefinesOfLine(x);
    assert DefinesOfLines([x, y]) == DefinesOfLines([x]) + DefinesOfLine(y);
  }

  // ---------------------------------------------------------------------
  // Comments
  // ---------------------------------------------------------------------

  /** A doc comment that is opened and never closed is no match and stays. */
  lemma UnclosedDocComment(s: string)
    requires s == "int a; /*!< open"
    ensures StripDocComments(s) == s
  {
    NoCloseUnchanged(s);
  }

  /** A single slash at the end of a text starts no line comment. */
  lemma TrailingSlash(s: string)
    requires s == "x = a/"
    ensures StripToLineEnd(s, "//") == s
  {
    NoMarkerUnchanged(s, "//");
  }

  // ---------------------------------------------------------------------
  // A whole header on one line
  // ---------------------------------------------------------------------

  /** The characters of the declaration line. */
  lemma LineChars(line: string)
    requires line == "double sigma_BN[3]; int numPoints;"
    ensures forall i :: 0 <= i < |line| ==>
      line[i] != '/' && line[i] != '}' && line[i] != '#' && !IsLineBoundary(line[i])
  {
  }

  lemma OutputLine(a: string, c: string, e: string, r: string)
    requires a == "float64" && c == "3" && e == "sigma_bn"
    requires r == "float64[3] sigma_bn"
    ensures a + "[" + c + "] " + e == r
  {
  }

  /** The header text, cut where the struct pattern needs it. */
  lemma OneLineHeaderShape(header: string, line: string)
    requires header == "typedef struct { " + line + " } SomeMsgPayload;"
    ensures header == Keyword + " " + "{" + (" " + line + " ") + "}" + " " + "SomeMsgPayload" + ";" + ""
  {
    assert "typedef struct { " == Keyword + " " + "{" + " ";
    assert " } SomeMsgPayload;" == " " + "}" + " " + "SomeMsgPayload" + ";" + "";
  }

  /** The header has no newline and does not start a definition. */
  lemma OneLineHeaderChars(header: string, line: string)
    requires line == "double sigma_BN[3]; int numPoints;"
    requires header == "typedef struct { " + line + " } SomeMsgPayload;"
    ensures header != [] && All(header, NotNewline) && MatchDefine(header).None?
  {
    LineChars(line);
    assert All(line, NotNewline);
    HeaderEnds("typedef struct { ", " } SomeMsgPayload;");
    AllConcat("typedef struct { ", line, NotNewline);
    AllConcat("typedef struct { " + line, " } SomeMsgPayload;", NotNewline);
    NotADefine(header);
  }

  lemma HeaderEnds(pre: string, post: string)
    requires pre == "typedef struct { " && post == " } SomeMsgPayload;"
    ensures All(pre, NotNewline) && All(post, NotNewline) && pre[0] == 't'
  {
  }

  /** A line whose first character is not `#` defines nothing. */
  lemma NotADefine(line: string)
    requires line != [] && line[0] != '#'
    ensures MatchDefine(line).None?
  {
    if |line| >= 7 {
      assert line[..7][0] == line[0];
    }
  }

  /** A header that defines nothing brings no macro of its own. */
  lemma NoLocalMacros(header: string, evaluate: Evaluator)
    requires header != [] && All(header, NotNewline) && MatchDefine(header).None?
    ensures MacrosFor(header, map[], evaluate) == map[]
  {
    FileLinesSingle(header);
    assert [header][..0] == [];
    assert DefinesOfLines([header]) == [];
    assert [Some(header)][..0] == [];
    assert DefinesOfFiles([Some(header)]) == [];
  }

  /** The body between the braces: the declaration line padded by a blank
      on each side. */
  lemma OneLineBodyChars(line: string, body: string)
    requires line == "double sigma_BN[3]; int numPoints;"
    requires body == " " + line + " "
    ensures body != [] && All(body, NotCloseBrace) && All(body, NotLineBoundary)
    ensures forall i :: 0 <= i < |body| ==> body[i] != '/'
    ensures Trim(body, IsSpace) == line
  {
    LineChars(line);
    forall i | 0 <= i < |body|
      ensures body[i] != '/' && NotCloseBrace(body[i]) && NotLineBoundary(body[i])
    {
      if 0 < i <= |line| {
        assert body[i] == line[i - 1];
      }
    }
    assert line[0] == 'd' && line[|line| - 1] == ';';
    TrimPadded(" ", line, " ", IsSpace);
  }

  /** A body of one line yields the field that line yields. */
  lemma FieldsOfOneLineBody(body: string)
    requires body != [] && All(body, NotLineBoundary)
    requires forall i :: 0 <= i < |body| ==> body[i] != '/'
    ensures StructFields(body) == LineField(Trim(body, IsSpace))
  {
    NoSlashUnchanged(body);
    SplitLinesSingle(body);
    assert [body][..0] == [];
    assert FieldsOfLines([body]) == LineField(body);
    LineFieldOfTrimmed(body);
  }

  lemma OneLineFields(line: string, body: string)
    requires line == "double sigma_BN[3]; int numPoints;"
    requires body == " " + line + " "
    ensures StructFields(body) == [Field("float64", "sigma_BN", Some("3"))]
  {
    OneLineBodyChars(line, body);
    FieldsOfOneLineBody(body);
    FirstDeclarationOnly(line);
  }

  lemma SomeMsgPayloadName(name: string, file: string)
    requires name == "SomeMsgPayload" && file == "SomeMsgPayload.msg"
    ensures IsWord(name) && name + ".msg" == file
  {
  }

  /** The only field's line, with no macro in force. */
  lemma SigmaFieldLine(f: Field, r: string)
    requires f == Field("float64", "sigma_BN", Some("3"))
    requires r == "float64[3] sigma_bn"
    ensures FieldLine(f, map[]) == r
  {
    ParseSingle("3");
    assert ResolveLength("3", map[]) == "3";
    CamelToSnakeSigmaBN();
    OutputLine("float64", "3", "sigma_bn", r);
  }

  /** Without any macro no constant line is written. */
  lemma NoConstantsWithoutMacros(fields: seq<Field>)
    ensures ConstantNamesFor(fields, map[]) == []
  {
    NoneDefined(SortStrings(TokenSeq(fields)));
  }

  lemma {:induction false} NoneDefined(names: seq<string>)
    ensures ConstantNames(names, map[]) == []
  {
    if names != [] {
      NoneDefined(names[..|names| - 1]);
    }
  }

  lemma KeptSingle(f: Field, nameOf: Field -> string)
    ensures Kept([f], nameOf) == [f]
  {
    assert [f][..0] == [];
  }

  lemma SingleFieldText(f: Field, macros: map<string, string>)
    ensures MsgText(ConstantLinesOf([], macros), FieldLinesOf(Kept([f], Snake), macros))
            == FieldLine(f, macros) + "\n"
  {
    KeptSingle(f, Snake);
    assert [f][..0] == [];
    assert FieldLinesOf([f], macros) == [FieldLine(f, macros)];
    OneLineText(ConstantLinesOf([], macros), FieldLine(f, macros));
  }

  /** Without constant lines, one field line is the whole text. */
  lemma OneLineText(constantLines: seq<string>, line: string)
    requires constantLines == []
    ensures MsgText(constantLines, [line]) == line + "\n"
  {
    assert constantLines + [line] == [line];
    assert [line][..0] == [];
    assert Terminated([line]) == [] + line + "\n";
  }

  /** A struct with a single field gives a file of that one field line,
      when no constant line is due. */
  lemma ConvertOneField(header: string, globals: map<string, string>, evaluate: Evaluator,
                        m: StructMatch, f: Field, macros: map<string, string>)
    requires FindStruct(header) == Some(m) && StructFields(m.body) == [f]
    requires MacrosFor(header, globals, evaluate) == macros
    requires ConstantNamesFor([f], macros) == []
    ensures Convert(header, globals, evaluate) == Some(MsgFile(m.typeName + ".msg", FieldLine(f, macros) + "\n"))
  {
    SingleFieldText(f, macros);
  }

  /** The header `typedef struct { double sigma_BN[3]; int numPoints; }
      SomeMsgPayload;`, written on one line, gives `SomeMsgPayload.msg`
      holding the single line `float64[3] sigma_bn`: the field parser reads
      one declaration per line, so `numPoints` is not read. */
  lemma EndToEndOneLine(line: string, header: string, evaluate: Evaluator)
    requires line == "double sigma_BN[3]; int numPoints;"
    requires header == "typedef struct { " + line + " } SomeMsgPayload;"
    ensures Convert(header, map[], evaluate) == Some(MsgFile("SomeMsgPayload.msg", "float64[3] sigma_bn\n"))
  {
    var body := " " + line + " ";
    var name := "SomeMsgPayload";
    OneLineHeaderShape(header, line);
    OneLineBodyChars(line, body);
    SomeMsgPayloadName(name, "SomeMsgPayload.msg");
    FindStructAtStart(" ", body, " ", name, "");
    OneLineFields(line, body);
    OneLineHeaderChars(header, line);
    NoLocalMacros(header, evaluate);
    var f := Field("float64", "sigma_BN", Some("3"));
    NoConstantsWithoutMacros([f]);
    ConvertOneField(header, map[], evaluate, StructMatch(body, name), f, map[]);
    SigmaFieldLine(f, "float64[3] sigma_bn");
    LineEnded("float64[3] sigma_bn", "float64[3] sigma_bn\n");
  }

  lemma LineEnded(r: string, t: string)
    requires r == "float64[3] sigma_bn" && t == "float64[3] sigma_bn\n"
    ensures r + "\n" == t
  {
  }

  // ---------------------------------------------------------------------
  // The same struct with one declaration per line
  // ---------------------------------------------------------------------

  /** Indentation before a declaration does not change what it yields. */
  lemma LineFieldIndented(indent: string, decl: string)
    requires All(indent, IsSpace)
    requires decl != [] && !IsSpace(decl[0]) && !IsSpace(decl[|decl| - 1])
    ensures LineField(indent + decl) == LineField(decl)
  {
    assert indent + decl + "" == indent + decl;
    TrimPadded(indent, decl, "", IsSpace);
    LineFieldOfTrimmed(indent + decl);
    TrimUnchanged(decl, IsSpace);
  }

  lemma SigmaDeclarationShape(decl: string)
    requires decl == "double sigma_BN[3];"
    ensures decl == "double" + " " + "sigma_BN" + Bracketed(Some("3")) + "" + ";" + ""
  {
  }

  lemma SigmaDeclaration(decl: string)
    requires decl == "double sigma_BN[3];"
    ensures LineField(decl) == [Field("float64", "sigma_BN", Some("3"))]
  {
    SigmaDeclarationShape(decl);
    DeclarationWords("double", "sigma_BN", "3");
    LineFieldOfDeclaration("double", " ", "sigma_BN", Some("3"), "", "");
  }

  lemma NumPointsDeclarationShape(decl: string)
    requires decl == "int numPoints;"
    ensures decl == "int" + " " + "numPoints" + Bracketed(None) + "" + ";" + ""
  {
  }

  lemma NumPointsWords(cType: string, name: string)
    requires cType == "int" && name == "numPoints"
    ensures IsWord(cType) && IsWord(name)
    ensures cType in CToRosType && CToRosType[cType] == "int32"
  {
  }

  lemma NumPointsDeclaration(decl: string)
    requires decl == "int numPoints;"
    ensures LineField(decl) == [Field("int32", "numPoints", None)]
  {
    NumPointsDeclarationShape(decl);
    NumPointsWords("int", "numPoints");
    LineFieldOfDeclaration("int", " ", "numPoints", None, "", "");
  }

  /** A body opened by a line break and holding two lines. */
  lemma SplitTwoLineBody(l1: string, l2: string, body: string)
    requires All(l1, NotLineBoundary) && All(l2, NotLineBoundary)
    requires body == "\n" + l1 + "\n" + l2 + "\n"
    ensures SplitLines(body) == ["", l1, l2]
  {
    var second := l2 + "\n" + "";
    SplitLinesCons(l2, "");
    assert SplitLines(second) == [l2];
    var rest := l1 + "\n" + second;
    SplitLinesCons(l1, second);
    assert SplitLines(rest) == [l1, l2];
    TwoLineText(l1, l2);
    SplitLinesCons("", rest);
  }

  lemma TwoLineText(l1: string, l2: string)
    ensures "\n" + l1 + "\n" + l2 + "\n" == "" + "\n" + (l1 + "\n" + (l2 + "\n" + ""))
  {
  }

  lemma FieldsOfThreeLines(a: string, b: string, c: string)
    ensures FieldsOfLines([a, b, c]) == LineField(a) + LineField(b) + LineField(c)
  {
    FieldsOfOneLine(a);
    FieldsOfOneLine(b);
    FieldsOfOneLine(c);
    FieldsOfLinesConcat([a], [b]);
    assert [a] + [b] == [a, b];
    FieldsOfLinesConcat([a, b], [c]);
    assert [a, b] + [c] == [a, b, c];
  }

  lemma FieldsOfOneLine(a: string)
    ensures FieldsOfLines([a]) == LineField(a)
  {
    assert [a][..0] == [];
  }

  lemma TwoLineChars(d1: string, d2: string)
    requires d1 == "double sigma_BN[3];" && d2 == "int numPoints;"
    ensures All(d1, NotLineBoundary) && All(d2, NotLineBoundary)
    ensures All(d1, NotSlash) && All(d2, NotSlash)
    ensures d1[0] == 'd' && d1[|d1| - 1] == ';' && d2[0] == 'i' && d2[|d2| - 1] == ';'
  {
  }

  predicate NotSlash(c: char) { c != '/' }

  /** Written with one declaration per line, the struct yields both
      fields, in order. */
  lemma TwoLineFields(d1: string, d2: string, body: string)
    requires d1 == "double sigma_BN[3];" && d2 == "int numPoints;"
    requires body == "\n" + ("    " + d1) + "\n" + ("    " + d2) + "\n"
    ensures StructFields(body) == [Field("float64", "sigma_BN", Some("3")), Field("int32", "numPoints", None)]
  {
    TwoLineBodyChars(d1, d2, body);
    SigmaDeclaration(d1);
    NumPointsDeclaration(d2);
    FourSpaces();
    IndentedPair("    ", d1, d2, body, [Field("float64", "sigma_BN", Some("3"))], [Field("int32", "numPoints", None)]);
  }

  lemma FourSpaces()
    ensures All("    ", IsSpace)
  {
  }

  lemma IndentedPair(indent: string, d1: string, d2: string, body: string, r1: seq<Field>, r2: seq<Field>)
    requires All(indent, IsSpace)
    requires body == "\n" + (indent + d1) + "\n" + (indent + d2) + "\n"
    requires All(indent + d1, NotLineBoundary) && All(indent + d2, NotLineBoundary)
    requires forall i :: 0 <= i < |body| ==> body[i] != '/'
    requires d1 != [] && !IsSpace(d1[0]) && !IsSpace(d1[|d1| - 1])
    requires d2 != [] && !IsSpace(d2[0]) && !IsSpace(d2[|d2| - 1])
    requires LineField(d1) == r1 && LineField(d2) == r2
    ensures StructFields(body) == r1 + r2
  {
    TwoLineBody(indent + d1, indent + d2, body);
    LineFieldIndented(indent, d1);
    LineFieldIndented(indent, d2);
  }

  lemma TwoLineBodyChars(d1: string, d2: string, body: string)
    requires d1 == "double sigma_BN[3];" && d2 == "int numPoints;"
    requires body == "\n" + ("    " + d1) + "\n" + ("    " + d2) + "\n"
    ensures All("    " + d1, NotLineBoundary) && All("    " + d2, NotLineBoundary)
    ensures forall i :: 0 <= i < |body| ==> body[i] != '/'
    ensures d1 != [] && !IsSpace(d1[0]) && !IsSpace(d1[|d1| - 1])
    ensures d2 != [] && !IsSpace(d2[0]) && !IsSpace(d2[|d2| - 1])
  {
    var l1, l2 := "    " + d1, "    " + d2;
    TwoLineChars(d1, d2);
    assert All("    ", NotLineBoundary) && All("    ", NotSlash) && All("\n", NotSlash);
    AllConcat("    ", d1, NotLineBoundary);
    AllConcat("    ", d2, NotLineBoundary);
    AllConcat("    ", d1, NotSlash);
    AllConcat("    ", d2, NotSlash);
    AllConcat("\n", l1, NotSlash);
    AllConcat("\n" + l1, "\n", NotSlash);
    AllConcat("\n" + l1 + "\n", l2, NotSlash);
    AllConcat("\n" + l1 + "\n" + l2, "\n", NotSlash);
    assert All(body, NotSlash);
  }

  /** A comment-free body opened by a line break and holding two lines
      yields the fields of those two lines. */
  lemma TwoLineBody(l1: string, l2: string, body: string)
    requires All(l1, NotLineBoundary) && All(l2, NotLineBoundary)
    requires body == "\n" + l1 + "\n" + l2 + "\n"
    requires forall i :: 0 <= i < |body| ==> body[i] != '/'
    ensures StructFields(body) == LineField(l1) + LineField(l2)
  {
    TwoLineBodyLines(l1, l2, body);
    FieldsAfterEmptyLine(l1, l2);
  }

  lemma TwoLineBodyLines(l1: string, l2: string, body: string)
    requires All(l1, NotLineBoundary) && All(l2, NotLineBoundary)
    requires body == "\n" + l1 + "\n" + l2 + "\n"
    requires forall i :: 0 <= i < |body| ==> body[i] != '/'
    ensures SplitLines(StripComments(body)) == ["", l1, l2]
  {
    NoSlashUnchanged(body);
    SplitTwoLineBody(l1, l2, body);
  }

  lemma FieldsAfterEmptyLine(l1: string, l2: string)
    ensures FieldsOfLines(["", l1, l2]) == LineField(l1) + LineField(l2)
  {
    FieldsOfThreeLines("", l1, l2);
    LineFieldEmpty();
  }

  lemma LineFieldEmpty()
    ensures LineField("") == []
  {
  }
}
