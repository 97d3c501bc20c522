/**
 * `convert_header_to_msg` (tools/bsk_message_converter.py, lines 78-128):
 * merge the header's own macros over the global ones, find the struct,
 * parse its fields, and lay out the `.msg` file: one constant per used and
 * defined array length macro, in sorted order, then one line per field,
 * keeping only the first field of each snake_case name.
 *
 * Reading the header and the macro file and writing the `.msg` file are
 * not modelled: the header is given as its text and the result is the name
 * and the text of the file to write, or `None` where the function returns
 * `False`.
 */
module MsgConverter {
  import opened Wrappers
  import opened Text
  import opened Sorting
  import opened Naming
  import opened RosTypes
  import opened MacroTable
  import opened FieldParser
  import opened StructLocator

  /** The file `convert_header_to_msg` writes: its name inside the output
      directory and its contents. */
  datatype MsgFile = MsgFile(fileName: string, text: string)

  // ---------------------------------------------------------------------
  // Lines 95-105: constants for the array length macros
  // ---------------------------------------------------------------------

  /** `int(val)` succeeds and gives a value in `0..255` (line 102). */
  predicate FitsUint8(value: string) {
    ParseInt(value).Some? && 0 <= ParseInt(value).value < 256
  }

  /** The guessed type of a constant (lines 100-104): `uint8` when the value
      reads as an integer in `0..255`, `int32` for any other integer and for
      anything `int()` rejects. */
  function ConstantType(value: string): (t: string)
    ensures t == "uint8" <==> FitsUint8(value)
    ensures t == "uint8" || t == "int32"
    ensures t in RosPrimitives
  {
    if FitsUint8(value) then "uint8" else "int32"
  }

  /** One constant line (line 105): the five-letter type, `uint8` exactly
      when the value fits, then the name and the value as stored. */
  function ConstantLine(name: string, value: string): (r: string)
    ensures StartsWith(r, "uint8 ") <==> FitsUint8(value)
    ensures StartsWith(r, "int32 ") <==> !FitsUint8(value)
    ensures |r| >= 6 && r[6..] == name + " = " + value
  {
    var t := ConstantType(value);
    LineAfterType(t, name, value);
    t + " " + name + " = " + value
  }

  /** A constant line: a five-letter type, a space and the assignment. */
  lemma LineAfterType(t: string, name: string, value: string)
    requires t == "uint8" || t == "int32"
    ensures var r := t + " " + name + " = " + value;
            (StartsWith(r, "uint8 ") <==> t == "uint8")
            && (StartsWith(r, "int32 ") <==> t == "int32")
            && |r| >= 6 && r[6..] == name + " = " + value
  {
    var r := t + " " + name + " = " + value;
    assert r == (t + " ") + (name + " = " + value);
    assert r[..6] == t + " ";
    assert r[0] == t[0];
  }

  /** The names of `names` that the macro table defines, in their order
      (the test at line 97). */
  function ConstantNames(names: seq<string>, macros: map<string, string>): (r: seq<string>)
    ensures forall n :: n in r <==> n in names && n in macros
  {
    if names == [] then []
    else
      var last := names[|names| - 1];
      ConstantNames(names[..|names| - 1], macros) + if last in macros then [last] else []
  }

  /** The constant lines for names that are all defined. */
  function ConstantLinesOf(names: seq<string>, macros: map<string, string>): (r: seq<string>)
    requires forall n :: n in names ==> n in macros
    ensures |r| == |names|
  {
    if names == [] then []
    else
      var last := names[|names| - 1];
      ConstantLinesOf(names[..|names| - 1], macros) + [ConstantLine(last, macros[last])]
  }

  /** The `i`-th constant line declares the `i`-th name with its value. */
  lemma {:induction false} ConstantLinesAt(names: seq<string>, macros: map<string, string>, i: nat)
    requires forall n :: n in names ==> n in macros
    requires i < |names|
    ensures ConstantLinesOf(names, macros)[i] == ConstantLine(names[i], macros[names[i]])
  {
    if i < |names| - 1 {
      ConstantLinesAt(names[..|names| - 1], macros, i);
    }
  }

  /** Dropping the undefined names keeps the rest in ascending order, so the
      constants come out sorted and without repetition. */
  lemma {:induction false} ConstantNamesIncreasing(names: seq<string>, macros: map<string, string>)
    requires Increasing(names)
    ensures Increasing(ConstantNames(names, macros))
  {
    if names != [] {
      var init := names[..|names| - 1];
      var last := names[|names| - 1];
      ConstantNamesIncreasing(init, macros);
      var before := ConstantNames(init, macros);
      if last in macros {
        forall i | 0 <= i < |before| ensures Less(before[i], last) {
          assert before[i] in before;
          var k :| 0 <= k < |init| && init[k] == before[i];
        }
      }
    }
  }

  lemma ConstantNamesStep(names: seq<string>, macros: map<string, string>, i: nat)
    requires i < |names|
    ensures ConstantNames(names[..i + 1], macros)
            == ConstantNames(names[..i], macros) + if names[i] in macros then [names[i]] else []
  {
    assert names[..i + 1][..i] == names[..i];
  }

  lemma ConstantLinesOfAppend(names: seq<string>, n: string, macros: map<string, string>)
    requires forall m :: m in names ==> m in macros
    requires n in macros
    ensures ConstantLinesOf(names + [n], macros) == ConstantLinesOf(names, macros) + [ConstantLine(n, macros[n])]
  {
    assert (names + [n])[..|names|] == names;
  }

  /** The line of one defined macro (lines 99-105): `int(val)` decides the
      type, and a value it rejects makes the constant an `int32`. */
  method EmitConstantLine(macro: string, val: string) returns (line: string)
    ensures line == ConstantLine(macro, val)
  {
    var parsed := ParseInt(val);
    var macroType := if parsed.Some? && parsed.value >= 0 && parsed.value < 256 then "uint8" else "int32";
    line := macroType + " " + macro + " = " + val;
  }

  /** The loop of lines 96-105 over `sorted(macros_used)`. */
  method EmitConstants(names: seq<string>, macros: map<string, string>) returns (lines: seq<string>)
    ensures lines == ConstantLinesOf(ConstantNames(names, macros), macros)
  {
    lines := [];
    assert names[..0] == [];
    for i := 0 to |names|
      invariant lines == ConstantLinesOf(ConstantNames(names[..i], macros), macros)
    {
      ConstantNamesStep(names, macros, i);
      var macro := names[i];
      if macro in macros {
        var line := EmitConstantLine(macro, macros[macro]);
        ConstantLinesOfAppend(ConstantNames(names[..i], macros), macro, macros);
        lines := lines + [line];
      } else {
        assert ConstantNames(names[..i + 1], macros) == ConstantNames(names[..i], macros);
      }
    }
    assert names[..|names|] == names;
  }

  // ---------------------------------------------------------------------
  // Lines 106-122: field lines
  // ---------------------------------------------------------------------

  /** The `.msg` name of a field (line 109). */
  function Snake(f: Field): string
  {
    CamelToSnake(f.name)
  }

  /** The names `used_names` holds after the given fields, `nameOf` giving
      each field's name. */
  function NamesOf(fields: seq<Field>, nameOf: Field -> string): set<string>
  {
    if fields == [] then {}
    else NamesOf(fields[..|fields| - 1], nameOf) + {nameOf(fields[|fields| - 1])}
  }

  lemma {:induction false} NamesOfMembers(fields: seq<Field>, nameOf: Field -> string)
    ensures forall s :: s in NamesOf(fields, nameOf) <==>
                        exists k :: 0 <= k < |fields| && nameOf(fields[k]) == s
  {
    if fields != [] {
      var init := fields[..|fields| - 1];
      NamesOfMembers(init, nameOf);
      assert forall k :: 0 <= k < |init| ==> init[k] == fields[k];
    }
  }

  lemma NamesOfAppend(fields: seq<Field>, f: Field, nameOf: Field -> string)
    ensures NamesOf(fields + [f], nameOf) == NamesOf(fields, nameOf) + {nameOf(f)}
  {
    assert (fields + [f])[..|fields|] == fields;
  }

  /** The fields that get a line: each one whose name no earlier field has
      (lines 110-112). */
  function Kept(fields: seq<Field>, nameOf: Field -> string): (r: seq<Field>)
    ensures |r| <= |fields|
  {
    if fields == [] then []
    else
      var init := fields[..|fields| - 1];
      var last := fields[|fields| - 1];
      Kept(init, nameOf) + if nameOf(last) in NamesOf(init, nameOf) then [] else [last]
  }

  /** The kept fields have the same names as all the fields. */
  lemma {:induction false} KeptNames(fields: seq<Field>, nameOf: Field -> string)
    ensures NamesOf(Kept(fields, nameOf), nameOf) == NamesOf(fields, nameOf)
  {
    if fields != [] {
      var init := fields[..|fields| - 1];
      var last := fields[|fields| - 1];
      KeptNames(init, nameOf);
      if nameOf(last) in NamesOf(init, nameOf) {
        assert Kept(fields, nameOf) == Kept(init, nameOf);
      } else {
        assert Kept(fields, nameOf) == Kept(init, nameOf) + [last];
        NamesOfAppend(Kept(init, nameOf), last, nameOf);
      }
    }
  }

  /** No two kept fields share a name. */
  lemma {:induction false} KeptDistinct(fields: seq<Field>, nameOf: Field -> string)
    ensures var kept := Kept(fields, nameOf);
            forall i, j :: 0 <= i < j < |kept| ==> nameOf(kept[i]) != nameOf(kept[j])
  {
    if fields != [] {
      var init := fields[..|fields| - 1];
      var last := fields[|fields| - 1];
      KeptDistinct(init, nameOf);
      if nameOf(last) !in NamesOf(init, nameOf) {
        var before := Kept(init, nameOf);
        KeptNames(init, nameOf);
        NamesOfMembers(before, nameOf);
        assert Kept(fields, nameOf) == before + [last];
        forall i | 0 <= i < |before| ensures nameOf(before[i]) != nameOf(last) {
          assert nameOf(before[i]) in NamesOf(before, nameOf);
        }
      }
    }
  }

  /** There is one kept field per name. */
  lemma {:induction false} KeptCount(fields: seq<Field>, nameOf: Field -> string)
    ensures |Kept(fields, nameOf)| == |NamesOf(fields, nameOf)|
  {
    if fields != [] {
      var init := fields[..|fields| - 1];
      var last := fields[|fields| - 1];
      KeptCount(init, nameOf);
      assert NamesOf(fields, nameOf) == NamesOf(init, nameOf) + {nameOf(last)};
      if nameOf(last) in NamesOf(init, nameOf) {
        assert Kept(fields, nameOf) == Kept(init, nameOf);
        assert NamesOf(fields, nameOf) == NamesOf(init, nameOf);
      } else {
        assert Kept(fields, nameOf) == Kept(init, nameOf) + [last];
        assert |NamesOf(fields, nameOf)| == |NamesOf(init, nameOf)| + 1;
      }
    }
  }

  /** No field before the `k`-th has the same name. */
  predicate FirstOfItsName(fields: seq<Field>, nameOf: Field -> string, k: nat)
    requires k < |fields|
  {
    forall j :: 0 <= j < k ==> nameOf(fields[j]) != nameOf(fields[k])
  }

  /** The first `n` fields filtered down to the first field of each name, in
      order: what the loop keeps, defined without the set of used names. */
  function FirstOccurrences(fields: seq<Field>, nameOf: Field -> string, n: nat): seq<Field>
    requires n <= |fields|
  {
    if n == 0 then []
    else
      FirstOccurrences(fields, nameOf, n - 1)
      + if FirstOfItsName(fields, nameOf, n - 1) then [fields[n - 1]] else []
  }

  lemma {:induction false} FirstOccurrencesOfPrefix(fields: seq<Field>, nameOf: Field -> string, m: nat, n: nat)
    requires n <= m <= |fields|
    ensures FirstOccurrences(fields[..m], nameOf, n) == FirstOccurrences(fields, nameOf, n)
  {
    if n > 0 {
      var prefix := fields[..m];
      FirstOccurrencesOfPrefix(fields, nameOf, m, n - 1);
      assert prefix[n - 1] == fields[n - 1];
      assert FirstOfItsName(prefix, nameOf, n - 1) <==> FirstOfItsName(fields, nameOf, n - 1) by {
        assert forall j :: 0 <= j < n ==> prefix[j] == fields[j];
      }
    }
  }

  /** The kept fields are exactly the first field of each name, in their
      original order. */
  lemma {:induction false} KeptIsFirstOccurrences(fields: seq<Field>, nameOf: Field -> string)
    ensures Kept(fields, nameOf) == FirstOccurrences(fields, nameOf, |fields|)
  {
    if fields != [] {
      var n := |fields| - 1;
      var init := fields[..n];
      KeptIsFirstOccurrences(init, nameOf);
      FirstOccurrencesOfPrefix(fields, nameOf, n, n);
      NamesOfMembers(init, nameOf);
      assert nameOf(fields[n]) in NamesOf(init, nameOf) <==> !FirstOfItsName(fields, nameOf, n) by {
        assert forall j :: 0 <= j < n ==> init[j] == fields[j];
      }
    }
  }

  /** Python's `macros.get(arrlen, arrlen)` followed by the `int`/`str`
      round trip of lines 114-119: the macro's value or the token itself,
      rewritten in canonical decimal form when `int()` accepts it. */
  function ResolveLength(token: string, macros: map<string, string>): (r: string)
    ensures var literal := if token in macros then macros[token] else token;
            ParseInt(r) == ParseInt(literal)
            && (ParseInt(literal).Some? ==> r == IntToString(ParseInt(literal).value))
            && (ParseInt(literal).None? ==> r == literal)
  {
    var literal := if token in macros then macros[token] else token;
    match ParseInt(literal)
    case Some(n) => ParseIntOfIntToString(n); IntToString(n)
    case None => literal
  }

  /** A resolved length is already in the form the resolution produces:
      resolving it again, with no macro in the way, gives it back. */
  lemma ResolveLengthCanonical(token: string, macros: map<string, string>)
    ensures ResolveLength(ResolveLength(token, macros), map[]) == ResolveLength(token, macros)
  {
    var literal := if token in macros then macros[token] else token;
    if ParseInt(literal).Some? {
      ParseIntOfIntToString(ParseInt(literal).value);
    }
  }

  /** Every kept field is one of the fields. */
  lemma {:induction false} KeptFromFields(fields: seq<Field>, nameOf: Field -> string)
    ensures forall f :: f in Kept(fields, nameOf) ==> f in fields
  {
    if fields != [] {
      var init := fields[..|fields| - 1];
      KeptFromFields(init, nameOf);
      assert forall f :: f in init ==> f in fields;
    }
  }

  lemma KeptStep(fields: seq<Field>, nameOf: Field -> string, i: nat)
    requires i < |fields|
    ensures NamesOf(fields[..i + 1], nameOf) == NamesOf(fields[..i], nameOf) + {nameOf(fields[i])}
    ensures Kept(fields[..i + 1], nameOf)
            == Kept(fields[..i], nameOf)
               + if nameOf(fields[i]) in NamesOf(fields[..i], nameOf) then [] else [fields[i]]
  {
    assert fields[..i + 1][..i] == fields[..i];
  }

  /** One field line (lines 113-122): the `.msg` type, the resolved length in
      brackets for an array, and the snake_case name after a space. */
  function FieldLine(f: Field, macros: map<string, string>): (r: string)
    ensures StartsWith(r, f.rosType)
    ensures |r| > |f.rosType| && (r[|f.rosType|] == '[' <==> f.arrayLength.Some?)
    ensures |r| > |Snake(f)| && r[|r| - |Snake(f)| - 1..] == " " + Snake(f)
  {
    var name := Snake(f);
    match f.arrayLength
    case Some(token) =>
      var len := ResolveLength(token, macros);
      ArrayLineShape(f.rosType, len, name);
      f.rosType + "[" + len + "] " + name
    case None =>
      ScalarLineShape(f.rosType, name);
      f.rosType + " " + name
  }

  /** An array line: the type, the length in brackets, a space and the name. */
  lemma ArrayLineShape(ty: string, len: string, name: string)
    ensures var r := ty + "[" + len + "] " + name;
            StartsWith(r, ty) && |r| > |ty| && r[|ty|] == '['
            && |r| > |name| && r[|r| - |name| - 1..] == " " + name
  {
    var r := ty + "[" + len + "] " + name;
    assert r == (ty + "[" + len + "]") + (" " + name);
  }

  /** A scalar line: the type, a space and the name. */
  lemma ScalarLineShape(ty: string, name: string)
    ensures var r := ty + " " + name;
            StartsWith(r, ty) && |r| > |ty| && r[|ty|] == ' '
            && |r| > |name| && r[|r| - |name| - 1..] == " " + name
  {
    var r := ty + " " + name;
    assert r == ty + (" " + name);
  }

  /** The lines of the given fields, in order. */
  function FieldLinesOf(fields: seq<Field>, macros: map<string, string>): (r: seq<string>)
    ensures |r| == |fields|
  {
    if fields == [] then []
    else FieldLinesOf(fields[..|fields| - 1], macros) + [FieldLine(fields[|fields| - 1], macros)]
  }

  /** The `i`-th line is the line of the `i`-th field. */
  lemma {:induction false} FieldLinesAt(fields: seq<Field>, macros: map<string, string>, i: nat)
    requires i < |fields|
    ensures FieldLinesOf(fields, macros)[i] == FieldLine(fields[i], macros)
  {
    if i < |fields| - 1 {
      FieldLinesAt(fields[..|fields| - 1], macros, i);
    }
  }

  lemma FieldLinesOfAppend(fields: seq<Field>, f: Field, macros: map<string, string>)
    ensures FieldLinesOf(fields + [f], macros) == FieldLinesOf(fields, macros) + [FieldLine(f, macros)]
  {
    assert (fields + [f])[..|fields|] == fields;
  }

  /** The line of one field once its snake_case name is known (lines
      113-122). */
  method EmitFieldLine(f: Field, nameSnake: string, macros: map<string, string>) returns (line: string)
    requires nameSnake == Snake(f)
    ensures line == FieldLine(f, macros)
  {
    if f.arrayLength.Some? {
      var token := f.arrayLength.value;
      var arrlenLiteral := if token in macros then macros[token] else token;
      var parsed := ParseInt(arrlenLiteral);
      if parsed.Some? {
        arrlenLiteral := IntToString(parsed.value);
      }
      line := f.rosType + "[" + arrlenLiteral + "] " + nameSnake;
    } else {
      line := f.rosType + " " + nameSnake;
    }
  }

  /** The loop of lines 106-122 over the parsed fields. */
  method EmitFields(fields: seq<Field>, macros: map<string, string>) returns (lines: seq<string>)
    ensures lines == FieldLinesOf(Kept(fields, Snake), macros)
  {
    lines := [];
    var usedNames: set<string> := {};
    assert fields[..0] == [];
    for i := 0 to |fields|
      invariant usedNames == NamesOf(fields[..i], Snake)
      invariant lines == FieldLinesOf(Kept(fields[..i], Snake), macros)
    {
      var f := fields[i];
      var nameSnake := CamelToSnake(f.name);
      if nameSnake in usedNames {
        SkipStep(fields, macros, i);
        continue;
      }
      usedNames := usedNames + {nameSnake};
      var line := EmitFieldLine(f, nameSnake, macros);
      KeepStep(fields, macros, i);
      lines := lines + [line];
    }
    assert fields[..|fields|] == fields;
  }

  /** A field whose name is already used adds no line. */
  lemma SkipStep(fields: seq<Field>, macros: map<string, string>, i: nat)
    requires i < |fields| && Snake(fields[i]) in NamesOf(fields[..i], Snake)
    ensures NamesOf(fields[..i + 1], Snake) == NamesOf(fields[..i], Snake)
    ensures FieldLinesOf(Kept(fields[..i + 1], Snake), macros) == FieldLinesOf(Kept(fields[..i], Snake), macros)
  {
    KeptStep(fields, Snake, i);
    var before := Kept(fields[..i], Snake);
    assert Kept(fields[..i + 1], Snake) == before + [];
    assert before + [] == before;
  }

  /** A field with a new name adds its line. */
  lemma KeepStep(fields: seq<Field>, macros: map<string, string>, i: nat)
    requires i < |fields| && Snake(fields[i]) !in NamesOf(fields[..i], Snake)
    ensures NamesOf(fields[..i + 1], Snake) == NamesOf(fields[..i], Snake) + {Snake(fields[i])}
    ensures FieldLinesOf(Kept(fields[..i + 1], Snake), macros)
            == FieldLinesOf(Kept(fields[..i], Snake), macros) + [FieldLine(fields[i], macros)]
  {
    KeptStep(fields, Snake, i);
    FieldLinesOfAppend(Kept(fields[..i], Snake), fields[i], macros);
  }

  // ---------------------------------------------------------------------
  // Lines 78-128: the whole conversion
  // ---------------------------------------------------------------------

  /** The array length tokens of the fields, in field order. */
  function TokenSeq(fields: seq<Field>): seq<string>
  {
    if fields == [] then []
    else
      var last := fields[|fields| - 1];
      TokenSeq(fields[..|fields| - 1]) + if last.arrayLength.Some? then [last.arrayLength.value] else []
  }

  lemma {:induction false} TokenSeqMembers(fields: seq<Field>)
    ensures forall t :: t in TokenSeq(fields) <==> t in LengthTokens(fields)
  {
    if fields != [] {
      TokenSeqMembers(fields[..|fields| - 1]);
    }
  }

  /** What lines 123-126 write: the constants, if any, joined by `'\n'` and
      followed by one, then the fields joined by `'\n'` and followed by
      one. The text always ends with a newline, and with at least one field
      it is every constant line and then every field line, each ended by a
      newline. */
  function MsgText(constantLines: seq<string>, fieldLines: seq<string>): (r: string)
    ensures r != [] && r[|r| - 1] == '\n'
    ensures fieldLines != [] ==> r == Terminated(constantLines + fieldLines)
  {
    if fieldLines != [] then
      JoinTerminated(fieldLines);
      TerminatedConcat(constantLines, fieldLines);
      if constantLines != [] then
        JoinTerminated(constantLines);
        Join(constantLines) + "\n" + Join(fieldLines) + "\n"
      else
        "" + Join(fieldLines) + "\n"
    else
      (if constantLines != [] then Join(constantLines) + "\n" else "") + Join(fieldLines) + "\n"
  }

  /** The macros in force for a header (lines 82-85): the header's own
      definitions over the global ones. The names are the global ones and
      those the header defines, and a global value survives where the header
      does not define the name again. */
  function MacrosFor(header: string, globals: map<string, string>, evaluate: Evaluator): (r: map<string, string>)
    ensures r.Keys == globals.Keys + set d | d in DefinesOfFiles([Some(header)]) :: d.name
    ensures forall name :: name in globals && (forall d :: d in DefinesOfFiles([Some(header)]) ==> d.name != name) ==>
      r[name] == globals[name]
  {
    Merge(globals, TableOf(DefinesOfFiles([Some(header)]), evaluate))
  }

  /** The macros that get a constant line: the used ones the table defines,
      in sorted order. */
  function ConstantNamesFor(fields: seq<Field>, macros: map<string, string>): seq<string>
  {
    ConstantNames(SortStrings(TokenSeq(fields)), macros)
  }

  /** `convert_header_to_msg` on a header with text `header`: `None` where it
      returns `False`, otherwise the `.msg` file it writes. It fails exactly
      when the header has no struct the pattern of line 87 matches, or the
      struct yields no field; otherwise the file is named after the struct's
      type and its text ends with a newline. */
  function Convert(header: string, globals: map<string, string>, evaluate: Evaluator): (r: Option<MsgFile>)
    ensures r.None? <==> FindStruct(header).None? || StructFields(FindStruct(header).value.body) == []
    ensures r.Some? ==> r.value.fileName == FindStruct(header).value.typeName + ".msg"
    ensures r.Some? ==> r.value.text != [] && r.value.text[|r.value.text| - 1] == '\n'
  {
    var macros := MacrosFor(header, globals, evaluate);
    match FindStruct(header)
    case None => None
    case Some(m) =>
      var fields := StructFields(m.body);
      if fields == [] then None
      else
        var names := ConstantNamesFor(fields, macros);
        var constantLines := ConstantLinesOf(names, macros);
        var fieldLines := FieldLinesOf(Kept(fields, Snake), macros);
        Some(MsgFile(m.typeName + ".msg", MsgText(constantLines, fieldLines)))
  }

  /** `convert_header_to_msg(header_path, out_dir, global_macros)`. */
  method ConvertHeaderToMsg(header: string, globals: map<string, string>, evaluate: Evaluator)
    returns (r: Option<MsgFile>)
    ensures r == Convert(header, globals, evaluate)
  {
    var localMacros := ParseMacroDefinitions([Some(header)], evaluate);
    var macros := Merge(globals, localMacros);
    var m := FindStruct(header);
    if m.None? {
      return None;
    }
    var structBody, structName := m.value.body, m.value.typeName;
    var fields, macrosUsed := ParseStructFields(structBody);
    if fields == [] {
      return None;
    }
    var sortedUsed := SortedNames(macrosUsed);
    TokenSeqMembers(fields);
    IncreasingUnique(sortedUsed, SortStrings(TokenSeq(fields)));
    var macroLines := EmitConstants(sortedUsed, macros);
    var fieldLines := EmitFields(fields, macros);
    r := Some(MsgFile(structName + ".msg", MsgText(macroLines, fieldLines)));
  }

  /** A successful conversion writes `<TypeName>.msg`, and every line of it
      ends with a newline: first the constant lines, then the field lines. */
  lemma ConvertOutput(header: string, globals: map<string, string>, evaluate: Evaluator)
    requires FindStruct(header).Some?
    requires StructFields(FindStruct(header).value.body) != []
    ensures
      var m := FindStruct(header).value;
      var fields := StructFields(m.body);
      var macros := MacrosFor(header, globals, evaluate);
      Convert(header, globals, evaluate)
      == Some(MsgFile(m.typeName + ".msg",
                      Terminated(ConstantLinesOf(ConstantNamesFor(fields, macros), macros)
                                 + FieldLinesOf(Kept(fields, Snake), macros))))
  {
    var fields := StructFields(FindStruct(header).value.body);
    KeptNonEmpty(fields, Snake);
  }

  /** The first field is always kept. */
  lemma {:induction false} KeptNonEmpty(fields: seq<Field>, nameOf: Field -> string)
    requires fields != []
    ensures Kept(fields, nameOf) != []
    ensures Kept(fields, nameOf)[0] == fields[0]
  {
    var init := fields[..|fields| - 1];
    if init == [] {
      assert NamesOf(init, nameOf) == {};
      assert Kept(fields, nameOf) == [] + [fields[0]];
    } else {
      KeptNonEmpty(init, nameOf);
      assert init[0] == fields[0];
    }
  }

  /** The constants are the used array length macros that the table
      defines, each once, in ascending order (lines 96-97). */
  lemma ConstantNamesForSorted(fields: seq<Field>, macros: map<string, string>)
    ensures Increasing(ConstantNamesFor(fields, macros))
    ensures forall n :: n in ConstantNamesFor(fields, macros) <==> n in LengthTokens(fields) && n in macros
  {
    ConstantNamesIncreasing(SortStrings(TokenSeq(fields)), macros);
    TokenSeqMembers(fields);
  }

  /** The field lines of a struct body: one per distinct snake_case name,
      each for a field of the body with one of the nine `.msg` primitive
      types. */
  lemma KeptFieldsOfBody(body: string)
    ensures |Kept(StructFields(body), Snake)| == |NamesOf(StructFields(body), Snake)|
    ensures forall f :: f in Kept(StructFields(body), Snake) ==>
      f in StructFields(body) && f.rosType in RosPrimitives
  {
    KeptCount(StructFields(body), Snake);
    KeptFromFields(StructFields(body), Snake);
    FieldsOfLinesShape(SplitLines(StripComments(body)));
  }
}
