# bsk_message_converter in Dafny

A model of the header-to-message converter in
`tools/bsk_message_converter.py`. The converter reads a C header holding a
`typedef struct { ... } Name;` and writes `Name.msg`, a ROS 2 interface
definition. The `.msg` file has two parts:

- one constant line per array length macro the struct uses and the macro
  table defines, sorted by name, with an 8-bit or 32-bit type guessed from
  the value;
- one line per field, with the C type translated through a fixed table, the
  array length resolved through the macros, and the field name put into
  snake_case. Only the first field of each snake_case name is kept.

The model covers the five parts of the converter:

- **`camel_to_snake`** (module `Naming`): the two `re.sub` passes, lowercasing,
  collapsing `_` runs and stripping `_`.
- **`C_TO_ROS_TYPE`** (module `RosTypes`): the fixed type table.
- **`parse_macro_definitions`** (module `MacroTable`): the `#define` recogniser
  of line 39, the evaluation fallback, the line-by-line loop that fills the
  dictionary, and the global/local merge of lines 84-85.
- **`parse_struct_fields`** (module `FieldParser`): the three comment-removal
  passes, the declaration pattern of line 58, and the loop that collects
  fields and array length tokens.
- **`convert_header_to_msg`** (modules `StructLocator` and `MsgConverter`): the
  struct search of line 87, the constant and field loops with their set of
  used names, and the layout of the output text.

`Text` holds the string primitives the source takes from Python: `\s` and
`str.strip`, `str.lower`, `str.splitlines`, reading a file line by line,
`int()` and `str()` on integers, and `'\n'.join`. `Sorting` holds Python's
string order and `sorted()`. `Examples` works concrete inputs through the
model.

Each regular expression is written as a recogniser that follows the
behaviour of Python's `re` module on that pattern:

- `re.sub` replaces the leftmost matches without overlap, scanning left to
  right;
- `re.search` tries start positions from left to right;
- `re.match` anchors at the start of the string.

The loops of the source are methods whose loop invariants tie the state
to a function that defines the loop's result:

- `ParseMacroDefinitions` and `ParseStructFields`;
- `EmitConstants` and `EmitFields`;
- `SortedNames`, which models `sorted()` on a set.

`ConvertHeaderToMsg` composes them, and its result equals the function
`Convert`. The properties the converter promises are proved as lemmas
about those functions.

Three behaviours of the code are easy to miss:

- **Only the first declaration on a line is read.** The declaration pattern
  is applied once per line with `re.match`. So the header
  `typedef struct { double sigma_BN[3]; int numPoints; } SomeMsgPayload;`,
  written on one line, gives a file holding only `float64[3] sigma_bn`
  (`Examples.EndToEndOneLine`). The two lines `float64[3] sigma_bn` and
  `int32 num_points` come out only when the same struct is written one
  declaration per line (`Examples.TwoLineFields`).
- **A numeric length token is rewritten.** A token that is not a macro
  still goes through `int()` and `str()`, so `007` is written as `7`
  (`Examples.ResolveNumeric`), not as the raw token.
- **Only `/*!< ... */` block comments are removed** (line 53). Plain
  `/* ... */` blocks stay in the body. Line 54 removes nothing, because
  line 52 has already removed every `//` (`FieldParser.StripComments`).

## Model

| member | source | states |
|---|---|---|
| Naming.CamelToSnake | tools/bsk_message_converter.py:1-10 | the result has no ASCII capital, no `__`, and no `_` at either end |
| Naming.CamelToSnakeKeepsCharacters | tools/bsk_message_converter.py:1-10 | with underscores removed, the result is the input lowercased, character for character, in order |
| Naming.CamelToSnakeFixedPoints | tools/bsk_message_converter.py:1-10 | a name is left unchanged exactly when it is already normalised, and normalising twice equals normalising once |
| Naming.NormalizedUnchanged | tools/bsk_message_converter.py:1-10 | a name already in snake_case is returned as it is |
| Naming.InsertBeforeWords | tools/bsk_message_converter.py:3 | the first pass never shortens the name and keeps its first character |
| Naming.InsertBeforeWordsMatch | tools/bsk_message_converter.py:3 | where the first match starts after a prefix without a match, the pass copies the prefix, writes `_` after the character before the capital, copies the capital and its lowercase run, and goes on after the run |
| Naming.InsertBeforeWordsOnlyInserts | tools/bsk_message_converter.py:3 | the first pass only inserts underscores |
| Naming.InsertBeforeWordsUnchanged | tools/bsk_message_converter.py:3 | without a capital the first pass changes nothing |
| Naming.InsertBeforeWordsSkips | tools/bsk_message_converter.py:3 | a prefix in which no match starts is copied unchanged |
| Naming.SplitCaseBoundaries | tools/bsk_message_converter.py:4 | the second pass keeps the first character |
| Naming.SplitCaseBoundariesComplete | tools/bsk_message_converter.py:4 | after the second pass no lowercase letter or digit is directly followed by a capital |
| Naming.SplitCaseBoundariesOnlyInserts | tools/bsk_message_converter.py:4 | the second pass only inserts underscores |
| Naming.SplitCaseBoundariesSkips | tools/bsk_message_converter.py:4 | a prefix without a case boundary is copied unchanged |
| Naming.SplitCaseBoundariesUnchanged | tools/bsk_message_converter.py:4 | without a capital the second pass changes nothing |
| Naming.CollapseUnderscores | tools/bsk_message_converter.py:7 | the result has no `__`, is empty exactly when the input is, keeps the first character and holds only input characters |
| Naming.CollapseUnderscoresOnlyRemoves | tools/bsk_message_converter.py:7 | collapsing removes only underscores |
| Naming.CollapseUnderscoresUnchanged | tools/bsk_message_converter.py:7 | a string without `__` is left as it is |
| Naming.TrimUnderscoresOnlyRemoves | tools/bsk_message_converter.py:9 | stripping `_` at the ends removes only underscores |
| Text.LowerChar | tools/bsk_message_converter.py:5 | an ASCII capital becomes its lowercase letter, and every other character is unchanged |
| Text.Lower | tools/bsk_message_converter.py:5 | the length is kept and every character is lowered |
| Text.LowerUnchanged | tools/bsk_message_converter.py:5 | a string without a capital is unchanged |
| Text.WithoutUnderscoresLower | tools/bsk_message_converter.py:5 | lowering commutes with removing underscores |
| RosTypes.TableShape | tools/bsk_message_converter.py:17-29 | the table has exactly the eleven C types as keys, `enum` is not one of them, and its values are the `.msg` primitives |
| MacroTable.MatchDefine | tools/bsk_message_converter.py:39 | a match starts with `#define` and whitespace, and captures a word as the name and a non-empty value of word characters, parentheses and `+ - * /` |
| MacroTable.MatchDefineAccepts | tools/bsk_message_converter.py:39 | every line of that shape matches, with exactly that name and value, when the value run ends there |
| MacroTable.MatchDefineSound | tools/bsk_message_converter.py:39 | every match has the pattern's shape: `#define`, whitespace, the name, whitespace, the value, and no value character after it |
| MacroTable.MatchDefineIff | tools/bsk_message_converter.py:39 | a line yields a definition exactly when it begins with the pattern's text for that name and value, so a line without that shape defines nothing |
| MacroTable.DefinesOfLine | tools/bsk_message_converter.py:39-46 | a line gives at most one definition, and it has the shape of the pattern of line 39 |
| MacroTable.TableOf | tools/bsk_message_converter.py:47 | the names in the dictionary are exactly the names of the definitions read |
| MacroTable.LastDefineWins | tools/bsk_message_converter.py:43-47 | a name's value is the evaluated value of its last definition, or the raw text when evaluation fails |
| MacroTable.ParseMacroDefinitions | tools/bsk_message_converter.py:31-48 | the loops over files and lines build the dictionary of all definitions in order; a missing file contributes nothing |
| MacroTable.Merge | tools/bsk_message_converter.py:84-85 | the names are those of both tables; a local value wins, and a global value is kept where there is no local one |
| StructLocator.MatchStructAt | tools/bsk_message_converter.py:87 | a match at a position starts with `typedef struct`, its body holds no `}` and its type name is a word |
| StructLocator.MatchStructAccepts | tools/bsk_message_converter.py:87 | every text of the shape `typedef struct`, blanks, `{`, body, `}`, blanks, name, `;` matches with that body and name |
| StructLocator.MatchStructAcceptsAt | tools/bsk_message_converter.py:87 | at any position, the pattern's text for a body and a name is matched there with that body and that name |
| StructLocator.MatchStructSound | tools/bsk_message_converter.py:87 | every match at a position has the pattern's shape from that position on |
| StructLocator.MatchStructIff | tools/bsk_message_converter.py:87 | the pattern matches at a position with a given body and name exactly when the text from there begins with the pattern's text for them |
| StructLocator.FindStructFrom | tools/bsk_message_converter.py:87 | the search returns the first position at which the pattern matches, and `None` only when it matches nowhere |
| StructLocator.FindStructLeftmost | tools/bsk_message_converter.py:87 | the struct found is the leftmost match |
| StructLocator.FindStruct | tools/bsk_message_converter.py:87-89 | a struct found has the pattern's shape at a position before which the pattern matches nowhere; no struct is found exactly when the pattern matches at no position |
| StructLocator.FindStructAtStart | tools/bsk_message_converter.py:87 | a header that begins with a struct definition yields that struct's body and name |
| FieldParser.StripToLineEnd | tools/bsk_message_converter.py:52 | removing comments to the end of the line never lengthens the text, and the result starts with the newline that ends a comment or with the text's own first character (a comment is removed up to its line end: `FieldParser.LineCommentRemoved`) |
| FieldParser.LineCommentsGone | tools/bsk_message_converter.py:52 | no `//` is left after line 52 |
| FieldParser.LineCommentRemoved | tools/bsk_message_converter.py:52 | a `//` comment is removed up to the end of its line, and the text before it and the newline after it are kept |
| FieldParser.NoMarkerUnchanged | tools/bsk_message_converter.py:52-54 | on a text without `//`, removing comments whose marker starts with `//` (the `//` of line 52 and the `//!<` of line 54) removes nothing, a text ending in a single `/` included |
| FieldParser.FindClose | tools/bsk_message_converter.py:53 | the non-greedy `.*?` stops at the first `*/` |
| FieldParser.StripDocComments | tools/bsk_message_converter.py:53 | removing `/*!< ... */` comments never lengthens the text |
| FieldParser.DocCommentsKeepNoDoubleSlash | tools/bsk_message_converter.py:53 | removing those comments creates no `//` |
| FieldParser.DocCommentRemoved | tools/bsk_message_converter.py:53 | a `/*!< ... */` comment is removed through its first closing `*/`, and the text before it is kept |
| FieldParser.NoDocOpeningUnchanged | tools/bsk_message_converter.py:53 | a text without `/*!<` is left as it is |
| FieldParser.NoCloseUnchanged | tools/bsk_message_converter.py:53 | a text without `*/` is left as it is: an unclosed `/*!<` is not a comment |
| FieldParser.StripComments | tools/bsk_message_converter.py:52-54 | the cleaned body holds no `//`, is no longer than the body, and is the result of lines 52 and 53 alone: line 54 changes nothing |
| FieldParser.NoSlashUnchanged | tools/bsk_message_converter.py:52-54 | a body without a slash is not changed by the three passes |
| FieldParser.NoMarkerStripUnchanged | tools/bsk_message_converter.py:52-54 | a text without the first character of the marker is unchanged |
| FieldParser.NoOpeningUnchanged | tools/bsk_message_converter.py:53 | removing `/*!< ... */` comments leaves a text without a slash unchanged |
| FieldParser.MatchLength | tools/bsk_message_converter.py:58 | the optional group `(\[(\w+)\])?` captures a word between brackets, or nothing and consumes nothing |
| FieldParser.MatchField | tools/bsk_message_converter.py:58 | a match captures a C type word at the start of the line, a name word and an optional length word, and the line holds `;` |
| FieldParser.MatchLengthAccepts | tools/bsk_message_converter.py:58 | a bracketed word is captured as the length |
| FieldParser.MatchFieldAccepts | tools/bsk_message_converter.py:58 | every line of the form type, blanks, name, optional `[len]`, blanks, `;`, anything, matches with those groups |
| FieldParser.MatchFieldSound | tools/bsk_message_converter.py:58 | every match has the pattern's shape: a type word, whitespace, a name word, an optional bracketed length word, optional whitespace and `;` |
| FieldParser.MatchFieldIff | tools/bsk_message_converter.py:58 | a line yields a declaration exactly when it begins with the pattern's text for it, so a line without that shape yields nothing |
| FieldParser.LineField | tools/bsk_message_converter.py:59-75 | a line yields at most one field, whose type is a value of the table and whose name is a word |
| FieldParser.LineFieldOfDeclaration | tools/bsk_message_converter.py:58-72 | a declaration of a known C type yields exactly one field with the table's image of that type, whatever follows the `;` |
| FieldParser.LineFieldOfUnknownType | tools/bsk_message_converter.py:66-69 | a declaration of `enum` or of an unknown type yields nothing |
| FieldParser.LineFieldImage | tools/bsk_message_converter.py:60-72 | a line yields a field only when its trimmed text matches with a known, non-`enum` type, and the field carries that type's image, that name and that length |
| FieldParser.LineFieldOfTrimmed | tools/bsk_message_converter.py:60 | surrounding whitespace does not change what a line yields |
| FieldParser.FieldsOfLines | tools/bsk_message_converter.py:59-75 | there are never more fields than lines |
| FieldParser.FieldsOfLinesConcat | tools/bsk_message_converter.py:59-75 | the fields of two blocks of lines are those of the first followed by those of the second, so fields keep line order |
| FieldParser.FieldsOfLinesShape | tools/bsk_message_converter.py:68-75 | every field has a `.msg` primitive type, a word as name and a word as length |
| FieldParser.FieldsComeFromLines | tools/bsk_message_converter.py:59-75 | every field is the field of one of the lines |
| FieldParser.LengthTokens | tools/bsk_message_converter.py:71-75 | the used tokens are exactly the lengths that some field carries |
| FieldParser.ParseLine | tools/bsk_message_converter.py:60-75 | the body of the loop returns the field the line yields, if any |
| FieldParser.ParseStructFields | tools/bsk_message_converter.py:50-76 | the loop returns the fields of the cleaned body's lines in order, and the set of their array length tokens |
| FieldParser.StructFields | tools/bsk_message_converter.py:50-76 | every field of a body has a `.msg` primitive type, a word as name and a word as array length |
| Sorting.LessIrreflexive | tools/bsk_message_converter.py:96 | no string sorts before itself |
| Sorting.LessTransitive | tools/bsk_message_converter.py:96 | the string order is transitive |
| Sorting.LessTotal | tools/bsk_message_converter.py:96 | of two different strings one sorts first |
| Sorting.LessAsymmetric | tools/bsk_message_converter.py:96 | two strings never sort before each other |
| Sorting.Insert | tools/bsk_message_converter.py:96 | inserting keeps the sequence increasing and adds exactly the new element |
| Sorting.SortStrings | tools/bsk_message_converter.py:96 | the result is strictly increasing and holds exactly the input's elements |
| Sorting.IncreasingUnique | tools/bsk_message_converter.py:96 | two increasing sequences with the same elements are equal, so `sorted()` has one answer |
| Sorting.SortedNames | tools/bsk_message_converter.py:96 | `sorted()` of the used tokens is increasing and holds exactly the tokens |
| MsgConverter.ConstantType | tools/bsk_message_converter.py:100-104 | the type is `uint8` exactly when `int()` accepts the value and it lies in [0, 256), and `int32` otherwise |
| MsgConverter.ConstantNames | tools/bsk_message_converter.py:96-97 | a name gets a constant exactly when it is used and the table defines it |
| MsgConverter.ConstantNamesIncreasing | tools/bsk_message_converter.py:96-97 | filtering sorted names keeps them sorted |
| MsgConverter.ConstantNamesForSorted | tools/bsk_message_converter.py:96-97 | the constants are in ascending order, and they are exactly the used tokens the merged table defines |
| MsgConverter.ConstantLinesOf | tools/bsk_message_converter.py:95-105 | there is one constant line per such name |
| MsgConverter.ConstantLine | tools/bsk_message_converter.py:100-105 | a constant line starts with `uint8 ` exactly when the value is an integer in [0, 256) and with `int32 ` otherwise, and after those six characters holds `<NAME> = <value>` |
| MsgConverter.ConstantLinesAt | tools/bsk_message_converter.py:105 | the i-th constant line is `<type> <NAME> = <value>` for the i-th name |
| MsgConverter.EmitConstantLine | tools/bsk_message_converter.py:98-105 | one pass of the loop writes the constant line of a macro |
| MsgConverter.EmitConstants | tools/bsk_message_converter.py:95-105 | the loop writes the constant lines of the defined names, in order |
| MsgConverter.TokenSeqMembers | tools/bsk_message_converter.py:73 | listing the fields' tokens (in field order, as the loop at line 96 walks them) gives the same set as the set built here collects |
| MsgConverter.NamesOfMembers | tools/bsk_message_converter.py:107-112 | the used names are exactly the normalised names of the fields |
| MsgConverter.Kept | tools/bsk_message_converter.py:106-112 | deduplication never adds fields |
| MsgConverter.KeptNames | tools/bsk_message_converter.py:107-112 | the kept fields cover every normalised name |
| MsgConverter.KeptDistinct | tools/bsk_message_converter.py:110-112 | the kept fields have pairwise different normalised names |
| MsgConverter.KeptCount | tools/bsk_message_converter.py:110-112 | there is one field line per distinct normalised name |
| MsgConverter.KeptIsFirstOccurrences | tools/bsk_message_converter.py:108-112 | the kept fields are exactly the first field of each name, in their original order |
| MsgConverter.KeptFromFields | tools/bsk_message_converter.py:108-112 | every kept field is a parsed field |
| MsgConverter.KeptNonEmpty | tools/bsk_message_converter.py:108-112 | the first field is always kept: of a non-empty list, the kept fields begin with its first field |
| MsgConverter.ResolveLength | tools/bsk_message_converter.py:114-119 | a value `int()` accepts (the macro's value, or the token when it is no macro) is written as `str()` of its integer; a value `int()` rejects is written unchanged |
| MsgConverter.ResolveLengthCanonical | tools/bsk_message_converter.py:114-119 | the written length is already in canonical form: resolving it again, with no macros, gives it back |
| MsgConverter.FieldLinesOf | tools/bsk_message_converter.py:106-122 | one line per kept field |
| MsgConverter.FieldLine | tools/bsk_message_converter.py:113-122 | a field line starts with the `.msg` type, has `[` right after it exactly when the field is an array, and ends with a space and the snake_case name |
| MsgConverter.FieldLinesAt | tools/bsk_message_converter.py:113-122 | the i-th line is `<type>[<len>] <name>` or `<type> <name>` for the i-th kept field |
| MsgConverter.EmitFieldLine | tools/bsk_message_converter.py:113-122 | one pass writes the line of a new field |
| MsgConverter.SkipStep | tools/bsk_message_converter.py:110-111 | a field whose name is already used changes neither the used names nor the lines |
| MsgConverter.KeepStep | tools/bsk_message_converter.py:112-122 | a field with a new name adds its name and appends its line |
| MsgConverter.EmitFields | tools/bsk_message_converter.py:106-122 | the loop writes the lines of the first field of each normalised name, in order |
| MsgConverter.MsgText | tools/bsk_message_converter.py:123-126 | the file always ends with a newline, and with at least one field it is every constant line and then every field line, each ended by a newline |
| MsgConverter.MacrosFor | tools/bsk_message_converter.py:82-85 | the macros in force are named by the global names and those the header defines, and a global value the header does not redefine is kept |
| MsgConverter.Convert | tools/bsk_message_converter.py:78-128 | the conversion fails exactly when no struct matches or its body yields no field; otherwise it writes `<Name>.msg` for the struct's type name, and the text ends with a newline |
| MsgConverter.ConvertOutput | tools/bsk_message_converter.py:87-126 | a conversion writes `<Name>.msg` holding the sorted constant lines and then the deduplicated field lines |
| MsgConverter.KeptFieldsOfBody | tools/bsk_message_converter.py:91-112 | the field lines of a body are one per distinct name, each for a parsed field with a `.msg` type |
| MsgConverter.ConvertHeaderToMsg | tools/bsk_message_converter.py:78-128 | the method's result equals the conversion function |
| Text.Trim | tools/bsk_message_converter.py:60 | `strip()` removes the whitespace runs at both ends and keeps the rest |
| Text.TrimUnchanged | tools/bsk_message_converter.py:60 | a string without whitespace at its ends is unchanged |
| Text.TrimPadded | tools/bsk_message_converter.py:60 | stripping removes exactly the padding around a core |
| Text.TrimEndPadded | tools/bsk_message_converter.py:60 | stripping the right end removes exactly the trailing padding |
| Text.SplitLines | tools/bsk_message_converter.py:59 | no piece holds a line boundary |
| Text.SplitLinesSingle | tools/bsk_message_converter.py:59 | a text without a line boundary is one line |
| Text.SplitLinesCons | tools/bsk_message_converter.py:59 | a line ended by a newline is split off the front |
| Text.SplitLinesCrLf | tools/bsk_message_converter.py:59 | a line ended by `\r\n` is split off the front, the pair counting as one boundary |
| Text.SplitLinesBoundary | tools/bsk_message_converter.py:59 | a line ended by any single line boundary character (`\n`, `\v`, `\f`, `\r`, U+001C to U+001E, U+0085, U+2028, U+2029) is split off the front, except a `\r` that starts `\r\n` |
| Text.FileLines | tools/bsk_message_converter.py:38 | no line read from a file is empty |
| Text.FileLinesConcat | tools/bsk_message_converter.py:38 | the lines put back together are the whole text |
| Text.FileLinesSingle | tools/bsk_message_converter.py:38 | a text without a newline is read as one line |
| Text.FileLinesCons | tools/bsk_message_converter.py:38 | a line ended by a newline is read first, with its newline, and reading goes on after it |
| Text.NatToString | tools/bsk_message_converter.py:117 | `str()` of a number is a non-empty digit string with no leading zero |
| Text.NatToStringValue | tools/bsk_message_converter.py:117 | the digits of `str(n)` have the value n |
| Text.ParseIntOfIntToString | tools/bsk_message_converter.py:116-117 | `int(str(n))` is n |
| Text.ParseInt | tools/bsk_message_converter.py:116 | `int()` rejects a text that is empty or all whitespace, and accepts only a text holding a digit |
| Text.JoinTerminated | tools/bsk_message_converter.py:126 | `'\n'.join(lines) + '\n'` ends every line with a newline |
| Text.TerminatedConcat | tools/bsk_message_converter.py:124-126 | ending the lines of two blocks is ending each block |
| Examples.CamelToSnakeNumPoints | tools/bsk_message_converter.py:1-10 | `numPoints` becomes `num_points` |
| Examples.CamelToSnakeSigmaBN | tools/bsk_message_converter.py:1-10 | `sigma_BN` becomes `sigma_bn` |
| Examples.CamelToSnakeABCDef | tools/bsk_message_converter.py:1-10 | `ABCDef` becomes `abc_def`: the first pass splits before `Def` |
| Examples.UnderscoreWordSecondPass | tools/bsk_message_converter.py:4 | the second pass leaves a capitalised word after `_` unchanged when no case boundary comes before it |
| Examples.UnderscoreWordExamples | tools/bsk_message_converter.py:4 | `num_Points` and `ABC_Def` pass through the second pass unchanged |
| Examples.CamelToSnakeABcDe | tools/bsk_message_converter.py:1-10 | `aBcDe` becomes `a_bc_de`: the first pass splits only before `Bc` and the second pass splits `cD` |
| Examples.ConstantTypeExamples | tools/bsk_message_converter.py:100-104 | `200` gives `uint8`, `300` gives `int32`, and `0x10`, which `int()` rejects, gives `int32` |
| Examples.ResolveOverride | tools/bsk_message_converter.py:84-85 | with `SIZE=4` global and `SIZE=8` local, the length `SIZE` resolves to `8` |
| Examples.ResolveNumeric | tools/bsk_message_converter.py:114-117 | a numeric token that is no macro is rewritten: `007` becomes `7` |
| Examples.ResolveRaw | tools/bsk_message_converter.py:114-119 | a macro whose value `int()` rejects is written as stored: `N` defined as `(M)` is written `(M)` |
| Examples.IntWhitespace | tools/bsk_message_converter.py:116 | `int()` accepts `5` padded by a tab and a newline, but rejects `5` after U+001C, a character `str.isspace()` accepts |
| Examples.KeptOfTwo | tools/bsk_message_converter.py:108-112 | of two fields with the same normalised name only the first is kept |
| Examples.DuplicateSnake | tools/bsk_message_converter.py:108-112 | `numPoints` followed by `num_points` keeps only `numPoints` |
| Examples.FirstDeclarationOnly | tools/bsk_message_converter.py:58-75 | `double sigma_BN[3]; int numPoints;` yields only the `sigma_BN` field |
| Examples.NotADefine | tools/bsk_message_converter.py:39 | a line that does not start with `#` defines nothing |
| Examples.TwoDefineLines | tools/bsk_message_converter.py:38 | a file of two `#define` lines is read as those two lines, each with its newline |
| Examples.TwoDefines | tools/bsk_message_converter.py:38-46 | the file `#define A 1`, `#define B 2` defines `A` as `1` and then `B` as `2` |
| Examples.TwoDefinesTable | tools/bsk_message_converter.py:38-47 | the dictionary read from that file has exactly the names `A` and `B` |
| Examples.UnclosedDocComment | tools/bsk_message_converter.py:53 | `int a; /*!< open`, whose comment is never closed, is left as it is |
| Examples.TrailingSlash | tools/bsk_message_converter.py:52 | `x = a/`, which ends in a single slash, holds no `//` comment and is left as it is |
| Examples.NoLocalMacros | tools/bsk_message_converter.py:82-85 | a one-line header without a definition adds no macro to an empty global table |
| Examples.NoConstantsWithoutMacros | tools/bsk_message_converter.py:96-97 | with no macro there is no constant line |
| Examples.ConvertOneField | tools/bsk_message_converter.py:87-126 | a struct with a single field and no constant gives a file of that one line |
| Examples.EndToEndOneLine | tools/bsk_message_converter.py:78-126 | the one-line header `typedef struct { double sigma_BN[3]; int numPoints; } SomeMsgPayload;` gives `SomeMsgPayload.msg` holding `float64[3] sigma_bn` |
| Examples.LineFieldIndented | tools/bsk_message_converter.py:60 | indentation before a declaration does not change its field |
| Examples.TwoLineFields | tools/bsk_message_converter.py:50-76 | the same struct body with one declaration per line yields `sigma_BN` and then `numPoints` |

## Left out

- `main` (lines 131-149) is not part of this model: the environment variable, directory walking and `os.makedirs` are I/O plumbing.
- File I/O. The header is given as its text and the result is the name and text of the file to write. `os.path.isfile` becomes an `Option` per file (`None` for a path that is not a file). Opening, reading, writing, `os.path.join` with the output directory, and the `print` of line 127 are left out.
- Text-mode reading is taken as already done: the header text is the one Python sees after newline translation.
- MacroTable.Evaluated: the `eval` of line 44 is the parameter `evaluate`, a partial function from the value text to the printed result (`None` where `eval` raises). The model does not say which expressions Python evaluates, or that `/` yields a float such as `5.0`. Nor does it model an `eval` that raises an exception outside `Exception`: `exit()` raises `SystemExit`, which the `except Exception` of line 45 does not catch, so the tool would stop.
- Text.IsWordChar: `\w` is modelled as ASCII letters, digits and `_`. Python's `\w` on `str` also matches non-ASCII letters and digits.
- Text.LowerChar: `str.lower()` is modelled on ASCII capitals only. Python also lowers non-ASCII letters.
- Text.ParseInt: `int()` is modelled on ASCII digits. The sign, single `_` separators and the surrounding whitespace `int()` strips (`Text.IsIntSpace`: space, `\t \n \v \f \r`, and the non-ASCII characters `str.isspace()` accepts, but not U+001C to U+001F) are modelled. Non-ASCII decimal digits and the limit on the number of digits are not.
