/**
 * Locating the message struct in a header (tools/bsk_message_converter.py,
 * line 87):
 *
 *   re.search(r'typedef struct\s*{([^}]*)}\s*(\w+);', content, re.DOTALL)
 *
 * The pattern has no `.`, so the DOTALL flag changes nothing. At a given
 * start every part of the pattern is decided without backtracking: each
 * greedy run is followed by a character the run cannot contain (`{` after
 * `\s*`, `}` after `[^}]*`, `;` after `\w+`), so giving characters back
 * never lets the rest match. The recogniser below therefore takes every run
 * at its maximum, and the search tries the starts from left to right.
 */
module StructLocator {
  import opened Wrappers
  import opened Text

  /** The two groups of a match: the text between the braces and the type
      name after the closing brace. */
  datatype StructMatch = StructMatch(body: string, typeName: string)

  const Keyword: string := "typedef struct"

  predicate NotCloseBrace(c: char) { c != '}' }

  /** The pattern tried at position `p` of `content`. */
  function MatchStructAt(content: string, p: nat): (r: Option<StructMatch>)
    requires p <= |content|
    ensures r.Some? ==> p + |Keyword| <= |content| && content[p..p + |Keyword|] == Keyword
    ensures r.Some? ==> All(r.value.body, NotCloseBrace) && IsWord(r.value.typeName)
  {
    if |content| - p < |Keyword| || content[p..p + |Keyword|] != Keyword then None
    else
      var a := RunEnd(content, p + |Keyword|, IsSpace);
      if a == |content| || content[a] != '{' then None
      else
        var b := RunEnd(content, a + 1, NotCloseBrace);
        if b == |content| then None
        else
          var c := RunEnd(content, b + 1, IsSpace);
          var d := RunEnd(content, c, IsWordChar);
          if d == c || d == |content| || content[d] != ';' then None
          else
            RunEndAll(content, a + 1, NotCloseBrace);
            RunEndAll(content, c, IsWordChar);
            assert All(content[a + 1..b], NotCloseBrace);
            Some(StructMatch(content[a + 1..b], content[c..d]))
  }

  /** The result of the pattern at `p` once its runs are known. */
  lemma MatchStructAtRuns(content: string, p: nat, a: nat, b: nat, c: nat, d: nat)
    requires p + |Keyword| <= |content| && content[p..p + |Keyword|] == Keyword
    requires a < |content| && RunEnd(content, p + |Keyword|, IsSpace) == a && content[a] == '{'
    requires b < |content| && RunEnd(content, a + 1, NotCloseBrace) == b
    requires b < c <= |content| && RunEnd(content, b + 1, IsSpace) == c
    requires c < d < |content| && RunEnd(content, c, IsWordChar) == d && content[d] == ';'
    ensures MatchStructAt(content, p) == Some(StructMatch(content[a + 1..b], content[c..d]))
  {
  }

  /** Every text of the form `typedef struct`, optional whitespace, `{`, a
      body without `}`, `}`, optional whitespace, a type name and `;` is
      matched at its start, with that body and that name. */
  lemma MatchStructAccepts(ws1: string, body: string, ws2: string, name: string, tail: string)
    requires All(ws1, IsSpace)
    requires All(body, NotCloseBrace)
    requires All(ws2, IsSpace)
    requires IsWord(name)
    ensures MatchStructAt(Keyword + ws1 + "{" + body + "}" + ws2 + name + ";" + tail, 0)
            == Some(StructMatch(body, name))
  {
    var head := Keyword + ws1 + "{" + body + "}" + ws2 + name + ";";
    var content := head + tail;
    assert content[0..] == content && content[..|head|] == head;
    MatchStructAcceptsAt(content, 0, ws1, body, ws2, name);
  }

  /** The pattern matches at `p` once the text is cut at `a` (the `{`),
      `b` (the `}`), `c` (the name) and `d` (the `;`) into parts of the
      right kinds. */
  lemma MatchStructAtParts(content: string, p: nat, a: nat, b: nat, c: nat, d: nat)
    requires p + |Keyword| <= a < b < c <= d < |content|
    requires content[p..p + |Keyword|] == Keyword && content[a] == '{' && content[b] == '}' && content[d] == ';'
    requires All(content[p + |Keyword|..a], IsSpace) && All(content[a + 1..b], NotCloseBrace)
    requires All(content[b + 1..c], IsSpace) && IsWord(content[c..d])
    ensures MatchStructAt(content, p) == Some(StructMatch(content[a + 1..b], content[c..d]))
  {
    assert !IsSpace(content[c]) by {
      assert IsWordChar(content[c..d][0]);
    }
    RunEndOver(content, p + |Keyword|, a, IsSpace);
    RunEndOver(content, a + 1, b, NotCloseBrace);
    RunEndOver(content, b + 1, c, IsSpace);
    RunEndOver(content, c, d, IsWordChar);
    MatchStructAtRuns(content, p, a, b, c, d);
  }

  /** The text of the pattern at the start of `text`, with exactly the
      groups of `m`: the keyword, optional whitespace, `{`, the body, `}`,
      optional whitespace, the type name and `;`. */
  ghost predicate StructShape(text: string, m: StructMatch) {
    && All(m.body, NotCloseBrace) && IsWord(m.typeName)
    && exists ws1, ws2 :: All(ws1, IsSpace) && All(ws2, IsSpace)
         && StartsWith(text, Keyword + ws1 + "{" + m.body + "}" + ws2 + m.typeName + ";")
  }

  /** The pattern matches at `p` with the groups of `m` exactly when the
      text from `p` on begins with the pattern's text for `m`. */
  lemma MatchStructIff(content: string, p: nat, m: StructMatch)
    requires p <= |content|
    ensures MatchStructAt(content, p) == Some(m) <==> StructShape(content[p..], m)
  {
    if MatchStructAt(content, p) == Some(m) {
      MatchStructSound(content, p);
    }
    if StructShape(content[p..], m) {
      var ws1, ws2 :| All(ws1, IsSpace) && All(ws2, IsSpace)
         && StartsWith(content[p..], Keyword + ws1 + "{" + m.body + "}" + ws2 + m.typeName + ";");
      MatchStructAcceptsAt(content, p, ws1, m.body, ws2, m.typeName);
    }
  }

  /** A match at `p` has the pattern's shape from `p` on. */
  lemma MatchStructSound(content: string, p: nat)
    requires p <= |content| && MatchStructAt(content, p).Some?
    ensures StructShape(content[p..], MatchStructAt(content, p).value)
  {
    var k := p + |Keyword|;
    var a := RunEnd(content, k, IsSpace);
    var b := RunEnd(content, a + 1, NotCloseBrace);
    var c := RunEnd(content, b + 1, IsSpace);
    var d := RunEnd(content, c, IsWordChar);
    var m := MatchStructAt(content, p).value;
    assert m == StructMatch(content[a + 1..b], content[c..d]);
    RunSlice(content, k, IsSpace);
    RunSlice(content, b + 1, IsSpace);
    StructShapeAt(content, p, a, b, c, d);
  }

  /** The text from `p` has the pattern's shape once it is cut at `a` (the
      `{`), `b` (the `}`), `c` (the name) and `d` (the `;`). */
  lemma StructShapeAt(content: string, p: nat, a: nat, b: nat, c: nat, d: nat)
    requires p + |Keyword| <= a < b < c <= d < |content|
    requires content[p..p + |Keyword|] == Keyword && content[a] == '{' && content[b] == '}' && content[d] == ';'
    requires All(content[p + |Keyword|..a], IsSpace) && All(content[a + 1..b], NotCloseBrace)
    requires All(content[b + 1..c], IsSpace) && IsWord(content[c..d])
    ensures StructShape(content[p..], StructMatch(content[a + 1..b], content[c..d]))
  {
    var ws1, ws2 := content[p + |Keyword|..a], content[b + 1..c];
    StructPieces(content, p, Keyword, a, b, c, d);
    StartsWithAt(content, p, Keyword + ws1 + "{" + content[a + 1..b] + "}" + ws2 + content[c..d] + ";");
    StructShapeOf(content[p..], StructMatch(content[a + 1..b], content[c..d]), ws1, ws2);
  }

  /** Whitespace runs that fit the text of the pattern witness its shape. */
  lemma StructShapeOf(text: string, m: StructMatch, ws1: string, ws2: string)
    requires All(m.body, NotCloseBrace) && IsWord(m.typeName) && All(ws1, IsSpace) && All(ws2, IsSpace)
    requires StartsWith(text, Keyword + ws1 + "{" + m.body + "}" + ws2 + m.typeName + ";")
    ensures StructShape(text, m)
  {
  }

  /** A text cut at the ends of the pattern's parts. */
  lemma StructPieces(content: string, p: nat, kw: string, a: nat, b: nat, c: nat, d: nat)
    requires p + |kw| <= a < b < c <= d < |content|
    requires content[p..p + |kw|] == kw
    requires content[a] == '{' && content[b] == '}' && content[d] == ';'
    ensures content[p..d + 1] == kw + content[p + |kw|..a] + "{" + content[a + 1..b] + "}"
                                 + content[b + 1..c] + content[c..d] + ";"
  {
    StructFront(content, p, p + |kw|, a);
    StructBack(content, a + 1, b, c, d);
    ExtendSlice(content, p, a + 1, d + 1, content[a + 1..d + 1]);
    Regroup(kw, content[p + |kw|..a], "{", content[a + 1..b], "}", content[b + 1..c], content[c..d], ";");
  }

  /** The part of the text up to and including `{`. */
  lemma StructFront(content: string, p: nat, k: nat, a: nat)
    requires p <= k <= a < |content| && content[a] == '{'
    ensures content[p..a + 1] == content[p..k] + content[k..a] + "{"
  {
    assert content[a..a + 1] == "{";
    ExtendSlice(content, p, k, a, content[k..a]);
    ExtendSlice(content, p, a, a + 1, "{");
  }

  /** The part of the text after `{`, up to and including `;`. */
  lemma StructBack(content: string, a: nat, b: nat, c: nat, d: nat)
    requires a <= b < c <= d < |content| && content[b] == '}' && content[d] == ';'
    ensures content[a..d + 1] == content[a..b] + "}" + content[b + 1..c] + content[c..d] + ";"
  {
    assert content[b..b + 1] == "}" && content[d..d + 1] == ";";
    ExtendSlice(content, a, b, b + 1, "}");
    ExtendSlice(content, a, b + 1, c, content[b + 1..c]);
    ExtendSlice(content, a, c, d, content[c..d]);
    ExtendSlice(content, a, d, d + 1, ";");
  }

  /** The pattern's text at `p` is matched there, with its body and name. */
  lemma MatchStructAcceptsAt(content: string, p: nat, ws1: string, body: string, ws2: string, name: string)
    requires p <= |content|
    requires All(ws1, IsSpace) && All(body, NotCloseBrace) && All(ws2, IsSpace) && IsWord(name)
    requires StartsWith(content[p..], Keyword + ws1 + "{" + body + "}" + ws2 + name + ";")
    ensures MatchStructAt(content, p) == Some(StructMatch(body, name))
  {
    var k := p + |Keyword|;
    var a := k + |ws1|;
    var b := a + 1 + |body|;
    var c := b + 1 + |ws2|;
    var d := c + |name|;
    StartsWithAt(content, p, Keyword + ws1 + "{" + body + "}" + ws2 + name + ";");
    StructParts(content, p, Keyword, ws1, body, ws2, name);
    assert content[k..a] == ws1 && content[a + 1..b] == body && content[b + 1..c] == ws2 && content[c..d] == name;
    MatchStructAtParts(content, p, a, b, c, d);
  }

  /** The parts of the pattern's text, read back from the text. */
  lemma StructParts(content: string, p: nat, kw: string, ws1: string, body: string, ws2: string, name: string)
    requires p + |kw + ws1 + "{" + body + "}" + ws2 + name + ";"| <= |content|
    requires content[p..p + |kw + ws1 + "{" + body + "}" + ws2 + name + ";"|]
             == kw + ws1 + "{" + body + "}" + ws2 + name + ";"
    ensures var a := p + |kw| + |ws1|;
            var b := a + 1 + |body|;
            var c := b + 1 + |ws2|;
            var d := c + |name|;
            && content[p..p + |kw|] == kw && content[p + |kw|..a] == ws1 && content[a] == '{'
            && content[a + 1..b] == body && content[b] == '}' && content[b + 1..c] == ws2
            && content[c..d] == name && content[d] == ';'
  {
    var a := p + |kw| + |ws1|;
    var b := a + 1 + |body|;
    var c := b + 1 + |ws2|;
    var d := c + |name|;
    PeelSlice(content, p, d + 1, kw + ws1 + "{" + body + "}" + ws2 + name, ";");
    PeelSlice(content, p, d, kw + ws1 + "{" + body + "}" + ws2, name);
    PeelSlice(content, p, c, kw + ws1 + "{" + body + "}", ws2);
    PeelSlice(content, p, b + 1, kw + ws1 + "{" + body, "}");
    PeelSlice(content, p, b, kw + ws1 + "{", body);
    PeelSlice(content, p, a + 1, kw + ws1, "{");
    PeelSlice(content, p, a, kw, ws1);
    assert content[d] == content[d..d + 1][0];
    assert content[b] == content[b..b + 1][0];
    assert content[a] == content[a..a + 1][0];
  }

  /** `re.search` from position `p`: the first position at or after `p`
      where the pattern matches. */
  function FindStructFrom(content: string, p: nat): (r: Option<nat>)
    requires p <= |content|
    ensures r.Some? ==> p <= r.value <= |content| && MatchStructAt(content, r.value).Some?
    ensures r.Some? ==> forall q :: p <= q < r.value ==> MatchStructAt(content, q).None?
    ensures r.None? ==> forall q :: p <= q <= |content| ==> MatchStructAt(content, q).None?
    decreases |content| - p
  {
    if MatchStructAt(content, p).Some? then Some(p)
    else if p == |content| then None
    else FindStructFrom(content, p + 1)
  }

  /** The groups of the leftmost match in the whole header, if any: the
      struct found has the shape of the pattern at some position, and the
      pattern matches nowhere before it; nothing is found exactly when the
      pattern matches nowhere. */
  function FindStruct(content: string): (r: Option<StructMatch>)
    ensures r.Some? ==>
      exists p :: 0 <= p <= |content| && MatchStructAt(content, p) == r
        && StructShape(content[p..], r.value)
        && (forall q :: 0 <= q < p ==> MatchStructAt(content, q).None?)
    ensures r.None? <==> forall q :: 0 <= q <= |content| ==> MatchStructAt(content, q).None?
  {
    match FindStructFrom(content, 0)
    case Some(p) => MatchStructSound(content, p); MatchStructAt(content, p)
    case None => None
  }

  /** The search finds a struct exactly when the pattern matches somewhere,
      and then it is the match that starts first. */
  lemma FindStructLeftmost(content: string, p: nat)
    requires p <= |content| && MatchStructAt(content, p).Some?
    requires forall q :: 0 <= q < p ==> MatchStructAt(content, q).None?
    ensures FindStruct(content) == MatchStructAt(content, p)
  {
  }

  /** A header that begins with a struct definition yields that struct. */
  lemma FindStructAtStart(ws1: string, body: string, ws2: string, name: string, tail: string)
    requires All(ws1, IsSpace)
    requires All(body, NotCloseBrace)
    requires All(ws2, IsSpace)
    requires IsWord(name)
    ensures FindStruct(Keyword + ws1 + "{" + body + "}" + ws2 + name + ";" + tail)
            == Some(StructMatch(body, name))
  {
    MatchStructAccepts(ws1, body, ws2, name, tail);
    FindStructLeftmost(Keyword + ws1 + "{" + body + "}" + ws2 + name + ";" + tail, 0);
  }
}
