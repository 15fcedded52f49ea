/** The exporter's own logic (lib/export.js): the table of value-set codes
    written to `valueSets.js`, the quoting of codes in it, and the nesting of
    generated files into one container per namespace part. */
module Export {
  import opened Wrappers
  import opened Strings
  import opened Common
  import opened CodeWriterModel
  import opened OrderedMap

  // ---------------------------------------------------------------- value sets

  datatype Concept = Concept(code: string)
  datatype CodeSystem = CodeSystem(concept: Option<seq<Concept>>)
  datatype Include = Include(concept: Option<seq<Concept>>)
  datatype Compose = Compose(includes: Option<seq<Option<Include>>>)
  /** A FHIR value set, with only the parts the exporter reads; absent parts
      are None. */
  datatype ValueSet = ValueSet(url: string, codeSystem: Option<CodeSystem>, compose: Option<Compose>)

  /** The URL-to-codes table, in the order its keys were first added (the
      iteration order of a JavaScript object with non-numeric keys). */
  type CodeTable = Entries<seq<string>>

  function ConceptCodes(concepts: seq<Concept>): (codes: seq<string>)
    ensures |codes| == |concepts|
    ensures forall i :: 0 <= i < |concepts| ==> codes[i] == concepts[i].code
  {
    if concepts == [] then [] else [concepts[0].code] + ConceptCodes(concepts[1..])
  }

  /** The codes one `compose.include` entry adds: none when it is absent
      or has no `concept`. */
  function InclusionCodes(inc: Option<Include>): seq<string>
  {
    if inc.Some? && inc.value.concept.Some? then ConceptCodes(inc.value.concept.value) else []
  }

  /** The codes of the `compose.include` entries, entry by entry. */
  function IncludeCodes(includes: seq<Option<Include>>): seq<string>
  {
    if includes == [] then []
    else IncludeCodes(includes[..|includes| - 1]) + InclusionCodes(Last(includes))
  }

  /** Pushing the codes of include `k` onto a list that ends with the codes
      of the includes before it gives one that ends with the codes of the
      includes up to `k`. */
  lemma IncludeCodesStep(before: seq<string>, includes: seq<Option<Include>>, k: int)
    requires 0 <= k < |includes|
    ensures before + IncludeCodes(includes[..k]) + InclusionCodes(includes[k]) ==
            before + IncludeCodes(includes[..k + 1])
  {
    assert includes[..k + 1][..k] == includes[..k];
  }

  /** The codes of `codeSystem.concept`, if there are any. */
  function SystemCodes(vs: ValueSet): seq<string>
  {
    if vs.codeSystem.Some? && vs.codeSystem.value.concept.Some?
    then ConceptCodes(vs.codeSystem.value.concept.value) else []
  }

  /** The codes of `compose.include`, if there is one. */
  function ComposeCodes(vs: ValueSet): seq<string>
  {
    if vs.compose.Some? && vs.compose.value.includes.Some?
    then IncludeCodes(vs.compose.value.includes.value) else []
  }

  /** A value set's codes: those of `codeSystem.concept` first, then those of
      each `compose.include[i].concept`, in order. */
  function Codes(vs: ValueSet): seq<string>
  {
    SystemCodes(vs) + ComposeCodes(vs)
  }

  /** Each value set's URL and codes, in order. */
  function UrlCodes(valueSets: seq<ValueSet>): (r: seq<(string, seq<string>)>)
    ensures |r| == |valueSets|
    ensures forall i :: 0 <= i < |valueSets| ==> r[i] == (valueSets[i].url, Codes(valueSets[i]))
  {
    if valueSets == [] then [] else [(valueSets[0].url, Codes(valueSets[0]))] + UrlCodes(valueSets[1..])
  }

  /** The table built from URL and code pairs in order: a pair with codes
      sets its URL's entry, one without codes is skipped. */
  function TableOf(pairs: seq<(string, seq<string>)>): CodeTable
  {
    if pairs == [] then []
    else
      var table := TableOf(pairs[..|pairs| - 1]);
      var p := Last(pairs);
      if |p.1| > 0 then Put(table, p.0, p.1) else table
  }

  /** The table `collectValueSets` builds from the value sets in order. */
  function CodeTableOf(valueSets: seq<ValueSet>): CodeTable
  {
    TableOf(UrlCodes(valueSets))
  }

  /** Value set `i` is the one whose codes the table keeps for its URL: it
      has codes and no later value set with the same URL has any. */
  predicate Wins(valueSets: seq<ValueSet>, i: int)
    requires 0 <= i < |valueSets|
  {
    && |Codes(valueSets[i])| > 0
    && forall j :: i < j < |valueSets| && valueSets[j].url == valueSets[i].url ==> Codes(valueSets[j]) == []
  }

  /** The table has distinct URLs and no empty code list; a URL maps to the
      codes of the last value set with that URL that has codes (a later one
      replaces an earlier one), and is absent when no value set with that
      URL has codes. */
  lemma CodeTableSemantics(valueSets: seq<ValueSet>, url: string)
    ensures DistinctKeys(CodeTableOf(valueSets))
    ensures forall i :: 0 <= i < |CodeTableOf(valueSets)| ==> |CodeTableOf(valueSets)[i].1| > 0
    ensures Get(CodeTableOf(valueSets), url).Some? <==>
      exists i :: 0 <= i < |valueSets| && valueSets[i].url == url && |Codes(valueSets[i])| > 0
    ensures forall i :: 0 <= i < |valueSets| && valueSets[i].url == url && Wins(valueSets, i) ==>
      Get(CodeTableOf(valueSets), url) == Some(Codes(valueSets[i]))
  {
    var pairs := UrlCodes(valueSets);
    TableShape(pairs);
    TablePresence(pairs, url);
    TableWinner(pairs, url);
    if exists i :: 0 <= i < |valueSets| && valueSets[i].url == url && |Codes(valueSets[i])| > 0 {
      var i :| 0 <= i < |valueSets| && valueSets[i].url == url && |Codes(valueSets[i])| > 0;
      assert pairs[i].0 == url && |pairs[i].1| > 0;
    }
    if Get(CodeTableOf(valueSets), url).Some? {
      var i :| 0 <= i < |pairs| && pairs[i].0 == url && |pairs[i].1| > 0;
      assert valueSets[i].url == url && |Codes(valueSets[i])| > 0;
    }
    forall i | 0 <= i < |valueSets| && valueSets[i].url == url && Wins(valueSets, i)
      ensures Get(CodeTableOf(valueSets), url) == Some(Codes(valueSets[i]))
    {
      forall j | i < j < |pairs| && pairs[j].0 == url ensures pairs[j].1 == [] {
        assert valueSets[j].url == url;
      }
      assert WinsAt(pairs, i);
    }
  }

  /** Pair `i` is the one whose codes the table keeps for its URL. */
  predicate WinsAt(pairs: seq<(string, seq<string>)>, i: int)
    requires 0 <= i < |pairs|
  {
    |pairs[i].1| > 0 && forall j :: i < j < |pairs| && pairs[j].0 == pairs[i].0 ==> pairs[j].1 == []
  }

  lemma {:induction false} TableShape(pairs: seq<(string, seq<string>)>)
    ensures DistinctKeys(TableOf(pairs))
    ensures forall i :: 0 <= i < |TableOf(pairs)| ==> |TableOf(pairs)[i].1| > 0
  {
    if pairs != [] {
      var init := pairs[..|pairs| - 1];
      var p := Last(pairs);
      TableShape(init);
      var table := TableOf(init);
      if |p.1| > 0 {
        PutFacts(table, p.0, p.1, p.0);
        var r := Put(table, p.0, p.1);
        forall i | 0 <= i < |r| ensures |r[i].1| > 0 {
          if r[i].0 != p.0 {
            var j :| 0 <= j < |table| && table[j] == r[i];
          } else {
            GetEntry(r, i);
          }
        }
      }
    }
  }

  lemma {:induction false} TablePresence(pairs: seq<(string, seq<string>)>, url: string)
    ensures Get(TableOf(pairs), url).Some? <==> exists i :: 0 <= i < |pairs| && pairs[i].0 == url && |pairs[i].1| > 0
  {
    if pairs != [] {
      var n := |pairs|;
      var init := pairs[..n - 1];
      var p := pairs[n - 1];
      TablePresence(init, url);
      var table := TableOf(init);
      if |p.1| > 0 {
        GetPut(table, p.0, p.1, url);
      }
      if exists i :: 0 <= i < n && pairs[i].0 == url && |pairs[i].1| > 0 {
        var i :| 0 <= i < n && pairs[i].0 == url && |pairs[i].1| > 0;
        if i < n - 1 {
          assert init[i] == pairs[i];
        }
      }
      if Get(table, url).Some? {
        var i :| 0 <= i < |init| && init[i].0 == url && |init[i].1| > 0;
        assert pairs[i] == init[i];
      }
    }
  }

  lemma {:induction false} TableWinner(pairs: seq<(string, seq<string>)>, url: string)
    ensures forall i :: 0 <= i < |pairs| && pairs[i].0 == url && WinsAt(pairs, i) ==>
      Get(TableOf(pairs), url) == Some(pairs[i].1)
  {
    if pairs != [] {
      var n := |pairs|;
      var init := pairs[..n - 1];
      var p := pairs[n - 1];
      TableWinner(init, url);
      var table := TableOf(init);
      if |p.1| > 0 {
        GetPut(table, p.0, p.1, url);
      }
      forall i | 0 <= i < n && pairs[i].0 == url && WinsAt(pairs, i)
        ensures Get(TableOf(pairs), url) == Some(pairs[i].1)
      {
        if i < n - 1 {
          assert init[i] == pairs[i];
          assert WinsAt(init, i);
        }
      }
    }
  }

  // ----------------------------------------------------------- quoting codes

  /** `code.replace(/'/g, "\\'")`: a backslash before every single quote. */
  function EscapeQuotes(code: string): string
  {
    if code == [] then []
    else (if code[0] == '\'' then "\\'" else [code[0]]) + EscapeQuotes(code[1..])
  }

  /** `wrapCodeInQuotes(code)`: the escaped code between single quotes (the
      source skips the replace when there is no quote, which changes
      nothing). */
  function WrapCodeInQuotes(code: string): (r: string)
    ensures |r| >= 2 && r[0] == '\'' && Last(r) == '\''
  {
    "'" + (if '\'' in code then EscapeQuotes(code) else code) + "'"
  }

  /** Removes the escapes again: a backslash directly followed by a quote
      stands for the quote. */
  function UnescapeQuotes(s: string): string
  {
    if s == [] then []
    else if |s| >= 2 && s[0] == '\\' && s[1] == '\'' then "'" + UnescapeQuotes(s[2..])
    else [s[0]] + UnescapeQuotes(s[1..])
  }

  lemma {:induction false} EscapeQuotesHead(code: string)
    requires code != [] && code[0] != '\''
    ensures EscapeQuotes(code) != [] && EscapeQuotes(code)[0] == code[0]
  {
  }

  /** Escaping loses nothing: unescaping gives the code back. */
  lemma {:induction false} EscapeRoundTrip(code: string)
    ensures UnescapeQuotes(EscapeQuotes(code)) == code
  {
    if code != [] {
      var rest := EscapeQuotes(code[1..]);
      EscapeRoundTrip(code[1..]);
      if code[0] == '\'' {
        assert EscapeQuotes(code) == "\\'" + rest;
        assert (("\\'" + rest)[2..]) == rest;
      } else {
        assert EscapeQuotes(code) == [code[0]] + rest;
        if code[0] == '\\' && rest != [] {
          if code[1..][0] == '\'' {
            assert rest[0] == '\\';
          } else {
            EscapeQuotesHead(code[1..]);
          }
        }
        assert ([code[0]] + rest)[1..] == rest;
      }
    }
  }

  /** Every quote in the escaped text is preceded by a backslash. */
  predicate QuotesEscaped(s: string)
  {
    forall i :: 0 <= i < |s| && s[i] == '\'' ==> i > 0 && s[i - 1] == '\\'
  }

  lemma {:induction false} EscapedQuotesArePreceded(code: string)
    ensures QuotesEscaped(EscapeQuotes(code))
  {
    if code != [] {
      EscapedQuotesArePreceded(code[1..]);
      var rest := EscapeQuotes(code[1..]);
      var head := if code[0] == '\'' then "\\'" else [code[0]];
      assert EscapeQuotes(code) == head + rest;
      forall i | 0 <= i < |rest| && rest[i] == '\'' ensures i > 0 && rest[i - 1] == '\\' {
      }
    }
  }

  /** Text without quotes is not changed by escaping. */
  lemma {:induction false} EscapeWithoutQuotes(code: string)
    requires '\'' !in code
    ensures EscapeQuotes(code) == code
  {
    if code != [] {
      EscapeWithoutQuotes(code[1..]);
    }
  }

  /** Quoting is undone by stripping the outer quotes and unescaping. */
  lemma WrapRoundTrip(code: string)
    ensures var w := WrapCodeInQuotes(code); UnescapeQuotes(w[1..|w| - 1]) == code
  {
    var w := WrapCodeInQuotes(code);
    if '\'' in code {
      assert w[1..|w| - 1] == EscapeQuotes(code);
    } else {
      EscapeWithoutQuotes(code);
      assert w[1..|w| - 1] == EscapeQuotes(code);
    }
    EscapeRoundTrip(code);
  }

  /** Inside the outer quotes every quote is preceded by a backslash. */
  lemma WrapEscapesInnerQuotes(code: string)
    ensures var w := WrapCodeInQuotes(code); QuotesEscaped(w[1..|w| - 1])
  {
    var w := WrapCodeInQuotes(code);
    if '\'' in code {
      assert w[1..|w| - 1] == EscapeQuotes(code);
      EscapedQuotesArePreceded(code);
    } else {
      assert w[1..|w| - 1] == code;
    }
  }

  /** How JavaScript reads a single-quoted string literal at the front of
      `s`: its value and the text after the closing quote. `\'` is read as a
      quote and `\\` as a backslash; None when the literal is not closed,
      holds a line break, or holds another escape (not read here). */
  function ReadQuoted(s: string): Option<(string, string)>
  {
    if s == [] || s[0] != '\'' then None else ReadLiteralBody(s[1..])
  }

  function ReadLiteralBody(s: string): Option<(string, string)>
  {
    if s == [] || s[0] == '\n' || s[0] == '\r' then None
    else if s[0] == '\'' then Some(([], s[1..]))
    else if s[0] == '\\' then
      if |s| >= 2 && (s[1] == '\'' || s[1] == '\\') then
        match ReadLiteralBody(s[2..])
        case None => None
        case Some(p) => Some(([s[1]] + p.0, p.1))
      else None
    else
      match ReadLiteralBody(s[1..])
      case None => None
      case Some(p) => Some(([s[0]] + p.0, p.1))
  }

  /** A code without backslashes or line breaks.  */
  predicate PlainCode(code: string)
  {
    '\\' !in code && '\n' !in code && '\r' !in code
  }

  lemma {:induction false} ReadEscaped(code: string, rest: string)
    requires PlainCode(code)
    ensures ReadLiteralBody(EscapeQuotes(code) + "'" + rest) == Some((code, rest))
  {
    var s := EscapeQuotes(code) + "'" + rest;
    if code == [] {
      assert s == "'" + rest;
      assert s[1..] == rest;
    } else {
      var e := EscapeQuotes(code[1..]);
      ReadEscaped(code[1..], rest);
      if code[0] == '\'' {
        assert s == "\\'" + (e + "'" + rest);
        assert s[2..] == e + "'" + rest;
      } else {
        assert s == [code[0]] + (e + "'" + rest);
        assert s[1..] == e + "'" + rest;
      }
      assert [code[0]] + code[1..] == code;
    }
  }

  /** For a code without backslashes or line breaks the quoted code is one
      whole JavaScript string literal whose value is the code. */
  lemma WrapIsLiteral(code: string)
    requires PlainCode(code)
    ensures ReadQuoted(WrapCodeInQuotes(code)) == Some((code, ""))
  {
    var w := WrapCodeInQuotes(code);
    if '\'' !in code {
      EscapeWithoutQuotes(code);
    }
    assert w == "'" + (EscapeQuotes(code) + "'" + "");
    assert w[1..] == EscapeQuotes(code) + "'" + "";
    ReadEscaped(code, "");
  }

  /** Backslashes are not escaped: the code `a\'b` is quoted as `'a\\'b'`,
      which JavaScript reads as the literal `a\` followed by `b'`. */
  lemma WrapBackslashEndsEarly()
    ensures WrapCodeInQuotes("a\\'b") == "'a\\\\'b'"
    ensures ReadQuoted(WrapCodeInQuotes("a\\'b")) == Some(("a\\", "b'"))
  {
    var code := "a\\'b";
    assert '\'' in code by { assert code[2] == '\''; }
    assert EscapeQuotes(code[3..]) == "b";
    assert EscapeQuotes(code[2..]) == "\\'b";
    assert EscapeQuotes(code[1..]) == "\\\\'b";
    assert EscapeQuotes(code) == "a\\\\'b";
    var w := "'a\\\\'b'";
    assert ReadLiteralBody(w[4..]) == Some(([], "b'"));
    var t := w[2..];
    assert t[2..] == w[4..] && t[0] == '\\' && t[1] == '\\' && |t| >= 2;
    assert [t[1]] + [] == "\\";
    assert ReadLiteralBody(t) == Some(("\\", "b'"));
    assert w[1..][1..] == t && w[1..][0] == 'a';
    assert ['a'] + "\\" == "a\\";
    assert ReadLiteralBody(w[1..]) == Some(("a\\", "b'"));
  }

  function WrapAll(codes: seq<string>): (r: seq<string>)
    ensures |r| == |codes|
    ensures forall i :: 0 <= i < |codes| ==> r[i] == WrapCodeInQuotes(codes[i])
  {
    if codes == [] then [] else [WrapCodeInQuotes(codes[0])] + WrapAll(codes[1..])
  }

  const TableHeader := "export const ALL_KNOWN_VALUE_SETS = {"

  /** The line written for one table entry. */
  function EntryLine(url: string, codes: seq<string>): string
  {
    "'" + url + "': [" + Join(WrapAll(codes), ", ") + "],"
  }

  function EntryLines(table: CodeTable): (lines: seq<string>)
    ensures |lines| == |table|
    ensures forall i :: 0 <= i < |table| ==> lines[i] == "  " + EntryLine(table[i].0, table[i].1)
  {
    if table == [] then [] else EntryLines(table[..|table| - 1]) + ["  " + EntryLine(Last(table).0, Last(table).1)]
  }

  /** The text of `valueSets.js` for a table. */
  function ValueSetsText(table: CodeTable): string
  {
    Join([TableHeader] + EntryLines(table) + ["};"], "\n") + "\n"
  }

  /** `collectValueSets(fhir)`: gathers the codes of the profile value sets
      followed by the base value sets, and writes the table through a
      CodeWriter, one entry per line, one level in. */
  method CollectValueSets(valueSets: seq<ValueSet>, baseValueSets: seq<ValueSet>) returns (text: string)
    ensures text == ValueSetsText(CodeTableOf(valueSets + baseValueSets))
  {
    var cw := new CodeWriter(0);
    cw.Ln(TableHeader);
    assert cw.lines == [TableHeader];
    cw.Indent();
    var table := BuildCodeTable(valueSets + baseValueSets);
    WriteEntries(cw, table);
    cw.Outdent();
    ghost var body := cw.lines;
    assert body == [TableHeader] + EntryLines(table);
    cw.Ln("};");
    assert cw.lines == body + ["};"];
    text := cw.ToString();
  }

  /** The first loop of `collectValueSets`: one assignment per value set
      that has codes. */
  method BuildCodeTable(all: seq<ValueSet>) returns (table: CodeTable)
    ensures table == CodeTableOf(all)
  {
    ghost var pairs := UrlCodes(all);
    table := [];
    for i := 0 to |all|
      invariant table == TableOf(pairs[..i])
    {
      var vs := all[i];
      var codes := CollectCodes(vs);
      assert pairs[..i + 1][..i] == pairs[..i];
      assert Last(pairs[..i + 1]) == (vs.url, codes);
      if |codes| > 0 {
        table := Put(table, vs.url, codes);
      }
    }
    assert pairs[..|all|] == pairs;
  }

  lemma IndentedLine(line: string)
    requires line != []
    ensures LineFor(1, false, line) == "  " + line
  {
    assert Repeat("  ", 1) == "  " + Repeat("  ", 0);
  }

  /** The second loop of `collectValueSets`: one line per table entry. */
  method WriteEntries(cw: CodeWriter, table: CodeTable)
    modifies cw
    requires cw.indentLevel == 1 && !cw.inBlComment
    ensures cw.lines == old(cw.lines) + EntryLines(table)
    ensures cw.indentLevel == 1 && !cw.inBlComment
  {
    for j := 0 to |table|
      invariant cw.lines == old(cw.lines) + EntryLines(table[..j])
      invariant cw.indentLevel == 1 && !cw.inBlComment
    {
      var line := EntryLine(table[j].0, table[j].1);
      IndentedLine(line);
      cw.Ln(line);
      assert table[..j + 1][..j] == table[..j];
    }
    assert table[..|table|] == table;
  }

  /** The codes of one value set, pushed in the source's order. */
  method CollectCodes(vs: ValueSet) returns (codes: seq<string>)
    ensures codes == Codes(vs)
  {
    codes := [];
    if vs.codeSystem.Some? && vs.codeSystem.value.concept.Some? {
      codes := ConceptCodes(vs.codeSystem.value.concept.value);
    }
    ghost var fromSystem := codes;
    if vs.compose.Some? && vs.compose.value.includes.Some? {
      var includes := vs.compose.value.includes.value;
      for k := 0 to |includes|
        invariant codes == fromSystem + IncludeCodes(includes[..k])
      {
        var inc := includes[k];
        IncludeCodesStep(fromSystem, includes, k);
        if inc.Some? && inc.value.concept.Some? {
          codes := codes + ConceptCodes(inc.value.concept.value);
        }
      }
      assert includes[..|includes|] == includes;
    } else {
      assert codes == fromSystem + [];
    }
  }

  // ------------------------------------------------------ namespace nesting

  /** An entry of the exported file hierarchy: a file's text, or a container
      of further entries. */
  datatype Node = File(content: string) | Dir(children: map<string, Node>)

  /** The hierarchy `export()` returns, keyed by file or container name. */
  type Hierarchy = map<string, Node>

  /** The entry at a path of names, if there is one. */
  function Find(h: Hierarchy, path: seq<string>): Option<Node>
    decreases path
  {
    if path == [] then None
    else if path[0] !in h then None
    else if |path| == 1 then Some(h[path[0]])
    else match h[path[0]]
      case File(_) => None
      case Dir(children) => Find(children, path[1..])
  }

  /** Names with a dot are files and names without one are containers, all
      the way down: namespace parts never contain a dot, and every file name
      ends in `.js`. */
  predicate ContainersAreDirs(h: Hierarchy)
  {
    NamesAreKinds(Dir(h))
  }

  predicate NamesAreKinds(n: Node)
  {
    match n
    case File(_) => true
    case Dir(ch) => forall k :: k in ch ==> ('.' in k <==> ch[k].File?) && NamesAreKinds(ch[k])
  }

  /** Walks `parts` from `h`, creating every missing container, and stores a
      file under `name` in the last one (the `container[part]` loop of
      `export()`, followed by one `container[name] = content`). */
  function PutFile(h: Hierarchy, parts: seq<string>, name: string, content: string): Hierarchy
    decreases parts
  {
    if parts == [] then h[name := File(content)]
    else
      var part := parts[0];
      var inner := if part in h && h[part].Dir? then h[part].children else map[];
      h[part := Dir(PutFile(inner, parts[1..], name, content))]
  }

  /** After storing, the file is found at its path; containers that existed
      are reused and every other file stays where it was. */
  lemma {:induction false} PutFileFacts(h: Hierarchy, parts: seq<string>, name: string, content: string, other: seq<string>)
    requires ContainersAreDirs(h)
    requires forall i :: 0 <= i < |parts| ==> '.' !in parts[i]
    requires '.' in name
    ensures ContainersAreDirs(PutFile(h, parts, name, content))
    ensures Find(PutFile(h, parts, name, content), parts + [name]) == Some(File(content))
    ensures other != parts + [name] && Find(h, other).Some? && Find(h, other).value.File? ==>
      Find(PutFile(h, parts, name, content), other) == Find(h, other)
    decreases parts
  {
    var r := PutFile(h, parts, name, content);
    if parts == [] {
      assert [] + [name] == [name];
    } else {
      var part := parts[0];
      var inner := if part in h && h[part].Dir? then h[part].children else map[];
      var tail := if other != [] then other[1..] else [];
      PutFileFacts(inner, parts[1..], name, content, tail);
      assert (parts + [name])[1..] == parts[1..] + [name];
      assert (parts + [name])[0] == part;
      if other != [] && other[0] == part && other != parts + [name] && Find(h, other).Some? && Find(h, other).value.File? {
        assert |other| > 1;
        assert h[part].Dir?;
        assert other == [part] + tail;
      }
    }
  }

  /** The generator output for one namespace: the text of its object
      factory and, per element, the element name and its class text. */
  datatype NamespaceOutput = NamespaceOutput(namespace: string, factoryText: string, classes: seq<(string, string)>)

  /** Stores one namespace's files in its container. */
  function PutNamespace(h: Hierarchy, ns: NamespaceOutput): Hierarchy
  {
    var parts := Split(ns.namespace, '.');
    PutClasses(PutFile(h, parts, FactoryName(ns.namespace) + ".js", ns.factoryText), parts, ns.classes)
  }

  function PutClasses(h: Hierarchy, parts: seq<string>, classes: seq<(string, string)>): Hierarchy
  {
    if classes == [] then h
    else
      var c := Last(classes);
      PutFile(PutClasses(h, parts, classes[..|classes| - 1]), parts, ClassName(c.0) + ".js", c.1)
  }

  function PutNamespaces(h: Hierarchy, outputs: seq<NamespaceOutput>): Hierarchy
  {
    if outputs == [] then h else PutNamespace(PutNamespaces(h, outputs[..|outputs| - 1]), Last(outputs))
  }

  /** `export()`: the three copied helper files, each namespace's files
      nested under its dot-separated parts, the top-level factory and the
      value-set table. File contents that come from reading the helper
      sources or from the other generators are parameters. */
  method ExportHierarchy(referenceJs: string, jsonHelperJs: string, initJs: string,
                         outputs: seq<NamespaceOutput>, objectFactoryJs: string,
                         valueSets: seq<ValueSet>, baseValueSets: seq<ValueSet>)
    returns (h: Hierarchy)
    ensures h == PutNamespaces(map["Reference.js" := File(referenceJs), "json-helper.js" := File(jsonHelperJs),
                                   "init.js" := File(initJs)], outputs)
                 ["ObjectFactory.js" := File(objectFactoryJs)]
                 ["valueSets.js" := File(ValueSetsText(CodeTableOf(valueSets + baseValueSets)))]
  {
    h := map["Reference.js" := File(referenceJs), "json-helper.js" := File(jsonHelperJs), "init.js" := File(initJs)];
    ghost var start := h;
    for n := 0 to |outputs|
      invariant h == PutNamespaces(start, outputs[..n])
    {
      var ns := outputs[n];
      var parts := Split(ns.namespace, '.');
      h := PutFile(h, parts, FactoryName(ns.namespace) + ".js", ns.factoryText);
      ghost var afterFactory := h;
      for d := 0 to |ns.classes|
        invariant h == PutClasses(afterFactory, parts, ns.classes[..d])
      {
        h := PutFile(h, parts, ClassName(ns.classes[d].0) + ".js", ns.classes[d].1);
        assert ns.classes[..d + 1][..d] == ns.classes[..d];
      }
      assert ns.classes[..|ns.classes|] == ns.classes;
      assert outputs[..n + 1][..n] == outputs[..n];
    }
    assert outputs[..|outputs|] == outputs;
    h := h["ObjectFactory.js" := File(objectFactoryJs)];
    var table := CollectValueSets(valueSets, baseValueSets);
    h := h["valueSets.js" := File(table)];
  }
}
