/** The small path and name helpers of the class generator
    (lib/generateClass.js): bracket notation, variable names, symbols, FHIR
    ids and relative import paths. */
module PathHelpers {
  import opened Wrappers
  import opened Strings
  import opened Common
  import opened ShrModels

  // ------------------------------------------------------ bracketNotation

  /** One segment after the first: `['seg']`, or `['name'][index]` when the
      segment already ends in a bracket. Without a `[` the source's
      `lastIndexOf` gives -1 and the cut falls before the last character. */
  function BracketSegment(e: string): string
  {
    if EndsWith(e, "]") then
      var cut := match LastIndexOf(e, '[') case Some(b) => b case None => |e| - 1;
      "['" + e[..cut] + "']" + e[cut..]
    else
      "['" + e + "']"
  }

  function BracketSegments(segs: seq<string>): string
  {
    if segs == [] then "" else BracketSegment(segs[0]) + BracketSegments(segs[1..])
  }

  /** `bracketNotation(dotNotation)`: the first dot-segment as is, every
      later one in bracket form. */
  function BracketNotation(dotNotation: string): string
  {
    var parts := Split(dotNotation, '.');
    parts[0] + BracketSegments(parts[1..])
  }

  /** A segment of a dotted path: a property, or a property with an array
      index. */
  datatype Segment = Property(name: string) | Indexed(name: string, index: string)

  function DotForm(s: Segment): string
  {
    match s
    case Property(n) => n
    case Indexed(n, i) => n + "[" + i + "]"
  }

  function BracketForm(s: Segment): string
  {
    match s
    case Property(n) => "['" + n + "']"
    case Indexed(n, i) => "['" + n + "'][" + i + "]"
  }

  function DotForms(segs: seq<Segment>): (r: seq<string>)
    ensures |r| == |segs|
    ensures forall i :: 0 <= i < |segs| ==> r[i] == DotForm(segs[i])
  {
    if segs == [] then [] else [DotForm(segs[0])] + DotForms(segs[1..])
  }

  function BracketForms(segs: seq<Segment>): string
  {
    if segs == [] then "" else BracketForm(segs[0]) + BracketForms(segs[1..])
  }

  predicate PlainText(s: string)
  {
    '.' !in s && '[' !in s && ']' !in s
  }

  predicate PlainSegment(s: Segment)
  {
    PlainText(s.name) && (s.Indexed? ==> PlainText(s.index))
  }

  /** The last occurrence of `c` is at `k` when `s[k]` is `c` and no later
      character is. */
  lemma LastIndexOfAt(s: string, c: char, k: nat)
    requires k < |s| && s[k] == c
    requires forall j :: k < j < |s| ==> s[j] != c
    ensures LastIndexOf(s, c) == Some(k)
  {
    assert s[k] in s;
    var r := LastIndexOf(s, c);
    forall j | r.value < j < |s| ensures s[j] != c {
      assert s[j] == s[r.value + 1..][j - r.value - 1];
    }
  }

  /** In `name[index]` the last `[` is the one after the name. */
  lemma IndexedBracketAt(n: string, i: string)
    requires PlainText(n) && PlainText(i)
    ensures LastIndexOf(n + "[" + i + "]", '[') == Some(|n|)
  {
    var e := n + "[" + i + "]";
    assert e[|n|] == '[';
    forall j | |n| < j < |e| ensures e[j] != '[' {
      if j < |e| - 1 {
        assert e[j] == i[j - |n| - 1];
      }
    }
    LastIndexOfAt(e, '[', |n|);
  }

  lemma BracketOfSegment(s: Segment)
    requires PlainSegment(s)
    ensures BracketSegment(DotForm(s)) == BracketForm(s)
  {
    match s
    case Property(n) =>
    case Indexed(n, i) =>
      var e := n + "[" + i + "]";
      assert EndsWith(e, "]") by {
        assert e[|e| - 1] == ']';
      }
      IndexedBracketAt(n, i);
      assert e[..|n|] == n;
      assert e[|n|..] == "[" + i + "]";
      calc {
        BracketSegment(e);
        "['" + e[..|n|] + "']" + e[|n|..];
        "['" + n + "'][" + i + "]";
      }
  }

  lemma {:induction false} BracketOfSegments(segs: seq<Segment>)
    requires forall i :: 0 <= i < |segs| ==> PlainSegment(segs[i])
    ensures BracketSegments(DotForms(segs)) == BracketForms(segs)
  {
    if segs != [] {
      BracketOfSegment(segs[0]);
      BracketOfSegments(segs[1..]);
      assert DotForms(segs)[1..] == DotForms(segs[1..]);
    }
  }

  /** A plain segment's dotted form has no dot. */
  lemma DotFormHasNoDot(s: Segment)
    requires PlainSegment(s)
    ensures '.' !in DotForm(s)
  {
    match s
    case Property(n) =>
    case Indexed(n, i) =>
      var e := n + "[" + i + "]";
      forall j | 0 <= j < |e| ensures e[j] != '.' {
        if j < |n| {
          assert e[j] == n[j];
        } else if |n| < j < |e| - 1 {
          assert e[j] == i[j - |n| - 1];
        }
      }
  }

  /** Converting a dotted path of plain segments gives the root followed by
      each segment in bracket form: `a.b.c[0]` becomes `a['b']['c'][0]`. */
  lemma BracketNotationOfPath(root: string, segs: seq<Segment>)
    requires '.' !in root
    requires forall i :: 0 <= i < |segs| ==> PlainSegment(segs[i])
    ensures BracketNotation(Join([root] + DotForms(segs), ".")) == root + BracketForms(segs)
  {
    var forms := DotForms(segs);
    var parts := [root] + forms;
    forall i | 0 <= i < |parts| ensures '.' !in parts[i] {
      if i > 0 {
        assert parts[i] == forms[i - 1] == DotForm(segs[i - 1]);
        DotFormHasNoDot(segs[i - 1]);
      }
    }
    SplitJoin(parts, '.');
    var d := Join(parts, ".");
    assert Split(d, '.') == parts;
    assert parts[0] == root && parts[1..] == forms;
    assert BracketNotation(d) == root + BracketSegments(forms);
    BracketOfSegments(segs);
  }

  // --------------------------------------------------- createVariableName

  /** A character matched by `\w`. */
  predicate IsWordChar(c: char)
  {
    ('a' <= c <= 'z') || ('A' <= c <= 'Z') || ('0' <= c <= '9') || c == '_'
  }

  predicate AllWordChars(s: string)
  {
    forall i :: 0 <= i < |s| ==> IsWordChar(s[i])
  }

  /** The text after the run of non-word characters at the start. */
  function DropNonWord(s: string): (r: string)
    ensures |r| <= |s|
    ensures r == [] || IsWordChar(r[0])
  {
    if s == [] || IsWordChar(s[0]) then s else DropNonWord(s[1..])
  }

  /** `path.replace(/\W+/g, '_')`: every maximal run of non-word characters
      becomes one underscore. */
  function CreateVariableName(path: string): (r: string)
    ensures AllWordChars(r)
    ensures |r| <= |path|
    decreases |path|
  {
    if path == [] then []
    else if IsWordChar(path[0]) then [path[0]] + CreateVariableName(path[1..])
    else "_" + CreateVariableName(DropNonWord(path[1..]))
  }

  /** A name made only of word characters is its own variable name. */
  lemma {:induction false} VariableNameOfWord(path: string)
    requires AllWordChars(path)
    ensures CreateVariableName(path) == path
  {
    if path != [] {
      VariableNameOfWord(path[1..]);
    }
  }

  /** Making a variable name twice gives the same result as once. */
  lemma VariableNameIdempotent(path: string)
    ensures CreateVariableName(CreateVariableName(path)) == CreateVariableName(path)
  {
    VariableNameOfWord(CreateVariableName(path));
  }

  /** A run of non-word characters is dropped whole when a word character
      or the end follows it. */
  lemma {:induction false} DropNonWordRun(n: string, rest: string)
    requires forall i :: 0 <= i < |n| ==> !IsWordChar(n[i])
    requires rest == [] || IsWordChar(rest[0])
    ensures DropNonWord(n + rest) == rest
  {
    if n != [] {
      assert (n + rest)[1..] == n[1..] + rest;
      DropNonWordRun(n[1..], rest);
    } else {
      assert n + rest == rest;
    }
  }

  /** Word characters are kept and the maximal run of non-word characters
      after them becomes exactly one underscore; with `VariableNameOfWord`
      this fixes the variable name of every path, run by run. */
  lemma {:induction false} VariableNameOfRun(w: string, n: string, rest: string)
    requires AllWordChars(w)
    requires n != [] && forall i :: 0 <= i < |n| ==> !IsWordChar(n[i])
    requires rest == [] || IsWordChar(rest[0])
    ensures CreateVariableName(w + n + rest) == w + "_" + CreateVariableName(rest)
    decreases |w|
  {
    if w == [] {
      assert w + n + rest == n + rest;
      assert (n + rest)[1..] == n[1..] + rest;
      DropNonWordRun(n[1..], rest);
    } else {
      assert (w + n + rest)[1..] == w[1..] + n + rest;
      VariableNameOfRun(w[1..], n, rest);
      assert [w[0]] + (w[1..] + "_" + CreateVariableName(rest)) == w + "_" + CreateVariableName(rest);
    }
  }

  /** The letters and digits of a string, in order. */
  function Alnum(s: string): string
  {
    if s == [] then []
    else (if IsWordChar(s[0]) && s[0] != '_' then [s[0]] else []) + Alnum(s[1..])
  }

  lemma {:induction false} AlnumDropNonWord(s: string)
    ensures Alnum(DropNonWord(s)) == Alnum(s)
  {
    if s != [] && !IsWordChar(s[0]) {
      AlnumDropNonWord(s[1..]);
    }
  }

  /** Apart from the underscores, the variable name holds exactly the
      letters and digits of the path, in order. */
  lemma {:induction false} VariableNameKeepsAlnum(path: string)
    ensures Alnum(CreateVariableName(path)) == Alnum(path)
    decreases |path|
  {
    if path != [] {
      if IsWordChar(path[0]) {
        VariableNameKeepsAlnum(path[1..]);
        assert ([path[0]] + CreateVariableName(path[1..]))[1..] == CreateVariableName(path[1..]);
      } else {
        VariableNameKeepsAlnum(DropNonWord(path[1..]));
        AlnumDropNonWord(path[1..]);
        assert ("_" + CreateVariableName(DropNonWord(path[1..])))[1..] == CreateVariableName(DropNonWord(path[1..]));
      }
    }
  }

  // ------------------------------------------------------------- toSymbol

  /** `toSymbol(name)`: the sanitized name with its first character in
      lower case. */
  function ToSymbol(name: string): (r: string)
    ensures |r| == |name|
    ensures '-' !in r
  {
    var s := SanitizeName(name);
    LowerFirst(s)
  }

  /** A symbol is the class name with a lower-case first character, and
      nothing else differs. */
  lemma ToSymbolOfClassName(name: string)
    ensures ToSymbol(name) == LowerFirst(ClassName(name))
    ensures |name| > 0 ==> ToSymbol(name)[0] == Lower(ClassName(name)[0]) && ToSymbol(name)[1..] == ClassName(name)[1..]
  {
  }

  lemma ToSymbolIdempotent(name: string)
    ensures ToSymbol(ToSymbol(name)) == ToSymbol(name)
  {
    var s := ToSymbol(name);
    SanitizeNameFixesHyphenFree(s);
    if s != [] {
      assert LowerFirst(s) == [Lower(s[0])] + s[1..];
    }
  }

  // --------------------------------------------------------------- fhirID

  /** `fhirID(identifier, extra)`: the namespace with its dots replaced by
      hyphens, a hyphen and the name, and `-extra` when extra is not empty. */
  function FhirID(id: Identifier, extra: string): string
  {
    var base := Join(Split(id.namespace, '.'), "-") + "-" + id.name;
    if |extra| > 0 then base + "-" + extra else base
  }

  lemma {:induction false} SplitAvoids(s: string, sep: char, c: char)
    requires c !in s
    ensures forall i :: 0 <= i < |Split(s, sep)| ==> c !in Split(s, sep)[i]
  {
    if s != [] {
      SplitAvoids(s[1..], sep, c);
    }
  }

  /** The parts of a FHIR id: with hyphen-free names, splitting the id at
      hyphens gives back the namespace parts, the name, and the extra part. */
  lemma FhirIDParts(id: Identifier, extra: string)
    requires '-' !in id.namespace && '-' !in id.name && '-' !in extra
    ensures Split(FhirID(id, extra), '-') == Split(id.namespace, '.') + [id.name] + (if |extra| > 0 then [extra] else [])
  {
    var ns := Split(id.namespace, '.');
    JoinAppend(ns, "-", id.name);
    var parts := ns + [id.name];
    SplitAvoids(id.namespace, '.', '-');
    if |extra| > 0 {
      JoinAppend(parts, "-", extra);
      SplitJoin(parts + [extra], '-');
    } else {
      SplitJoin(parts, '-');
    }
  }

  /** Hyphen-free identifiers with different namespaces or names get
      different FHIR ids, so a profile found by id belongs to the
      identifier it was looked up for. */
  lemma FhirIDInjective(a: Identifier, b: Identifier, extra: string)
    requires '-' !in a.namespace && '-' !in a.name && '-' !in b.namespace && '-' !in b.name && '-' !in extra
    requires FhirID(a, extra) == FhirID(b, extra)
    ensures a == b
  {
    FhirIDParts(a, extra);
    FhirIDParts(b, extra);
    var pa := Split(a.namespace, '.') + [a.name];
    var pb := Split(b.namespace, '.') + [b.name];
    if |extra| > 0 {
      assert pa + [extra] == pb + [extra];
      assert pa == (pa + [extra])[..|pa|];
    }
    assert pa + [] == pa && pb + [] == pb;
    assert pa == pb;
    assert Split(a.namespace, '.') == pa[..|pa| - 1];
    assert a.namespace == Join(Split(a.namespace, '.'), ".");
  }

  // --------------------------------------------------- relativeImportPath

  /** What a generated class imports: an included helper file, or another
      generated class. */
  datatype ImportTarget = HelperFile(file: string) | ClassOf(identifier: Identifier)

  function Ups(n: nat): (r: seq<string>)
    ensures |r| == n && forall i :: 0 <= i < n ==> r[i] == ".."
  {
    if n == 0 then [] else [".."] + Ups(n - 1)
  }

  /** The number of leading namespace parts two namespaces share. */
  function CommonPrefix(a: seq<string>, b: seq<string>): (k: nat)
    ensures k <= |a| && k <= |b| && a[..k] == b[..k]
    ensures k < |a| && k < |b| ==> a[k] != b[k]
  {
    if |a| > 0 && |b| > 0 && a[0] == b[0] then
      var k := 1 + CommonPrefix(a[1..], b[1..]);
      assert a[..k] == [a[0]] + a[1..][..k - 1];
      assert b[..k] == [b[0]] + b[1..][..k - 1];
      k
    else 0
  }

  /** The path segments from one namespace directory to a file in
      another: climb out of the parts not shared (or stay, `.`), then
      descend into the rest of the target namespace. */
  function ClassSegments(fromNS: seq<string>, toNS: seq<string>, file: string): seq<string>
  {
    var k := CommonPrefix(fromNS, toNS);
    (if |fromNS| > k then Ups(|fromNS| - k) else ["."]) + toNS[k..] + [file]
  }

  /** The path segments of the import, from the importing class's
      namespace directory. */
  function RelativeSegments(from: Identifier, to: ImportTarget): seq<string>
  {
    var fromNS := Split(from.namespace, '.');
    match to
    case HelperFile(f) => Ups(|fromNS|) + [f]
    case ClassOf(t) => ClassSegments(fromNS, Split(t.namespace, '.'), ClassName(t.name))
  }

  /** `relativeImportPath(fromIdentifier, to)`: drops the namespace parts the
      two sides share, climbs out of the rest of the importing namespace and
      descends into the rest of the imported one. */
  method RelativeImportPath(from: Identifier, to: ImportTarget) returns (path: string)
    ensures path == Join(RelativeSegments(from, to), "/")
  {
    var fromNS := Split(from.namespace, '.');
    match to {
      case HelperFile(f) =>
        path := Join(Ups(|fromNS|) + [f], "/");
      case ClassOf(t) =>
        var toNS := Split(t.namespace, '.');
        ghost var fullFrom, fullTo, k := fromNS, toNS, 0;
        while |fromNS| > 0 && |toNS| > 0 && fromNS[0] == toNS[0]
          invariant k <= |fullFrom| && k <= |fullTo|
          invariant fromNS == fullFrom[k..] && toNS == fullTo[k..]
          invariant CommonPrefix(fullFrom, fullTo) == k + CommonPrefix(fromNS, toNS)
          decreases |fromNS|
        {
          fromNS := fromNS[1..];
          toNS := toNS[1..];
          k := k + 1;
        }
        var fromPath := if |fromNS| > 0 then Ups(|fromNS|) else ["."];
        path := Join(fromPath + toNS + [ClassName(t.name)], "/");
    }
  }

  /** Following one path segment from a directory. */
  function Follow(dir: seq<string>, seg: string): seq<string>
  {
    if seg == ".." then (if dir == [] then [] else dir[..|dir| - 1])
    else if seg == "." then dir
    else dir + [seg]
  }

  /** Following a relative path from a directory. */
  function Resolve(dir: seq<string>, segs: seq<string>): seq<string>
    decreases |segs|
  {
    if segs == [] then dir else Resolve(Follow(dir, segs[0]), segs[1..])
  }

  predicate Descends(segs: seq<string>)
  {
    forall i :: 0 <= i < |segs| ==> segs[i] != ".." && segs[i] != "."
  }

  lemma {:induction false} ResolveDescends(dir: seq<string>, segs: seq<string>)
    requires Descends(segs)
    ensures Resolve(dir, segs) == dir + segs
    decreases |segs|
  {
    if segs != [] {
      ResolveDescends(dir + [segs[0]], segs[1..]);
      assert dir + [segs[0]] + segs[1..] == dir + segs;
    }
  }

  lemma {:induction false} ResolveUps(dir: seq<string>, n: nat, rest: seq<string>)
    requires n <= |dir|
    ensures Resolve(dir, Ups(n) + rest) == Resolve(dir[..|dir| - n], rest)
  {
    if n > 0 {
      assert (Ups(n) + rest)[0] == "..";
      assert Follow(dir, "..") == dir[..|dir| - 1];
      assert Ups(n) + rest == [".."] + (Ups(n - 1) + rest);
      assert Resolve(dir, Ups(n) + rest) == Resolve(Follow(dir, ".."), Ups(n - 1) + rest);
      assert (Ups(n) + rest)[1..] == Ups(n - 1) + rest;
      ResolveUps(dir[..|dir| - 1], n - 1, rest);
      assert dir[..|dir| - 1][..|dir| - 1 - (n - 1)] == dir[..|dir| - n];
    } else {
      assert Ups(0) + rest == rest;
      assert dir[..|dir|] == dir;
    }
  }

  /** A helper-file import climbs out of every namespace part and lands in
      the root, where `export()` puts the helper files. */
  lemma HelperImportResolves(from: Identifier, file: string)
    requires file != ".." && file != "."
    ensures Resolve(Split(from.namespace, '.'), RelativeSegments(from, HelperFile(file))) == [file]
  {
    var fromNS := Split(from.namespace, '.');
    ResolveUps(fromNS, |fromNS|, [file]);
    ResolveDescends([], [file]);
  }

  /** A class import leads from the importing class's namespace directory
      to the imported class's file in its own namespace directory, as
      `export()` lays them out (for namespace parts and class names other
      than `.` and `..`). */
  lemma ClassImportResolves(from: Identifier, t: Identifier)
    requires Descends(Split(t.namespace, '.') + [ClassName(t.name)])
    ensures Resolve(Split(from.namespace, '.'), RelativeSegments(from, ClassOf(t))) ==
      Split(t.namespace, '.') + [ClassName(t.name)]
  {
    ClassSegmentsResolve(Split(from.namespace, '.'), Split(t.namespace, '.'), ClassName(t.name));
  }

  /** Following the segments from one namespace directory to a file in
      another arrives at that file. */
  lemma ClassSegmentsResolve(fromNS: seq<string>, toNS: seq<string>, file: string)
    requires Descends(toNS + [file])
    ensures Resolve(fromNS, ClassSegments(fromNS, toNS, file)) == toNS + [file]
  {
    var k := CommonPrefix(fromNS, toNS);
    var tail := toNS[k..] + [file];
    var whole := toNS + [file];
    assert tail == whole[k..];
    assert Descends(tail) by {
      forall i | 0 <= i < |tail| ensures tail[i] != ".." && tail[i] != "." {
        assert tail[i] == whole[k + i];
      }
    }
    if |fromNS| > k {
      assert ClassSegments(fromNS, toNS, file) == Ups(|fromNS| - k) + tail;
      ResolveUps(fromNS, |fromNS| - k, tail);
      assert fromNS[..|fromNS| - (|fromNS| - k)] == fromNS[..k];
    } else {
      assert ClassSegments(fromNS, toNS, file) == ["."] + tail;
      assert fromNS[..k] == fromNS;
      assert (["."] + tail)[1..] == tail;
    }
    ResolveDescends(fromNS[..k], tail);
    assert toNS[..k] + toNS[k..] == toNS;
    assert toNS[..k] + tail == whole;
  }
}
