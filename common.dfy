/** Naming helpers shared by the generators (lib/common.js). Characters are
    treated as ASCII for capitalisation. */
module Common {
  import opened Strings

  /** `name.replace(/[-]/g, '_')`: every hyphen becomes an underscore. */
  function SanitizeName(name: string): (r: string)
    ensures |r| == |name|
    ensures forall i :: 0 <= i < |name| ==> r[i] == (if name[i] == '-' then '_' else name[i])
    ensures '-' !in r
  {
    if name == [] then []
    else [if name[0] == '-' then '_' else name[0]] + SanitizeName(name[1..])
  }

  /** Sanitising twice is sanitising once. */
  lemma {:induction false} SanitizeNameIdempotent(name: string)
    ensures SanitizeName(SanitizeName(name)) == SanitizeName(name)
  {
    if name != [] {
      SanitizeNameIdempotent(name[1..]);
    }
  }

  /** A name without hyphens is left as it is. */
  lemma {:induction false} SanitizeNameFixesHyphenFree(name: string)
    requires '-' !in name
    ensures SanitizeName(name) == name
  {
    if name != [] {
      SanitizeNameFixesHyphenFree(name[1..]);
    }
  }

  /** The class name of an element is its sanitised name. */
  function ClassName(name: string): (r: string)
    ensures r == SanitizeName(name)
  {
    SanitizeName(name)
  }

  /** Every part with its first character upper-cased. */
  function CapitalizeParts(parts: seq<string>): (r: seq<string>)
    ensures |r| == |parts|
    ensures forall i :: 0 <= i < |parts| ==> r[i] == CapitalizeFirst(parts[i])
  {
    if parts == [] then [] else [CapitalizeFirst(parts[0])] + CapitalizeParts(parts[1..])
  }

  /** The name of a namespace's object factory: the dot-separated parts,
      each capitalised, run together, then `ObjectFactory`. */
  function FactoryName(namespace: string): string
  {
    Join(CapitalizeParts(Split(namespace, '.')), "") + "ObjectFactory"
  }

  /** The number of occurrences of `c` in `s`. */
  function Count(s: string, c: char): nat
  {
    if s == [] then 0 else (if s[0] == c then 1 else 0) + Count(s[1..], c)
  }

  /** The summed lengths of a list of strings. */
  function TotalLength(parts: seq<string>): nat
  {
    if parts == [] then 0 else |parts[0]| + TotalLength(parts[1..])
  }

  lemma {:induction false} ConcatLength(parts: seq<string>)
    ensures |Join(parts, "")| == TotalLength(parts)
  {
    if |parts| > 1 {
      ConcatLength(parts[1..]);
    }
  }

  lemma {:induction false} ConcatAvoids(parts: seq<string>, c: char)
    requires forall i :: 0 <= i < |parts| ==> c !in parts[i]
    ensures c !in Join(parts, "")
  {
    if |parts| > 1 {
      ConcatAvoids(parts[1..], c);
    }
  }

  lemma {:induction false} CapitalizeLength(parts: seq<string>)
    ensures TotalLength(CapitalizeParts(parts)) == TotalLength(parts)
  {
    if parts != [] {
      CapitalizeLength(parts[1..]);
      assert CapitalizeParts(parts)[1..] == CapitalizeParts(parts[1..]);
    }
  }

  /** The pieces of a split, with their separators, make up the whole. */
  lemma {:induction false} SplitLength(s: string, c: char)
    ensures TotalLength(Split(s, c)) + |Split(s, c)| - 1 == |s|
    ensures |Split(s, c)| == Count(s, c) + 1
  {
    if s != [] {
      SplitLength(s[1..], c);
      var rest := Split(s[1..], c);
      if s[0] != c {
        var r := Split(s, c);
        assert r[1..] == rest[1..];
        assert TotalLength(r) == |r[0]| + TotalLength(rest[1..]);
        assert TotalLength(rest) == |rest[0]| + TotalLength(rest[1..]);
      } else {
        assert Split(s, c)[1..] == rest;
      }
    }
  }

  /** A factory name holds no dot and ends in `ObjectFactory`. */
  lemma FactoryNameNoDot(namespace: string)
    ensures '.' !in FactoryName(namespace)
    ensures EndsWith(FactoryName(namespace), "ObjectFactory")
  {
    var parts := Split(namespace, '.');
    var caps := CapitalizeParts(parts);
    forall i | 0 <= i < |caps| ensures '.' !in caps[i] {
      assert '.' !in parts[i];
    }
    ConcatAvoids(caps, '.');
    var body := Join(caps, "");
    var r := body + "ObjectFactory";
    assert r[|r| - 13..] == "ObjectFactory";
    assert forall k :: 0 <= k < |r| ==> r[k] != '.' by {
      forall k | 0 <= k < |r| ensures r[k] != '.' {
        if k < |body| { assert r[k] == body[k]; }
      }
    }
  }

  /** A factory name is as long as the namespace less its dots, plus the 13
      characters of `ObjectFactory` (capitalising keeps each part's length). */
  lemma FactoryNameLength(namespace: string)
    ensures |FactoryName(namespace)| == |namespace| - Count(namespace, '.') + |"ObjectFactory"|
  {
    var parts := Split(namespace, '.');
    var caps := CapitalizeParts(parts);
    ConcatLength(caps);
    CapitalizeLength(parts);
    SplitLength(namespace, '.');
  }

  /** One more dot-separated part: the factory name of the shorter namespace,
      without its `ObjectFactory`, then the new part capitalised, then
      `ObjectFactory`. With `FactoryNameSinglePart` this fixes the whole name,
      part by part. */
  lemma FactoryNameSnoc(namespace: string, part: string)
    requires '.' !in part
    ensures FactoryName(namespace + "." + part) ==
      FactoryName(namespace)[..|FactoryName(namespace)| - 13] + CapitalizeFirst(part) + "ObjectFactory"
  {
    var parts := Split(namespace, '.');
    SplitConcat(namespace, part);
    var caps := CapitalizeParts(parts);
    assert CapitalizeParts(parts + [part]) == caps + [CapitalizeFirst(part)];
    JoinAppend(caps, "", CapitalizeFirst(part));
    var body := Join(caps, "");
    assert FactoryName(namespace)[..|FactoryName(namespace)| - 13] == body;
  }

  /** A namespace without dots gives its own name, capitalised. */
  lemma FactoryNameSinglePart(namespace: string)
    requires '.' !in namespace
    ensures FactoryName(namespace) == CapitalizeFirst(namespace) + "ObjectFactory"
  {
    SplitNoSep(namespace, '.');
  }
}
