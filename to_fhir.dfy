/** The planning part of `writeToFhir` and `generateToFHIRAssignment`
    (lib/generateClass.js): which snapshot elements of a profile get an
    assignment in the generated `toFHIR`, with each SHR field chain
    assigned only once, and where a value with several includes-type
    constraints is put when the element itself is not a list. The model
    records the assignments as events, not the JavaScript text they are
    written as. */
module ToFhir {
  import opened Wrappers
  import opened Strings
  import opened ShrModels
  import opened Fhir
  import opened PathHelpers
  import opened Mappings

  /** What `writeToFhir` writes for a profile, in order. */
  datatype ToEmit =
    | ResourceType(resourceType: string)
    | AssignValue(valueIsList: bool, baseIsList: bool, fhirPath: string)
    | ValueMissing
    | AssignField(fieldIsList: bool, baseIsList: bool, constraintsLength: nat, fhirPath: string, chain: string,
                  container: Option<seq<string>>)

  /** The first mapping with identity `shr`. */
  function FirstShr(ms: seq<Mapping>): Option<Mapping>
  {
    if ms == [] then None
    else if ms[0].identity == ShrIdentity then Some(ms[0])
    else FirstShr(ms[1..])
  }

  /** It is the head of the element's SHR mappings. */
  lemma {:induction false} FirstShrIsHead(ms: seq<Mapping>)
    ensures FirstShr(ms).Some? <==> ShrMappings(ms) != []
    ensures FirstShr(ms).Some? ==> FirstShr(ms).value == ShrMappings(ms)[0]
  {
    if ms != [] && ms[0].identity != ShrIdentity {
      FirstShrIsHead(ms[1..]);
    }
  }

  /** A list on the FHIR side: the base max is `*`, or the element has more
      than one SHR mapping. */
  predicate BaseIsList(e: Element)
  {
    e.baseMax == Some("*") || |ShrMappings(e.mapping)| > 1
  }

  /** The symbols of the tokens' names; a `<Value>` token has no name. */
  function Symbols(tokens: seq<string>): Result<seq<string>>
  {
    if tokens == [] then Ok([])
    else match FhirMappingToIdentifier(tokens[0])
      case None => Crash("a <Value> token has no name")
      case Some(id) =>
        match Symbols(tokens[1..])
        case Crash(msg) => Crash(msg)
        case Ok(rest) => Ok([ToSymbol(id.name)] + rest)
  }

  /** The symbols fail exactly on a `<Value>` token; otherwise there is one
      per token, the symbol of that token's name. */
  lemma {:induction false} SymbolsFacts(tokens: seq<string>)
    ensures Symbols(tokens).Ok? <==> forall i :: 0 <= i < |tokens| ==> tokens[i] != ValueMapping
    ensures Symbols(tokens).Ok? ==> |Symbols(tokens).value| == |tokens|
    ensures Symbols(tokens).Ok? ==> forall i :: 0 <= i < |tokens| ==>
      Symbols(tokens).value[i] == ToSymbol(FhirMappingToIdentifier(tokens[i]).value.name)
  {
    if tokens != [] {
      SymbolsFacts(tokens[1..]);
      if tokens[0] != ValueMapping && Symbols(tokens[1..]).Ok? {
        forall i | 0 <= i < |tokens| ensures tokens[i] != ValueMapping {
          if i > 0 {
            assert tokens[i] == tokens[1..][i - 1];
          }
        }
      }
      if !Symbols(tokens[1..]).Ok? {
        var i :| 0 <= i < |tokens[1..]| && tokens[1..][i] == ValueMapping;
        assert tokens[i + 1] == ValueMapping;
      }
    }
  }

  /** The first field whose (declared) identifier is `id`. */
  function FieldById(fields: seq<Value>, id: Identifier): (r: Option<Value>)
    ensures r.Some? ==> r.value in fields && IdOf(r.value) == Some(id)
    ensures r.None? ==> forall f :: f in fields ==> IdOf(f) != Some(id)
  {
    if fields == [] then None
    else if IdOf(fields[0]) == Some(id) then Some(fields[0])
    else FieldById(fields[1..], id)
  }

  /** The field found is the first one declared with `id`: no field
      before it has that identifier. */
  lemma {:induction false} FieldByIdFirst(fields: seq<Value>, id: Identifier)
    requires FieldById(fields, id).Some?
    ensures exists k :: 0 <= k < |fields| && fields[k] == FieldById(fields, id).value &&
               forall j :: 0 <= j < k ==> IdOf(fields[j]) != Some(id)
  {
    if IdOf(fields[0]) == Some(id) {
      assert fields[0] == FieldById(fields, id).value;
    } else {
      FieldByIdFirst(fields[1..], id);
      var k :| 0 <= k < |fields[1..]| && fields[1..][k] == FieldById(fields[1..], id).value
        && (forall j :: 0 <= j < k ==> IdOf(fields[1..][j]) != Some(id));
      assert fields[k + 1] == FieldById(fields, id).value;
      assert forall j :: 1 <= j < k + 1 ==> fields[j] == fields[1..][j - 1];
    }
  }

  /** A field assignment candidate: the method chain, and the field's
      list-ness and number of includes-type constraints. */
  datatype Candidate = Candidate(chain: string, fieldIsList: bool, constraintsLength: nat)

  /** The candidate of an element whose first SHR mapping names a field:
      the chain is every token's symbol joined by `.`, and the field is the
      first of the definition's fields declared with the first token's
      identifier. */
  function CandidateOf(e: Element, def: DataElement): Result<Option<Candidate>>
  {
    match FirstShr(e.mapping)
    case None => Ok(None)
    case Some(m) =>
      if m.expr == ValueMapping then Ok(None)
      else
        var tokens := Tokens(m.expr);
        if tokens == [] then Ok(None)
        else match Symbols(tokens)
          case Crash(msg) => Crash(msg)
          case Ok(symbols) =>
            match FieldById(def.fields, FhirMappingToIdentifier(tokens[0]).value)
            case None => Ok(None)
            case Some(field) => Ok(Some(Candidate(Join(symbols, "."), IsList(field.card), field.includesTypes)))
  }

  // ---------------------------------------------------------------------
  // The container search.

  /** The first snapshot element with the given path. */
  function ElementWithPath(elements: seq<Element>, path: string): (r: Option<Element>)
    ensures r.Some? ==> r.value in elements && r.value.path == path
    ensures r.None? ==> forall e :: e in elements ==> e.path != path
  {
    if elements == [] then None
    else if elements[0].path == path then Some(elements[0])
    else ElementWithPath(elements[1..], path)
  }

  /** The element found is the first one with that path. */
  lemma {:induction false} ElementWithPathFirst(elements: seq<Element>, path: string)
    requires ElementWithPath(elements, path).Some?
    ensures exists k :: 0 <= k < |elements| && elements[k] == ElementWithPath(elements, path).value &&
               forall j :: 0 <= j < k ==> elements[j].path != path
  {
    if elements[0].path == path {
      assert elements[0] == ElementWithPath(elements, path).value;
    } else {
      ElementWithPathFirst(elements[1..], path);
      var k :| 0 <= k < |elements[1..]| && elements[1..][k] == ElementWithPath(elements[1..], path).value
        && (forall j :: 0 <= j < k ==> elements[1..][j].path != path);
      assert elements[k + 1] == ElementWithPath(elements, path).value;
      assert forall j :: 1 <= j < k + 1 ==> elements[j] == elements[1..][j - 1];
    }
  }

  /** The path is a list container: the first element with that path has
      max `*`. */
  predicate IsContainer(elements: seq<Element>, path: string)
  {
    ElementWithPath(elements, path).Some? && ElementWithPath(elements, path).value.max == "*"
  }

  /** The longest prefix of the first `j` segments (`j` included) that is a
      container, searched from the longest down. */
  function LongestContainer(elements: seq<Element>, segs: seq<string>, j: nat): (r: Option<nat>)
    requires j <= |segs|
    ensures r.Some? ==> r.value <= j && IsContainer(elements, Join(segs[..r.value], "."))
    ensures r.Some? ==> forall k :: r.value < k <= j ==> !IsContainer(elements, Join(segs[..k], "."))
    ensures r.None? ==> forall k :: 0 <= k <= j ==> !IsContainer(elements, Join(segs[..k], "."))
  {
    if IsContainer(elements, Join(segs[..j], ".")) then Some(j)
    else if j == 0 then None
    else LongestContainer(elements, segs, j - 1)
  }

  /** `slice(1)`: the segments without the resource name. */
  function DropFirst(segs: seq<string>): seq<string>
  {
    if segs == [] then [] else segs[1..]
  }

  /** `containerProfileArray`: when neither side is a list and there is
      more than one includes-type constraint, the segments (without the
      resource name) of the longest proper prefix of the element path whose
      element is a list. */
  function ContainerOf(elements: seq<Element>, fhirPath: string, cardIsList: bool, baseIsList: bool, constraintsLength: nat)
    : Option<seq<string>>
  {
    if !(cardIsList || baseIsList) && constraintsLength > 1 then
      var segs := Split(fhirPath, '.');
      match LongestContainer(elements, segs, |segs| - 1)
      case None => None
      case Some(j) => Some(DropFirst(segs[..j]))
    else None
  }

  /** The container search loop, popping the last segment each time. */
  method FindContainer(elements: seq<Element>, fhirPath: string, cardIsList: bool, baseIsList: bool, constraintsLength: nat)
    returns (containerProfileArray: Option<seq<string>>)
    ensures containerProfileArray == ContainerOf(elements, fhirPath, cardIsList, baseIsList, constraintsLength)
  {
    containerProfileArray := None;
    if !(cardIsList || baseIsList) && constraintsLength > 1 {
      var segs := Split(fhirPath, '.');
      var pathArrayClone := segs;
      while |pathArrayClone| > 0
        invariant pathArrayClone == segs[..|pathArrayClone|]
        invariant forall k :: |pathArrayClone| <= k < |segs| ==> !IsContainer(elements, Join(segs[..k], "."))
      {
        pathArrayClone := pathArrayClone[..|pathArrayClone| - 1];
        assert pathArrayClone == segs[..|pathArrayClone|];
        var searchString := Join(pathArrayClone, ".");
        var candidateSnapshotElement := ElementWithPath(elements, searchString);
        if candidateSnapshotElement.Some? && candidateSnapshotElement.value.max == "*" {
          assert IsContainer(elements, Join(segs[..|pathArrayClone|], "."));
          return Some(DropFirst(pathArrayClone));
        }
      }
    }
  }

  // ---------------------------------------------------------------------
  // The element loop.

  /** The walk's state: the chains already assigned, with the path of the
      element that assigned each, and the events so far. */
  datatype State = State(alreadyMapped: map<string, string>, out: seq<ToEmit>)

  /** What a `<Value>` mapping assigns: the value, when the definition's
      value is an identifiable primitive. */
  function ValueEvent(e: Element, def: DataElement): (r: ToEmit)
    ensures r.AssignValue? <==> def.value.Some? && IsIdentifiable(def.value.value) && IsPrimitive(def.value.value.identifier)
    ensures r.AssignValue? ==> r.fhirPath == e.path && r.valueIsList == IsList(def.value.value.card)
  {
    match def.value
    case Some(v) =>
      if IsIdentifiable(v) && IsPrimitive(v.identifier) then AssignValue(IsList(v.card), BaseIsList(e), e.path)
      else ValueMissing
    case None => ValueMissing
  }

  /** What a field mapping does: assign the field unless its chain was
      assigned already. */
  function FieldStep(st: State, e: Element, def: DataElement, elements: seq<Element>): Result<State>
  {
    match CandidateOf(e, def)
    case Crash(msg) => Crash(msg)
    case Ok(None) => Ok(st)
    case Ok(Some(c)) =>
      if c.chain in st.alreadyMapped then Ok(st)
      else
        var container := ContainerOf(elements, e.path, c.fieldIsList, BaseIsList(e), c.constraintsLength);
        Ok(State(st.alreadyMapped[c.chain := e.path],
                 st.out + [AssignField(c.fieldIsList, BaseIsList(e), c.constraintsLength, e.path, c.chain, container)]))
  }

  /** The effect of one snapshot element, which only its first SHR mapping
      decides. */
  function Step(st: State, e: Element, def: DataElement, elements: seq<Element>): Result<State>
  {
    match FirstShr(e.mapping)
    case None => Ok(st)
    case Some(m) =>
      if m.expr == ValueMapping then Ok(st.(out := st.out + [ValueEvent(e, def)]))
      else FieldStep(st, e, def, elements)
  }

  /** The state after the first `n` elements. */
  function Run(elements: seq<Element>, n: nat, def: DataElement): Result<State>
    requires n <= |elements|
  {
    if n == 0 then Ok(State(map[], []))
    else match Run(elements, n - 1, def)
      case Crash(msg) => Crash(msg)
      case Ok(st) => Step(st, elements[n - 1], def, elements)
  }

  /** The events of `writeToFhir` for a profile: the resource type for an
      entry, then the assignments. */
  function ToFhirPlan(profile: Profile, def: DataElement): Result<seq<ToEmit>>
  {
    var start := if def.isEntry then [ResourceType(profile.resourceType)] else [];
    match Run(profile.elements, |profile.elements|, def)
    case Crash(msg) => Crash(msg)
    case Ok(st) => Ok(start + st.out)
  }

  lemma {:induction false} RunCrash(elements: seq<Element>, j: nat, def: DataElement)
    requires j <= |elements| && Run(elements, j, def).Crash?
    ensures Run(elements, |elements|, def) == Run(elements, j, def)
    decreases |elements| - j
  {
    if j < |elements| {
      RunCrash(elements, j + 1, def);
    }
  }

  /** The body of `writeToFhir`'s loop for one snapshot element. */
  method StepElement(alreadyMappedElements: map<string, string>, body: seq<ToEmit>, element: Element, def: DataElement,
                     elements: seq<Element>)
    returns (r: Result<State>)
    ensures r == Step(State(alreadyMappedElements, body), element, def, elements)
  {
    r := Ok(State(alreadyMappedElements, body));
    var baseIsList := BaseIsList(element);
    var mapping := FirstShr(element.mapping);
    if mapping.None? {
      return;
    }
    if mapping.value.expr == ValueMapping {
      if def.value.Some? && IsIdentifiable(def.value.value) && IsPrimitive(def.value.value.identifier) {
        r := Ok(State(alreadyMappedElements, body + [AssignValue(IsList(def.value.value.card), baseIsList, element.path)]));
      } else {
        r := Ok(State(alreadyMappedElements, body + [ValueMissing]));
      }
      return;
    }
    var candidate := CandidateOf(element, def);
    if candidate.Crash? {
      return Crash(candidate.reason);
    }
    if candidate.value.Some? {
      var c := candidate.value.value;
      if c.chain !in alreadyMappedElements {
        var container := FindContainer(elements, element.path, c.fieldIsList, baseIsList, c.constraintsLength);
        r := Ok(State(alreadyMappedElements[c.chain := element.path],
                      body + [AssignField(c.fieldIsList, baseIsList, c.constraintsLength, element.path, c.chain, container)]));
      }
    }
  }

  /** `writeToFhir` for a profile, with its `alreadyMappedElements` map. */
  method WriteToFhir(profile: Profile, def: DataElement) returns (r: Result<seq<ToEmit>>)
    ensures r == ToFhirPlan(profile, def)
  {
    var start: seq<ToEmit> := [];
    if def.isEntry {
      start := [ResourceType(profile.resourceType)];
    }
    var alreadyMappedElements: map<string, string> := map[];
    var body: seq<ToEmit> := [];
    var elements := profile.elements;
    for i := 0 to |elements|
      invariant Run(elements, i, def) == Ok(State(alreadyMappedElements, body))
    {
      var next := StepElement(alreadyMappedElements, body, elements[i], def, elements);
      if next.Crash? {
        RunCrash(elements, i + 1, def);
        return Crash(next.reason);
      }
      alreadyMappedElements, body := next.value.alreadyMapped, next.value.out;
    }
    return Ok(start + body);
  }

  // ---------------------------------------------------------------------
  // What the walk promises.

  /** The chain an element would assign, when it names a field. */
  function ChainOf(e: Element, def: DataElement): Option<string>
  {
    match CandidateOf(e, def)
    case Ok(Some(c)) => Some(c.chain)
    case _ => None
  }

  /** The chains assigned by the events, with the FHIR path of each. */
  function Assigned(out: seq<ToEmit>): (r: seq<(string, string)>)
  {
    if out == [] then []
    else
      var last := if Last(out).AssignField? then [(Last(out).chain, Last(out).fhirPath)] else [];
      Assigned(out[..|out| - 1]) + last
  }

  lemma AssignedSnoc(out: seq<ToEmit>, x: ToEmit)
    ensures Assigned(out + [x]) == Assigned(out) + (if x.AssignField? then [(x.chain, x.fhirPath)] else [])
  {
    assert (out + [x])[..|out|] == out;
  }

  /** One element: it adds an assignment exactly when it names a field
      whose chain is not assigned yet, and records that chain with its path. */
  lemma StepFacts(st: State, e: Element, def: DataElement, elements: seq<Element>)
    requires Step(st, e, def, elements).Ok?
    ensures CandidateOf(e, def).Ok?
    ensures var st' := Step(st, e, def, elements).value;
      if ChainOf(e, def).Some? && ChainOf(e, def).value !in st.alreadyMapped then
        st'.alreadyMapped == st.alreadyMapped[ChainOf(e, def).value := e.path] &&
        Assigned(st'.out) == Assigned(st.out) + [(ChainOf(e, def).value, e.path)]
      else
        st'.alreadyMapped == st.alreadyMapped && Assigned(st'.out) == Assigned(st.out)
  {
    var st' := Step(st, e, def, elements).value;
    match FirstShr(e.mapping)
    case None =>
    case Some(m) =>
      if m.expr == ValueMapping {
        var x :| st'.out == st.out + [x] && !x.AssignField?;
        AssignedSnoc(st.out, x);
      } else if ChainOf(e, def).Some? && ChainOf(e, def).value !in st.alreadyMapped {
        AssignedSnoc(st.out, Last(st'.out));
        assert st'.out == st.out + [Last(st'.out)];
      }
  }

  /** One element fails exactly when its mapping is malformed. */
  lemma StepOk(st: State, e: Element, def: DataElement, elements: seq<Element>)
    ensures Step(st, e, def, elements).Ok? <==> CandidateOf(e, def).Ok?
  {
  }

  /** A walk that does not fail met no element whose mapping is malformed,
      and one that fails met one. */
  lemma {:induction false} RunOk(elements: seq<Element>, n: nat, def: DataElement)
    requires n <= |elements|
    ensures Run(elements, n, def).Ok? <==> forall i :: 0 <= i < n ==> CandidateOf(elements[i], def).Ok?
  {
    if n > 0 {
      RunOk(elements, n - 1, def);
      var prev := Run(elements, n - 1, def);
      if prev.Ok? {
        assert Run(elements, n, def) == Step(prev.value, elements[n - 1], def, elements);
        StepOk(prev.value, elements[n - 1], def, elements);
      } else {
        assert Run(elements, n, def).Crash?;
        var i :| 0 <= i < n - 1 && CandidateOf(elements[i], def).Crash?;
      }
    }
  }

  /** The first element (among the first `n`) that names chain `c`. */
  predicate FirstWithChain(elements: seq<Element>, def: DataElement, i: nat)
    requires i < |elements|
  {
    ChainOf(elements[i], def).Some? &&
    forall j :: 0 <= j < i ==> ChainOf(elements[j], def) != ChainOf(elements[i], def)
  }

  /** `alreadyMappedElements` after `n` elements: a chain is in it exactly
      when one of those elements names it. */
  lemma {:induction false} RunMappedKeys(elements: seq<Element>, n: nat, def: DataElement)
    requires n <= |elements| && Run(elements, n, def).Ok?
    ensures forall c :: c in Run(elements, n, def).value.alreadyMapped <==>
      exists i :: 0 <= i < n && ChainOf(elements[i], def) == Some(c)
  {
    if n > 0 {
      var st := Run(elements, n - 1, def).value;
      var e := elements[n - 1];
      RunMappedKeys(elements, n - 1, def);
      StepFacts(st, e, def, elements);
      var st' := Run(elements, n, def).value;
      forall c ensures c in st'.alreadyMapped <==> exists i :: 0 <= i < n && ChainOf(elements[i], def) == Some(c) {
        if c in st.alreadyMapped {
          var i :| 0 <= i < n - 1 && ChainOf(elements[i], def) == Some(c);
        }
        if exists i :: 0 <= i < n && ChainOf(elements[i], def) == Some(c) {
          var i :| 0 <= i < n && ChainOf(elements[i], def) == Some(c);
          if i < n - 1 {
            assert c in st.alreadyMapped;
          }
        }
      }
    }
  }

  /** ... and it holds the path of the first element that names it. */
  lemma {:induction false} RunMappedFirst(elements: seq<Element>, n: nat, def: DataElement)
    requires n <= |elements| && Run(elements, n, def).Ok?
    ensures forall i :: 0 <= i < n && FirstWithChain(elements, def, i) ==>
      ChainOf(elements[i], def).value in Run(elements, n, def).value.alreadyMapped &&
      Run(elements, n, def).value.alreadyMapped[ChainOf(elements[i], def).value] == elements[i].path
  {
    if n > 0 {
      var st := Run(elements, n - 1, def).value;
      var e := elements[n - 1];
      RunMappedFirst(elements, n - 1, def);
      RunMappedKeys(elements, n - 1, def);
      StepFacts(st, e, def, elements);
      var st' := Run(elements, n, def).value;
      forall i | 0 <= i < n && FirstWithChain(elements, def, i)
        ensures ChainOf(elements[i], def).value in st'.alreadyMapped
        ensures st'.alreadyMapped[ChainOf(elements[i], def).value] == elements[i].path
      {
        if i == n - 1 {
          assert ChainOf(e, def).value !in st.alreadyMapped;
        }
      }
    }
  }

  /** No chain is assigned twice. */
  predicate DistinctChains(a: seq<(string, string)>)
  {
    forall i, j :: 0 <= i < j < |a| ==> a[i].0 != a[j].0
  }

  /** The assignments are exactly the recorded chains, each with its path. */
  ghost predicate AssignedAsRecorded(a: seq<(string, string)>, mapped: map<string, string>)
  {
    forall c, p :: (c, p) in a <==> c in mapped && mapped[c] == p
  }

  /** Assigning and recording a chain not recorded before keeps both facts. */
  lemma AssignFresh(a: seq<(string, string)>, mapped: map<string, string>, c: string, p: string)
    requires DistinctChains(a) && AssignedAsRecorded(a, mapped) && c !in mapped
    ensures DistinctChains(a + [(c, p)])
    ensures AssignedAsRecorded(a + [(c, p)], mapped[c := p])
  {
    forall i | 0 <= i < |a| ensures a[i].0 != c {
      assert a[i] in a;
    }
  }

  /** The assignments after `n` elements: each chain once, each with the
      path `alreadyMappedElements` records for it. */
  lemma {:induction false} RunAssigned(elements: seq<Element>, n: nat, def: DataElement)
    requires n <= |elements| && Run(elements, n, def).Ok?
    ensures DistinctChains(Assigned(Run(elements, n, def).value.out))
    ensures AssignedAsRecorded(Assigned(Run(elements, n, def).value.out), Run(elements, n, def).value.alreadyMapped)
  {
    if n > 0 {
      var st := Run(elements, n - 1, def).value;
      var e := elements[n - 1];
      RunAssigned(elements, n - 1, def);
      StepFacts(st, e, def, elements);
      if ChainOf(e, def).Some? && ChainOf(e, def).value !in st.alreadyMapped {
        AssignFresh(Assigned(st.out), st.alreadyMapped, ChainOf(e, def).value, e.path);
      }
    }
  }

  /** The assignments of a whole profile: each field chain is assigned once,
      by the first element that names it, and every chain some element
      names is assigned. */
  lemma ToFhirOncePerChain(profile: Profile, def: DataElement)
    requires Run(profile.elements, |profile.elements|, def).Ok?
    ensures var a := Assigned(Run(profile.elements, |profile.elements|, def).value.out);
      forall i, j :: 0 <= i < j < |a| ==> a[i].0 != a[j].0
    ensures var a := Assigned(Run(profile.elements, |profile.elements|, def).value.out);
      forall i :: 0 <= i < |profile.elements| && FirstWithChain(profile.elements, def, i) ==>
        (ChainOf(profile.elements[i], def).value, profile.elements[i].path) in a
    ensures var a := Assigned(Run(profile.elements, |profile.elements|, def).value.out);
      forall c, p :: (c, p) in a ==> exists i :: 0 <= i < |profile.elements| && ChainOf(profile.elements[i], def) == Some(c)
  {
    RunAssigned(profile.elements, |profile.elements|, def);
    RunMappedKeys(profile.elements, |profile.elements|, def);
    RunMappedFirst(profile.elements, |profile.elements|, def);
  }

  /** Prefix `j` (a number of segments) is the longest proper prefix of the
      segments whose element is a container. */
  predicate LongestProperContainer(elements: seq<Element>, segs: seq<string>, j: int)
  {
    0 <= j < |segs| && IsContainer(elements, Join(segs[..j], ".")) &&
    forall k :: j < k < |segs| ==> !IsContainer(elements, Join(segs[..k], "."))
  }

  /** The container found is the longest proper prefix of the element's
      path whose element has max `*`, without the resource name; there is
      none when either side is a list, when there is at most one
      constraint, or when no proper prefix is a list. */
  lemma ContainerIsLongest(elements: seq<Element>, fhirPath: string, cardIsList: bool, baseIsList: bool,
                           constraintsLength: nat)
    ensures (cardIsList || baseIsList || constraintsLength <= 1) ==>
      ContainerOf(elements, fhirPath, cardIsList, baseIsList, constraintsLength).None?
    ensures ContainerOf(elements, fhirPath, cardIsList, baseIsList, constraintsLength).Some? ==>
      exists j :: LongestProperContainer(elements, Split(fhirPath, '.'), j) &&
        ContainerOf(elements, fhirPath, cardIsList, baseIsList, constraintsLength).value == DropFirst(Split(fhirPath, '.')[..j])
    ensures (!(cardIsList || baseIsList || constraintsLength <= 1) &&
             ContainerOf(elements, fhirPath, cardIsList, baseIsList, constraintsLength).None?) ==>
      forall k :: 0 <= k < |Split(fhirPath, '.')| ==> !IsContainer(elements, Join(Split(fhirPath, '.')[..k], "."))
  {
    var r := ContainerOf(elements, fhirPath, cardIsList, baseIsList, constraintsLength);
    var segs := Split(fhirPath, '.');
    if !(cardIsList || baseIsList) && constraintsLength > 1 {
      var l := LongestContainer(elements, segs, |segs| - 1);
      if l.Some? {
        var j := l.value;
        assert r == Some(DropFirst(segs[..j]));
        assert LongestProperContainer(elements, segs, j) && r.value == DropFirst(segs[..j]);
      } else {
        assert r.None?;
      }
    } else {
      assert r.None?;
    }
  }
}
