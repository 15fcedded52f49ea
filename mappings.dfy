/** The SHR mapping parser and chain resolver of the class generator
    (lib/generateClass.js): `fhirMappingToIdentifier`,
    `getFieldAndMethodChain` and `preProcessFieldMappings`. */
module Mappings {
  import opened Wrappers
  import opened Strings
  import opened ShrModels
  import opened Fhir
  import opened PathHelpers

  // ------------------------------------------------------------ tokens

  /** A match of `/<([^>]*)>/`: angle brackets around text without `>`. */
  predicate IsToken(t: string)
  {
    |t| >= 2 && t[0] == '<' && t[|t| - 1] == '>' && forall j :: 0 <= j < |t| - 1 ==> t[j] != '>'
  }

  /** `mapping.match(/<([^>]*)>/g)`, with the empty list for no match: from
      the first `<` up to the next `>`, repeatedly. A `<` with no `>` after
      it ends the matching. */
  function Tokens(s: string): seq<string>
    decreases |s|
  {
    if s == [] then []
    else if s[0] != '<' then Tokens(s[1..])
    else match IndexOfChar(s[1..], '>')
      case None => []
      case Some(q) => [s[..q + 2]] + Tokens(s[q + 2..])
  }

  /** Every match is a token: angle brackets around text without `>`. */
  lemma {:induction false} TokensAreTokens(s: string)
    ensures forall i :: 0 <= i < |Tokens(s)| ==> IsToken(Tokens(s)[i])
    decreases |s|
  {
    if s != [] {
      if s[0] != '<' {
        TokensAreTokens(s[1..]);
      } else {
        match IndexOfChar(s[1..], '>')
        case None =>
        case Some(q) =>
          TokensAreTokens(s[q + 2..]);
          var t := s[..q + 2];
          assert t[|t| - 1] == s[1..][q];
          assert forall j :: 0 < j < |t| - 1 ==> t[j] == s[1..][j - 1];
          assert IsToken(t);
      }
    }
  }

  /** Text before the first `<` produces no token. */
  lemma {:induction false} TokensSkip(a: string, b: string)
    requires '<' !in a
    ensures Tokens(a + b) == Tokens(b)
  {
    if a != [] {
      TokensSkip(a[1..], b);
      assert (a + b)[1..] == a[1..] + b;
    } else {
      assert a + b == b;
    }
  }

  /** A token at the start is matched as a whole. */
  lemma TokensFirst(x: string, rest: string)
    requires '>' !in x
    ensures Tokens("<" + x + ">" + rest) == ["<" + x + ">"] + Tokens(rest)
  {
    var s := "<" + x + ">" + rest;
    var t := s[1..];
    forall j | 0 <= j < |x| ensures t[j] != '>' {
      assert t[j] == x[j];
    }
    IndexOfCharAt(t, '>', |x|);
    assert s[..|x| + 2] == "<" + x + ">";
    assert s[|x| + 2..] == rest;
  }

  // ----------------------------------------------- fhirMappingToIdentifier

  /** `fhirMappingToIdentifier(mappingString)`: None (null) for `<Value>`;
      otherwise the text between the angle brackets, split at dots, with the
      last part as the name and the others, joined by dots, as the
      namespace. */
  function FhirMappingToIdentifier(token: string): (r: Option<Identifier>)
    ensures r.None? <==> token == "<Value>"
    ensures r.Some? ==> '.' !in r.value.name
  {
    if token == "<Value>" then None
    else
      var bare := if |token| >= 2 then token[1..|token| - 1] else "";
      var parts := Split(bare, '.');
      Some(Identifier(Join(parts[..|parts| - 1], "."), Last(parts)))
  }

  /** The token of an identifier, as the profile mappings write it. */
  function TokenOf(id: Identifier): string
  {
    "<" + Fqn(id) + ">"
  }

  /** Parsing inverts printing: the token of an identifier whose name has no
      dot gives the identifier back, except the `Value` keyword, which gives
      null. */
  lemma MappingIdentifierRoundTrip(id: Identifier)
    requires '.' !in id.name
    ensures FhirMappingToIdentifier(TokenOf(id)) ==
      if id == Identifier("", "Value") then None else Some(id)
  {
    var t := TokenOf(id);
    if t != "<Value>" {
      assert t[1..|t| - 1] == Fqn(id);
      SplitNoSep(id.name, '.');
      if id.namespace == "" {
        assert Split(Fqn(id), '.') == [id.name];
      } else {
        var ns := Split(id.namespace, '.');
        SplitConcat(id.namespace, id.name);
        assert Split(Fqn(id), '.') == ns + [id.name];
        assert (ns + [id.name])[..|ns|] == ns;
      }
    } else {
      assert Fqn(id) == "Value" by { assert t[1..|t| - 1] == Fqn(id); }
      FqnDot(id);
      assert forall j :: 0 <= j < 5 ==> "Value"[j] != '.';
    }
  }

  lemma FqnDot(id: Identifier)
    ensures id.namespace != "" ==> |Fqn(id)| > |id.namespace| && Fqn(id)[|id.namespace|] == '.'
  {
  }

  /** The mapping text of a chain of identifiers, `<a.B>.<c.D>`. */
  function MappingOf(ids: seq<Identifier>): string
  {
    if ids == [] then "" else if |ids| == 1 then TokenOf(ids[0]) else TokenOf(ids[0]) + "." + MappingOf(ids[1..])
  }

  function TokensOf(ids: seq<Identifier>): (r: seq<string>)
    ensures |r| == |ids| && forall i :: 0 <= i < |ids| ==> r[i] == TokenOf(ids[i])
  {
    if ids == [] then [] else [TokenOf(ids[0])] + TokensOf(ids[1..])
  }

  predicate NoAngles(id: Identifier)
  {
    '<' !in id.namespace && '>' !in id.namespace && '<' !in id.name && '>' !in id.name
  }

  /** The tokens of a written chain are the identifiers' tokens, one per
      identifier, in order. */
  lemma {:induction false} TokensOfMapping(ids: seq<Identifier>)
    requires forall i :: 0 <= i < |ids| ==> NoAngles(ids[i])
    ensures Tokens(MappingOf(ids)) == TokensOf(ids)
  {
    if ids != [] {
      var x := Fqn(ids[0]);
      FqnNoAngle(ids[0]);
      if |ids| == 1 {
        TokensFirst(x, "");
        assert "<" + x + ">" + "" == TokenOf(ids[0]);
      } else {
        var rest := MappingOf(ids[1..]);
        assert MappingOf(ids) == "<" + x + ">" + ("." + rest);
        TokensOfMapping(ids[1..]);
        TokensFirst(x, "." + rest);
        TokensSkip(".", rest);
        assert TokensOf(ids) == [TokenOf(ids[0])] + TokensOf(ids[1..]);
      }
    }
  }

  lemma FqnNoAngle(id: Identifier)
    requires NoAngles(id)
    ensures '>' !in Fqn(id)
  {
    if id.namespace != "" {
      var f := Fqn(id);
      forall j | 0 <= j < |f| ensures f[j] != '>' {
        if j < |id.namespace| {
          assert f[j] == id.namespace[j];
        } else if j > |id.namespace| {
          assert f[j] == id.name[j - |id.namespace| - 1];
        }
      }
    }
  }

  // ------------------------------------------------ getFieldAndMethodChain

  /** The position of the first value whose effective identifier is `id`. */
  function FirstMatch(vs: seq<Value>, id: Identifier): (r: Option<nat>)
    ensures r.Some? ==> r.value < |vs| && EffectiveIdOf(vs[r.value]) == Some(id)
    ensures r.Some? ==> forall j :: 0 <= j < r.value ==> EffectiveIdOf(vs[j]) != Some(id)
    ensures r.None? ==> forall j :: 0 <= j < |vs| ==> EffectiveIdOf(vs[j]) != Some(id)
  {
    if vs == [] then None
    else if EffectiveIdOf(vs[0]) == Some(id) then Some(0)
    else match FirstMatch(vs[1..], id)
      case None => None
      case Some(k) => Some(k + 1)
  }

  /** One resolved step of a chain: the accessor name and the field. */
  datatype Step = Step(methodName: string, field: Value)

  /** One step of `getFieldAndMethodChain` on the element `cur`: the value
      slot when it is identifiable with that identifier, else the first
      choice option with it, both as `value`; else the first field with it,
      named by its symbol; else nothing. */
  function ResolveStep(id: Identifier, cur: DataElement): (r: Option<Step>)
    ensures r.Some? ==> EffectiveIdOf(r.value.field) == Some(id)
  {
    if cur.value.Some? && EffectiveIdOf(cur.value.value) == Some(id) then
      Some(Step("value", cur.value.value))
    else if cur.value.Some? && cur.value.value.Choice? && FirstMatch(cur.value.value.options, id).Some? then
      Some(Step("value", cur.value.value.options[FirstMatch(cur.value.value.options, id).value]))
    else
      match FirstMatch(cur.fields, id)
      case None => None
      case Some(i) => Some(Step(ToSymbol(cur.fields[i].effective.name), cur.fields[i]))
  }

  /** The order in which a step looks: an identifiable value slot with the
      identifier wins; otherwise the first choice option with it; otherwise
      the first field with it, accessed by the symbol of its name; and the
      step fails exactly when none of these has the identifier. */
  lemma ResolveStepOrder(id: Identifier, cur: DataElement)
    ensures var r := ResolveStep(id, cur);
      && (cur.value.Some? && EffectiveIdOf(cur.value.value) == Some(id) ==>
            r == Some(Step("value", cur.value.value)))
      && (cur.value.Some? && EffectiveIdOf(cur.value.value) != Some(id) && cur.value.value.Choice? ==>
            forall i :: 0 <= i < |cur.value.value.options| && EffectiveIdOf(cur.value.value.options[i]) == Some(id) &&
                        (forall j :: 0 <= j < i ==> EffectiveIdOf(cur.value.value.options[j]) != Some(id)) ==>
              r == Some(Step("value", cur.value.value.options[i])))
      && (NoValueMatch(id, cur) ==>
            forall i :: 0 <= i < |cur.fields| && EffectiveIdOf(cur.fields[i]) == Some(id) &&
                        (forall j :: 0 <= j < i ==> EffectiveIdOf(cur.fields[j]) != Some(id)) ==>
              r == Some(Step(ToSymbol(id.name), cur.fields[i])))
      && (r.None? <==> NoValueMatch(id, cur) && forall j :: 0 <= j < |cur.fields| ==> EffectiveIdOf(cur.fields[j]) != Some(id))
  {
    if cur.value.Some? && cur.value.value.Choice? {
      var opts := cur.value.value.options;
      match FirstMatch(opts, id)
      case None =>
      case Some(k) =>
        forall i | 0 <= i < |opts| && EffectiveIdOf(opts[i]) == Some(id) &&
                   (forall j :: 0 <= j < i ==> EffectiveIdOf(opts[j]) != Some(id))
          ensures i == k
        {
        }
    }
    match FirstMatch(cur.fields, id)
    case None =>
    case Some(k) =>
      forall i | 0 <= i < |cur.fields| && EffectiveIdOf(cur.fields[i]) == Some(id) &&
                 (forall j :: 0 <= j < i ==> EffectiveIdOf(cur.fields[j]) != Some(id))
        ensures i == k
      {
      }
  }

  /** Neither the value slot nor a choice option has the identifier. */
  predicate NoValueMatch(id: Identifier, cur: DataElement)
  {
    cur.value.None? ||
    (EffectiveIdOf(cur.value.value) != Some(id) &&
     (!cur.value.value.Choice? || forall j :: 0 <= j < |cur.value.value.options| ==> EffectiveIdOf(cur.value.value.options[j]) != Some(id)))
  }

  /** What the chain loop ends with: the last field found (or none when the
      last step failed) and the accessor names of the resolved steps. */
  datatype Walked = Walked(field: Option<Value>, names: seq<string>)

  /** What one iteration of the chain loop does with a token: throw, stop at
      an `_Entry` or `_Concept` keyword, stop because no field has the
      identifier, or find a field and move on to the element it names. */
  datatype TokenOutcome =
    | Throw(reason: string)
    | KeyWord
    | NotFound
    | Found(step: Step, next: Option<DataElement>)

  /** One iteration on the element reached so far (None when the previous
      field's element is not in the specifications). A `<Value>` token has
      no identifier and a step from a missing element reads a property of
      undefined: both throw. */
  function TokenStep(token: string, cur: Option<DataElement>, specs: Specs): (r: TokenOutcome)
    ensures r.Throw? <==> token == "<Value>" || (cur.None? && r != KeyWord)
    ensures r.Found? ==> FhirMappingToIdentifier(token).Some? &&
                            EffectiveIdOf(r.step.field) == FhirMappingToIdentifier(token)
    ensures r == KeyWord <==>
      (FhirMappingToIdentifier(token).Some? &&
       (IsEntryKeyWord(FhirMappingToIdentifier(token).value) || IsConceptKeyWord(FhirMappingToIdentifier(token).value)))
  {
    match FhirMappingToIdentifier(token)
    case None => Throw("the identifier of <Value> is null")
    case Some(id) =>
      if IsEntryKeyWord(id) || IsConceptKeyWord(id) then KeyWord
      else match cur
        case None => Throw("no data element for the previous step")
        case Some(d) =>
          match ResolveStep(id, d)
          case None => NotFound
          case Some(step) => Found(step, ShrModels.Find(specs, id))
  }

  /** One iteration of the loop of `getFieldAndMethodChain`. */
  method ResolveToken(pathElement: string, currDef: Option<DataElement>, specs: Specs) returns (r: TokenOutcome)
    ensures r == TokenStep(pathElement, currDef, specs)
  {
    var elementIdentifier := FhirMappingToIdentifier(pathElement);
    if elementIdentifier.None? {
      return Throw("the identifier of <Value> is null");
    }
    var id := elementIdentifier.value;
    if IsEntryKeyWord(id) || IsConceptKeyWord(id) {
      return KeyWord;
    }
    if currDef.None? {
      return Throw("no data element for the previous step");
    }
    var step := ResolveStep(id, currDef.value);
    if step.None? {
      return NotFound;
    }
    return Found(step.value, ShrModels.Find(specs, id));
  }

  /** The chain loop from some token on, with the element reached so far,
      the field found so far and the names so far. A keyword ends the loop
      keeping the field found so far; a step that fails ends it without a
      field. */
  function WalkFrom(tokens: seq<string>, cur: Option<DataElement>, field: Option<Value>,
                    names: seq<string>, specs: Specs): Result<Walked>
    decreases |tokens|
  {
    if tokens == [] then Ok(Walked(field, names))
    else match TokenStep(tokens[0], cur, specs)
      case Throw(e) => Crash(e)
      case KeyWord => Ok(Walked(field, names))
      case NotFound => Ok(Walked(None, names))
      case Found(step, next) => WalkFrom(tokens[1..], next, Some(step.field), names + [step.methodName], specs)
  }

  /** The result of `getFieldAndMethodChain`: `{}` for a mapping without
      tokens, else the field (undefined when a step failed), the accessor
      chain and the tokens. */
  datatype FieldChain = NoTokens | FieldChain(field: Option<Value>, classMethodChain: string, fieldMapPath: seq<string>)

  function FieldAndMethodChain(mapping: string, def: DataElement, specs: Specs): Result<FieldChain>
  {
    var tokens := Tokens(mapping);
    if tokens == [] then Ok(NoTokens)
    else match WalkFrom(tokens, Some(def), None, [], specs)
      case Crash(e) => Crash(e)
      case Ok(w) => Ok(FieldChain(w.field, Join(w.names, "."), tokens))
  }

  /** `getFieldAndMethodChain(mapping, def, specs, element)`: walks the
      tokens, resolving each against the element reached so far, and
      collects the accessor names into a dotted chain. */
  method GetFieldAndMethodChain(mapping: string, def: DataElement, specs: Specs) returns (r: Result<FieldChain>)
    ensures r == FieldAndMethodChain(mapping, def, specs)
  {
    var fieldMapPath := Tokens(mapping);
    if fieldMapPath == [] {
      return Ok(NoTokens);
    }
    ghost var walk := WalkFrom(fieldMapPath, Some(def), None, [], specs);
    var field: Option<Value> := None;
    var currDef: Option<DataElement> := Some(def);
    var classMethodChain := "";
    ghost var names: seq<string> := [];
    var i := 0;
    while i < |fieldMapPath|
      invariant 0 <= i <= |fieldMapPath|
      invariant walk == WalkFrom(fieldMapPath[i..], currDef, field, names, specs)
      invariant classMethodChain == if names == [] then "" else Join(names, ".") + "."
      decreases |fieldMapPath| - i
    {
      var outcome := ResolveToken(fieldMapPath[i], currDef, specs);
      WalkFromAt(fieldMapPath, i, currDef, field, names, specs);
      match outcome
      case Throw(e) =>
        ChainOfWalk(mapping, def, specs);
        return Crash(e);
      case KeyWord =>
        break;
      case NotFound =>
        field := None;
        break;
      case Found(step, next) =>
        field := Some(step.field);
        JoinSnoc(names, step.methodName);
        classMethodChain := classMethodChain + step.methodName + ".";
        names := names + [step.methodName];
        currDef := next;
        i := i + 1;
    }
    var chain := if classMethodChain == "" then "" else classMethodChain[..|classMethodChain| - 1];
    assert chain == Join(names, ".");
    ChainOfWalk(mapping, def, specs);
    return Ok(FieldChain(field, chain, fieldMapPath));
  }

  lemma ChainOfWalk(mapping: string, def: DataElement, specs: Specs)
    requires Tokens(mapping) != []
    ensures WalkFrom(Tokens(mapping), Some(def), None, [], specs).Crash? ==>
      FieldAndMethodChain(mapping, def, specs) == Crash(WalkFrom(Tokens(mapping), Some(def), None, [], specs).reason)
    ensures WalkFrom(Tokens(mapping), Some(def), None, [], specs).Ok? ==>
      var w := WalkFrom(Tokens(mapping), Some(def), None, [], specs).value;
      FieldAndMethodChain(mapping, def, specs) == Ok(FieldChain(w.field, Join(w.names, "."), Tokens(mapping)))
  {
  }

  /** The chain loop at token `i`, in terms of what the token does. */
  lemma WalkFromAt(tokens: seq<string>, i: nat, cur: Option<DataElement>, field: Option<Value>,
                   names: seq<string>, specs: Specs)
    requires i < |tokens|
    ensures WalkFrom(tokens[i..], cur, field, names, specs) ==
      match TokenStep(tokens[i], cur, specs)
      case Throw(e) => Crash(e)
      case KeyWord => Ok(Walked(field, names))
      case NotFound => Ok(Walked(None, names))
      case Found(step, next) => WalkFrom(tokens[i + 1..], next, Some(step.field), names + [step.methodName], specs)
  {
    assert tokens[i..][0] == tokens[i];
    assert tokens[i..][1..] == tokens[i + 1..];
  }

  lemma JoinSnoc(names: seq<string>, x: string)
    ensures Join(names + [x], ".") + "." == (if names == [] then "" else Join(names, ".") + ".") + x + "."
  {
    if names != [] {
      JoinAppend(names, ".", x);
    }
  }

  /** How the chain loop stops, from the start: every resolved step consumed
      one token; a field that is found belongs to the last resolved token;
      stopping with a field before the end means an `_Entry` or `_Concept`
      keyword came next; and the field is missing exactly when the loop
      stopped before resolving every token without having resolved any step
      before a keyword, or at a step that failed. */
  lemma WalkStops(tokens: seq<string>, def: DataElement, specs: Specs)
    requires tokens != []
    requires WalkFrom(tokens, Some(def), None, [], specs).Ok?
    ensures var w := WalkFrom(tokens, Some(def), None, [], specs).value;
      && |w.names| <= |tokens|
      && (w.field.Some? ==>
            |w.names| > 0 && FhirMappingToIdentifier(tokens[|w.names| - 1]) == EffectiveIdOf(w.field.value))
      && (w.field.Some? && |w.names| < |tokens| ==>
            FhirMappingToIdentifier(tokens[|w.names|]).Some? &&
            (IsEntryKeyWord(FhirMappingToIdentifier(tokens[|w.names|]).value) ||
             IsConceptKeyWord(FhirMappingToIdentifier(tokens[|w.names|]).value)))
      && (|w.names| == |tokens| ==> w.field.Some?)
  {
    WalkStopsFrom(tokens, Some(def), None, [], specs, tokens, 0);
  }

  lemma {:induction false} WalkStopsFrom(rest: seq<string>, cur: Option<DataElement>, field: Option<Value>,
                                         names: seq<string>, specs: Specs, all: seq<string>, k: nat)
    requires 0 < |all| && k <= |all| && rest == all[k..] && |names| == k
    requires field.Some? <==> k > 0
    requires field.Some? ==> FhirMappingToIdentifier(all[k - 1]) == EffectiveIdOf(field.value)
    requires WalkFrom(rest, cur, field, names, specs).Ok?
    ensures var w := WalkFrom(rest, cur, field, names, specs).value;
      && k <= |w.names| <= |all|
      && (w.field.Some? ==>
            |w.names| > 0 && FhirMappingToIdentifier(all[|w.names| - 1]) == EffectiveIdOf(w.field.value))
      && (w.field.Some? && |w.names| < |all| ==>
            FhirMappingToIdentifier(all[|w.names|]).Some? &&
            (IsEntryKeyWord(FhirMappingToIdentifier(all[|w.names|]).value) ||
             IsConceptKeyWord(FhirMappingToIdentifier(all[|w.names|]).value)))
      && (|w.names| == |all| ==> w.field.Some?)
    decreases |rest|
  {
    if rest != [] {
      assert rest[0] == all[k];
      match TokenStep(rest[0], cur, specs)
      case Throw(_) =>
      case KeyWord =>
      case NotFound =>
      case Found(step, next) =>
        assert rest[1..] == all[k + 1..];
        WalkStopsFrom(rest[1..], next, Some(step.field), names + [step.methodName], specs, all, k + 1);
    }
  }

  // ------------------------------------------------ preProcessFieldMappings

  /** A mapping after pre-processing: its map text and, for field mappings,
      what `getFieldAndMethodChain` found. */
  datatype Resolved = Resolved(expr: string, field: Option<Value>, classMethodChain: string, fieldMapPath: seq<string>)

  /** A FHIR element with its pre-processed SHR mappings. */
  datatype Planned = Planned(element: Element, mappings: seq<Resolved>)

  const ValueMapping := "<Value>"

  /** `Array.from(new Set(xs))`: each distinct string once, at its first
      position. */
  function Dedup(xs: seq<string>): seq<string>
  {
    if xs == [] then []
    else
      var d := Dedup(xs[..|xs| - 1]);
      if Last(xs) in d then d else d + [Last(xs)]
  }

  predicate Distinct(xs: seq<string>)
  {
    forall i, j :: 0 <= i < j < |xs| ==> xs[i] != xs[j]
  }

  /** The set keeps every string once and no other: no duplicates, the same
      strings, and the order of first occurrence (the set of a prefix is a
      prefix of the set). */
  lemma {:induction false} DedupFacts(xs: seq<string>, k: nat)
    requires k <= |xs|
    ensures Distinct(Dedup(xs))
    ensures forall x :: x in Dedup(xs) <==> x in xs
    ensures Dedup(xs[..k]) <= Dedup(xs)
    decreases |xs|
  {
    if xs != [] {
      var init := xs[..|xs| - 1];
      DedupFacts(init, if k < |xs| then k else |init|);
      assert forall x :: x in xs <==> x in init || x == Last(xs);
      if k == |xs| {
        assert xs[..k] == xs;
      } else {
        assert init[..k] == xs[..k];
      }
    }
  }

  /** The map texts of the SHR mappings, in order. */
  function ShrExprs(ms: seq<Mapping>): (r: seq<string>)
    ensures |r| == |ShrMappings(ms)|
    ensures forall i :: 0 <= i < |r| ==> r[i] == ShrMappings(ms)[i].expr
  {
    var shr := ShrMappings(ms);
    seq(|shr|, i requires 0 <= i < |shr| => shr[i].expr)
  }

  /** A map text resolved: `<Value>` as it is, any other through
      `getFieldAndMethodChain`. */
  function ResolveExpr(expr: string, def: DataElement, specs: Specs): Result<Resolved>
  {
    if expr == ValueMapping then Ok(Resolved(expr, None, "", []))
    else match FieldAndMethodChain(expr, def, specs)
      case Crash(e) => Crash(e)
      case Ok(NoTokens) => Ok(Resolved(expr, None, "", []))
      case Ok(FieldChain(f, c, t)) => Ok(Resolved(expr, f, c, t))
  }

  /** A resolved mapping survives the final filter: it has a field or maps
      the value. */
  predicate Kept(r: Resolved)
  {
    r.field.Some? || r.expr == ValueMapping
  }

  /** The surviving resolved mappings of a list of distinct map texts. */
  function KeptMappings(exprs: seq<string>, def: DataElement, specs: Specs): Result<seq<Resolved>>
  {
    if exprs == [] then Ok([])
    else match KeptMappings(exprs[..|exprs| - 1], def, specs)
      case Crash(e) => Crash(e)
      case Ok(kept) =>
        match ResolveExpr(Last(exprs), def, specs)
        case Crash(e) => Crash(e)
        case Ok(r) => Ok(if Kept(r) then kept + [r] else kept)
  }

  /** The pre-processed mappings of one element. */
  function ElementMappings(e: Element, def: DataElement, specs: Specs): Result<seq<Resolved>>
  {
    KeptMappings(Dedup(ShrExprs(e.mapping)), def, specs)
  }

  /** The kept mappings, in order, are exactly the distinct SHR map texts
      that map the value or resolve to a field, each with what its chain
      resolution found. */
  lemma {:induction false} KeptMappingsFacts(exprs: seq<string>, def: DataElement, specs: Specs)
    requires KeptMappings(exprs, def, specs).Ok?
    ensures var kept := KeptMappings(exprs, def, specs).value;
      && (forall i :: 0 <= i < |kept| ==>
            Kept(kept[i]) && kept[i].expr in exprs && ResolveExpr(kept[i].expr, def, specs) == Ok(kept[i]))
      && (forall x :: x in exprs && ResolveExpr(x, def, specs).Ok? && Kept(ResolveExpr(x, def, specs).value) ==>
            exists i :: 0 <= i < |kept| && kept[i].expr == x)
      && |kept| <= |exprs|
  {
    if exprs != [] {
      var init := exprs[..|exprs| - 1];
      KeptMappingsFacts(init, def, specs);
      var kept := KeptMappings(init, def, specs).value;
      var r := ResolveExpr(Last(exprs), def, specs).value;
      assert r.expr == Last(exprs) by {
        if Last(exprs) != ValueMapping {
          assert FieldAndMethodChain(Last(exprs), def, specs).Ok?;
        }
      }
      assert forall x :: x in exprs <==> x in init || x == Last(exprs);
      var all := KeptMappings(exprs, def, specs).value;
      assert all == if Kept(r) then kept + [r] else kept;
      forall x | x in exprs && ResolveExpr(x, def, specs).Ok? && Kept(ResolveExpr(x, def, specs).value)
        ensures exists i :: 0 <= i < |all| && all[i].expr == x
      {
        if x == Last(exprs) {
          assert all[|kept|].expr == x;
        } else {
          var i :| 0 <= i < |kept| && kept[i].expr == x;
          assert all[i] == kept[i];
        }
      }
    }
  }

  /** Once resolving a prefix fails, resolving the whole list fails the same
      way. */
  lemma {:induction false} KeptMappingsCrash(exprs: seq<string>, j: nat, def: DataElement, specs: Specs)
    requires j <= |exprs| && KeptMappings(exprs[..j], def, specs).Crash?
    ensures KeptMappings(exprs, def, specs) == KeptMappings(exprs[..j], def, specs)
    decreases |exprs| - j
  {
    if j < |exprs| {
      assert exprs[..j + 1][..j] == exprs[..j];
      KeptMappingsCrash(exprs, j + 1, def, specs);
    } else {
      assert exprs[..j] == exprs;
    }
  }

  /** Resolving a map text keeps the text. */
  lemma ResolveExprKeepsExpr(expr: string, def: DataElement, specs: Specs)
    requires ResolveExpr(expr, def, specs).Ok?
    ensures ResolveExpr(expr, def, specs).value.expr == expr
  {
  }

  /** Resolving one more map text: its resolution is kept when it has a
      field or maps the value, and a failure fails the whole list. */
  lemma KeptMappingsNext(exprs: seq<string>, j: nat, def: DataElement, specs: Specs, kept: seq<Resolved>)
    requires j < |exprs| && KeptMappings(exprs[..j], def, specs) == Ok(kept)
    ensures ResolveExpr(exprs[j], def, specs).Ok? ==>
      var r := ResolveExpr(exprs[j], def, specs).value;
      KeptMappings(exprs[..j + 1], def, specs) == Ok(if Kept(r) then kept + [r] else kept)
    ensures ResolveExpr(exprs[j], def, specs).Crash? ==>
      KeptMappings(exprs, def, specs) == Crash(ResolveExpr(exprs[j], def, specs).reason)
  {
    assert exprs[..j + 1][..j] == exprs[..j];
    assert Last(exprs[..j + 1]) == exprs[j];
    if ResolveExpr(exprs[j], def, specs).Crash? {
      KeptMappingsCrash(exprs, j + 1, def, specs);
    }
  }

  /** One map text of the element: `<Value>` as it is, any other through
      `getFieldAndMethodChain`. */
  method ResolveMapping(m: string, def: DataElement, specs: Specs) returns (r: Result<Resolved>)
    ensures r == ResolveExpr(m, def, specs)
  {
    if m == ValueMapping {
      return Ok(Resolved(m, None, "", []));
    }
    var chain := GetFieldAndMethodChain(m, def, specs);
    if chain.Crash? {
      return Crash(chain.reason);
    }
    match chain.value
    case NoTokens =>
      return Ok(Resolved(m, None, "", []));
    case FieldChain(f, c, t) =>
      return Ok(Resolved(m, f, c, t));
  }

  /** The distinct map texts, each at its first position. */
  method UniqueExprs(exprs: seq<string>) returns (unique: seq<string>)
    ensures unique == Dedup(exprs)
  {
    unique := [];
    for i := 0 to |exprs|
      invariant unique == Dedup(exprs[..i])
    {
      if exprs[i] !in unique {
        unique := unique + [exprs[i]];
      }
      assert exprs[..i + 1][..i] == exprs[..i];
    }
    assert exprs[..|exprs|] == exprs;
  }

  /** The pre-processing of one element: the SHR mappings, each distinct
      map text once, resolved, without those that found no field. */
  method PreProcessElementMappings(e: Element, def: DataElement, specs: Specs) returns (r: Result<seq<Resolved>>)
    ensures r == ElementMappings(e, def, specs)
  {
    var unique := UniqueExprs(ShrExprs(e.mapping));
    var kept: seq<Resolved> := [];
    for j := 0 to |unique|
      invariant KeptMappings(unique[..j], def, specs) == Ok(kept)
    {
      var resolved := ResolveMapping(unique[j], def, specs);
      KeptMappingsNext(unique, j, def, specs, kept);
      if resolved.Crash? {
        return Crash(resolved.reason);
      }
      if resolved.value.field.Some? || resolved.value.expr == ValueMapping {
        kept := kept + [resolved.value];
      }
    }
    assert unique[..|unique|] == unique;
    return Ok(kept);
  }

  /** `preProcessFieldMappings(elements, specs, def)`: replaces every
      element's mapping list by its pre-processed SHR mappings. */
  method PreProcessFieldMappings(elements: seq<Element>, specs: Specs, def: DataElement) returns (r: Result<seq<Planned>>)
    ensures r.Ok? <==> forall i :: 0 <= i < |elements| ==> ElementMappings(elements[i], def, specs).Ok?
    ensures r.Ok? ==> |r.value| == |elements|
    ensures r.Ok? ==> forall i :: 0 <= i < |elements| ==>
      r.value[i] == Planned(elements[i], ElementMappings(elements[i], def, specs).value)
  {
    var planned: seq<Planned> := [];
    for i := 0 to |elements|
      invariant |planned| == i
      invariant forall k :: 0 <= k < i ==> ElementMappings(elements[k], def, specs).Ok?
      invariant forall k :: 0 <= k < i ==> planned[k] == Planned(elements[k], ElementMappings(elements[k], def, specs).value)
    {
      var mappings := PreProcessElementMappings(elements[i], def, specs);
      if mappings.Crash? {
        return Crash(mappings.reason);
      }
      planned := planned + [Planned(elements[i], mappings.value)];
    }
    return Ok(planned);
  }
}
