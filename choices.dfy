/** The choice expander of the class generator (lib/generateClass.js):
    `validTypesForChoices` and `preProcessChoiceFields`, which turn a FHIR
    choice element `foo[x]` into one concrete element per matching
    (mapping, type) pair, named after the FHIR STU3 "choice of data types"
    convention. */
module Choices {
  import opened Wrappers
  import opened Strings
  import opened ShrModels
  import opened Fhir
  import opened OrderedMap
  import opened PathHelpers
  import opened Mappings

  /** Every code in `codes` is the code of one of `types`. */
  predicate AmongCodes(codes: seq<string>, types: seq<TypeRef>)
  {
    forall c :: c in codes ==> exists i :: 0 <= i < |types| && types[i].code == c
  }

  /** One of `types` has the code `c`. */
  predicate HasCode(types: seq<TypeRef>, c: string)
  {
    exists i :: 0 <= i < |types| && types[i].code == c
  }

  /** The code is the fully qualified name or the bare name of `id`, the
      test `t.code == id.fqn || t.code == id.name`. */
  predicate NamesId(c: string, id: Identifier)
  {
    c == Fqn(id) || c == id.name
  }

  /** `c` is the code of the first of `types` that names `id`. */
  predicate FirstNaming(types: seq<TypeRef>, id: Identifier, c: string)
  {
    exists k :: 0 <= k < |types| && types[k].code == c && NamesId(c, id) &&
      forall j :: 0 <= j < k ==> !NamesId(types[j].code, id)
  }

  /** The first type whose code is `code`, as a one-element list. */
  function FirstCodeIs(types: seq<TypeRef>, code: string): (r: seq<string>)
    ensures |r| <= 1
    ensures r == [code] <==> exists i :: 0 <= i < |types| && types[i].code == code
    ensures r == [] <==> forall i :: 0 <= i < |types| ==> types[i].code != code
    ensures AmongCodes(r, types)
  {
    if types == [] then []
    else if types[0].code == code then [code]
    else FirstCodeIs(types[1..], code)
  }

  /** The first type whose code is the fully qualified name or the bare name
      of `id`, as a one-element list. */
  function FirstCodeNames(types: seq<TypeRef>, id: Identifier): (r: seq<string>)
    ensures |r| <= 1
    ensures r != [] ==> r[0] == Fqn(id) || r[0] == id.name
    ensures AmongCodes(r, types)
  {
    if types == [] then []
    else if types[0].code == Fqn(id) || types[0].code == id.name then [types[0].code]
    else
      var rest := FirstCodeNames(types[1..], id);
      assert forall i :: 0 <= i < |types[1..]| ==> types[1..][i] == types[i + 1];
      rest
  }

  /** The `find`: the result is empty exactly when no type names `id`, and
      otherwise holds the code of the first type that does, and no other. */
  lemma {:induction false} FirstCodeNamesFacts(types: seq<TypeRef>, id: Identifier)
    ensures FirstCodeNames(types, id) == [] <==> forall i :: 0 <= i < |types| ==> !NamesId(types[i].code, id)
    ensures forall c :: c in FirstCodeNames(types, id) <==> FirstNaming(types, id, c)
  {
    if types != [] {
      if NamesId(types[0].code, id) {
        assert FirstNaming(types, id, types[0].code);
      } else {
        FirstCodeNamesFacts(types[1..], id);
        assert forall i :: 0 <= i < |types[1..]| ==> types[1..][i] == types[i + 1];
        forall c ensures FirstNaming(types[1..], id, c) <==> FirstNaming(types, id, c) {
          if FirstNaming(types[1..], id, c) {
            var k :| 0 <= k < |types[1..]| && types[1..][k].code == c && NamesId(c, id) &&
              forall j :: 0 <= j < k ==> !NamesId(types[1..][j].code, id);
            assert types[k + 1].code == c;
          }
          if FirstNaming(types, id, c) {
            var k :| 0 <= k < |types| && types[k].code == c && NamesId(c, id) &&
              forall j :: 0 <= j < k ==> !NamesId(types[j].code, id);
            assert k > 0;
            assert types[1..][k - 1].code == c;
          }
        }
      }
    }
  }

  /** Every type whose code is the fully qualified name or the bare name of
      `id`, in order. */
  function AllCodesNames(types: seq<TypeRef>, id: Identifier): (r: seq<string>)
    ensures forall i :: 0 <= i < |r| ==> r[i] == Fqn(id) || r[i] == id.name
    ensures AmongCodes(r, types)
  {
    if types == [] then []
    else
      var rest := AllCodesNames(types[1..], id);
      assert forall i :: 0 <= i < |types[1..]| ==> types[1..][i] == types[i + 1];
      (if types[0].code == Fqn(id) || types[0].code == id.name then [types[0].code] else []) + rest
  }

  /** The `filter`: every type that names `id` is in the result, and
      nothing else; there are no more codes than types. */
  lemma {:induction false} AllCodesNamesFacts(types: seq<TypeRef>, id: Identifier)
    ensures forall c :: c in AllCodesNames(types, id) <==> HasCode(types, c) && NamesId(c, id)
    ensures |AllCodesNames(types, id)| <= |types|
  {
    if types != [] {
      AllCodesNamesFacts(types[1..], id);
      forall c | HasCode(types, c) && c != types[0].code ensures HasCode(types[1..], c) {
        var i :| 0 <= i < |types| && types[i].code == c;
        assert types[1..][i - 1].code == c;
      }
      forall c | HasCode(types[1..], c) ensures HasCode(types, c) {
        var i :| 0 <= i < |types[1..]| && types[1..][i].code == c;
        assert types[i + 1].code == c;
      }
      assert HasCode(types, types[0].code);
    }
  }

  /** The matching codes of a list with one more type: those of the list,
      then that type's code when it matches. With the empty list this fixes
      the result and its order independently of the definition above. */
  lemma {:induction false} AllCodesNamesSnoc(types: seq<TypeRef>, t: TypeRef, id: Identifier)
    ensures AllCodesNames(types + [t], id) ==
      AllCodesNames(types, id) + (if NamesId(t.code, id) then [t.code] else [])
  {
    if types != [] {
      var u := types + [t];
      assert u[0] == types[0];
      assert u[1..] == types[1..] + [t];
      AllCodesNamesSnoc(types[1..], t, id);
    }
  }

  /** The first profile with the given id. */
  function FirstProfile(profiles: seq<Profile>, id: string): (r: Option<Profile>)
  {
    if profiles == [] then None
    else if profiles[0].id == id then Some(profiles[0])
    else FirstProfile(profiles[1..], id)
  }

  /** The `find`: None exactly when no profile has the id, and otherwise
      the first profile that has it. */
  lemma {:induction false} FirstProfileFacts(profiles: seq<Profile>, id: string)
    ensures FirstProfile(profiles, id).None? <==> forall j :: 0 <= j < |profiles| ==> profiles[j].id != id
    ensures FirstProfile(profiles, id).Some? ==>
      exists k :: 0 <= k < |profiles| && profiles[k] == FirstProfile(profiles, id).value &&
        profiles[k].id == id && forall j :: 0 <= j < k ==> profiles[j].id != id
  {
    if profiles != [] && profiles[0].id != id {
      FirstProfileFacts(profiles[1..], id);
      assert forall j :: 0 <= j < |profiles[1..]| ==> profiles[1..][j] == profiles[j + 1];
      if FirstProfile(profiles, id).Some? {
        var k :| 0 <= k < |profiles[1..]| && profiles[1..][k] == FirstProfile(profiles, id).value &&
          profiles[1..][k].id == id && forall j :: 0 <= j < k ==> profiles[1..][j].id != id;
        assert profiles[k + 1] == profiles[1..][k];
      }
    }
  }

  /** The type of the profile generated for `id` is among `types`: the
      profile is the first whose id is `fhirID(id)`, and `c` is its type. */
  predicate ProfileGives(types: seq<TypeRef>, profiles: seq<Profile>, id: Identifier, c: string)
  {
    FirstProfile(profiles, FhirID(id, "")).Some? &&
    c == FirstProfile(profiles, FhirID(id, "")).value.resourceType && HasCode(types, c)
  }

  /** The type of the profile generated for `id`, when one of the element's
      types has it. */
  function ProfileType(types: seq<TypeRef>, profiles: seq<Profile>, id: Identifier): (r: seq<string>)
    ensures |r| <= 1
    ensures AmongCodes(r, types)
  {
    match FirstProfile(profiles, FhirID(id, ""))
    case None => []
    case Some(p) => FirstCodeIs(types, p.resourceType)
  }

  /** Nothing without a profile for `id`; otherwise the profile's type when
      one of `types` has it, and nothing else. */
  lemma ProfileTypeFacts(types: seq<TypeRef>, profiles: seq<Profile>, id: Identifier)
    ensures forall c :: c in ProfileType(types, profiles, id) <==> ProfileGives(types, profiles, id, c)
  {
  }

  /** A choice option contributes `c`: it has an effective identifier, and
      `c` is a type code naming it or the type of its profile. */
  predicate OptionGives(o: Value, types: seq<TypeRef>, profiles: seq<Profile>, c: string)
  {
    EffectiveIdOf(o).Some? &&
    ((HasCode(types, c) && NamesId(c, EffectiveIdOf(o).value)) || ProfileGives(types, profiles, EffectiveIdOf(o).value, c))
  }

  /** The types a choice option contributes; an option without an effective
      identifier (a nested choice or a TBD) has no `fqn` to read. */
  function OptionTypes(options: seq<Value>, types: seq<TypeRef>, profiles: seq<Profile>): (r: Result<seq<string>>)
    ensures r.Ok? ==> AmongCodes(r.value, types)
  {
    if options == [] then Ok([])
    else match OptionTypes(options[..|options| - 1], types, profiles)
      case Crash(e) => Crash(e)
      case Ok(before) =>
        match EffectiveIdOf(Last(options))
        case None => Crash("a choice option without an effective identifier")
        case Some(eid) => Ok(before + AllCodesNames(types, eid) + ProfileType(types, profiles, eid))
  }

  /** The options' types fail exactly when an option has no effective
      identifier. */
  lemma {:induction false} OptionTypesOk(options: seq<Value>, types: seq<TypeRef>, profiles: seq<Profile>)
    ensures OptionTypes(options, types, profiles).Ok? <==>
      forall j :: 0 <= j < |options| ==> EffectiveIdOf(options[j]).Some?
  {
    if options != [] {
      var init := options[..|options| - 1];
      OptionTypesOk(init, types, profiles);
      assert forall j :: 0 <= j < |init| ==> init[j] == options[j];
    }
  }

  /** When they do not fail, the options' types are exactly what the
      options contribute. */
  lemma {:induction false} OptionTypesMembers(options: seq<Value>, types: seq<TypeRef>, profiles: seq<Profile>, c: string)
    requires OptionTypes(options, types, profiles).Ok?
    ensures c in OptionTypes(options, types, profiles).value <==>
      exists j :: 0 <= j < |options| && OptionGives(options[j], types, profiles, c)
  {
    if options != [] {
      var init := options[..|options| - 1];
      var eid := EffectiveIdOf(Last(options)).value;
      var before := OptionTypes(init, types, profiles).value;
      var now := AllCodesNames(types, eid) + ProfileType(types, profiles, eid);
      assert OptionTypes(options, types, profiles).value == before + now;
      OptionTypesMembers(init, types, profiles, c);
      assert forall j :: 0 <= j < |init| ==> init[j] == options[j];
      AllCodesNamesFacts(types, eid);
      ProfileTypeFacts(types, profiles, eid);
      OptionGivesSnoc(options, types, profiles, c);
    }
  }

  /** Some option contributes `c` exactly when one of all but the last does
      or the last one does. */
  lemma OptionGivesSnoc(options: seq<Value>, types: seq<TypeRef>, profiles: seq<Profile>, c: string)
    requires options != []
    ensures (exists j :: 0 <= j < |options| && OptionGives(options[j], types, profiles, c)) <==>
      (exists j :: 0 <= j < |options| - 1 && OptionGives(options[j], types, profiles, c)) ||
      OptionGives(Last(options), types, profiles, c)
  {
    if OptionGives(Last(options), types, profiles, c) {
      assert options[|options| - 1] == Last(options);
    }
  }

  /** A data element's value contributes `c`: an identifiable value the
      type with its fully qualified name, a choice what its options
      contribute. */
  predicate ValueGives(value: Option<Value>, types: seq<TypeRef>, profiles: seq<Profile>, c: string)
  {
    && value.Some?
    && (if IsIdentifiable(value.value) then c == Fqn(value.value.effective) && HasCode(types, c)
        else (value.value.Choice? &&
              exists j :: 0 <= j < |value.value.options| && OptionGives(value.value.options[j], types, profiles, c)))
  }

  /** The types contributed by a data element's value. */
  function ValueTypes(value: Option<Value>, types: seq<TypeRef>, profiles: seq<Profile>): (r: Result<seq<string>>)
    ensures r.Ok? ==> AmongCodes(r.value, types)
  {
    match value
    case None => Ok([])
    case Some(v) =>
      if IsIdentifiable(v) then Ok(FirstCodeIs(types, Fqn(v.effective)))
      else if v.Choice? then OptionTypes(v.options, types, profiles)
      else Ok([])
  }

  /** The value's types fail exactly for a choice with an option that has
      no effective identifier; otherwise they are exactly what the value
      contributes (nothing for an absent value or a TBD). */
  lemma ValueTypesFacts(value: Option<Value>, types: seq<TypeRef>, profiles: seq<Profile>)
    ensures ValueTypes(value, types, profiles).Crash? <==> (value.Some? && value.value.Choice? &&
      exists j :: 0 <= j < |value.value.options| && EffectiveIdOf(value.value.options[j]).None?)
    ensures ValueTypes(value, types, profiles).Ok? ==>
      forall c :: c in ValueTypes(value, types, profiles).value <==> ValueGives(value, types, profiles, c)
  {
    if value.Some? && value.value.Choice? {
      OptionTypesOk(value.value.options, types, profiles);
      if ValueTypes(value, types, profiles).Ok? {
        forall c ensures c in ValueTypes(value, types, profiles).value <==> ValueGives(value, types, profiles, c) {
          OptionTypesMembers(value.value.options, types, profiles, c);
        }
      }
    }
  }

  /** The data element a map text names by its last token; it fails when
      there is no token, when the token is `<Value>` (whose identifier is
      null) or when no element has the identifier. */
  function MappedElement(expr: string, specs: Specs): Result<DataElement>
  {
    var tokens := Tokens(expr);
    if tokens == [] then Crash("a mapping without tokens")
    else match FhirMappingToIdentifier(Last(tokens))
      case None => Crash("the identifier of <Value> is null")
      case Some(id) =>
        match ShrModels.Find(specs, id)
        case None => Crash("no data element for the mapping")
        case Some(de) => Ok(de)
  }

  /** The element is found exactly when the map text has a last token, it
      is not `<Value>`, and its identifier has a data element, which is the
      one found. */
  lemma MappedElementFacts(expr: string, specs: Specs)
    ensures MappedElement(expr, specs).Ok? <==>
      (Tokens(expr) != [] && FhirMappingToIdentifier(Last(Tokens(expr))).Some? &&
       FhirMappingToIdentifier(Last(Tokens(expr))).value in specs)
    ensures MappedElement(expr, specs).Ok? ==>
      MappedElement(expr, specs).value == specs[FhirMappingToIdentifier(Last(Tokens(expr))).value]
  {
  }

  /** A data element contributes `c` to a mapping's set: through its value,
      as the first type naming the element, or as the type of the element's
      own profile. */
  predicate ElementGives(de: DataElement, types: seq<TypeRef>, profiles: seq<Profile>, c: string)
  {
    ValueGives(de.value, types, profiles, c) || FirstNaming(types, de.identifier, c) ||
    ProfileGives(types, profiles, de.identifier, c)
  }

  /** The types of one mapping, before duplicates are removed: the element
      named by the last token must exist, and contributes the types of its
      value, the type named like it, and the type of its own profile. */
  function MappingTypes(expr: string, types: seq<TypeRef>, specs: Specs, profiles: seq<Profile>): (r: Result<seq<string>>)
    ensures r.Ok? ==> AmongCodes(r.value, types)
  {
    match MappedElement(expr, specs)
    case Crash(e) => Crash(e)
    case Ok(de) =>
      match ValueTypes(de.value, types, profiles)
      case Crash(e) => Crash(e)
      case Ok(fromValue) =>
        Ok(fromValue + FirstCodeNames(types, de.identifier) + ProfileType(types, profiles, de.identifier))
  }

  /** A mapping's types fail exactly when its data element cannot be found
      or its value's types fail; otherwise they are exactly the codes its
      data element contributes. */
  lemma MappingTypesFacts(expr: string, types: seq<TypeRef>, specs: Specs, profiles: seq<Profile>)
    ensures MappingTypes(expr, types, specs, profiles).Ok? <==>
      MappedElement(expr, specs).Ok? && ValueTypes(MappedElement(expr, specs).value.value, types, profiles).Ok?
    ensures MappingTypes(expr, types, specs, profiles).Ok? ==>
      forall c :: c in MappingTypes(expr, types, specs, profiles).value <==>
        ElementGives(MappedElement(expr, specs).value, types, profiles, c)
  {
    if MappedElement(expr, specs).Ok? {
      var de := MappedElement(expr, specs).value;
      ValueTypesFacts(de.value, types, profiles);
      FirstCodeNamesFacts(types, de.identifier);
      ProfileTypeFacts(types, profiles, de.identifier);
    }
  }

  /** Each mapping's map text with the types it gathers, or its failure. */
  function Attempts(ms: seq<Mapping>, types: seq<TypeRef>, specs: Specs, profiles: seq<Profile>)
    : (r: seq<(string, Result<seq<string>>)>)
    ensures |r| == |ms|
    ensures forall j :: 0 <= j < |ms| ==> r[j] == (ms[j].expr, MappingTypes(ms[j].expr, types, specs, profiles))
  {
    seq(|ms|, j requires 0 <= j < |ms| => (ms[j].expr, MappingTypes(ms[j].expr, types, specs, profiles)))
  }

  /** The (map text, types) pairs in order, or the failure of the first
      attempt that failed. */
  function Collect(attempts: seq<(string, Result<seq<string>>)>): Result<seq<(string, seq<string>)>>
  {
    if attempts == [] then Ok([])
    else match Collect(attempts[..|attempts| - 1])
      case Crash(e) => Crash(e)
      case Ok(before) =>
        match Last(attempts).1
        case Crash(e) => Crash(e)
        case Ok(ts) => Ok(before + [(Last(attempts).0, ts)])
  }

  /** The object built by `typesByChoice[mapping.map] = new Set(...)` for
      every pair in order. */
  function TableOf(pairs: seq<(string, seq<string>)>): Entries<seq<string>>
  {
    if pairs == [] then [] else Put(TableOf(pairs[..|pairs| - 1]), Last(pairs).0, Dedup(Last(pairs).1))
  }

  /** The object `validTypesForChoices` returns: map text to the set of
      type codes, in insertion order. */
  function TypesByChoice(shrMappings: seq<Mapping>, types: seq<TypeRef>, specs: Specs, profiles: seq<Profile>)
    : Result<Entries<seq<string>>>
  {
    match Collect(Attempts(shrMappings, types, specs, profiles))
    case Crash(e) => Crash(e)
    case Ok(pairs) => Ok(TableOf(pairs))
  }

  /** Every mapping's text is a key of the table, its data element is
      found, and its set holds exactly the codes that element
      contributes. */
  ghost predicate SetsAsGiven(table: Entries<seq<string>>, ms: seq<Mapping>, types: seq<TypeRef>, specs: Specs, profiles: seq<Profile>)
  {
    forall j, c :: 0 <= j < |ms| ==>
      && Get(table, ms[j].expr).Some?
      && MappedElement(ms[j].expr, specs).Ok?
      && (c in Get(table, ms[j].expr).value <==>
            ElementGives(MappedElement(ms[j].expr, specs).value, types, profiles, c))
  }

  /** `validTypesForChoices(shrMappings, fhirTypes, specs, fhir)`: for each
      mapping, the set of the element's type codes it may take. It fails
      exactly when one of the mappings does; otherwise every mapping's text
      is a key whose set holds exactly the codes its data element
      contributes. */
  method ValidTypesForChoices(shrMappings: seq<Mapping>, types: seq<TypeRef>, specs: Specs, profiles: seq<Profile>)
    returns (r: Result<Entries<seq<string>>>)
    ensures r == TypesByChoice(shrMappings, types, specs, profiles)
    ensures r.Crash? <==> exists j :: 0 <= j < |shrMappings| && MappingTypes(shrMappings[j].expr, types, specs, profiles).Crash?
    ensures r.Ok? ==> SetsAsGiven(r.value, shrMappings, types, specs, profiles)
  {
    var table: Entries<seq<string>> := [];
    ghost var attempts := Attempts(shrMappings, types, specs, profiles);
    ghost var pairs: seq<(string, seq<string>)> := [];
    r := Ok([]);
    for i := 0 to |shrMappings|
      invariant Collect(attempts[..i]) == Ok(pairs)
      invariant table == TableOf(pairs)
      invariant r == Ok([])
    {
      var ts := MappingTypes(shrMappings[i].expr, types, specs, profiles);
      CollectStep(attempts, i, pairs);
      if ts.Crash? {
        r := Crash(ts.reason);
        break;
      }
      table := Put(table, shrMappings[i].expr, Dedup(ts.value));
      pairs := pairs + [(shrMappings[i].expr, ts.value)];
    }
    if r.Ok? {
      assert attempts[..|shrMappings|] == attempts;
      r := Ok(table);
    }
    TypesByChoiceFails(shrMappings, types, specs, profiles, r);
    if r.Ok? {
      TypesByChoiceContents(shrMappings, types, specs, profiles, r);
    }
  }

  /** One more attempt: a failure fails the whole list the same way, and a
      success adds its text and types to the pairs so far. */
  lemma CollectStep(attempts: seq<(string, Result<seq<string>>)>, i: nat, pairs: seq<(string, seq<string>)>)
    requires i < |attempts| && Collect(attempts[..i]) == Ok(pairs)
    ensures attempts[i].1.Crash? ==> Collect(attempts) == Crash(attempts[i].1.reason)
    ensures attempts[i].1.Ok? ==>
      Collect(attempts[..i + 1]) == Ok(pairs + [(attempts[i].0, attempts[i].1.value)]) &&
      TableOf(pairs + [(attempts[i].0, attempts[i].1.value)]) ==
        Put(TableOf(pairs), attempts[i].0, Dedup(attempts[i].1.value))
  {
    assert attempts[..i + 1][..i] == attempts[..i];
    assert Last(attempts[..i + 1]) == attempts[i];
    if attempts[i].1.Crash? {
      CollectCrash(attempts, i + 1);
    } else {
      var p := (attempts[i].0, attempts[i].1.value);
      assert (pairs + [p])[..|pairs|] == pairs;
    }
  }

  /** Once a prefix of the attempts fails, the whole list fails the same
      way. */
  lemma {:induction false} CollectCrash(attempts: seq<(string, Result<seq<string>>)>, j: nat)
    requires j <= |attempts| && Collect(attempts[..j]).Crash?
    ensures Collect(attempts) == Collect(attempts[..j])
    decreases |attempts| - j
  {
    if j < |attempts| {
      assert attempts[..j + 1][..j] == attempts[..j];
      CollectCrash(attempts, j + 1);
    } else {
      assert attempts[..j] == attempts;
    }
  }

  /** Collecting fails exactly when some attempt failed; otherwise it has
      one pair per attempt, with its text and its types. */
  lemma {:induction false} CollectOk(attempts: seq<(string, Result<seq<string>>)>)
    ensures Collect(attempts).Ok? <==> forall j :: 0 <= j < |attempts| ==> attempts[j].1.Ok?
    ensures Collect(attempts).Ok? ==> |Collect(attempts).value| == |attempts|
    ensures Collect(attempts).Ok? ==>
      forall j :: 0 <= j < |attempts| ==> Collect(attempts).value[j] == (attempts[j].0, attempts[j].1.value)
  {
    if attempts != [] {
      var init := attempts[..|attempts| - 1];
      CollectOk(init);
      assert forall j :: 0 <= j < |init| ==> init[j] == attempts[j];
      assert Last(attempts) == attempts[|attempts| - 1];
    }
  }

  /** A failing mapping fails the table the same way as the prefix that
      ends with it. */
  lemma {:induction false} TypesByChoiceCrash(ms: seq<Mapping>, j: nat, types: seq<TypeRef>, specs: Specs, profiles: seq<Profile>)
    requires j <= |ms| && TypesByChoice(ms[..j], types, specs, profiles).Crash?
    ensures TypesByChoice(ms, types, specs, profiles) == TypesByChoice(ms[..j], types, specs, profiles)
  {
    var attempts := Attempts(ms, types, specs, profiles);
    assert Attempts(ms[..j], types, specs, profiles) == attempts[..j];
    CollectCrash(attempts, j);
  }

  /** The table fails exactly when one of the mappings does. */
  lemma {:induction false} TypesByChoiceFails(ms: seq<Mapping>, types: seq<TypeRef>, specs: Specs, profiles: seq<Profile>,
                                               r: Result<Entries<seq<string>>>)
    requires r == TypesByChoice(ms, types, specs, profiles)
    ensures r.Crash? <==>
      exists j :: 0 <= j < |ms| && MappingTypes(ms[j].expr, types, specs, profiles).Crash?
  {
    var attempts := Attempts(ms, types, specs, profiles);
    CollectOk(attempts);
  }

  /** Assigning a list without repeats keeps the keys distinct, keeps every
      set without repeats, and keeps every key among `keys` when the
      assigned key is among them. */
  lemma PutKeepsEntries(table: Entries<seq<string>>, key: string, value: seq<string>, keys: seq<string>)
    requires DistinctKeys(table) && Distinct(value) && key in keys
    requires forall i :: 0 <= i < |table| ==> Distinct(table[i].1) && table[i].0 in keys
    ensures DistinctKeys(Put(table, key, value))
    ensures forall i :: 0 <= i < |Put(table, key, value)| ==>
      Distinct(Put(table, key, value)[i].1) && Put(table, key, value)[i].0 in keys
  {
    var r := Put(table, key, value);
    PutFacts(table, key, value, key);
    forall i | 0 <= i < |r| ensures Distinct(r[i].1) && r[i].0 in keys {
      if r[i].0 == key {
        GetEntry(r, i);
      } else {
        var k :| 0 <= k < |table| && table[k] == r[i];
      }
    }
  }

  /** The keys of the built object are distinct texts of the pairs, and
      every set is without repeats. */
  lemma {:induction false} TableOfEntries(pairs: seq<(string, seq<string>)>)
    ensures DistinctKeys(TableOf(pairs))
    ensures forall i :: 0 <= i < |TableOf(pairs)| ==>
      Distinct(TableOf(pairs)[i].1) && TableOf(pairs)[i].0 in Texts(pairs)
  {
    if pairs != [] {
      var init := pairs[..|pairs| - 1];
      TableOfEntries(init);
      DedupFacts(Last(pairs).1, 0);
      TextsSnoc(init, Last(pairs));
      assert init + [Last(pairs)] == pairs;
      PutKeepsEntries(TableOf(init), Last(pairs).0, Dedup(Last(pairs).1), Texts(pairs));
    }
  }

  /** The texts of the pairs, in order. */
  function Texts(pairs: seq<(string, seq<string>)>): (r: seq<string>)
    ensures |r| == |pairs|
    ensures forall j :: 0 <= j < |pairs| ==> r[j] == pairs[j].0
  {
    seq(|pairs|, j requires 0 <= j < |pairs| => pairs[j].0)
  }

  lemma TextsSnoc(pairs: seq<(string, seq<string>)>, p: (string, seq<string>))
    ensures Texts(pairs + [p]) == Texts(pairs) + [p.0]
    ensures forall x :: x in Texts(pairs) ==> x in Texts(pairs + [p])
  {
    assert Texts(pairs + [p]) == Texts(pairs) + [p.0];
  }

  /** Every text of the pairs is a key of the built object. */
  lemma {:induction false} TableOfKeys(pairs: seq<(string, seq<string>)>)
    ensures forall j :: 0 <= j < |pairs| ==> HasKey(TableOf(pairs), pairs[j].0)
  {
    if pairs != [] {
      var init := pairs[..|pairs| - 1];
      TableOfKeys(init);
      forall j | 0 <= j < |pairs| ensures HasKey(TableOf(pairs), pairs[j].0) {
        PutHasKey(TableOf(init), Last(pairs).0, Dedup(Last(pairs).1), pairs[j].0);
        if j < |init| {
          assert init[j] == pairs[j];
        }
      }
    }
  }

  /** When every pair's list is among `types`, so is every set. */
  lemma {:induction false} TableOfAmong(pairs: seq<(string, seq<string>)>, types: seq<TypeRef>)
    requires forall j :: 0 <= j < |pairs| ==> AmongCodes(pairs[j].1, types)
    ensures forall i :: 0 <= i < |TableOf(pairs)| ==> AmongCodes(TableOf(pairs)[i].1, types)
  {
    if pairs != [] {
      var init := pairs[..|pairs| - 1];
      assert forall j :: 0 <= j < |init| ==> init[j] == pairs[j];
      TableOfAmong(init, types);
      var value := Dedup(Last(pairs).1);
      DedupFacts(Last(pairs).1, 0);
      assert AmongCodes(value, types);
      PutEntries(TableOf(init), Last(pairs).0, value);
      forall i | 0 <= i < |TableOf(pairs)| ensures AmongCodes(TableOf(pairs)[i].1, types) {
        assert TableOf(pairs)[i] in TableOf(pairs);
        if TableOf(pairs)[i] != (Last(pairs).0, value) {
          var k :| 0 <= k < |TableOf(init)| && TableOf(init)[k] == TableOf(pairs)[i];
        }
      }
    }
  }

  /** When equal texts always come with equal lists, every text maps to its
      list without repeats. */
  lemma {:induction false} TableOfGet(pairs: seq<(string, seq<string>)>)
    requires forall j, k :: 0 <= j < |pairs| && 0 <= k < |pairs| && pairs[j].0 == pairs[k].0 ==> pairs[j].1 == pairs[k].1
    ensures forall j :: 0 <= j < |pairs| ==> Get(TableOf(pairs), pairs[j].0) == Some(Dedup(pairs[j].1))
  {
    if pairs != [] {
      var init := pairs[..|pairs| - 1];
      assert forall j :: 0 <= j < |init| ==> init[j] == pairs[j];
      TableOfGet(init);
      forall j | 0 <= j < |pairs| ensures Get(TableOf(pairs), pairs[j].0) == Some(Dedup(pairs[j].1)) {
        GetPut(TableOf(init), Last(pairs).0, Dedup(Last(pairs).1), pairs[j].0);
        if j < |init| && pairs[j].0 == Last(pairs).0 {
          assert pairs[j].1 == pairs[|pairs| - 1].1;
        }
      }
    }
  }

  /** Every key of the table is the map text of one of the mappings, once,
      and its type set has each type once. */
  lemma {:induction false} TypesByChoiceEntries(ms: seq<Mapping>, types: seq<TypeRef>, specs: Specs, profiles: seq<Profile>)
    requires TypesByChoice(ms, types, specs, profiles).Ok?
    ensures DistinctKeys(TypesByChoice(ms, types, specs, profiles).value)
    ensures forall i :: 0 <= i < |TypesByChoice(ms, types, specs, profiles).value| ==>
      Distinct(TypesByChoice(ms, types, specs, profiles).value[i].1)
    ensures forall i :: 0 <= i < |TypesByChoice(ms, types, specs, profiles).value| ==>
      exists j :: 0 <= j < |ms| && ms[j].expr == TypesByChoice(ms, types, specs, profiles).value[i].0
  {
    var attempts := Attempts(ms, types, specs, profiles);
    CollectOk(attempts);
    var pairs := Collect(attempts).value;
    TableOfEntries(pairs);
    var t := TableOf(pairs);
    forall i | 0 <= i < |t| ensures exists j :: 0 <= j < |ms| && ms[j].expr == t[i].0 {
      var j :| 0 <= j < |Texts(pairs)| && Texts(pairs)[j] == t[i].0;
      assert ms[j].expr == t[i].0;
    }
  }

  /** Every type of the table is the code of one of the element's types. */
  lemma {:induction false} TypesByChoiceAmong(ms: seq<Mapping>, types: seq<TypeRef>, specs: Specs, profiles: seq<Profile>)
    requires TypesByChoice(ms, types, specs, profiles).Ok?
    ensures forall i :: 0 <= i < |TypesByChoice(ms, types, specs, profiles).value| ==>
      AmongCodes(TypesByChoice(ms, types, specs, profiles).value[i].1, types)
  {
    var attempts := Attempts(ms, types, specs, profiles);
    CollectOk(attempts);
    var pairs := Collect(attempts).value;
    forall j | 0 <= j < |pairs| ensures AmongCodes(pairs[j].1, types) {
      assert attempts[j].1 == MappingTypes(ms[j].expr, types, specs, profiles);
    }
    TableOfAmong(pairs, types);
  }

  /** Every mapping has its map text as a key of the table. */
  lemma {:induction false} TypesByChoiceKeys(ms: seq<Mapping>, types: seq<TypeRef>, specs: Specs, profiles: seq<Profile>)
    requires TypesByChoice(ms, types, specs, profiles).Ok?
    ensures forall j :: 0 <= j < |ms| ==> HasKey(TypesByChoice(ms, types, specs, profiles).value, ms[j].expr)
  {
    var attempts := Attempts(ms, types, specs, profiles);
    CollectOk(attempts);
    TableOfKeys(Collect(attempts).value);
  }

  /** In a table that did not fail, every mapping's text maps to the
      duplicate-free list of the types that mapping gathers. A later mapping
      with the same text overwrites the set with an equal one, since the
      gathered types depend on the text alone. */
  lemma {:induction false} TypesByChoiceSets(ms: seq<Mapping>, types: seq<TypeRef>, specs: Specs, profiles: seq<Profile>)
    requires TypesByChoice(ms, types, specs, profiles).Ok?
    ensures forall j :: 0 <= j < |ms| ==>
      && MappingTypes(ms[j].expr, types, specs, profiles).Ok?
      && Get(TypesByChoice(ms, types, specs, profiles).value, ms[j].expr) ==
           Some(Dedup(MappingTypes(ms[j].expr, types, specs, profiles).value))
  {
    var attempts := Attempts(ms, types, specs, profiles);
    CollectOk(attempts);
    var pairs := Collect(attempts).value;
    forall j, k | 0 <= j < |pairs| && 0 <= k < |pairs| && pairs[j].0 == pairs[k].0 ensures pairs[j].1 == pairs[k].1 {
      assert attempts[j].1 == attempts[k].1;
    }
    TableOfGet(pairs);
  }

  /** In a table that did not fail, every mapping's set holds exactly the
      codes its data element contributes. */
  lemma {:induction false} TypesByChoiceContents(ms: seq<Mapping>, types: seq<TypeRef>, specs: Specs, profiles: seq<Profile>,
                                                  r: Result<Entries<seq<string>>>)
    requires r == TypesByChoice(ms, types, specs, profiles) && r.Ok?
    ensures SetsAsGiven(r.value, ms, types, specs, profiles)
  {
    TypesByChoiceSets(ms, types, specs, profiles);
    forall j | 0 <= j < |ms|
      ensures MappedElement(ms[j].expr, specs).Ok?
      ensures forall c :: c in Dedup(MappingTypes(ms[j].expr, types, specs, profiles).value) <==>
        ElementGives(MappedElement(ms[j].expr, specs).value, types, profiles, c)
    {
      MappingTypesFacts(ms[j].expr, types, specs, profiles);
      DedupFacts(MappingTypes(ms[j].expr, types, specs, profiles).value, 0);
    }
  }

  /** Removing the duplicates of a list whose every member is `b` leaves
      `[b]`. */
  lemma {:induction false} DedupConstant(xs: seq<string>, b: string)
    requires b in xs && forall x :: x in xs ==> x == b
    ensures Dedup(xs) == [b]
  {
    var init := xs[..|xs| - 1];
    assert Last(xs) in xs;
    if init != [] {
      assert init[0] in xs;
      assert forall x :: x in init ==> x in xs;
      DedupConstant(init, b);
    }
  }

  /** A choice element with a single SHR mapping, whose data element
      contributes exactly one of the element's types `b`, becomes exactly
      one concrete element: the one for type `b`, mapped to that mapping. No
      element is produced for the other types. */
  lemma ChoiceSingleMatch(e: Element, specs: Specs, profiles: seq<Profile>, b: string)
    requires IsChoice(e)
    requires |ShrMappings(e.mapping)| == 1
    requires MappingTypes(ShrMappings(e.mapping)[0].expr, e.types, specs, profiles).Ok?
    requires MappedElement(ShrMappings(e.mapping)[0].expr, specs).Ok?
    requires forall c :: ElementGives(MappedElement(ShrMappings(e.mapping)[0].expr, specs).value, e.types, profiles, c) <==> c == b
    ensures ChoiceFields(e, specs, profiles) == Ok([Concrete(e, ShrMappings(e.mapping)[0].expr, b)])
  {
    var ms := ShrMappings(e.mapping);
    var expr := ms[0].expr;
    TypesByChoiceSingle(ms, e.types, specs, profiles);
    OnlyTypeSet(expr, e.types, specs, profiles, b);
    ChoiceFieldsOneEntry(e, specs, profiles, expr, b);
  }

  /** A choice element whose table has the single entry `expr: {b}` becomes
      the one concrete element for `b` and `expr`. */
  lemma ChoiceFieldsOneEntry(e: Element, specs: Specs, profiles: seq<Profile>, expr: string, b: string)
    requires IsChoice(e)
    requires TypesByChoice(ShrMappings(e.mapping), e.types, specs, profiles) == Ok(Put([], expr, [b]))
    ensures ChoiceFields(e, specs, profiles) == Ok([Concrete(e, expr, b)])
  {
    assert Put([], expr, [b]) == [(expr, [b])];
    assert Expand(e, [(expr, [b])]) == [Concrete(e, expr, b)];
  }

  /** A mapping whose data element contributes only `b` has the set `{b}`. */
  lemma OnlyTypeSet(expr: string, types: seq<TypeRef>, specs: Specs, profiles: seq<Profile>, b: string)
    requires MappingTypes(expr, types, specs, profiles).Ok?
    requires MappedElement(expr, specs).Ok?
    requires forall c :: ElementGives(MappedElement(expr, specs).value, types, profiles, c) <==> c == b
    ensures Dedup(MappingTypes(expr, types, specs, profiles).value) == [b]
  {
    var ts := MappingTypes(expr, types, specs, profiles).value;
    MappingTypesFacts(expr, types, specs, profiles);
    assert forall c :: c in ts <==> c == b;
    DedupConstant(ts, b);
  }

  /** A single mapping that does not fail gives a table with one entry:
      its text and its types without repeats. */
  lemma {:induction false} TypesByChoiceSingle(ms: seq<Mapping>, types: seq<TypeRef>, specs: Specs, profiles: seq<Profile>)
    requires |ms| == 1 && MappingTypes(ms[0].expr, types, specs, profiles).Ok?
    ensures TypesByChoice(ms, types, specs, profiles)
      == Ok(Put([], ms[0].expr, Dedup(MappingTypes(ms[0].expr, types, specs, profiles).value)))
  {
    var attempts := Attempts(ms, types, specs, profiles);
    CollectOk(attempts);
    var pairs := Collect(attempts).value;
    assert pairs == [(ms[0].expr, MappingTypes(ms[0].expr, types, specs, profiles).value)];
    TableOfSingle(pairs[0]);
  }

  lemma TableOfSingle(p: (string, seq<string>))
    ensures TableOf([p]) == Put([], p.0, Dedup(p.1))
  {
    assert [p][..0] == [];
  }

  /** The concrete element for one (mapping, type) pair: `[x]` replaced by
      the capitalised type code, that one type, and that one SHR mapping;
      everything else as in the choice element. */
  function Concrete(e: Element, mapping: string, typeCode: string): Element
  {
    e.(path := ReplaceFirst(e.path, "[x]", CapitalizeFirst(typeCode)),
       types := [TypeRef(typeCode, None, None)],
       mapping := [Mapping(ShrIdentity, mapping)])
  }

  function ConcreteAll(e: Element, mapping: string, typeCodes: seq<string>): (r: seq<Element>)
    ensures |r| == |typeCodes|
    ensures forall i :: 0 <= i < |r| ==> r[i] == Concrete(e, mapping, typeCodes[i])
  {
    if typeCodes == [] then [] else [Concrete(e, mapping, typeCodes[0])] + ConcreteAll(e, mapping, typeCodes[1..])
  }

  /** The concrete elements for every entry of the table, in its order. */
  function Expand(e: Element, table: Entries<seq<string>>): seq<Element>
  {
    if table == [] then [] else ConcreteAll(e, table[0].0, table[0].1) + Expand(e, table[1..])
  }

  predicate IsChoice(e: Element)
  {
    EndsWith(e.path, "[x]")
  }

  /** One element's replacement: itself when it is not a choice, else its
      expansion. */
  function ChoiceFields(e: Element, specs: Specs, profiles: seq<Profile>): Result<seq<Element>>
  {
    if !IsChoice(e) then Ok([e])
    else match TypesByChoice(ShrMappings(e.mapping), e.types, specs, profiles)
      case Crash(msg) => Crash(msg)
      case Ok(table) => Ok(Expand(e, table))
  }

  /** `preProcessChoiceFields(elements, specs, fhir)`: every element
      replaced by its choice fields, flattened. */
  function PreProcessChoiceFields(elements: seq<Element>, specs: Specs, profiles: seq<Profile>): Result<seq<Element>>
  {
    if elements == [] then Ok([])
    else match PreProcessChoiceFields(elements[..|elements| - 1], specs, profiles)
      case Crash(msg) => Crash(msg)
      case Ok(before) =>
        match ChoiceFields(Last(elements), specs, profiles)
        case Crash(msg) => Crash(msg)
        case Ok(now) => Ok(before + now)
  }

  /** Without choice elements the expansion changes nothing. */
  lemma {:induction false} NoChoicePassThrough(elements: seq<Element>, specs: Specs, profiles: seq<Profile>)
    requires forall i :: 0 <= i < |elements| ==> !IsChoice(elements[i])
    ensures PreProcessChoiceFields(elements, specs, profiles) == Ok(elements)
  {
    if elements != [] {
      var init := elements[..|elements| - 1];
      NoChoicePassThrough(init, specs, profiles);
      assert ChoiceFields(Last(elements), specs, profiles) == Ok([Last(elements)]);
      assert init + [Last(elements)] == elements;
    }
  }

  /** The sum of the sizes of the table's type sets. */
  function PairCount(table: Entries<seq<string>>): nat
  {
    if table == [] then 0 else |table[0].1| + PairCount(table[1..])
  }

  /** A choice element becomes one element per (mapping, type) pair of its
      table, and each of them is that pair's concrete element; conversely
      every pair's concrete element is produced. */
  lemma {:induction false} ExpandPairs(e: Element, table: Entries<seq<string>>)
    ensures |Expand(e, table)| == PairCount(table)
    ensures forall x :: x in Expand(e, table) ==>
      exists i, k :: 0 <= i < |table| && 0 <= k < |table[i].1| && x == Concrete(e, table[i].0, table[i].1[k])
    ensures forall i, k :: 0 <= i < |table| && 0 <= k < |table[i].1| ==>
      Concrete(e, table[i].0, table[i].1[k]) in Expand(e, table)
  {
    if table != [] {
      ExpandPairs(e, table[1..]);
      var head := ConcreteAll(e, table[0].0, table[0].1);
      forall x | x in Expand(e, table) ensures
        exists i, k :: 0 <= i < |table| && 0 <= k < |table[i].1| && x == Concrete(e, table[i].0, table[i].1[k])
      {
        if x in head {
          var k :| 0 <= k < |head| && head[k] == x;
          assert x == Concrete(e, table[0].0, table[0].1[k]);
        } else {
          assert x in Expand(e, table[1..]);
          var i, k :| 0 <= i < |table[1..]| && 0 <= k < |table[1..][i].1| && x == Concrete(e, table[1..][i].0, table[1..][i].1[k]);
          assert x == Concrete(e, table[i + 1].0, table[i + 1].1[k]);
        }
      }
      forall i, k | 0 <= i < |table| && 0 <= k < |table[i].1| ensures
        Concrete(e, table[i].0, table[i].1[k]) in Expand(e, table)
      {
        if i == 0 {
          assert head[k] == Concrete(e, table[i].0, table[i].1[k]);
        } else {
          assert table[1..][i - 1] == table[i];
        }
      }
    }
  }

  /** Each concrete element has exactly one type and exactly one SHR
      mapping, its path has `[x]` replaced by the capitalised type code, and
      nothing else of the choice element changes. */
  lemma ConcreteShape(e: Element, mapping: string, typeCode: string)
    ensures var c := Concrete(e, mapping, typeCode);
      && |c.types| == 1 && c.types[0].code == typeCode
      && ShrMappings(c.mapping) == [Mapping(ShrIdentity, mapping)]
      && c.path == ReplaceFirst(e.path, "[x]", CapitalizeFirst(typeCode))
      && c.(path := e.path, types := e.types, mapping := e.mapping) == e
  {
    var c := Concrete(e, mapping, typeCode);
    assert ShrMappings(c.mapping) == [c.mapping[0]] + ShrMappings(c.mapping[1..]);
  }

  /** For a choice element the expansion is exactly the pairs of its type
      table: a concrete element for (mapping, type) is produced exactly when
      the type is in the set of that mapping, and no type is repeated for a
      mapping. */
  lemma ChoiceFieldsPairs(e: Element, specs: Specs, profiles: seq<Profile>, mapping: string, typeCode: string)
    requires IsChoice(e)
    requires ChoiceFields(e, specs, profiles).Ok?
    ensures var table := TypesByChoice(ShrMappings(e.mapping), e.types, specs, profiles).value;
      && (Concrete(e, mapping, typeCode) in ChoiceFields(e, specs, profiles).value <==>
            Get(table, mapping).Some? && typeCode in Get(table, mapping).value)
      && (Get(table, mapping).Some? ==> Distinct(Get(table, mapping).value))
      && (Concrete(e, mapping, typeCode) in ChoiceFields(e, specs, profiles).value ==>
            exists i :: 0 <= i < |e.types| && e.types[i].code == typeCode)
  {
    var table := TypesByChoice(ShrMappings(e.mapping), e.types, specs, profiles).value;
    TypesByChoiceEntries(ShrMappings(e.mapping), e.types, specs, profiles);
    TypesByChoiceAmong(ShrMappings(e.mapping), e.types, specs, profiles);
    ExpandPairs(e, table);
    var x := Concrete(e, mapping, typeCode);
    if x in Expand(e, table) {
      var i, k :| 0 <= i < |table| && 0 <= k < |table[i].1| && x == Concrete(e, table[i].0, table[i].1[k]);
      ConcreteInjective(e, mapping, typeCode, table[i].0, table[i].1[k]);
      GetEntry(table, i);
      assert table[i].1[k] in table[i].1;
    }
    if Get(table, mapping).Some? {
      GetHasKey(table, mapping);
      var i :| 0 <= i < |table| && table[i].0 == mapping;
      GetEntry(table, i);
      if typeCode in Get(table, mapping).value {
        var k :| 0 <= k < |table[i].1| && table[i].1[k] == typeCode;
        assert x == Concrete(e, table[i].0, table[i].1[k]);
      }
    }
  }

  /** Different pairs give different concrete elements. */
  lemma ConcreteInjective(e: Element, m1: string, t1: string, m2: string, t2: string)
    requires Concrete(e, m1, t1) == Concrete(e, m2, t2)
    ensures m1 == m2 && t1 == t2
  {
    assert Concrete(e, m1, t1).types[0].code == t1;
    assert Concrete(e, m1, t1).mapping[0].expr == m1;
  }
}
