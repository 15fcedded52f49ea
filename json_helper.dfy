/** The JSON deserialisation helpers copied into every generated project
    (lib/includes/json-helper.js): how a JSON key names a property, which
    type a nested value is built as, and the lazily created `entryInfo`. */
module JsonHelper {
  import opened Wrappers
  import opened Strings
  import opened Json

  /** The key that carries an element's declared type. */
  const EntryTypeKey := "shr.base.EntryType"

  /** `lowerCaseFirst(input)`: the empty string is returned as it is;
      otherwise only the first character is lower-cased. */
  function LowerCaseFirst(input: string): (r: string)
    ensures |r| == |input|
    ensures input == [] ==> r == input
    ensures input != [] ==> r[0] == Lower(input[0]) && r[1..] == input[1..]
  {
    if |input| == 0 then input else [Lower(input[0])] + input[1..]
  }

  /** Lower-casing the first character a second time changes nothing. */
  lemma LowerCaseFirstIdempotent(input: string)
    ensures LowerCaseFirst(LowerCaseFirst(input)) == LowerCaseFirst(input)
  {
    if input != [] {
      var c := input[0];
      assert Lower(Lower(c)) == Lower(c);
    }
  }

  /** `KEY_RE = /^(([^\.]+\.)*)([^\.]+)$/` matches exactly the keys made of
      one or more non-empty dot-separated segments. */
  predicate KeyMatches(key: string)
  {
    var segments := Split(key, '.');
    forall i :: 0 <= i < |segments| ==> segments[i] != ""
  }

  /** The property a JSON key sets: `lowerCaseFirst` of the third capture
      group of `KEY_RE`, the key's last segment. A key the expression does
      not match makes `match` return null, and reading `[3]` of it throws. */
  function PropertyForKey(key: string): (r: Result<string>)
    ensures r.Ok? <==> KeyMatches(key)
    ensures r.Ok? ==> '.' !in r.value && r.value != ""
  {
    var segments := Split(key, '.');
    if KeyMatches(key) then
      var last := Last(segments);
      assert last == segments[|segments| - 1];
      Ok(LowerCaseFirst(last))
    else Crash("key does not match KEY_RE")
  }

  /** The property of a fully-qualified key is its lower-cased last name;
      for instance `shr.core.CodeableConcept` sets `codeableConcept`. */
  lemma PropertyOfQualifiedKey(segments: seq<string>)
    requires |segments| >= 1
    requires forall i :: 0 <= i < |segments| ==> segments[i] != "" && '.' !in segments[i]
    ensures PropertyForKey(Join(segments, ".")) == Ok(LowerCaseFirst(Last(segments)))
  {
    SplitJoin(segments, '.');
  }

  /** A key with an empty segment (leading, trailing or doubled dot, or the
      empty key) has no property. */
  lemma EmptySegmentHasNoProperty(segments: seq<string>, k: nat)
    requires |segments| >= 1 && k < |segments| && segments[k] == ""
    requires forall i :: 0 <= i < |segments| ==> '.' !in segments[i]
    ensures PropertyForKey(Join(segments, ".")).Crash?
  {
    SplitJoin(segments, '.');
  }

  /** What `createInstance(key, value)` yields: the value itself, or a call
      of the object factory with a type and the value. The type is None when
      the value's declared type object has no `Value` (`undefined`). */
  datatype Created =
    | AsIs(value: Json)
    | FromFactory(typeName: Option<Json>, data: Json)

  /** `createInstance(key, value)`. `typeof null` is `'object'`, so a null
      value reaches the property read `value['shr.base.EntryType']`, which
      throws. */
  function CreateInstance(key: string, value: Json): (r: Result<Created>)
    ensures value.JNull? <==> r.Crash?
    ensures !(value.JNull? || value.JArr? || value.JObj?) ==> r == Ok(AsIs(value))
    ensures (value.JArr? || value.JObj?) ==> r.Ok? && r.value.FromFactory? && r.value.data == value
    ensures (value.JArr? || value.JObj?) ==>
      var declared := Prop(value, EntryTypeKey);
      r.value.typeName == (if declared.Some? && Truthy(declared.value)
                           then Prop(declared.value, "Value") else Some(JStr(key)))
  {
    match value
    case JNull => Crash("cannot read properties of null")
    case JArr(_) => Ok(FromFactory(TypeOf(key, value), value))
    case JObj(_) => Ok(FromFactory(TypeOf(key, value), value))
    case _ => Ok(AsIs(value))
  }

  /** The type handed to the factory: the value's own declared
      `shr.base.EntryType.Value` when it declares one, otherwise the key. */
  function TypeOf(key: string, value: Json): Option<Json>
  {
    var declared := Prop(value, EntryTypeKey);
    if declared.Some? && Truthy(declared.value) then Prop(declared.value, "Value") else Some(JStr(key))
  }

  /** A value that declares its type is built as that type whatever key it
      sits under. */
  lemma DeclaredTypeWins(key1: string, key2: string, fields: map<string, Json>, typeName: string)
    requires EntryTypeKey in fields && fields[EntryTypeKey] == JObj(map["Value" := JStr(typeName)])
    ensures CreateInstance(key1, JObj(fields)) == CreateInstance(key2, JObj(fields))
    ensures CreateInstance(key1, JObj(fields)) == Ok(FromFactory(Some(JStr(typeName)), JObj(fields)))
  {
  }

  /** The shared entry information of an entry instance. */
  class Entry {
    var props: map<string, Created>

    constructor ()
      ensures props == map[]
    {
      props := map[];
    }
  }

  /** The part of a generated instance the helper touches. */
  class Instance {
    var entryInfo: Entry?
  }

  /** `setEntryProperty(inst, property, key, value)`: creates `entryInfo`
      only when it is undefined, so an existing one is reused; then sets the
      property on it when `Entry` has a setter for it (`entrySetters` stands
      for the setters found on `Entry.prototype`). A value that
      `createInstance` cannot handle throws after `entryInfo` exists. */
  method SetEntryProperty(inst: Instance, property: string, key: string, value: Json, entrySetters: set<string>)
    returns (r: Result<()>)
    modifies inst, inst.entryInfo
    ensures inst.entryInfo != null
    ensures old(inst.entryInfo) != null ==> inst.entryInfo == old(inst.entryInfo)
    ensures old(inst.entryInfo) == null ==> fresh(inst.entryInfo)
    ensures r.Crash? <==> (property in entrySetters && CreateInstance(key, value).Crash?)
    ensures var before := if old(inst.entryInfo) == null then map[] else old(inst.entryInfo.props);
      inst.entryInfo.props ==
        if r.Ok? && property in entrySetters
        then before[property := CreateInstance(key, value).value]
        else before
  {
    if inst.entryInfo == null {
      inst.entryInfo := new Entry();
    }
    if property in entrySetters {
      var created := CreateInstance(key, value);
      if created.Crash? {
        return Crash(created.reason);
      }
      inst.entryInfo.props := inst.entryInfo.props[property := created.value];
    }
    r := Ok(());
  }
}
