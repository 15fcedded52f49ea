/** The parts of a FHIR STU3 StructureDefinition snapshot element that the
    generator reads. */
module Fhir {
  import opened Wrappers
  import opened Json
  import opened Strings

  /** One entry of `element.type`. */
  datatype TypeRef = TypeRef(code: string, profile: Option<string>, targetProfile: Option<string>)

  /** One entry of `element.mapping` (`expr` is its `map` property); the SHR
      mappings have identity `shr` and a map such as `<shr.core.Quantity>.<shr.core.Units>`. */
  datatype Mapping = Mapping(identity: string, expr: string)

  /** A snapshot element. `slicing` holds the discriminator paths when the
      element defines slicing. `fixed` holds the `fixed<Type>` properties by
      their property name (`fixedCode`, `fixedBoolean`, ...). An absent
      `mapping` list is the empty list, and so is an absent `type` list,
      although the generator throws where it iterates an absent `type`. */
  datatype Element = Element(
    id: string,
    path: string,
    sliceName: Option<string>,
    max: string,
    baseMax: Option<string>,
    types: seq<TypeRef>,
    slicing: Option<seq<string>>,
    fixed: map<string, Json>,
    mapping: seq<Mapping>)

  /** A profile: its resource type, id, and snapshot elements. */
  datatype Profile = Profile(id: string, resourceType: string, elements: seq<Element>)

  const ShrIdentity := "shr"

  /** The SHR mappings of an element, in order. */
  function ShrMappings(ms: seq<Mapping>): (r: seq<Mapping>)
    ensures |r| <= |ms|
    ensures forall i :: 0 <= i < |r| ==> r[i].identity == ShrIdentity && r[i] in ms
    ensures forall m :: m in ms && m.identity == ShrIdentity ==> m in r
  {
    if ms == [] then []
    else (if ms[0].identity == ShrIdentity then [ms[0]] else []) + ShrMappings(ms[1..])
  }

  /** `Number(s)` for a string of decimal digits; None for other strings. */
  function DecimalValue(s: string): Option<nat>
  {
    if s == [] || exists i :: 0 <= i < |s| && !('0' <= s[i] <= '9') then None
    else Some(DigitsValue(s))
  }

  function DigitsValue(s: string): nat
    requires forall i :: 0 <= i < |s| ==> '0' <= s[i] <= '9'
  {
    if s == [] then 0 else 10 * DigitsValue(s[..|s| - 1]) + (Last(s) - '0') as nat
  }

  /** A max cardinality that allows more than one value: `*`, or a number
      greater than one. */
  predicate MaxIsList(max: string)
  {
    max == "*" || (DecimalValue(max).Some? && DecimalValue(max).value > 1)
  }
}
