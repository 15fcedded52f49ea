/** The parts of the SHR object model (the `shr-models` library, which is not
    part of this model) that the generator reads: identifiers, cardinalities,
    values and data elements, and the specifications as a map from
    identifier to data element. */
module ShrModels {
  import opened Wrappers

  /** An element identifier; equality is structural, as `Identifier.equals`. */
  datatype Identifier = Identifier(namespace: string, name: string)

  /** Keyword identifiers have the empty namespace. */
  predicate IsEntryKeyWord(id: Identifier)
  {
    id.namespace == "" && id.name == "_Entry"
  }

  predicate IsConceptKeyWord(id: Identifier)
  {
    id.namespace == "" && id.name == "_Concept"
  }

  predicate IsPrimitive(id: Identifier)
  {
    id.namespace == "primitive"
  }

  /** The fully qualified name: namespace and name joined by a dot, or the
      bare name for an identifier without a namespace. */
  function Fqn(id: Identifier): string
  {
    if id.namespace == "" then id.name else id.namespace + "." + id.name
  }

  /** A cardinality `min..max`; an absent max is `*`. */
  datatype Card = Card(min: nat, max: Option<nat>)

  /** More than one value is allowed. */
  predicate IsList(card: Card)
  {
    card.max.None? || card.max.value > 1
  }

  /** A value or field of a data element. `Ref` is a reference to another
      element and, like `Identifiable`, is an identifiable value. `effective`
      is the identifier after type constraints, and `includesTypes` the
      number of includes-type constraints on the value. */
  datatype Value =
    | Identifiable(identifier: Identifier, effective: Identifier, card: Card, includesTypes: nat)
    | Ref(identifier: Identifier, effective: Identifier, card: Card, includesTypes: nat)
    | Choice(options: seq<Value>, card: Card, includesTypes: nat)
    | TBD(card: Card, includesTypes: nat)

  /** `value instanceof IdentifiableValue`. */
  predicate IsIdentifiable(v: Value)
  {
    v.Identifiable? || v.Ref?
  }

  /** `value.identifier`, undefined for choices and TBDs. */
  function IdOf(v: Value): Option<Identifier>
  {
    if IsIdentifiable(v) then Some(v.identifier) else None
  }

  /** `value.effectiveIdentifier`, undefined for choices and TBDs. */
  function EffectiveIdOf(v: Value): Option<Identifier>
  {
    if IsIdentifiable(v) then Some(v.effective) else None
  }

  datatype DataElement = DataElement(identifier: Identifier, value: Option<Value>, fields: seq<Value>,
                                     isEntry: bool, basedOn: seq<Identifier>)

  /** All data elements, by identifier. */
  type Specs = map<Identifier, DataElement>

  /** Looking up an element by its identifier; None stands for `undefined`. */
  function Find(specs: Specs, id: Identifier): Option<DataElement>
  {
    if id in specs then Some(specs[id]) else None
  }
}
