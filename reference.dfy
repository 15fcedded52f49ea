/** The reference-to-another-entry class copied into every generated
    project (lib/includes/Reference.js): three identifying fields and a cached
    resolved target that any change of identity invalidates. */
module ReferenceModel {
  import opened Wrappers

  /** The object `toJSON()` returns: the three identifying fields under the
      keys `_ShrId`, `_EntryId` and `_EntryType`, and nothing else. */
  datatype ReferenceJson = ReferenceJson(shrIdKey: string, entryIdKey: string, entryTypeKey: string)

  /** `T` is the type of the resolved target object. */
  class Reference<T> {
    var shrId: string
    var entryId: string
    var entryType: string
    /** The cached target; None is `undefined`. */
    var reference: Option<T>

    /** Stores the three identifying fields; the cached target starts
        undefined. */
    constructor (shrId: string, entryId: string, entryType: string)
      ensures this.shrId == shrId && this.entryId == entryId && this.entryType == entryType
      ensures reference == None
    {
      this.shrId := shrId;
      this.entryId := entryId;
      this.entryType := entryType;
      reference := None;
    }

    method GetShrId() returns (v: string)
      ensures v == shrId
    {
      v := shrId;
    }

    method GetEntryId() returns (v: string)
      ensures v == entryId
    {
      v := entryId;
    }

    method GetEntryType() returns (v: string)
      ensures v == entryType
    {
      v := entryType;
    }

    method GetReference() returns (v: Option<T>)
      ensures v == reference
    {
      v := reference;
    }

    /** Setting an identifying field changes only that field and drops the
        cached target. */
    method SetShrId(v: string)
      modifies this
      ensures shrId == v && reference == None
      ensures entryId == old(entryId) && entryType == old(entryType)
    {
      shrId := v;
      reference := None;
    }

    method SetEntryId(v: string)
      modifies this
      ensures entryId == v && reference == None
      ensures shrId == old(shrId) && entryType == old(entryType)
    {
      entryId := v;
      reference := None;
    }

    method SetEntryType(v: string)
      modifies this
      ensures entryType == v && reference == None
      ensures shrId == old(shrId) && entryId == old(entryId)
    {
      entryType := v;
      reference := None;
    }

    /** Setting the target leaves the identifying fields alone. */
    method SetReference(target: T)
      modifies this
      ensures reference == Some(target)
      ensures shrId == old(shrId) && entryId == old(entryId) && entryType == old(entryType)
    {
      reference := Some(target);
    }

    /** `toJSON()`: the identifying fields only; the target is never
        serialised. */
    method ToJson() returns (j: ReferenceJson)
      ensures j == ReferenceJson(shrId, entryId, entryType)
    {
      j := ReferenceJson(shrId, entryId, entryType);
    }

    /** `toFHIR()`: a reference is written to FHIR as its entry ID. */
    method ToFhir() returns (id: string)
      ensures id == entryId
    {
      id := entryId;
    }
  }

  /** A caller's view of the cache: a target set on a reference is returned
      until an identifying setter runs, after which it is gone, while the
      getters return the values most recently set. */
  method CacheLifecycle<T>(target: T, shrId: string, entryId: string, entryType: string, newEntryId: string)
    returns (cachedBefore: Option<T>, cachedAfter: Option<T>, seenEntryId: string, seenShrId: string, json: ReferenceJson)
    ensures cachedBefore == Some(target) && cachedAfter == None
    ensures seenEntryId == newEntryId && seenShrId == shrId
    ensures json == ReferenceJson(shrId, newEntryId, entryType)
  {
    var r := new Reference<T>(shrId, entryId, entryType);
    r.SetReference(target);
    cachedBefore := r.GetReference();
    var jsonBefore := r.ToJson();
    assert jsonBefore == ReferenceJson(shrId, entryId, entryType);
    r.SetEntryId(newEntryId);
    cachedAfter := r.GetReference();
    seenEntryId := r.GetEntryId();
    seenShrId := r.GetShrId();
    json := r.ToJson();
  }
}
