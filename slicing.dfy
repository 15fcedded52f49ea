/** `preprocessSlicing` of the class generator (lib/generateClass.js): one
    walk over a profile's snapshot that collects, for every slice group
    (an element with `slicing`, as in the HL7 FHIR STU3 "Slicing" section),
    the discriminator values of each of its named slices. Groups nest, so
    open groups are kept on a stack whose top is at index 0. */
module Slicing {
  import opened Wrappers
  import opened Strings
  import opened Json
  import opened Fhir
  import opened OrderedMap

  /** A discriminator value found in a slice: `{ path, value }`, with None
      for an `undefined` value. */
  datatype Constraint = Constraint(path: string, value: Option<Json>)

  /** An open slice group: its path, its discriminator paths (already
      prefixed with the group's path), the slice being read and the
      constraints found per slice name. */
  datatype Group = Group(path: string, discriminators: seq<string>, currentSlice: Option<string>,
                         elements: Entries<seq<Constraint>>)

  /** group path -> slice name -> constraints, newest first. */
  type SliceMap = Entries<Entries<seq<Constraint>>>

  datatype State = State(stack: seq<Group>, sliceMap: SliceMap)

  function Paths(stack: seq<Group>): (r: seq<string>)
    ensures |r| == |stack|
    ensures forall i :: 0 <= i < |r| ==> r[i] == stack[i].path
  {
    if stack == [] then [] else [stack[0].path] + Paths(stack[1..])
  }

  /** Pops every group that the element at `path` is not (textually)
      inside, recording each popped group's slices under its path. */
  function Pop(stack: seq<Group>, sliceMap: SliceMap, path: string): (r: State)
    ensures |r.stack| <= |stack| && r.stack == stack[|stack| - |r.stack|..]
    ensures r.stack != [] ==> StartsWith(path, r.stack[0].path)
    decreases |stack|
  {
    if stack != [] && !StartsWith(path, stack[0].path) then
      Pop(stack[1..], Put(sliceMap, stack[0].path, stack[0].elements), path)
    else State(stack, sliceMap)
  }

  /** Records every group still open at the end of the snapshot. */
  function Flush(stack: seq<Group>, sliceMap: SliceMap): SliceMap
    decreases |stack|
  {
    if stack == [] then sliceMap else Flush(stack[1..], Put(sliceMap, stack[0].path, stack[0].elements))
  }

  /** An element opens a slice group when it has slicing and is not an
      extension element (extensions are sliced on their url). */
  predicate Opens(e: Element)
  {
    e.slicing.Some? && !EndsWith(e.path, ".extension")
  }

  /** The discriminator paths, each rewritten to `path + '.' + d`. */
  function Rewritten(path: string, discriminators: seq<string>): (r: seq<string>)
    ensures |r| == |discriminators|
    ensures forall i :: 0 <= i < |r| ==> r[i] == path + "." + discriminators[i]
  {
    if discriminators == [] then []
    else [path + "." + discriminators[0]] + Rewritten(path, discriminators[1..])
  }

  function NewGroup(e: Element): Group
    requires Opens(e)
  {
    Group(e.path, Rewritten(e.path, e.slicing.value), None, [])
  }

  /** The name of the field holding a fixed value of type `code`:
      `fixed` followed by the capitalised code. */
  function FixedField(code: string): string
  {
    "fixed" + CapitalizeFirst(code)
  }

  /** `element[fixed<Type>] != null`: present and not null (so `false`
      counts). */
  predicate HasFixed(fixed: map<string, Json>, t: TypeRef)
  {
    FixedField(t.code) in fixed && fixed[FixedField(t.code)] != JNull
  }

  /** The fixed value one type contributes: its non-null `fixed<Type>`. */
  function FixedOf(fixed: map<string, Json>, t: TypeRef): (r: Option<Json>)
    ensures r.Some? <==> HasFixed(fixed, t)
  {
    if HasFixed(fixed, t) then Some(fixed[FixedField(t.code)]) else None
  }

  /** What each type contributes, in order. */
  function FixedOfEach(types: seq<TypeRef>, fixed: map<string, Json>): (r: seq<Option<Json>>)
    ensures |r| == |types|
    ensures forall i :: 0 <= i < |types| ==> r[i] == FixedOf(fixed, types[i])
  {
    if types == [] then [] else [FixedOf(fixed, types[0])] + FixedOfEach(types[1..], fixed)
  }

  /** The last of the defined values, as a loop assigning each defined one
      leaves it. */
  function LastPresent<T>(xs: seq<Option<T>>): Option<T>
  {
    if xs == [] then None
    else if Last(xs).Some? then Last(xs)
    else LastPresent(xs[..|xs| - 1])
  }

  /** The fixed value of the last of the types that has one. */
  function FixedValue(types: seq<TypeRef>, fixed: map<string, Json>): Option<Json>
  {
    LastPresent(FixedOfEach(types, fixed))
  }

  /** Nothing is defined exactly when no value is. */
  lemma {:induction false} LastPresentNone<T>(xs: seq<Option<T>>)
    ensures LastPresent(xs).None? <==> forall i :: 0 <= i < |xs| ==> xs[i].None?
  {
    if xs != [] && Last(xs).None? {
      var init := xs[..|xs| - 1];
      LastPresentNone(init);
      assert forall i :: 0 <= i < |init| ==> init[i] == xs[i];
    }
  }

  /** A defined result is the last defined value. */
  lemma {:induction false} LastPresentIsLast<T>(xs: seq<Option<T>>)
    requires LastPresent(xs).Some?
    ensures exists i :: 0 <= i < |xs| && xs[i] == LastPresent(xs) && forall k :: i < k < |xs| ==> xs[k].None?
  {
    var n := |xs| - 1;
    if xs[n].None? {
      var init := xs[..n];
      LastPresentIsLast(init);
      var i :| 0 <= i < |init| && init[i] == LastPresent(init) && forall k :: i < k < |init| ==> init[k].None?;
      assert xs[i] == init[i];
      forall k | i < k < |xs| ensures xs[k].None? {
        if k < n {
          assert xs[k] == init[k];
        }
      }
    }
  }

  /** One more value: it wins when defined. */
  lemma LastPresentSnoc<T>(xs: seq<Option<T>>, n: nat)
    requires n < |xs|
    ensures LastPresent(xs[..n + 1]) == if xs[n].Some? then xs[n] else LastPresent(xs[..n])
  {
    var t := xs[..n + 1];
    assert Last(t) == xs[n];
    assert t[..|t| - 1] == xs[..n];
  }

  /** Type `i` is the last of the types with a fixed value. */
  predicate LastFixedAt(types: seq<TypeRef>, fixed: map<string, Json>, i: int)
  {
    0 <= i < |types| && HasFixed(fixed, types[i]) && forall k :: i < k < |types| ==> !HasFixed(fixed, types[k])
  }

  /** The fixed value is undefined exactly when no type has a non-null
      fixed value. */
  lemma FixedValueNone(types: seq<TypeRef>, fixed: map<string, Json>)
    ensures FixedValue(types, fixed).None? <==> forall i :: 0 <= i < |types| ==> !HasFixed(fixed, types[i])
  {
    var xs := FixedOfEach(types, fixed);
    LastPresentNone(xs);
    assert forall i :: 0 <= i < |types| ==> (xs[i].None? <==> !HasFixed(fixed, types[i]));
  }

  /** A defined fixed value is the one of the last type that has a
      non-null fixed value. */
  lemma FixedValueIsLast(types: seq<TypeRef>, fixed: map<string, Json>)
    requires FixedValue(types, fixed).Some?
    ensures exists i :: LastFixedAt(types, fixed, i) && FixedValue(types, fixed) == Some(fixed[FixedField(types[i].code)])
  {
    var xs := FixedOfEach(types, fixed);
    LastPresentIsLast(xs);
    var i :| 0 <= i < |xs| && xs[i] == LastPresent(xs) && forall k :: i < k < |xs| ==> xs[k].None?;
    forall k | i < k < |types| ensures !HasFixed(fixed, types[k]) {
      assert xs[k].None?;
    }
    assert LastFixedAt(types, fixed, i);
  }

  /** The key a group's constraints go under: its current slice, or the
      text "null" when no slice has started. */
  function SliceKey(g: Group): string
  {
    match g.currentSlice
    case None => "null"
    case Some(name) => name
  }

  /** One group's reaction to an element: when the element is one of its
      discriminators, the constraint is put in front of the current slice's
      list; that list must exist. */
  function Annotate(g: Group, path: string, value: Option<Json>): (r: Result<Group>)
    ensures r.Ok? <==> path !in g.discriminators || HasKey(g.elements, SliceKey(g))
    ensures r.Ok? ==> r.value.(elements := g.elements) == g
  {
    GetHasKey(g.elements, SliceKey(g));
    if path !in g.discriminators then Ok(g)
    else match Get(g.elements, SliceKey(g))
      case None => Crash("no slice to add the discriminator value to")
      case Some(cs) => Ok(g.(elements := Put(g.elements, SliceKey(g), [Constraint(path, value)] + cs)))
  }

  /** A discriminator value goes in front of the current slice's list, and
      no other slice changes; a group the element does not discriminate is
      left alone. */
  lemma AnnotatePrepends(g: Group, path: string, value: Option<Json>, key: string)
    requires Annotate(g, path, value).Ok?
    ensures path in g.discriminators && key == SliceKey(g) ==>
      Get(g.elements, key).Some? &&
      Get(Annotate(g, path, value).value.elements, key) == Some([Constraint(path, value)] + Get(g.elements, key).value)
    ensures !(path in g.discriminators && key == SliceKey(g)) ==>
      Get(Annotate(g, path, value).value.elements, key) == Get(g.elements, key)
  {
    GetHasKey(g.elements, SliceKey(g));
    if path in g.discriminators {
      var cs := Get(g.elements, SliceKey(g)).value;
      GetPut(g.elements, SliceKey(g), [Constraint(path, value)] + cs, key);
    }
  }

  /** Every group of the stack reacts to the element, in order. */
  function AnnotateAll(stack: seq<Group>, path: string, value: Option<Json>): (r: Result<seq<Group>>)
    ensures r.Ok? ==> |r.value| == |stack| && Paths(r.value) == Paths(stack)
  {
    if stack == [] then Ok([])
    else match AnnotateAll(stack[..|stack| - 1], path, value)
      case Crash(msg) => Crash(msg)
      case Ok(before) =>
        match Annotate(Last(stack), path, value)
        case Crash(msg) => Crash(msg)
        case Ok(g) =>
          assert Paths(before + [g]) == Paths(stack[..|stack| - 1]) + [g.path];
          assert Paths(stack) == Paths(stack[..|stack| - 1]) + [Last(stack).path];
          Ok(before + [g])
  }

  /** A named slice element starts a new, empty slice in the top group. */
  function StartSlice(top: Group, e: Element): Group
  {
    match e.sliceName
    case Some(name) => if name != "" then top.(currentSlice := Some(name), elements := Put(top.elements, name, [])) else top
    case None => top
  }

  /** The effect of one snapshot element. */
  function Step(st: State, e: Element): Result<State>
  {
    var popped := Pop(st.stack, st.sliceMap, e.path);
    if Opens(e) then Ok(State([NewGroup(e)] + popped.stack, popped.sliceMap))
    else if popped.stack != [] then
      var stack := [StartSlice(popped.stack[0], e)] + popped.stack[1..];
      match AnnotateAll(stack, e.path, FixedValue(e.types, e.fixed))
      case Crash(msg) => Crash(msg)
      case Ok(annotated) => Ok(State(annotated, popped.sliceMap))
    else Ok(popped)
  }

  /** The state after the first elements of the snapshot. */
  function Run(elements: seq<Element>): Result<State>
  {
    if elements == [] then Ok(State([], []))
    else match Run(elements[..|elements| - 1])
      case Crash(msg) => Crash(msg)
      case Ok(st) => Step(st, Last(elements))
  }

  /** `preprocessSlicing(fhirProfile)` on the snapshot's elements. */
  function SlicesOf(elements: seq<Element>): Result<SliceMap>
  {
    match Run(elements)
    case Crash(msg) => Crash(msg)
    case Ok(st) => Ok(Flush(st.stack, st.sliceMap))
  }

  // ---------------------------------------------------------------------
  // The walk itself.

  method PopGroups(stack: seq<Group>, sliceMap: SliceMap, path: string) returns (st: State)
    ensures st == Pop(stack, sliceMap, path)
  {
    var sliceStack := stack;
    var map_ := sliceMap;
    while |sliceStack| > 0 && !StartsWith(path, sliceStack[0].path)
      invariant Pop(sliceStack, map_, path) == Pop(stack, sliceMap, path)
      decreases |sliceStack|
    {
      var sliceGroup := sliceStack[0];
      sliceStack := sliceStack[1..];
      map_ := Put(map_, sliceGroup.path, sliceGroup.elements);
    }
    return State(sliceStack, map_);
  }

  method FlushGroups(stack: seq<Group>, sliceMap: SliceMap) returns (r: SliceMap)
    ensures r == Flush(stack, sliceMap)
  {
    var sliceStack := stack;
    r := sliceMap;
    while |sliceStack| > 0
      invariant Flush(sliceStack, r) == Flush(stack, sliceMap)
      decreases |sliceStack|
    {
      var sliceGroup := sliceStack[0];
      sliceStack := sliceStack[1..];
      r := Put(r, sliceGroup.path, sliceGroup.elements);
    }
  }

  method FindFixedValue(e: Element) returns (fixedValue: Option<Json>)
    ensures fixedValue == FixedValue(e.types, e.fixed)
  {
    fixedValue := None;
    for i := 0 to |e.types|
      invariant fixedValue == LastPresent(FixedOfEach(e.types, e.fixed)[..i])
    {
      LastPresentSnoc(FixedOfEach(e.types, e.fixed), i);
      var fieldName := FixedField(e.types[i].code);
      if fieldName in e.fixed && e.fixed[fieldName] != JNull {
        fixedValue := Some(e.fixed[fieldName]);
      }
    }
    assert FixedOfEach(e.types, e.fixed)[..|e.types|] == FixedOfEach(e.types, e.fixed);
  }

  lemma {:induction false} AnnotateAllCrash(stack: seq<Group>, j: nat, path: string, value: Option<Json>)
    requires j <= |stack| && AnnotateAll(stack[..j], path, value).Crash?
    ensures AnnotateAll(stack, path, value) == AnnotateAll(stack[..j], path, value)
    decreases |stack| - j
  {
    if j < |stack| {
      assert stack[..j + 1][..j] == stack[..j];
      AnnotateAllCrash(stack, j + 1, path, value);
    } else {
      assert stack[..j] == stack;
    }
  }

  lemma AnnotateAllSnoc(stack: seq<Group>, k: nat, path: string, value: Option<Json>)
    requires k < |stack| && AnnotateAll(stack[..k], path, value).Ok?
    ensures AnnotateAll(stack[..k + 1], path, value) ==
      match Annotate(stack[k], path, value)
      case Crash(msg) => Crash(msg)
      case Ok(g) => Ok(AnnotateAll(stack[..k], path, value).value + [g])
  {
    assert stack[..k + 1][..k] == stack[..k];
  }

  /** `sliceStack.forEach(...)`: each group in turn gets the element's
      discriminator value. */
  method AnnotateGroups(stack: seq<Group>, path: string, value: Option<Json>) returns (r: Result<seq<Group>>)
    ensures r == AnnotateAll(stack, path, value)
  {
    var done: seq<Group> := [];
    for k := 0 to |stack|
      invariant AnnotateAll(stack[..k], path, value) == Ok(done)
    {
      AnnotateAllSnoc(stack, k, path, value);
      var g := Annotate(stack[k], path, value);
      if g.Crash? {
        AnnotateAllCrash(stack, k + 1, path, value);
        return Crash(g.reason);
      }
      done := done + [g.value];
    }
    assert stack[..|stack|] == stack;
    return Ok(done);
  }

  method StepElement(st: State, e: Element) returns (r: Result<State>)
    ensures r == Step(st, e)
  {
    var popped := PopGroups(st.stack, st.sliceMap, e.path);
    if Opens(e) {
      var discriminators := [];
      for i := 0 to |e.slicing.value|
        invariant discriminators == Rewritten(e.path, e.slicing.value[..i])
      {
        assert e.slicing.value[..i + 1] == e.slicing.value[..i] + [e.slicing.value[i]];
        RewrittenSnoc(e.path, e.slicing.value[..i], e.slicing.value[i]);
        discriminators := discriminators + [e.path + "." + e.slicing.value[i]];
      }
      assert e.slicing.value[..|e.slicing.value|] == e.slicing.value;
      var sliceGroup := Group(e.path, discriminators, None, []);
      return Ok(State([sliceGroup] + popped.stack, popped.sliceMap));
    } else if |popped.stack| > 0 {
      var top := popped.stack[0];
      if e.sliceName.Some? && e.sliceName.value != "" {
        top := top.(currentSlice := e.sliceName, elements := Put(top.elements, e.sliceName.value, []));
      }
      var fixedValue := FindFixedValue(e);
      var annotated := AnnotateGroups([top] + popped.stack[1..], e.path, fixedValue);
      if annotated.Crash? {
        return Crash(annotated.reason);
      }
      return Ok(State(annotated.value, popped.sliceMap));
    }
    return Ok(popped);
  }

  lemma {:induction false} RewrittenSnoc(path: string, ds: seq<string>, d: string)
    ensures Rewritten(path, ds + [d]) == Rewritten(path, ds) + [path + "." + d]
  {
  }

  lemma {:induction false} RunCrash(elements: seq<Element>, j: nat)
    requires j <= |elements| && Run(elements[..j]).Crash?
    ensures Run(elements) == Run(elements[..j])
    decreases |elements| - j
  {
    if j < |elements| {
      assert elements[..j + 1][..j] == elements[..j];
      RunCrash(elements, j + 1);
    } else {
      assert elements[..j] == elements;
    }
  }

  lemma RunSnoc(elements: seq<Element>, i: nat)
    requires i < |elements| && Run(elements[..i]).Ok?
    ensures Run(elements[..i + 1]) == Step(Run(elements[..i]).value, elements[i])
  {
    assert elements[..i + 1][..i] == elements[..i];
  }

  /** `preprocessSlicing`: walks the snapshot with a stack of open slice
      groups and returns the slice map. */
  method PreprocessSlicing(elements: seq<Element>) returns (r: Result<SliceMap>)
    ensures r == SlicesOf(elements)
  {
    var st := State([], []);
    for i := 0 to |elements|
      invariant Run(elements[..i]) == Ok(st)
    {
      RunSnoc(elements, i);
      var next := StepElement(st, elements[i]);
      if next.Crash? {
        RunCrash(elements, i + 1);
        return Crash(next.reason);
      }
      st := next.value;
    }
    assert elements[..|elements|] == elements;
    var sliceMap := FlushGroups(st.stack, st.sliceMap);
    return Ok(sliceMap);
  }

  // ---------------------------------------------------------------------
  // Which slice groups are recorded.

  /** A group path is open on the stack or already in the slice map. */
  predicate Recorded(st: State, p: string)
  {
    p in Paths(st.stack) || HasKey(st.sliceMap, p)
  }

  lemma {:induction false} PopRecorded(stack: seq<Group>, sliceMap: SliceMap, path: string, p: string)
    ensures Recorded(Pop(stack, sliceMap, path), p) <==> Recorded(State(stack, sliceMap), p)
    decreases |stack|
  {
    if stack != [] && !StartsWith(path, stack[0].path) {
      PopRecorded(stack[1..], Put(sliceMap, stack[0].path, stack[0].elements), path, p);
      PutHasKey(sliceMap, stack[0].path, stack[0].elements, p);
      assert Paths(stack) == [stack[0].path] + Paths(stack[1..]);
    }
  }

  lemma {:induction false} FlushRecorded(stack: seq<Group>, sliceMap: SliceMap, p: string)
    ensures HasKey(Flush(stack, sliceMap), p) <==> Recorded(State(stack, sliceMap), p)
    decreases |stack|
  {
    if stack != [] {
      FlushRecorded(stack[1..], Put(sliceMap, stack[0].path, stack[0].elements), p);
      PutHasKey(sliceMap, stack[0].path, stack[0].elements, p);
      assert Paths(stack) == [stack[0].path] + Paths(stack[1..]);
    }
  }

  /** The stack after a step: the element's group pushed on the popped
      stack, or the popped stack with its groups' paths unchanged. */
  lemma StepStack(st: State, e: Element)
    requires Step(st, e).Ok?
    ensures Step(st, e).value.sliceMap == Pop(st.stack, st.sliceMap, e.path).sliceMap
    ensures Opens(e) ==> Paths(Step(st, e).value.stack) == [e.path] + Paths(Pop(st.stack, st.sliceMap, e.path).stack)
    ensures !Opens(e) ==> Paths(Step(st, e).value.stack) == Paths(Pop(st.stack, st.sliceMap, e.path).stack)
  {
    var popped := Pop(st.stack, st.sliceMap, e.path);
    if Opens(e) {
      assert Paths([NewGroup(e)] + popped.stack) == [e.path] + Paths(popped.stack);
    } else if popped.stack != [] {
      var stack := [StartSlice(popped.stack[0], e)] + popped.stack[1..];
      assert Paths(stack) == Paths(popped.stack);
    }
  }

  lemma RunLast(elements: seq<Element>)
    requires elements != [] && Run(elements).Ok?
    ensures Run(elements[..|elements| - 1]).Ok?
    ensures Run(elements) == Step(Run(elements[..|elements| - 1]).value, Last(elements))
  {
  }

  /** A step records what was recorded before, plus the element's own path
      when it opens a group. */
  lemma StepRecorded(st: State, e: Element, p: string)
    requires Step(st, e).Ok?
    ensures Recorded(Step(st, e).value, p) <==> Recorded(st, p) || (Opens(e) && p == e.path)
  {
    PopRecorded(st.stack, st.sliceMap, e.path, p);
    StepStack(st, e);
  }

  /** The paths of the elements that open a slice group, in order. */
  function OpenedPaths(elements: seq<Element>): (r: seq<string>)
    ensures forall p :: p in r <==> exists i :: 0 <= i < |elements| && Opens(elements[i]) && elements[i].path == p
  {
    if elements == [] then []
    else
      var init := elements[..|elements| - 1];
      var before := OpenedPaths(init);
      assert forall i :: 0 <= i < |init| ==> init[i] == elements[i];
      before + if Opens(Last(elements)) then [Last(elements).path] else []
  }

  /** After the first elements, the recorded group paths are exactly the
      paths of the elements that opened a group. */
  lemma {:induction false} RunRecorded(elements: seq<Element>, p: string)
    requires Run(elements).Ok?
    ensures Recorded(Run(elements).value, p) <==> p in OpenedPaths(elements)
  {
    if elements != [] {
      var init := elements[..|elements| - 1];
      RunLast(elements);
      RunRecorded(init, p);
      StepRecorded(Run(init).value, Last(elements), p);
    }
  }

  /** Every element that opens a slice group ends with its path in the
      slice map, and every key of the slice map is such an element's path:
      groups still open at the end of the snapshot are recorded too. */
  lemma SliceMapKeys(elements: seq<Element>, p: string)
    requires SlicesOf(elements).Ok?
    ensures HasKey(SlicesOf(elements).value, p) <==>
      exists i :: 0 <= i < |elements| && Opens(elements[i]) && elements[i].path == p
  {
    var st := Run(elements).value;
    FlushRecorded(st.stack, st.sliceMap, p);
    RunRecorded(elements, p);
  }

  // ---------------------------------------------------------------------
  // The stack is a chain of enclosing groups.

  /** Each group on the stack starts with the path of the group below it. */
  predicate Nested(paths: seq<string>)
  {
    forall i :: 0 <= i < |paths| - 1 ==> StartsWith(paths[i], paths[i + 1])
  }

  lemma StartsWithTrans(a: string, b: string, c: string)
    requires StartsWith(a, b) && StartsWith(b, c)
    ensures StartsWith(a, c)
  {
    assert a[..|c|] == a[..|b|][..|c|];
  }

  /** Every group of a nested stack whose top the path starts with is a
      prefix of that path. */
  lemma {:induction false} NestedInside(paths: seq<string>, path: string)
    requires Nested(paths) && paths != [] && StartsWith(path, paths[0])
    ensures forall i :: 0 <= i < |paths| ==> StartsWith(path, paths[i])
  {
    var i := 0;
    while i < |paths| - 1
      invariant 0 <= i < |paths|
      invariant forall j :: 0 <= j <= i ==> StartsWith(path, paths[j])
    {
      StartsWithTrans(path, paths[i], paths[i + 1]);
      i := i + 1;
    }
  }

  lemma {:induction false} PopNested(stack: seq<Group>, sliceMap: SliceMap, path: string)
    requires Nested(Paths(stack))
    ensures Nested(Paths(Pop(stack, sliceMap, path).stack))
    decreases |stack|
  {
    if stack != [] && !StartsWith(path, stack[0].path) {
      assert Paths(stack[1..]) == Paths(stack)[1..];
      PopNested(stack[1..], Put(sliceMap, stack[0].path, stack[0].elements), path);
    }
  }

  /** The paths after pushing a group inside the top one stay a chain, all
      prefixes of the new path. */
  lemma PushInside(ps: seq<string>, path: string)
    requires Nested(ps) && (ps != [] ==> StartsWith(path, ps[0]))
    ensures Nested([path] + ps)
    ensures forall i :: 0 <= i < |[path] + ps| ==> StartsWith(path, ([path] + ps)[i])
  {
    if ps != [] {
      NestedInside(ps, path);
    }
    assert path[..|path|] == path;
  }

  /** After each element the open groups form a chain, and every open
      group's path is a prefix of the element's path. */
  lemma StepNested(st: State, e: Element)
    requires Nested(Paths(st.stack)) && Step(st, e).Ok?
    ensures Nested(Paths(Step(st, e).value.stack))
    ensures forall i :: 0 <= i < |Step(st, e).value.stack| ==> StartsWith(e.path, Step(st, e).value.stack[i].path)
  {
    var ps := Paths(Pop(st.stack, st.sliceMap, e.path).stack);
    PopNested(st.stack, st.sliceMap, e.path);
    StepStack(st, e);
    var r := Paths(Step(st, e).value.stack);
    if Opens(e) {
      PushInside(ps, e.path);
    } else if ps != [] {
      NestedInside(ps, e.path);
    }
    assert forall i :: 0 <= i < |r| ==> StartsWith(e.path, r[i]);
  }

  lemma {:induction false} RunNested(elements: seq<Element>)
    requires Run(elements).Ok?
    ensures Nested(Paths(Run(elements).value.stack))
    ensures elements != [] ==> forall i :: 0 <= i < |Run(elements).value.stack| ==>
      StartsWith(Last(elements).path, Run(elements).value.stack[i].path)
  {
    if elements != [] {
      var init := elements[..|elements| - 1];
      RunLast(elements);
      RunNested(init);
      StepNested(Run(init).value, Last(elements));
    }
  }
}
