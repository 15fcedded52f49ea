/** The planning walk of `writeFromFhirProfile` (lib/generateClass.js): the
    generated `fromFHIR` reads a profiled resource by walking the profile's
    snapshot elements with a stack of enclosing elements, opening a block
    (a loop over a list, a first-item check or a null check) for every
    element that has, or contains, an SHR mapping, and planning one
    assignment per mapping. The model records the blocks and assignments
    as events, not the JavaScript text they are written as. */
module FromFhir {
  import opened Wrappers
  import opened Strings
  import opened ShrModels
  import opened Fhir
  import opened OrderedMap
  import opened PathHelpers
  import opened Mappings
  import opened Slicing
  import opened Choices

  /** An entry of `elementHierarchy`: the element's path and max, whether a
      block was opened for it, and the base paths that descendants rewrite
      their FHIR and SHR paths against. */
  datatype Frame = Frame(path: string, max: string, didOpenBlock: bool, fhirBasePath: Option<string>,
                         shrElementPath: Option<string>, shrBasePath: Option<string>)

  /** The block opened for an element: a loop over a list, a check of a
      list's first item, or a null check. */
  datatype Block =
    | ForEach(variable: string, list: string)
    | FirstItem(list: string, item: string)
    | NullCheck(path: string)

  /** What the walk writes, in order. */
  datatype Emit =
    | Open(block: Block)
    | Close
    | AssignValue(valueIsList: bool, fhirIsList: bool, fhirPath: string)
    | ValueMissing
    | InitList(shrPath: string)
    | AssignField(fieldIsList: bool, fhirIsList: bool, fhirPath: string, fieldMapPath: seq<string>,
                  shrPath: string, slicing: Option<seq<Constraint>>)
    | PushTo(list: string, item: string)

  datatype Walk = Walk(stack: seq<Frame>, out: seq<Emit>)

  predicate Truthy(s: Option<string>)
  {
    s.Some? && s.value != ""
  }

  // ---------------------------------------------------------------------
  // Popping.

  /** How many frames are popped before the element at `path`: the top is
      popped while its path is not a prefix of `path`. */
  function PopCount(stack: seq<Frame>, path: string): (k: nat)
    ensures k <= |stack|
    ensures forall j :: 0 <= j < k ==> !StartsWith(path, stack[j].path)
    ensures k < |stack| ==> StartsWith(path, stack[k].path)
  {
    if stack != [] && !StartsWith(path, stack[0].path) then 1 + PopCount(stack[1..], path) else 0
  }

  /** The closing of every popped frame that opened a block. */
  function Closes(frames: seq<Frame>): (r: seq<Emit>)
    ensures forall x :: x in r ==> x == Close
  {
    if frames == [] then [] else (if frames[0].didOpenBlock then [Close] else []) + Closes(frames[1..])
  }

  function NewFrame(e: Element): Frame
  {
    Frame(e.path, e.max, false, None, None, None)
  }

  /** Some frame of the stack (the element's own included) has max `0`. */
  predicate AnyMaxZero(stack: seq<Frame>)
  {
    exists k :: 0 <= k < |stack| && stack[k].max == "0"
  }

  // ---------------------------------------------------------------------
  // Looking upward for base paths.

  /** The first frame from index `k` on with a FHIR base path. */
  function FhirBaseFrom(stack: seq<Frame>, k: nat): (r: Option<nat>)
    ensures r.Some? ==> k <= r.value < |stack| && Truthy(stack[r.value].fhirBasePath)
    ensures r.Some? ==> forall j :: k <= j < r.value ==> !Truthy(stack[j].fhirBasePath)
    ensures r.None? ==> forall j :: k <= j < |stack| ==> !Truthy(stack[j].fhirBasePath)
    decreases |stack| - k
  {
    if k >= |stack| then None
    else if Truthy(stack[k].fhirBasePath) then Some(k)
    else FhirBaseFrom(stack, k + 1)
  }

  /** The first frame from index `k` on with an SHR base path. */
  function ShrBaseFrom(stack: seq<Frame>, k: nat): (r: Option<nat>)
    ensures r.Some? ==> k <= r.value < |stack| && Truthy(stack[r.value].shrBasePath)
    ensures r.Some? ==> forall j :: k <= j < r.value ==> !Truthy(stack[j].shrBasePath)
    ensures r.None? ==> forall j :: k <= j < |stack| ==> !Truthy(stack[j].shrBasePath)
    decreases |stack| - k
  {
    if k >= |stack| then None
    else if Truthy(stack[k].shrBasePath) then Some(k)
    else ShrBaseFrom(stack, k + 1)
  }

  /** The FHIR path of an element: its path with the nearest ancestor's path
      (the element itself excluded) replaced by that ancestor's base path. */
  function FhirElementPath(stack: seq<Frame>, path: string): string
  {
    match FhirBaseFrom(stack, 1)
    case None => path
    case Some(j) => ReplaceFirst(path, stack[j].path, stack[j].fhirBasePath.value)
  }

  /** `String(x)` of an optional path: an unset path reads `undefined`. */
  function TextOf(s: Option<string>): string
  {
    match s
    case None => "undefined"
    case Some(t) => t
  }

  /** The SHR path of an assignment, rewritten in the same way against the
      nearest ancestor with an SHR base path. */
  function ShrElementPath(stack: seq<Frame>, path: string): string
  {
    match ShrBaseFrom(stack, 1)
    case None => path
    case Some(j) => ReplaceFirst(path, TextOf(stack[j].shrElementPath), stack[j].shrBasePath.value)
  }

  // ---------------------------------------------------------------------
  // Blocks.

  /** Element `j` lies below element `i` (by the `.` boundary) and has a
      mapping. */
  predicate IsMappedChild(planned: seq<Planned>, i: nat, j: nat)
    requires i < |planned| && j < |planned|
  {
    j != i && StartsWith(planned[j].element.path, planned[i].element.path + ".") && |planned[j].mappings| > 0
  }

  /** The first mapped child of element `i` from index `j` on. */
  function FirstMappedChild(planned: seq<Planned>, i: nat, j: nat): (r: Option<nat>)
    requires i < |planned|
    ensures r.Some? ==> j <= r.value < |planned| && IsMappedChild(planned, i, r.value)
    ensures r.Some? ==> forall c :: j <= c < r.value ==> !IsMappedChild(planned, i, c)
    ensures r.None? ==> forall c :: j <= c < |planned| ==> !IsMappedChild(planned, i, c)
    decreases |planned| - j
  {
    if j >= |planned| then None
    else if IsMappedChild(planned, i, j) then Some(j)
    else FirstMappedChild(planned, i, j + 1)
  }

  /** The element itself or one of its children has a mapping. */
  predicate NeedsBlock(planned: seq<Planned>, i: nat)
    requires i < |planned|
  {
    |planned[i].mappings| > 0 || FirstMappedChild(planned, i, 0).Some?
  }

  /** A list in FHIR: the element's own max or its base max allows more
      than one. */
  predicate FhirIsList(e: Element)
  {
    MaxIsList(e.max) || (e.baseMax.Some? && MaxIsList(e.baseMax.value))
  }

  /** Whether the SHR side is a list: the cardinality of the field of the
      element's first mapping, or else of its first mapped child's. */
  function ShrIsList(planned: seq<Planned>, i: nat): Result<bool>
    requires i < |planned|
  {
    var ms := if |planned[i].mappings| > 0 then planned[i].mappings
      else match FirstMappedChild(planned, i, 0)
        case Some(c) => planned[c].mappings
        case None => [];
    if ms == [] then Ok(MaxIsList(planned[i].element.max))
    else match ms[0].field
      case None => Crash("the first mapping has no field")
      case Some(f) => Ok(IsList(f.card))
  }

  /** The block opened for element `i`, the updated top frame, and the FHIR
      path the element's assignments read from. */
  function OpenBlock(stack: seq<Frame>, planned: seq<Planned>, i: nat): (r: Result<(Frame, Block, string)>)
    requires stack != [] && i < |planned|
    ensures r.Ok? ==> r.value.0 == stack[0].(didOpenBlock := true, fhirBasePath := r.value.0.fhirBasePath)
    ensures r.Ok? ==> (r.value.1.ForEach? || r.value.1.FirstItem?) == FhirIsList(planned[i].element)
    ensures r.Ok? && FhirIsList(planned[i].element) ==>
      ShrIsList(planned, i).Ok? && r.value.1.ForEach? == ShrIsList(planned, i).value && r.value.0.fhirBasePath == Some(r.value.2)
  {
    var e := planned[i].element;
    var path := FhirElementPath(stack, e.path);
    if FhirIsList(e) then
      match ShrIsList(planned, i)
      case Crash(m) => Crash(m)
      case Ok(shrIsList) =>
        if shrIsList then
          var base := CreateVariableName(path);
          Ok((stack[0].(fhirBasePath := Some(base), didOpenBlock := true), ForEach(base, path), base))
        else
          var base := path + "[0]";
          Ok((stack[0].(fhirBasePath := Some(base), didOpenBlock := true), FirstItem(path, base), base))
    else Ok((stack[0].(didOpenBlock := true), NullCheck(path), path))
  }

  // ---------------------------------------------------------------------
  // Assignments.

  /** `sliceMap[path] && sliceMap[path][sliceName]`. */
  function SliceFor(sliceMap: SliceMap, path: string, sliceName: Option<string>): Option<seq<Constraint>>
  {
    match Get(sliceMap, path)
    case None => None
    case Some(slices) => Get(slices, TextOf(sliceName))
  }

  /** Walk events other than opening and closing blocks. */
  predicate IsAssignment(x: Emit)
  {
    !x.Open? && !x.Close?
  }

  /** The events for one mapping of element `e`, and the frames after it;
      only the top frame's SHR paths change. */
  function AssignOne(stack: seq<Frame>, m: Resolved, def: DataElement, e: Element, fhirIsList: bool,
                     fhirPath: string, sliceMap: SliceMap): (r: Result<(seq<Frame>, seq<Emit>)>)
    requires stack != []
    ensures r.Ok? ==> |r.value.0| == |stack| && r.value.0[1..] == stack[1..]
    ensures r.Ok? ==> r.value.0[0] == stack[0].(shrElementPath := r.value.0[0].shrElementPath, shrBasePath := r.value.0[0].shrBasePath)
    ensures r.Ok? ==> forall x :: x in r.value.1 ==> IsAssignment(x)
  {
    if m.expr == ValueMapping then
      match def.value
      case Some(v) =>
        if IsIdentifiable(v) && IsPrimitive(v.identifier) then Ok((stack, [AssignValue(IsList(v.card), fhirIsList, e.path)]))
        else Ok((stack, [ValueMissing]))
      case None => Ok((stack, [ValueMissing]))
    else match m.field
      case None => Crash("a mapping without a field")
      case Some(field) =>
        var shrPath := ShrElementPath(stack, "inst." + m.classMethodChain);
        var top := stack[0].(shrElementPath := Some(shrPath));
        var slicing := SliceFor(sliceMap, top.path, e.sliceName);
        if IsList(field.card) then
          var base := CreateVariableName(shrPath);
          Ok(([top.(shrBasePath := Some(base))] + stack[1..],
              [InitList(shrPath), AssignField(true, fhirIsList, fhirPath, m.fieldMapPath, base, slicing), PushTo(shrPath, base)]))
        else
          Ok(([top] + stack[1..], [AssignField(false, fhirIsList, fhirPath, m.fieldMapPath, shrPath, slicing)]))
  }

  /** The events for the first mappings of element `e`, in order. */
  function AssignAll(stack: seq<Frame>, ms: seq<Resolved>, def: DataElement, e: Element, fhirIsList: bool,
                     fhirPath: string, sliceMap: SliceMap): (r: Result<(seq<Frame>, seq<Emit>)>)
    requires stack != []
    ensures r.Ok? ==> |r.value.0| == |stack| && r.value.0[1..] == stack[1..]
    ensures r.Ok? ==> r.value.0[0].path == stack[0].path && r.value.0[0].didOpenBlock == stack[0].didOpenBlock
    ensures r.Ok? ==> forall x :: x in r.value.1 ==> IsAssignment(x)
  {
    if ms == [] then Ok((stack, []))
    else match AssignAll(stack, ms[..|ms| - 1], def, e, fhirIsList, fhirPath, sliceMap)
      case Crash(msg) => Crash(msg)
      case Ok(before) =>
        match AssignOne(before.0, Last(ms), def, e, fhirIsList, fhirPath, sliceMap)
        case Crash(msg) => Crash(msg)
        case Ok(now) => Ok((now.0, before.1 + now.1))
  }

  // ---------------------------------------------------------------------
  // The walk.

  /** The frames after popping for element `i` and pushing it, and the
      closing events of the popped frames. */
  function Entered(st: Walk, e: Element): Walk
  {
    var k := PopCount(st.stack, e.path);
    Walk([NewFrame(e)] + st.stack[k..], st.out + Closes(st.stack[..k]))
  }

  /** Element `i` is skipped: it or an enclosing element has max `0`. */
  predicate Skipped(entered: Walk, e: Element)
  {
    e.max == "0" || AnyMaxZero(entered.stack)
  }

  /** The top frame, the block opened (if any) and the FHIR path for the
      assignments of element `i`. */
  function OpenStep(stack: seq<Frame>, planned: seq<Planned>, i: nat): (r: Result<(Frame, seq<Emit>, string)>)
    requires stack != [] && i < |planned|
    ensures r.Ok? ==> r.value.0.path == stack[0].path && r.value.0.didOpenBlock == (r.value.1 != [] || stack[0].didOpenBlock)
    ensures r.Ok? ==> (r.value.1 != [] <==> NeedsBlock(planned, i)) && |r.value.1| <= 1
    ensures r.Ok? && r.value.1 != [] ==> r.value.1[0].Open?
  {
    if NeedsBlock(planned, i) then
      match OpenBlock(stack, planned, i)
      case Crash(msg) => Crash(msg)
      case Ok(o) => Ok((o.0, [Open(o.1)], o.2))
    else Ok((stack[0], [], planned[i].element.path))
  }

  /** The effect of element `i` of the planned snapshot. The first element
      (the resource itself) is only pushed, with the base path `fhir`. */
  function Step(st: Walk, planned: seq<Planned>, i: nat, def: DataElement, sliceMap: SliceMap): Result<Walk>
    requires i < |planned|
  {
    var e := planned[i].element;
    if i == 0 then Ok(Walk([NewFrame(e).(fhirBasePath := Some("fhir"))] + st.stack, st.out))
    else
      var entered := Entered(st, e);
      if Skipped(entered, e) then Ok(entered)
      else
        var fhirIsList := FhirIsList(e);
        match OpenStep(entered.stack, planned, i)
        case Crash(msg) => Crash(msg)
        case Ok(o) =>
          var stack := [o.0] + entered.stack[1..];
          match AssignAll(stack, planned[i].mappings, def, e, fhirIsList, o.2, sliceMap)
          case Crash(msg) => Crash(msg)
          case Ok(a) => Ok(Walk(a.0, entered.out + o.1 + a.1))
  }

  /** The walk over the first `n` elements. */
  function Run(planned: seq<Planned>, n: nat, def: DataElement, sliceMap: SliceMap): Result<Walk>
    requires n <= |planned|
  {
    if n == 0 then Ok(Walk([], []))
    else match Run(planned, n - 1, def, sliceMap)
      case Crash(msg) => Crash(msg)
      case Ok(st) => Step(st, planned, n - 1, def, sliceMap)
  }

  /** The events of the whole walk, with the blocks still open at the end
      closed. */
  function FromFhirPlan(planned: seq<Planned>, def: DataElement, sliceMap: SliceMap): Result<seq<Emit>>
  {
    match Run(planned, |planned|, def, sliceMap)
    case Crash(msg) => Crash(msg)
    case Ok(st) => Ok(st.out + Closes(st.stack))
  }

  // ---------------------------------------------------------------------
  // The stack rule and the skip rule.

  /** Before each element other than the first, the stack is popped while
      its top is not a prefix of the element's path, then the element is
      pushed; the popped frames' blocks are closed first. */
  lemma StepPushes(st: Walk, planned: seq<Planned>, i: nat, def: DataElement, sliceMap: SliceMap)
    requires 0 < i < |planned| && Step(st, planned, i, def, sliceMap).Ok?
    ensures var k := PopCount(st.stack, planned[i].element.path);
      var r := Step(st, planned, i, def, sliceMap).value;
      && r.stack != [] && r.stack[0].path == planned[i].element.path && r.stack[1..] == st.stack[k..]
      && st.out + Closes(st.stack[..k]) <= r.out
  {
    var e := planned[i].element;
    var entered := Entered(st, e);
    if !Skipped(entered, e) {
      var o := OpenStep(entered.stack, planned, i).value;
      var stack := [o.0] + entered.stack[1..];
      var a := AssignAll(stack, planned[i].mappings, def, e, FhirIsList(e), o.2, sliceMap).value;
      assert a.0[1..] == stack[1..] == entered.stack[1..];
    }
  }

  /** An element whose own max or an enclosing element's max is `0` is
      skipped: only the popped frames' blocks are closed, and no block or
      assignment is written for it. */
  lemma SkipRule(st: Walk, planned: seq<Planned>, i: nat, def: DataElement, sliceMap: SliceMap)
    requires 0 < i < |planned|
    requires var k := PopCount(st.stack, planned[i].element.path);
      planned[i].element.max == "0" || exists j :: k <= j < |st.stack| && st.stack[j].max == "0"
    ensures Step(st, planned, i, def, sliceMap) == Ok(Entered(st, planned[i].element))
  {
    var e := planned[i].element;
    var k := PopCount(st.stack, e.path);
    var entered := Entered(st, e);
    if e.max != "0" {
      var j :| k <= j < |st.stack| && st.stack[j].max == "0";
      assert entered.stack[j - k + 1] == st.stack[j];
    }
  }

  /** An element that is not skipped gets a block exactly when it or one of
      its children has a mapping; everything else it writes is an
      assignment. */
  lemma BlockRule(st: Walk, planned: seq<Planned>, i: nat, def: DataElement, sliceMap: SliceMap)
    requires 0 < i < |planned| && !Skipped(Entered(st, planned[i].element), planned[i].element)
    requires Step(st, planned, i, def, sliceMap).Ok?
    ensures var before := Entered(st, planned[i].element).out;
      var r := Step(st, planned, i, def, sliceMap).value;
      && before <= r.out
      && (NeedsBlock(planned, i) ==> r.out[|before|].Open? && forall x :: x in r.out[|before| + 1..] ==> IsAssignment(x))
      && (!NeedsBlock(planned, i) ==> forall x :: x in r.out[|before|..] ==> IsAssignment(x))
  {
    var e := planned[i].element;
    var entered := Entered(st, e);
    var o := OpenStep(entered.stack, planned, i).value;
    var stack := [o.0] + entered.stack[1..];
    var a := AssignAll(stack, planned[i].mappings, def, e, FhirIsList(e), o.2, sliceMap).value;
    var r := Step(st, planned, i, def, sliceMap).value;
    assert r.out == entered.out + o.1 + a.1;
    assert r.out[|entered.out|..] == o.1 + a.1;
    if NeedsBlock(planned, i) {
      assert r.out[|entered.out| + 1..] == a.1;
    }
  }

  // ---------------------------------------------------------------------
  // Blocks are balanced.

  function Opened(xs: seq<Emit>): nat
  {
    if xs == [] then 0 else (if xs[0].Open? then 1 else 0) + Opened(xs[1..])
  }

  function Closed(xs: seq<Emit>): nat
  {
    if xs == [] then 0 else (if xs[0].Close? then 1 else 0) + Closed(xs[1..])
  }

  /** The number of frames on the stack whose block is still open. */
  function OpenFrames(stack: seq<Frame>): nat
  {
    if stack == [] then 0 else (if stack[0].didOpenBlock then 1 else 0) + OpenFrames(stack[1..])
  }

  lemma {:induction false} CountAppend(a: seq<Emit>, b: seq<Emit>)
    ensures Opened(a + b) == Opened(a) + Opened(b)
    ensures Closed(a + b) == Closed(a) + Closed(b)
  {
    if a != [] {
      CountAppend(a[1..], b);
      assert (a + b)[1..] == a[1..] + b;
    } else {
      assert a + b == b;
    }
  }

  lemma {:induction false} AssignmentsCountNothing(xs: seq<Emit>)
    requires forall x :: x in xs ==> IsAssignment(x)
    ensures Opened(xs) == 0 && Closed(xs) == 0
  {
    if xs != [] {
      assert xs[0] in xs;
      AssignmentsCountNothing(xs[1..]);
    }
  }

  lemma {:induction false} ClosesCount(frames: seq<Frame>)
    ensures Opened(Closes(frames)) == 0 && Closed(Closes(frames)) == OpenFrames(frames)
  {
    if frames != [] {
      ClosesCount(frames[1..]);
      CountAppend(if frames[0].didOpenBlock then [Close] else [], Closes(frames[1..]));
    }
  }

  lemma {:induction false} OpenFramesSplit(frames: seq<Frame>, k: nat)
    requires k <= |frames|
    ensures OpenFrames(frames) == OpenFrames(frames[..k]) + OpenFrames(frames[k..])
  {
    if k > 0 {
      OpenFramesSplit(frames[1..], k - 1);
      assert frames[1..][..k - 1] == frames[..k][1..];
      assert frames[1..][k - 1..] == frames[k..];
    }
  }

  /** Every block opened so far is either closed or belongs to a frame
      still on the stack. */
  predicate Balanced(w: Walk)
  {
    Opened(w.out) == Closed(w.out) + OpenFrames(w.stack)
  }

  lemma StepBalanced(st: Walk, planned: seq<Planned>, i: nat, def: DataElement, sliceMap: SliceMap)
    requires i < |planned| && Balanced(st) && Step(st, planned, i, def, sliceMap).Ok?
    ensures Balanced(Step(st, planned, i, def, sliceMap).value)
  {
    var e := planned[i].element;
    if i == 0 {
      var f := NewFrame(e).(fhirBasePath := Some("fhir"));
      assert OpenFrames([f] + st.stack) == OpenFrames(st.stack);
    } else {
      var k := PopCount(st.stack, e.path);
      var entered := Entered(st, e);
      ClosesCount(st.stack[..k]);
      CountAppend(st.out, Closes(st.stack[..k]));
      OpenFramesSplit(st.stack, k);
      assert OpenFrames(entered.stack) == OpenFrames(st.stack[k..]);
      if !Skipped(entered, e) {
        var o := OpenStep(entered.stack, planned, i).value;
        var stack := [o.0] + entered.stack[1..];
        var a := AssignAll(stack, planned[i].mappings, def, e, FhirIsList(e), o.2, sliceMap).value;
        AssignmentsCountNothing(a.1);
        CountAppend(entered.out, o.1);
        CountAppend(entered.out + o.1, a.1);
        if o.1 != [] {
          assert o.1 == [o.1[0]];
        }
        assert Opened(o.1) == |o.1| && Closed(o.1) == 0;
        assert a.0 == [a.0[0]] + a.0[1..];
        assert OpenFrames(a.0) == (if a.0[0].didOpenBlock then 1 else 0) + OpenFrames(entered.stack[1..]);
      }
    }
  }

  lemma {:induction false} RunBalanced(planned: seq<Planned>, n: nat, def: DataElement, sliceMap: SliceMap)
    requires n <= |planned| && Run(planned, n, def, sliceMap).Ok?
    ensures Balanced(Run(planned, n, def, sliceMap).value)
  {
    if n > 0 {
      RunBalanced(planned, n - 1, def, sliceMap);
      StepBalanced(Run(planned, n - 1, def, sliceMap).value, planned, n - 1, def, sliceMap);
    }
  }

  /** Every block the walk opens is closed exactly once. */
  lemma BlocksBalanced(planned: seq<Planned>, def: DataElement, sliceMap: SliceMap)
    requires FromFhirPlan(planned, def, sliceMap).Ok?
    ensures Opened(FromFhirPlan(planned, def, sliceMap).value) == Closed(FromFhirPlan(planned, def, sliceMap).value)
  {
    var st := Run(planned, |planned|, def, sliceMap).value;
    RunBalanced(planned, |planned|, def, sliceMap);
    ClosesCount(st.stack);
    CountAppend(st.out, Closes(st.stack));
  }

  // ---------------------------------------------------------------------
  // The whole of `writeFromFhirProfile`.

  /** The planned elements of `preProcessFieldMappings`: each element with
      its resolved SHR mappings, when every element's mappings resolve. */
  function PlannedOf(elements: seq<Element>, def: DataElement, specs: Specs): (r: Result<seq<Planned>>)
    ensures r.Ok? ==> |r.value| == |elements| && forall i :: 0 <= i < |elements| ==> r.value[i].element == elements[i]
  {
    if forall i :: 0 <= i < |elements| ==> ElementMappings(elements[i], def, specs).Ok? then
      Ok(seq(|elements|, i requires 0 <= i < |elements| => Planned(elements[i], ElementMappings(elements[i], def, specs).value)))
    else Crash("an SHR mapping did not resolve")
  }

  /** The events of `writeFromFhirProfile` for a profile: the slices are
      collected from the snapshot, the choice elements expanded, the SHR
      mappings resolved, and the expanded elements walked. */
  function FromFhirProfile(profile: Profile, def: DataElement, specs: Specs, profiles: seq<Profile>): Result<seq<Emit>>
  {
    match SlicesOf(profile.elements)
    case Crash(msg) => Crash(msg)
    case Ok(sliceMap) =>
      match PreProcessChoiceFields(profile.elements, specs, profiles)
      case Crash(msg) => Crash(msg)
      case Ok(elements) =>
        match PlannedOf(elements, def, specs)
        case Crash(msg) => Crash(msg)
        case Ok(planned) => FromFhirPlan(planned, def, sliceMap)
  }

  method WriteFromFhirProfile(profile: Profile, def: DataElement, specs: Specs, profiles: seq<Profile>)
    returns (r: Result<seq<Emit>>)
    ensures r.Ok? <==> FromFhirProfile(profile, def, specs, profiles).Ok?
    ensures r.Ok? ==> r == FromFhirProfile(profile, def, specs, profiles)
  {
    var sliceMap := PreprocessSlicing(profile.elements);
    if sliceMap.Crash? {
      return Crash(sliceMap.reason);
    }
    var allFhirElements := PreProcessChoiceFields(profile.elements, specs, profiles);
    if allFhirElements.Crash? {
      return Crash(allFhirElements.reason);
    }
    var planned := PreProcessFieldMappings(allFhirElements.value, specs, def);
    if planned.Crash? {
      return Crash(planned.reason);
    }
    assert planned.value == PlannedOf(allFhirElements.value, def, specs).value;
    r := WalkPlanned(planned.value, def, sliceMap.value);
  }

  lemma {:induction false} ClosesAppend(frames: seq<Frame>, k: nat)
    requires k < |frames|
    ensures Closes(frames[..k + 1]) == Closes(frames[..k]) + (if frames[k].didOpenBlock then [Close] else [])
  {
    if k > 0 {
      ClosesAppend(frames[1..], k - 1);
      assert frames[1..][..k] == frames[..k + 1][1..];
      assert frames[1..][..k - 1] == frames[..k][1..];
    }
  }

  /** The popping loop: pops while the top is not a prefix of the path,
      closing each popped block. */
  method PopFrames(stack: seq<Frame>, path: string) returns (rest: seq<Frame>, closes: seq<Emit>)
    ensures rest == stack[PopCount(stack, path)..] && closes == Closes(stack[..PopCount(stack, path)])
  {
    rest := stack;
    closes := [];
    ghost var k := 0;
    while |rest| > 0 && !StartsWith(path, rest[0].path)
      invariant k <= |stack| && rest == stack[k..] && closes == Closes(stack[..k])
      invariant PopCount(stack, path) == k + PopCount(rest, path)
      decreases |rest|
    {
      var parentContext := rest[0];
      ClosesAppend(stack, k);
      if parentContext.didOpenBlock {
        closes := closes + [Close];
      } else {
        assert closes + [] == closes;
      }
      rest := rest[1..];
      k := k + 1;
    }
  }

  /** The upward search for the nearest ancestor with a FHIR base path. */
  method FindFhirElementPath(stack: seq<Frame>, path: string) returns (fhirElementPath: string)
    ensures fhirElementPath == FhirElementPath(stack, path)
  {
    fhirElementPath := path;
    var i := 1;
    while i < |stack|
      invariant 1 <= i && FhirBaseFrom(stack, i) == FhirBaseFrom(stack, 1)
      decreases |stack| - i
    {
      var parentBasePath := stack[i].fhirBasePath;
      if Truthy(parentBasePath) {
        fhirElementPath := ReplaceFirst(path, stack[i].path, parentBasePath.value);
        return;
      }
      i := i + 1;
    }
  }

  /** Popping for an element and pushing it. */
  method EnterElement(st: Walk, element: Element) returns (w: Walk)
    ensures w == Entered(st, element)
  {
    var rest, closes := PopFrames(st.stack, element.path);
    return Walk([NewFrame(element)] + rest, st.out + closes);
  }

  /** Opening the block of a non-skipped element, when it needs one. */
  method OpenElement(elementHierarchy: seq<Frame>, planned: seq<Planned>, i: nat)
    returns (r: Result<(Frame, seq<Emit>, string)>)
    requires elementHierarchy != [] && i < |planned|
    ensures r == OpenStep(elementHierarchy, planned, i)
  {
    var element := planned[i].element;
    var top := elementHierarchy[0];
    if !(|planned[i].mappings| > 0 || FirstMappedChild(planned, i, 0).Some?) {
      return Ok((top, [], element.path));
    }
    var fhirElementPath := FindFhirElementPath(elementHierarchy, element.path);
    var block;
    if FhirIsList(element) {
      var shrIsList := ShrIsList(planned, i);
      if shrIsList.Crash? {
        return Crash(shrIsList.reason);
      }
      var basePath;
      if shrIsList.value {
        basePath := CreateVariableName(fhirElementPath);
        block := ForEach(basePath, fhirElementPath);
      } else {
        basePath := fhirElementPath + "[0]";
        block := FirstItem(fhirElementPath, basePath);
      }
      top := top.(fhirBasePath := Some(basePath));
      fhirElementPath := basePath;
    } else {
      block := NullCheck(fhirElementPath);
    }
    top := top.(didOpenBlock := true);
    return Ok((top, [Open(block)], fhirElementPath));
  }

  /** The loop over the element's mappings. */
  method AssignMappings(stack: seq<Frame>, ms: seq<Resolved>, def: DataElement, element: Element, fhirIsList: bool,
                        fhirElementPath: string, sliceMap: SliceMap) returns (r: Result<(seq<Frame>, seq<Emit>)>)
    requires stack != []
    ensures r == AssignAll(stack, ms, def, element, fhirIsList, fhirElementPath, sliceMap)
  {
    var elementHierarchy := stack;
    var emitted := [];
    for j := 0 to |ms|
      invariant AssignAll(stack, ms[..j], def, element, fhirIsList, fhirElementPath, sliceMap) == Ok((elementHierarchy, emitted))
      invariant |elementHierarchy| == |stack|
    {
      assert ms[..j + 1][..j] == ms[..j];
      var now := AssignOne(elementHierarchy, ms[j], def, element, fhirIsList, fhirElementPath, sliceMap);
      if now.Crash? {
        AssignAllCrash(stack, ms, j + 1, def, element, fhirIsList, fhirElementPath, sliceMap);
        return Crash(now.reason);
      }
      elementHierarchy := now.value.0;
      emitted := emitted + now.value.1;
    }
    assert ms[..|ms|] == ms;
    return Ok((elementHierarchy, emitted));
  }

  /** One element of the walk. */
  method StepElement(st: Walk, planned: seq<Planned>, i: nat, def: DataElement, sliceMap: SliceMap)
    returns (r: Result<Walk>)
    requires i < |planned|
    ensures r == Step(st, planned, i, def, sliceMap)
  {
    var element := planned[i].element;
    if i == 0 {
      return Ok(Walk([NewFrame(element).(fhirBasePath := Some("fhir"))] + st.stack, st.out));
    }
    var entered := EnterElement(st, element);
    if element.max == "0" || exists k :: 0 <= k < |entered.stack| && entered.stack[k].max == "0" {
      return Ok(entered);
    }
    var fhirIsList := FhirIsList(element);
    var blockOpened := OpenElement(entered.stack, planned, i);
    if blockOpened.Crash? {
      return Crash(blockOpened.reason);
    }
    var o := blockOpened.value;
    var assignments := AssignMappings([o.0] + entered.stack[1..], planned[i].mappings, def, element, fhirIsList, o.2, sliceMap);
    if assignments.Crash? {
      return Crash(assignments.reason);
    }
    return Ok(Walk(assignments.value.0, entered.out + o.1 + assignments.value.1));
  }

  lemma {:induction false} AssignAllCrash(stack: seq<Frame>, ms: seq<Resolved>, j: nat, def: DataElement, e: Element,
                                          fhirIsList: bool, fhirPath: string, sliceMap: SliceMap)
    requires stack != [] && j <= |ms| && AssignAll(stack, ms[..j], def, e, fhirIsList, fhirPath, sliceMap).Crash?
    ensures AssignAll(stack, ms, def, e, fhirIsList, fhirPath, sliceMap) == AssignAll(stack, ms[..j], def, e, fhirIsList, fhirPath, sliceMap)
    decreases |ms| - j
  {
    if j < |ms| {
      assert ms[..j + 1][..j] == ms[..j];
      AssignAllCrash(stack, ms, j + 1, def, e, fhirIsList, fhirPath, sliceMap);
    } else {
      assert ms[..j] == ms;
    }
  }

  lemma {:induction false} RunCrash(planned: seq<Planned>, j: nat, def: DataElement, sliceMap: SliceMap)
    requires j <= |planned| && Run(planned, j, def, sliceMap).Crash?
    ensures Run(planned, |planned|, def, sliceMap) == Run(planned, j, def, sliceMap)
    decreases |planned| - j
  {
    if j < |planned| {
      RunCrash(planned, j + 1, def, sliceMap);
    }
  }

  /** Walking one more element gives what the element's step gives; a
      failing element fails the whole walk the same way. */
  lemma RunNext(planned: seq<Planned>, i: nat, def: DataElement, sliceMap: SliceMap, st: Walk, next: Result<Walk>)
    requires i < |planned| && Run(planned, i, def, sliceMap) == Ok(st)
    requires next == Step(st, planned, i, def, sliceMap)
    ensures Run(planned, i + 1, def, sliceMap) == next
    ensures next.Crash? ==> Run(planned, |planned|, def, sliceMap) == next
  {
    if next.Crash? {
      RunCrash(planned, i + 1, def, sliceMap);
    }
  }

  /** The loop over the planned elements. */
  method RunWalk(planned: seq<Planned>, def: DataElement, sliceMap: SliceMap) returns (r: Result<Walk>)
    ensures r == Run(planned, |planned|, def, sliceMap)
  {
    var st := Walk([], []);
    for i := 0 to |planned|
      invariant Run(planned, i, def, sliceMap) == Ok(st)
    {
      var next := StepElement(st, planned, i, def, sliceMap);
      RunNext(planned, i, def, sliceMap, st, next);
      if next.Crash? {
        return Crash(next.reason);
      }
      st := next.value;
    }
    return Ok(st);
  }

  /** Closing out the blocks still open at the end. */
  method CloseAll(stack: seq<Frame>, out: seq<Emit>) returns (r: seq<Emit>)
    ensures r == out + Closes(stack)
  {
    var elementHierarchy := stack;
    r := out;
    while |elementHierarchy| > 0
      invariant r + Closes(elementHierarchy) == out + Closes(stack)
      decreases |elementHierarchy|
    {
      var parentContext := elementHierarchy[0];
      assert Closes(elementHierarchy) == (if parentContext.didOpenBlock then [Close] else []) + Closes(elementHierarchy[1..]);
      if parentContext.didOpenBlock {
        assert r + Closes(elementHierarchy) == (r + [Close]) + Closes(elementHierarchy[1..]);
        r := r + [Close];
      } else {
        assert r + Closes(elementHierarchy) == r + Closes(elementHierarchy[1..]);
      }
      elementHierarchy := elementHierarchy[1..];
    }
    assert r + Closes(elementHierarchy) == r;
  }

  /** The walk over the planned elements, then the closing of the blocks
      still open. */
  method WalkPlanned(planned: seq<Planned>, def: DataElement, sliceMap: SliceMap) returns (r: Result<seq<Emit>>)
    ensures r == FromFhirPlan(planned, def, sliceMap)
  {
    var st := RunWalk(planned, def, sliceMap);
    if st.Crash? {
      return Crash(st.reason);
    }
    var out := CloseAll(st.value.stack, st.value.out);
    return Ok(out);
  }
}
