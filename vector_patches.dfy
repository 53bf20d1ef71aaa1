/**
 * Synthetic vectors: a stored `_source` whose vector fields were left out is
 * patched back, one patch per vector, before it is returned. Patches form a
 * tree: a leaf patch sets a value at a path, a nested patch descends into the
 * objects of a nested field, and an offset patch selects one of those objects.
 * The source map is not modelled as a map: applying the patches yields the
 * insertions they perform, each located by the nested steps taken from the
 * root map.
 */
module SyntheticVectorPatches {
  import opened Wrappers

  /** A vector value to put back into the source, as opaque bytes. */
  type VectorValue = seq<bv8>

  datatype Patch =
    | Nested(fullPath: string, children: seq<Patch>)
    | NestedOffset(offset: int, children: seq<Patch>)
    | Leaf(fullPath: string, value: VectorValue)

  /** The simple class name the error messages use. */
  function KindName(p: Patch): string {
    match p
    case Nested(_, _) => "NestedSyntheticVectorPath"
    case NestedOffset(_, _) => "NestedOffsetSyntheticVectorPath"
    case Leaf(_, _) => "LeafSyntheticVectorPath"
  }

  /** One step from a map into a nested object: the nested field's path relative to that map, and which of its objects. */
  datatype Step = Step(nestedPath: string, offset: int)

  /** `insertValue(key, map, value)` on the map reached by following `at` from the root. */
  datatype Insertion = Insertion(at: seq<Step>, key: string, value: VectorValue)

  datatype PatchError =
    | IllegalState(message: string)
    | StringIndexOutOfBounds(path: string, beginIndex: int)
    | IndexOutOfBounds(index: int, size: nat)

  /**
   * How many objects `extractNestedSources(nestedPath, map)` finds in the map
   * reached by the given steps; it depends on the source document.
   */
  type NestedCount = (seq<Step>, string) -> nat

  // ---------------------------------------------------------------------------
  // extractRelativePath
  // ---------------------------------------------------------------------------

  /**
   * The path below the root: the whole path at the top, otherwise what follows
   * the root and its separating dot. The prefix itself is not compared; a path
   * too short to hold it is out of bounds.
   */
  function ExtractRelativePath(rootPath: string, fullPath: string): (r: Result<string, PatchError>)
    ensures rootPath == "" ==> r == Success(fullPath)
    ensures rootPath != "" ==> (r.Failure? <==> |fullPath| < |rootPath| + 1)
    ensures r.Success? ==> exists prefix :: fullPath == prefix + r.value &&
                             |prefix| == (if rootPath == "" then 0 else |rootPath| + 1)
  {
    if rootPath == "" then Success(fullPath)
    else if |fullPath| < |rootPath| + 1 then Failure(StringIndexOutOfBounds(fullPath, |rootPath| + 1))
    else
      assert fullPath == fullPath[..|rootPath| + 1] + fullPath[|rootPath| + 1..];
      Success(fullPath[|rootPath| + 1..])
  }

  /** A path below a nested root loses exactly the root and its dot. */
  lemma RelativePathBelowRoot(rootPath: string, rest: string)
    requires rootPath != ""
    ensures ExtractRelativePath(rootPath, rootPath + "." + rest) == Success(rest)
  {
    assert (rootPath + "." + rest)[|rootPath| + 1..] == rest;
  }

  // ---------------------------------------------------------------------------
  // applyPatches, specified
  // ---------------------------------------------------------------------------

  function Size(p: Patch): (n: nat)
    ensures n >= 1
    decreases p
  {
    match p
    case Nested(_, cs) => 1 + SizeAll(cs)
    case NestedOffset(_, cs) => 1 + SizeAll(cs)
    case Leaf(_, _) => 1
  }

  function SizeAll(ps: seq<Patch>): nat
    decreases ps
  {
    if |ps| == 0 then 0 else SizeAll(ps[..|ps| - 1]) + Size(ps[|ps| - 1])
  }

  /** The insertions of a list of patches under `rootPath`, in order; the first error ends the walk. */
  function PatchEdits(count: NestedCount, rootPath: string, at: seq<Step>, ps: seq<Patch>): Result<seq<Insertion>, PatchError>
    decreases SizeAll(ps), 2
  {
    if |ps| == 0 then Success([])
    else
      match PatchEdits(count, rootPath, at, ps[..|ps| - 1])
      case Failure(e) => Failure(e)
      case Success(before) =>
        match PatchEdit(count, rootPath, at, ps[|ps| - 1])
        case Failure(e) => Failure(e)
        case Success(last) => Success(before + last)
  }

  /** One top-level patch: a leaf inserts, a nested patch descends, an offset patch is not allowed here. */
  function PatchEdit(count: NestedCount, rootPath: string, at: seq<Step>, p: Patch): Result<seq<Insertion>, PatchError>
    decreases Size(p), 1
  {
    match p
    case Leaf(fullPath, value) =>
      (match ExtractRelativePath(rootPath, fullPath)
       case Failure(e) => Failure(e)
       case Success(key) => Success([Insertion(at, key, value)]))
    case Nested(fullPath, children) =>
      (match ExtractRelativePath(rootPath, fullPath)
       case Failure(e) => Failure(e)
       case Success(nestedPath) => ChildEdits(count, p, at, nestedPath, children))
    case NestedOffset(_, _) =>
      Failure(IllegalState("Unknown patch type: " + KindName(p)))
  }

  /**
   * The children of a nested patch: each must select one of the nested
   * objects, whose patches then apply under the nested field's full path.
   */
  function ChildEdits(count: NestedCount, nested: Patch, at: seq<Step>, nestedPath: string, cs: seq<Patch>): Result<seq<Insertion>, PatchError>
    requires nested.Nested?
    decreases SizeAll(cs), 2
  {
    if |cs| == 0 then Success([])
    else
      match ChildEdits(count, nested, at, nestedPath, cs[..|cs| - 1])
      case Failure(e) => Failure(e)
      case Success(before) =>
        var child := cs[|cs| - 1];
        if !child.NestedOffset? then
          Failure(IllegalState("Unexpected child patch type of " + KindName(nested) + " in nested structure."))
        else if child.offset < 0 || child.offset >= count(at, nestedPath) then
          Failure(IndexOutOfBounds(child.offset, count(at, nestedPath)))
        else
          assert Size(child) == 1 + SizeAll(child.children);
          match PatchEdits(count, nested.fullPath, at + [Step(nestedPath, child.offset)], child.children)
          case Failure(e) => Failure(e)
          case Success(last) => Success(before + last)
  }

  // ---------------------------------------------------------------------------
  // applyPatches, the procedure
  // ---------------------------------------------------------------------------

  /** `applyPatches`: walks the patches in order, descending into nested objects by recursion. */
  method ApplyPatches(count: NestedCount, rootPath: string, at: seq<Step>, ps: seq<Patch>)
    returns (r: Result<seq<Insertion>, PatchError>)
    ensures r == PatchEdits(count, rootPath, at, ps)
    decreases SizeAll(ps), 1
  {
    var done: seq<Insertion> := [];
    var i := 0;
    while i < |ps|
      invariant 0 <= i <= |ps|
      invariant PatchEdits(count, rootPath, at, ps[..i]) == Success(done)
    {
      var patch := ps[i];
      assert ps[..i + 1][..i] == ps[..i];
      SizePrefix(ps, i + 1);
      var edits: Result<seq<Insertion>, PatchError>;
      match patch {
        case Leaf(fullPath, value) =>
          var key := ExtractRelativePath(rootPath, fullPath);
          edits := if key.Success? then Success([Insertion(at, key.value, value)]) else Failure(key.error);
        case Nested(fullPath, children) =>
          var nestedPath := ExtractRelativePath(rootPath, fullPath);
          if nestedPath.Success? {
            edits := ApplyNested(count, patch, at, nestedPath.value);
          } else {
            edits := Failure(nestedPath.error);
          }
        case NestedOffset(_, _) =>
          edits := Failure(IllegalState("Unknown patch type: " + KindName(patch)));
      }
      assert edits == PatchEdit(count, rootPath, at, patch);
      if edits.Failure? {
        FailureStops(count, rootPath, at, ps, i + 1);
        return Failure(edits.error);
      }
      done := done + edits.value;
      i := i + 1;
    }
    assert ps[..i] == ps;
    return Success(done);
  }

  /** The loop over a nested patch's children: each selects a nested object and applies its own patches there. */
  method ApplyNested(count: NestedCount, nested: Patch, at: seq<Step>, nestedPath: string)
    returns (r: Result<seq<Insertion>, PatchError>)
    requires nested.Nested?
    ensures r == ChildEdits(count, nested, at, nestedPath, nested.children)
    decreases Size(nested), 0
  {
    var children := nested.children;
    var done: seq<Insertion> := [];
    var j := 0;
    while j < |children|
      invariant 0 <= j <= |children|
      invariant ChildEdits(count, nested, at, nestedPath, children[..j]) == Success(done)
    {
      var child := children[j];
      assert children[..j + 1][..j] == children[..j];
      if !child.NestedOffset? {
        ChildFailureStops(count, nested, at, nestedPath, children, j + 1);
        return Failure(IllegalState("Unexpected child patch type of " + KindName(nested) + " in nested structure."));
      }
      var size := count(at, nestedPath);
      if child.offset < 0 || child.offset >= size {
        ChildFailureStops(count, nested, at, nestedPath, children, j + 1);
        return Failure(IndexOutOfBounds(child.offset, size));
      }
      SizePrefix(children, j + 1);
      assert Size(child) == 1 + SizeAll(child.children);
      var sub := ApplyPatches(count, nested.fullPath, at + [Step(nestedPath, child.offset)], child.children);
      if sub.Failure? {
        ChildFailureStops(count, nested, at, nestedPath, children, j + 1);
        return Failure(sub.error);
      }
      done := done + sub.value;
      j := j + 1;
    }
    assert children[..j] == children;
    return Success(done);
  }

  lemma {:induction false} SizePrefix(ps: seq<Patch>, n: int)
    requires 0 < n <= |ps|
    ensures SizeAll(ps[..n - 1]) + Size(ps[n - 1]) <= SizeAll(ps)
    decreases |ps|
  {
    if n < |ps| {
      SizePrefix(ps[..|ps| - 1], n);
      assert ps[..|ps| - 1][..n - 1] == ps[..n - 1];
    } else {
      assert ps[..n] == ps;
    }
  }

  /** Once a prefix of the patches fails, the whole list fails with the same error. */
  lemma {:induction false} FailureStops(count: NestedCount, rootPath: string, at: seq<Step>, ps: seq<Patch>, k: int)
    requires 0 <= k <= |ps| && PatchEdits(count, rootPath, at, ps[..k]).Failure?
    ensures PatchEdits(count, rootPath, at, ps) == PatchEdits(count, rootPath, at, ps[..k])
    decreases |ps| - k
  {
    if k < |ps| {
      assert ps[..k + 1][..k] == ps[..k];
      FailureStops(count, rootPath, at, ps, k + 1);
    } else {
      assert ps[..k] == ps;
    }
  }

  lemma {:induction false} ChildFailureStops(count: NestedCount, nested: Patch, at: seq<Step>, nestedPath: string, cs: seq<Patch>, k: int)
    requires nested.Nested?
    requires 0 <= k <= |cs| && ChildEdits(count, nested, at, nestedPath, cs[..k]).Failure?
    ensures ChildEdits(count, nested, at, nestedPath, cs) == ChildEdits(count, nested, at, nestedPath, cs[..k])
    decreases |cs| - k
  {
    if k < |cs| {
      assert cs[..k + 1][..k] == cs[..k];
      ChildFailureStops(count, nested, at, nestedPath, cs, k + 1);
    } else {
      assert cs[..k] == cs;
    }
  }

  // ---------------------------------------------------------------------------
  // What applying patches promises
  // ---------------------------------------------------------------------------

  /**
   * Patches that can be applied under `rootPath`: leaves and nested patches
   * only, each path long enough to hold the root, and every child of a nested
   * patch an offset patch that selects an existing nested object and whose
   * own patches can be applied under the nested field's full path.
   */
  predicate Applicable(count: NestedCount, rootPath: string, at: seq<Step>, ps: seq<Patch>)
    decreases ps
  {
    forall p | p in ps :: ApplicableOne(count, rootPath, at, p)
  }

  predicate ApplicableOne(count: NestedCount, rootPath: string, at: seq<Step>, p: Patch)
    decreases p
  {
    match p
    case Leaf(fullPath, _) => ExtractRelativePath(rootPath, fullPath).Success?
    case NestedOffset(_, _) => false
    case Nested(fullPath, cs) =>
      ExtractRelativePath(rootPath, fullPath).Success? &&
      ApplicableChildren(count, fullPath, at, ExtractRelativePath(rootPath, fullPath).value, cs)
  }

  predicate ApplicableChildren(count: NestedCount, fullPath: string, at: seq<Step>, nestedPath: string, cs: seq<Patch>)
    decreases cs
  {
    forall c | c in cs ::
      c.NestedOffset? && 0 <= c.offset < count(at, nestedPath) &&
      Applicable(count, fullPath, at + [Step(nestedPath, c.offset)], c.children)
  }

  /** The values of the leaf patches, in order. */
  function LeafValues(ps: seq<Patch>): seq<VectorValue>
    decreases SizeAll(ps), 1
  {
    if |ps| == 0 then [] else LeafValues(ps[..|ps| - 1]) + LeafValuesOf(ps[|ps| - 1])
  }

  function LeafValuesOf(p: Patch): seq<VectorValue>
    decreases Size(p), 0
  {
    match p
    case Leaf(_, value) => [value]
    case Nested(_, cs) => LeafValues(cs)
    case NestedOffset(_, cs) => LeafValues(cs)
  }

  function InsertedValues(edits: seq<Insertion>): seq<VectorValue>
  {
    if |edits| == 0 then [] else InsertedValues(edits[..|edits| - 1]) + [edits[|edits| - 1].value]
  }

  lemma {:induction false} InsertedValuesAppend(a: seq<Insertion>, b: seq<Insertion>)
    ensures InsertedValues(a + b) == InsertedValues(a) + InsertedValues(b)
    decreases |b|
  {
    if |b| == 0 {
      assert a + b == a;
    } else {
      InsertedValuesAppend(a, b[..|b| - 1]);
      assert (a + b)[..|a + b| - 1] == a + b[..|b| - 1];
    }
  }

  lemma {:induction false} ApplicableSnoc(count: NestedCount, rootPath: string, at: seq<Step>, ps: seq<Patch>)
    requires |ps| > 0
    ensures Applicable(count, rootPath, at, ps) <==>
              Applicable(count, rootPath, at, ps[..|ps| - 1]) && ApplicableOne(count, rootPath, at, ps[|ps| - 1])
  {
    assert ps == ps[..|ps| - 1] + [ps[|ps| - 1]];
  }

  lemma {:induction false} ApplicableChildrenSnoc(count: NestedCount, fullPath: string, at: seq<Step>, nestedPath: string, cs: seq<Patch>)
    requires |cs| > 0
    ensures var c := cs[|cs| - 1];
      ApplicableChildren(count, fullPath, at, nestedPath, cs) <==>
        ApplicableChildren(count, fullPath, at, nestedPath, cs[..|cs| - 1]) &&
        c.NestedOffset? && 0 <= c.offset < count(at, nestedPath) &&
        Applicable(count, fullPath, at + [Step(nestedPath, c.offset)], c.children)
  {
    assert cs == cs[..|cs| - 1] + [cs[|cs| - 1]];
  }

  /**
   * Applying patches succeeds exactly when they are applicable, and then it
   * inserts the value of every leaf patch, once each, in order.
   */
  lemma {:induction false} PatchEditsSucceedIffApplicable(count: NestedCount, rootPath: string, at: seq<Step>, ps: seq<Patch>)
    ensures PatchEdits(count, rootPath, at, ps).Success? <==> Applicable(count, rootPath, at, ps)
    ensures PatchEdits(count, rootPath, at, ps).Success? ==>
              InsertedValues(PatchEdits(count, rootPath, at, ps).value) == LeafValues(ps)
    decreases SizeAll(ps), 1
  {
    if |ps| > 0 {
      var init := ps[..|ps| - 1];
      var last := ps[|ps| - 1];
      PatchEditsSucceedIffApplicable(count, rootPath, at, init);
      PatchEditSucceedsIffApplicable(count, rootPath, at, last);
      ApplicableSnoc(count, rootPath, at, ps);
      var r := PatchEdits(count, rootPath, at, ps);
      if r.Success? {
        InsertedValuesAppend(PatchEdits(count, rootPath, at, init).value, PatchEdit(count, rootPath, at, last).value);
      }
    }
  }

  lemma {:induction false} PatchEditSucceedsIffApplicable(count: NestedCount, rootPath: string, at: seq<Step>, p: Patch)
    ensures PatchEdit(count, rootPath, at, p).Success? <==> ApplicableOne(count, rootPath, at, p)
    ensures PatchEdit(count, rootPath, at, p).Success? ==>
              InsertedValues(PatchEdit(count, rootPath, at, p).value) == LeafValuesOf(p)
    decreases Size(p), 0
  {
    match p
    case Leaf(_, _) =>
    case NestedOffset(_, _) =>
    case Nested(fullPath, cs) =>
      var rel := ExtractRelativePath(rootPath, fullPath);
      if rel.Success? {
        ChildEditsSucceedIffApplicable(count, p, at, rel.value, cs);
      }
  }

  lemma {:induction false} ChildEditsSucceedIffApplicable(count: NestedCount, nested: Patch, at: seq<Step>, nestedPath: string, cs: seq<Patch>)
    requires nested.Nested?
    ensures ChildEdits(count, nested, at, nestedPath, cs).Success? <==>
              ApplicableChildren(count, nested.fullPath, at, nestedPath, cs)
    ensures ChildEdits(count, nested, at, nestedPath, cs).Success? ==>
              InsertedValues(ChildEdits(count, nested, at, nestedPath, cs).value) == LeafValues(cs)
    decreases SizeAll(cs), 2
  {
    if |cs| > 0 {
      var init := cs[..|cs| - 1];
      var c := cs[|cs| - 1];
      ChildEditsSucceedIffApplicable(count, nested, at, nestedPath, init);
      ApplicableChildrenSnoc(count, nested.fullPath, at, nestedPath, cs);
      if c.NestedOffset? && 0 <= c.offset < count(at, nestedPath) {
        var next := at + [Step(nestedPath, c.offset)];
        assert Size(c) == 1 + SizeAll(c.children);
        PatchEditsSucceedIffApplicable(count, nested.fullPath, next, c.children);
        var r := ChildEdits(count, nested, at, nestedPath, cs);
        if r.Success? {
          InsertedValuesAppend(ChildEdits(count, nested, at, nestedPath, init).value,
                               PatchEdits(count, nested.fullPath, next, c.children).value);
        }
      }
    }
  }

  /** An offset patch at the top, or a nested patch with any other kind of child, fails the whole list. */
  lemma MisplacedPatchFails(count: NestedCount, rootPath: string, at: seq<Step>, ps: seq<Patch>, i: int)
    requires 0 <= i < |ps|
    requires ps[i].NestedOffset? || (ps[i].Nested? && exists c :: c in ps[i].children && !c.NestedOffset?)
    ensures PatchEdits(count, rootPath, at, ps).Failure?
  {
    PatchEditsSucceedIffApplicable(count, rootPath, at, ps);
    assert !ApplicableOne(count, rootPath, at, ps[i]);
  }

  // ---------------------------------------------------------------------------
  // Where each value lands
  // ---------------------------------------------------------------------------

  /** The full path of a field named `rel` inside the object at path `root`. */
  function Child(root: string, rel: string): string
  {
    if root == "" then rel else root + "." + rel
  }

  /** The full path of the map reached by following the steps from the top of the source. */
  function StepsPath(at: seq<Step>): string
  {
    if |at| == 0 then "" else Child(StepsPath(at[..|at| - 1]), at[|at| - 1].nestedPath)
  }

  /** A full path that lies inside the object at `root`: below the top, or after the root and its dot. */
  predicate Below(root: string, fullPath: string)
  {
    root == "" || (|fullPath| >= |root| + 1 && fullPath[..|root| + 1] == root + ".")
  }

  /** A patch tree whose every path lies below the object it is applied to. */
  predicate PathsBelow(rootPath: string, ps: seq<Patch>)
    decreases ps
  {
    forall p | p in ps :: PathsBelowOne(rootPath, p)
  }

  predicate PathsBelowOne(rootPath: string, p: Patch)
    decreases p
  {
    match p
    case Leaf(fullPath, _) => Below(rootPath, fullPath)
    case Nested(fullPath, cs) => Below(rootPath, fullPath) && PathsBelowChildren(fullPath, cs)
    case NestedOffset(_, cs) => PathsBelow(rootPath, cs)
  }

  predicate PathsBelowChildren(fullPath: string, cs: seq<Patch>)
    decreases cs
  {
    forall c | c in cs :: c.NestedOffset? ==> PathsBelow(fullPath, c.children)
  }

  /**
   * A place in the source: the nested objects passed through from the top,
   * each named by its nested field's full path and the offset selected in it,
   * then the full path of the field that receives the value.
   */
  datatype Place = Place(objects: seq<(string, int)>, fullPath: string)

  /** Each leaf patch's place and value, in order, below the nested objects `objects`. */
  function LeafPlaces(objects: seq<(string, int)>, ps: seq<Patch>): seq<(Place, VectorValue)>
    decreases SizeAll(ps), 1
  {
    if |ps| == 0 then [] else LeafPlaces(objects, ps[..|ps| - 1]) + LeafPlacesOf(objects, ps[|ps| - 1])
  }

  function LeafPlacesOf(objects: seq<(string, int)>, p: Patch): seq<(Place, VectorValue)>
    decreases Size(p), 0
  {
    match p
    case Leaf(fullPath, value) => [(Place(objects, fullPath), value)]
    case Nested(fullPath, cs) => ChildPlaces(objects, fullPath, cs)
    case NestedOffset(_, cs) => LeafPlaces(objects, cs)
  }

  /** The leaves under a nested field: each offset child's leaves lie in the object at that offset. */
  function ChildPlaces(objects: seq<(string, int)>, fullPath: string, cs: seq<Patch>): seq<(Place, VectorValue)>
    decreases SizeAll(cs), 2
  {
    if |cs| == 0 then []
    else
      var c := cs[|cs| - 1];
      ChildPlaces(objects, fullPath, cs[..|cs| - 1]) +
        (if c.NestedOffset? then
           assert Size(c) == 1 + SizeAll(c.children);
           LeafPlaces(objects + [(fullPath, c.offset)], c.children)
         else [])
  }

  /** The nested objects the steps pass through: each step's nested field by its full path, and the offset taken. */
  function Objects(at: seq<Step>): seq<(string, int)>
  {
    if |at| == 0 then [] else Objects(at[..|at| - 1]) + [(StepsPath(at), at[|at| - 1].offset)]
  }

  /** Each insertion's place in the source (the objects its steps pass through, and its key's full path) and its value. */
  function Placements(edits: seq<Insertion>): seq<(Place, VectorValue)>
  {
    if |edits| == 0 then []
    else
      var e := edits[|edits| - 1];
      Placements(edits[..|edits| - 1]) + [(Place(Objects(e.at), Child(StepsPath(e.at), e.key)), e.value)]
  }

  lemma {:induction false} PlacementsAppend(a: seq<Insertion>, b: seq<Insertion>)
    ensures Placements(a + b) == Placements(a) + Placements(b)
    decreases |b|
  {
    if |b| == 0 {
      assert a + b == a;
    } else {
      PlacementsAppend(a, b[..|b| - 1]);
      assert (a + b)[..|a + b| - 1] == a + b[..|b| - 1];
    }
  }

  /** A path below the root is the root's child named by its relative path. */
  lemma ChildOfRelative(rootPath: string, fullPath: string)
    requires Below(rootPath, fullPath) && ExtractRelativePath(rootPath, fullPath).Success?
    ensures Child(rootPath, ExtractRelativePath(rootPath, fullPath).value) == fullPath
  {
    if rootPath != "" {
      assert fullPath == fullPath[..|rootPath| + 1] + fullPath[|rootPath| + 1..];
    }
  }

  /**
   * Where applying patches puts each value: when every path lies below the
   * object it is applied to, and `at` leads to the map at `rootPath`, each
   * leaf's value lands in the nested objects its offset patches select, in
   * the field its full path names (its key being that path relative to the
   * map it lands in), once each and in order; the insertions all lie below
   * `at`.
   */
  lemma {:induction false} PatchEditsPlaced(count: NestedCount, rootPath: string, at: seq<Step>, ps: seq<Patch>)
    requires StepsPath(at) == rootPath && PathsBelow(rootPath, ps)
    ensures PatchEdits(count, rootPath, at, ps).Success? ==>
              Placements(PatchEdits(count, rootPath, at, ps).value) == LeafPlaces(Objects(at), ps)
              && forall e :: e in PatchEdits(count, rootPath, at, ps).value ==> at <= e.at
    decreases SizeAll(ps), 1
  {
    if |ps| > 0 {
      var init := ps[..|ps| - 1];
      var last := ps[|ps| - 1];
      assert ps == init + [last];
      PatchEditsPlaced(count, rootPath, at, init);
      PatchEditPlaced(count, rootPath, at, last);
      var r := PatchEdits(count, rootPath, at, ps);
      if r.Success? {
        PlacementsAppend(PatchEdits(count, rootPath, at, init).value, PatchEdit(count, rootPath, at, last).value);
      }
    }
  }

  lemma {:induction false} PatchEditPlaced(count: NestedCount, rootPath: string, at: seq<Step>, p: Patch)
    requires StepsPath(at) == rootPath && PathsBelowOne(rootPath, p)
    ensures PatchEdit(count, rootPath, at, p).Success? ==>
              Placements(PatchEdit(count, rootPath, at, p).value) == LeafPlacesOf(Objects(at), p)
              && forall e :: e in PatchEdit(count, rootPath, at, p).value ==> at <= e.at
    decreases Size(p), 0
  {
    match p
    case Leaf(fullPath, value) =>
      if ExtractRelativePath(rootPath, fullPath).Success? {
        ChildOfRelative(rootPath, fullPath);
        var e := Insertion(at, ExtractRelativePath(rootPath, fullPath).value, value);
        assert [e][..0] == [];
      }
    case NestedOffset(_, _) =>
    case Nested(fullPath, cs) =>
      var rel := ExtractRelativePath(rootPath, fullPath);
      if rel.Success? {
        ChildOfRelative(rootPath, fullPath);
        ChildEditsPlaced(count, p, at, rel.value, cs);
      }
  }

  lemma {:induction false} ChildEditsPlaced(count: NestedCount, nested: Patch, at: seq<Step>, nestedPath: string, cs: seq<Patch>)
    requires nested.Nested?
    requires Child(StepsPath(at), nestedPath) == nested.fullPath && PathsBelowChildren(nested.fullPath, cs)
    ensures ChildEdits(count, nested, at, nestedPath, cs).Success? ==>
              Placements(ChildEdits(count, nested, at, nestedPath, cs).value) == ChildPlaces(Objects(at), nested.fullPath, cs)
              && forall e :: e in ChildEdits(count, nested, at, nestedPath, cs).value ==> at <= e.at
    decreases SizeAll(cs), 2
  {
    if |cs| > 0 {
      var init := cs[..|cs| - 1];
      var c := cs[|cs| - 1];
      assert cs == init + [c];
      ChildEditsPlaced(count, nested, at, nestedPath, init);
      if c.NestedOffset? && 0 <= c.offset < count(at, nestedPath) {
        var next := at + [Step(nestedPath, c.offset)];
        assert next[..|next| - 1] == at;
        assert Objects(next) == Objects(at) + [(nested.fullPath, c.offset)];
        assert Size(c) == 1 + SizeAll(c.children);
        PatchEditsPlaced(count, nested.fullPath, next, c.children);
        var r := ChildEdits(count, nested, at, nestedPath, cs);
        if r.Success? {
          var sub := PatchEdits(count, nested.fullPath, next, c.children).value;
          PlacementsAppend(ChildEdits(count, nested, at, nestedPath, init).value, sub);
          forall e | e in sub
            ensures at <= e.at
          {
            assert next <= e.at;
            assert e.at[..|at|] == next[..|at|] == at;
          }
        }
      }
    }
  }

  // ---------------------------------------------------------------------------
  // The synthetic-vectors leaf
  // ---------------------------------------------------------------------------

  /** A source: its content type and the insertions made on its map. */
  datatype Source = Source(contentType: string, insertions: seq<Insertion>)

  /** `applySyntheticVectors`: the patches applied from the top of the source map, content type kept. */
  function ApplySyntheticVectors(count: NestedCount, source: Source, patches: seq<Patch>): (r: Result<Source, PatchError>)
    ensures r.Success? <==> PatchEdits(count, "", [], patches).Success?
    ensures r.Success? ==> r.value.contentType == source.contentType &&
                           r.value.insertions == source.insertions + PatchEdits(count, "", [], patches).value
  {
    match PatchEdits(count, "", [], patches)
    case Failure(e) => Failure(e)
    case Success(edits) => Success(Source(source.contentType, source.insertions + edits))
  }

  /**
   * Patching a source from its top puts every leaf value at its leaf's place
   * (the nested objects its offset patches select, then its full path), in
   * order, after what the source already held.
   */
  lemma SyntheticVectorsPlaced(count: NestedCount, source: Source, patches: seq<Patch>)
    requires PathsBelow("", patches)
    ensures var r := ApplySyntheticVectors(count, source, patches);
      r.Success? ==> Placements(r.value.insertions) == Placements(source.insertions) + LeafPlaces([], patches)
  {
    PatchEditsPlaced(count, "", [], patches);
    if PatchEdits(count, "", [], patches).Success? {
      PlacementsAppend(source.insertions, PatchEdits(count, "", [], patches).value);
    }
  }

  /**
   * The leaf's `source`: the stored source, patched when the segment has a
   * patch loader and it yields patches for the document.
   */
  function LeafSource(count: NestedCount, stored: Source, patchLeaf: Option<int -> seq<Patch>>, docId: int): Result<Source, PatchError>
  {
    if patchLeaf.None? then Success(stored)
    else
      var patches := patchLeaf.value(docId);
      if |patches| == 0 then Success(stored)
      else ApplySyntheticVectors(count, stored, patches)
  }

  /**
   * Without a patch loader the stored source is returned as is; with one,
   * skipping an empty patch list agrees with applying it, so the leaf's
   * source is always the stored source with the document's patches applied.
   */
  lemma LeafSourceIsPatchedSource(count: NestedCount, stored: Source, patchLeaf: Option<int -> seq<Patch>>, docId: int)
    ensures patchLeaf.None? ==> LeafSource(count, stored, patchLeaf, docId) == Success(stored)
    ensures patchLeaf.Some? ==> LeafSource(count, stored, patchLeaf, docId) == ApplySyntheticVectors(count, stored, patchLeaf.value(docId))
  {
    if patchLeaf.Some? && |patchLeaf.value(docId)| == 0 {
      assert stored.insertions + [] == stored.insertions;
    }
  }

  /** The leaf's `write`: writing a synthetic-vectors source directly is not allowed. */
  function LeafWrite(docId: int): (r: Result<(), PatchError>)
    ensures r.Failure? && r.error.IllegalState?
  {
    Failure(IllegalState("This operation is not allowed in the current context"))
  }
}
