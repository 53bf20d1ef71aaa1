/**
 * The `_source` loaders: loading the stored `_source` bytes, synthesizing
 * `_source` from stored fields and doc values, and patching synthetic vectors
 * into a stored source. Loading is traced as the sequence of calls the
 * synthetic leaf makes on its field loader; the field loader's own reaction
 * (whether it has a value after those calls) is a parameter.
 */
module SourceLoaders {
  import opened Wrappers

  /** The name of the stored field holding values kept outside the mapping. */
  const IgnoredSourceName := "_ignored_source"

  /** A raw stored-field value. */
  type StoredValue = seq<bv8>

  /**
   * A decoded `_ignored_source` value: the field's full name, the name of the
   * object it belongs to, whether its value encodes an object, and the value.
   */
  datatype NameValue = NameValue(name: string, parentFieldName: string, isEncodedObject: bool, value: seq<bv8>)

  /** Include/exclude rules: `isPathFiltered(path, isObject)` says a path is left out. */
  datatype SourceFilter = SourceFilter(isPathFiltered: (string, bool) -> bool)

  /** The calls a synthetic leaf makes on its field loader while writing one document. */
  datatype LoaderCall =
    | Load(field: string, values: seq<StoredValue>)
    | SetIgnoredValues(objects: map<string, seq<NameValue>>)
    | AdvanceToDoc(docId: int)
    | Prepare
    | WriteValues
    | WriteEmptyObject

  /**
   * A synthetic field loader as the leaf sees it: the fields it has stored-field
   * loaders for, whether it has a doc-values loader for the segment, and
   * whether it has a value after a given sequence of calls.
   */
  datatype FieldLoader = FieldLoader(storedFieldNames: seq<string>, hasDocValues: bool, hasValue: seq<LoaderCall> -> bool)

  /** `SyntheticFieldLoader.NOTHING`: no stored-field loaders, no doc values, never a value. */
  function Nothing(): (l: FieldLoader)
    ensures |l.storedFieldNames| == 0 && !l.hasDocValues
    ensures forall calls :: !l.hasValue(calls)
  {
    FieldLoader([], false, _ => false)
  }

  /** The three source loaders. */
  datatype SourceLoader =
    | Stored(filter: Option<SourceFilter>)
    | Synthetic(filter: Option<SourceFilter>, fieldLoader: FieldLoader)
    | SyntheticVectors(inner: SourceLoader)

  /** `FROM_STORED_SOURCE`: the stored source, unfiltered. */
  function FromStoredSource(): SourceLoader
  {
    Stored(None)
  }

  /** The synthetic-vectors loader reads through the stored source, filtered when a filter is given. */
  function NewSyntheticVectors(filter: Option<SourceFilter>): (l: SourceLoader)
    ensures l.SyntheticVectors? && l.inner.Stored? && l.inner.filter == filter
  {
    SyntheticVectors(if filter.None? then FromStoredSource() else Stored(filter))
  }

  /** `reordersFieldValues`. */
  function ReordersFieldValues(l: SourceLoader): bool
  {
    match l
    case Stored(_) => false
    case Synthetic(_, _) => true
    case SyntheticVectors(_) => false
  }

  /** `requiredStoredFields`: the synthetic loader needs the fields its loader reads; the others delegate or need none. */
  function RequiredStoredFields(l: SourceLoader): set<string>
  {
    match l
    case Stored(_) => {}
    case Synthetic(_, loader) => set name | name in loader.storedFieldNames
    case SyntheticVectors(inner) => RequiredStoredFields(inner)
  }

  /**
   * The stored loader keeps field values in order and needs no stored field
   * besides `_source`; the synthetic loader reorders them and needs exactly
   * the fields of its stored-field loaders.
   */
  lemma StoredAndSyntheticCapabilities(l: SourceLoader)
    ensures l.Stored? ==> !ReordersFieldValues(l) && RequiredStoredFields(l) == {}
    ensures l.Synthetic? ==> ReordersFieldValues(l)
    ensures l.Synthetic? ==> forall f :: f in RequiredStoredFields(l) <==> f in l.fieldLoader.storedFieldNames
  {
  }

  /**
   * The synthetic-vectors loader keeps field values in order and needs what
   * its inner loader needs, which for the one it builds is nothing.
   */
  lemma SyntheticVectorsCapabilities(l: SourceLoader, filter: Option<SourceFilter>)
    ensures l.SyntheticVectors? ==> !ReordersFieldValues(l) && RequiredStoredFields(l) == RequiredStoredFields(l.inner)
    ensures RequiredStoredFields(NewSyntheticVectors(filter)) == {}
    ensures !ReordersFieldValues(NewSyntheticVectors(filter))
  {
  }

  /** A leaf of the synthetic loader: the filter, the field loader and the names it has stored-field loaders under. */
  datatype SyntheticLeaf = SyntheticLeaf(filter: Option<SourceFilter>, loader: FieldLoader, registered: set<string>)

  datatype LeafError = DuplicateKey(name: string)

  /**
   * Building a leaf copies the loader's stored-field loaders into a map keyed
   * by field name; a name registered twice fails the collection.
   */
  function NewSyntheticLeaf(filter: Option<SourceFilter>, loader: FieldLoader): (r: Result<SyntheticLeaf, LeafError>)
    ensures r.Success? <==> forall i, j :: 0 <= i < j < |loader.storedFieldNames| ==> loader.storedFieldNames[i] != loader.storedFieldNames[j]
    ensures r.Success? ==> r.value.registered == set name | name in loader.storedFieldNames
    ensures r.Success? ==> r.value.filter == filter && r.value.loader == loader
    ensures r.Failure? ==> exists i, j :: 0 <= i < j < |loader.storedFieldNames| &&
                              loader.storedFieldNames[i] == loader.storedFieldNames[j] == r.error.name
  {
    FirstDuplicateOrLeaf(filter, loader, 1)
  }

  function FirstDuplicateOrLeaf(filter: Option<SourceFilter>, loader: FieldLoader, k: int): (r: Result<SyntheticLeaf, LeafError>)
    requires 1 <= k
    ensures r.Success? <==> forall i, j :: 0 <= i < j < |loader.storedFieldNames| && k <= j ==> loader.storedFieldNames[i] != loader.storedFieldNames[j]
    ensures r.Success? ==> r == Success(SyntheticLeaf(filter, loader, set name | name in loader.storedFieldNames))
    ensures r.Failure? ==> exists i, j :: 0 <= i < j < |loader.storedFieldNames| &&
                              loader.storedFieldNames[i] == loader.storedFieldNames[j] == r.error.name
    decreases |loader.storedFieldNames| - k
  {
    var names := loader.storedFieldNames;
    if k >= |names| then Success(SyntheticLeaf(filter, loader, set name | name in names))
    else if names[k] in names[..k] then
      var i :| 0 <= i < k && names[i] == names[k];
      Failure(DuplicateKey(names[k]))
    else FirstDuplicateOrLeaf(filter, loader, k + 1)
  }

  // ---------------------------------------------------------------------------
  // SyntheticLeaf.write, specified
  // ---------------------------------------------------------------------------

  /** A document's stored fields, in the order the stored-field loader yields them. */
  type StoredFields = seq<(string, seq<StoredValue>)>

  /** The loads: each stored field handed, with its values, to the loader registered under its name. */
  function LoadCalls(registered: set<string>, fields: StoredFields): seq<LoaderCall>
  {
    if |fields| == 0 then []
    else
      var e := fields[|fields| - 1];
      LoadCalls(registered, fields[..|fields| - 1]) + (if e.0 in registered then [Load(e.0, e.1)] else [])
  }

  /** The values of the `_ignored_source` stored field. */
  function IgnoredValues(fields: StoredFields): seq<StoredValue>
  {
    if |fields| == 0 then []
    else
      var e := fields[|fields| - 1];
      IgnoredValues(fields[..|fields| - 1]) + (if e.0 == IgnoredSourceName then e.1 else [])
  }

  predicate Filtered(filter: Option<SourceFilter>, nv: NameValue) {
    filter.Some? && filter.value.isPathFiltered(nv.name, nv.isEncodedObject)
  }

  /** One decoded value added to the groups: appended to its parent's group unless its path is filtered. */
  function AddToGroups(filter: Option<SourceFilter>, groups: map<string, seq<NameValue>>, nv: NameValue): map<string, seq<NameValue>>
  {
    if Filtered(filter, nv) then groups
    else groups[nv.parentFieldName := (if nv.parentFieldName in groups then groups[nv.parentFieldName] else []) + [nv]]
  }

  /** The ignored values grouped by parent object, in order, without the filtered ones. */
  function GroupIgnored(filter: Option<SourceFilter>, decode: StoredValue -> NameValue, values: seq<StoredValue>): map<string, seq<NameValue>>
  {
    if |values| == 0 then map[]
    else AddToGroups(filter, GroupIgnored(filter, decode, values[..|values| - 1]), decode(values[|values| - 1]))
  }

  /** The calls `write` makes up to and including `prepare`. */
  function PreparedCalls(leaf: SyntheticLeaf, fields: StoredFields, docId: int, decode: StoredValue -> NameValue): seq<LoaderCall>
  {
    var ignored := IgnoredValues(fields);
    LoadCalls(leaf.registered, fields)
      + (if |ignored| > 0 then [SetIgnoredValues(GroupIgnored(leaf.filter, decode, ignored))] else [])
      + (if leaf.loader.hasDocValues then [AdvanceToDoc(docId)] else [])
      + [Prepare]
  }

  /** The value written once the loader is prepared: its own, or an empty object when it has none. */
  function FinalCall(leaf: SyntheticLeaf, prepared: seq<LoaderCall>): LoaderCall
  {
    if leaf.loader.hasValue(prepared) then WriteValues else WriteEmptyObject
  }

  /** Every call `write` makes on the loader, in order, for one document. */
  function WriteCalls(leaf: SyntheticLeaf, fields: StoredFields, docId: int, decode: StoredValue -> NameValue): seq<LoaderCall>
  {
    var prepared := PreparedCalls(leaf, fields, docId, decode);
    prepared + [FinalCall(leaf, prepared)]
  }

  // ---------------------------------------------------------------------------
  // SyntheticLeaf.write, the procedure
  // ---------------------------------------------------------------------------

  /** The group map once the given ignored values are seen: none before the first value. */
  function IgnoredObjects(filter: Option<SourceFilter>, decode: StoredValue -> NameValue, values: seq<StoredValue>): Option<map<string, seq<NameValue>>>
  {
    if |values| > 0 then Some(GroupIgnored(filter, decode, values)) else None
  }

  /**
   * `SyntheticLeaf.write`: walks the stored fields, loading those with a
   * registered loader and grouping the `_ignored_source` values; then hands
   * the groups over, advances doc values, prepares, and writes the loader's
   * value or an empty object.
   */
  method Write(leaf: SyntheticLeaf, fields: StoredFields, docId: int, decode: StoredValue -> NameValue)
    returns (calls: seq<LoaderCall>)
    ensures calls == WriteCalls(leaf, fields, docId, decode)
  {
    var objects;
    calls, objects := LoadStoredFields(leaf, fields, decode);
    if objects.Some? {
      calls := calls + [SetIgnoredValues(objects.value)];
    }
    if leaf.loader.hasDocValues {
      calls := calls + [AdvanceToDoc(docId)];
    }
    calls := calls + [Prepare];
    assert calls == PreparedCalls(leaf, fields, docId, decode);
    if leaf.loader.hasValue(calls) {
      calls := calls + [WriteValues];
    } else {
      calls := calls + [WriteEmptyObject];
    }
  }

  /** The loop of `write` over the stored fields. */
  method LoadStoredFields(leaf: SyntheticLeaf, fields: StoredFields, decode: StoredValue -> NameValue)
    returns (calls: seq<LoaderCall>, objects: Option<map<string, seq<NameValue>>>)
    ensures calls == LoadCalls(leaf.registered, fields)
    ensures objects == IgnoredObjects(leaf.filter, decode, IgnoredValues(fields))
  {
    calls := [];
    objects := None;
    var i := 0;
    while i < |fields|
      invariant 0 <= i <= |fields|
      invariant calls == LoadCalls(leaf.registered, fields[..i])
      invariant objects == IgnoredObjects(leaf.filter, decode, IgnoredValues(fields[..i]))
    {
      var (name, values) := fields[i];
      assert fields[..i + 1][..i] == fields[..i];
      if name in leaf.registered {
        calls := calls + [Load(name, values)];
      }
      if name == IgnoredSourceName {
        objects := GroupIgnoredValues(leaf.filter, decode, objects, IgnoredValues(fields[..i]), values);
      } else {
        assert IgnoredValues(fields[..i]) + [] == IgnoredValues(fields[..i]);
      }
      i := i + 1;
    }
    assert fields[..i] == fields;
  }

  lemma GroupIgnoredStep(filter: Option<SourceFilter>, decode: StoredValue -> NameValue, seen: seq<StoredValue>, v: StoredValue)
    ensures GroupIgnored(filter, decode, seen + [v]) == AddToGroups(filter, GroupIgnored(filter, decode, seen), decode(v))
  {
    assert (seen + [v])[..|seen|] == seen;
  }

  /** The inner loop of `write` over the `_ignored_source` values, after `before` were grouped. */
  method GroupIgnoredValues(filter: Option<SourceFilter>, decode: StoredValue -> NameValue,
                            objects: Option<map<string, seq<NameValue>>>, ghost before: seq<StoredValue>, values: seq<StoredValue>)
    returns (grouped: Option<map<string, seq<NameValue>>>)
    requires objects == IgnoredObjects(filter, decode, before)
    ensures grouped == IgnoredObjects(filter, decode, before + values)
  {
    grouped := objects;
    ghost var seen := before;
    var j := 0;
    while j < |values|
      invariant 0 <= j <= |values|
      invariant seen == before + values[..j]
      invariant grouped == IgnoredObjects(filter, decode, seen)
    {
      if grouped.None? {
        grouped := Some(map[]);
      }
      assert grouped.value == GroupIgnored(filter, decode, seen);
      var nv := decode(values[j]);
      GroupIgnoredStep(filter, decode, seen, values[j]);
      ghost var next := AddToGroups(filter, grouped.value, nv);
      if !Filtered(filter, nv) {
        var groups := grouped.value;
        var parent := nv.parentFieldName;
        grouped := Some(groups[parent := (if parent in groups then groups[parent] else []) + [nv]]);
      }
      assert grouped == Some(next);
      assert values[..j + 1] == values[..j] + [values[j]];
      seen := seen + [values[j]];
      j := j + 1;
    }
    assert values[..j] == values;
  }

  // ---------------------------------------------------------------------------
  // What write promises
  // ---------------------------------------------------------------------------

  /** A stored field's values reach a loader exactly when one is registered under the field's name. */
  lemma {:induction false} LoadsOnlyRegistered(registered: set<string>, fields: StoredFields)
    ensures forall c :: c in LoadCalls(registered, fields) ==> c.Load? && c.field in registered && (c.field, c.values) in fields
    ensures forall e :: e in fields && e.0 in registered ==> Load(e.0, e.1) in LoadCalls(registered, fields)
  {
    if |fields| > 0 {
      var init := fields[..|fields| - 1];
      LoadsOnlyRegistered(registered, init);
      assert fields == init + [fields[|fields| - 1]];
    }
  }

  /** The ignored values are exactly the values of the `_ignored_source` fields. */
  lemma {:induction false} IgnoredValuesPresent(fields: StoredFields)
    ensures |IgnoredValues(fields)| > 0 <==> exists e :: e in fields && e.0 == IgnoredSourceName && |e.1| > 0
  {
    if |fields| > 0 {
      var init := fields[..|fields| - 1];
      IgnoredValuesPresent(init);
      assert fields == init + [fields[|fields| - 1]];
    }
  }

  /**
   * Grouping keeps every unfiltered value under its parent object, in order,
   * and drops the filtered ones; no group is empty.
   */
  lemma {:induction false} GroupIgnoredExact(filter: Option<SourceFilter>, decode: StoredValue -> NameValue, values: seq<StoredValue>)
    ensures forall p :: p in GroupIgnored(filter, decode, values) ==> |GroupIgnored(filter, decode, values)[p]| > 0
    ensures forall p, nv :: p in GroupIgnored(filter, decode, values) && nv in GroupIgnored(filter, decode, values)[p] <==>
              nv.parentFieldName == p && !Filtered(filter, nv) && nv in Decoded(decode, values)
  {
    if |values| > 0 {
      var init := values[..|values| - 1];
      GroupIgnoredExact(filter, decode, init);
      AddToGroupsMembers(filter, GroupIgnored(filter, decode, init), decode(values[|values| - 1]));
      assert Decoded(decode, values) == Decoded(decode, init) + [decode(values[|values| - 1])];
    }
  }

  /** Every value decoded, in order. */
  function Decoded(decode: StoredValue -> NameValue, values: seq<StoredValue>): (r: seq<NameValue>)
    ensures |r| == |values| && forall i :: 0 <= i < |values| ==> r[i] == decode(values[i])
  {
    seq(|values|, i requires 0 <= i < |values| => decode(values[i]))
  }

  lemma AddToGroupsMembers(filter: Option<SourceFilter>, groups: map<string, seq<NameValue>>, nv: NameValue)
    ensures forall p :: p in AddToGroups(filter, groups, nv) ==> p in groups || p == nv.parentFieldName
    ensures forall p :: p in groups ==> p in AddToGroups(filter, groups, nv)
    ensures forall p, x :: p in AddToGroups(filter, groups, nv) && x in AddToGroups(filter, groups, nv)[p] <==>
              (p in groups && x in groups[p]) || (x == nv && p == nv.parentFieldName && !Filtered(filter, nv))
    ensures !Filtered(filter, nv) ==>
              nv.parentFieldName in AddToGroups(filter, groups, nv) && |AddToGroups(filter, groups, nv)[nv.parentFieldName]| > 0
    ensures forall p :: p in groups && p != nv.parentFieldName ==> AddToGroups(filter, groups, nv)[p] == groups[p]
  {
  }

  /** What `write` calls: the loads, the ignored values if any, the doc-values advance if any, `prepare`, and the final write. */
  lemma WriteCallsMembers(leaf: SyntheticLeaf, fields: StoredFields, docId: int, decode: StoredValue -> NameValue)
    ensures var ignored := IgnoredValues(fields);
      forall c :: c in WriteCalls(leaf, fields, docId, decode) <==>
        || c in LoadCalls(leaf.registered, fields)
        || (|ignored| > 0 && c == SetIgnoredValues(GroupIgnored(leaf.filter, decode, ignored)))
        || (leaf.loader.hasDocValues && c == AdvanceToDoc(docId))
        || c == Prepare
        || c == FinalCall(leaf, PreparedCalls(leaf, fields, docId, decode))
  {
  }

  /**
   * `setIgnoredValues` is called exactly when `_ignored_source` has a value,
   * even if every value is filtered out; doc values advance to the document
   * exactly when there is a doc-values loader.
   */
  lemma WriteHandsOverIgnoredAndAdvances(leaf: SyntheticLeaf, fields: StoredFields, docId: int, decode: StoredValue -> NameValue)
    ensures (exists objects :: SetIgnoredValues(objects) in WriteCalls(leaf, fields, docId, decode)) <==>
              exists e :: e in fields && e.0 == IgnoredSourceName && |e.1| > 0
    ensures AdvanceToDoc(docId) in WriteCalls(leaf, fields, docId, decode) <==> leaf.loader.hasDocValues
  {
    WriteCallsMembers(leaf, fields, docId, decode);
    LoadsOnlyRegistered(leaf.registered, fields);
    IgnoredValuesPresent(fields);
    var ignored := IgnoredValues(fields);
    if |ignored| > 0 {
      assert SetIgnoredValues(GroupIgnored(leaf.filter, decode, ignored)) in WriteCalls(leaf, fields, docId, decode);
    }
  }

  /**
   * `write` ends by preparing the loader and then writing its value, or an
   * empty object when, once prepared, it has none.
   */
  lemma WriteEndsWithPrepareAndValue(leaf: SyntheticLeaf, fields: StoredFields, docId: int, decode: StoredValue -> NameValue)
    ensures var calls := WriteCalls(leaf, fields, docId, decode);
      && |calls| >= 2
      && calls[|calls| - 2] == Prepare
      && (calls[|calls| - 1] == WriteEmptyObject <==> !leaf.loader.hasValue(calls[..|calls| - 1]))
      && (calls[|calls| - 1] == WriteValues <==> leaf.loader.hasValue(calls[..|calls| - 1]))
  {
    var calls := WriteCalls(leaf, fields, docId, decode);
    assert calls[..|calls| - 1] == PreparedCalls(leaf, fields, docId, decode);
  }

  /** With `NOTHING` as the loader, nothing is loaded or advanced and the document is an empty object. */
  lemma NothingWritesEmptyObject(filter: Option<SourceFilter>, fields: StoredFields, docId: int, decode: StoredValue -> NameValue)
    ensures NewSyntheticLeaf(filter, Nothing()).Success?
    ensures var calls := WriteCalls(NewSyntheticLeaf(filter, Nothing()).value, fields, docId, decode);
      && calls[|calls| - 1] == WriteEmptyObject
      && (forall c :: c in calls ==> !c.Load? && !c.AdvanceToDoc? && !c.WriteValues?)
  {
    var leaf := NewSyntheticLeaf(filter, Nothing()).value;
    LoadsOnlyRegistered(leaf.registered, fields);
    WriteCallsMembers(leaf, fields, docId, decode);
  }
}
