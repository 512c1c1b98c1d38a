// Feature layers of the viewer (cosilico-viewer/src/lib/openlayers/Vector.js):
// the visibility test of a point feature under mask and metadata filters,
// the lists of shown features kept side by side, the per-feature group
// string, and the interacted-name bookkeeping.
module Vector {
  import opened Wrappers
  import JsArray
  import Text
  import VectorLoader

  // ---------------------------------------------------------------------
  // Mask filters (both layer kinds)

  /** A mask filter: its symbol, and whether the mask layer's geometry
      contains the feature's point (the geometry test is not modelled). */
  datatype MaskFilter = MaskFilter(symbol: string, intersects: bool)

  predicate MaskPasses(f: MaskFilter)
  {
    (f.intersects && f.symbol == "is in") || (!f.intersects && f.symbol == "is not in")
  }

  /** passesLayer after the first n mask filters. */
  function MasksPass(masks: seq<MaskFilter>, n: nat): bool
    requires n <= |masks|
  {
    if n == 0 then true else MasksPass(masks, n - 1) && MaskPasses(masks[n - 1])
  }

  /** The masks are conjoined: every filter must pass. */
  lemma {:induction false} MasksPassIff(masks: seq<MaskFilter>, n: nat)
    requires n <= |masks|
    ensures MasksPass(masks, n) <==> forall k :: 0 <= k < n ==> MaskPasses(masks[k])
  {
    if n > 0 {
      MasksPassIff(masks, n - 1);
    }
  }

  // ---------------------------------------------------------------------
  // Comparison operators

  predicate IsKnownSymbol(symbol: string)
  {
    symbol == "=" || symbol == "<=" || symbol == "<" || symbol == ">=" || symbol == ">"
  }

  /** `value <op> target`; an undefined value compares false. */
  function Compare(symbol: string, value: Option<real>, target: real): bool
    requires IsKnownSymbol(symbol)
  {
    value.Some? &&
    if symbol == "=" then value.value == target
    else if symbol == "<=" then value.value <= target
    else if symbol == "<" then value.value < target
    else if symbol == ">=" then value.value >= target
    else value.value > target
  }

  // ---------------------------------------------------------------------
  // FeatureGroupVector.featureIsVisible

  datatype GroupOp = GroupOp(symbol: string, value: real)
  datatype GroupFilter = GroupFilter(metadataName: string, ops: seq<GroupOp>)

  /** (passesOperation, conjunction so far) after the first n operations of
      one filter; `passesOperation` starts false for each filter and an
      operation with an unknown symbol leaves it as it was. */
  function GroupOpsFold(ops: seq<GroupOp>, value: Option<real>, n: nat): (bool, bool)
    requires n <= |ops|
  {
    if n == 0 then (false, true)
    else
      var (passes, all) := GroupOpsFold(ops, value, n - 1);
      var op := ops[n - 1];
      var passes' := if IsKnownSymbol(op.symbol) then Compare(op.symbol, value, op.value) else passes;
      (passes', all && passes')
  }

  function PropOf(props: map<string, real>, name: string): Option<real>
  {
    if name in props then Some(props[name]) else None
  }

  function GroupFilterPasses(f: GroupFilter, props: map<string, real>): bool
  {
    GroupOpsFold(f.ops, PropOf(props, f.metadataName), |f.ops|).1
  }

  /** passesMetadata after the first n metadata filters. */
  function GroupFiltersPass(filters: seq<GroupFilter>, props: map<string, real>, n: nat): bool
    requires n <= |filters|
  {
    if n == 0 then true else GroupFiltersPass(filters, props, n - 1) && GroupFilterPasses(filters[n - 1], props)
  }

  /** featureIsVisible of FeatureGroupVector. */
  method GroupFeatureIsVisible(masks: seq<MaskFilter>, filters: seq<GroupFilter>, props: map<string, real>)
    returns (visible: bool)
    ensures visible == (GroupFiltersPass(filters, props, |filters|) && MasksPass(masks, |masks|))
  {
    var passesMetadata := true;
    var passesLayer := true;
    var i := 0;
    while i < |masks|
      invariant 0 <= i <= |masks|
      invariant passesLayer == MasksPass(masks, i)
    {
      var passesOperation := false;
      if masks[i].intersects && masks[i].symbol == "is in" {
        passesOperation := true;
      } else if !masks[i].intersects && masks[i].symbol == "is not in" {
        passesOperation := true;
      }
      passesLayer := passesLayer && passesOperation;
      i := i + 1;
    }
    var j := 0;
    while j < |filters|
      invariant 0 <= j <= |filters|
      invariant passesMetadata == GroupFiltersPass(filters, props, j)
    {
      var filter := filters[j];
      var passesOperation := false;
      var value := PropOf(props, filter.metadataName);
      ghost var before := passesMetadata;
      var k := 0;
      while k < |filter.ops|
        invariant 0 <= k <= |filter.ops|
        invariant (passesOperation, passesMetadata == (before && GroupOpsFold(filter.ops, value, k).1))
               == (GroupOpsFold(filter.ops, value, k).0, true)
      {
        var op := filter.ops[k];
        if op.symbol == "=" {
          passesOperation := Compare(op.symbol, value, op.value);
        } else if op.symbol == "<=" {
          passesOperation := Compare(op.symbol, value, op.value);
        } else if op.symbol == "<" {
          passesOperation := Compare(op.symbol, value, op.value);
        } else if op.symbol == ">=" {
          passesOperation := Compare(op.symbol, value, op.value);
        } else if op.symbol == ">" {
          passesOperation := Compare(op.symbol, value, op.value);
        }
        passesMetadata := passesMetadata && passesOperation;
        k := k + 1;
      }
      j := j + 1;
    }
    visible := passesMetadata && passesLayer;
  }

  /** With known symbols only, a grouped metadata filter passes iff every
      operation holds. */
  lemma {:induction false} GroupOpsKnownIff(ops: seq<GroupOp>, value: Option<real>, n: nat)
    requires n <= |ops|
    requires forall k :: 0 <= k < n ==> IsKnownSymbol(ops[k].symbol)
    ensures GroupOpsFold(ops, value, n).1 <==> forall k :: 0 <= k < n ==> Compare(ops[k].symbol, value, ops[k].value)
  {
    if n > 0 {
      GroupOpsKnownIff(ops, value, n - 1);
    }
  }

  /** An operation with an unknown symbol inherits the result of the one
      before it: after a passing `<` it passes, on its own it fails. */
  lemma UnknownSymbolInherits()
    ensures GroupFilterPasses(GroupFilter("m", [GroupOp("<", 5.0), GroupOp("~", 0.0)]), map["m" := 3.0])
    ensures !GroupFilterPasses(GroupFilter("m", [GroupOp("~", 0.0)]), map["m" := 3.0])
  {
    var value := PropOf(map["m" := 3.0], "m");
    assert value == Some(3.0);
    var ops := [GroupOp("<", 5.0), GroupOp("~", 0.0)];
    assert !IsKnownSymbol("~");
    assert GroupOpsFold(ops, value, 1) == (true, true);
    assert GroupOpsFold([GroupOp("~", 0.0)], value, 1) == (false, false);
  }

  // ---------------------------------------------------------------------
  // FeatureVector.featureIsVisible

  datatype MetadataKind = Categorical | Continuous

  /** A feature's value of one metadata entry: a category object, a sparse
      Map from field index to value, a dense array, or undefined (the
      feature has no entry of that name). */
  datatype PropValue = CategoryProp(category: int) | SparseProp(entries: map<int, real>) | DenseProp(values: seq<real>) | Undefined

  datatype FieldOp = FieldOp(symbol: string, value: real, field: Option<string>, fieldIdx: int)

  datatype FieldFilter = FieldFilter(kind: MetadataKind, isSparse: bool, fields: seq<string>, ops: seq<FieldOp>)

  /** How a test ends: with a boolean, with `return null`, or with a
      TypeError thrown by a property read on undefined. */
  datatype Outcome = Passes(b: bool) | ReturnsNull | ThrowsTypeError

  function At<T>(s: seq<T>, i: int): Option<T>
  {
    if 0 <= i < |s| then Some(s[i]) else None
  }

  /** `filter.metadataFields[props[name].category]`: undefined unless the
      value is a category object with an index inside the field list. */
  function FeatureField(f: FieldFilter, p: PropValue): Option<string>
  {
    if p.CategoryProp? then At(f.fields, p.category) else None
  }

  /** Categorical: '=' needs the operation's field to be the feature's
      field, any other symbol needs it to differ. */
  function CategoricalOps(ops: seq<FieldOp>, field: Option<string>, n: nat): bool
    requires n <= |ops|
  {
    if n == 0 then true
    else CategoricalOps(ops, field, n - 1)
         && (if ops[n - 1].symbol == "=" then ops[n - 1].field == field else ops[n - 1].field != field)
  }

  /** What reading the value of one operation gives. */
  datatype Read = Value(v: Option<real>) | ReadNull | ReadThrows

  /** The value an operation of a continuous filter reads. Sparse: a value
      that is not a Map makes the test return null, a field missing from the
      Map reads 0. Dense: indexing undefined throws, indexing anything but
      an array gives undefined. */
  function ContinuousValue(f: FieldFilter, p: PropValue, op: FieldOp): Read
  {
    if f.isSparse then
      if !p.SparseProp? then ReadNull
      else if op.fieldIdx in p.entries then Value(Some(p.entries[op.fieldIdx]))
      else Value(Some(0.0))
    else if p.Undefined? then ReadThrows
    else if p.DenseProp? then Value(At(p.values, op.fieldIdx))
    else Value(None)
  }

  /** Continuous: each operation compares; an unknown symbol fails. */
  function ContinuousOps(f: FieldFilter, p: PropValue, n: nat): Outcome
    requires n <= |f.ops|
  {
    if n == 0 then Passes(true)
    else
      match ContinuousOps(f, p, n - 1)
      case Passes(all) =>
        var op := f.ops[n - 1];
        (match ContinuousValue(f, p, op)
         case ReadNull => ReturnsNull
         case ReadThrows => ThrowsTypeError
         case Value(value) =>
           Passes(all && IsKnownSymbol(op.symbol) && Compare(op.symbol, value, op.value)))
      case stop => stop
  }

  /** One filter; a categorical one reads `.category` before its loop. */
  function FilterPasses(f: FieldFilter, p: PropValue): Outcome
  {
    if f.kind == Categorical then
      if p.Undefined? then ThrowsTypeError
      else Passes(CategoricalOps(f.ops, FeatureField(f, p), |f.ops|))
    else ContinuousOps(f, p, |f.ops|)
  }

  /** passesMetadata after the first n filters; the first filter that
      returns null or throws ends the test. */
  function FieldFiltersPass(filters: seq<FieldFilter>, props: seq<PropValue>, n: nat): Outcome
    requires |props| == |filters| && n <= |filters|
  {
    if n == 0 then Passes(true)
    else
      match FieldFiltersPass(filters, props, n - 1)
      case Passes(all) =>
        (match FilterPasses(filters[n - 1], props[n - 1])
         case Passes(b) => Passes(all && b)
         case stop => stop)
      case stop => stop
  }

  /** Once an operation returns null or throws, the filter ends that way. */
  lemma {:induction false} ContinuousStopStays(f: FieldFilter, p: PropValue, k: nat, n: nat)
    requires k <= n <= |f.ops|
    requires !ContinuousOps(f, p, k).Passes?
    ensures ContinuousOps(f, p, n) == ContinuousOps(f, p, k)
  {
    if n > k {
      ContinuousStopStays(f, p, k, n - 1);
    }
  }

  /** Once a filter returns null or throws, the whole test ends that way. */
  lemma {:induction false} FiltersStopStays(filters: seq<FieldFilter>, props: seq<PropValue>, k: nat, n: nat)
    requires |props| == |filters| && k <= n <= |filters|
    requires !FieldFiltersPass(filters, props, k).Passes?
    ensures FieldFiltersPass(filters, props, n) == FieldFiltersPass(filters, props, k)
  {
    if n > k {
      FiltersStopStays(filters, props, k, n - 1);
    }
  }

  /** The test passes through every filter that passes, and otherwise ends
      as the first filter that does not pass ends. */
  lemma {:induction false} FiltersFirstStop(filters: seq<FieldFilter>, props: seq<PropValue>, n: nat)
    requires |props| == |filters| && n <= |filters|
    ensures FieldFiltersPass(filters, props, n).Passes? <==>
      forall k :: 0 <= k < n ==> FilterPasses(filters[k], props[k]).Passes?
    ensures !FieldFiltersPass(filters, props, n).Passes? ==>
      exists j :: 0 <= j < n && (forall k :: 0 <= k < j ==> FilterPasses(filters[k], props[k]).Passes?)
        && FieldFiltersPass(filters, props, n) == FilterPasses(filters[j], props[j])
  {
    if n > 0 {
      FiltersFirstStop(filters, props, n - 1);
      if FieldFiltersPass(filters, props, n - 1).Passes? {
        if !FieldFiltersPass(filters, props, n).Passes? {
          assert FieldFiltersPass(filters, props, n) == FilterPasses(filters[n - 1], props[n - 1]);
        }
      }
    }
  }

  /** A filter throws exactly when the feature has no value for it and the
      filter reads one (a categorical filter always does, a dense continuous
      filter when it has an operation); it returns null exactly when a
      sparse filter with an operation meets a value that is not a Map. */
  lemma FilterOutcomeCases(f: FieldFilter, p: PropValue)
    ensures FilterPasses(f, p) == ThrowsTypeError <==>
      p.Undefined? && (f.kind == Categorical || (!f.isSparse && |f.ops| > 0))
    ensures FilterPasses(f, p) == ReturnsNull <==>
      f.kind == Continuous && f.isSparse && |f.ops| > 0 && !p.SparseProp?
  {
    if f.kind == Continuous {
      ContinuousOpsNeverStopsWhenReadable(f, p, |f.ops|);
      if |f.ops| > 0 && !ContinuousValue(f, p, f.ops[0]).Value? {
        ContinuousStopStays(f, p, 1, |f.ops|);
      }
    }
  }

  /** With a value every operation can read, a continuous filter ends with
      a boolean. */
  lemma {:induction false} ContinuousOpsNeverStopsWhenReadable(f: FieldFilter, p: PropValue, n: nat)
    requires n <= |f.ops|
    ensures (if f.isSparse then p.SparseProp? else !p.Undefined?) || n == 0 ==> ContinuousOps(f, p, n).Passes?
  {
    if n > 0 {
      ContinuousOpsNeverStopsWhenReadable(f, p, n - 1);
    }
  }

  /** featureIsVisible of FeatureVector; `props[k]` is the feature's value
      of the k-th filter's metadata. */
  method FieldFeatureIsVisible(masks: seq<MaskFilter>, filters: seq<FieldFilter>, props: seq<PropValue>)
    returns (r: Outcome)
    requires |props| == |filters|
    ensures r.Passes? <==> FieldFiltersPass(filters, props, |filters|).Passes?
    ensures r.Passes? ==> r.b == (FieldFiltersPass(filters, props, |filters|).b && MasksPass(masks, |masks|))
    ensures !r.Passes? ==> r == FieldFiltersPass(filters, props, |filters|)
  {
    var passesMetadata := true;
    var passesLayer := true;
    var i := 0;
    while i < |masks|
      invariant 0 <= i <= |masks|
      invariant passesLayer == MasksPass(masks, i)
    {
      var passesOperation := false;
      if masks[i].intersects && masks[i].symbol == "is in" {
        passesOperation := true;
      } else if !masks[i].intersects && masks[i].symbol == "is not in" {
        passesOperation := true;
      }
      passesLayer := passesLayer && passesOperation;
      i := i + 1;
    }
    var j := 0;
    while j < |filters|
      invariant 0 <= j <= |filters|
      invariant FieldFiltersPass(filters, props, j) == Passes(passesMetadata)
    {
      var filter := filters[j];
      var obj := props[j];
      ghost var before := passesMetadata;
      if filter.kind == Categorical {
        if obj.Undefined? {
          FiltersStopStays(filters, props, j + 1, |filters|);
          return ThrowsTypeError;
        }
        var field := if obj.CategoryProp? then At(filter.fields, obj.category) else None;
        var k := 0;
        while k < |filter.ops|
          invariant 0 <= k <= |filter.ops|
          invariant passesMetadata == (before && CategoricalOps(filter.ops, field, k))
        {
          var op := filter.ops[k];
          if op.symbol == "=" {
            passesMetadata := passesMetadata && op.field == field;
          } else {
            passesMetadata := passesMetadata && op.field != field;
          }
          k := k + 1;
        }
      } else {
        var k := 0;
        while k < |filter.ops|
          invariant 0 <= k <= |filter.ops|
          invariant ContinuousOps(filter, obj, k).Passes?
          invariant passesMetadata == (before && ContinuousOps(filter, obj, k).b)
        {
          var op := filter.ops[k];
          var value: Option<real>;
          if filter.isSparse {
            if !obj.SparseProp? {
              ContinuousStopStays(filter, obj, k + 1, |filter.ops|);
              FiltersStopStays(filters, props, j + 1, |filters|);
              return ReturnsNull;
            } else if op.fieldIdx in obj.entries {
              value := Some(obj.entries[op.fieldIdx]);
            } else {
              value := Some(0.0);
            }
          } else {
            if obj.Undefined? {
              ContinuousStopStays(filter, obj, k + 1, |filter.ops|);
              FiltersStopStays(filters, props, j + 1, |filters|);
              return ThrowsTypeError;
            }
            value := if obj.DenseProp? then At(obj.values, op.fieldIdx) else None;
          }
          var passesOperation := false;
          if op.symbol == "=" {
            passesOperation := Compare(op.symbol, value, op.value);
          } else if op.symbol == "<=" {
            passesOperation := Compare(op.symbol, value, op.value);
          } else if op.symbol == "<" {
            passesOperation := Compare(op.symbol, value, op.value);
          } else if op.symbol == ">=" {
            passesOperation := Compare(op.symbol, value, op.value);
          } else if op.symbol == ">" {
            passesOperation := Compare(op.symbol, value, op.value);
          }
          passesMetadata := passesMetadata && passesOperation;
          k := k + 1;
        }
      }
      j := j + 1;
    }
    return Passes(passesMetadata && passesLayer);
  }

  /** A categorical filter passes iff every '=' operation names the
      feature's field and every other operation names another field. */
  lemma {:induction false} CategoricalOpsIff(ops: seq<FieldOp>, field: Option<string>, n: nat)
    requires n <= |ops|
    ensures CategoricalOps(ops, field, n) <==>
      forall k :: 0 <= k < n ==> (ops[k].symbol == "=" <==> ops[k].field == field)
  {
    if n > 0 {
      CategoricalOpsIff(ops, field, n - 1);
    }
  }

  /** A dense continuous filter on a defined value passes iff every
      operation has a known symbol and its comparison holds (a value that
      is not an array reads undefined everywhere); on undefined it throws at
      its first operation. */
  lemma {:induction false} ContinuousOpsIff(f: FieldFilter, p: PropValue, n: nat)
    requires f.kind == Continuous && !f.isSparse && n <= |f.ops|
    ensures !p.Undefined? || n == 0 ==> ContinuousOps(f, p, n) == Passes(forall k :: 0 <= k < n ==>
      IsKnownSymbol(f.ops[k].symbol)
      && Compare(f.ops[k].symbol, if p.DenseProp? then At(p.values, f.ops[k].fieldIdx) else None, f.ops[k].value))
    ensures p.Undefined? && n > 0 ==> ContinuousOps(f, p, n) == ThrowsTypeError
  {
    if n > 0 {
      ContinuousOpsIff(f, p, n - 1);
      if p.Undefined? && n > 1 {
        ContinuousStopStays(f, p, 1, n);
      }
    }
  }

  /** A sparse filter with an operation on a feature whose value is not a
      Map makes the whole test null; a field absent from the Map reads 0. */
  lemma SparseCases(f: FieldFilter, p: PropValue, op: FieldOp)
    requires f.kind == Continuous && f.isSparse && op in f.ops
    ensures !p.SparseProp? ==> ContinuousValue(f, p, op) == ReadNull && ContinuousOps(f, p, |f.ops|) == ReturnsNull
    ensures p.SparseProp? && op.fieldIdx !in p.entries ==> ContinuousValue(f, p, op) == Value(Some(0.0))
  {
    if !p.SparseProp? {
      ContinuousStopStays(f, p, 1, |f.ops|);
    }
  }

  // ---------------------------------------------------------------------
  // The group string of each feature (populateInitialFields)

  /** `fgs.join()`: an undefined entry (a feature past the end of a level's
      group array) is written as the empty string. */
  function EntryText(groups: seq<string>, i: nat): string
  {
    if i < |groups| then groups[i] else ""
  }

  /** The group ids of feature i, one per resolution, largest resolution first. */
  function GroupPieces(groupsByResolution: seq<seq<string>>, i: nat): seq<string>
  {
    seq(|groupsByResolution|, j requires 0 <= j < |groupsByResolution| => EntryText(groupsByResolution[j], i))
  }

  /** The loops building `featureGroups`: feature i's group ids over the
      resolutions, joined with commas. */
  method FeatureGroupStrings(groupsByResolution: seq<seq<string>>, numFeatures: nat) returns (featureGroups: seq<string>)
    ensures |featureGroups| == numFeatures
    ensures forall i :: 0 <= i < numFeatures ==> featureGroups[i] == Text.Join(GroupPieces(groupsByResolution, i), ',')
  {
    featureGroups := [];
    var i := 0;
    while i < numFeatures
      invariant 0 <= i <= numFeatures && |featureGroups| == i
      invariant forall k :: 0 <= k < i ==> featureGroups[k] == Text.Join(GroupPieces(groupsByResolution, k), ',')
    {
      var fgs: seq<string> := [];
      var j := 0;
      while j < |groupsByResolution|
        invariant 0 <= j <= |groupsByResolution|
        invariant fgs == GroupPieces(groupsByResolution, i)[..j]
      {
        fgs := fgs + [EntryText(groupsByResolution[j], i)];
        j := j + 1;
      }
      assert fgs == GroupPieces(groupsByResolution, i);
      featureGroups := featureGroups + [Text.Join(fgs, ',')];
      i := i + 1;
    }
  }

  /** The tile loader reads the group string back: its j-th comma field is
      the feature's group at the j-th resolution (for group ids without
      commas and at least one resolution). */
  lemma GroupStringRoundTrip(groupsByResolution: seq<seq<string>>, i: nat, j: nat)
    requires j < |groupsByResolution|
    requires forall r, k :: 0 <= r < |groupsByResolution| && 0 <= k < |groupsByResolution[r]| ==> ',' !in groupsByResolution[r][k]
    ensures VectorLoader.Field(Text.Split(Text.Join(GroupPieces(groupsByResolution, i), ','), ','), j)
         == Some(EntryText(groupsByResolution[j], i))
  {
    var pieces := GroupPieces(groupsByResolution, i);
    Text.SplitJoin(pieces, ',');
  }

  // ---------------------------------------------------------------------
  // FeatureGroupVector: the lists of shown features

  class GroupVectorView {
    const featureNames: seq<string>
    const featureGroups: seq<string>
    var visibleFeatureIndices: seq<int>
    var visibleFeatureGroups: seq<Option<string>>
    var visibleFeatureNames: seq<string>
    var interactedFeatureNames: seq<string>
    /** The names that have a layer (the keys of featureNameToLayer). */
    var layerNames: set<string>

    /** The three lists describe the same features, position by position. */
    ghost predicate Valid()
      reads this
    {
      |visibleFeatureIndices| == |visibleFeatureGroups| == |visibleFeatureNames|
      && (forall k :: 0 <= k < |visibleFeatureNames| ==>
            visibleFeatureIndices[k] == JsArray.IndexOf(featureNames, visibleFeatureNames[k])
            && visibleFeatureGroups[k] == At(featureGroups, visibleFeatureIndices[k]))
      && JsArray.NoDup(interactedFeatureNames)
    }

    constructor(featureNames: seq<string>, featureGroups: seq<string>)
      ensures this.featureNames == featureNames && this.featureGroups == featureGroups
      ensures visibleFeatureIndices == [] && visibleFeatureGroups == [] && visibleFeatureNames == []
      ensures interactedFeatureNames == [] && layerNames == {}
      ensures Valid()
    {
      this.featureNames := featureNames;
      this.featureGroups := featureGroups;
      visibleFeatureIndices := [];
      visibleFeatureGroups := [];
      visibleFeatureNames := [];
      interactedFeatureNames := [];
      layerNames := {};
    }

    /** updateInteractedFeature */
    method UpdateInteractedFeature(featureName: string)
      modifies this`interactedFeatureNames
      ensures interactedFeatureNames == JsArray.PushIfAbsent(old(interactedFeatureNames), featureName)
      ensures JsArray.NoDup(old(interactedFeatureNames)) ==> JsArray.NoDup(interactedFeatureNames)
    {
      if JsArray.NoDup(interactedFeatureNames) {
        JsArray.PushIfAbsentKeepsNoDup(interactedFeatureNames, featureName);
      }
      if featureName !in interactedFeatureNames {
        interactedFeatureNames := interactedFeatureNames + [featureName];
      }
    }

    /** addFeature: a layer is made for the name, and the index, group and
        name are pushed together. */
    method AddFeature(featureName: string)
      requires Valid()
      modifies this`visibleFeatureIndices, this`visibleFeatureGroups, this`visibleFeatureNames, this`interactedFeatureNames, this`layerNames
      ensures Valid()
      ensures var idx := JsArray.IndexOf(featureNames, featureName);
        visibleFeatureIndices == old(visibleFeatureIndices) + [idx]
        && visibleFeatureGroups == old(visibleFeatureGroups) + [At(featureGroups, idx)]
        && visibleFeatureNames == old(visibleFeatureNames) + [featureName]
      ensures interactedFeatureNames == JsArray.PushIfAbsent(old(interactedFeatureNames), featureName)
      ensures layerNames == old(layerNames) + {featureName}
    {
      layerNames := layerNames + {featureName};
      var featureIndex := JsArray.IndexOf(featureNames, featureName);
      var featureGroup := At(featureGroups, featureIndex);
      visibleFeatureIndices := visibleFeatureIndices + [featureIndex];
      visibleFeatureGroups := visibleFeatureGroups + [featureGroup];
      visibleFeatureNames := visibleFeatureNames + [featureName];
      UpdateInteractedFeature(featureName);
    }

    /** removeFeature: the three lists are spliced at the name's index (for
        a name that is not shown, indexOf gives -1 and splice drops the last
        entry). Then the name's layer is removed; a name without a layer
        makes `layer.getSource()` throw a TypeError (ok is false) and the
        interacted list is left as it was. */
    method RemoveFeature(featureName: string) returns (ok: bool)
      requires Valid()
      modifies this`visibleFeatureIndices, this`visibleFeatureGroups, this`visibleFeatureNames, this`interactedFeatureNames, this`layerNames
      ensures Valid()
      ensures var idx := JsArray.IndexOf(old(visibleFeatureNames), featureName);
        visibleFeatureIndices == JsArray.Splice1(old(visibleFeatureIndices), idx)
        && visibleFeatureGroups == JsArray.Splice1(old(visibleFeatureGroups), idx)
        && visibleFeatureNames == JsArray.Splice1(old(visibleFeatureNames), idx)
      ensures ok <==> featureName in old(layerNames)
      ensures ok ==> layerNames == old(layerNames) - {featureName}
      ensures ok ==> interactedFeatureNames == JsArray.PushIfAbsent(old(interactedFeatureNames), featureName)
      ensures !ok ==> layerNames == old(layerNames) && interactedFeatureNames == old(interactedFeatureNames)
    {
      var featureIndex := JsArray.IndexOf(visibleFeatureNames, featureName);
      JsArray.SpliceKeepsPairs(visibleFeatureNames, visibleFeatureIndices, featureIndex,
        (name, idx) => idx == JsArray.IndexOf(featureNames, name));
      JsArray.SpliceKeepsPairs(visibleFeatureIndices, visibleFeatureGroups, featureIndex,
        (idx, group) => group == At(featureGroups, idx));
      var indices := JsArray.Splice1(visibleFeatureIndices, featureIndex);
      var groups := JsArray.Splice1(visibleFeatureGroups, featureIndex);
      var names := JsArray.Splice1(visibleFeatureNames, featureIndex);
      visibleFeatureIndices, visibleFeatureGroups, visibleFeatureNames := indices, groups, names;
      if featureName !in layerNames {
        return false;
      }
      layerNames := layerNames - {featureName};
      UpdateInteractedFeature(featureName);
      ok := true;
    }
  }

  // ---------------------------------------------------------------------
  // FeatureVector: shown fields and stroke width

  class FieldVectorView {
    const metadataFields: seq<string>
    const kind: MetadataKind
    var visibleFieldIndices: seq<int>
    var visibleFields: seq<string>
    var interactedFieldNames: seq<string>
    var interactedFieldIndices: seq<int>
    var strokeWidth: real

    /** Shown and interacted fields are each kept with their indices. */
    ghost predicate Valid()
      reads this
    {
      |visibleFieldIndices| == |visibleFields|
      && (forall k :: 0 <= k < |visibleFields| ==> visibleFieldIndices[k] == JsArray.IndexOf(metadataFields, visibleFields[k]))
      && |interactedFieldIndices| == |interactedFieldNames|
      && (forall k :: 0 <= k < |interactedFieldNames| ==>
            interactedFieldIndices[k] == JsArray.IndexOf(metadataFields, interactedFieldNames[k]))
      && JsArray.NoDup(interactedFieldNames)
    }

    constructor(metadataFields: seq<string>, kind: MetadataKind, strokeWidth: real)
      ensures this.metadataFields == metadataFields && this.kind == kind && this.strokeWidth == strokeWidth
      ensures visibleFields == [] && visibleFieldIndices == [] && interactedFieldNames == [] && interactedFieldIndices == []
      ensures Valid()
    {
      this.metadataFields := metadataFields;
      this.kind := kind;
      this.strokeWidth := strokeWidth;
      visibleFieldIndices := [];
      visibleFields := [];
      interactedFieldNames := [];
      interactedFieldIndices := [];
    }

    /** addFeature: a categorical layer adds the field; a continuous layer
        shows only the new field. */
    method AddFeature(featureName: string)
      requires Valid()
      modifies this`visibleFieldIndices, this`visibleFields
      ensures Valid()
      ensures kind == Categorical ==> visibleFields == old(visibleFields) + [featureName]
      ensures kind == Continuous ==> visibleFields == [featureName]
    {
      var fieldIndex := JsArray.IndexOf(metadataFields, featureName);
      if kind == Categorical {
        visibleFieldIndices := visibleFieldIndices + [fieldIndex];
        visibleFields := visibleFields + [featureName];
      } else {
        visibleFieldIndices := [fieldIndex];
        visibleFields := [featureName];
      }
    }

    /** removeFeature: both lists spliced at the field's index. */
    method RemoveFeature(featureName: string)
      requires Valid()
      modifies this`visibleFieldIndices, this`visibleFields
      ensures Valid()
      ensures visibleFields == JsArray.RemoveAt(old(visibleFields), featureName)
      ensures visibleFieldIndices == JsArray.Splice1(old(visibleFieldIndices), JsArray.IndexOf(old(visibleFields), featureName))
    {
      var fieldIndex := JsArray.IndexOf(visibleFields, featureName);
      JsArray.SpliceKeepsPairs(visibleFields, visibleFieldIndices, fieldIndex,
        (field, idx) => idx == JsArray.IndexOf(metadataFields, field));
      var indices := JsArray.Splice1(visibleFieldIndices, fieldIndex);
      var fields := JsArray.Splice1(visibleFields, fieldIndex);
      visibleFieldIndices, visibleFields := indices, fields;
    }

    /** updateInteractedField: name and index are appended together, once. */
    method UpdateInteractedField(field: string)
      requires Valid()
      modifies this`interactedFieldNames, this`interactedFieldIndices
      ensures Valid()
      ensures interactedFieldNames == JsArray.PushIfAbsent(old(interactedFieldNames), field)
      ensures field !in old(interactedFieldNames) ==>
        interactedFieldIndices == old(interactedFieldIndices) + [JsArray.IndexOf(metadataFields, field)]
      ensures field in old(interactedFieldNames) ==> interactedFieldIndices == old(interactedFieldIndices)
    {
      JsArray.PushIfAbsentKeepsNoDup(interactedFieldNames, field);
      if field !in interactedFieldNames {
        interactedFieldNames := interactedFieldNames + [field];
        interactedFieldIndices := interactedFieldIndices + [JsArray.IndexOf(metadataFields, field)];
      }
    }

    /** setStrokeWidth: the width never drops below 0.01. */
    method SetStrokeWidth(w: real)
      modifies this`strokeWidth
      ensures strokeWidth >= 0.01
      ensures strokeWidth == if w > 0.01 then w else 0.01
    {
      strokeWidth := if 0.01 > w then 0.01 else w;
    }
  }
}
