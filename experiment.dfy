// The experiment client (cosilico-py/src/cosilico_py/client/experiment.py):
// first-occurrence de-duplication, the choice of the level to read, the
// reassembly of an image from its tile array, layer and metadata lookups in
// the bundle, and the checks made before a metadata record is added.
module Experiment {
  import opened Wrappers
  import Text
  import Models
  import Pyramid
  import Arith

  // ---------------------------------------------------------------------
  // first_occurrence_indices

  /** i is the position where xs[i] first occurs. */
  predicate IsFirstOccurrence<T(==)>(xs: seq<T>, i: int)
  {
    0 <= i < |xs| && xs[i] !in xs[..i]
  }

  /** first_occurrence_indices: the positions where a value occurs for the
      first time, in increasing order. Their values are pairwise distinct and
      cover every value of xs. */
  method FirstOccurrenceIndices<T(==,!new)>(xs: seq<T>) returns (idxs: seq<nat>)
    ensures forall k :: 0 <= k < |idxs| ==> idxs[k] < |xs| && IsFirstOccurrence(xs, idxs[k])
    ensures forall i :: IsFirstOccurrence(xs, i) ==> i in idxs
    ensures forall k, l :: 0 <= k < l < |idxs| ==> idxs[k] < idxs[l]
    ensures forall k, l :: 0 <= k < l < |idxs| ==> xs[idxs[k]] != xs[idxs[l]]
    ensures forall x :: x in xs ==> exists k :: 0 <= k < |idxs| && xs[idxs[k]] == x
  {
    var seen: set<T> := {};
    idxs := [];
    for i := 0 to |xs|
      invariant Scanned(xs, i, seen, idxs)
    {
      ScanStep(xs, i, seen, idxs);
      if xs[i] !in seen {
        seen := seen + {xs[i]};
        idxs := idxs + [i];
      }
    }
    ScannedAll(xs, seen, idxs);
  }

  /** The state of the scan after the first i values: `seen` holds them and
      `idxs` lists, in increasing order, the positions among them where a
      value first occurs. */
  ghost predicate Scanned<T(!new)>(xs: seq<T>, i: nat, seen: set<T>, idxs: seq<nat>)
    requires i <= |xs|
  {
    && (forall x :: x in seen <==> x in xs[..i])
    && (forall k :: 0 <= k < |idxs| ==> idxs[k] < i && IsFirstOccurrence(xs, idxs[k]))
    && (forall j :: 0 <= j < i && IsFirstOccurrence(xs, j) ==> j in idxs)
    && (forall k, l :: 0 <= k < l < |idxs| ==> idxs[k] < idxs[l])
    && (forall x :: x in seen ==> exists k :: 0 <= k < |idxs| && xs[idxs[k]] == x)
  }

  lemma ScanStep<T(!new)>(xs: seq<T>, i: nat, seen: set<T>, idxs: seq<nat>)
    requires i < |xs| && Scanned(xs, i, seen, idxs)
    ensures xs[i] in seen ==> Scanned(xs, i + 1, seen, idxs)
    ensures xs[i] !in seen ==> Scanned(xs, i + 1, seen + {xs[i]}, idxs + [i])
  {
    assert xs[..i + 1] == xs[..i] + [xs[i]];
    if xs[i] in seen {
      assert !IsFirstOccurrence(xs, i);
    } else {
      var idxs' := idxs + [i];
      assert xs[idxs'[|idxs|]] == xs[i];
      forall x | x in seen + {xs[i]}
        ensures exists k :: 0 <= k < |idxs'| && xs[idxs'[k]] == x
      {
        if x in seen {
          var k :| 0 <= k < |idxs| && xs[idxs[k]] == x;
          assert idxs'[k] == idxs[k];
        }
      }
    }
  }

  lemma ScannedAll<T(!new)>(xs: seq<T>, seen: set<T>, idxs: seq<nat>)
    requires Scanned(xs, |xs|, seen, idxs)
    ensures forall k :: 0 <= k < |idxs| ==> idxs[k] < |xs| && IsFirstOccurrence(xs, idxs[k])
    ensures forall i :: IsFirstOccurrence(xs, i) ==> i in idxs
    ensures forall k, l :: 0 <= k < l < |idxs| ==> idxs[k] < idxs[l]
    ensures forall k, l :: 0 <= k < l < |idxs| ==> xs[idxs[k]] != xs[idxs[l]]
    ensures forall x :: x in xs ==> exists k :: 0 <= k < |idxs| && xs[idxs[k]] == x
  {
    assert xs[..|xs|] == xs;
    forall k, l | 0 <= k < l < |idxs|
      ensures xs[idxs[k]] != xs[idxs[l]]
    {
      assert xs[idxs[k]] == xs[..idxs[l]][idxs[k]];
    }
  }

  /** The position of the first occurrence of a value present in xs. */
  function FirstIndex<T(==)>(xs: seq<T>, x: T): (i: nat)
    requires x in xs
    ensures IsFirstOccurrence(xs, i) && xs[i] == x
  {
    if xs[0] == x then 0
    else
      var i := FirstIndex(xs[1..], x);
      assert xs[1..][..i] == xs[1..i + 1];
      assert xs[..i + 1] == [xs[0]] + xs[1..i + 1];
      i + 1
  }

  // ---------------------------------------------------------------------
  // The level read back: the smallest integer zoom key

  datatype LevelError = NotAnInteger(key: string) | NoLevels

  /** `min([int(x) for x in keys])`: a key that is not an integer raises
      first; an empty key list makes `min` raise. */
  function MinLevel(keys: seq<string>): (r: Result<int, LevelError>)
    ensures r.Ok? ==> (
      && |keys| > 0
      && (exists k :: 0 <= k < |keys| && Text.PyInt(keys[k]) == Some(r.value))
      && (forall k :: 0 <= k < |keys| ==> Text.PyInt(keys[k]).Some? && r.value <= Text.PyInt(keys[k]).value))
    ensures r == Err(NoLevels) <==> |keys| == 0
    ensures r.Err? && r.error.NotAnInteger? ==> r.error.key in keys && Text.PyInt(r.error.key).None?
  {
    if |keys| == 0 then Err(NoLevels)
    else
      match Text.PyInt(keys[0])
      case None => Err(NotAnInteger(keys[0]))
      case Some(v) =>
        if |keys| == 1 then Ok(v)
        else
          match MinLevel(keys[1..])
          case Err(e) => Err(e)
          case Ok(w) => Ok(if v <= w then v else w)
  }

  /** The zoom groups of an image are named by its resolution plan, so the
      level read back is the full-resolution one, stored as the tile size. */
  lemma {:induction false} ReadLevelIsTileSize(plan: seq<nat>, tileSize: nat, maxDim: nat, scaler: nat)
    requires Pyramid.IsResolutionPlan(plan, tileSize, maxDim, scaler) && scaler >= 1
    ensures MinLevel(seq(|plan|, i requires 0 <= i < |plan| => Text.NatToDecimal(plan[i]))) == Ok(tileSize)
  {
    var keys := seq(|plan|, i requires 0 <= i < |plan| => Text.NatToDecimal(plan[i]));
    forall i | 0 <= i < |plan| ensures Text.PyInt(keys[i]) == Some(plan[i]) && tileSize <= plan[i] {
      Text.PyIntOfDecimal(plan[i]);
      PlanAtLeastFirst(plan, tileSize, maxDim, scaler, i);
    }
    var r := MinLevel(keys);
    assert Text.PyInt(keys[0]) == Some(tileSize);
    assert r.Ok? by {
      if r.Err? {
        assert false;
      }
    }
  }

  lemma {:induction false} PlanAtLeastFirst(plan: seq<nat>, tileSize: nat, maxDim: nat, scaler: nat, i: nat)
    requires Pyramid.IsResolutionPlan(plan, tileSize, maxDim, scaler) && scaler >= 1
    requires i < |plan|
    ensures tileSize <= plan[i]
  {
    if i > 0 {
      PlanAtLeastFirst(plan, tileSize, maxDim, scaler, i - 1);
      assert plan[i] == plan[i - 1] * scaler;
    }
  }

  // ---------------------------------------------------------------------
  // generate_image_data: reassembly of the tile array

  /** `einsum('abcdefg->afbgcde')` followed by `reshape(a*f, b*g, c, d, e)`,
      as written: output (a*F + f, b*G + g) holds tile (a, b) at row f,
      column g. */
  function ReassembleAsWritten(arr: Pyramid.Array7): (out: Pyramid.Volume)
    ensures out.sx == arr.d0 * arr.d5 && out.sy == arr.d1 * arr.d6
    ensures out.sz == arr.d2 && out.sc == arr.d3 && out.st == arr.d4
  {
    Pyramid.Volume(arr.d0 * arr.d5, arr.d1 * arr.d6, arr.d2, arr.d3, arr.d4,
      (x: nat, y: nat, c: nat, d: nat, e: nat) =>
        if arr.d5 > 0 && arr.d6 > 0 then arr.at(x / arr.d5, y / arr.d6, c, d, e, x % arr.d5, y % arr.d6) else 0)
  }

  /** Entry (f, g) of tile (a, b) is pixel (a*F + f, b*G + g) of the image
      read back as written. */
  lemma {:induction false} ReassembleAsWrittenPlacesTiles(arr: Pyramid.Array7)
    ensures forall a: nat, b: nat, c: nat, d: nat, e: nat, f: nat, g: nat ::
      a < arr.d0 && b < arr.d1 && f < arr.d5 && g < arr.d6 ==>
        ReassembleAsWritten(arr).at(a * arr.d5 + f, b * arr.d6 + g, c, d, e) == arr.at(a, b, c, d, e, f, g)
  {
    forall a: nat, b: nat, c: nat, d: nat, e: nat, f: nat, g: nat |
      a < arr.d0 && b < arr.d1 && f < arr.d5 && g < arr.d6
    {
      ReassembleAsWrittenAt(arr, a, b, c, d, e, f, g);
    }
  }

  lemma ReassembleAsWrittenAt(arr: Pyramid.Array7, a: nat, b: nat, c: nat, d: nat, e: nat, f: nat, g: nat)
    requires f < arr.d5 && g < arr.d6
    ensures ReassembleAsWritten(arr).at(a * arr.d5 + f, b * arr.d6 + g, c, d, e) == arr.at(a, b, c, d, e, f, g)
  {
    Arith.CellIndex(a, f, arr.d5);
    Arith.CellIndex(b, g, arr.d6);
  }

  /** Composed with the writer, the reader as written transposes every tile:
      pixel (i*ts + q, j*ts + p) of the result is pixel (i*ts + p, j*ts + q)
      of the level. */
  lemma {:induction false} ReassembleAsWrittenTransposesTiles(level: Pyramid.Volume, ts: nat,
      i: nat, j: nat, p: nat, q: nat, z: nat, c: nat, t: nat)
    requires ts > 0 && level.sx % ts == 0 && level.sy % ts == 0
    requires p < ts && q < ts
    ensures var out := ReassembleAsWritten(Pyramid.TileArray(level, ts));
      out.at(i * ts + q, j * ts + p, z, c, t) == level.at(i * ts + p, j * ts + q, z, c, t)
  {
    Arith.CellIndex(i, q, ts);
    Arith.CellIndex(j, p, ts);
  }

  /** A 2x2 level with a single bright pixel at (1, 0) reads back with the
      bright pixel at (0, 1). */
  lemma ReassembleAsWrittenIsNotIdentity()
    ensures var level := Pyramid.Volume(2, 2, 1, 1, 1,
              (x: nat, y: nat, z: nat, c: nat, t: nat) => if x == 1 && y == 0 then 1 else 0);
      var out := ReassembleAsWritten(Pyramid.TileArray(level, 2));
      out.sx == level.sx && out.sy == level.sy
      && out.at(0, 1, 0, 0, 0) == 1 && level.at(0, 1, 0, 0, 0) == 0
  {
    var level := Pyramid.Volume(2, 2, 1, 1, 1,
      (x: nat, y: nat, z: nat, c: nat, t: nat) => if x == 1 && y == 0 then 1 else 0);
    ReassembleAsWrittenTransposesTiles(level, 2, 0, 0, 1, 0, 0, 0, 0);
  }

  /** The reassembly the writer's layout calls for:
      `einsum('abcdefg->agbfcde')` followed by `reshape(a*g, b*f, c, d, e)`. */
  function ReassembleTiles(arr: Pyramid.Array7): (out: Pyramid.Volume)
    ensures out.sx == arr.d0 * arr.d6 && out.sy == arr.d1 * arr.d5
    ensures out.sz == arr.d2 && out.sc == arr.d3 && out.st == arr.d4
  {
    Pyramid.Volume(arr.d0 * arr.d6, arr.d1 * arr.d5, arr.d2, arr.d3, arr.d4,
      (x: nat, y: nat, c: nat, d: nat, e: nat) =>
        if arr.d5 > 0 && arr.d6 > 0 then arr.at(x / arr.d6, y / arr.d5, c, d, e, y % arr.d5, x % arr.d6) else 0)
  }

  /** Reading back what was written gives the level: same extents, same
      pixel at every position. */
  lemma {:induction false} ReassembleRoundTrip(level: Pyramid.Volume, ts: nat)
    requires ts > 0 && level.sx % ts == 0 && level.sy % ts == 0
    ensures var out := ReassembleTiles(Pyramid.TileArray(level, ts));
      && out.sx == level.sx && out.sy == level.sy
      && out.sz == level.sz && out.sc == level.sc && out.st == level.st
      && forall x: nat, y: nat, z: nat, c: nat, t: nat :: x < level.sx && y < level.sy ==>
           out.at(x, y, z, c, t) == level.at(x, y, z, c, t)
  {
    var out := ReassembleTiles(Pyramid.TileArray(level, ts));
    Arith.MultipleIs(level.sx, ts);
    Arith.MultipleIs(level.sy, ts);
    forall x: nat, y: nat, z: nat, c: nat, t: nat | x < level.sx && y < level.sy
      ensures out.at(x, y, z, c, t) == level.at(x, y, z, c, t)
    {
      Arith.Euclid(x, ts);
      Arith.Euclid(y, ts);
    }
  }

  // ---------------------------------------------------------------------
  // Bundle lookups

  /** The bundle's metadata records for one layer, in bundle order. */
  function MetadataOfLayer(all: seq<Models.LayerMetadataRecord>, layerId: string): (r: seq<Models.LayerMetadataRecord>)
    ensures |r| <= |all|
    ensures forall m :: m in r <==> m in all && m.layerId == layerId
  {
    if |all| == 0 then []
    else
      var rest := MetadataOfLayer(all[1..], layerId);
      assert forall m :: m in all <==> m == all[0] || m in all[1..];
      if all[0].layerId == layerId then [all[0]] + rest else rest
  }

  /** The records are filtered in place: the filter of a concatenation is
      the concatenation of the filters, and a single record is kept iff it
      belongs to the layer. Together these fix order and multiplicity. */
  lemma {:induction false} MetadataOfLayerIsFilter(a: seq<Models.LayerMetadataRecord>, b: seq<Models.LayerMetadataRecord>,
      m: Models.LayerMetadataRecord, layerId: string)
    ensures MetadataOfLayer(a + b, layerId) == MetadataOfLayer(a, layerId) + MetadataOfLayer(b, layerId)
    ensures MetadataOfLayer([m], layerId) == if m.layerId == layerId then [m] else []
  {
    assert [m][1..] == [];
    if |a| == 0 {
      assert a + b == b;
    } else {
      assert (a + b)[0] == a[0];
      assert (a + b)[1..] == a[1..] + b;
      MetadataOfLayerIsFilter(a[1..], b, m, layerId);
      if a[0].layerId == layerId {
        assert [a[0]] + MetadataOfLayer(a[1..], layerId) + MetadataOfLayer(b, layerId)
            == [a[0]] + (MetadataOfLayer(a[1..], layerId) + MetadataOfLayer(b, layerId));
      }
    }
  }

  function NamesOf(ms: seq<Models.LayerMetadataRecord>): (names: seq<string>)
    ensures |names| == |ms|
    ensures forall k :: 0 <= k < |ms| ==> names[k] == ms[k].name
  {
    seq(|ms|, k requires 0 <= k < |ms| => ms[k].name)
  }

  datatype LookupError = LayerNotFound(layerName: string) | MetadataNotFound(metadataName: string)

  /** The first element of `ms` that `P` accepts, or None. */
  function FirstWhere<T>(ms: seq<T>, P: T -> bool): (r: Option<nat>)
    ensures r.Some? ==> r.value < |ms| && P(ms[r.value]) && forall k :: 0 <= k < r.value ==> !P(ms[k])
    ensures r.None? ==> forall k :: 0 <= k < |ms| ==> !P(ms[k])
  {
    if |ms| == 0 then None
    else if P(ms[0]) then Some(0)
    else match FirstWhere(ms[1..], P)
      case None => None
      case Some(k) => Some(k + 1)
  }

  /** Position k holds the first record named `name`. */
  predicate IsFirstNamed(ms: seq<Models.LayerMetadataRecord>, name: string, k: int)
  {
    0 <= k < |ms| && ms[k].name == name && forall k' :: 0 <= k' < k ==> ms[k'].name != name
  }

  datatype MetadataError = DuplicateName(name: string) | IdSetMismatch

  /** Experiment: the client-side bundle of one experiment. */
  class Session {
    var images: seq<Models.ImageRecord>
    var layers: seq<Models.LayerRecord>
    var layerMetadata: seq<Models.LayerMetadataRecord>

    /** Metadata names are unique within each layer. */
    ghost predicate Valid()
      reads this
    {
      forall i, j :: 0 <= i < j < |layerMetadata| && layerMetadata[i].layerId == layerMetadata[j].layerId
        ==> layerMetadata[i].name != layerMetadata[j].name
    }

    constructor (images: seq<Models.ImageRecord>, layers: seq<Models.LayerRecord>, layerMetadata: seq<Models.LayerMetadataRecord>)
      ensures this.images == images && this.layers == layers && this.layerMetadata == layerMetadata
    {
      this.images := images;
      this.layers := layers;
      this.layerMetadata := layerMetadata;
    }

    /** get_layer: the first layer with the name; an assertion fails otherwise. */
    function GetLayer(name: string): (r: Result<Models.LayerRecord, LookupError>)
      reads this
      ensures r.Ok? ==> (exists k :: (
        && 0 <= k < |layers| && layers[k] == r.value && r.value.name == name
        && forall k' :: 0 <= k' < k ==> layers[k'].name != name))
      ensures r.Err? <==> forall k :: 0 <= k < |layers| ==> layers[k].name != name
    {
      match FirstWhere(layers, (l: Models.LayerRecord) => l.name == name)
      case None => Err(LayerNotFound(name))
      case Some(k) => Ok(layers[k])
    }

    /** get_layer_metadata without a name: the records of the layer. */
    function GetLayerMetadata(layer: Models.LayerRecord): (r: seq<Models.LayerMetadataRecord>)
      reads this
      ensures r == MetadataOfLayer(layerMetadata, layer.id)
      ensures forall m :: m in r <==> m in layerMetadata && m.layerId == layer.id
    {
      MetadataOfLayer(layerMetadata, layer.id)
    }

    /** get_layer_metadata with a name: the first record of the layer with
        that name; an assertion fails when there is none. */
    function GetNamedLayerMetadata(layer: Models.LayerRecord, name: string): (r: Result<Models.LayerMetadataRecord, LookupError>)
      reads this
      ensures r.Ok? ==> r.value in layerMetadata && r.value.layerId == layer.id && r.value.name == name
      ensures r.Ok? ==> exists k :: IsFirstNamed(MetadataOfLayer(layerMetadata, layer.id), name, k) && r.value == MetadataOfLayer(layerMetadata, layer.id)[k]
      ensures r.Err? <==> forall m :: m in layerMetadata && m.layerId == layer.id ==> m.name != name
    {
      var lms := MetadataOfLayer(layerMetadata, layer.id);
      match FirstWhere(lms, (m: Models.LayerMetadataRecord) => m.name == name)
      case None => Err(MetadataNotFound(name))
      case Some(k) =>
        assert IsFirstNamed(lms, name, k);
        Ok(lms[k])
    }

    /** add_continuous_layer_metadata and create_categorical_layer_metadata:
        the name must be new for the layer and the ids of the values must be
        the layer's object ids (as sets); the record the writer produces for
        (layer, name) is then appended. The writer itself lives in a module
        that is not part of this model, so the record's id, fields and
        sparsity are parameters. */
    method AddLayerMetadata(name: string, kind: Models.MetadataType, valueIds: seq<string>, layer: Models.LayerRecord,
                            layerIds: seq<string>, newId: string, fields: seq<string>)
      returns (r: Result<Models.LayerMetadataRecord, MetadataError>)
      modifies this`layerMetadata
      ensures old(Valid()) ==> Valid()
      ensures r.Ok? <==>
        && (forall m :: m in old(layerMetadata) && m.layerId == layer.id ==> m.name != name)
        && (set k | 0 <= k < |valueIds| :: valueIds[k]) == (set k | 0 <= k < |layerIds| :: layerIds[k])
      ensures (exists m :: m in old(layerMetadata) && m.layerId == layer.id && m.name == name)
        ==> r == Err(DuplicateName(name)) && layerMetadata == old(layerMetadata)
      ensures (forall m :: m in old(layerMetadata) && m.layerId == layer.id ==> m.name != name)
        && (set k | 0 <= k < |valueIds| :: valueIds[k]) != (set k | 0 <= k < |layerIds| :: layerIds[k])
        ==> r == Err(IdSetMismatch) && layerMetadata == old(layerMetadata)
      ensures r.Ok? ==> (
        && r.value.layerId == layer.id && r.value.name == name && r.value.metadataType == kind
        && layerMetadata == old(layerMetadata) + [r.value])
    {
      var current := NamesOf(GetLayerMetadata(layer));
      if name in current {
        var k :| 0 <= k < |current| && current[k] == name;
        assert GetLayerMetadata(layer)[k] in GetLayerMetadata(layer);
        return Err(DuplicateName(name));
      }
      if (set k | 0 <= k < |valueIds| :: valueIds[k]) != (set k | 0 <= k < |layerIds| :: layerIds[k]) {
        return Err(IdSetMismatch);
      }
      var record := Models.NewLayerMetadata(newId, layer.id, name, kind, false, fields, "");
      forall i | 0 <= i < |layerMetadata| && layerMetadata[i].layerId == layer.id
        ensures layerMetadata[i].name != name
      {
        assert layerMetadata[i] in GetLayerMetadata(layer);
        var k :| 0 <= k < |GetLayerMetadata(layer)| && GetLayerMetadata(layer)[k] == layerMetadata[i];
        assert current[k] == layerMetadata[i].name;
      }
      layerMetadata := layerMetadata + [record];
      r := Ok(record);
    }

    /** generate_image_data on the tile array of the smallest level, as
        written: entry (f, g) of tile (a, b) lands at (a*F + f, b*G + g), so
        a level written by the pyramid writer comes back with every tile
        transposed (`ReassembleAsWrittenTransposesTiles`). */
    function GenerateImageData(tiles: Pyramid.Array7): (out: Pyramid.Volume)
      ensures out == ReassembleAsWritten(tiles)
      ensures out.sx == tiles.d0 * tiles.d5 && out.sy == tiles.d1 * tiles.d6
      ensures out.sz == tiles.d2 && out.sc == tiles.d3 && out.st == tiles.d4
      ensures forall a: nat, b: nat, c: nat, d: nat, e: nat, f: nat, g: nat ::
        a < tiles.d0 && b < tiles.d1 && f < tiles.d5 && g < tiles.d6 ==>
          out.at(a * tiles.d5 + f, b * tiles.d6 + g, c, d, e) == tiles.at(a, b, c, d, e, f, g)
    {
      ReassembleAsWrittenPlacesTiles(tiles);
      ReassembleAsWritten(tiles)
    }
  }

  // ---------------------------------------------------------------------
  // Sparse extraction: keep first occurrences, then reorder to id_order

  datatype ReorderError = MissingId(id: string)

  /** The value of the first row carrying `id`. */
  function FirstValue<V>(ids: seq<string>, values: seq<V>, id: string): V
    requires |ids| == |values| && id in ids
  {
    values[FirstIndex(ids, id)]
  }

  /** `adata[first_occurrence_indices(adata.obs.index)]` then `adata[id_order]`:
      one row per requested id, the first row that carried it. */
  function SparseReorder<V>(ids: seq<string>, values: seq<V>, idOrder: seq<string>): (r: Result<seq<V>, ReorderError>)
    requires |ids| == |values|
    ensures r.Ok? <==> forall k :: 0 <= k < |idOrder| ==> idOrder[k] in ids
    ensures r.Ok? ==> (
      && |r.value| == |idOrder|
      && forall k :: 0 <= k < |idOrder| ==> r.value[k] == FirstValue(ids, values, idOrder[k]))
    ensures r.Err? ==> r.error.id in idOrder && r.error.id !in ids
  {
    if |idOrder| == 0 then Ok([])
    else if idOrder[0] !in ids then Err(MissingId(idOrder[0]))
    else
      match SparseReorder(ids, values, idOrder[1..])
      case Err(e) => Err(e)
      case Ok(rest) => Ok([FirstValue(ids, values, idOrder[0])] + rest)
  }
}
