# Cosilico preprocessing and viewer core, modelled in Dafny

Cosilico turns spatial-omics experiments into zarr stores and shows them in a
browser. The Python package `cosilico-py` does the writing:
- it cuts images into a pyramid of tiles;
- it groups transcripts and other point features by frequency and by grid cell;
- it aggregates points into per-bin centroids;
- it plans the layers of a 10x Xenium experiment;
- it builds the user's directory tree with the permission resolved on every node.

The viewer does the reading:
- it picks a pyramid level;
- it loads an image tile and converts it to 8-bit RGBA;
- it blends channels into colours;
- it decides which point feature groups to request for a vector tile;
- it keeps the lists of shown features, fields and channels in step.

This project models that logic. Pure rules are Dafny functions. Loops are
methods with invariants, proved against a specification function. Objects whose
methods update their fields are classes. The properties the code promises are
lemmas. Each module models one source file:

| module | source file |
|---|---|
| `Pyramid` | `cosilico-py/src/cosilico_py/preprocessing/core/image.py` |
| `TiledGroups`, `GridCentroids`, `GridCentroidsProofs` | `cosilico-py/src/cosilico_py/preprocessing/core/tiling.py` |
| `Experiment` | `cosilico-py/src/cosilico_py/client/experiment.py` |
| `Conversion` | `cosilico-py/src/cosilico_py/preprocessing/core/conversion.py` |
| `Ome` | `cosilico-py/src/cosilico_py/preprocessing/core/ome.py` |
| `ZarrGroup` | `cosilico-py/src/cosilico_py/preprocessing/core/zarr.py` |
| `Xenium` | `cosilico-py/src/cosilico_py/preprocessing/platforms/x10_xenium.py` |
| `DirectoryTree`, `NodePath` | `cosilico-py/src/cosilico_py/client/structure.py` |
| `Models` | `cosilico-py/src/cosilico_py/models.py` |
| `ZarrTile` | `cosilico-viewer/src/lib/openlayers/ZarrTile.js` |
| `ZarrHelpers` | `cosilico-viewer/src/lib/openlayers/ZarrHelpers.js` |
| `OpenlayersHelpers` | `cosilico-viewer/src/lib/openlayers/OpenlayersHelpers.js` |
| `OmeHelpers` | `cosilico-viewer/src/lib/openlayers/OmeHelpers.js` |
| `PixelTransforms` | `viewer/src/lib/openlayers/PixelTransforms.js` |
| `VectorLoader` | `my-svelte-project/src/lib/ZarrVectorLoader.js` |
| `Vector` | `cosilico-viewer/src/lib/openlayers/Vector.js` |
| `ImageView` | `cosilico-viewer/src/lib/openlayers/Image.js` |

A few helper modules support these:
- `Wrappers` holds Option and Result.
- `JsArray` models `indexOf`, `includes`, `splice(i, 1)` (including index -1) and first-seen dedup.
- `Text` models decimal text, `parseInt`, `split` and `join`.
- `Arith` holds small arithmetic facts.

A few modelling choices apply throughout.

**Numbers.** Integers are unbounded. Floating-point values are exact rationals
(`real`). Python's `//` and `%` are written as floor division (`TiledGroups.PyDiv`,
`TiledGroups.PyMod`).

**Arrays.** An image is a `Pyramid.Volume`: its five extents plus a function from
(x, y, z, c, t) to the stored value. The 7-D tile array is an `Array7` of the same
kind. Reshape and transpose are therefore exact index maps.

**Outside inputs.** Library results the logic depends on are parameters: the
values scipy's `zoom` produces, a palette, uuids.

**Error paths.** A Python exception or a JavaScript throw is the `Err` case of a
`Result`, with the source's error kind.

## Model

| member | source | states |
|---|---|---|
| Pyramid.GetResolutions | cosilico-py/src/cosilico_py/preprocessing/core/image.py:19-38 | the sizes start at the tile size and grow by the scaler; every size but the last is below the largest dimension and the last reaches it; the result is exactly `[tile_size]` iff the tile already covers the image |
| Pyramid.ResolutionPlanUnique | cosilico-py/src/cosilico_py/preprocessing/core/image.py:27-38 | those conditions determine the plan: two plans for the same inputs are equal |
| Pyramid.ResolutionLoopNeverEnds | cosilico-py/src/cosilico_py/preprocessing/core/image.py:29-31 | with a scaler of at most 1 (or a zero tile) and a tile below the largest dimension, `min_res` never reaches the dimension, so the loop never exits |
| Pyramid.PaddedSize | cosilico-py/src/cosilico_py/preprocessing/core/image.py:50-51 | the padded size is the least multiple of the tile that is at least the size, with less than one tile added |
| Pyramid.Pad | cosilico-py/src/cosilico_py/preprocessing/core/image.py:40-61 | both spatial extents are padded, axes 2-4 are unchanged, original cells keep their value and new cells hold 0 |
| Pyramid.PaddedSizeOfMultiple | cosilico-py/src/cosilico_py/preprocessing/core/image.py:50-51 | a size that is already a multiple of the tile is not padded |
| Pyramid.ChunkTestMeansSingletons | cosilico-py/src/cosilico_py/preprocessing/core/image.py:69 | for positive chunk sizes, the test that the z, c and t chunk sizes sum to their count passes iff each of them is 1 |
| Pyramid.WriteZoomLevel | cosilico-py/src/cosilico_py/preprocessing/core/image.py:63-110 | an input failing a check (chunking, tile divisibility, dtype) is rejected with the error of the first failing check; otherwise, with x and y chunks of the tile size (the only ones write_image_zarr passes), the level is written iff it is made of whole tiles and Z == T, and what is written is the level's tile array, whose shape then equals the declared dataset shape; when Z != T the two shapes differ and the write fails |
| Pyramid.WriteZoomLevelSucceeds | cosilico-py/src/cosilico_py/preprocessing/core/image.py:69-110 | an input passing the checks, for an unscaled level or a `res` dividing `ts*ts`, never fails on the tile grid: it is written iff Z == T (otherwise it fails on the declared shape), and the tile grid covers the whole level |
| Pyramid.LevelUnscaled | cosilico-py/src/cosilico_py/preprocessing/core/image.py:78-95 | a level whose size does not exceed the tile is the input image itself |
| Pyramid.ScaledExactly | cosilico-py/src/cosilico_py/preprocessing/core/image.py:79-91 | when the scale divides evenly, the scaled length is already a tile multiple, so no re-padding happens |
| Pyramid.LevelExtent | cosilico-py/src/cosilico_py/preprocessing/core/image.py:78-95 | a scaled level's spatial extents are tile multiples and at least the truncated scaled length, and axes 2-4 are kept |
| Pyramid.TilePlacement | cosilico-py/src/cosilico_py/preprocessing/core/image.py:97-110 | level pixel (x, y, z, c, t) is stored at tile (x div ts, y div ts), entry (y mod ts, x mod ts) |
| Pyramid.DeclaredShapeMatchesIff | cosilico-py/src/cosilico_py/preprocessing/core/image.py:100-110 | the declared (nx, ny, T, C, Z, ts, ts) shape equals the written array's shape iff Z == T |
| Pyramid.SliceBound | cosilico-py/src/cosilico_py/preprocessing/core/image.py:130 | a clamped Python slice bound lies in [0, n] |
| Pyramid.SliceLength | cosilico-py/src/cosilico_py/preprocessing/core/image.py:130 | the extent of a slice never exceeds the axis |
| Pyramid.CropImage | cosilico-py/src/cosilico_py/preprocessing/core/image.py:127-130 | the crop succeeds iff the bbox has 4 values with top < bottom and left < right; the crop has the slice extents, keeps axes 2-4, and its pixel (x, y) is the image pixel at the slice start plus (x, y) |
| Pyramid.CropSizeMatchesIff | cosilico-py/src/cosilico_py/preprocessing/core/image.py:146-148 | the OME size written after a crop (`c2-c1`, `r2-r1`) is the cropped size iff the bbox lies inside the image |
| Pyramid.CroppedOme | cosilico-py/src/cosilico_py/preprocessing/core/image.py:146-148 | after a crop to [r1, r2, c1, c2] the first image's `size_x` is c2 - c1 and `size_y` is r2 - r1; its physical size, unit and channels and every later image are unchanged |
| Pyramid.Attributes | cosilico-py/src/cosilico_py/preprocessing/core/image.py:125-159 | an OME model that validation rejects gives its validation error, and then a bounding box that fails the assertion gives InvalidBBox; otherwise the attributes carry the OME model (the cropped one, with the box's width and height as pixel counts, when there is a box, and the model unchanged otherwise), version "v1", the name "Xenium Multiplex", the resolutions, the tile size, and as `upp` and `unit` the physical pixel size and its unit from the first image's pixels |
| Pyramid.WriteImageLevels | cosilico-py/src/cosilico_py/preprocessing/core/image.py:113-159 | the image is cropped to the bounding box when one is given (the crop of CropImage); the resolutions are the plan for the larger side of the cropped image and it is padded to tile multiples. An OME model that validation rejects stops the write before any level, and then so does a bounding box that fails the assertion. Otherwise the levels are written in plan order, each the write of the padded image at its resolution, until the first that raises, which ends the write with that level's index and error. Only when every level is written are the root attributes set: they carry the plan and the OME model, whose first image's `size_x` and `size_y` become c2 - c1 and r2 - r1 after a crop, which equal the cropped extents exactly when the box lies inside the image. A bad dtype fails at the first level, and a declared-shape failure means Z != T |
| Experiment.FirstOccurrenceIndices | cosilico-py/src/cosilico_py/client/experiment.py:126-133 | the indices are strictly increasing, each is the first position of its value, and every distinct value has its index listed |
| Experiment.MinLevel | cosilico-py/src/cosilico_py/client/experiment.py:373 | the level read is the integer value of a key and no key is smaller; an empty group is `NoLevels`; a key that is not an integer is reported |
| Experiment.ReadLevelIsTileSize | cosilico-py/src/cosilico_py/client/experiment.py:373 | for a pyramid written by the planner, the smallest level is the tile size |
| Experiment.ReassembleAsWritten | cosilico-py/src/cosilico_py/client/experiment.py:378-380 | the as-written reassembly is `d0*d5` wide and `d1*d6` high and keeps axes 2-4 |
| Experiment.ReassembleAsWrittenPlacesTiles | cosilico-py/src/cosilico_py/client/experiment.py:378-380 | entry (f, g) of tile (a, b) of any tile array lands at (a*d5+f, b*d6+g) of the as-written reassembly |
| Experiment.ReassembleAsWrittenTransposesTiles | cosilico-py/src/cosilico_py/client/experiment.py:378-380 | composed with the writer, the reassembled image holds at (i*ts+q, j*ts+p) the level pixel (i*ts+p, j*ts+q): every tile comes back transposed |
| Experiment.ReassembleAsWrittenIsNotIdentity | cosilico-py/src/cosilico_py/client/experiment.py:378-380 | a 2x2 level with one lit pixel reads back different from what was written |
| Experiment.ReassembleTiles | cosilico-py/src/cosilico_py/client/experiment.py:378-380 | the corrected reassembly is `d0*d6` wide and `d1*d5` high and keeps axes 2-4 |
| Experiment.ReassembleRoundTrip | cosilico-py/src/cosilico_py/client/experiment.py:378-380 | the corrected reassembly of a written level is that level |
| Experiment.MetadataOfLayer | cosilico-py/src/cosilico_py/client/experiment.py:393 | an entry is kept iff it belongs to the layer's id |
| Experiment.MetadataOfLayerIsFilter | cosilico-py/src/cosilico_py/client/experiment.py:393 | the layer filter keeps order and multiplicity: it distributes over concatenation and keeps a single entry iff it belongs to the layer |
| Experiment.Session.GetLayer | cosilico-py/src/cosilico_py/client/experiment.py:387-390 | returns the first layer with the name; fails iff no layer has it |
| Experiment.Session.GetLayerMetadata | cosilico-py/src/cosilico_py/client/experiment.py:392-399 | returns the layer's entries of the bundle, which `Experiment.MetadataOfLayerIsFilter` shows are in bundle order with their multiplicity |
| Experiment.Session.GetNamedLayerMetadata | cosilico-py/src/cosilico_py/client/experiment.py:395-398 | fails iff no entry of the layer has that name; otherwise returns the entry at the first position of the layer's entries that carries the name |
| Experiment.Session.AddLayerMetadata | cosilico-py/src/cosilico_py/client/experiment.py:276-291 | succeeds iff no entry of the layer has the name and the value ids equal the layer's ids as sets; a duplicate name or an id mismatch fails with that error and changes nothing; success appends exactly one new entry and keeps names distinct per layer |
| Experiment.Session.GenerateImageData | cosilico-py/src/cosilico_py/client/experiment.py:366-385 | the image is the as-written reassembly of the tile array: `d0*d5` wide, `d1*d6` high, axes 2-4 kept, and entry (f, g) of tile (a, b) lands at (a*d5+f, b*d6+g), so each tile comes back transposed |
| Experiment.SparseReorder | cosilico-py/src/cosilico_py/client/experiment.py:210-213 | row k of the result is the first row whose id is `id_order[k]`; an id missing from the rows is an error |
| TiledGroups.FirstMissing | cosilico-py/src/cosilico_py/preprocessing/core/tiling.py:18-19 | reports the first required column absent from the frame, and none iff all are present |
| TiledGroups.PyMod | cosilico-py/src/cosilico_py/preprocessing/core/tiling.py:28 | numpy `%` follows the divisor's sign: in [0, g) for g > 0, in (g, 0] for g < 0, and 0 for g == 0 |
| TiledGroups.FrequencyOrderIsSorted | cosilico-py/src/cosilico_py/preprocessing/core/tiling.py:22-23 | the frequency order lists every feature present once, each with a positive count, by ascending count |
| TiledGroups.ResidueCountIs | cosilico-py/src/cosilico_py/preprocessing/core/tiling.py:26-28 | of positions 0..n-1, exactly `n div g` plus one if `k < n mod g` have residue k |
| TiledGroups.GroupsBalanced | cosilico-py/src/cosilico_py/preprocessing/core/tiling.py:26-28 | any two group sizes differ by at most one |
| TiledGroups.FeatureGroupOfPosition | cosilico-py/src/cosilico_py/preprocessing/core/tiling.py:26-32 | the feature at position p of the frequency order gets group `p mod G`, which lies in [0, G) (0 when G is 0) |
| TiledGroups.GridLabelInjective | cosilico-py/src/cosilico_py/preprocessing/core/tiling.py:35-37 | two points get the same `"{x//g}_{y//g}"` label iff they fall in the same grid cell |
| TiledGroups.GridOrderIsTextual | cosilico-py/src/cosilico_py/preprocessing/core/tiling.py:37-45 | grid labels sort as strings, so "10_0" comes before "9_0" |
| TiledGroups.SortRows | cosilico-py/src/cosilico_py/preprocessing/core/tiling.py:44-45 | the result is a permutation of the rows |
| TiledGroups.SortRowsSorted | cosilico-py/src/cosilico_py/preprocessing/core/tiling.py:44-45 | the result is sorted by (grid, group, feature_index) |
| TiledGroups.Annotate | cosilico-py/src/cosilico_py/preprocessing/core/tiling.py:31-37 | each row keeps its feature index and coordinates and gains its grid label and its feature's group |
| TiledGroups.TileGrouped | cosilico-py/src/cosilico_py/preprocessing/core/tiling.py:10-50 | a missing column, `n_per_group == 0` and a zero grid size (on a non-empty table) are errors, in that order; otherwise the output is a permutation of the annotated rows, sorted by (grid, group, feature_index) |
| GridCentroids.CountKey | cosilico-py/src/cosilico_py/preprocessing/core/tiling.py:92-103 | a key's count is positive iff some row of the chunk has that key |
| GridCentroids.AggregateChunk | cosilico-py/src/cosilico_py/preprocessing/core/tiling.py:83-126 | the `np.add.at` loop yields, for every key present, its row count and the mean of x, y and each target |
| GridCentroids.Chunks | cosilico-py/src/cosilico_py/preprocessing/core/tiling.py:72-73 | every chunk row is an input row, and there are no chunks iff there are no rows |
| GridCentroids.Tables | cosilico-py/src/cosilico_py/preprocessing/core/tiling.py:142 | every table has positive counts and means of the target width; there are none iff there are no chunks or the bin size is not listed |
| GridCentroids.AppendChunkTables | cosilico-py/src/cosilico_py/preprocessing/core/tiling.py:83-142 | one chunk appends its table to the list of each bin size, once per listing of that size, and the keys are unchanged |
| GridCentroids.CollectChunkTables | cosilico-py/src/cosilico_py/preprocessing/core/tiling.py:72-142 | after the chunk loop, each bin size's list holds the chunk tables in order |
| GridCentroids.MergeTables | cosilico-py/src/cosilico_py/preprocessing/core/tiling.py:144-176 | fails with nothing-to-concat iff some listed bin size has no tables; otherwise it has exactly the listed bin sizes, each the as-written merge of its tables |
| GridCentroids.ComputeGridCentroids | cosilico-py/src/cosilico_py/preprocessing/core/tiling.py:52-178 | a zero chunk size is an error, and so is an empty table with bin sizes; otherwise each listed bin size gets the as-written merge of its chunk tables |
| GridCentroidsProofs.MergedCountsAreRowCounts | cosilico-py/src/cosilico_py/preprocessing/core/tiling.py:169-175 | for any chunk size, the merged keys are exactly the keys present in the rows, and each count is the number of rows with that key (times the listings of the bin size) |
| GridCentroidsProofs.TotalCount | cosilico-py/src/cosilico_py/preprocessing/core/tiling.py:72-73 | summed over all keys, the counts equal the number of rows |
| GridCentroidsProofs.OneChunkIsExact | cosilico-py/src/cosilico_py/preprocessing/core/tiling.py:166-175 | when all rows fit in one chunk, the as-written merge gives the true means |
| GridCentroidsProofs.UnweightedMergeCounterexample | cosilico-py/src/cosilico_py/preprocessing/core/tiling.py:166-175 | rows x = 0, 0, 3 in one bin with chunk size 2 merge to 1.5 although the mean is 1 |
| GridCentroidsProofs.WeightedMergeIsExact | cosilico-py/src/cosilico_py/preprocessing/core/tiling.py:166-175 | the count-weighted merge gives every key its true count and true means for any chunk size |
| GridCentroidsProofs.MergeOfOne | cosilico-py/src/cosilico_py/preprocessing/core/tiling.py:166-175 | merging a single table gives it back |
| Conversion.MinOf | cosilico-py/src/cosilico_py/preprocessing/core/conversion.py:12 | the minimum is an element and at most every element |
| Conversion.MaxOf | cosilico-py/src/cosilico_py/preprocessing/core/conversion.py:12 | the maximum is an element and at least every element |
| Conversion.MinOfIsLeast | cosilico-py/src/cosilico_py/preprocessing/core/conversion.py:12 | any element bounding all others from below is the minimum |
| Conversion.MaxOfIsGreatest | cosilico-py/src/cosilico_py/preprocessing/core/conversion.py:12 | any element bounding all others from above is the maximum |
| Conversion.RescaleBounds | cosilico-py/src/cosilico_py/preprocessing/core/conversion.py:17 | a value in [min, max] maps into [0, 255], min to 0 and max to 255 |
| Conversion.RescaleMonotone | cosilico-py/src/cosilico_py/preprocessing/core/conversion.py:17 | the mapping is non-decreasing |
| Conversion.ToUInt8 | cosilico-py/src/cosilico_py/preprocessing/core/conversion.py:6-17 | keeps the length; a constant array maps to zeros, otherwise each value to `trunc((v-min)/(max-min)*255)`; an empty array is an error |
| Conversion.ToUInt8Properties | cosilico-py/src/cosilico_py/preprocessing/core/conversion.py:14-17 | every output lies in [0, 255]; a minimum maps to 0 and a maximum to 255 in a non-constant array; order is preserved |
| Ome.Validate | cosilico-py/src/cosilico_py/preprocessing/core/ome.py:3-16 | no images and null pixels are RuntimeErrors; a null physical size, unit, `size_x` or `size_y` is an AssertionError; otherwise it passes |
| Ome.ValidateOnlyFirstImage | cosilico-py/src/cosilico_py/preprocessing/core/ome.py:5-16 | images after the first do not change the outcome |
| Ome.ValidateReportsInOrder | cosilico-py/src/cosilico_py/preprocessing/core/ome.py:11-16 | the AssertionError names the first null attribute, in the order the source checks them |
| Ome.Serialize | cosilico-py/src/cosilico_py/preprocessing/core/ome.py:18-24 | an Enum serialises to its value, an object with `__dict__` to that dict, and anything else to its string |
| Ome.EnumTestComesFirst | cosilico-py/src/cosilico_py/preprocessing/core/ome.py:20-21 | an Enum that also has a `__dict__` still serialises to its value |
| ZarrGroup.GroupSize | cosilico-py/src/cosilico_py/preprocessing/core/zarr.py:3-10 | an unknown unit is an error; otherwise size times the unit factor (B 1, KB 1e3, MB 1e6, GB 1e9) is the byte total of the direct array members, and is non-negative |
| ZarrGroup.SubgroupsIgnored | cosilico-py/src/cosilico_py/preprocessing/core/zarr.py:7 | adding a subgroup, however large, does not change the size |
| ZarrGroup.NoArraysNoSize | cosilico-py/src/cosilico_py/preprocessing/core/zarr.py:7-10 | a group without arrays has size 0 in every known unit |
| ZarrGroup.ArrayAddsItsBytes | cosilico-py/src/cosilico_py/preprocessing/core/zarr.py:7 | one more array adds exactly its byte count to the total |
| Xenium.BitLengthBounds | cosilico-py/src/cosilico_py/preprocessing/platforms/x10_xenium.py:143 | `2**(bit_length-1) <= n < 2**bit_length` for positive n |
| Xenium.TranscriptTileSizeIs | cosilico-py/src/cosilico_py/preprocessing/platforms/x10_xenium.py:141-143 | the tile is 4096, or the largest power of two not above the dimension when that is smaller; a zero dimension is an error |
| Xenium.GroupSizes | cosilico-py/src/cosilico_py/preprocessing/platforms/x10_xenium.py:153 | one group size per zoom |
| Xenium.GroupSizesShrink | cosilico-py/src/cosilico_py/preprocessing/platforms/x10_xenium.py:145-153 | the first group size is 1024 and each next one is the previous divided by 8, so they never increase |
| Xenium.BinSizesByLevel | cosilico-py/src/cosilico_py/preprocessing/platforms/x10_xenium.py:154 | for distinct zooms, zoom i (i >= 1) has bin size 256 i and the first zoom has none |
| Xenium.PlanXenium | cosilico-py/src/cosilico_py/preprocessing/platforms/x10_xenium.py:134-243 | the plan's tile size, zoom plans, group and bin sizes follow the rules above; the image id is appended; the cell layer id ends up in front of the transcript layer id |
| Xenium.PlanBinSizes | cosilico-py/src/cosilico_py/preprocessing/platforms/x10_xenium.py:146-154 | in any plan the zooms strictly grow, so zoom i has bin size 256 i and the first zoom has none |
| Xenium.QualityFilterKeeps | cosilico-py/src/cosilico_py/preprocessing/platforms/x10_xenium.py:53-55 | a transcript is kept iff it is a gene, its codeword category is `predesigned_gene` and its qv is at least 20, in order |
| Xenium.UsedCategories | cosilico-py/src/cosilico_py/preprocessing/platforms/x10_xenium.py:56 | the categories kept are exactly those used by a row, with no duplicates when the input had none; `Xenium.UsedCategoriesIsFilter` shows they keep the input order |
| Xenium.UsedCategoriesIsFilter | cosilico-py/src/cosilico_py/preprocessing/platforms/x10_xenium.py:56 | the used-category filter keeps order and multiplicity: it distributes over concatenation and keeps a single category iff a row uses it |
| Xenium.Scale | cosilico-py/src/cosilico_py/preprocessing/platforms/x10_xenium.py:59-60 | every coordinate is divided by the microns per pixel, and the other columns are unchanged |
| Xenium.CropX | cosilico-py/src/cosilico_py/preprocessing/platforms/x10_xenium.py:64 | keeps exactly the rows with `c1 < x < c2` |
| Xenium.CropY | cosilico-py/src/cosilico_py/preprocessing/platforms/x10_xenium.py:65 | keeps exactly the rows with `r1 < y < r2` |
| Xenium.CropFiltersAreInside | cosilico-py/src/cosilico_py/preprocessing/platforms/x10_xenium.py:64-65 | the two filters together keep exactly the rows strictly inside the box, in order |
| Xenium.Inside | cosilico-py/src/cosilico_py/preprocessing/platforms/x10_xenium.py:62-67 | every row kept is an input row inside the box |
| Xenium.CropComesFromInside | cosilico-py/src/cosilico_py/preprocessing/platforms/x10_xenium.py:62-67 | every cropped row is an inside row moved by (-c1, -r1) and lies in the open box (0, c2-c1) x (0, r2-r1) |
| Xenium.CropKeepsInside | cosilico-py/src/cosilico_py/preprocessing/platforms/x10_xenium.py:62-67 | every input row strictly inside the box appears, moved, in the crop |
| Xenium.CropIsStrict | cosilico-py/src/cosilico_py/preprocessing/platforms/x10_xenium.py:64-65 | a point on the box edge is dropped |
| Xenium.CodesMatchNames | cosilico-py/src/cosilico_py/preprocessing/platforms/x10_xenium.py:56-57 | two coded rows share a feature index iff they share a feature name, and every index is below the number of used categories |
| Xenium.LoadedTranscripts | cosilico-py/src/cosilico_py/preprocessing/platforms/x10_xenium.py:46-68 | every loaded transcript is coded against the categories used by the rows that pass the quality filter |
| Xenium.LoadedCodesMatchNames | cosilico-py/src/cosilico_py/preprocessing/platforms/x10_xenium.py:56-57 | in the loaded transcripts, equal feature indices mean equal names and the reverse |
| Xenium.LoadKeepsColumns | cosilico-py/src/cosilico_py/preprocessing/platforms/x10_xenium.py:70-83 | every loaded cell keeps the columns of some input row |
| Xenium.LoadedCells | cosilico-py/src/cosilico_py/preprocessing/platforms/x10_xenium.py:70-83 | a cell vertex is loaded iff its scaled position is inside the box, and then it appears moved by (-c1, -r1) |
| DirectoryTree.PermCharsMeaning | cosilico-py/src/cosilico_py/client/structure.py:73-81 | the permission chars hold r iff the user is a reader, w iff a writer and d iff a deleter, in that order and nothing else; empty iff none holds |
| DirectoryTree.WalkFindsNearest | cosilico-py/src/cosilico_py/client/structure.py:86-93 | the walk up the parents finds a mark iff some node within the step bound is the nearest marked one, and then returns that node's mark |
| DirectoryTree.ResolveNearestGrant | cosilico-py/src/cosilico_py/client/structure.py:86-93 | the permission is the grant of the nearest node on the self-to-root path that grants anything |
| DirectoryTree.ResolveNearestDefault | cosilico-py/src/cosilico_py/client/structure.py:95-101 | with no grant found on the path, the nearest non-empty default `permission` decides |
| DirectoryTree.ResolveNothing | cosilico-py/src/cosilico_py/client/structure.py:95-103 | with neither a grant nor a default on the path, the permission is "" |
| DirectoryTree.ResolveDiverges | cosilico-py/src/cosilico_py/client/structure.py:86-103 | resolution gives up iff the grant walk gets stuck for every step bound, that is, on a parent cycle without a grant |
| DirectoryTree.ResolveUserPermission | cosilico-py/src/cosilico_py/client/structure.py:86-103 | the two `while` loops compute the specified resolution |
| DirectoryTree.ById | cosilico-py/src/cosilico_py/client/structure.py:84 | the lookup holds exactly the row ids |
| DirectoryTree.ByIdFindsRow | cosilico-py/src/cosilico_py/client/structure.py:84 | with unique ids, each id maps to its own row |
| DirectoryTree.CopyKeptKeys | cosilico-py/src/cosilico_py/client/structure.py:59-62 | the loop copies exactly the kept columns |
| DirectoryTree.Kept | cosilico-py/src/cosilico_py/client/structure.py:59-62 | a key is kept iff it is listed and the row has it, with the row's value |
| DirectoryTree.MakeShells | cosilico-py/src/cosilico_py/client/structure.py:53-64 | one shell per row id, with the row's name, type, kept columns and an empty children list |
| DirectoryTree.AttachChildren | cosilico-py/src/cosilico_py/client/structure.py:67-70 | reports the first row whose parent is unknown; otherwise the root lists the parentless rows in order and every other row is appended to its parent's list |
| DirectoryTree.AttachRow | cosilico-py/src/cosilico_py/client/structure.py:68-70 | one loop step: it reports the row if its parent is unknown, and otherwise attaches it, keeping the attachment invariant |
| DirectoryTree.ChildListed | cosilico-py/src/cosilico_py/client/structure.py:67-70 | each row's id is in the children list of the parent it names |
| DirectoryTree.Annotate | cosilico-py/src/cosilico_py/client/structure.py:106-107 | succeeds iff every node's permission resolves, and then every node carries its resolved permission |
| DirectoryTree.Pruned | cosilico-py/src/cosilico_py/client/structure.py:110-116 | an empty children list is removed and a non-empty one kept |
| DirectoryTree.Prune | cosilico-py/src/cosilico_py/client/structure.py:110-116 | every node keeps its `children` list iff the list is non-empty, and nothing else changes |
| DirectoryTree.BuildDirectoryTree | cosilico-py/src/cosilico_py/client/structure.py:9-118 | the method computes the specified build: shells, attachment, annotation and pruning |
| DirectoryTree.BuiltNode | cosilico-py/src/cosilico_py/client/structure.py:53-118 | in a built tree every row is a node with its name, type, kept columns and permission, listed under the root or its parent, with children iff some row names it as parent |
| DirectoryTree.BuildMissingParent | cosilico-py/src/cosilico_py/client/structure.py:67-70 | a missing-parent failure names the parent of the first row whose parent is no row |
| DirectoryTree.BuildNoTermination | cosilico-py/src/cosilico_py/client/structure.py:86-93 | the build gives up on termination only when some node's grant walk is stuck for every step bound |
| DirectoryTree.BuildOkParentsKnown | cosilico-py/src/cosilico_py/client/structure.py:67-70 | in a built tree every named parent is a row |
| NodePath.NormalizePathMeaning | cosilico-py/src/cosilico_py/client/structure.py:148-150 | an empty path is an error; a relative path is unchanged; an absolute path ends up starting with "/root"; normalising twice changes nothing |
| NodePath.NormalizePathMissesRootPrefixedName | cosilico-py/src/cosilico_py/client/structure.py:148-150 | "/rootdir" is left as it is, and it is not under the root |
| NodePath.NormalizePathCorrectedMeaning | cosilico-py/src/cosilico_py/client/structure.py:148-150 | under the corrected rule, an absolute path ends up under the root, paths already under it and relative paths are unchanged, and the rule is idempotent |
| NodePath.NormalizePathCorrectedReachesRootPrefixedName | cosilico-py/src/cosilico_py/client/structure.py:148-150 | under the corrected rule "/rootdir" becomes "/root/rootdir" |
| Models.ParsePermission | cosilico-py/src/cosilico_py/models.py:25-29 | a parsed permission's value is the string parsed |
| Models.PermissionValues | cosilico-py/src/cosilico_py/models.py:25-29 | a string parses iff it is "", "r", "rw" or "rwd", and every permission parses back from its value |
| Models.AssignPermission | cosilico-py/src/cosilico_py/models.py:54-61 | an explicit permission is kept; otherwise a root entity gets "r" and a child gets "" |
| Models.PostInitEntity | cosilico-py/src/cosilico_py/models.py:63-68 | the permission becomes `AssignPermission` of the given permission and the parent id; an explicit permission is left as it is, and nothing else changes |
| Models.PostInitIdempotent | cosilico-py/src/cosilico_py/models.py:63-68 | initialising twice gives the same entity |
| Models.ZarrPath | cosilico-py/src/cosilico_py/models.py:95 | the path is the id followed by ".zarr.zip" |
| Models.ZarrPathRoundTrip | cosilico-py/src/cosilico_py/models.py:95 | stripping the suffix gives the id back |
| Models.ZarrPathInjective | cosilico-py/src/cosilico_py/models.py:94-95 | different ids give different paths |
| Models.NewImage | cosilico-py/src/cosilico_py/models.py:84-95 | the record keeps its id, experiment and name, and its path encodes the id, whatever path was supplied |
| Models.NewLayer | cosilico-py/src/cosilico_py/models.py:97-109 | the record keeps its fields, and its path encodes the id, whatever path was supplied |
| Models.NewLayerMetadata | cosilico-py/src/cosilico_py/models.py:111-125 | the record keeps its fields, and its path encodes the id, whatever path was supplied |
| ZarrTile.MinMax | cosilico-viewer/src/lib/openlayers/ZarrTile.js:11-19 | the loop finds the minimum and maximum of the values; on no values it leaves 0xffff and 0 |
| ZarrTile.Uint16ToUint8 | cosilico-viewer/src/lib/openlayers/ZarrTile.js:6-38 | a non-Uint16Array is a TypeError; otherwise the length is kept and each value is rescaled by the min and max |
| ZarrTile.RescaleAll | cosilico-viewer/src/lib/openlayers/ZarrTile.js:29-35 | each output is the rescaled input at the same position |
| ZarrTile.ViewerMatchesPythonConversion | cosilico-viewer/src/lib/openlayers/ZarrTile.js:30-34 | the Python writer's 8-bit conversion gives, in exact arithmetic, the same bytes as the viewer's rescaling of the same values |
| ZarrTile.TileSlice | cosilico-viewer/src/lib/openlayers/ZarrTile.js:70-71 | the read succeeds iff the first five indices lie inside the array |
| ZarrTile.ViewerTileHoldsLevelPixels | cosilico-viewer/src/lib/openlayers/ZarrTile.js:67-71 | element q*ts+p of the tile read at (x, y) is level pixel (x*ts+p, y*ts+q) with the t index in the z slot and the z index in the t slot |
| ZarrTile.ExpandToRgba | cosilico-viewer/src/lib/openlayers/ZarrTile.js:83-89 | four bytes per pixel: the grey value three times, then 255 |
| ZarrTile.Tile.LoadTile | cosilico-viewer/src/lib/openlayers/ZarrTile.js:59-105 | the tile ends loaded (2) iff the slice is readable and uint8 or uint16. Then each pixel's R, G and B bytes all hold its grey value (a uint16 tile is rescaled by its min and max), with alpha 255. Otherwise the tile ends failed (3) with its image unchanged |
| ZarrHelpers.ExtractRows | cosilico-viewer/src/lib/openlayers/ZarrHelpers.js:34-46 | the map has exactly the keys 0..numRows-1, each holding the row of numCols values starting at `r*stride` |
| ZarrHelpers.ContiguousRowsRebuildData | cosilico-viewer/src/lib/openlayers/ZarrHelpers.js:39-43 | with a stride equal to the row length, the rows concatenated in key order are the first numRows*numCols values |
| OpenlayersHelpers.ClosestResolution | cosilico-viewer/src/lib/openlayers/OpenlayersHelpers.js:1-11 | a falsy view resolution gives null and an empty list gives undefined; otherwise the result is an element of the list, at most its first |
| OpenlayersHelpers.ChooseResolution | cosilico-viewer/src/lib/openlayers/OpenlayersHelpers.js:6-11 | the filter-and-reduce result is an element of the list, at most its first |
| OpenlayersHelpers.ChooseSmallestAbove | cosilico-viewer/src/lib/openlayers/OpenlayersHelpers.js:4-11 | on a descending list, the result is the smallest resolution above the current one, or the first when none is above |
| OmeHelpers.ChannelNames | cosilico-viewer/src/lib/openlayers/OmeHelpers.js:2-10 | succeeds iff the first image has pixels, and then gives its channels' names in order; every OME model that passes validation gets through |
| PixelTransforms.HexToInt | viewer/src/lib/openlayers/PixelTransforms.js:1-3 | `parseInt(s, 16)` is NaN iff no hex digit follows the leading white space, the optional sign and the optional `0x` |
| PixelTransforms.TrimStart | viewer/src/lib/openlayers/PixelTransforms.js:2 | the skipped prefix leaves a string that is empty or starts with a non-space, and a string starting with a non-space is kept |
| PixelTransforms.TrimStartIsSuffix | viewer/src/lib/openlayers/PixelTransforms.js:2 | parseInt skips exactly a prefix of white space |
| PixelTransforms.HexToIntOfDigits | viewer/src/lib/openlayers/PixelTransforms.js:1-3 | a non-empty string of hex digits parses to its value |
| PixelTransforms.IntToHex | viewer/src/lib/openlayers/PixelTransforms.js:5-7 | the text has at least six characters and no lower-case letter |
| PixelTransforms.HexRoundTrip | viewer/src/lib/openlayers/PixelTransforms.js:1-7 | a six-digit hex string parses to its value, and `intToHex` of that value is the string in upper case |
| PixelTransforms.ColorRgbOfHash | viewer/src/lib/openlayers/PixelTransforms.js:25-32 | '#RRGGBB' decodes to the three two-digit values |
| PixelTransforms.PseudocolorPixel | viewer/src/lib/openlayers/PixelTransforms.js:17-49 | throws iff the colour and value counts differ; otherwise four bytes: each RGB channel the byte of the intensity-weighted sum of the colours, and alpha 255 |
| PixelTransforms.OneChannelShowsItsColor | viewer/src/lib/openlayers/PixelTransforms.js:17-49 | one channel at full intensity shows exactly its colour |
| PixelTransforms.ZeroIntensityIsBlack | viewer/src/lib/openlayers/PixelTransforms.js:35-48 | channels at zero intensity blend to black |
| PixelTransforms.Normalize | viewer/src/lib/openlayers/PixelTransforms.js:64-69 | NaN iff min == max == value; a finite result lies in [0, 255]; with min == max, values above give 255 and values below 0 |
| PixelTransforms.MinMaxRange | viewer/src/lib/openlayers/PixelTransforms.js:58-70 | throws iff the three lengths differ; otherwise it keeps the length, each output NaN exactly at 0/0 and otherwise in [0, 255] |
| PixelTransforms.NormalizeWindow | viewer/src/lib/openlayers/PixelTransforms.js:64-69 | with max > min, min maps to 0 and max to 255, values between follow the linear ramp, and order is kept |
| VectorLoader.Loader.PopulateFeatureGroups | my-svelte-project/src/lib/ZarrVectorLoader.js:39-56 | the nested loops rebuild `currentGroups` as the specification function of the registered group strings |
| VectorLoader.Loader.PushRow | my-svelte-project/src/lib/ZarrVectorLoader.js:43-52 | one group string adds its i-th field to the groups of the i-th resolution unless already there |
| VectorLoader.Loader.AddFeatureGroup | my-svelte-project/src/lib/ZarrVectorLoader.js:58-63 | the string is appended and the groups are recomputed |
| VectorLoader.Loader.RemoveFeatureGroup | my-svelte-project/src/lib/ZarrVectorLoader.js:65-70 | the first occurrence is removed (the last entry when the string is absent), and the groups are recomputed |
| VectorLoader.GroupsKeys | my-svelte-project/src/lib/ZarrVectorLoader.js:22-53 | `currentGroups` has exactly one key per resolution |
| VectorLoader.GroupsAreDistinctColumn | my-svelte-project/src/lib/ZarrVectorLoader.js:42-53 | with distinct resolutions, the groups of resolution i are the distinct i-th comma fields of the group strings, in first-seen order |
| VectorLoader.TileUrlRoundTrip | my-svelte-project/src/lib/ZarrVectorLoader.js:78-86 | the URL "z/x/y" parses back to (z, x, y) |
| VectorLoader.GroupPath | my-svelte-project/src/lib/ZarrVectorLoader.js:101 | every group path starts with "/zooms/" |
| VectorLoader.TileGroupPaths | my-svelte-project/src/lib/ZarrVectorLoader.js:83-101 | succeeds iff z names a level with groups; then one path `/zooms/{res}/{x}_{y}/{group}` per current group of that level, in order |
| VectorLoader.TileGroupPathsOfOwnTile | my-svelte-project/src/lib/ZarrVectorLoader.js:78-101 | a tile whose URL the loader made gets one path per group of its level |
| VectorLoader.DecodeGroup | my-svelte-project/src/lib/ZarrVectorLoader.js:127-177 | a non-Uint32 count array, a non-Uint32 feature-index array or a non-Float32 location array throws, checked in that order; otherwise one point per count, with its count, feature index and x, y flipped to `fullImageHeight - y` (undefined past the end of a shorter array), and no id |
| Vector.MasksPassIff | cosilico-viewer/src/lib/openlayers/Vector.js:233-246 | the mask test passes iff every filter passes: 'is in' with an intersection, 'is not in' without |
| Vector.GroupFeatureIsVisible | cosilico-viewer/src/lib/openlayers/Vector.js:228-270 | the loops compute the conjunction of the metadata test and the mask test |
| Vector.GroupOpsKnownIff | cosilico-viewer/src/lib/openlayers/Vector.js:248-265 | with known symbols only, a filter passes iff every comparison holds |
| Vector.UnknownSymbolInherits | cosilico-viewer/src/lib/openlayers/Vector.js:248-265 | an unknown symbol after a passing `<` passes, while on its own it fails |
| Vector.FieldFeatureIsVisible | cosilico-viewer/src/lib/openlayers/Vector.js:1033-1106 | throws or returns null iff the field filters do (on the first filter that does); otherwise the conjunction of the field filters and the masks |
| Vector.FiltersFirstStop | cosilico-viewer/src/lib/openlayers/Vector.js:1056-1100 | the field test passes through iff every filter passes; otherwise it ends as the first filter that does not pass |
| Vector.FilterOutcomeCases | cosilico-viewer/src/lib/openlayers/Vector.js:1058-1083 | a filter throws iff the feature has no value for it and it reads one (categorical, or dense with an operation); it returns null iff it is sparse with an operation and the value is not a Map |
| Vector.ContinuousStopStays | cosilico-viewer/src/lib/openlayers/Vector.js:1070-1099 | once an operation returns null or throws, the filter ends that way |
| Vector.FiltersStopStays | cosilico-viewer/src/lib/openlayers/Vector.js:1056-1100 | once a filter returns null or throws, the whole test ends that way |
| Vector.CategoricalOpsIff | cosilico-viewer/src/lib/openlayers/Vector.js:1058-1067 | a categorical filter passes iff every '=' names the feature's field and every other symbol names a different one |
| Vector.ContinuousOpsIff | cosilico-viewer/src/lib/openlayers/Vector.js:1070-1099 | a dense continuous filter on a defined value passes iff every operation has a known symbol and its comparison holds (a value that is not an array reads undefined); on undefined it throws |
| Vector.SparseCases | cosilico-viewer/src/lib/openlayers/Vector.js:1074-1081 | a non-Map value makes the test null; a field absent from the Map reads 0 |
| Vector.FeatureGroupStrings | cosilico-viewer/src/lib/openlayers/Vector.js:405-413 | feature i's string is its group ids over the resolutions, joined with commas |
| Vector.GroupStringRoundTrip | cosilico-viewer/src/lib/openlayers/Vector.js:405-413 | the tile loader's split gives back the feature's group at each resolution |
| Vector.GroupVectorView.UpdateInteractedFeature | cosilico-viewer/src/lib/openlayers/Vector.js:222-226 | the name is pushed only if absent, so a duplicate-free list stays duplicate-free |
| Vector.GroupVectorView.AddFeature | cosilico-viewer/src/lib/openlayers/Vector.js:272-288 | a layer is recorded for the name; the feature's index, group and name are appended together, the lists stay aligned and the name is recorded as interacted |
| Vector.GroupVectorView.RemoveFeature | cosilico-viewer/src/lib/openlayers/Vector.js:290-306 | the three lists are spliced at the name's index (the last entry when the name is not shown) and stay aligned; a name without a layer then throws, leaving the layers and the interacted list unchanged; otherwise its layer is dropped and the name is recorded as interacted |
| Vector.FieldVectorView.AddFeature | cosilico-viewer/src/lib/openlayers/Vector.js:1115-1127 | a categorical layer appends the field; a continuous layer shows exactly that field |
| Vector.FieldVectorView.RemoveFeature | cosilico-viewer/src/lib/openlayers/Vector.js:1129-1136 | fields and indices are spliced at the field's index and stay aligned |
| Vector.FieldVectorView.UpdateInteractedField | cosilico-viewer/src/lib/openlayers/Vector.js:1259-1264 | name and field index are appended together, and only for a new name |
| Vector.FieldVectorView.SetStrokeWidth | cosilico-viewer/src/lib/openlayers/Vector.js:1179-1184 | the width stored is `max(0.01, w)` |
| ImageView.DefaultView | cosilico-viewer/src/lib/openlayers/Image.js:301-306 | a channel without a saved view gets min 0, max 255, gamma 1 and its palette colour |
| ImageView.InitialViews | cosilico-viewer/src/lib/openlayers/Image.js:299-321 | every channel gets a view: a saved view is copied with its colour installed, otherwise the default view with the palette colour |
| ImageView.SourcesFor | cosilico-viewer/src/lib/openlayers/Image.js:325-339 | one tile source per shown channel, at the same position, for that channel's index and the current t and z |
| ImageView.SpliceKeepsAligned | cosilico-viewer/src/lib/openlayers/Image.js:252-255 | splicing both lists at the same index keeps names and sources aligned |
| ImageView.Image.constructor | cosilico-viewer/src/lib/openlayers/Image.js:35-41 | the layer is visible iff the settings say `is_visible: true`, since the `== {}` test never holds; the lists and maps start empty |
| ImageView.Image.PopulateInitialFields | cosilico-viewer/src/lib/openlayers/Image.js:281-348 | missing view settings fail after the palette is installed, with every other field unchanged; otherwise views, colours, t and z, and shown channels come from the settings; visibility never changes |
| ImageView.Image.UpdateInteractedChannel | cosilico-viewer/src/lib/openlayers/Image.js:215-219 | the name is pushed only if absent |
| ImageView.Image.AddChannel | cosilico-viewer/src/lib/openlayers/Image.js:221-248 | a shown channel changes nothing; otherwise the name and its tile source are appended together and the name is recorded as interacted |
| ImageView.Image.RemoveChannel | cosilico-viewer/src/lib/openlayers/Image.js:250-265 | both lists are spliced at the name's index (the last entry when it is absent), stay aligned, and the name is recorded as interacted |
| ImageView.Image.SetChannelColor | cosilico-viewer/src/lib/openlayers/Image.js:267-273 | the view's colour and the colour map change together; a channel without a view fails and nothing changes |

## Left out

- Library numerics: the pixel values scipy's `zoom` computes are a parameter of `Pyramid.Level`. Dask laziness and chunking are not modelled; the image is materialised. Reading TIFF and OME files and writing with `to_zarr` are not modelled.
- Storage and network: the zip and zarr stores, `bundle_from_id`, uploads, the HTTP range reader and the database are not modelled. What they return is a parameter, such as the bundle of a `Session` or the arrays a tile read yields.
- Disk spill in `compute_grid_centroids_multi` (`use_disk`): the temporary files act as identity storage, so the in-memory path is modelled, and their removal is not.
- IEEE floating point: means, rescaling and normalisation are exact rationals. Rounding of intermediate results, infinities other than the `hi == lo` case of `PixelTransforms.Normalize`, and float32 storage are not modelled.
- OpenLayers: rendering, styles, raster sources and layer insertion are not modelled. `intersectsCoordinate` of a mask geometry is an abstract boolean in `Vector.MaskFilter`.
- Concurrency: the `async`/`await` of the viewer is not modelled; each method runs to completion.
- `preprocessing/core/layer.py` (the ungrouped tiler and the metadata encoders) is not part of this model.
- Fixed-width integers: the 32-bit wrap of `astype(np.int32)` on bin and grid indices is not modelled; integers are unbounded.
- uuid4 ids and the palette from `generateColorMapping` are parameters.
- The anytree resolver, `search_by` and the tree display of `structure.py` are not modelled; `NodePath` models only the path rule that feeds the resolver.
- GridCentroids.ComputeGridCentroids: requires non-zero bin sizes. numpy's floor division by 0 gives infinities, which the model does not represent.
- DirectoryTree.BuildDirectoryTree: requires unique row ids. They are the table's primary key; with a duplicate, the source's dictionaries would keep the last row.
- DirectoryTree.ResolveUserPermission: a walk around a parent cycle that never finds a grant does not return in the source. The model stops it after as many steps as there are rows and reports it (`NoTermination`); `DirectoryTree.ResolveDiverges` proves such a walk never ends.
- DirectoryTree.Prune: removes the empty `children` list of every node. The source only removes it from nodes reachable from the root. The trees differ only in nodes unreachable from the root, which the returned tree does not contain.
- Pyramid.GetResolutions: requires a scaler above 1 (or a tile covering the image). Otherwise the source loops forever, which `Pyramid.ResolutionLoopNeverEnds` states instead.
- ZarrTile.Tile.LoadTile: does not model the canvas; the RGBA bytes are kept as a field.
- Experiment.Session.AddLayerMetadata: models the shared preconditions and the append of the two add-metadata methods; encoding the values goes through `layer.py`, which is not part of this model.
- TiledGroups.FrequencyOrder: breaks ties between equal counts in first-seen order. pandas' `value_counts().sort_values()` fixes no order among equal counts, so which group a tied feature gets is not modelled; the lemmas about the order hold for any tie order.
- Pyramid.WriteZoomLevel: a level with Z != T fails inside `to_zarr`, after the `tiles` dataset was created. The model reports `DeclaredShapeMismatch`; the empty dataset left in the store is not modelled.
- Pyramid.WriteZoomLevel: x and y chunks other than the tile size are not modelled. The source counts tiles as the number of x and y chunks (image.py:95-98), so with other chunks its reshape at image.py:106-108 can raise ValueError where the model returns Ok; `ScaledLength` likewise assumes tile-sized blocks. write_image_zarr always rechunks to (tile_size, tile_size, 1, 1, 1) first (image.py:136), and `Pyramid.WriteImageLevels` passes exactly those chunks.
- TiledGroups.TileGrouped: the rows carry only the columns the grouping reads, plus `grid` and `group`. The source keeps every other column of the frame, and it adds `grid` and `group` to the caller's frame in place, leaving them as the frame's index; none of this is modelled.
- GridCentroids.ComputeGridCentroids: the result maps each bin size to its merged table. The row order of the source's concatenated frame is not modelled.
- Pyramid.WriteImageLevels: computes the crop, the plan and the padding before the OME and bounding-box checks, which the source runs first (on a rejected box it plans the uncropped image); none of them writes anything, so the outcome is the same. The store's groups and datasets are not modelled: the model returns the cropped image, the arrays written and the root attributes, with the OME model as a value rather than its JSON text. The source also changes the caller's OME model in place when it sets the crop sizes; the model builds a new value.
- Vector.GroupVectorView: the `featureNameToLayer` map is modelled by its set of keys (`layerNames`); the layer objects themselves belong to OpenLayers.
- The viewer reads the z index from the tile array's T slot and the t index from its Z slot (`ZarrTile.ViewerTileHoldsLevelPixels`). The pixels are the right ones whenever the image has a single z and t plane, which is how the writer is used; no corrected reader is given.

## Findings

| source | as written | input that shows it | evidently intended | confidence | as-written member | corrected member |
|---|---|---|---|---|---|---|
| cosilico-py/src/cosilico_py/client/experiment.py:379 | `einsum('abcdefg->afbgcde')` pairs tile axis f (the writer's y offset) with the x tile index | a 2x2 level with tile size 2 and a single non-zero pixel at (1, 0) reads back with it at (0, 1) | `'agbfcde'`, which returns the level as written | high (not executed) | Experiment.ReassembleAsWrittenIsNotIdentity | Experiment.ReassembleRoundTrip |
| cosilico-py/src/cosilico_py/preprocessing/core/tiling.py:166-175 | the merged centroid is the unweighted mean of per-chunk means | rows x = 0, 0, 3 in one bin with chunk size 2 give 1.5; the mean is 1.0 | the count-weighted mean, equal to the mean over all rows for any chunk size | high (not executed) | GridCentroidsProofs.UnweightedMergeCounterexample | GridCentroidsProofs.WeightedMergeIsExact |
| cosilico-py/src/cosilico_py/client/structure.py:148-150 | "/root" is prefixed only when the first five characters are not "/root" | "/rootdir" stays unprefixed, so it resolves as a root named "rootdir" | prefix every absolute path that is not "/root" and not under "/root/" | medium (not executed) | NodePath.NormalizePathMissesRootPrefixedName | NodePath.NormalizePathCorrectedReachesRootPrefixedName |
