// Record types of the Python client and their post-initialisation rules
// (cosilico-py/src/cosilico_py/models.py): the permission enumeration, the
// default permission of a directory entity and the storage path of images,
// layers and layer metadata. Identifiers that the source draws from uuid4
// are parameters here.
module Models {
  import opened Wrappers

  datatype Permission = NoAccess | Read | ReadWrite | ReadWriteDelete

  /** The string value of each PermissionEnum member. */
  function PermissionValue(p: Permission): string
  {
    match p
    case NoAccess => ""
    case Read => "r"
    case ReadWrite => "rw"
    case ReadWriteDelete => "rwd"
  }

  /** `PermissionEnum(s)`: None stands for the ValueError on any other string. */
  function ParsePermission(s: string): (r: Option<Permission>)
    ensures r.Some? ==> PermissionValue(r.value) == s
  {
    if s == "" then Some(NoAccess)
    else if s == "r" then Some(Read)
    else if s == "rw" then Some(ReadWrite)
    else if s == "rwd" then Some(ReadWriteDelete)
    else None
  }

  /** The enumeration's values are exactly "", "r", "rw" and "rwd", and each
      value names one member. */
  lemma PermissionValues(s: string)
    ensures ParsePermission(s).Some? <==> s in {"", "r", "rw", "rwd"}
    ensures forall p :: ParsePermission(PermissionValue(p)) == Some(p)
  {
  }

  datatype EntityType = ExperimentEntity | DirectoryEntity

  datatype DirectoryEntityRecord = DirectoryEntityRecord(
    id: string,
    name: string,
    parentId: Option<string>,
    entityType: EntityType,
    permission: Option<Permission>,
    readers: seq<string>,
    writers: seq<string>,
    deleters: seq<string>)

  /** DirectoryEntity.assign_permission. */
  function AssignPermission(p: Option<Permission>, parentId: Option<string>): (r: Permission)
    ensures p.Some? ==> r == p.value
    ensures p.None? ==> (r == Read <==> parentId.None?)
    ensures p.None? ==> (r == NoAccess <==> parentId.Some?)
  {
    if p.Some? then p.value
    else if parentId.None? then Read
    else NoAccess
  }

  /** DirectoryEntity.model_post_init: the stored permission is always set,
      and nothing else changes. */
  function PostInitEntity(e: DirectoryEntityRecord): (r: DirectoryEntityRecord)
    ensures r.permission == Some(AssignPermission(e.permission, e.parentId))
    ensures r == e.(permission := r.permission)
    ensures e.permission.Some? ==> r == e
  {
    e.(permission := Some(AssignPermission(e.permission, e.parentId)))
  }

  /** Post-initialisation is idempotent: a second pass keeps the record. */
  lemma PostInitIdempotent(e: DirectoryEntityRecord)
    ensures PostInitEntity(PostInitEntity(e)) == PostInitEntity(e)
  {
  }

  const ZarrSuffix: string := ".zarr.zip"

  /** `f'{id}.zarr.zip'`. */
  function ZarrPath(id: string): (path: string)
    ensures |path| == |id| + |ZarrSuffix|
    ensures path[..|id|] == id && path[|id|..] == ZarrSuffix
  {
    id + ZarrSuffix
  }

  /** The id a storage path was derived from, when it has the suffix. */
  function IdOfPath(path: string): (r: Option<string>)
  {
    if |path| >= |ZarrSuffix| && path[|path| - |ZarrSuffix|..] == ZarrSuffix
    then Some(path[..|path| - |ZarrSuffix|])
    else None
  }

  /** Stripping the ".zarr.zip" suffix from a record's path gives its id
      back. */
  lemma ZarrPathRoundTrip(id: string)
    ensures IdOfPath(ZarrPath(id)) == Some(id)
  {
    var p := ZarrPath(id);
    assert p[|p| - |ZarrSuffix|..] == ZarrSuffix;
    assert p[..|p| - |ZarrSuffix|] == id;
  }

  /** The path determines the id: distinct records never share a path. */
  lemma ZarrPathInjective(a: string, b: string)
    requires ZarrPath(a) == ZarrPath(b)
    ensures a == b
  {
    ZarrPathRoundTrip(a);
    ZarrPathRoundTrip(b);
  }

  datatype MetadataType = Categorical | Continuous

  datatype ImageRecord = ImageRecord(id: string, experimentId: string, name: string, path: string)

  datatype LayerRecord = LayerRecord(id: string, experimentId: string, name: string, isGrouped: bool, path: string)

  datatype LayerMetadataRecord = LayerMetadataRecord(
    id: string, layerId: string, name: string, metadataType: MetadataType,
    isSparse: bool, fields: seq<string>, path: string)

  /** Image.model_post_init: the path is derived from the id, whatever path
      was supplied. */
  function NewImage(id: string, experimentId: string, name: string, suppliedPath: string): (r: ImageRecord)
    ensures r.id == id && r.experimentId == experimentId && r.name == name
    ensures IdOfPath(r.path) == Some(id)
  {
    ZarrPathRoundTrip(id);
    ImageRecord(id, experimentId, name, ZarrPath(id))
  }

  /** Layer.model_post_init. */
  function NewLayer(id: string, experimentId: string, name: string, isGrouped: bool, suppliedPath: string): (r: LayerRecord)
    ensures r.id == id && r.experimentId == experimentId && r.name == name && r.isGrouped == isGrouped
    ensures IdOfPath(r.path) == Some(id)
  {
    ZarrPathRoundTrip(id);
    LayerRecord(id, experimentId, name, isGrouped, ZarrPath(id))
  }

  /** LayerMetadata.model_post_init. */
  function NewLayerMetadata(id: string, layerId: string, name: string, metadataType: MetadataType,
                            isSparse: bool, fields: seq<string>, suppliedPath: string): (r: LayerMetadataRecord)
    ensures r.id == id && r.layerId == layerId && r.name == name
    ensures r.metadataType == metadataType && r.isSparse == isSparse && r.fields == fields
    ensures IdOfPath(r.path) == Some(id)
  {
    ZarrPathRoundTrip(id);
    LayerMetadataRecord(id, layerId, name, metadataType, isSparse, fields, ZarrPath(id))
  }
}
