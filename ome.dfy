// OME metadata checks and JSON serialisation
// (cosilico-py/src/cosilico_py/preprocessing/core/ome.py), over the part of
// the OME model that the engine and the viewer read: the images, and of the
// first image's pixels the physical pixel size, its unit, the extents and
// the channels.
module Ome {
  import opened Wrappers

  datatype Channel = Channel(name: Option<string>)

  datatype Pixels = Pixels(
    physicalSizeX: Option<real>,
    physicalSizeXUnit: Option<string>,
    sizeX: Option<int>,
    sizeY: Option<int>,
    channels: seq<Channel>)

  datatype OmeImage = OmeImage(pixels: Option<Pixels>)

  datatype OmeModel = OmeModel(images: seq<OmeImage>)

  /** The checked attributes, in the order they are checked. */
  datatype Field = PhysicalSizeX | PhysicalSizeXUnit | SizeX | SizeY

  predicate IsSet(p: Pixels, f: Field)
  {
    match f
    case PhysicalSizeX => p.physicalSizeX.Some?
    case PhysicalSizeXUnit => p.physicalSizeXUnit.Some?
    case SizeX => p.sizeX.Some?
    case SizeY => p.sizeY.Some?
  }

  /** RuntimeError for a missing image or missing pixels; AssertionError for
      a checked attribute that is None. (`getattr` on the model never raises
      KeyError, so the RuntimeError of the `except` branch cannot occur.) */
  datatype ValidationError = NoImages | NoPixels | FieldIsNone(field: Field)

  /** validate_ome: None when the function returns normally. */
  function Validate(m: OmeModel): (r: Option<ValidationError>)
    ensures r.None? <==> |m.images| > 0 && m.images[0].pixels.Some?
                         && forall f :: IsSet(m.images[0].pixels.value, f)
    ensures r == Some(NoImages) <==> |m.images| == 0
    ensures r == Some(NoPixels) <==> |m.images| > 0 && m.images[0].pixels.None?
    ensures r.Some? && r.value.FieldIsNone? ==> !IsSet(m.images[0].pixels.value, r.value.field)
  {
    if |m.images| == 0 then Some(NoImages)
    else if m.images[0].pixels.None? then Some(NoPixels)
    else
      var p := m.images[0].pixels.value;
      if p.physicalSizeX.None? then assert !IsSet(p, PhysicalSizeX); Some(FieldIsNone(PhysicalSizeX))
      else if p.physicalSizeXUnit.None? then assert !IsSet(p, PhysicalSizeXUnit); Some(FieldIsNone(PhysicalSizeXUnit))
      else if p.sizeX.None? then assert !IsSet(p, SizeX); Some(FieldIsNone(SizeX))
      else if p.sizeY.None? then assert !IsSet(p, SizeY); Some(FieldIsNone(SizeY))
      else None
  }

  /** Only the first image is checked: later images never change the outcome. */
  lemma ValidateOnlyFirstImage(first: OmeImage, rest: seq<OmeImage>)
    ensures Validate(OmeModel([first] + rest)) == Validate(OmeModel([first]))
  {
  }

  /** The attributes are checked in a fixed order: the physical size first,
      then its unit, then the two extents. */
  lemma ValidateReportsInOrder(p: Pixels)
    ensures p.physicalSizeX.None? ==>
      Validate(OmeModel([OmeImage(Some(p))])) == Some(FieldIsNone(PhysicalSizeX))
    ensures p.physicalSizeX.Some? && p.physicalSizeXUnit.None? ==>
      Validate(OmeModel([OmeImage(Some(p))])) == Some(FieldIsNone(PhysicalSizeXUnit))
    ensures p.physicalSizeX.Some? && p.physicalSizeXUnit.Some? && p.sizeX.None? ==>
      Validate(OmeModel([OmeImage(Some(p))])) == Some(FieldIsNone(SizeX))
    ensures p.physicalSizeX.Some? && p.physicalSizeXUnit.Some? && p.sizeX.Some? && p.sizeY.None? ==>
      Validate(OmeModel([OmeImage(Some(p))])) == Some(FieldIsNone(SizeY))
  {
  }

  // ---------------------------------------------------------------------
  // ome_serializer

  /** What the serializer can tell about a Python object. */
  datatype PyObject = PyObject(
    enumValue: Option<string>,          // Some(v) when the object is an Enum member
    attributes: Option<map<string, string>>, // Some(d) when it has a __dict__
    text: string)                        // str(obj)

  datatype Json = JsonValue(value: string) | JsonObject(fields: map<string, string>) | JsonString(s: string)

  /** ome_serializer: Enum members become their value, other objects with
      attributes their attribute dictionary, anything else its string. */
  function Serialize(o: PyObject): (j: Json)
    ensures o.enumValue.Some? ==> j == JsonValue(o.enumValue.value)
    ensures o.enumValue.None? && o.attributes.Some? ==> j == JsonObject(o.attributes.value)
    ensures o.enumValue.None? && o.attributes.None? ==> j == JsonString(o.text)
  {
    if o.enumValue.Some? then JsonValue(o.enumValue.value)
    else if o.attributes.Some? then JsonObject(o.attributes.value)
    else JsonString(o.text)
  }

  /** An Enum member also carries a __dict__; the Enum test wins. */
  lemma EnumTestComesFirst(v: string, d: map<string, string>, t: string)
    ensures Serialize(PyObject(Some(v), Some(d), t)).JsonValue?
  {
  }
}
