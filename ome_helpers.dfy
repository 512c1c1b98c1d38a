// Channel names of an OME document as the viewer reads them
// (cosilico-viewer/src/lib/openlayers/OmeHelpers.js).
module OmeHelpers {
  import opened Wrappers
  import Ome

  /** Reading `images[0].pixels.channels` of a document with no image or
      with null pixels throws a TypeError; the function validates nothing. */
  datatype ReadError = TypeError

  /** getOmeChannelNames: the names of the first image's channels, in order
      (a channel without a name contributes `undefined`, here None). */
  method ChannelNames(ome: Ome.OmeModel) returns (r: Result<seq<Option<string>>, ReadError>)
    ensures r.Ok? <==> |ome.images| > 0 && ome.images[0].pixels.Some?
    ensures r.Ok? ==> |r.value| == |ome.images[0].pixels.value.channels|
    ensures r.Ok? ==> forall i :: 0 <= i < |r.value| ==>
      r.value[i] == ome.images[0].pixels.value.channels[i].name
    ensures Ome.Validate(ome).None? ==> r.Ok?
  {
    if |ome.images| == 0 || ome.images[0].pixels.None? {
      return Err(TypeError);
    }
    var omeChannels := ome.images[0].pixels.value.channels;
    var channelNames: seq<Option<string>> := [];
    var i := 0;
    while i < |omeChannels|
      invariant 0 <= i <= |omeChannels|
      invariant |channelNames| == i
      invariant forall k :: 0 <= k < i ==> channelNames[k] == omeChannels[k].name
    {
      channelNames := channelNames + [omeChannels[i].name];
      i := i + 1;
    }
    return Ok(channelNames);
  }
}
