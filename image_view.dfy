// The state of one image layer in the viewer
// (cosilico-viewer/src/lib/openlayers/Image.js): which channels are shown,
// the tile source opened for each shown channel, the display window and
// colour of every channel, and the channels the user has touched.
module ImageView {
  import opened Wrappers
  import JsArray

  /** Display settings of one channel (`color` is undefined when the
      palette has no colour for the channel). */
  datatype ChannelView = ChannelView(minValue: real, maxValue: real, gamma: real, color: Option<string>)

  /** A channel view as saved with the user's view settings. */
  datatype SavedView = SavedView(minValue: real, maxValue: real, gamma: real, color: string)

  /** The saved view settings the layer is created with. */
  datatype ViewSettings = ViewSettings(
    isVisible: Option<bool>,
    channelViews: Option<map<string, SavedView>>,
    tIndex: Option<int>,
    zIndex: Option<int>,
    visibleChannels: Option<seq<string>>)

  /** What ZarrTileSource.create is given for one shown channel. */
  datatype TileSource = TileSource(cIndex: int, tIndex: int, zIndex: int)

  datatype ImageError = TypeError

  const DtypeMin: real := 0.0
  const DtypeMax: real := 255.0

  /** The default view of a channel that has no saved view. */
  function DefaultView(color: Option<string>): (v: ChannelView)
    ensures v.minValue == 0.0 && v.maxValue == 255.0 && v.gamma == 1.0 && v.color == color
  {
    ChannelView(DtypeMin, DtypeMax, 1.0, color)
  }

  /** `m.get(k)` */
  function Get(m: map<string, string>, k: string): Option<string>
  {
    if k in m then Some(m[k]) else None
  }

  /** Every channel view shows the colour recorded for its channel. */
  ghost predicate ColorsAgree(views: map<string, ChannelView>, colors: map<string, string>)
  {
    forall name :: name in views ==> views[name].color == Get(colors, name)
  }

  /** Each shown channel has its own tile source, in the same position. */
  ghost predicate Aligned(visible: seq<string>, sources: seq<TileSource>, channelNames: seq<string>, t: int, z: int)
  {
    |visible| == |sources|
    && forall k :: 0 <= k < |sources| ==>
         sources[k] == TileSource(JsArray.IndexOf(channelNames, visible[k]), t, z)
  }

  /** Splicing both lists at the index of the removed name keeps them aligned. */
  lemma SpliceKeepsAligned(visible: seq<string>, sources: seq<TileSource>, channelNames: seq<string>, t: int, z: int, start: int)
    requires Aligned(visible, sources, channelNames, t, z)
    ensures Aligned(JsArray.Splice1(visible, start), JsArray.Splice1(sources, start), channelNames, t, z)
  {
    var v', s' := JsArray.Splice1(visible, start), JsArray.Splice1(sources, start);
    var k := if start < 0 then (if |visible| + start < 0 then 0 else |visible| + start) else start;
    if k < |visible| {
      assert v' == visible[..k] + visible[k + 1..];
      assert s' == sources[..k] + sources[k + 1..];
      forall i | 0 <= i < |s'|
        ensures s'[i] == TileSource(JsArray.IndexOf(channelNames, v'[i]), t, z)
      {
        if i < k {
          assert s'[i] == sources[i] && v'[i] == visible[i];
        } else {
          assert s'[i] == sources[i + 1] && v'[i] == visible[i + 1];
        }
      }
    }
  }

  /** The channel views and colours the first loop of populateInitialFields
      leaves: a saved view is copied and its colour installed; any other
      channel gets the default window and its palette colour. */
  ghost predicate InitialViewsOf(channelNames: seq<string>, palette: map<string, string>, saved: map<string, SavedView>,
                                 views: map<string, ChannelView>, colors: map<string, string>)
  {
    && (forall name :: name in views <==> name in channelNames)
    && (forall name :: name in channelNames && name !in saved ==>
          views[name] == DefaultView(Get(palette, name)))
    && (forall name :: name in channelNames && name in saved ==>
          views[name] == ChannelView(saved[name].minValue, saved[name].maxValue, saved[name].gamma, Some(saved[name].color))
          && Get(colors, name) == Some(saved[name].color))
    && ColorsAgree(views, colors)
  }

  /** The loop over the channel names in populateInitialFields. */
  method InitialViews(channelNames: seq<string>, palette: map<string, string>, saved: map<string, SavedView>)
    returns (views: map<string, ChannelView>, colors: map<string, string>)
    ensures InitialViewsOf(channelNames, palette, saved, views, colors)
  {
    colors := palette;
    views := map[];
    var i := 0;
    while i < |channelNames|
      invariant 0 <= i <= |channelNames|
      invariant forall name :: name in views <==> name in channelNames[..i]
      invariant ColorsAgree(views, colors)
      invariant forall name :: name !in saved ==> Get(colors, name) == Get(palette, name)
      invariant forall name :: name in views && name !in saved ==> views[name] == DefaultView(Get(palette, name))
      invariant forall name :: name in views && name in saved ==>
        views[name] == ChannelView(saved[name].minValue, saved[name].maxValue, saved[name].gamma, Some(saved[name].color))
        && Get(colors, name) == Some(saved[name].color)
    {
      var name := channelNames[i];
      if name !in saved {
        views := views[name := DefaultView(Get(colors, name))];
      } else {
        var v := saved[name];
        colors := colors[name := v.color];
        views := views[name := ChannelView(v.minValue, v.maxValue, v.gamma, Some(v.color))];
      }
      assert channelNames[..i + 1] == channelNames[..i] + [name];
      i := i + 1;
    }
    assert channelNames[..|channelNames|] == channelNames;
  }

  /** The loop opening a tile source for every shown channel. */
  method SourcesFor(visible: seq<string>, channelNames: seq<string>, t: int, z: int) returns (sources: seq<TileSource>)
    ensures Aligned(visible, sources, channelNames, t, z)
  {
    sources := [];
    var j := 0;
    while j < |visible|
      invariant 0 <= j <= |visible|
      invariant Aligned(visible[..j], sources, channelNames, t, z)
    {
      sources := sources + [TileSource(JsArray.IndexOf(channelNames, visible[j]), t, z)];
      j := j + 1;
    }
    assert visible[..|visible|] == visible;
  }

  class Image {
    const channelNames: seq<string>
    const viewSettings: Option<ViewSettings>
    var isVisible: bool
    var channelToColor: map<string, string>
    var channelNameToView: map<string, ChannelView>
    var tIndex: int
    var zIndex: int
    var visibleChannelNames: seq<string>
    var zarrTileSources: seq<TileSource>
    var interactedChannelNames: seq<string>

    /** The invariant the layer methods keep. */
    ghost predicate Valid()
      reads this
    {
      Aligned(visibleChannelNames, zarrTileSources, channelNames, tIndex, zIndex)
      && ColorsAgree(channelNameToView, channelToColor)
      && JsArray.NoDup(interactedChannelNames)
    }

    /** The constructor: `isVisible = viewSettings?.is_visible ?? false`
        (comparing the settings with `{}` is always false, so a base image
        is not made visible by it). */
    constructor(channelNames: seq<string>, viewSettings: Option<ViewSettings>)
      ensures this.channelNames == channelNames && this.viewSettings == viewSettings
      ensures isVisible <==> viewSettings.Some? && viewSettings.value.isVisible == Some(true)
      ensures visibleChannelNames == [] && zarrTileSources == [] && interactedChannelNames == []
      ensures channelNameToView == map[] && channelToColor == map[]
      ensures tIndex == 0 && zIndex == 0
      ensures Valid()
    {
      this.channelNames := channelNames;
      this.viewSettings := viewSettings;
      isVisible := if viewSettings.Some? && viewSettings.value.isVisible.Some? then viewSettings.value.isVisible.value else false;
      channelToColor := map[];
      channelNameToView := map[];
      tIndex := 0;
      zIndex := 0;
      visibleChannelNames := [];
      zarrTileSources := [];
      interactedChannelNames := [];
    }

    /** populateInitialFields, with the palette mapping as a parameter. A
        layer created without view settings throws when the saved channel
        views are read, after the palette is installed. */
    method PopulateInitialFields(palette: map<string, string>) returns (r: Result<(), ImageError>)
      modifies this`channelToColor, this`channelNameToView, this`tIndex, this`zIndex
      modifies this`visibleChannelNames, this`interactedChannelNames, this`zarrTileSources
      ensures isVisible == old(isVisible)
      ensures r.Err? <==> viewSettings.None?
      ensures r.Err? ==> channelToColor == palette
      ensures r.Err? ==>
        && channelNameToView == old(channelNameToView) && tIndex == old(tIndex) && zIndex == old(zIndex)
        && visibleChannelNames == old(visibleChannelNames) && interactedChannelNames == old(interactedChannelNames)
        && zarrTileSources == old(zarrTileSources)
      ensures r.Ok? ==> (
        var vs := viewSettings.value;
        var saved := if vs.channelViews.Some? then vs.channelViews.value else map[];
        && InitialViewsOf(channelNames, palette, saved, channelNameToView, channelToColor)
        && tIndex == (if vs.tIndex.Some? then vs.tIndex.value else 0)
        && zIndex == (if vs.zIndex.Some? then vs.zIndex.value else 0)
        && visibleChannelNames == (if vs.visibleChannels.Some? then vs.visibleChannels.value else [])
        && interactedChannelNames == []
        && Valid())
    {
      channelToColor := palette;
      if viewSettings.None? {
        return Err(TypeError);
      }
      var vs := viewSettings.value;
      var saved := if vs.channelViews.Some? then vs.channelViews.value else map[];
      var t := if vs.tIndex.Some? then vs.tIndex.value else 0;
      var z := if vs.zIndex.Some? then vs.zIndex.value else 0;
      var visible := if vs.visibleChannels.Some? then vs.visibleChannels.value else [];
      var views, colors := InitialViews(channelNames, palette, saved);
      var sources := SourcesFor(visible, channelNames, t, z);
      tIndex, zIndex := t, z;
      visibleChannelNames := visible;
      interactedChannelNames := [];
      channelToColor := colors;
      channelNameToView := views;
      zarrTileSources := sources;
      return Ok(());
    }

    /** updateInteractedChannel */
    method UpdateInteractedChannel(channelName: string)
      modifies this`interactedChannelNames
      ensures interactedChannelNames == JsArray.PushIfAbsent(old(interactedChannelNames), channelName)
      ensures JsArray.NoDup(old(interactedChannelNames)) ==> JsArray.NoDup(interactedChannelNames)
    {
      if JsArray.NoDup(interactedChannelNames) {
        JsArray.PushIfAbsentKeepsNoDup(interactedChannelNames, channelName);
      }
      if channelName !in interactedChannelNames {
        interactedChannelNames := interactedChannelNames + [channelName];
      }
    }

    /** addChannel: nothing happens for a channel already shown; otherwise
        the channel and a tile source for its index are appended together. */
    method AddChannel(channelName: string)
      requires Valid()
      modifies this`visibleChannelNames, this`zarrTileSources, this`interactedChannelNames
      ensures Valid()
      ensures channelName in old(visibleChannelNames) ==> (
        visibleChannelNames == old(visibleChannelNames) && zarrTileSources == old(zarrTileSources)
        && interactedChannelNames == old(interactedChannelNames))
      ensures channelName !in old(visibleChannelNames) ==> (
        visibleChannelNames == old(visibleChannelNames) + [channelName]
        && zarrTileSources == old(zarrTileSources) + [TileSource(JsArray.IndexOf(channelNames, channelName), tIndex, zIndex)]
        && interactedChannelNames == JsArray.PushIfAbsent(old(interactedChannelNames), channelName))
    {
      if channelName in visibleChannelNames {
        return;
      }
      var cIndex := JsArray.IndexOf(channelNames, channelName);
      visibleChannelNames := visibleChannelNames + [channelName];
      zarrTileSources := zarrTileSources + [TileSource(cIndex, tIndex, zIndex)];
      UpdateInteractedChannel(channelName);
    }

    /** removeChannel: both lists are spliced at the name's index, so a name
        that is not shown removes the last channel and its source. */
    method RemoveChannel(channelName: string)
      requires Valid()
      modifies this`visibleChannelNames, this`zarrTileSources, this`interactedChannelNames
      ensures Valid()
      ensures visibleChannelNames == JsArray.RemoveAt(old(visibleChannelNames), channelName)
      ensures zarrTileSources == JsArray.Splice1(old(zarrTileSources), JsArray.IndexOf(old(visibleChannelNames), channelName))
      ensures interactedChannelNames == JsArray.PushIfAbsent(old(interactedChannelNames), channelName)
    {
      var removalIndex := JsArray.IndexOf(visibleChannelNames, channelName);
      SpliceKeepsAligned(visibleChannelNames, zarrTileSources, channelNames, tIndex, zIndex, removalIndex);
      visibleChannelNames := JsArray.Splice1(visibleChannelNames, removalIndex);
      zarrTileSources := JsArray.Splice1(zarrTileSources, removalIndex);
      UpdateInteractedChannel(channelName);
    }

    /** setChannelColor: the view and the colour map change together; a
        channel without a view throws before anything changes. */
    method SetChannelColor(channelName: string, color: string) returns (r: Result<(), ImageError>)
      requires Valid()
      modifies this`channelNameToView, this`channelToColor, this`interactedChannelNames
      ensures Valid()
      ensures r.Err? <==> channelName !in old(channelNameToView)
      ensures r.Err? ==> (channelNameToView == old(channelNameToView) && channelToColor == old(channelToColor)
        && interactedChannelNames == old(interactedChannelNames))
      ensures r.Ok? ==> (
        channelNameToView == old(channelNameToView)[channelName := old(channelNameToView)[channelName].(color := Some(color))]
        && channelToColor == old(channelToColor)[channelName := color]
        && interactedChannelNames == JsArray.PushIfAbsent(old(interactedChannelNames), channelName))
    {
      if channelName !in channelNameToView {
        return Err(TypeError);
      }
      var view := channelNameToView[channelName];
      channelNameToView := channelNameToView[channelName := view.(color := Some(color))];
      channelToColor := channelToColor[channelName := color];
      UpdateInteractedChannel(channelName);
      return Ok(());
    }
  }
}
