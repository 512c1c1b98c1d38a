// Choice of the pyramid level to display
// (cosilico-viewer/src/lib/openlayers/OpenlayersHelpers.js, getClosestResolution).
module OpenlayersHelpers {
  import opened Wrappers

  /** `null` when the view has no resolution, `undefined` when the list of
      resolutions is empty, otherwise the chosen resolution. */
  datatype Choice = Null | Undefined | Chosen(resolution: real)

  /** The resolutions strictly greater than `current`, in order. */
  function Above(rs: seq<real>, current: real): (r: seq<real>)
    ensures forall v :: v in r <==> v in rs && v > current
  {
    if |rs| == 0 then [] else (if rs[0] > current then [rs[0]] else []) + Above(rs[1..], current)
  }

  /** reduce((prev, curr) => curr < prev ? curr : prev, init) */
  function ReduceMin(init: real, rs: seq<real>): (r: real)
    ensures r == init || r in rs
    ensures r <= init && forall v :: v in rs ==> r <= v
    decreases rs
  {
    if |rs| == 0 then init
    else
      assert forall v :: v in rs ==> v == rs[0] || v in rs[1..];
      ReduceMin(if rs[0] < init then rs[0] else init, rs[1..])
  }

  /** The filter-and-reduce step for a view resolution scaled to pixels per
      tile (`current`); the list must be non-empty. */
  function ChooseResolution(available: seq<real>, current: real): (r: real)
    requires |available| > 0
    ensures r in available
    ensures r <= available[0]
  {
    ReduceMin(available[0], Above(available, current))
  }

  /** getClosestResolution; `viewResolution` is the view's resolution, None
      when it is undefined (the other falsy value, 0, is Some(0.0)). */
  function ClosestResolution(viewResolution: Option<real>, available: seq<real>, tileSize: real): (r: Choice)
    ensures (viewResolution.None? || viewResolution == Some(0.0)) <==> r == Null
    ensures r == Undefined <==> !r.Null? && |available| == 0
    ensures r.Chosen? ==> r.resolution in available && r.resolution <= available[0]
  {
    if viewResolution.None? || viewResolution.value == 0.0 then Null
    else if |available| == 0 then Undefined
    else Chosen(ChooseResolution(available, viewResolution.value * tileSize))
  }

  predicate Descending(rs: seq<real>)
  {
    forall i, j :: 0 <= i < j < |rs| ==> rs[i] >= rs[j]
  }

  /** On a list sorted from the largest resolution down (as the layers sort
      theirs), the choice is the smallest resolution above `current`, and
      the largest resolution when none is above. */
  lemma ChooseSmallestAbove(available: seq<real>, current: real)
    requires |available| > 0 && Descending(available)
    ensures var r := ChooseResolution(available, current);
            ((exists k :: 0 <= k < |available| && available[k] > current) ==>
                  r > current
                  && forall k :: 0 <= k < |available| && available[k] > current ==> r <= available[k])
            && ((forall k :: 0 <= k < |available| ==> available[k] <= current) ==>
                  r == available[0])
  {
    var above := Above(available, current);
    if exists k :: 0 <= k < |available| && available[k] > current {
      var k :| 0 <= k < |available| && available[k] > current;
      assert available[k] in above;
      assert available[0] >= available[k];
      forall j | 0 <= j < |available| && available[j] > current
        ensures ChooseResolution(available, current) <= available[j]
      {
        assert available[j] in above;
      }
    }
  }
}
