/** A Transform interaction that listens to the map's pointer moves itself and
    shows a hover cursor over selectable features. */
module FeatureHoverCursor {
  import opened Js
  import opened Dom
  import opened Seqs

  /** How many features the hit-test hands to a callback that stops at the
      first feature that passes: up to and including that feature, or all. */
  function Visited(passes: seq<bool>): (n: nat)
    ensures n <= |passes|
    ensures forall i :: 0 <= i < n - 1 ==> !passes[i]
    ensures n < |passes| ==> n > 0 && passes[n - 1]
  {
    match IndexOf(passes, true)
    case None => |passes|
    case Some(i) => i + 1
  }

  /** The hit-test of `updateCursor_`: `passes[i]` is whether the selection
      filter accepts the i-th feature at the pointer. The callback raises
      `onFeature` and stops the search at the first feature that passes. */
  method AnyFeaturePasses(passes: seq<bool>) returns (onFeature: bool, visited: nat)
    ensures onFeature <==> true in passes
    ensures visited == Visited(passes)
  {
    onFeature := false;
    visited := 0;
    while visited < |passes| && !onFeature
      invariant 0 <= visited <= |passes|
      invariant onFeature ==> visited > 0 && passes[visited - 1] && true !in passes[..visited - 1]
      invariant !onFeature ==> true !in passes[..visited]
      decreases |passes| - visited
    {
      if passes[visited] {
        onFeature := true;
      }
      visited := visited + 1;
    }
    if onFeature {
      IndexOfUnique(passes, true, visited - 1);
    } else {
      assert passes[..visited] == passes;
    }
  }

  class CustomTransform {
    var active: bool       // the OpenLayers interaction's active flag
    var olMap: OlMap?      // the map the OpenLayers interaction is on
    var hoverCursor: string
    var defaultCursor: string
    var pointerMoveKey: Option<nat>   // the key `map.on('pointermove', …)` returned

    /** The target element of the current map, if any. */
    function Target(): HtmlElement?
      reads this
    {
      if olMap == null then null else olMap.target
    }

    /** `hoverCursor` is a truthy option or `'grab'`, `defaultCursor` a truthy
        option or the empty cursor. */
    constructor (hover: Option<string>, default: Option<string>)
      ensures hoverCursor == Or(hover, "grab") && hoverCursor != ""
      ensures defaultCursor == Or(default, "")
      ensures Truthy(default) ==> defaultCursor == default.value
      ensures active && olMap == null && pointerMoveKey == None
    {
      active := true;
      olMap := null;
      hoverCursor := Or(hover, "grab");
      defaultCursor := Or(default, "");
      pointerMoveKey := None;
    }

    /** `setMap`, given the key the new map's `on` returns: the old map's
        element goes back to the default cursor before the new map is taken. */
    method SetMap(m: OlMap?, key: nat)
      modifies this`olMap, this`pointerMoveKey, Target()
      ensures olMap == m
      ensures old(Target()) != null ==> old(Target()).cursor == defaultCursor
      ensures m != null ==> pointerMoveKey == Some(key)
      ensures m == null ==> pointerMoveKey == old(pointerMoveKey)
    {
      var oldMap := olMap;
      if oldMap != null {
        var element := oldMap.target;
        if element != null {
          element.cursor := defaultCursor;
        }
      }
      olMap := m;
      if m != null {
        pointerMoveKey := Some(key);
      }
    }

    /** `updateCursor_`, given the Transform's mode and constraint and the
        filter's verdict on each feature at the pointer. Without a map or an
        element nothing happens; inactive shows the default cursor; a handle
        mode or constraint keeps the handle's cursor; otherwise the hover
        cursor shows exactly when some feature passes the filter. */
    method UpdateCursor(mode: Option<string>, constraint: Option<string>, passes: seq<bool>)
      modifies Target()
      ensures Target() != null && !active ==> Target().cursor == defaultCursor
      ensures Target() != null && active && (Truthy(mode) || Truthy(constraint)) ==>
        Target().cursor == old(Target().cursor)
      ensures Target() != null && active && !Truthy(mode) && !Truthy(constraint) ==>
        Target().cursor == (if true in passes then hoverCursor else defaultCursor)
    {
      var m := olMap;
      if m == null {
        return;
      }
      var element := m.target;
      if element == null {
        return;
      }
      if !active {
        element.cursor := defaultCursor;
        return;
      }
      if Truthy(mode) || Truthy(constraint) {
        return;
      }
      var onFeature, _ := AnyFeaturePasses(passes);
      element.cursor := if onFeature then hoverCursor else defaultCursor;
    }

    /** `setActive`: deactivating shows the default cursor; activating writes
        nothing. */
    method SetActive(a: bool)
      modifies this`active, Target()
      ensures active == a
      ensures Target() != null && !a ==> Target().cursor == defaultCursor
      ensures Target() != null && a ==> Target().cursor == old(Target().cursor)
    {
      active := a;
      if !a {
        var m := olMap;
        if m != null {
          var element := m.target;
          if element != null {
            element.cursor := defaultCursor;
          }
        }
      }
    }
  }
}
