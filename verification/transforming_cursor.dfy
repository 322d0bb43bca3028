/** A Transform interaction whose viewport cursor follows three states:
    inactive, selecting and transforming. Transform events drive the
    transforming flag. */
module TransformingCursor {
  import opened Js
  import opened Dom

  /** The Transform events the interaction listens to. */
  datatype TransformEvent =
    | Select
    | Rotating | Translating | Scaling
    | RotateEnd | TranslateEnd | ScaleEnd

  /** The cursor a state calls for. */
  function CursorFor(active: bool, transforming: bool,
                     selectCursor: string, defaultCursor: string, transformingCursor: string): string
  {
    if !active then defaultCursor
    else if transforming then transformingCursor
    else selectCursor
  }

  class CustomTransform {
    var active: bool       // the OpenLayers interaction's active flag
    var olMap: OlMap?        // the map the OpenLayers interaction is on
    var selectCursor: string
    var defaultCursor: string
    var transformingCursor: string
    var viewport: HtmlElement?
    var isTransforming: bool
    var eventKeys: seq<nat>

    /** The cursor the current state calls for. */
    function Shown(): string
      reads this
    {
      CursorFor(active, isTransforming, selectCursor, defaultCursor, transformingCursor)
    }

    /** The viewport is the map's, and shows the cursor the state calls for;
        no listener key is ever kept. */
    ghost predicate Valid()
      reads this, viewport
    {
      && eventKeys == []
      && (viewport != null ==> olMap != null && viewport == olMap.viewport && viewport.cursor == Shown())
    }

    /** `getSelectCursor`: the cursor a valid viewport shows while active and
        not transforming. */
    function GetSelectCursor(): (r: string)
      reads this, viewport
      ensures Valid() && active && !isTransforming && viewport != null ==> viewport.cursor == r
    {
      selectCursor
    }

    /** `getDefaultCursor`: the cursor a valid viewport shows while inactive. */
    function GetDefaultCursor(): (r: string)
      reads this, viewport
      ensures Valid() && !active && viewport != null ==> viewport.cursor == r
    {
      defaultCursor
    }

    /** `getTransformingCursor`: the cursor a valid viewport shows during a
        transform. */
    function GetTransformingCursor(): (r: string)
      reads this, viewport
      ensures Valid() && active && isTransforming && viewport != null ==> viewport.cursor == r
    {
      transformingCursor
    }

    /** OpenLayers starts the interaction active and off any map. The listeners
        registered here are modelled by OnTransformEvent; the keys `on`
        returns are dropped, so `eventKeys` stays empty. */
    constructor (selectCursor: Option<string>, defaultCursor: Option<string>, transformingCursor: Option<string>)
      ensures this.selectCursor == Or(selectCursor, "crosshair")
      ensures this.defaultCursor == Or(defaultCursor, "default")
      ensures this.transformingCursor == Or(transformingCursor, "move")
      ensures active && olMap == null && viewport == null
      ensures !isTransforming && eventKeys == []
      ensures Valid()
    {
      active := true;
      olMap := null;
      this.selectCursor := Or(selectCursor, "crosshair");
      this.defaultCursor := Or(defaultCursor, "default");
      this.transformingCursor := Or(transformingCursor, "move");
      viewport := null;
      isTransforming := false;
      eventKeys := [];
    }

    /** `updateCursorForState_`. */
    method UpdateCursorForState()
      modifies viewport
      ensures viewport != null ==> viewport.cursor == Shown()
    {
      if viewport != null {
        viewport.cursor := Shown();
      }
    }

    /** `restoreCursor_`. */
    method RestoreCursor()
      modifies viewport
      ensures viewport != null ==> viewport.cursor == defaultCursor
    {
      if viewport != null {
        viewport.cursor := defaultCursor;
      }
    }

    /** The listener for one Transform event: a transform in progress sets the
        flag, the end of one clears it, a selection leaves it; each repaints. */
    method OnTransformEvent(e: TransformEvent)
      requires Valid()
      modifies this`isTransforming, viewport
      ensures isTransforming == match e
        case Select => old(isTransforming)
        case Rotating | Translating | Scaling => true
        case RotateEnd | TranslateEnd | ScaleEnd => false
      ensures viewport != null ==> viewport.cursor == Shown()
      ensures Valid()
    {
      match e {
        case Select =>
        case Rotating | Translating | Scaling =>
          isTransforming := true;
        case RotateEnd | TranslateEnd | ScaleEnd =>
          isTransforming := false;
      }
      UpdateCursorForState();
    }

    /** `setMap`: leaving a map gives its viewport the default cursor; a new
        map's viewport is taken and painted. */
    method SetMap(m: OlMap?)
      requires Valid()
      modifies this`olMap, this`viewport, viewport, if m == null then {} else {m.viewport}
      ensures olMap == m
      ensures m == null ==> viewport == null
      ensures m != null ==> viewport == m.viewport && viewport.cursor == Shown()
      ensures old(viewport) != null && (m == null || m.viewport != old(viewport)) ==>
        old(viewport).cursor == defaultCursor
      ensures Valid()
    {
      if olMap != null && viewport != null {
        RestoreCursor();
      }
      olMap := m;
      if m != null {
        viewport := m.viewport;
        UpdateCursorForState();
      } else {
        viewport := null;
      }
    }

    /** `setActive`: the viewport is repainted only when the flag changes. */
    method SetActive(a: bool)
      requires Valid()
      modifies this`active, viewport
      ensures active == a
      ensures viewport != null && old(active) == a ==> viewport.cursor == old(viewport.cursor)
      ensures Valid()
    {
      var wasActive := active;
      active := a;
      if wasActive != a {
        UpdateCursorForState();
      }
    }

    /** `setSelectCursor`: repaints only while the select cursor is the one shown. */
    method SetSelectCursor(c: string)
      requires Valid()
      modifies this`selectCursor, viewport
      ensures GetSelectCursor() == c
      ensures viewport != null ==>
        viewport.cursor == if active && !isTransforming then c else old(viewport.cursor)
      ensures Valid()
    {
      selectCursor := c;
      if active && !isTransforming {
        UpdateCursorForState();
      }
    }

    /** `setDefaultCursor`: repaints only while inactive. */
    method SetDefaultCursor(c: string)
      requires Valid()
      modifies this`defaultCursor, viewport
      ensures GetDefaultCursor() == c
      ensures viewport != null ==> viewport.cursor == if !active then c else old(viewport.cursor)
      ensures Valid()
    {
      defaultCursor := c;
      if !active {
        UpdateCursorForState();
      }
    }

    /** `setTransformingCursor`: repaints only during a transform. */
    method SetTransformingCursor(c: string)
      requires Valid()
      modifies this`transformingCursor, viewport
      ensures GetTransformingCursor() == c
      ensures viewport != null ==>
        viewport.cursor == if active && isTransforming then c else old(viewport.cursor)
      ensures Valid()
    {
      transformingCursor := c;
      if active && isTransforming {
        UpdateCursorForState();
      }
    }

    /** `dispose`: the viewport gets the default cursor and is let go. The
        key list it walks to unregister listeners is always empty. */
    method Dispose()
      requires Valid()
      modifies this`viewport, this`eventKeys, viewport
      ensures viewport == null && eventKeys == []
      ensures old(viewport) != null ==> old(viewport).cursor == defaultCursor
      ensures Valid()
    {
      RestoreCursor();
      viewport := null;
      eventKeys := [];
    }
  }

  /** The cursor setter that matches the state is the one that changes what is shown. */
  lemma OnlyShownSetterMatters(active: bool, transforming: bool, s: string, d: string, t: string, c: string)
    ensures (active && !transforming) || CursorFor(active, transforming, c, d, t) == CursorFor(active, transforming, s, d, t)
    ensures !active || CursorFor(active, transforming, s, c, t) == CursorFor(active, transforming, s, d, t)
    ensures (active && transforming) || CursorFor(active, transforming, s, d, c) == CursorFor(active, transforming, s, d, t)
  {
  }
}
