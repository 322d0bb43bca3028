/** A Transform interaction that switches the viewport cursor when the pointer
    enters or leaves a feature. */
module HoverCursor {
  import opened Js
  import opened Dom

  class AdvancedCustomTransform {
    var active: bool             // the OpenLayers interaction's active flag
    var olMap: OlMap?            // the map the OpenLayers interaction is on
    const selectCursor: string   // what the inherited `getSelectCursor` answers
    var hoverCursor: string
    var isHovering: bool

    /** The viewport of the current map, if any. */
    function Viewport(): HtmlElement?
      reads this
    {
      if olMap == null then null else olMap.viewport
    }

    /** The cursor the hover state calls for. */
    function Shown(): string
      reads this
    {
      if isHovering then hoverCursor else selectCursor
    }

    /** While active on a map, the viewport shows the cursor of the hover state. */
    ghost predicate Synced()
      reads this, Viewport()
    {
      active && olMap != null ==> olMap.viewport.cursor == Shown()
    }

    /** `hoverCursor` is a truthy option or `'pointer'`; the pointer starts off
        any feature. */
    constructor (hover: Option<string>, selectCursor: string)
      ensures hoverCursor == Or(hover, "pointer") && !isHovering
      ensures hoverCursor != ""
      ensures this.selectCursor == selectCursor
      ensures active && olMap == null
    {
      active := true;
      olMap := null;
      this.selectCursor := selectCursor;
      hoverCursor := Or(hover, "pointer");
      isHovering := false;
    }

    /** The parent class's `setMap`; only the map it records is modelled, not
        the cursor the parent writes. */
    method SetMap(m: OlMap?)
      modifies this`olMap
      ensures olMap == m
    {
      olMap := m;
    }

    /** The parent class's `setActive`; only the flag is modelled, not the
        cursor the parent writes. */
    method SetActive(a: bool)
      modifies this`active
      ensures active == a
    {
      active := a;
    }

    /** `handleMoveEvent_`, given whether some feature lies at the pointer on
        the map and what the Transform's own handler returned. Without a map
        no feature is found. The viewport is written only on an edge: while
        active, on a map, when the hover state flipped. */
    method HandleMoveEvent(featureAtPixel: bool, superHandled: bool) returns (handled: bool)
      modifies this`isHovering, Viewport()
      ensures handled == superHandled
      ensures isHovering <==> olMap != null && featureAtPixel
      ensures olMap != null && active && isHovering != old(isHovering) ==>
        olMap.viewport.cursor == (if isHovering then hoverCursor else selectCursor)
      ensures olMap != null && !(active && isHovering != old(isHovering)) ==>
        olMap.viewport.cursor == old(olMap.viewport.cursor)
      ensures old(Synced()) ==> Synced()
    {
      var hit := olMap != null && featureAtPixel;
      var wasHovering := isHovering;
      isHovering := hit;
      var viewport := Viewport();
      if active && wasHovering != isHovering && viewport != null {
        viewport.cursor := if isHovering then hoverCursor else selectCursor;
      }
      handled := superHandled;
    }

    /** `setHoverCursor`: the viewport is not repainted, even while hovering. */
    method SetHoverCursor(c: string)
      modifies this`hoverCursor
      ensures hoverCursor == c
      ensures GetHoverCursor() == c
    {
      hoverCursor := c;
    }

    /** `getHoverCursor`: the cursor a synchronised viewport shows while the
        pointer is over a feature. */
    function GetHoverCursor(): (r: string)
      reads this, Viewport()
      ensures Synced() && active && olMap != null && isHovering ==> olMap.viewport.cursor == r
    {
      hoverCursor
    }
  }
}
