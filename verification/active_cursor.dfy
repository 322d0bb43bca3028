/** A Transform interaction whose viewport shows a select cursor while active
    and a default cursor while inactive. */
module ActiveCursor {
  import opened Js
  import opened Dom

  class CustomTransform {
    var active: bool       // the OpenLayers interaction's active flag
    var olMap: OlMap?      // the map the OpenLayers interaction is on
    var selectCursor: string
    var defaultCursor: string
    var viewport: HtmlElement?
    var previousCursor: Option<string>   // written, never read

    /** The cursor the current state calls for. */
    function Shown(): string
      reads this
    {
      if active then selectCursor else defaultCursor
    }

    /** The viewport is the map's and shows the cursor the state calls for. */
    ghost predicate Valid()
      reads this, viewport
    {
      viewport != null ==> olMap != null && viewport == olMap.viewport && viewport.cursor == Shown()
    }

    /** `getSelectCursor`: the cursor a valid viewport shows while active. */
    function GetSelectCursor(): (r: string)
      reads this, viewport
      ensures Valid() && active && viewport != null ==> viewport.cursor == r
    {
      selectCursor
    }

    /** `getDefaultCursor`: the cursor a valid viewport shows while inactive. */
    function GetDefaultCursor(): (r: string)
      reads this, viewport
      ensures Valid() && !active && viewport != null ==> viewport.cursor == r
    {
      defaultCursor
    }

    /** OpenLayers starts the interaction active and off any map. */
    constructor (selectCursor: Option<string>, defaultCursor: Option<string>)
      ensures this.selectCursor == Or(selectCursor, "crosshair")
      ensures this.defaultCursor == Or(defaultCursor, "default")
      ensures active && olMap == null && viewport == null && previousCursor == None
      ensures Valid()
    {
      active := true;
      olMap := null;
      this.selectCursor := Or(selectCursor, "crosshair");
      this.defaultCursor := Or(defaultCursor, "default");
      viewport := null;
      previousCursor := None;
    }

    /** `updateCursor_`: while active the viewport's cursor is saved and the
        select cursor shown; while inactive the cursor is restored. */
    method UpdateCursor()
      modifies this`previousCursor, viewport
      ensures viewport == null ==> previousCursor == old(previousCursor)
      ensures viewport != null && active ==>
        previousCursor == Some(old(viewport.cursor)) && viewport.cursor == selectCursor
      ensures viewport != null && !active ==>
        previousCursor == None && viewport.cursor == defaultCursor
    {
      if viewport == null {
        return;
      }
      if active {
        previousCursor := Some(viewport.cursor);
        viewport.cursor := selectCursor;
      } else {
        RestoreCursor();
      }
    }

    /** `restoreCursor_`: the default cursor, never the saved one. */
    method RestoreCursor()
      modifies this`previousCursor, viewport
      ensures viewport == null ==> previousCursor == old(previousCursor)
      ensures viewport != null ==> viewport.cursor == defaultCursor && previousCursor == None
    {
      if viewport != null {
        viewport.cursor := defaultCursor;
        previousCursor := None;
      }
    }

    /** `setMap`: leaving a map gives its viewport the default cursor; a new
        map's viewport is taken and painted. */
    method SetMap(m: OlMap?)
      requires Valid()
      modifies this`olMap, this`viewport, this`previousCursor, viewport, if m == null then {} else {m.viewport}
      ensures olMap == m
      ensures m == null ==> viewport == null
      ensures m != null ==> viewport == m.viewport && viewport.cursor == Shown()
      ensures old(viewport) != null && (m == null || m.viewport != old(viewport)) ==>
        old(viewport).cursor == defaultCursor
      ensures Valid()
    {
      if olMap != null && viewport != null {
        RestoreCursor();
      }
      olMap := m;
      if m != null {
        viewport := m.viewport;
        UpdateCursor();
      } else {
        viewport := null;
      }
    }

    /** `setActive`: the viewport is repainted only when the flag changes. */
    method SetActive(a: bool)
      requires Valid()
      modifies this`active, this`previousCursor, viewport
      ensures active == a
      ensures viewport != null && old(active) == a ==> viewport.cursor == old(viewport.cursor)
      ensures old(active) == a ==> previousCursor == old(previousCursor)
      ensures Valid()
    {
      var wasActive := active;
      active := a;
      if wasActive != a {
        UpdateCursor();
      }
    }

    /** `setSelectCursor`: repaints only while active. */
    method SetSelectCursor(c: string)
      requires Valid()
      modifies this`selectCursor, this`previousCursor, viewport
      ensures GetSelectCursor() == c
      ensures viewport != null ==> viewport.cursor == if active then c else old(viewport.cursor)
      ensures Valid()
    {
      selectCursor := c;
      if active {
        UpdateCursor();
      }
    }

    /** `setDefaultCursor`: repaints only while inactive. */
    method SetDefaultCursor(c: string)
      requires Valid()
      modifies this`defaultCursor, this`previousCursor, viewport
      ensures GetDefaultCursor() == c
      ensures viewport != null ==> viewport.cursor == if !active then c else old(viewport.cursor)
      ensures Valid()
    {
      defaultCursor := c;
      if !active {
        UpdateCursor();
      }
    }

    /** `disposeInternal`: the viewport gets the default cursor and is let go. */
    method DisposeInternal()
      requires Valid()
      modifies this`viewport, this`previousCursor, viewport
      ensures viewport == null
      ensures old(viewport) != null ==> old(viewport).cursor == defaultCursor && previousCursor == None
      ensures Valid()
    {
      RestoreCursor();
      viewport := null;
    }
  }
}
