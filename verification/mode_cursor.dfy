/** A Transform interaction that, on each pointer move, shows a cursor chosen by
    the Transform mode under the pointer, writing the viewport only when that
    cursor changes. */
module ModeCursor {
  import opened Js
  import opened Dom

  /** The Transform modes that have a cursor of their own. */
  const HandleModes: set<string> := {
    "select", "translate", "rotate",
    "scale", "scale1", "scale2", "scale3", "scale4",
    "scaleh", "scaleh2", "scalev", "scalev2"
  }

  /** The cursor for a Transform mode; `None` stands for the source's `null`. */
  function CursorForMode(mode: string): (c: Option<string>)
    ensures c.Some? <==> mode in HandleModes
    ensures c.Some? ==> c.value != ""
    ensures mode in {"select", "translate"} ==> c == Some("move")
    ensures mode == "rotate" ==> c == Some("crosshair")
    ensures mode in {"scale", "scale1", "scale2", "scale3", "scale4"} ==> c == Some("nwse-resize")
    ensures mode in {"scaleh", "scaleh2"} ==> c == Some("ns-resize")
    ensures mode in {"scalev", "scalev2"} ==> c == Some("ew-resize")
  {
    match mode
    case "select" => Some("move")
    case "translate" => Some("move")
    case "rotate" => Some("crosshair")
    case "scale" => Some("nwse-resize")
    case "scale1" => Some("nwse-resize")
    case "scale2" => Some("nwse-resize")
    case "scale3" => Some("nwse-resize")
    case "scale4" => Some("nwse-resize")
    case "scaleh" => Some("ns-resize")
    case "scaleh2" => Some("ns-resize")
    case "scalev" => Some("ew-resize")
    case "scalev2" => Some("ew-resize")
    case _ => None
  }

  class CustomTransform {
    var active: bool       // the OpenLayers interaction's active flag
    var olMap: OlMap?      // the map the OpenLayers interaction is on
    var lastCursor: Option<string>

    /** The viewport of the current map, if any. */
    function Viewport(): HtmlElement?
      reads this
    {
      if olMap == null then null else olMap.viewport
    }

    /** The cursor last written is never empty and is still on the viewport. */
    ghost predicate Synced()
      reads this, Viewport()
    {
      lastCursor.Some? ==> lastCursor.value != "" && (olMap != null ==> olMap.viewport.cursor == lastCursor.value)
    }

    /** OpenLayers starts the interaction active and off any map. */
    constructor ()
      ensures active && olMap == null && lastCursor == None
      ensures Synced()
    {
      active := true;
      olMap := null;
      lastCursor := None;
    }

    /** The `setMap` the class inherits from OpenLayers and does not override. */
    method SetMap(m: OlMap?)
      modifies this`olMap
      ensures olMap == m
    {
      olMap := m;
    }

    /** `restoreCursor_`: with a cursor written and a map, the viewport's
        cursor is cleared and forgotten; otherwise nothing happens. */
    method RestoreCursor()
      modifies this`lastCursor, Viewport()
      ensures Truthy(old(lastCursor)) && olMap != null ==>
        olMap.viewport.cursor == "" && lastCursor == None
      ensures !(Truthy(old(lastCursor)) && olMap != null) ==>
        lastCursor == old(lastCursor) && (olMap != null ==> olMap.viewport.cursor == old(olMap.viewport.cursor))
      ensures !(Truthy(lastCursor) && olMap != null)
      ensures old(Synced()) ==> Synced()
    {
      if !Truthy(lastCursor) {
        return;
      }
      if olMap == null {
        return;
      }
      olMap.viewport.cursor := "";
      lastCursor := None;
    }

    /** `handleMoveEvent`, given what the Transform's own handler returned and
        the mode it left under the pointer. */
    method HandleMoveEvent(superHandled: bool, mode: string) returns (handled: bool)
      modifies this`lastCursor, Viewport()
      ensures handled == superHandled
      ensures !active && Truthy(old(lastCursor)) && olMap != null ==>
        olMap.viewport.cursor == "" && lastCursor == None
      ensures !active && !(Truthy(old(lastCursor)) && olMap != null) ==>
        lastCursor == old(lastCursor) && (olMap != null ==> olMap.viewport.cursor == old(olMap.viewport.cursor))
      ensures active && olMap == null ==> lastCursor == old(lastCursor)
      ensures active && olMap != null ==> lastCursor == CursorForMode(mode)
      ensures active && olMap != null ==>
        olMap.viewport.cursor ==
          if CursorForMode(mode) != old(lastCursor) then CursorForMode(mode).GetOr("")
          else old(olMap.viewport.cursor)
      ensures old(Synced()) ==> Synced()
    {
      handled := superHandled;
      if !active {
        RestoreCursor();
        return;
      }
      if olMap == null {
        return;
      }
      var viewport := olMap.viewport;
      var cursor := CursorForMode(mode);
      if cursor != lastCursor {
        viewport.cursor := cursor.GetOr("");
        lastCursor := cursor;
      }
    }

    /** `setActive`: deactivating restores the cursor; activating writes nothing. */
    method SetActive(a: bool)
      modifies this`active, this`lastCursor, Viewport()
      ensures active == a
      ensures !a && Truthy(old(lastCursor)) && olMap != null ==>
        olMap.viewport.cursor == "" && lastCursor == None
      ensures a || !(Truthy(old(lastCursor)) && olMap != null) ==>
        lastCursor == old(lastCursor) && (olMap != null ==> olMap.viewport.cursor == old(olMap.viewport.cursor))
      ensures old(Synced()) ==> Synced()
    {
      active := a;
      if !a {
        RestoreCursor();
      }
    }

    /** `dispose`: the cursor is restored. */
    method Dispose()
      modifies this`lastCursor, Viewport()
      ensures Truthy(old(lastCursor)) && olMap != null ==>
        olMap.viewport.cursor == "" && lastCursor == None
      ensures !(Truthy(old(lastCursor)) && olMap != null) ==>
        lastCursor == old(lastCursor) && (olMap != null ==> olMap.viewport.cursor == old(olMap.viewport.cursor))
      ensures old(Synced()) ==> Synced()
    {
      RestoreCursor();
    }
  }
}
