/** A Transform interaction that keeps its own table of handle cursors and
    overlays it onto the Transform's `Cursor` table. */
module CursorTable {
  import opened Js
  import opened Dom

  /** The keys of a TransformCursors table. */
  const CursorTypes: set<string> := {
    "default", "select", "translate", "rotate",
    "scale", "scale1", "scale2", "scale3",
    "scalev", "scaleh", "scalev2", "scaleh2"
  }

  type CursorType = s: string | s in CursorTypes witness "default"

  /** The cursors the interaction starts from before its options are applied. */
  const DefaultCursors: map<string, string> := map[
    "default" := "default",
    "select" := "pointer",
    "translate" := "move",
    "rotate" := "move",
    "scale" := "nesw-resize",
    "scale1" := "nwse-resize",
    "scale2" := "nesw-resize",
    "scale3" := "nwse-resize",
    "scalev" := "ew-resize",
    "scaleh" := "ns-resize",
    "scalev2" := "e-resize",
    "scaleh2" := "s-resize"
  ]

  /** The default table has a cursor for every cursor type. */
  lemma DefaultsCoverTypes()
    ensures CursorTypes <= DefaultCursors.Keys
  {
  }

  class CustomTransform {
    var active: bool       // the OpenLayers interaction's active flag
    var olMap: OlMap?      // the map the OpenLayers interaction is on
    var customCursors: map<string, string>
    var originalCursors: map<string, string>
    var cursor: Option<map<string, string>>   // the `Cursor` table the Transform draws with

    /** Every cursor type has a custom cursor and the Transform has a table;
        this still holds after `dispose`. */
    ghost predicate Ready()
      reads this
    {
      CursorTypes <= customCursors.Keys && cursor.Some?
    }

    /** Moreover the Transform draws with every custom cursor. */
    ghost predicate Valid()
      reads this
    {
      Ready() && Overlaid(cursor.value, customCursors)
    }

    /** `getCursor`: undefined only for a type the table lacks. */
    function GetCursor(t: CursorType): (r: Option<string>)
      reads this
      ensures r.Some? <==> t in customCursors
      ensures Valid() ==> r.Some? && cursor.value[t] == r.value
    {
      if t in customCursors then Some(customCursors[t]) else None
    }

    /** `getSelectCursor`. */
    function GetSelectCursor(): (r: Option<string>)
      reads this
      ensures Valid() ==> r.Some? && cursor.value["select"] == r.value
    {
      GetCursor("select")
    }

    /** `getCursors`: a copy; the table is a value, so changing the copy
        cannot reach the interaction's table. */
    function GetCursors(): (r: map<string, string>)
      reads this
      ensures forall t: CursorType :: GetCursor(t) == (if t in r then Some(r[t]) else None)
      ensures Valid() ==> CursorTypes <= r.Keys && Overlaid(cursor.value, r)
    {
      customCursors
    }

    /** `visible` is the `Cursor` table in force when the interaction is built;
        `cursors` is `options.cursors`. The original table is backed up, the
        options overlay the default cursors, and the result is applied. */
    constructor (visible: Option<map<string, string>>, cursors: Option<map<string, string>>)
      ensures originalCursors == visible.GetOr(map[])
      ensures customCursors == Assign(DefaultCursors, cursors.GetOr(map[]))
      ensures cursor == Some(Assign(visible.GetOr(map[]), customCursors))
      ensures active && olMap == null
      ensures Valid()
    {
      active := true;
      olMap := null;
      originalCursors := visible.GetOr(map[]);
      customCursors := Assign(DefaultCursors, cursors.GetOr(map[]));
      DefaultsCoverTypes();
      cursor := visible;
      new;
      ApplyCursors();
    }

    /** `applyCursors_`: creates the table if it is missing, then overlays the
        custom cursors onto it. */
    method ApplyCursors()
      requires CursorTypes <= customCursors.Keys
      modifies this`cursor
      ensures cursor == Some(Assign(old(cursor).GetOr(map[]), customCursors))
      ensures Valid()
    {
      if cursor.None? {
        cursor := Some(map[]);
      }
      cursor := Some(Assign(cursor.value, customCursors));
    }

    /** `restoreCursors_`: the backed-up cursors are overlaid back. */
    method RestoreCursors()
      requires Ready()
      modifies this`cursor
      ensures cursor == Some(Assign(old(cursor).value, originalCursors))
      ensures Ready()
    {
      if cursor.Some? {
        cursor := Some(Assign(cursor.value, originalCursors));
      }
    }

    /** `setCursors`: the given cursors replace those of the same keys, and the
        table is applied again. */
    method SetCursors(cursors: map<string, string>)
      requires Ready()
      modifies this`customCursors, this`cursor
      ensures customCursors == Assign(old(customCursors), cursors)
      ensures cursor == Some(Assign(old(cursor).GetOr(map[]), customCursors))
      ensures Valid()
    {
      customCursors := Assign(customCursors, cursors);
      ApplyCursors();
    }

    /** `setCursor`: only key `t` changes, in the custom table and in the
        Transform's table when there is one. */
    method SetCursor(t: CursorType, c: string)
      requires Ready()
      modifies this`customCursors, this`cursor
      ensures customCursors == old(customCursors)[t := c]
      ensures cursor == Some(old(cursor).value[t := c])
      ensures GetCursor(t) == Some(c)
      ensures Ready()
      ensures old(Valid()) ==> Valid()
    {
      customCursors := customCursors[t := c];
      if cursor.Some? {
        cursor := Some(cursor.value[t := c]);
      }
    }

    /** `setSelectCursor`. */
    method SetSelectCursor(c: string)
      requires Ready()
      modifies this`customCursors, this`cursor
      ensures customCursors == old(customCursors)["select" := c]
      ensures cursor == Some(old(cursor).value["select" := c])
      ensures GetSelectCursor() == Some(c)
      ensures Ready()
      ensures old(Valid()) ==> Valid()
    {
      SetCursor("select", c);
    }

    /** `setDefaultCursor`. */
    method SetDefaultCursor(c: string)
      requires Ready()
      modifies this`customCursors, this`cursor
      ensures customCursors == old(customCursors)["default" := c]
      ensures cursor == Some(old(cursor).value["default" := c])
      ensures Ready()
      ensures old(Valid()) ==> Valid()
    {
      SetCursor("default", c);
    }

    /** `setTranslateCursor`. */
    method SetTranslateCursor(c: string)
      requires Ready()
      modifies this`customCursors, this`cursor
      ensures customCursors == old(customCursors)["translate" := c]
      ensures cursor == Some(old(cursor).value["translate" := c])
      ensures Ready()
      ensures old(Valid()) ==> Valid()
    {
      SetCursor("translate", c);
    }

    /** `setRotateCursor`. */
    method SetRotateCursor(c: string)
      requires Ready()
      modifies this`customCursors, this`cursor
      ensures customCursors == old(customCursors)["rotate" := c]
      ensures cursor == Some(old(cursor).value["rotate" := c])
      ensures Ready()
      ensures old(Valid()) ==> Valid()
    {
      SetCursor("rotate", c);
    }

    /** `setScaleCursor`. */
    method SetScaleCursor(c: string)
      requires Ready()
      modifies this`customCursors, this`cursor
      ensures customCursors == old(customCursors)["scale" := c]
      ensures cursor == Some(old(cursor).value["scale" := c])
      ensures Ready()
      ensures old(Valid()) ==> Valid()
    {
      SetCursor("scale", c);
    }

    /** `setMap`: attaching to a map applies the custom cursors again. */
    method SetMap(m: OlMap?)
      requires Ready()
      modifies this`olMap, this`cursor
      ensures olMap == m
      ensures m != null ==> cursor == Some(Assign(old(cursor).value, customCursors)) && Valid()
      ensures m == null ==> cursor == old(cursor)
      ensures old(Valid()) ==> cursor == old(cursor) && Valid()
      ensures Ready()
    {
      olMap := m;
      if m != null {
        if Valid() {
          ApplyIdempotent(cursor.value, customCursors);
        }
        ApplyCursors();
      }
    }

    /** `setActive`: both branches apply the custom cursors again. */
    method SetActive(a: bool)
      requires Ready()
      modifies this`active, this`cursor
      ensures active == a
      ensures cursor == Some(Assign(old(cursor).value, customCursors))
      ensures old(Valid()) ==> cursor == old(cursor)
      ensures Valid()
    {
      active := a;
      if Valid() {
        ApplyIdempotent(cursor.value, customCursors);
      }
      if a {
        ApplyCursors();
      } else {
        ApplyCursors();
      }
    }

    /** `dispose`: the backed-up cursors are overlaid back. */
    method Dispose()
      requires Ready()
      modifies this`cursor
      ensures cursor == Some(Assign(old(cursor).value, originalCursors))
      ensures Overlaid(cursor.value, originalCursors)
      ensures Ready()
    {
      RestoreCursors();
    }
  }

  /** Re-applying a table that is already overlaid changes nothing, which is
      why `setMap` and `setActive` leave the Transform's table as it was. */
  lemma ApplyIdempotent(table: map<string, string>, custom: map<string, string>)
    requires Overlaid(table, custom)
    ensures Assign(table, custom) == table
  {
  }
}
