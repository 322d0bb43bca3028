/** A Transform interaction that customises its cursors by overlaying them on
    the Transform class's shared `Cursor` table while it is built, then
    restoring that table and keeping a table of its own. */
module PrototypeCursor {
  import opened Js

  /** The Transform class's prototype: its `Cursor` table is shared by every
      interaction that has no table of its own. */
  class TransformPrototype {
    var cursor: map<string, string>

    constructor (cursor: map<string, string>)
      ensures this.cursor == cursor
    {
      this.cursor := cursor;
    }
  }

  class PrototypeCompatibleTransform {
    const proto: TransformPrototype
    var own: Option<map<string, string>>   // the interaction's own `Cursor`, if it has one

    /** The `Cursor` table the interaction sees: its own, else the prototype's. */
    function Cursor(): map<string, string>
      reads this, proto
    {
      if own.Some? then own.value else proto.cursor
    }

    /** `options.cursors` is `cursors`. The prototype table is backed up,
        overlaid with the options while the Transform is built, and the backup
        is assigned back over it; with options the interaction then keeps the
        restored table overlaid with them as its own. */
    constructor (proto: TransformPrototype, cursors: Option<map<string, string>>)
      modifies proto
      ensures this.proto == proto
      ensures Overlaid(proto.cursor, old(proto.cursor))
      ensures proto.cursor.Keys == old(proto.cursor.Keys) + cursors.GetOr(map[]).Keys
      ensures forall k :: k in cursors.GetOr(map[]) && k !in old(proto.cursor) ==>
        proto.cursor[k] == cursors.value[k]
      ensures cursors.None? ==> own == None && proto.cursor == old(proto.cursor)
      ensures cursors.Some? ==> own == Some(Assign(proto.cursor, cursors.value))
    {
      var backup := proto.cursor;
      if cursors.Some? {
        proto.cursor := Assign(proto.cursor, cursors.value);
      }
      this.proto := proto;
      own := None;
      new;
      proto.cursor := Assign(proto.cursor, backup);
      if cursors.Some? {
        RestoreAfterOverlay(backup, cursors.value);
        own := Some(Assign(Cursor(), cursors.value));
      } else {
        assert Assign(backup, backup) == backup;
      }
    }

    /** `setSelectCursor`: only the `select` key changes, in the table the
        interaction sees; without a table of its own that is the prototype's,
        shared with every other such interaction. */
    method SetSelectCursor(c: string)
      modifies this`own, proto
      ensures Cursor() == old(Cursor())["select" := c]
      ensures old(own).Some? ==> own == Some(old(own).value["select" := c]) && proto.cursor == old(proto.cursor)
      ensures old(own).None? ==> own == None && proto.cursor == old(proto.cursor)["select" := c]
      ensures c != "" ==> GetSelectCursor() == c
    {
      if own.Some? {
        own := Some(own.value["select" := c]);
      } else {
        proto.cursor := proto.cursor["select" := c];
      }
    }

    /** `getSelectCursor`: the `select` cursor when it is truthy, else `'pointer'`. */
    function GetSelectCursor(): (r: string)
      reads this, proto
      ensures r != ""
      ensures "select" in Cursor() && Cursor()["select"] != "" ==> r == Cursor()["select"]
      ensures "select" !in Cursor() || Cursor()["select"] == "" ==> r == "pointer"
    {
      Or(if "select" in Cursor() then Some(Cursor()["select"]) else None, "pointer")
    }
  }
}
