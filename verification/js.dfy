/** Host-language values as the cursor code uses them: optional values, the
    `||` fallback on strings and `Object.assign` on string-keyed tables. */
module Js {

  /** A value that may be absent (`undefined` or `null` in the source). */
  datatype Option<+T> = None | Some(value: T) {
    function GetOr(fallback: T): T {
      if Some? then value else fallback
    }
  }

  /** Truthiness of an optional string: `undefined`, `null` and `''` are falsy. */
  predicate Truthy(s: Option<string>) {
    s.Some? && s.value != ""
  }

  /** `value || fallback` for an optional string. */
  function Or(value: Option<string>, fallback: string): string {
    if Truthy(value) then value.value else fallback
  }

  /** `source` agrees with `target` on every key of `source`. */
  predicate Overlaid(target: map<string, string>, source: map<string, string>) {
    forall k :: k in source ==> k in target && target[k] == source[k]
  }

  /** `Object.assign(target, source)` and `{ ...target, ...source }` on string
      tables: every key of `source` takes its value from `source`, every other
      key of `target` keeps its own. */
  function Assign(target: map<string, string>, source: map<string, string>): (r: map<string, string>)
    ensures r.Keys == target.Keys + source.Keys
    ensures Overlaid(r, source)
    ensures forall k :: k in target && k !in source ==> r[k] == target[k]
  {
    target + source
  }

  /** Assigning a table's own backup over it after an overlay gives back every
      backed-up value, and keeps the keys only the overlay brought. */
  lemma RestoreAfterOverlay(backup: map<string, string>, overlay: map<string, string>)
    ensures Assign(Assign(backup, overlay), backup) == Assign(overlay, backup)
    ensures Overlaid(Assign(Assign(backup, overlay), backup), backup)
    ensures forall k :: k in overlay && k !in backup ==>
      Assign(Assign(backup, overlay), backup)[k] == overlay[k]
  {
    var r := Assign(Assign(backup, overlay), backup);
    assert r.Keys == Assign(overlay, backup).Keys;
  }
}
