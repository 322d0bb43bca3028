# Pattern/arrow bookkeeping and Transform cursor machines

This project is a Dafny model of two parts of a map-editing front end.

**The combined modal (`hh.ts`).** The modal keeps a list of pattern→arrow
mappings. Each mapping is an entry `{patternId, outLink, list}` keyed by the
pair (pattern, out-link).

- A branch-data load merges the server's rows `{patternId, outLinkId, arrowId}`
  into that list.
- It also replaces the pattern list by the distinct patterns of the response.
- The `arrows` derivation shows the list of the selected pattern on the current
  out-link.
- Clicking a pattern or an arrow toggles its selection.
- Delete removes the selected arrow from the matching entries.

Each React state updater is a function from the previous state to the next one
(module `CombinedModal`). The exception is the merge updater: it fills a
JavaScript `Map` in two loops. It is therefore an imperative method,
`PatternMapping.MergeBranchData`, over a model of that `Map`: a key order plus
a key→entry table. The method is proved equal to a row-by-row specification
(`Merged`), and that specification is proved equal to a closed form
(`MergeReference`). The merge properties are lemmas about the specification.

The string key `${patternId}_${outLink}` is modelled by the pair
`(patternId, outLink)`. This is exact when the out-link is a number: a
number's text has no `_`, so the text after the last `_` fixes the out-link
and the text before it fixes the pattern. The model assumes the response
rows carry numeric `outLinkId`s.

**The Transform cursor variants (`260205*.ts`).** There are eight subclasses
of the ol-ext Transform interaction, each in its own module. Each is a class
whose fields are the interaction's state; viewports and map target elements
are `Dom.HtmlElement` objects whose `cursor` field the methods write. Their
invariants say which cursor the viewport shows in which state.

| source | module | what decides the cursor |
|---|---|---|
| 260205.ts | `ActiveCursor` | the active flag |
| 260205-3.ts | `ActiveCursorDispose` | the same, with a public `dispose` |
| 260205-4.ts | `TransformingCursor` | active flag and the transforming flag the Transform events drive |
| 260205-7.ts | `ModeCursor` | the Transform mode under the pointer, written only on change |
| 260205-5.ts | `CursorTable` | a per-type cursor table overlaid on the Transform's `Cursor` table |
| 260205-2.ts | `HoverCursor` | whether the pointer is over a feature, written only on an edge |
| 260205-8.ts | `FeatureHoverCursor` | whether a selectable feature is at the pointer |
| 260205-6.ts | `PrototypeCursor` | the class-wide `Cursor` table, with a per-instance copy |

Shared modules:

- `Js` models optional values, the `||` fallback and `Object.assign` on string tables.
- `Dom` models elements and maps.
- `Seqs` models first-occurrence search and de-duplication.

OpenLayers behaviour these classes rely on is modelled as follows:

- An interaction starts active.
- `getViewport()` always gives the map's viewport element.
- `getTargetElement()` may give none.
- What the parent class does on a call is not modelled.

Inputs from outside:

- A pointer event becomes an input: the hit-test verdicts, the Transform mode and constraint, or what the parent handler returned.
- The server response becomes an input.
- The presence of the current node becomes an input.

## Model

| member | source | states |
|---|---|---|
| CombinedModal.InitialInv | hh.ts:10-20 | the initial state has one entry per (pattern, out-link) and duplicate-free lists |
| CombinedModal.Arrows | hh.ts:32-42 | no arrows when no pattern is selected; otherwise the list of the first entry whose pattern and out-link match the selection and `regType.outlink`, and no arrows when no entry matches |
| CombinedModal.LoadBranchData | hh.ts:57-101 | without a current node the state is unchanged; otherwise the response is stored, the mappings become the closed-form merge of the previous mappings and the response, and the patterns become the response's distinct patterns; the state invariant (distinct keys, duplicate-free lists) is kept |
| CombinedModal.LoadedArrowsShown | hh.ts:32-42 | after a merge, selecting any response row's pattern on its out-link shows that row's arrow |
| CombinedModal.SelectPattern | hh.ts:107-112 | selecting the selected pattern clears the selection, any other pattern becomes selected; the arrow selection is cleared and nothing else changes; the state invariant is kept |
| CombinedModal.SelectArrow | hh.ts:114-118 | the same toggle on the arrow selection, nothing else changes; the state invariant is kept |
| CombinedModal.SelectPatternTwice | hh.ts:107-112 | clicking any pattern twice from an empty or matching selection gives back the starting selection |
| CombinedModal.DeselectHidesArrows | hh.ts:32-33 | clicking the selected pattern again leaves no arrows shown |
| CombinedModal.Without | hh.ts:132 | the filtered list holds every other arrow as often as the list does and the filtered arrow not at all, is no longer, is unchanged when the arrow is absent, and stays duplicate-free |
| CombinedModal.WithoutAppend | hh.ts:132 | filtering a concatenation filters each part, so the kept arrows keep their order |
| CombinedModal.WithoutSingle | hh.ts:132 | a single arrow is dropped exactly when it is the filtered one |
| CombinedModal.DeleteArrow | hh.ts:120-139 | nothing changes exactly when the pattern or arrow selection is empty; otherwise the entry count and keys stay, non-matching entries are unchanged, matching entries get their list filtered of the selected arrow, and the arrow selection is cleared; the state invariant is kept |
| CombinedModal.DeletedArrowHidden | hh.ts:120-139 | after a deletion the deleted arrow is no longer shown |
| PatternMapping.ListAt | hh.ts:36-40 | the list of the first entry with the key, or none when no entry has it |
| PatternMapping.LastListAt | hh.ts:74-79 | the list that the last previous entry with a key leaves in the Map; none for an absent key; duplicate-free when the previous lists are |
| PatternMapping.ArrowsFor | hh.ts:82-83 | every row with the key contributes its arrow; none for a key no row has |
| PatternMapping.AppendNew | hh.ts:91-94 | the old list is a prefix, the result holds exactly the old and the new arrows, and no duplicate is added |
| PatternMapping.Merged | hh.ts:70-99 | the updater's result has one entry per key, and every previous entry's key is among them |
| PatternMapping.MergeBranchData | hh.ts:70-99 | the two Map-filling loops return exactly the row-by-row merge and the closed-form merge |
| PatternMapping.MergedIsReference | hh.ts:70-99 | the row-by-row merge equals the closed form: one entry per distinct key, each list the last previous list followed by the response's new arrows |
| PatternMapping.MergeKeyOrder | hh.ts:70-98 | the keys are the previous keys in order followed by the response's new keys in first-appearance order, without repetition |
| PatternMapping.MergeKeepsPrevious | hh.ts:74-79 | with one previous entry per key, every previous entry keeps its position, pattern and out-link, and its list is a prefix of the merged list |
| PatternMapping.MergeCoversResponse | hh.ts:82-95 | every response row's key has an entry and the row's arrow is in that entry's list |
| PatternMapping.MergeKeepsListsDuplicateFree | hh.ts:91-94 | duplicate-free lists stay duplicate-free |
| PatternMapping.Patterns | hh.ts:101 | the pattern list has no repetition and holds exactly the response's patterns |
| PatternMapping.PatternsInFirstAppearanceOrder | hh.ts:101 | the pattern list is ordered by first appearance in the response |
| Seqs.Distinct | hh.ts:101 | de-duplication gives no repetition and the same elements |
| Seqs.DistinctFirstAppearance | hh.ts:101 | de-duplication keeps first-appearance order |
| Seqs.DistinctPrefix | hh.ts:70-98 | de-duplicating a longer sequence extends the de-duplication of its prefix |
| Seqs.IndexOf | hh.ts:36-40 | the first position holding the element, none exactly when it is absent |
| ActiveCursor.CustomTransform.constructor | 260205.ts:28-35 | select cursor defaults to `crosshair`, default cursor to `default`, no viewport, no saved cursor |
| ActiveCursor.CustomTransform.UpdateCursor | 260205.ts:74-87 | no viewport, no write; active saves the old cursor and shows the select cursor; inactive shows the default cursor and forgets the saved one |
| ActiveCursor.CustomTransform.RestoreCursor | 260205.ts:93-98 | the viewport shows the default cursor, never the saved one |
| ActiveCursor.CustomTransform.SetMap | 260205.ts:40-55 | a left viewport gets the default cursor; a new map's viewport is taken and shows the state's cursor; null clears the viewport; the invariant is kept |
| ActiveCursor.CustomTransform.SetActive | 260205.ts:60-68 | the viewport is untouched unless the flag changes; the invariant is kept |
| ActiveCursor.CustomTransform.SetSelectCursor | 260205.ts:104-109 | the getter answers the new cursor; it is shown only while active |
| ActiveCursor.CustomTransform.SetDefaultCursor | 260205.ts:115-120 | the getter answers the new cursor; it is shown only while inactive |
| ActiveCursor.CustomTransform.GetSelectCursor | 260205.ts:126-128 | the stored select cursor, which a valid viewport shows while active |
| ActiveCursor.CustomTransform.GetDefaultCursor | 260205.ts:134-136 | the stored default cursor, which a valid viewport shows while inactive |
| ActiveCursor.CustomTransform.DisposeInternal | 260205.ts:141-145 | the viewport gets the default cursor and is let go |
| ActiveCursorDispose.CustomTransform.constructor | 260205-3.ts:28-35 | as in 260205.ts |
| ActiveCursorDispose.CustomTransform.UpdateCursor | 260205-3.ts:77-90 | as in 260205.ts |
| ActiveCursorDispose.CustomTransform.RestoreCursor | 260205-3.ts:96-101 | as in 260205.ts |
| ActiveCursorDispose.CustomTransform.SetMap | 260205-3.ts:41-57 | as in 260205.ts |
| ActiveCursorDispose.CustomTransform.SetActive | 260205-3.ts:63-71 | as in 260205.ts |
| ActiveCursorDispose.CustomTransform.SetSelectCursor | 260205-3.ts:107-112 | as in 260205.ts |
| ActiveCursorDispose.CustomTransform.SetDefaultCursor | 260205-3.ts:118-123 | as in 260205.ts |
| ActiveCursorDispose.CustomTransform.GetSelectCursor | 260205-3.ts:129-131 | as in 260205.ts |
| ActiveCursorDispose.CustomTransform.GetDefaultCursor | 260205-3.ts:137-139 | as in 260205.ts |
| ActiveCursorDispose.CustomTransform.Dispose | 260205-3.ts:145-150 | the viewport gets the default cursor and is let go, and the saved cursor is forgotten |
| TransformingCursor.CustomTransform.constructor | 260205-4.ts:21-32 | defaults `crosshair`, `default`, `move`; not transforming; no listener keys kept |
| TransformingCursor.CustomTransform.UpdateCursorForState | 260205-4.ts:106-118 | with a viewport, it shows default when inactive, else transforming while transforming, else select |
| TransformingCursor.CustomTransform.RestoreCursor | 260205-4.ts:120-124 | with a viewport, it shows the default cursor |
| TransformingCursor.CustomTransform.OnTransformEvent | 260205-4.ts:38-75 | rotating/translating/scaling set the flag, the end events clear it, select keeps it; each repaints |
| TransformingCursor.CustomTransform.SetMap | 260205-4.ts:77-91 | a left viewport gets the default cursor; a new map's viewport is taken and painted; null clears it |
| TransformingCursor.CustomTransform.SetActive | 260205-4.ts:93-100 | the viewport is untouched unless the flag changes; the invariant is kept |
| TransformingCursor.CustomTransform.SetSelectCursor | 260205-4.ts:126-131 | stores the cursor; shown only while active and not transforming |
| TransformingCursor.CustomTransform.SetDefaultCursor | 260205-4.ts:133-138 | stores the cursor; shown only while inactive |
| TransformingCursor.CustomTransform.SetTransformingCursor | 260205-4.ts:140-145 | stores the cursor; shown only while active and transforming |
| TransformingCursor.CustomTransform.GetSelectCursor | 260205-4.ts:147-149 | the stored select cursor, which a valid viewport shows while active and not transforming |
| TransformingCursor.CustomTransform.GetDefaultCursor | 260205-4.ts:151-153 | the stored default cursor, which a valid viewport shows while inactive |
| TransformingCursor.CustomTransform.GetTransformingCursor | 260205-4.ts:155-157 | the stored transforming cursor, which a valid viewport shows during a transform |
| TransformingCursor.CustomTransform.Dispose | 260205-4.ts:159-168 | the viewport gets the default cursor and is let go; the key list stays empty |
| TransformingCursor.OnlyShownSetterMatters | 260205-4.ts:126-145 | a setter whose guard fails could not have changed the shown cursor anyway |
| ModeCursor.CursorForMode | 260205-7.ts:26-61 | the mode→cursor table; a cursor exactly for the twelve handle modes, never empty |
| ModeCursor.CustomTransform.constructor | 260205-7.ts:5 | no cursor written yet |
| ModeCursor.CustomTransform.SetMap | 260205-7.ts:4 | the `setMap` inherited from the Transform, not overridden: only the map changes, the last cursor is kept |
| ModeCursor.CustomTransform.RestoreCursor | 260205-7.ts:75-83 | with a truthy last cursor and a map, it clears the viewport cursor and forgets it; otherwise nothing; afterwards a second call does nothing |
| ModeCursor.CustomTransform.HandleMoveEvent | 260205-7.ts:10-70 | returns the parent's answer; inactive restores; no map leaves the last cursor; otherwise the viewport is written, with `''` for no cursor, only when the mode's cursor differs from the last one, which then becomes it |
| ModeCursor.CustomTransform.SetActive | 260205-7.ts:88-94 | deactivating restores the cursor, activating writes nothing |
| ModeCursor.CustomTransform.Dispose | 260205-7.ts:99-102 | restores the cursor |
| CursorTable.DefaultsCoverTypes | 260205-5.ts:46-58 | the default table has a cursor for every cursor type |
| CursorTable.CustomTransform.constructor | 260205-5.ts:39-64 | the visible table is backed up; the custom table is the defaults overlaid with the options; the Transform's table then carries every custom cursor |
| CursorTable.CustomTransform.GetCursor | 260205-5.ts:166-168 | a cursor exactly for the types in the table, always one in a valid state, equal to what the Transform's table holds |
| CursorTable.CustomTransform.GetSelectCursor | 260205-5.ts:173-175 | the select cursor, equal to what the Transform's table holds |
| CursorTable.CustomTransform.ApplyCursors | 260205-5.ts:79-86 | a missing table is created; the result is the old table with every custom cursor overlaid |
| CursorTable.CustomTransform.RestoreCursors | 260205-5.ts:92-96 | the backed-up cursors are overlaid back |
| CursorTable.CustomTransform.SetCursors | 260205-5.ts:102-108 | the named keys are overwritten, the others kept, and the table is applied again, also after `dispose` |
| CursorTable.CustomTransform.SetCursor | 260205-5.ts:115-120 | only the given key changes, in both tables, and `getCursor` answers the new cursor |
| CursorTable.CustomTransform.SetSelectCursor | 260205-5.ts:126-128 | `setCursor` on `select` |
| CursorTable.CustomTransform.SetDefaultCursor | 260205-5.ts:134-136 | `setCursor` on `default` |
| CursorTable.CustomTransform.SetTranslateCursor | 260205-5.ts:142-144 | `setCursor` on `translate` |
| CursorTable.CustomTransform.SetRotateCursor | 260205-5.ts:150-152 | `setCursor` on `rotate` |
| CursorTable.CustomTransform.SetScaleCursor | 260205-5.ts:158-160 | `setCursor` on `scale` |
| CursorTable.CustomTransform.GetCursors | 260205-5.ts:180-182 | the returned table answers every `getCursor` query as the interaction does, and in a valid state covers every cursor type with cursors the Transform's table holds |
| CursorTable.CustomTransform.SetMap | 260205-5.ts:187-194 | attaching re-applies the cursors, so the Transform's table carries them again, also after `dispose`; an applied table is left as it was |
| CursorTable.CustomTransform.SetActive | 260205-5.ts:199-209 | both branches re-apply the cursors, so the Transform's table carries them again, also after `dispose`; an applied table does not change |
| CursorTable.CustomTransform.Dispose | 260205-5.ts:214-217 | the backed-up cursors are overlaid back; the interaction stays usable |
| CursorTable.ApplyIdempotent | 260205-5.ts:199-209 | overlaying a table that already carries the custom cursors changes nothing |
| HoverCursor.AdvancedCustomTransform.constructor | 260205-2.ts:21-25 | hover cursor is a truthy option or `pointer`; not hovering |
| HoverCursor.AdvancedCustomTransform.SetMap | 260205-2.ts:17 | the parent class's `setMap`: the map changes, the hover state is kept |
| HoverCursor.AdvancedCustomTransform.SetActive | 260205-2.ts:17 | the parent class's `setActive`: the flag changes, the hover state is kept |
| HoverCursor.AdvancedCustomTransform.HandleMoveEvent | 260205-2.ts:31-66 | returns the parent's answer; hovering exactly when a map exists and a feature is at the pointer; the viewport is written only while active on a map when the hover state flips, with the hover cursor on entering and the select cursor on leaving; a synchronised viewport stays so |
| HoverCursor.AdvancedCustomTransform.SetHoverCursor | 260205-2.ts:71-73 | the getter answers the new cursor; nothing is repainted |
| HoverCursor.AdvancedCustomTransform.GetHoverCursor | 260205-2.ts:78-80 | the stored hover cursor, which a synchronised viewport shows while hovering |
| FeatureHoverCursor.Visited | 260205-8.ts:51-56 | the hit-test stops right after the first feature that passes, or visits all |
| FeatureHoverCursor.AnyFeaturePasses | 260205-8.ts:50-56 | the flag is raised exactly when some feature passes, after visiting exactly the features up to the first that passes |
| FeatureHoverCursor.CustomTransform.constructor | 260205-8.ts:3-7 | hover cursor is a truthy option or `grab`, default cursor a truthy option or `''` |
| FeatureHoverCursor.CustomTransform.SetMap | 260205-8.ts:9-30 | the old map's element gets the default cursor; a new map stores its listener key |
| FeatureHoverCursor.CustomTransform.UpdateCursor | 260205-8.ts:32-59 | no map or element, no write; inactive shows the default cursor; a truthy mode or constraint leaves the cursor; otherwise hover cursor exactly when some feature passes, else default |
| FeatureHoverCursor.CustomTransform.SetActive | 260205-8.ts:61-73 | deactivating shows the default cursor on the element; activating writes nothing |
| PrototypeCursor.PrototypeCompatibleTransform.constructor | 260205-6.ts:5-26 | every backed-up key of the class-wide table has its backup value again; keys only the options brought stay; with options the instance keeps the restored table overlaid with them, without options it keeps none |
| PrototypeCursor.PrototypeCompatibleTransform.SetSelectCursor | 260205-6.ts:28-32 | only `select` changes in the table the instance sees, the class-wide one when it has none of its own |
| PrototypeCursor.PrototypeCompatibleTransform.GetSelectCursor | 260205-6.ts:34-36 | the select cursor when it is truthy, else `pointer`; never empty |
| Js.Assign | 260205-5.ts:85 | the overlay's keys take its values, the target's other keys keep theirs |
| Js.RestoreAfterOverlay | 260205-6.ts:7-17 | assigning the backup over an overlaid table restores every backed-up key and keeps the keys only the overlay brought |

## Left out

- Rendering in `hh.ts` is not modelled: the tables, the data sources (hh.ts:44-52, 144-178), hook scheduling, translation and the error toast. The toast becomes the `NothingSelected` outcome.
- The `getBranchData` service call (hh.ts:60-66) is asynchronous I/O. Its response is an input, and so are its arguments, including the `outLink` parameter.
- The `store.node` guard (hh.ts:58) is a boolean input `hasNode`.
- `regType.outlink` is never changed by the code shown; it starts at 0. The model keeps it as a state field.
- The merge copies every previous list before pushing onto it (hh.ts:76-77). In the model lists are values, so "the previous state is not mutated" holds by construction and is not stated.
- OpenLayers and ol-ext internals are not modelled: what `super.setMap`, `super.setActive`, `super.handleMoveEvent(_)`, `super.dispose`/`disposeInternal`, listener dispatch and the hit-test do behind the calls. The Transform's `mode_`, `mode`, `constraint_` and `addFn_` become method inputs.
- The listener registration and removal of 260205-8.ts:13-14 and 26-28 are not modelled. Only the stored key is kept; whether `un` with that key removes the listener is OpenLayers behaviour.
- Two interactions that share a viewport element are not ruled out. The invariants speak about one interaction at a time.
- JavaScript prototype lookup of `Cursor` in 260205-5.ts is not modelled: the instance's `Cursor` is a single optional table.
- `CursorTable.CustomTransform.GetCursors`: a returned copy cannot reach the interaction's table, because tables are values. This is not stated separately.
- PrototypeCursor.PrototypeCompatibleTransform.SetSelectCursor: the no-op branch for a missing `Cursor` (260205-6.ts:29) is not modelled. The class-wide table always exists in ol-ext, so an instance always sees a table.
- PrototypeCursor.PrototypeCompatibleTransform.GetSelectCursor: the `pointer` fallback for a missing `Cursor` (260205-6.ts:35) is reached only through a missing `select` key, for the same reason.
- HoverCursor.AdvancedCustomTransform.SetMap, HoverCursor.AdvancedCustomTransform.SetActive: the parent class's `setMap` and `setActive` write the viewport cursor, but those writes are not modelled, because the parent class of 260205-2.ts is not part of this model. `Synced` is therefore not claimed across these calls.
- CursorTable.CustomTransform.GetCursor: a cursors option may carry a key whose value is `undefined`. The spreads (260205-5.ts:59, 105) and `Object.assign` (260205-5.ts:85) copy that `undefined`, and `getCursor` then answers `undefined`. Table values here are always strings, so "always a cursor in a valid state" holds only for options without `undefined` values.
- HoverCursor.AdvancedCustomTransform.HandleMoveEvent: what the parent class's `getSelectCursor` answers is a fixed constructor argument. The parent class of 260205-2.ts is not part of this model.
- `previousCursor` in 260205.ts and 260205-3.ts is written but never read, so it does not affect what any cursor shows.
- The geometry scripts (260210-1.ts, 260211.ts, 260212.ts, 260212-2.ts) are floating-point numerics and are not part of this model.
- The context-menu file (simple-context-menu.ts) is not part of this model.
