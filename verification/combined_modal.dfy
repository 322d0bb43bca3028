/** The state of the combined modal and the updates its handlers make. React's
    state setters are modelled by the functions from the previous state to the
    next one; rendering is not modelled. */
module CombinedModal {
  import opened Seqs
  import opened PatternMapping

  /** The pattern id that stands for "no pattern selected". */
  const ID_FIXED := ""

  datatype ModalState = ModalState(
    patterns: seq<string>,
    mappings: seq<Entry>,          // patternMappingArrowList
    responseBranchData: seq<Row>,
    selectedPattern: string,
    selectedArrow: string,
    outlink: int)                  // regType.outlink

  /** The states the `useState` calls start from. */
  const Initial := ModalState([], [], [], "", "", 0)

  /** What the handlers keep: one entry per (pattern, out-link) and no arrow
      twice in one entry. */
  ghost predicate Inv(st: ModalState) {
    && NoDup(Keys(st.mappings))
    && forall e :: e in st.mappings ==> NoDup(e.list)
  }

  lemma InitialInv()
    ensures Inv(Initial)
  {
  }

  /** The `find` test of the `arrows` derivation. */
  predicate Shows(st: ModalState, e: Entry) {
    e.patternId == st.selectedPattern && e.outLink == st.outlink
  }

  /** The `arrows` derivation: nothing when no pattern is selected, otherwise
      the list of the first entry for the selected pattern on `regType.outlink`,
      or nothing when there is no such entry. */
  function Arrows(st: ModalState): (r: seq<string>)
    ensures st.selectedPattern == ID_FIXED ==> r == []
    ensures (forall i :: 0 <= i < |st.mappings| ==> !Shows(st, st.mappings[i])) ==> r == []
    ensures st.selectedPattern != ID_FIXED ==>
      forall i ::
        (0 <= i < |st.mappings| && Shows(st, st.mappings[i]) &&
         forall j :: 0 <= j < i ==> !Shows(st, st.mappings[j]))
        ==> r == st.mappings[i].list
  {
    var k := (st.selectedPattern, st.outlink);
    var ks := Keys(st.mappings);
    assert forall i :: 0 <= i < |st.mappings| ==> (ks[i] == k <==> Shows(st, st.mappings[i]));
    assert forall i :: 0 <= i < |st.mappings| ==> (k in ks[..i] <==> exists j :: 0 <= j < i && ks[j] == k) by {
      forall i | 0 <= i < |st.mappings|
        ensures k in ks[..i] <==> exists j :: 0 <= j < i && ks[j] == k
      {
        assert forall j :: 0 <= j < i ==> ks[..i][j] == ks[j];
      }
    }
    if st.selectedPattern == ID_FIXED then [] else ListAt(st.mappings, k)
  }

  /** `loadBranchData`, given the response the service returned: the response
      is stored, merged into the mapping list, and its distinct patterns become
      the pattern list. Without a current node nothing happens. */
  method LoadBranchData(st: ModalState, hasNode: bool, resp: seq<Row>) returns (next: ModalState)
    ensures !hasNode ==> next == st
    ensures hasNode ==> next == st.(responseBranchData := resp,
                                    mappings := MergeReference(st.mappings, resp),
                                    patterns := Patterns(resp))
    ensures Inv(st) ==> Inv(next)
  {
    if !hasNode {
      return st;
    }
    var merged := MergeBranchData(st.mappings, resp);
    next := st.(responseBranchData := resp, mappings := merged, patterns := Patterns(resp));
    MergeKeyOrder(st.mappings, resp);
    if Inv(st) {
      MergeKeepsListsDuplicateFree(st.mappings, resp);
    }
  }

  /** After a load, selecting a pattern of the response on the current out-link
      shows every arrow the response maps to it. */
  lemma LoadedArrowsShown(st: ModalState, resp: seq<Row>, r: Row)
    requires r in resp && r.patternId != ID_FIXED && r.outLinkId == st.outlink
    ensures r.arrowId in Arrows(st.(mappings := Merged(st.mappings, resp), selectedPattern := r.patternId))
  {
    MergeCoversResponse(st.mappings, resp);
  }

  /** `(prev) => prev === id ? '' : id`. */
  function Toggle(prev: string, id: string): string {
    if prev == id then "" else id
  }

  /** `onSelectPattern`: selecting the selected pattern again clears the
      selection, selecting another one selects it; the arrow selection is
      always cleared and nothing else changes. */
  function SelectPattern(st: ModalState, patternId: string): (r: ModalState)
    ensures st.selectedPattern == patternId ==> r.selectedPattern == ID_FIXED
    ensures st.selectedPattern != patternId ==> r.selectedPattern == patternId
    ensures r.selectedArrow == ""
    ensures r == st.(selectedPattern := r.selectedPattern, selectedArrow := "")
    ensures Inv(r) <==> Inv(st)
  {
    st.(selectedPattern := Toggle(st.selectedPattern, patternId), selectedArrow := "")
  }

  /** `onSelectArrow`: the same toggle on the arrow selection alone. */
  function SelectArrow(st: ModalState, arrowId: string): (r: ModalState)
    ensures st.selectedArrow == arrowId ==> r.selectedArrow == ""
    ensures st.selectedArrow != arrowId ==> r.selectedArrow == arrowId
    ensures r == st.(selectedArrow := r.selectedArrow)
    ensures Inv(r) <==> Inv(st)
  {
    st.(selectedArrow := Toggle(st.selectedArrow, arrowId))
  }

  /** Clicking the same row twice gives back the selection it started from. */
  lemma SelectPatternTwice(st: ModalState, patternId: string)
    requires st.selectedPattern == ID_FIXED || st.selectedPattern == patternId
    ensures SelectPattern(SelectPattern(st, patternId), patternId).selectedPattern == st.selectedPattern
  {
  }

  /** Deselecting the pattern hides every arrow. */
  lemma DeselectHidesArrows(st: ModalState)
    ensures Arrows(SelectPattern(st, st.selectedPattern)) == []
  {
  }

  /** `list.filter(a => a !== arrowId)`: every other arrow, as often as it
      occurs, in its order. */
  function Without(list: seq<string>, arrowId: string): (r: seq<string>)
    ensures forall x :: x in r <==> x in list && x != arrowId
    ensures multiset(r) == multiset(list)[arrowId := 0]
    ensures |r| <= |list|
    ensures arrowId !in list ==> r == list
    ensures NoDup(list) ==> NoDup(r)
    decreases |list|
  {
    if list == [] then []
    else
      var rest := Without(list[..|list| - 1], arrowId);
      var last := list[|list| - 1];
      assert list == list[..|list| - 1] + [last];
      assert NoDup(list) ==> NoDup(list[..|list| - 1]) && last !in list[..|list| - 1];
      if last == arrowId then rest else rest + [last]
  }

  /** Filtering a concatenation filters each part: the kept arrows stay in
      their relative order. */
  lemma {:induction false} WithoutAppend(a: seq<string>, b: seq<string>, arrowId: string)
    ensures Without(a + b, arrowId) == Without(a, arrowId) + Without(b, arrowId)
    decreases |b|
  {
    if b == [] {
      assert a + b == a;
    } else {
      var p := b[..|b| - 1];
      var y := b[|b| - 1];
      assert a + b == (a + p) + [y];
      assert b == p + [y];
      WithoutAppend(a, p, arrowId);
    }
  }

  /** A single arrow is dropped exactly when it is the one filtered out. */
  lemma WithoutSingle(y: string, arrowId: string)
    ensures Without([y], arrowId) == if y == arrowId then [] else [y]
  {
  }

  /** The outcome of `onDeleteArrow`. */
  datatype Deletion =
    | NothingSelected          // an error message is shown and no state changes
    | Deleted(next: ModalState)

  /** `onDeleteArrow`: with both a pattern and an arrow selected, the selected
      arrow is filtered out of every entry for the selected pattern on
      `regType.outlink`, and the arrow selection is cleared. */
  function DeleteArrow(st: ModalState): (r: Deletion)
    ensures r.NothingSelected? <==> st.selectedPattern == "" || st.selectedArrow == ""
    ensures r.Deleted? ==> r.next == st.(mappings := r.next.mappings, selectedArrow := "")
    ensures r.Deleted? ==> |r.next.mappings| == |st.mappings|
    ensures r.Deleted? ==> forall i :: 0 <= i < |st.mappings| ==>
      && KeyOf(r.next.mappings[i]) == KeyOf(st.mappings[i])
      && (!Shows(st, st.mappings[i]) ==> r.next.mappings[i] == st.mappings[i])
      && (Shows(st, st.mappings[i]) ==>
            r.next.mappings[i].list == Without(st.mappings[i].list, st.selectedArrow))
    ensures r.Deleted? && Inv(st) ==> Inv(r.next)
  {
    if st.selectedPattern == "" || st.selectedArrow == "" then NothingSelected
    else
      var m := st.mappings;
      var n := seq(|m|, i requires 0 <= i < |m| =>
        if Shows(st, m[i]) then m[i].(list := Without(m[i].list, st.selectedArrow)) else m[i]);
      assert Keys(n) == Keys(m) by {
        assert forall i :: 0 <= i < |m| ==> Keys(n)[i] == KeyOf(n[i]) == KeyOf(m[i]) == Keys(m)[i];
      }
      assert forall e :: e in n ==> exists i :: 0 <= i < |m| && n[i] == e;
      Deleted(st.(mappings := n, selectedArrow := ""))
  }

  /** Once deleted, the arrow is no longer shown for the selected pattern. */
  lemma DeletedArrowHidden(st: ModalState)
    requires DeleteArrow(st).Deleted?
    ensures st.selectedArrow !in Arrows(DeleteArrow(st).next)
  {
  }
}
