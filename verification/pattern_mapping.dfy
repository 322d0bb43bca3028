/** The pattern-to-arrow mapping list of the combined modal and the updater
    that merges a branch-data response into it. */
module PatternMapping {
  import opened Js
  import opened Seqs

  /** One row of the branch-data response. The response is untyped; the model
      takes `outLinkId` to be a number. */
  datatype Row = Row(patternId: string, outLinkId: int, arrowId: string)

  /** A PatternMappingArrow: the arrows mapped to one pattern on one out-link. */
  datatype Entry = Entry(patternId: string, outLink: int, list: seq<string>)

  /** The merge keys its Map by the text `${patternId}_${outLink}`. The text of a
      number holds no `_`, so the text after the last `_` fixes the out-link and
      the text before it the pattern id: the text key and this pair pick out the
      same entries. */
  type Key = (string, int)

  function KeyOf(e: Entry): Key {
    (e.patternId, e.outLink)
  }

  function RowKey(r: Row): Key {
    (r.patternId, r.outLinkId)
  }

  function Keys(m: seq<Entry>): seq<Key> {
    seq(|m|, i requires 0 <= i < |m| => KeyOf(m[i]))
  }

  function RowKeys(resp: seq<Row>): seq<Key> {
    seq(|resp|, i requires 0 <= i < |resp| => RowKey(resp[i]))
  }

  /** The `list` of the first entry keyed `k`, or `[]` when no entry is. */
  function ListAt(m: seq<Entry>, k: Key): (r: seq<string>)
    ensures k !in Keys(m) ==> r == []
    ensures forall i :: 0 <= i < |m| && KeyOf(m[i]) == k && k !in Keys(m)[..i] ==> r == m[i].list
  {
    match IndexOf(Keys(m), k)
    case None =>
      assert forall i :: 0 <= i < |m| ==> Keys(m)[i] == KeyOf(m[i]);
      []
    case Some(j) =>
      assert forall i :: 0 <= i < |m| && KeyOf(m[i]) == k && k !in Keys(m)[..i] ==> i == j by {
        forall i | 0 <= i < |m| && KeyOf(m[i]) == k && k !in Keys(m)[..i]
          ensures i == j
        {
          IndexOfUnique(Keys(m), k, i);
        }
      }
      m[j].list
  }

  /* ---------------------------------------------------------------------
     The merge as the source runs it, one Map operation at a time. The Map
     is abstracted by the sequence of its values in iteration order.
     --------------------------------------------------------------------- */

  /** `map.set(KeyOf(e), e)`: a key already present keeps its position. */
  function Put(m: seq<Entry>, e: Entry): seq<Entry> {
    match IndexOf(Keys(m), KeyOf(e))
    case None => m + [e]
    case Some(j) => m[j := e]
  }

  /** The first loop: every previous entry, copied, set under its key. */
  function Seed(prev: seq<Entry>): seq<Entry>
    decreases |prev|
  {
    if prev == [] then []
    else Put(Seed(prev[..|prev| - 1]), prev[|prev| - 1])
  }

  /** The second loop's body for one response row. */
  function AddRow(m: seq<Entry>, r: Row): seq<Entry> {
    match IndexOf(Keys(m), RowKey(r))
    case None => m + [Entry(r.patternId, r.outLinkId, [r.arrowId])]
    case Some(j) =>
      if r.arrowId in m[j].list then m
      else m[j := m[j].(list := m[j].list + [r.arrowId])]
  }

  function AddRows(m: seq<Entry>, resp: seq<Row>): seq<Entry>
    decreases |resp|
  {
    if resp == [] then m
    else AddRow(AddRows(m, resp[..|resp| - 1]), resp[|resp| - 1])
  }

  /** The list the `setPatternMappingArrowList` updater returns. */
  function Merged(prev: seq<Entry>, resp: seq<Row>): (r: seq<Entry>)
    ensures NoDup(Keys(r))
    ensures forall e :: e in prev ==> KeyOf(e) in Keys(r)
  {
    SeedFacts(prev);
    AddRowsKeys(Seed(prev), resp);
    assert forall i :: 0 <= i < |prev| ==> Keys(prev)[i] == KeyOf(prev[i]);
    assert forall k :: k in Keys(prev) ==> k in Keys(prev) + RowKeys(resp);
    AddRows(Seed(prev), resp)
  }

  /* ---------------------------------------------------------------------
     A closed-form description of the same result.
     --------------------------------------------------------------------- */

  /** The list of the LAST previous entry keyed `k` (a later `map.set` on the
      same key replaces the value), or `[]` when no previous entry is. */
  function LastListAt(prev: seq<Entry>, k: Key): (r: seq<string>)
    ensures k !in Keys(prev) ==> r == []
    ensures (forall e :: e in prev ==> NoDup(e.list)) ==> NoDup(r)
    decreases |prev|
  {
    if prev == [] then []
    else if KeyOf(prev[|prev| - 1]) == k then
      assert Keys(prev)[|prev| - 1] == k;
      prev[|prev| - 1].list
    else
      assert Keys(prev[..|prev| - 1]) == Keys(prev)[..|prev| - 1];
      assert forall e :: e in prev[..|prev| - 1] ==> e in prev;
      LastListAt(prev[..|prev| - 1], k)
  }

  /** The arrow ids of the rows keyed `k`, in response order. */
  function ArrowsFor(resp: seq<Row>, k: Key): (r: seq<string>)
    ensures k !in RowKeys(resp) ==> r == []
    ensures forall i :: 0 <= i < |resp| && RowKey(resp[i]) == k ==> resp[i].arrowId in r
    decreases |resp|
  {
    if resp == [] then []
    else
      var p := resp[..|resp| - 1];
      var a := ArrowsFor(p, k);
      assert RowKeys(p) == RowKeys(resp)[..|resp| - 1];
      assert forall i :: 0 <= i < |p| ==> p[i] == resp[i];
      assert RowKeys(resp)[|resp| - 1] == RowKey(resp[|resp| - 1]);
      if RowKey(resp[|resp| - 1]) == k then a + [resp[|resp| - 1].arrowId] else a
  }

  /** `l`, then each element of `xs` that is not yet there, in order: the lists
      that repeated `if (!list.includes(a)) list.push(a)` build. */
  function AppendNew(l: seq<string>, xs: seq<string>): (r: seq<string>)
    ensures l <= r
    ensures forall x :: x in r <==> x in l || x in xs
    ensures NoDup(l) ==> NoDup(r)
    decreases |xs|
  {
    if xs == [] then l
    else
      var a := AppendNew(l, xs[..|xs| - 1]);
      var x := xs[|xs| - 1];
      assert xs == xs[..|xs| - 1] + [x];
      if x in a then a else a + [x]
  }

  /** One entry per distinct key, previous keys first in their order, then the
      new keys of the response in order of first appearance; each entry's list
      is its previous list followed by the response's new arrows for its key. */
  function MergeReference(prev: seq<Entry>, resp: seq<Row>): seq<Entry> {
    var ks := Distinct(Keys(prev) + RowKeys(resp));
    seq(|ks|, i requires 0 <= i < |ks| =>
      Entry(ks[i].0, ks[i].1, AppendNew(LastListAt(prev, ks[i]), ArrowsFor(resp, ks[i]))))
  }

  /* ---------------------------------------------------------------------
     The merge meets the closed form.
     --------------------------------------------------------------------- */

  lemma KeysSnoc(m: seq<Entry>, e: Entry)
    ensures Keys(m + [e]) == Keys(m) + [KeyOf(e)]
  {
  }

  lemma PutFacts(m: seq<Entry>, e: Entry)
    requires NoDup(Keys(m))
    ensures Keys(Put(m, e)) == if KeyOf(e) in Keys(m) then Keys(m) else Keys(m) + [KeyOf(e)]
    ensures NoDup(Keys(Put(m, e)))
    ensures forall i :: 0 <= i < |m| && KeyOf(m[i]) != KeyOf(e) ==> Put(m, e)[i] == m[i]
    ensures forall i :: 0 <= i < |Put(m, e)| && KeyOf(Put(m, e)[i]) == KeyOf(e) ==> Put(m, e)[i] == e
  {
    match IndexOf(Keys(m), KeyOf(e))
    case None =>
      KeysSnoc(m, e);
      assert forall i :: 0 <= i < |m| ==> Keys(m)[i] == KeyOf(m[i]);
    case Some(j) =>
      assert Keys(m[j := e]) == Keys(m);
      forall i | 0 <= i < |m| && KeyOf(m[i]) == KeyOf(e)
        ensures i == j
      {
        assert Keys(m)[i] == Keys(m)[j];
      }
  }

  /** The first loop leaves one entry per key, the keys in order of first
      appearance, each holding the last previous list for its key. */
  lemma SeedFacts(prev: seq<Entry>)
    ensures NoDup(Keys(Seed(prev)))
    ensures Keys(Seed(prev)) == Distinct(Keys(prev))
    ensures forall i :: 0 <= i < |Seed(prev)| ==> Seed(prev)[i].list == LastListAt(prev, KeyOf(Seed(prev)[i]))
  {
    SeedKeys(prev);
    SeedLists(prev);
  }

  lemma {:induction false} SeedKeys(prev: seq<Entry>)
    ensures NoDup(Keys(Seed(prev)))
    ensures Keys(Seed(prev)) == Distinct(Keys(prev))
    decreases |prev|
  {
    if prev != [] {
      var p, e := prev[..|prev| - 1], prev[|prev| - 1];
      SeedKeys(p);
      PutFacts(Seed(p), e);
      assert Keys(prev) == Keys(p) + [KeyOf(e)];
      DistinctSnoc(Keys(p), KeyOf(e));
    }
  }

  lemma {:induction false} SeedLists(prev: seq<Entry>)
    ensures forall i :: 0 <= i < |Seed(prev)| ==> Seed(prev)[i].list == LastListAt(prev, KeyOf(Seed(prev)[i]))
    decreases |prev|
  {
    if prev != [] {
      var p, e := prev[..|prev| - 1], prev[|prev| - 1];
      SeedLists(p);
      SeedKeys(p);
      PutFacts(Seed(p), e);
      var s := Seed(prev);
      assert s == Put(Seed(p), e);
      forall i | 0 <= i < |s|
        ensures s[i].list == LastListAt(prev, KeyOf(s[i]))
      {
        if KeyOf(s[i]) != KeyOf(e) {
          assert i < |Seed(p)| && s[i] == Seed(p)[i];
          assert LastListAt(prev, KeyOf(s[i])) == LastListAt(p, KeyOf(s[i]));
        }
      }
    }
  }

  /** On previous entries with distinct keys the first loop is a plain copy. */
  lemma {:induction false} SeedOfDistinctKeys(prev: seq<Entry>)
    requires NoDup(Keys(prev))
    ensures Seed(prev) == prev
    decreases |prev|
  {
    if prev != [] {
      var p, e := prev[..|prev| - 1], prev[|prev| - 1];
      assert Keys(p) == Keys(prev)[..|prev| - 1];
      SeedOfDistinctKeys(p);
      forall i | 0 <= i < |p|
        ensures Keys(p)[i] != KeyOf(e)
      {
        assert Keys(p)[i] == Keys(prev)[i] && Keys(prev)[|p|] == KeyOf(e);
      }
      assert prev == p + [e];
    }
  }

  lemma AddRowFacts(m: seq<Entry>, r: Row)
    requires NoDup(Keys(m))
    ensures Keys(AddRow(m, r)) == if RowKey(r) in Keys(m) then Keys(m) else Keys(m) + [RowKey(r)]
    ensures NoDup(Keys(AddRow(m, r)))
    ensures forall i :: 0 <= i < |m| && KeyOf(m[i]) != RowKey(r) ==> AddRow(m, r)[i] == m[i]
    ensures forall i :: 0 <= i < |m| && KeyOf(m[i]) == RowKey(r) ==>
      AddRow(m, r)[i].list == if r.arrowId in m[i].list then m[i].list else m[i].list + [r.arrowId]
    ensures RowKey(r) !in Keys(m) ==> AddRow(m, r)[|m|].list == [r.arrowId]
  {
    var created := Entry(r.patternId, r.outLinkId, [r.arrowId]);
    match IndexOf(Keys(m), RowKey(r))
    case None =>
      KeysSnoc(m, created);
      assert forall i :: 0 <= i < |m| ==> Keys(m)[i] == KeyOf(m[i]);
    case Some(j) =>
      assert Keys(m[j := m[j].(list := m[j].list + [r.arrowId])]) == Keys(m);
      forall i | 0 <= i < |m| && KeyOf(m[i]) == RowKey(r)
        ensures i == j
      {
        assert Keys(m)[i] == Keys(m)[j];
      }
  }

  /** What the second loop does to the keys of a map with one entry per key. */
  lemma {:induction false} AddRowsKeys(m: seq<Entry>, resp: seq<Row>)
    requires NoDup(Keys(m))
    ensures NoDup(Keys(AddRows(m, resp)))
    ensures Keys(AddRows(m, resp)) == Distinct(Keys(m) + RowKeys(resp))
    decreases |resp|
  {
    if resp == [] {
      DistinctOfNoDup(Keys(m));
      assert Keys(m) + RowKeys(resp) == Keys(m);
    } else {
      var p, r := resp[..|resp| - 1], resp[|resp| - 1];
      AddRowsKeys(m, p);
      AddRowFacts(AddRows(m, p), r);
      assert RowKeys(resp) == RowKeys(p) + [RowKey(r)];
      assert Keys(m) + RowKeys(resp) == (Keys(m) + RowKeys(p)) + [RowKey(r)];
      DistinctSnoc(Keys(m) + RowKeys(p), RowKey(r));
    }
  }

  /** One more row: the entry at position `i` keeps the closed form of its list. */
  lemma AddRowsStep(m: seq<Entry>, p: seq<Row>, r: Row, i: nat)
    requires NoDup(Keys(m))
    requires forall i :: 0 <= i < |AddRows(m, p)| ==>
      AddRows(m, p)[i].list == AppendNew(ListAt(m, KeyOf(AddRows(m, p)[i])), ArrowsFor(p, KeyOf(AddRows(m, p)[i])))
    requires i < |AddRows(m, p + [r])|
    ensures AddRows(m, p + [r])[i].list ==
      AppendNew(ListAt(m, KeyOf(AddRows(m, p + [r])[i])), ArrowsFor(p + [r], KeyOf(AddRows(m, p + [r])[i])))
  {
    var resp := p + [r];
    assert resp[..|resp| - 1] == p;
    var k := RowKey(r);
    var before := AddRows(m, p);
    var after := AddRows(m, resp);
    AddRowsKeys(m, p);
    AddRowFacts(before, r);
    assert after == AddRow(before, r);
    var ki := KeyOf(after[i]);
    assert ArrowsFor(resp, ki) == if ki == k then ArrowsFor(p, ki) + [r.arrowId] else ArrowsFor(p, ki);
    if i < |before| {
      assert Keys(after)[i] == Keys(before)[i];
    } else {
      // a key the response brings for the first time
      assert k !in Keys(before) && i == |before| && ki == k;
      assert k !in Keys(m) + RowKeys(p);
      assert k !in Keys(m) by {
        assert forall x :: x in Keys(m) ==> x in Keys(m) + RowKeys(p);
      }
      assert k !in RowKeys(p) by {
        assert forall x :: x in RowKeys(p) ==> x in Keys(m) + RowKeys(p);
      }
    }
  }

  /** What the second loop does to the lists of a map with one entry per key. */
  lemma {:induction false} AddRowsLists(m: seq<Entry>, resp: seq<Row>)
    requires NoDup(Keys(m))
    ensures forall i :: 0 <= i < |AddRows(m, resp)| ==>
      AddRows(m, resp)[i].list ==
        AppendNew(ListAt(m, KeyOf(AddRows(m, resp)[i])), ArrowsFor(resp, KeyOf(AddRows(m, resp)[i])))
    decreases |resp|
  {
    if resp == [] {
      forall i | 0 <= i < |m|
        ensures m[i].list == ListAt(m, KeyOf(m[i]))
      {
        IndexOfNoDup(Keys(m), i);
      }
    } else {
      var p, r := resp[..|resp| - 1], resp[|resp| - 1];
      assert resp == p + [r];
      AddRowsLists(m, p);
      forall i | 0 <= i < |AddRows(m, resp)|
        ensures AddRows(m, resp)[i].list ==
          AppendNew(ListAt(m, KeyOf(AddRows(m, resp)[i])), ArrowsFor(resp, KeyOf(AddRows(m, resp)[i])))
      {
        AddRowsStep(m, p, r, i);
      }
    }
  }

  /** The merge computes the closed form. */
  lemma MergedIsReference(prev: seq<Entry>, resp: seq<Row>)
    ensures Merged(prev, resp) == MergeReference(prev, resp)
  {
    var s := Seed(prev);
    SeedFacts(prev);
    AddRowsKeys(s, resp);
    AddRowsLists(s, resp);
    DistinctOfDistinctPrefix(Keys(prev), RowKeys(resp));
    var m, ref := Merged(prev, resp), MergeReference(prev, resp);
    var ks := Distinct(Keys(prev) + RowKeys(resp));
    assert Keys(m) == ks;
    forall i | 0 <= i < |m|
      ensures m[i] == ref[i]
    {
      var k := KeyOf(m[i]);
      assert k == ks[i];
      if k in Keys(s) {
        var j := IndexOf(Keys(s), k).value;
        IndexOfNoDup(Keys(s), j);
        assert ListAt(s, k) == s[j].list == LastListAt(prev, k);
      } else {
        assert k !in Keys(prev);
      }
    }
  }

  /* ---------------------------------------------------------------------
     The merge as the source writes it: a Map filled in two loops.
     --------------------------------------------------------------------- */

  /** A JavaScript Map from keys to entries: `order` is its insertion order. */
  ghost predicate TableValid(order: seq<Key>, table: map<Key, Entry>) {
    && NoDup(order)
    && (forall k :: k in table <==> k in order)
    && (forall k :: k in table ==> KeyOf(table[k]) == k)
  }

  /** `Array.from(map.values())`. */
  function Values(order: seq<Key>, table: map<Key, Entry>): seq<Entry>
    requires forall k :: k in order ==> k in table
  {
    seq(|order|, i requires 0 <= i < |order| => table[order[i]])
  }

  lemma ValuesKeys(order: seq<Key>, table: map<Key, Entry>)
    requires TableValid(order, table)
    ensures Keys(Values(order, table)) == order
  {
  }

  lemma ValuesReplace(order: seq<Key>, table: map<Key, Entry>, k: Key, e: Entry)
    requires TableValid(order, table) && k in table && KeyOf(e) == k
    ensures TableValid(order, table[k := e])
    ensures Values(order, table[k := e]) == Values(order, table)[IndexOf(order, k).value := e]
  {
    var j := IndexOf(order, k).value;
    var lhs, rhs := Values(order, table[k := e]), Values(order, table)[j := e];
    forall i | 0 <= i < |order|
      ensures lhs[i] == rhs[i]
    {
      if i != j {
        assert order[i] != order[j];
      }
    }
  }

  lemma ValuesAppend(order: seq<Key>, table: map<Key, Entry>, k: Key, e: Entry)
    requires TableValid(order, table) && k !in table && KeyOf(e) == k
    ensures TableValid(order + [k], table[k := e])
    ensures Values(order + [k], table[k := e]) == Values(order, table) + [e]
  {
  }

  /** The `setPatternMappingArrowList` updater of `loadBranchData`: the
      previous entries are copied into a Map, the response rows are merged into
      it, and the Map's values are returned in iteration order. */
  method MergeBranchData(prev: seq<Entry>, resp: seq<Row>) returns (next: seq<Entry>)
    ensures next == Merged(prev, resp)
    ensures next == MergeReference(prev, resp)
  {
    var order: seq<Key> := [];
    var table: map<Key, Entry> := map[];
    for i := 0 to |prev|
      invariant TableValid(order, table)
      invariant Values(order, table) == Seed(prev[..i])
    {
      var item := prev[i];
      var key := KeyOf(item);
      assert prev[..i + 1] == prev[..i] + [item];
      ValuesKeys(order, table);
      if key in table {
        ValuesReplace(order, table, key, item);
      } else {
        ValuesAppend(order, table, key, item);
        order := order + [key];
      }
      table := table[key := item];
    }
    assert prev[..|prev|] == prev;
    for i := 0 to |resp|
      invariant TableValid(order, table)
      invariant Values(order, table) == AddRows(Seed(prev), resp[..i])
    {
      var row := resp[i];
      var key := RowKey(row);
      assert resp[..i + 1] == resp[..i] + [row];
      ValuesKeys(order, table);
      if key !in table {
        var entry := Entry(row.patternId, row.outLinkId, [row.arrowId]);
        ValuesAppend(order, table, key, entry);
        order := order + [key];
        table := table[key := entry];
      } else {
        var item := table[key];
        if row.arrowId !in item.list {
          ValuesReplace(order, table, key, item.(list := item.list + [row.arrowId]));
          table := table[key := item.(list := item.list + [row.arrowId])];
        }
      }
    }
    assert resp[..|resp|] == resp;
    next := Values(order, table);
    MergedIsReference(prev, resp);
  }

  /* ---------------------------------------------------------------------
     What the merge promises.
     --------------------------------------------------------------------- */

  /** One entry per key: previous keys first, in their order, then the keys
      the response brings, in order of first appearance. */
  lemma MergeKeyOrder(prev: seq<Entry>, resp: seq<Row>)
    ensures Keys(Merged(prev, resp)) == Distinct(Keys(prev) + RowKeys(resp))
    ensures NoDup(Keys(Merged(prev, resp)))
  {
    MergedIsReference(prev, resp);
  }

  /** Previous entries (one per key, as the modal keeps them) stay at their
      positions with their pattern, out-link and arrows; new arrows only go
      after the old ones. */
  lemma MergeKeepsPrevious(prev: seq<Entry>, resp: seq<Row>)
    requires NoDup(Keys(prev))
    ensures |Merged(prev, resp)| >= |prev|
    ensures forall i :: 0 <= i < |prev| ==>
      Merged(prev, resp)[i].patternId == prev[i].patternId &&
      Merged(prev, resp)[i].outLink == prev[i].outLink &&
      prev[i].list <= Merged(prev, resp)[i].list
  {
    var m := Merged(prev, resp);
    SeedOfDistinctKeys(prev);
    AddRowsKeys(prev, resp);
    AddRowsLists(prev, resp);
    DistinctOfNoDup(Keys(prev));
    DistinctPrefix(Keys(prev), RowKeys(resp));
    forall i | 0 <= i < |prev|
      ensures KeyOf(m[i]) == KeyOf(prev[i]) && prev[i].list <= m[i].list
    {
      assert Keys(m)[i] == Keys(prev)[i];
      IndexOfNoDup(Keys(prev), i);
    }
  }

  /** Every response row's arrow is in the list of the entry for its pattern
      and out-link. */
  lemma MergeCoversResponse(prev: seq<Entry>, resp: seq<Row>)
    ensures forall r :: r in resp ==>
      RowKey(r) in Keys(Merged(prev, resp)) && r.arrowId in ListAt(Merged(prev, resp), RowKey(r))
  {
    var s := Seed(prev);
    var m := Merged(prev, resp);
    SeedFacts(prev);
    AddRowsKeys(s, resp);
    AddRowsLists(s, resp);
    forall r | r in resp
      ensures RowKey(r) in Keys(m) && r.arrowId in ListAt(m, RowKey(r))
    {
      var k := RowKey(r);
      var i :| 0 <= i < |resp| && resp[i] == r;
      assert RowKeys(resp)[i] == k;
      assert k in Keys(s) + RowKeys(resp);
      var j := IndexOf(Keys(m), k).value;
      IndexOfNoDup(Keys(m), j);
      assert ListAt(m, k) == m[j].list;
    }
  }

  /** Merging never adds an arrow twice to one entry. */
  lemma MergeKeepsListsDuplicateFree(prev: seq<Entry>, resp: seq<Row>)
    requires forall e :: e in prev ==> NoDup(e.list)
    ensures forall e :: e in Merged(prev, resp) ==> NoDup(e.list)
  {
    MergedIsReference(prev, resp);
  }

  function PatternIds(resp: seq<Row>): seq<string> {
    seq(|resp|, i requires 0 <= i < |resp| => resp[i].patternId)
  }

  /** `[...new Set(resp.map(r => r.patternId))]`. */
  function Patterns(resp: seq<Row>): (ps: seq<string>)
    ensures NoDup(ps)
    ensures forall r :: r in resp ==> r.patternId in ps
    ensures forall p :: p in ps ==> exists r :: r in resp && r.patternId == p
  {
    var ids := PatternIds(resp);
    assert forall i :: 0 <= i < |resp| ==> ids[i] == resp[i].patternId;
    Distinct(ids)
  }

  /** The pattern list is in order of first appearance in the response. */
  lemma PatternsInFirstAppearanceOrder(resp: seq<Row>)
    ensures forall i, j :: 0 <= i < j < |Patterns(resp)| ==>
      IndexOf(PatternIds(resp), Patterns(resp)[i]).value < IndexOf(PatternIds(resp), Patterns(resp)[j]).value
  {
    DistinctFirstAppearance(PatternIds(resp));
  }
}
