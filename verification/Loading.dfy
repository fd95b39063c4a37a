/** Filling a view from loaded nodes, and what the loader's nodes make of it. */
module Loading {
  import opened Mountains
  import opened MountainArray
  import opened MountainLayout
  import opened TreeView
  import opened Truncating

  function WithAll(stored: Nodes, nodes: seq<(nat, Entry)>): Nodes {
    if nodes == [] then stored else
      var last := nodes[|nodes| - 1];
      WithAll(stored, nodes[..|nodes| - 1])[last.0 := last.1]
  }

  ghost predicate PeaksGiven(nodes: seq<(nat, Entry)>, ps: seq<Mountain>) {
    |nodes| == |ps| && forall j {:trigger nodes[j]} :: 0 <= j < |ps| ==>
      Loaded(FlattenAll(ps), nodes[j], PeakIndex(ps, j))
  }

  ghost predicate AllLoaded(nodes: seq<(nat, Entry)>, arr: seq<Mountain>) {
    forall k {:trigger nodes[k]} :: 0 <= k < |nodes| ==> Loaded(arr, nodes[k], nodes[k].0)
  }

  /** The first `q` peaks are loaded and bagged. */
  ghost predicate Filling(stored: Nodes, generated: seq<Entry>, root: EntryLink, ps: seq<Mountain>, q: nat, date: nat) {
    && q <= |ps| && AllPerfect(ps) && Dated(LeavesAll(ps), date)
      && Holds(stored, FlattenAll(ps))
    && (forall j {:trigger PeakIndex(ps, j)} :: 0 <= j < q ==> PeakIndex(ps, j) in stored)
    && (if q == 0 then ps != [] && root == Stored(PeakIndex(ps, 0)) else Spine(generated, root, ps, 0, q))
  }

  lemma WithAllSnoc(stored: Nodes, nodes: seq<(nat, Entry)>, k: nat)
    requires k <= |nodes|
    ensures WithAll(stored, nodes[..0]) == stored
    ensures k < |nodes| ==> WithAll(stored, nodes[..k + 1]) == WithAll(stored, nodes[..k])[nodes[k].0 := nodes[k].1]
  {
    if k < |nodes| {
      assert nodes[..k + 1][..k] == nodes[..k];
    }
  }

  lemma FillStart(nodes: seq<(nat, Entry)>, ps: seq<Mountain>, date: nat)
    requires ps != [] && Range(ps) && Dated(LeavesAll(ps), date) && PeaksGiven(nodes, ps)
    ensures |nodes| == |ps| && nodes[..0] == [] && WithAll(map[], nodes[..0]) == map[]
    ensures Filling(map[], [], Stored(nodes[0].0), ps, 0, date)
  {
  }

  lemma HoldsNode(stored: Nodes, arr: seq<Mountain>, e: (nat, Entry), at: nat)
    requires Holds(stored, arr) && Loaded(arr, e, at)
    ensures at == e.0 && Holds(stored[e.0 := e.1], arr)
  {
  }

  lemma FirstSpine(generated: seq<Entry>, root: EntryLink, ps: seq<Mountain>)
    requires ps != [] && root == Stored(PeakIndex(ps, 0))
    ensures Spine(generated, root, ps, 0, 1)
  {
  }

  lemma FillTurn(stored: Nodes, generated: seq<Entry>, root: EntryLink, nodes: seq<(nat, Entry)>, ps: seq<Mountain>,
                 q: nat, date: nat)
    requires q < |nodes| && PeaksGiven(nodes, ps) && Filling(stored, generated, root, ps, q, date)
    ensures var idx, stored' := nodes[q].0, stored[nodes[q].0 := nodes[q].1];
            var l, r := Fetch(stored', generated, root), Fetch(stored', generated, Stored(idx));
            && r.Ok?
            && (q == 0 ==> Filling(stored', generated, root, ps, 1, date))
            && (q > 0 ==> && l.Ok? && l.value.data.branchId == r.value.data.branchId
                          && Filling(stored', generated + [Entry(NodeKind(root, Stored(idx)), Combine(l.value.data, r.value.data))],
                                             Generated(|generated|), ps, q + 1, date))
  {
    hide FlattenAll, LeavesAll, Dated, AllPerfect, Holds, PeakIndex, Combine, Loaded, Block, EntryFor, Spine;
    assert Loaded(FlattenAll(ps), nodes[q], PeakIndex(ps, q));
    HoldsNode(stored, FlattenAll(ps), nodes[q], PeakIndex(ps, q));
    if q == 0 {
      FirstSpine(generated, root, ps);
    }
    if q > 0 {
      BagTurn(stored[nodes[q].0 := nodes[q].1], generated, root, Stored(nodes[q].0), ps, q, date);
    }
  }

  lemma FillEnd(stored: Nodes, generated: seq<Entry>, count: nat, root: EntryLink, nodes: seq<(nat, Entry)>,
                ps: seq<Mountain>, date: nat)
    requires ps != [] && Range(ps) && count == |FlattenAll(ps)|
    requires Filling(stored, generated, root, ps, |ps|, date)
    ensures View(stored, generated, count, root, ps, date)
  {
    hide FlattenAll, LeavesAll, Dated, Holds, PeakIndex, Range, Spine;
  }

  lemma ExtraTurn(stored: Nodes, generated: seq<Entry>, count: nat, root: EntryLink, ps: seq<Mountain>, date: nat,
                  extra: seq<(nat, Entry)>, k: nat)
    requires View(stored, generated, count, root, ps, date) && AllLoaded(extra, FlattenAll(ps))
    requires k < |extra|
    ensures View(stored[extra[k].0 := extra[k].1], generated, count, root, ps, date)
  {
    assert Loaded(FlattenAll(ps), extra[k], extra[k].0);
    HoldsNode(stored, FlattenAll(ps), extra[k], extra[k].0);
    hide FlattenAll, LeavesAll, Dated, Holds, PeakIndex, Range, Spine, Loaded;
  }

  // ---- The loader's nodes ----

  lemma {:induction false} WithAllKeys(stored: Nodes, nodes: seq<(nat, Entry)>, i: nat)
    ensures i in WithAll(stored, nodes) <==> i in stored || exists k :: 0 <= k < |nodes| && nodes[k].0 == i
  {
    if nodes != [] {
      var n := |nodes| - 1;
      WithAllKeys(stored, nodes[..n], i);
      if i in WithAll(stored, nodes[..n]) && i !in stored {
        var k :| 0 <= k < n && nodes[..n][k].0 == i;
        assert nodes[k].0 == i;
      }
      if k :| 0 <= k < |nodes| && nodes[k].0 == i {
        if k < n {
          assert nodes[..n][k].0 == i;
        }
      }
    }
  }

  lemma {:induction false} SlopeEntriesLoaded(arr: seq<Mountain>, t: Mountain, pos: nat, k: nat)
    requires Ends(arr, t, pos) && k < |SlopeEntries(t, pos)|
    ensures var e := SlopeEntries(t, pos)[k]; Loaded(arr, e, e.0)
  {
    hide Flatten, Data;
    var left := pos - 1 - |Flatten(t.right)|;
    HalvesEnd(arr, t, pos);
    SlopeEntriesUnfold(t, pos, left);
    if k == 0 {
      EndsAtRoot(arr, t.left, left);
    } else if k == 1 {
      EndsAtRoot(arr, t.right, pos - 1);
    } else {
      SlopeEntriesLoaded(arr, t.right, pos - 1, k - 2);
    }
  }

  lemma {:induction false} EntriesLoadSlope(stored: Nodes, t: Mountain, pos: nat)
    requires pos >= |Flatten(t)| && pos - 1 in stored
    requires forall k :: 0 <= k < |SlopeEntries(t, pos)| ==> SlopeEntries(t, pos)[k].0 in stored
    ensures SlopeLoaded(stored, t, pos)
  {
    if t.Node? {
      var es, left, rest := SlopeEntries(t, pos), pos - 1 - |Flatten(t.right)|, SlopeEntries(t.right, pos - 1);
      SlopeEntriesUnfold(t, pos, left);
      assert es[0].0 == left - 1 && es[1].0 == pos - 2;
      assert forall k :: 0 <= k < |rest| ==> rest[k] == es[k + 2];
      EntriesLoadSlope(stored, t.right, pos - 1);
    }
  }

  /** On the array of a range the loader drafts exactly the peaks and the slope of the last one. */
  lemma LoaderFits(vec: seq<NodeData>, ps: seq<Mountain>, arr: seq<Mountain>, nodes: seq<(nat, Entry)>,
                   extra: seq<(nat, Entry)>)
    requires ps != [] && Range(ps) && arr == FlattenAll(ps) && vec == Datas(arr) && vec != []
    requires PeaksFound(vec, nodes, SizeOf(PeakHeights(|vec|)), PeakHeights(|vec|)[|PeakHeights(|vec|)| - 1])
    requires var hs := PeakHeights(|vec|);
             && Pow2(hs[|hs| - 1] + 1) - 1 <= SizeOf(hs) <= |vec|
             && extra == DraftSlope(vec, SizeOf(hs), hs[|hs| - 1])
    ensures PeaksGiven(nodes, ps)
    ensures |arr| >= |Flatten(ps[|ps| - 1])| && extra == SlopeEntries(ps[|ps| - 1], |arr|)
    ensures AllLoaded(extra, arr)
  {
    hide Flatten, FlattenAll, Data, Datas, DraftAll, DraftSlope, SlopeEntries, PeakIndex, PeakHeights, SizeOf, Loaded,
         SlopeInPlace, PeaksGiven, LeavesAll, LeafTotal;
    var n, hs := |ps| - 1, Heights(ps);
    RangeSizes(ps);
    PeaksOfFalling(hs, |vec|);
    assert hs[n] == Height(ps[n]);
    PeaksDrafted(vec, ps, arr, nodes);
    PeakEnds(ps, n);
    LastPeakIndex(ps);
    EndsInPlace(vec, arr, ps[n], |arr|);
    LoaderLoadsSlope(vec, ps[n], |arr|, hs[n]);
    forall k | 0 <= k < |extra| ensures Loaded(arr, extra[k], extra[k].0) {
      SlopeEntriesLoaded(arr, ps[n], |arr|, k);
    }
    assert AllLoaded(extra, arr);
  }

  lemma PeaksDrafted(vec: seq<NodeData>, ps: seq<Mountain>, arr: seq<Mountain>, nodes: seq<(nat, Entry)>)
    requires ps != [] && Range(ps) && arr == FlattenAll(ps) && vec == Datas(arr) && SizeOf(Heights(ps)) <= |vec|
    requires nodes == DraftAll(vec, Heights(ps))
    ensures PeaksGiven(nodes, ps)
  {
    LoaderFindsPeaks(ps, arr, 0);
    forall j | 0 <= j < |ps| ensures Loaded(arr, nodes[j], PeakIndex(ps, j)) {
      LoaderFindsPeaks(ps, arr, j);
    }
  }

  /** With those nodes loaded the last leaf can be deleted. */
  lemma LoadedDeletable(ps: seq<Mountain>, nodes: seq<(nat, Entry)>, extra: seq<(nat, Entry)>, stored: Nodes)
    requires ps != [] && PeaksGiven(nodes, ps) && |FlattenAll(ps)| >= |Flatten(ps[|ps| - 1])|
    requires extra == SlopeEntries(ps[|ps| - 1], |FlattenAll(ps)|) && stored == WithAll(WithAll(map[], nodes), extra)
    ensures Deletable(stored, ps)
  {
    hide Flatten, FlattenAll, WithAll, SlopeEntries, PeakIndex, SlopeLoaded, Block, EntryFor;
    var n, pos := |ps| - 1, |FlattenAll(ps)|;
    LastPeakIndex(ps);
    assert nodes[n].0 == pos - 1;
    WithAllKeys(map[], nodes, pos - 1);
    WithAllKeys(WithAll(map[], nodes), extra, pos - 1);
    forall k | 0 <= k < |extra| ensures extra[k].0 in stored {
      WithAllKeys(WithAll(map[], nodes), extra, extra[k].0);
    }
    EntriesLoadSlope(stored, ps[n], pos);
  }
}
