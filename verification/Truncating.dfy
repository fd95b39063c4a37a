/** What removing the last leaf does to a view: the walk down the right slope, the new root, the cut. */
module Truncating {
  import opened Mountains
  import opened MountainArray
  import opened MountainLayout
  import opened TreeView

  /** Links of the left children along the right slope of the subtree that ends at `pos`. */
  function SlopeLinks(t: Mountain, pos: nat): seq<EntryLink>
    requires pos >= |Flatten(t)|
  {
    match t
    case Leaf(_) => []
    case Node(l, r) => [Stored(pos - 2 - |Flatten(r)|)] + SlopeLinks(r, pos - 1)
  }

  /** Everything a deletion reads below the subtree that ends at `pos` is loaded. */
  ghost predicate SlopeLoaded(stored: Nodes, t: Mountain, pos: nat)
    requires pos >= |Flatten(t)|
  {
    && pos - 1 in stored
    && (t.Node? ==> pos - 2 - |Flatten(t.right)| in stored && SlopeLoaded(stored, t.right, pos - 1))
  }

  ghost predicate Deletable(stored: Nodes, ps: seq<Mountain>) {
    ps != [] && var last := ps[|ps| - 1];
    last.Leaf? || (|FlattenAll(ps)| >= |Flatten(last)| && SlopeLoaded(stored, last, |FlattenAll(ps)|))
  }

  /** The right slope itself is loaded. */
  ghost predicate WalkLoaded(stored: Nodes, t: Mountain, pos: nat) {
    && pos >= |Flatten(t)| && pos - 1 in stored
    && (t.Node? ==> WalkLoaded(stored, t.right, pos - 1))
  }

  /** Every stored node among `links` is loaded. */
  ghost predicate LinksLoaded(stored: Nodes, links: seq<EntryLink>) {
    forall k {:trigger links[k]} :: 0 <= k < |links| && links[k].Stored? ==> links[k].index in stored
  }

  ghost predicate NotLoaded(stored: Nodes, t: Mountain, pos: nat) {
    pos >= |Flatten(t)| && !SlopeLoaded(stored, t, pos)
  }

  ghost predicate Missing(stored: Nodes, shorter: seq<Mountain>, j: nat) {
    j < |shorter| && PeakIndex(shorter, j) !in stored
  }

  /** `after` is `before` without its last leaf, and `k` nodes have left the array. */
  ghost predicate Shortened(before: seq<Mountain>, after: seq<Mountain>, oldCount: nat, count: nat, k: nat) {
    && before != [] && after == Pop(before)
    && k == Height(before[|before| - 1]) + 1 && count + k == oldCount
  }

  /** The new root is built and the last `k` nodes can go. */
  ghost predicate Ready(stored: Nodes, generated: seq<Entry>, count: nat, ps: seq<Mountain>, k: nat, root: EntryLink,
                        date: nat) {
    && ps != [] && k == Height(ps[|ps| - 1]) + 1 && k <= count && (forall i :: i in stored ==> i < count)
    && (Deletable(stored, ps) <==> View(Cut(stored, count - k), generated, count - k, root, Pop(ps), date))
    && (Deletable(stored, ps) <==> Fetch(Cut(stored, count - k), generated, root).Ok?)
  }

  /** The number of leaves is odd exactly when the last peak is a single leaf. */
  lemma OddIffLastLeaf(ps: seq<Mountain>)
    requires Range(ps) && ps != []
    ensures |LeavesAll(ps)| % 2 == 1 <==> ps[|ps| - 1].Leaf?
  {
    hide Leaves, Flatten;
    var n := |ps| - 1;
    forall i | 0 <= i < n ensures Perfect(ps[..n][i]) && Height(ps[..n][i]) > 0 {
      assert Height(ps[i]) > Height(ps[n]);
    }
    EvenAboveGround(ps[..n]);
    PerfectSizes(ps[n]);
  }

  lemma {:induction false} EvenAboveGround(ps: seq<Mountain>)
    requires forall i :: 0 <= i < |ps| ==> Perfect(ps[i]) && Height(ps[i]) > 0
    ensures |LeavesAll(ps)| % 2 == 0
  {
    if ps != [] {
      EvenAboveGround(ps[..|ps| - 1]);
      PerfectSizes(ps[|ps| - 1]);
    }
  }

  lemma LoneLeaf(ps: seq<Mountain>)
    requires Range(ps) && ps != []
    ensures |LeavesAll(ps)| == 1 <==> |ps| == 1 && ps[0].Leaf?
  {
    var n := |ps| - 1;
    LeavesNonEmpty(ps[n]);
    if n > 0 {
      LeavesNonEmpty(ps[n - 1]);
      assert ps[..n][n - 1] == ps[n - 1];
    } else {
      PerfectSizes(ps[0]);
      assert LeavesAll(ps[..0]) == [];
    }
  }

  /** What a deletion learns from the root entry. */
  lemma RootCases(stored: Nodes, generated: seq<Entry>, count: nat, root: EntryLink, ps: seq<Mountain>, date: nat)
    requires View(stored, generated, count, root, ps, date)
    ensures ps != [] && Fetch(stored, generated, root).Ok?
    ensures var node := Fetch(stored, generated, root).value;
            && 1 <= node.data.startHeight <= node.data.endHeight
            && LeafCount(node.data) == |LeavesAll(ps)| && (node.kind.LeafKind? <==> |LeavesAll(ps)| == 1)
            && (node.kind.NodeKind? && LeafCount(node.data) % 2 == 1 ==>
                  |ps| > 1 && ps[|ps| - 1].Leaf? && Spine(generated, node.kind.left, ps, 0, |ps| - 1))
            && (node.kind.NodeKind? && LeafCount(node.data) % 2 == 0 ==> ps[|ps| - 1].Node?)
  {
    hide Flatten, FlattenAll, LeavesAll, PeakIndex, Data, Height, Spine, View, Range, Complete;
    RootEntry(stored, generated, count, root, ps, date);
    OddIffLastLeaf(ps);
    LoneLeaf(ps);
  }

  /** Dropping the tail leaves a right store of the shorter array. */
  lemma CutHolds(stored: Nodes, arr: seq<Mountain>, cut: seq<Mountain>)
    requires Holds(stored, arr) && |cut| <= |arr| && arr[..|cut|] == cut
    ensures Holds(Cut(stored, |cut|), cut)
  {
    forall i | i in stored && i < |cut|
      ensures Block(cut, i) && stored[i] == EntryFor(cut[i], i)
    {
      assert stored[i] == EntryFor(arr[i], i) && Block(arr, i);
      assert arr[..|cut|][i] == arr[i];
      var lo := i + 1 - |Flatten(arr[i])|;
      assert arr[..|cut|][lo..i + 1] == arr[lo..i + 1];
    }
  }

  /** Stored peaks of the shorter array already carry the right data. */
  lemma ShorterData(stored: Nodes, arr: seq<Mountain>, shorter: seq<Mountain>, cut: seq<Mountain>, j: nat, at: nat)
    requires Holds(stored, arr) && cut == FlattenAll(shorter) && |cut| <= |arr| && arr[..|cut|] == cut
    requires j < |shorter| && at == PeakIndex(shorter, j) && at in stored
    ensures stored[at].data == Data(shorter[j])
  {
    hide Flatten, FlattenAll, PeakIndex, Height;
    CutHolds(stored, arr, cut);
    PeakEnds(shorter, j);
    EndsAtRoot(cut, shorter[j], at + 1);
    assert Cut(stored, |cut|)[at] == stored[at];
  }

  lemma PopDated(ps: seq<Mountain>, first: nat)
    requires ps != [] && Dated(LeavesAll(ps), first)
    ensures Dated(LeavesAll(Pop(ps)), first)
  {
    PopLeaves(ps);
    var leaves, fewer := LeavesAll(ps), LeavesAll(Pop(ps));
    assert forall i :: 0 <= i < |fewer| ==> leaves[i] == fewer[i];
  }

  /** Cutting the array back to the shorter range, once it has a root, gives a view of it. */
  lemma ShorterView(stored: Nodes, generated: seq<Entry>, ps: seq<Mountain>, shorter: seq<Mountain>, count: nat,
                    root: EntryLink, date: nat)
    requires Range(ps) && ps != [] && Dated(LeavesAll(ps), date)
    requires Holds(stored, FlattenAll(ps))
    requires shorter == Pop(ps) && shorter != [] && count == |FlattenAll(shorter)|
    requires Spine(generated, root, shorter, 0, |shorter|)
    requires PeaksHeld(stored, shorter)
    ensures View(Cut(stored, count), generated, count, root, shorter, date)
  {
    PopRange(ps);
    PopArray(ps);
    PopDated(ps, date);
    CutHolds(stored, FlattenAll(ps), FlattenAll(shorter));
    forall j | 0 <= j < |shorter| ensures PeakIndex(shorter, j) in Cut(stored, count) {
      PeakEnds(shorter, j);
    }
  }

  /** The loaded entry at the end of a subtree tells leaf from node and where its children are. */
  lemma EntryHere(stored: Nodes, arr: seq<Mountain>, t: Mountain, pos: nat)
    requires Holds(stored, arr) && Ends(arr, t, pos) && pos - 1 in stored
    ensures stored[pos - 1] == EntryFor(t, pos - 1)
  {
    EndsAtRoot(arr, t, pos);
    assert stored[pos - 1] == EntryFor(arr[pos - 1], pos - 1);
  }

  /** Half-way down the slope, at the subtree `t` that ends at `pos`. */
  ghost predicate Descending(stored: Nodes, arr: seq<Mountain>, top: Mountain, from: nat, t: Mountain, pos: nat,
                             links: seq<EntryLink>, all: seq<EntryLink>) {
    && Holds(stored, arr) && from >= |Flatten(top)| && Ends(arr, t, pos)
    && links + SlopeLinks(t, pos) == all
    && (SlopeLoaded(stored, top, from) ==> SlopeLoaded(stored, t, pos))
    && (WalkLoaded(stored, t, pos) ==> WalkLoaded(stored, top, from))
  }

  lemma DescendStops(stored: Nodes, arr: seq<Mountain>, top: Mountain, from: nat, t: Mountain, pos: nat,
                     links: seq<EntryLink>, all: seq<EntryLink>)
    requires Descending(stored, arr, top, from, t, pos, links, all) && pos >= 1 && pos - 1 !in stored
    ensures NotLoaded(stored, top, from)
  {
  }

  lemma DescendTurn(stored: Nodes, arr: seq<Mountain>, top: Mountain, from: nat, t: Mountain, pos: nat,
                    links: seq<EntryLink>, all: seq<EntryLink>)
    requires Descending(stored, arr, top, from, t, pos, links, all) && pos >= 1 && pos - 1 in stored
    ensures match stored[pos - 1].kind
            case LeafKind => links == all && WalkLoaded(stored, top, from)
            case NodeKind(left, right) =>
              && t.Node? && pos >= 2 && right == Stored(pos - 2)
              && Descending(stored, arr, top, from, t.right, pos - 1, links + [left], all)
  {
    EntryHere(stored, arr, t, pos);
    assert links + [] == links;
    if t.Node? {
      var left := Stored(pos - 2 - |Flatten(t.right)|);
      HalvesEnd(arr, t, pos);
      assert links + [left] + SlopeLinks(t.right, pos - 1) == links + ([left] + SlopeLinks(t.right, pos - 1));
    }
  }

  /** `links` are the last root to keep, bagging the first `base` peaks of the shorter range, and the
      remaining peaks; whatever of them is loaded carries the right data. */
  ghost predicate LinksFor(stored: Nodes, links: seq<EntryLink>, shorter: seq<Mountain>, base: nat, date: nat) {
    && 1 <= base <= |shorter| && |links| == |shorter| - base + 1
    && AllPerfect(shorter) && Dated(LeavesAll(shorter), date)
    && (forall k {:trigger links[k]} :: 1 <= k < |links| ==> links[k] == Stored(PeakIndex(shorter, base + k - 1)))
    && (forall j {:trigger PeakIndex(shorter, j)} :: 0 <= j < |shorter| && PeakIndex(shorter, j) in stored ==>
          stored[PeakIndex(shorter, j)].data == Data(shorter[j]))
  }

  /** What one turn of the re-bagging loop reads, if it is loaded. */
  lemma RebagRead(stored: Nodes, generated: seq<Entry>, links: seq<EntryLink>, shorter: seq<Mountain>, base: nat,
                  date: nat, k: nat, link: EntryLink, q: nat)
    requires LinksFor(stored, links, shorter, base, date) && 1 <= k < |links| && q == base + k - 1
    requires Spine(generated, link, shorter, 0, q)
    ensures links[k] == Stored(PeakIndex(shorter, q))
    ensures match Fetch(stored, generated, link)
            case Err(_) => Missing(stored, shorter, 0)
            case Ok(e) => e.data == RootData(shorter[..q])
    ensures match Fetch(stored, generated, links[k])
            case Err(_) => Missing(stored, shorter, q)
            case Ok(e) => e.data == Data(shorter[q])
  {
    assert shorter[0..q] == shorter[..q];
    if q == 1 {
      assert shorter[..1] == [shorter[0]];
    }
  }

  lemma RebagTurn(stored: Nodes, generated: seq<Entry>, links: seq<EntryLink>, shorter: seq<Mountain>, base: nat,
                  date: nat, k: nat, link: EntryLink, q: nat)
    requires LinksFor(stored, links, shorter, base, date) && 1 <= k < |links| && q == base + k - 1 < |shorter|
    requires Spine(generated, link, shorter, 0, q)
    ensures var l, r := Fetch(stored, generated, link), Fetch(stored, generated, links[k]);
            && (l.Err? ==> Missing(stored, shorter, 0))
            && (r.Err? ==> Missing(stored, shorter, q))
            && (l.Ok? && r.Ok? ==>
                  && l.value.data.branchId == r.value.data.branchId
                  && Spine(generated + [Entry(NodeKind(link, links[k]), Combine(l.value.data, r.value.data))],
                                   Generated(|generated|), shorter, 0, q + 1))
  {
    RebagRead(stored, generated, links, shorter, base, date, k, link, q);
    var l, r := Fetch(stored, generated, link), Fetch(stored, generated, links[k]);
    if l.Ok? && r.Ok? {
      OneBranch(shorter, q, date);
      SpineBag(generated, link, shorter, q, Entry(NodeKind(link, links[k]), Combine(l.value.data, r.value.data)));
    }
  }

  /** In the shorter array the slope's left children are peaks, at the same places. */
  lemma {:induction false} SlopePlaces(rest: seq<Mountain>, t: Mountain, pos: nat)
    requires |FlattenAll(rest)| + |Flatten(t)| == pos
    ensures PeakLinks(rest + Slope(t), |rest|, |rest + Slope(t)|) == SlopeLinks(t, pos)
    decreases t
  {
    if t.Node? {
      var l, r := t.left, t.right;
      var all := rest + Slope(t);
      FlattenSnoc(rest, l);
      SlopePlaces(rest + [l], r, pos - 1);
      assert rest + [l] + Slope(r) == all;
      assert PeakIndex(all, |rest|) == pos - 2 - |Flatten(r)| by {
        assert all[..|rest|] == rest && all[|rest|] == l;
      }
      assert PeakLinks(all, |rest|, |all|) == [Stored(PeakIndex(all, |rest|))] + PeakLinks(all, |rest| + 1, |all|);
    }
  }

  lemma {:induction false} SlopeLinksLoaded(stored: Nodes, t: Mountain, pos: nat)
    requires pos >= |Flatten(t)| && SlopeLoaded(stored, t, pos)
    ensures forall k :: 0 <= k < |SlopeLinks(t, pos)| ==>
              SlopeLinks(t, pos)[k].Stored? && SlopeLinks(t, pos)[k].index in stored
  {
    if t.Node? {
      SlopeLinksLoaded(stored, t.right, pos - 1);
    }
  }

  /** With the slope loaded every peak of the shorter range is at hand. */
  lemma ShorterPeaksHeld(stored: Nodes, ps: seq<Mountain>, shorter: seq<Mountain>, j: nat)
    requires ps != [] && shorter == Pop(ps) && PeaksHeld(stored, ps) && j < |shorter|
    requires |FlattenAll(ps)| >= |Flatten(ps[|ps| - 1])| && SlopeLoaded(stored, ps[|ps| - 1], |FlattenAll(ps)|)
    ensures PeakIndex(shorter, j) in stored
  {
    var n := |ps| - 1;
    var rest, last, pos := ps[..n], ps[n], |FlattenAll(ps)|;
    if j < n {
      PeakIndexPrefix(rest, Slope(last), j);
      PeakIndexPrefix(rest, [last], j);
      assert rest + [last] == ps;
    } else {
      SlopePlaces(rest, last, pos);
      SlopeLinksLoaded(stored, last, pos);
      assert PeakLinks(shorter, n, |shorter|)[j - n] == Stored(PeakIndex(shorter, j));
    }
  }

  lemma AllPeaksHeld(stored: Nodes, ps: seq<Mountain>, shorter: seq<Mountain>)
    requires Deletable(stored, ps) && ps != [] && ps[|ps| - 1].Node? && shorter == Pop(ps)
    requires PeaksHeld(stored, ps)
    ensures PeaksHeld(stored, shorter)
  {
    forall j | 0 <= j < |shorter| ensures PeakIndex(shorter, j) in stored {
      ShorterPeaksHeld(stored, ps, shorter, j);
    }
  }

  /** The links a deletion collects, seen as peaks of the shorter range. */
  lemma SlopeAsPeaks(ps: seq<Mountain>, shorter: seq<Mountain>, links: seq<EntryLink>)
    requires Range(ps) && ps != [] && shorter == Pop(ps)
    requires |FlattenAll(ps)| >= |Flatten(ps[|ps| - 1])| && links == SlopeLinks(ps[|ps| - 1], |FlattenAll(ps)|)
    ensures |links| == Height(ps[|ps| - 1]) && |shorter| == |ps| - 1 + |links|
    ensures forall k :: 0 <= k < |links| ==> links[k] == Stored(PeakIndex(shorter, |ps| - 1 + k))
  {
    var n := |ps| - 1;
    SlopePlaces(ps[..n], ps[n], |FlattenAll(ps)|);
    SlopeRange(ps[n]);
    assert links == PeakLinks(shorter, n, |shorter|);
  }

  lemma LinksForShorter(stored: Nodes, ps: seq<Mountain>, shorter: seq<Mountain>, links: seq<EntryLink>, base: nat,
                        date: nat)
    requires Range(ps) && ps != [] && Dated(LeavesAll(ps), date) && Holds(stored, FlattenAll(ps)) && shorter == Pop(ps)
    requires 1 <= base <= |shorter| && |links| == |shorter| - base + 1
    requires forall k :: 1 <= k < |links| ==> links[k] == Stored(PeakIndex(shorter, base + k - 1))
    ensures LinksFor(stored, links, shorter, base, date)
  {
    PopRange(ps);
    PopArray(ps);
    PopDated(ps, date);
    forall j | 0 <= j < |shorter| && PeakIndex(shorter, j) in stored
      ensures stored[PeakIndex(shorter, j)].data == Data(shorter[j])
    {
      ShorterData(stored, FlattenAll(ps), shorter, FlattenAll(shorter), j, PeakIndex(shorter, j));
    }
  }

  lemma SpineShorter(generated: seq<Entry>, link: EntryLink, ps: seq<Mountain>, shorter: seq<Mountain>)
    requires |ps| > 1 && shorter == Pop(ps) && Spine(generated, link, ps, 0, |ps| - 1)
    ensures Spine(generated, link, shorter, 0, |ps| - 1)
  {
    var n := |ps| - 1;
    SpinePrefix(generated, link, ps[..n], [ps[n]], n);
    SpinePrefix(generated, link, ps[..n], Slope(ps[n]), n);
    assert ps[..n] + [ps[n]] == ps;
  }

  lemma SlopeUnfolds(t: Mountain, pos: nat, links: seq<EntryLink>)
    requires t.Node? && pos >= |Flatten(t)|
    requires links == [Stored(pos - 2 - |Flatten(t.right)|)] + SlopeLinks(t.right, pos - 1)
    ensures links == SlopeLinks(t, pos) && pos - 1 >= |Flatten(t.right)|
  {
  }

  lemma DescendStarts(stored: Nodes, ps: seq<Mountain>, last: Mountain, pos: nat, left: EntryLink, all: seq<EntryLink>)
    requires ps != [] && last == ps[|ps| - 1] && Holds(stored, FlattenAll(ps))
    requires pos == |FlattenAll(ps)| >= |Flatten(last)| && all == [left] + SlopeLinks(last, pos)
    ensures Descending(stored, FlattenAll(ps), last, pos, last, pos, [left], all)
  {
    PeakEnds(ps, |ps| - 1);
  }

  lemma DescendStartsBelow(stored: Nodes, ps: seq<Mountain>, t: Mountain, pos: nat, left: EntryLink,
                           all: seq<EntryLink>)
    requires |ps| == 1 && t == ps[0] && t.Node? && Holds(stored, FlattenAll(ps))
    requires pos == |FlattenAll(ps)| >= |Flatten(t)| && pos - 1 >= |Flatten(t.right)|
    requires all == [left] + SlopeLinks(t.right, pos - 1)
    ensures Descending(stored, FlattenAll(ps), t.right, pos - 1, t.right, pos - 1, [left], all)
  {
    hide Flatten, FlattenAll, PeakIndex, SlopeLinks, Holds, Ends;
    LastPeakIndex(ps);
    PeakEnds(ps, 0);
    HalvesEnd(FlattenAll(ps), t, pos);
  }

  /** The bundle of facts a deletion starts from. */
  ghost predicate Plan(stored: Nodes, generated: seq<Entry>, ps: seq<Mountain>, shorter: seq<Mountain>, date: nat,
                       top: Mountain, from: nat, all: seq<EntryLink>, base: nat) {
    && all != [] && 1 <= base <= |shorter| && |all| == |shorter| - base + 1
    && Descending(stored, FlattenAll(ps), top, from, top, from, [all[0]], all)
    && LinksFor(stored, all, shorter, base, date)
    && Spine(generated, all[0], shorter, 0, base)
  }

  /** Several peaks: the walk starts at the last one. */
  lemma PlanMany(stored: Nodes, generated: seq<Entry>, ps: seq<Mountain>, shorter: seq<Mountain>, date: nat,
                 left: EntryLink, all: seq<EntryLink>, pos: nat)
    requires |ps| > 1 && Range(ps) && Dated(LeavesAll(ps), date) && Holds(stored, FlattenAll(ps)) && shorter == Pop(ps)
    requires Spine(generated, left, ps, 0, |ps| - 1)
    requires pos == |FlattenAll(ps)| >= |Flatten(ps[|ps| - 1])| && all == [left] + SlopeLinks(ps[|ps| - 1], pos)
    ensures Plan(stored, generated, ps, shorter, date, ps[|ps| - 1], pos, all, |ps| - 1)
    ensures |all| == Height(ps[|ps| - 1]) + 1
  {
    hide Flatten, FlattenAll, Pop, Range, Dated, LeavesAll, Holds, SlopeLinks, Height, Spine, LinksFor, Descending;
    var n := |ps| - 1;
    SlopeAsPeaks(ps, shorter, SlopeLinks(ps[n], pos));
    assert Spine(generated, left, shorter, 0, n) by { SpineShorter(generated, left, ps, shorter); }
    assert Descending(stored, FlattenAll(ps), ps[n], pos, ps[n], pos, [left], all) by {
      DescendStarts(stored, ps, ps[n], pos, left, all);
    }
    assert LinksFor(stored, all, shorter, n, date) by { LinksForShorter(stored, ps, shorter, all, n, date); }
  }

  /** A single mountain: the walk starts at its right child. */
  lemma PlanOne(stored: Nodes, generated: seq<Entry>, ps: seq<Mountain>, shorter: seq<Mountain>, date: nat,
                left: EntryLink, all: seq<EntryLink>, pos: nat)
    requires |ps| == 1 && ps[0].Node? && Range(ps) && Dated(LeavesAll(ps), date) && Holds(stored, FlattenAll(ps))
    requires shorter == Pop(ps)
    requires pos == |FlattenAll(ps)| >= |Flatten(ps[0])| && left == Stored(pos - 2 - |Flatten(ps[0].right)|)
    requires all == [left] + SlopeLinks(ps[0].right, pos - 1)
    ensures Plan(stored, generated, ps, shorter, date, ps[0].right, pos - 1, all, 1)
    ensures |all| == Height(ps[0])
  {
    SlopeUnfolds(ps[0], pos, all);
    hide Flatten, FlattenAll, Pop, Range, Dated, LeavesAll, Holds, SlopeLinks, Height, LinksFor, Descending, PeakIndex;
    SlopeAsPeaks(ps, shorter, SlopeLinks(ps[0], pos));
    assert LinksFor(stored, all, shorter, 1, date) by { LinksForShorter(stored, ps, shorter, all, 1, date); }
    assert Descending(stored, FlattenAll(ps), ps[0].right, pos - 1, ps[0].right, pos - 1, [left], all) by {
      DescendStartsBelow(stored, ps, ps[0], pos, left, all);
    }
  }

  /** Everything the two walks of a deletion need to know about the root entry. */
  ghost predicate PlanFor(stored: Nodes, generated: seq<Entry>, ps: seq<Mountain>, date: nat, node: Entry,
                          top: Mountain, from: nat, all: seq<EntryLink>, base: nat) {
    && ps != [] && 1 <= node.data.startHeight <= node.data.endHeight && node.kind.NodeKind?
    && Plan(stored, generated, ps, Pop(ps), date, top, from, all, base)
    && from >= 1 && node.kind.right == Stored(from - 1) && all != [] && all[0] == node.kind.left
    && |all| + (if Complete(node.data) then 1 else 0) == Height(ps[|ps| - 1]) + 1
    && Decides(stored, ps, top, from, all)
  }

  /** What the walk down the slope and the re-bagging tell about the whole deletion. With two leaves only
      the right one is ever read. */
  ghost predicate Decides(stored: Nodes, ps: seq<Mountain>, top: Mountain, from: nat, all: seq<EntryLink>) {
    && ps != [] && (NotLoaded(stored, top, from) ==> !Deletable(stored, ps))
    && (WalkLoaded(stored, top, from) ==> WalkLoaded(stored, ps[|ps| - 1], |FlattenAll(ps)|))
    && (|LeavesAll(ps)| > 2 ==>
          |all| > 1 && (WalkLoaded(stored, top, from) && LinksLoaded(stored, all) ==> Deletable(stored, ps)))
    && (|LeavesAll(ps)| == 2 ==>
          && |all| == 1 && |FlattenAll(ps)| >= 2 && (WalkLoaded(stored, top, from) ==> |FlattenAll(ps)| - 2 in stored)
          && (NotLoaded(stored, top, from) ==> |FlattenAll(ps)| - 2 !in stored))
  }

  lemma DecidesMany(stored: Nodes, ps: seq<Mountain>, left: EntryLink, all: seq<EntryLink>, pos: nat)
    requires |ps| > 1 && Range(ps) && ps[|ps| - 1].Node? && pos == |FlattenAll(ps)| >= |Flatten(ps[|ps| - 1])|
    requires all == [left] + SlopeLinks(ps[|ps| - 1], pos) && |all| > 1
    ensures Decides(stored, ps, ps[|ps| - 1], pos, all)
  {
    ReadMany(stored, ps, left, all, pos);
    ManyLeaves(ps);
    hide FlattenAll, Flatten, LeavesAll, Range, SlopeLinks, SlopeLoaded, WalkLoaded, LinksLoaded;
  }

  lemma ManyLeaves(ps: seq<Mountain>)
    requires |ps| > 1 && ps[|ps| - 1].Node?
    ensures |LeavesAll(ps)| > 2
  {
    var n := |ps| - 1;
    var rest := ps[..n];
    LeavesNonEmpty(ps[n].left);
    LeavesNonEmpty(ps[n].right);
    LeavesNonEmpty(rest[n - 1]);
  }

  lemma DecidesOne(stored: Nodes, ps: seq<Mountain>, left: EntryLink, all: seq<EntryLink>, pos: nat)
    requires |ps| == 1 && ps[0].Node? && Range(ps) && pos == |FlattenAll(ps)| >= |Flatten(ps[0])| && pos - 1 in stored
    requires left == Stored(pos - 2 - |Flatten(ps[0].right)|) && all == [left] + SlopeLinks(ps[0].right, pos - 1)
    requires |all| == Height(ps[0])
    ensures Decides(stored, ps, ps[0].right, pos - 1, all)
  {
    ReadOne(stored, ps, left, all, pos);
    NotLoadedBelow(stored, ps, pos);
    LevelsOf(ps);
    hide FlattenAll, LeavesAll, Range, SlopeLinks, LinksLoaded, Deletable;
  }

  lemma {:induction false} SlopeFromParts(stored: Nodes, t: Mountain, pos: nat)
    requires WalkLoaded(stored, t, pos) && pos >= |Flatten(t)|
    requires LinksLoaded(stored, SlopeLinks(t, pos))
    ensures SlopeLoaded(stored, t, pos)
  {
    if t.Node? {
      var links, rest := SlopeLinks(t, pos), SlopeLinks(t.right, pos - 1);
      assert links[0].index in stored;
      forall k | 0 <= k < |rest| && rest[k].Stored? ensures rest[k].index in stored {
        assert links[k + 1] == rest[k];
      }
      SlopeFromParts(stored, t.right, pos - 1);
    }
  }

  lemma LoadedBehind(stored: Nodes, first: EntryLink, rest: seq<EntryLink>)
    requires LinksLoaded(stored, [first] + rest)
    ensures LinksLoaded(stored, rest) && (first.Stored? ==> first.index in stored)
  {
    var all := [first] + rest;
    assert all[0] == first;
    forall k | 0 <= k < |rest| && rest[k].Stored? ensures rest[k].index in stored {
      assert all[k + 1] == rest[k];
    }
  }

  /** Several peaks: what the two walks read is what a deletion needs. */
  lemma ReadMany(stored: Nodes, ps: seq<Mountain>, left: EntryLink, all: seq<EntryLink>, pos: nat)
    requires ps != [] && pos == |FlattenAll(ps)| >= |Flatten(ps[|ps| - 1])|
    requires all == [left] + SlopeLinks(ps[|ps| - 1], pos)
    ensures WalkLoaded(stored, ps[|ps| - 1], pos) && LinksLoaded(stored, all) ==>
      Deletable(stored, ps)
  {
    hide FlattenAll, Flatten, SlopeLinks, SlopeLoaded, WalkLoaded, LinksLoaded;
    var last := ps[|ps| - 1];
    if WalkLoaded(stored, last, pos) && LinksLoaded(stored, all) {
      LoadedBehind(stored, left, SlopeLinks(last, pos));
      SlopeFromParts(stored, last, pos);
    }
  }

  /** A single mountain. */
  lemma ReadOne(stored: Nodes, ps: seq<Mountain>, left: EntryLink, all: seq<EntryLink>, pos: nat)
    requires |ps| == 1 && ps[0].Node? && pos == |FlattenAll(ps)| >= |Flatten(ps[0])| && pos - 1 in stored
    requires left == Stored(pos - 2 - |Flatten(ps[0].right)|) && all == [left] + SlopeLinks(ps[0].right, pos - 1)
    ensures WalkLoaded(stored, ps[0].right, pos - 1) && LinksLoaded(stored, all) ==>
      Deletable(stored, ps)
  {
    hide FlattenAll, SlopeLinks, WalkLoaded, LinksLoaded;
    var right := ps[0].right;
    if WalkLoaded(stored, right, pos - 1) && LinksLoaded(stored, all) {
      LoadedBehind(stored, left, SlopeLinks(right, pos - 1));
      SlopeFromParts(stored, right, pos - 1);
    }
  }

  /** A single mountain has more than one level exactly when it has more than two leaves. */
  lemma LevelsOf(ps: seq<Mountain>)
    requires |ps| == 1 && Range(ps) && ps[0].Node?
    ensures |LeavesAll(ps)| > 2 <==> Height(ps[0]) > 1
    ensures |LeavesAll(ps)| == 2 <==> Height(ps[0]) == 1
    ensures Height(ps[0]) == 1 ==> ps[0].left.Leaf? && ps[0].right.Leaf?
  {
    assert ps == [ps[0]];
    LeavesOne(ps[0]);
    PerfectSizes(ps[0]);
    assert Pow2(0) == 1 && Pow2(1) == 2;
    if Height(ps[0]) > 1 {
      Pow2Monotone(2, Height(ps[0]));
      assert Pow2(2) == 4;
    }
  }

  lemma PlanForMany(stored: Nodes, generated: seq<Entry>, ps: seq<Mountain>, date: nat, node: Entry,
                    all: seq<EntryLink>, pos: nat)
    requires |ps| > 1 && Range(ps) && Dated(LeavesAll(ps), date)
    requires Holds(stored, FlattenAll(ps)) && ps[|ps| - 1].Node?
    requires 1 <= node.data.startHeight <= node.data.endHeight && !Complete(node.data)
    requires node.kind.NodeKind? && node.kind.right == Stored(PeakIndex(ps, |ps| - 1))
    requires Spine(generated, node.kind.left, ps, 0, |ps| - 1)
    requires pos == |FlattenAll(ps)| >= |Flatten(ps[|ps| - 1])|
    requires all == [node.kind.left] + SlopeLinks(ps[|ps| - 1], pos)
    ensures PlanFor(stored, generated, ps, date, node, ps[|ps| - 1], pos, all, |ps| - 1)
  {
    hide FlattenAll, Flatten, LeavesAll, Range, Dated, Holds, Spine, Plan, SlopeLinks, SlopeLoaded, WalkLoaded,
         LinksLoaded, Pop, Complete, Decides;
    LastPeakIndex(ps);
    PlanMany(stored, generated, ps, Pop(ps), date, node.kind.left, all, pos);
    assert Height(ps[|ps| - 1]) > 0;
    DecidesMany(stored, ps, node.kind.left, all, pos);
  }

  lemma NotLoadedBelow(stored: Nodes, ps: seq<Mountain>, pos: nat)
    requires |ps| == 1 && ps[0].Node? && pos == |FlattenAll(ps)| > 0
    ensures NotLoaded(stored, ps[0].right, pos - 1) ==> !Deletable(stored, ps)
  {
  }

  lemma PlanForOne(stored: Nodes, generated: seq<Entry>, ps: seq<Mountain>, date: nat, node: Entry,
                   all: seq<EntryLink>, pos: nat)
    requires |ps| == 1 && Range(ps) && Dated(LeavesAll(ps), date)
    requires Holds(stored, FlattenAll(ps)) && ps[0].Node?
    requires 1 <= node.data.startHeight <= node.data.endHeight && Complete(node.data)
    requires pos == |FlattenAll(ps)| >= |Flatten(ps[0])| && PeakIndex(ps, 0) + 1 == pos && pos - 1 in stored
    requires node == EntryFor(ps[0], PeakIndex(ps, 0))
    requires all == [node.kind.left] + SlopeLinks(ps[0].right, pos - 1)
    ensures PlanFor(stored, generated, ps, date, node, ps[0].right, pos - 1, all, 1)
  {
    hide FlattenAll, LeavesAll, Dated, Holds, Spine, Plan, SlopeLinks, SlopeLoaded, WalkLoaded, LinksLoaded, Pop,
         Complete, Deletable, NotLoaded, Range, Decides;
    PlanOne(stored, generated, ps, Pop(ps), date, node.kind.left, all, pos);
    DecidesOne(stored, ps, node.kind.left, all, pos);
  }

  lemma LastFits(ps: seq<Mountain>)
    requires ps != []
    ensures |FlattenAll(ps)| >= |Flatten(ps[|ps| - 1])|
  {
  }

  lemma MakePlanMany(stored: Nodes, generated: seq<Entry>, count: nat, root: EntryLink, ps: seq<Mountain>, date: nat,
                     node: Entry)
    returns (all: seq<EntryLink>, pos: nat)
    requires View(stored, generated, count, root, ps, date) && |ps| > 1
    requires Fetch(stored, generated, root) == Ok(node) && ps[|ps| - 1].Node?
    ensures PlanFor(stored, generated, ps, date, node, ps[|ps| - 1], pos, all, |ps| - 1)
  {
    hide View, Range, Dated, LeavesAll, Holds, PeaksHeld, Spine, PeakIndex, FlattenAll, Complete, PlanFor, SlopeLinks;
    ViewParts(stored, generated, count, root, ps, date);
    RootEntry(stored, generated, count, root, ps, date);
    LastFits(ps);
    pos := |FlattenAll(ps)|;
    all := [node.kind.left] + SlopeLinks(ps[|ps| - 1], pos);
    PlanForMany(stored, generated, ps, date, node, all, pos);
  }

  lemma MakePlanOne(stored: Nodes, generated: seq<Entry>, count: nat, root: EntryLink, ps: seq<Mountain>, date: nat,
                    node: Entry)
    returns (all: seq<EntryLink>, pos: nat)
    requires View(stored, generated, count, root, ps, date) && |ps| == 1
    requires Fetch(stored, generated, root) == Ok(node) && ps[0].Node?
    ensures pos > 0 && PlanFor(stored, generated, ps, date, node, ps[0].right, pos - 1, all, 1)
  {
    hide View, Range, Dated, LeavesAll, Holds, PeaksHeld, Spine, PeakIndex, FlattenAll, Complete, PlanFor, SlopeLinks;
    ViewParts(stored, generated, count, root, ps, date);
    RootEntry(stored, generated, count, root, ps, date);
    LastFits(ps);
    pos := |FlattenAll(ps)|;
    all := [node.kind.left] + SlopeLinks(ps[0].right, pos - 1);
    PlanForOne(stored, generated, ps, date, node, all, pos);
  }

  lemma MakePlan(stored: Nodes, generated: seq<Entry>, count: nat, root: EntryLink, ps: seq<Mountain>, date: nat,
                 node: Entry)
    returns (top: Mountain, from: nat, all: seq<EntryLink>, base: nat)
    requires View(stored, generated, count, root, ps, date)
    requires ps != [] && Fetch(stored, generated, root) == Ok(node) && ps[|ps| - 1].Node?
    ensures PlanFor(stored, generated, ps, date, node, top, from, all, base)
  {
    hide *;
    if |ps| == 1 {
      var pos;
      all, pos := MakePlanOne(stored, generated, count, root, ps, date, node);
      top, from, base := ps[0].right, pos - 1, 1;
    } else {
      all, from := MakePlanMany(stored, generated, count, root, ps, date, node);
      top, base := ps[|ps| - 1], |ps| - 1;
    }
  }

  lemma PlanFacts(stored: Nodes, generated: seq<Entry>, ps: seq<Mountain>, shorter: seq<Mountain>, date: nat,
                  node: Entry,
                  top: Mountain, from: nat, all: seq<EntryLink>, base: nat)
    requires PlanFor(stored, generated, ps, date, node, top, from, all, base) && ps != [] && shorter == Pop(ps)
    ensures all != [] && 1 <= base <= |shorter| && |all| == |shorter| - base + 1
    ensures Descending(stored, FlattenAll(ps), top, from, top, from, [all[0]], all)
    ensures LinksFor(stored, all, shorter, base, date)
    ensures Spine(generated, all[0], shorter, 0, base)
    ensures 1 <= node.data.startHeight <= node.data.endHeight && node.kind.NodeKind?
    ensures from >= 1 && node.kind.right == Stored(from - 1) && all[0] == node.kind.left
    ensures |all| + (if Complete(node.data) then 1 else 0) == Height(ps[|ps| - 1]) + 1
    ensures Decides(stored, ps, top, from, all)
  {
    hide FlattenAll, LeavesAll, Descending, LinksFor, Spine, Decides, Complete, Height;
  }

  /** The walk stopped at a node that is not loaded. */
  lemma DecidesStop(stored: Nodes, ps: seq<Mountain>, top: Mountain, from: nat, all: seq<EntryLink>)
    requires Decides(stored, ps, top, from, all) && NotLoaded(stored, top, from)
    ensures !Deletable(stored, ps)
    ensures |LeavesAll(ps)| == 2 ==> |FlattenAll(ps)| >= 2 && |FlattenAll(ps)| - 2 !in stored
  {
    hide FlattenAll, LeavesAll, SlopeLoaded, WalkLoaded, LinksLoaded, Deletable, NotLoaded;
  }

  /** Both walks came through. */
  lemma DecidesDone(stored: Nodes, ps: seq<Mountain>, top: Mountain, from: nat, all: seq<EntryLink>)
    requires Decides(stored, ps, top, from, all) && ps != []
    requires WalkLoaded(stored, top, from) && (|all| > 1 ==> LinksLoaded(stored, all))
    ensures WalkLoaded(stored, ps[|ps| - 1], |FlattenAll(ps)|)
    ensures |LeavesAll(ps)| > 2 ==> Deletable(stored, ps)
    ensures |LeavesAll(ps)| == 2 ==> |FlattenAll(ps)| >= 2 && |FlattenAll(ps)| - 2 in stored
  {
    hide FlattenAll, LeavesAll, SlopeLoaded, WalkLoaded, LinksLoaded, Deletable, NotLoaded;
  }

  /** With two leaves there is nothing to bag. */
  lemma DecidesPair(stored: Nodes, ps: seq<Mountain>, top: Mountain, from: nat, all: seq<EntryLink>)
    requires Decides(stored, ps, top, from, all) && |all| != 1
    ensures |LeavesAll(ps)| != 2
  {
    hide FlattenAll, LeavesAll, SlopeLoaded, WalkLoaded, LinksLoaded, Deletable, NotLoaded;
  }

  /** A failed re-bagging leaves the view as it was, and says which node was missing. */
  lemma StillView(stored: Nodes, before: seq<Entry>, generated: seq<Entry>, count: nat, root: EntryLink,
                  ps: seq<Mountain>, date: nat, j: nat)
    requires View(stored, before, count, root, ps, date) && ps != [] && before <= generated
    requires Missing(stored, Pop(ps), j)
    ensures View(stored, generated, count, root, ps, date)
    ensures ps[|ps| - 1].Node? ==> !Deletable(stored, ps)
  {
    hide FlattenAll, LeavesAll, Range, Dated, Holds, Pop, SlopeLoaded, PeakIndex;
    var more := generated[|before|..];
    assert before + more == generated;
    SpineGrows(before, more, root, ps, 0, |ps|);
    if ps[|ps| - 1].Node? && Deletable(stored, ps) {
      ShorterPeaksHeld(stored, ps, Pop(ps), j);
    }
  }

  lemma HeightFits(ps: seq<Mountain>)
    requires Range(ps) && ps != []
    ensures Height(ps[|ps| - 1]) + 1 <= |FlattenAll(ps)|
  {
    PopArray(ps);
  }

  lemma SlopeView(stored: Nodes, generated: seq<Entry>, count: nat, ps: seq<Mountain>, shorter: seq<Mountain>,
                  newRoot: EntryLink, date: nat)
    requires Range(ps) && ps != [] && Dated(LeavesAll(ps), date)
    requires Holds(stored, FlattenAll(ps))
    requires PeaksHeld(stored, ps) && ps[|ps| - 1].Node? && count == |FlattenAll(ps)| - Height(ps[|ps| - 1]) - 1
    requires shorter == Pop(ps) && |shorter| > 0 && Spine(generated, newRoot, shorter, 0, |shorter|)
    requires Deletable(stored, ps)
    ensures View(Cut(stored, count), generated, count, newRoot, shorter, date)
  {
    AllPeaksHeld(stored, ps, shorter);
    assert count == |FlattenAll(shorter)| by { PopArray(ps); }
    ShorterView(stored, generated, ps, shorter, count, newRoot, date);
  }

  lemma CutBack(stored: Nodes, generated: seq<Entry>, count: nat, ps: seq<Mountain>, shorter: seq<Mountain>, k: nat,
                newRoot: EntryLink, date: nat)
    requires Range(ps) && ps != [] && Dated(LeavesAll(ps), date)
    requires Holds(stored, FlattenAll(ps))
    requires PeaksHeld(stored, ps) && ps[|ps| - 1].Node? && count == |FlattenAll(ps)|
    requires k == Height(ps[|ps| - 1]) + 1
    requires shorter == Pop(ps) && |shorter| > 0 && Spine(generated, newRoot, shorter, 0, |shorter|)
    requires forall i :: i in stored ==> i < count
    requires WalkLoaded(stored, ps[|ps| - 1], count) && (|LeavesAll(ps)| > 2 ==> Deletable(stored, ps))
    ensures Ready(stored, generated, count, ps, k, newRoot, date)
  {
    hide Range, Dated, LeavesAll, Holds, FlattenAll, PeaksHeld, Spine, WalkLoaded, Deletable, View, Pop, Fetch;
    HeightFits(ps);
    if Deletable(stored, ps) {
      SlopeView(stored, generated, count - k, ps, shorter, newRoot, date);
      ViewRoot(Cut(stored, count - k), generated, count - k, newRoot, shorter, date);
    } else {
      NotValid(stored, generated, count, ps, shorter, k, newRoot, date);
      RootGone(stored, generated, count, ps, shorter, k, newRoot);
    }
  }

  lemma ViewRoot(stored: Nodes, generated: seq<Entry>, count: nat, root: EntryLink, ps: seq<Mountain>, date: nat)
    requires View(stored, generated, count, root, ps, date)
    ensures Fetch(stored, generated, root).Ok?
  {
    RootEntry(stored, generated, count, root, ps, date);
  }

  /** With the slope itself loaded, a view of the shorter range has all the deletion needed. */
  lemma NotValid(stored: Nodes, generated: seq<Entry>, count: nat, ps: seq<Mountain>, shorter: seq<Mountain>, k: nat,
                 newRoot: EntryLink, date: nat)
    requires Range(ps) && ps != [] && ps[|ps| - 1].Node? && count == |FlattenAll(ps)| && k <= count
    requires shorter == Pop(ps) && WalkLoaded(stored, ps[|ps| - 1], count) && !Deletable(stored, ps)
    ensures !View(Cut(stored, count - k), generated, count - k, newRoot, shorter, date)
  {
    if View(Cut(stored, count - k), generated, count - k, newRoot, shorter, date) {
      HeldThenDeletable(stored, Cut(stored, count - k), ps, shorter, count);
    }
  }

  lemma HeldThenDeletable(stored: Nodes, cut: Nodes, ps: seq<Mountain>, shorter: seq<Mountain>, pos: nat)
    requires Range(ps) && ps != [] && ps[|ps| - 1].Node? && pos == |FlattenAll(ps)| && shorter == Pop(ps)
    requires WalkLoaded(stored, ps[|ps| - 1], pos) && PeaksHeld(cut, shorter)
    requires forall i :: i in cut ==> i in stored
    ensures Deletable(stored, ps)
  {
    hide Range, Pop, FlattenAll, SlopeLinks, WalkLoaded, SlopeLoaded, PeakIndex, Height;
    var n := |ps| - 1;
    LastFits(ps);
    var links := SlopeLinks(ps[n], pos);
    SlopeAsPeaks(ps, shorter, links);
    forall k | 0 <= k < |links| && links[k].Stored? ensures links[k].index in stored {
      assert links[k] == Stored(PeakIndex(shorter, n + k));
    }
    assert LinksLoaded(stored, links);
    SlopeFromParts(stored, ps[n], pos);
  }

  /** Without everything loaded the call can succeed only with two leaves, the first of them missing; the
      new root is that leaf. */
  lemma RootGone(stored: Nodes, generated: seq<Entry>, count: nat, ps: seq<Mountain>, shorter: seq<Mountain>, k: nat,
                 newRoot: EntryLink)
    requires Range(ps) && ps != [] && ps[|ps| - 1].Node? && count == |FlattenAll(ps)| && k <= count
    requires |LeavesAll(ps)| <= 2 && shorter == Pop(ps) && |shorter| > 0
    requires Spine(generated, newRoot, shorter, 0, |shorter|)
    requires WalkLoaded(stored, ps[|ps| - 1], count) && !Deletable(stored, ps)
    ensures Fetch(Cut(stored, count - k), generated, newRoot).Err?
  {
    hide Range, FlattenAll, LeavesAll, WalkLoaded, Deletable, Pop, PeakIndex, Height, Spine;
    LonePair(ps);
    FirstOfPair(generated, ps, shorter, newRoot);
    if 0 in stored {
      PairLoaded(stored, ps);
    }
  }

  lemma FirstOfPair(generated: seq<Entry>, ps: seq<Mountain>, shorter: seq<Mountain>, root: EntryLink)
    requires |ps| == 1 && ps[0].Node? && ps[0].left.Leaf? && ps[0].right.Leaf? && shorter == Pop(ps) && |shorter| > 0
    requires Spine(generated, root, shorter, 0, |shorter|)
    ensures root == Stored(0)
  {
    assert Slope(ps[0].right) == [] && Slope(ps[0]) == [ps[0].left] + [] && ps[..0] == [];
    assert shorter == [ps[0].left];
    assert shorter[..0] == [];
  }

  lemma LonePair(ps: seq<Mountain>)
    requires Range(ps) && ps != [] && ps[|ps| - 1].Node? && |LeavesAll(ps)| <= 2
    ensures |ps| == 1 && ps[0].left.Leaf? && ps[0].right.Leaf? && |FlattenAll(ps)| == 3
  {
    if |ps| > 1 {
      ManyLeaves(ps);
    } else {
      LeavesNonEmpty(ps[0].left);
      LeavesNonEmpty(ps[0].right);
      assert ps == [ps[0]];
      LeavesOne(ps[0]);
      LevelsOf(ps);
    }
  }

  lemma PairLoaded(stored: Nodes, ps: seq<Mountain>)
    requires |ps| == 1 && ps[0].Node? && ps[0].left.Leaf? && ps[0].right.Leaf? && |FlattenAll(ps)| == 3
    requires WalkLoaded(stored, ps[0], 3) && 0 in stored
    ensures Deletable(stored, ps)
  {
    assert |Flatten(ps[0].right)| == 1 && |Flatten(ps[0])| == 3;
    assert SlopeLoaded(stored, ps[0].right, 2);
  }

  lemma DropPeaksHeld(stored: Nodes, ps: seq<Mountain>, shorter: seq<Mountain>)
    requires |ps| > 1 && ps[|ps| - 1].Leaf? && shorter == Pop(ps) && PeaksHeld(stored, ps)
    ensures shorter == ps[..|ps| - 1] && PeaksHeld(stored, shorter)
  {
    var n := |ps| - 1;
    assert shorter == ps[..n] && ps[..n] + [ps[n]] == ps;
    forall j | 0 <= j < n ensures PeakIndex(shorter, j) in stored {
      PeakIndexPrefix(shorter, [ps[n]], j);
    }
  }

  /** The last peak is a single leaf: dropping it leaves the other peaks under the root's left child. */
  lemma DropLeaf(stored: Nodes, generated: seq<Entry>, count: nat, root: EntryLink, ps: seq<Mountain>, left: EntryLink,
                 date: nat)
    requires View(stored, generated, count, root, ps, date) && |ps| > 1 && ps[|ps| - 1].Leaf?
    requires Spine(generated, left, ps, 0, |ps| - 1)
    ensures Ready(stored, generated, count, ps, 1, left, date) && Deletable(stored, ps)
  {
    hide Flatten, FlattenAll, Pop, Spine, Range, Dated, LeavesAll, Holds, PeaksHeld;
    ViewParts(stored, generated, count, root, ps, date);
    PopArray(ps);
    SpineShorter(generated, left, ps, Pop(ps));
    DropPeaksHeld(stored, ps, Pop(ps));
    ShorterView(stored, generated, ps, Pop(ps), count - 1, left, date);
    ViewRoot(Cut(stored, count - 1), generated, count - 1, left, Pop(ps), date);
  }

  // ---- What an append leaves loaded ----

  /** A carry goes on over loaded peaks and stores every node it makes: its whole slope is loaded. */
  lemma {:induction false} CarrySlope(stored: Nodes, ps: seq<Mountain>, t: Mountain, pos: nat)
    requires pos == |FlattenAll(ps)| + |Flatten(t)| && SlopeLoaded(stored, t, pos) && PeaksHeld(stored, ps)
    requires forall i :: pos <= i < |FlattenAll(Push(ps, t))| ==> i in stored
    ensures Deletable(stored, Push(ps, t))
    decreases |ps|
  {
    PushArray(ps, t);
    if ps != [] && Height(ps[|ps| - 1]) == Height(t) {
      var rest, p := ps[..|ps| - 1], ps[|ps| - 1];
      CarryLoaded(stored, ps, rest, p, t, pos);
      CarrySlope(stored, rest, Node(p, t), pos + 1);
    } else {
      FlattenSnoc(ps, t);
    }
  }

  lemma CarryLoaded(stored: Nodes, ps: seq<Mountain>, rest: seq<Mountain>, p: Mountain, t: Mountain, pos: nat)
    requires ps == rest + [p] && pos == |FlattenAll(ps)| + |Flatten(t)| && SlopeLoaded(stored, t, pos)
    requires PeaksHeld(stored, ps) && pos in stored
    ensures |FlattenAll(rest)| + |Flatten(Node(p, t))| == pos + 1
    ensures SlopeLoaded(stored, Node(p, t), pos + 1) && PeaksHeld(stored, rest)
  {
    FlattenSnoc(rest, p);
    LastPeakIndex(ps);
    forall j | 0 <= j < |rest| ensures PeakIndex(rest, j) in stored {
      PeakIndexPrefix(rest, [p], j);
    }
  }

  /** After an append the new last leaf can be deleted again, whatever was loaded before. */
  lemma AppendDeletable(before: Nodes, stored: Nodes, ps: seq<Mountain>, leaf: NodeData, lo: nat, hi: nat)
    requires PeaksHeld(before, ps) && lo == |FlattenAll(ps)| && hi == |FlattenAll(Push(ps, Leaf(leaf)))|
    requires Grown(before, stored, lo, hi)
    ensures Deletable(stored, Push(ps, Leaf(leaf)))
  {
    PushArray(ps, Leaf(leaf));
    forall j | 0 <= j < |ps| ensures PeakIndex(ps, j) in stored {
      PeakEnds(ps, j);
      assert PeakIndex(ps, j) in Cut(before, lo);
    }
    CarrySlope(stored, ps, Leaf(leaf), lo + 1);
  }

  lemma Appended(before: Nodes, oldGenerated: seq<Entry>, lo: nat, oldRoot: EntryLink, ps: seq<Mountain>, date: nat,
                 stored: Nodes, generated: seq<Entry>, hi: nat, root: EntryLink, leaf: NodeData)
    requires View(before, oldGenerated, lo, oldRoot, ps, date)
    requires View(stored, generated, hi, root, Push(ps, Leaf(leaf)), date)
    requires Grown(before, stored, lo, hi)
    ensures Cut(stored, lo) == before && Deletable(stored, Push(ps, Leaf(leaf)))
  {
    hide View, Push, LeavesAll, FlattenAll, Deletable;
    ViewParts(before, oldGenerated, lo, oldRoot, ps, date);
    ViewParts(stored, generated, hi, root, Push(ps, Leaf(leaf)), date);
    AppendDeletable(before, stored, ps, leaf, lo, hi);
    assert Cut(before, lo) == before;
  }
}
