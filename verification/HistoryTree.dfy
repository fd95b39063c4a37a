/** The chain-history tree: a view into the array that appends and truncates single leaves. */
module HistoryTree {
  import opened Options
  import opened Mountains
  import opened MountainArray
  import opened MountainLayout
  import opened TreeView
  import opened Appending
  import opened Truncating
  import opened Loading
  import opened HistoryRoot

  class Tree {
    var stored: Nodes
    var generated: seq<Entry>
    var storedCount: nat
    var root: EntryLink
    ghost var peaks: seq<Mountain>
    ghost var first: nat

    ghost predicate Valid()
      reads this
    {
      View(stored, generated, storedCount, root, peaks, first)
    }

    /** A view into the array of the range `ps`, given its peaks in order and any extra nodes. */
    constructor (length: nat, peakNodes: seq<(nat, Entry)>, extra: seq<(nat, Entry)>, ghost ps: seq<Mountain>,
                 ghost date: nat)
      requires ps != [] && Range(ps) && Dated(LeavesAll(ps), date) && length == |FlattenAll(ps)|
      requires PeaksGiven(peakNodes, ps) && AllLoaded(extra, FlattenAll(ps))
      ensures Valid() && peaks == ps && first == date && storedCount == length
      ensures stored == WithAll(WithAll(map[], peakNodes), extra)
    {
      hide Range, Dated, LeavesAll, FlattenAll, View, Spine, PeaksGiven, AllLoaded, Filling, PeakIndex, WithAll,
           Combine;
      FillStart(peakNodes, ps, date);
      stored, generated, storedCount, root := map[], [], length, Stored(peakNodes[0].0);
      peaks, first := ps, date;
      new;
      var gen := 0;
      while gen < |peakNodes|
        invariant gen <= |peakNodes| == |ps| && stored == WithAll(map[], peakNodes[..gen])
        invariant Filling(stored, generated, root, ps, gen, date)
        invariant peaks == ps && first == date && storedCount == length
      {
        var (idx, node) := peakNodes[gen];
        FillTurn(stored, generated, root, peakNodes, ps, gen, date);
        WithAllSnoc(map[], peakNodes, gen);
        stored := stored[idx := node];
        if gen != 0 {
          var next := CombineNodes(root, Stored(idx));
          root := Generated(|generated|);
          generated := generated + [next];
        }
        gen := gen + 1;
      }
      FillEnd(stored, generated, length, root, peakNodes, ps, date);
      var k := 0;
      WithAllSnoc(stored, extra, 0);
      ghost var filled := stored;
      while k < |extra|
        invariant k <= |extra| && stored == WithAll(filled, extra[..k])
        invariant Valid() && peaks == ps && first == date && storedCount == length
      {
        ExtraTurn(stored, generated, length, root, ps, date, extra, k);
        WithAllSnoc(filled, extra, k);
        stored := stored[extra[k].0 := extra[k].1];
        k := k + 1;
      }
      assert extra[..k] == extra && peakNodes[..gen] == peakNodes;
    }

    function Resolve(link: EntryLink): Result<Entry>
      reads this
    {
      Fetch(stored, generated, link)
    }

    /** The root entry of a valid view summarises all its blocks. */
    method RootNode() returns (e: Entry)
      requires Valid()
      ensures Resolve(root) == Ok(e) && peaks != [] && e.data == RootData(peaks) && Summarises(e.data, LeavesAll(peaks))
      ensures var n := |peaks| - 1;
              if n > 0 then e.data.commitment == ChildrenHash(RootData(peaks[..n]), Data(peaks[n]))
              else peaks[0].Node? ==> e.data.commitment == ChildrenHash(Data(peaks[0].left), Data(peaks[0].right))
    {
      RootIs(stored, generated, storedCount, root, peaks, first);
      RootHashesChildren(peaks);
      hide *;
      e := Resolve(root).value;
    }

    /** Collects the complete subtrees under `link`, left to right. In a valid view no link on the way
        is missing, so the walk cannot fail. */
    method GetPeaks(link: EntryLink, target: seq<EntryLink>, ghost ps: seq<Mountain>, ghost lo: nat, ghost hi: nat,
                    ghost date: nat)
      returns (links: seq<EntryLink>)
      requires Range(ps) && Dated(LeavesAll(ps), date) && lo < hi <= |ps| && (hi - lo > 1 ==> lo == 0)
      requires Spine(generated, link, ps, lo, hi) && PeakData(stored, ps)
      ensures links == target + PeakLinks(ps, lo, hi)
      decreases hi - lo
    {
      hide Range, Dated, PeakData, Complete, PeakLinks, LeavesAll;
      SpineNode(stored, generated, link, ps, lo, hi, date);
      PeakLinksSplit(ps, lo, hi, target);
      var node := Resolve(link).value;
      if Complete(node.data) {
        return target + [link];
      }
      links := GetPeaks(node.kind.left, target, ps, lo, hi - 1, date);
      links := GetPeaks(node.kind.right, links, ps, hi - 1, hi, date);
    }

    /** The parent of two nodes; combining asserts that they are on one consensus branch. */
    function CombineNodes(left: EntryLink, right: EntryLink): Entry
      requires Resolve(left).Ok? && Resolve(right).Ok?
      requires Resolve(left).value.data.branchId == Resolve(right).value.data.branchId
      reads this
    {
      Entry(NodeKind(left, right), Combine(Resolve(left).value.data, Resolve(right).value.data))
    }

    /** The parent of two neighbouring subtrees, if they have equally many leaves. */
    method CombineEqual(left: EntryLink, right: EntryLink) returns (merged: bool, parent: Entry)
      requires Resolve(left).Ok? && Resolve(right).Ok?
      requires var l, r := Resolve(left).value.data, Resolve(right).value.data;
               && 1 <= l.startHeight <= l.endHeight && 1 <= r.startHeight <= r.endHeight && l.branchId == r.branchId
      ensures var l, r := Resolve(left).value.data, Resolve(right).value.data;
              merged == (LeafCount(l) == LeafCount(r)) && parent == Entry(NodeKind(left, right), Combine(l, r))
    {
      var l, r := Resolve(left).value.data, Resolve(right).value.data;
      merged, parent := LeafCount(l) == LeafCount(r), CombineNodes(left, right);
    }

    /** Persists a node at the end of the array. */
    method PushNode(e: Entry) returns (link: EntryLink)
      modifies this`stored, this`storedCount
      ensures stored == old(stored)[old(storedCount) := e] && storedCount == old(storedCount) + 1
      ensures link == Stored(old(storedCount)) && Grown(old(stored), stored, old(storedCount), storedCount)
    {
      link := Stored(storedCount);
      stored, storedCount := stored[storedCount := e], storedCount + 1;
    }

    /** One turn of the merge loop: the next peak meets the top of the merge stack; equal sizes merge,
        otherwise both go back. Returns the nodes to persist. */
    method MergeTurn(nextPeak: EntryLink, nextMerge: EntryLink, peakStack: seq<EntryLink>, stack: seq<EntryLink>,
                     ghost before: seq<Mountain>, ghost t: Mountain, ghost m: nat, ghost suf: seq<Mountain>, ghost date: nat)
      returns (mergeStack: seq<EntryLink>, appended: seq<EntryLink>, ghost suf': seq<Mountain>)
      requires MergeLoop(stored, storedCount, before, t, m, suf, peakStack + [nextPeak], stack + [nextMerge], date)
      modifies this`stored, this`storedCount
      ensures m > 0 && MergeLoop(stored, storedCount, before, t, m - 1, suf', peakStack, mergeStack, date)
      ensures old(storedCount) <= storedCount && appended == NewLinks(old(storedCount), storedCount)
      ensures Grown(old(stored), stored, old(storedCount), storedCount)
    {
      LoopTop(stored, storedCount, before, t, m, suf, peakStack + [nextPeak], stack + [nextMerge], date);
      var merged, parent := CombineEqual(nextPeak, nextMerge);
      NewLinksSnoc(storedCount, storedCount);
      if merged {
        LoopMerge(stored, storedCount, before, t, m, suf, peakStack, stack, date, nextPeak, nextMerge, parent);
        var link := PushNode(parent);
        mergeStack, appended, suf' := stack + [link], [link], [Node(before[m - 1], suf[0])];
      } else {
        LoopStack(stored, storedCount, before, t, m, suf, peakStack, stack, date, nextPeak, nextMerge);
        mergeStack, appended, suf' := stack + [nextMerge] + [nextPeak], [], [before[m - 1]] + suf;
      }
    }

    /** Scans the peaks right to left and merges equal-sized neighbours; `mergeStack` ends up holding
        the new peaks, leftmost on top. */
    method MergePeaks(links: seq<EntryLink>, newLeafLink: EntryLink, ghost before: seq<Mountain>, ghost t: Mountain,
                      ghost date: nat, ghost start: nat)
      returns (mergeStack: seq<EntryLink>, appended: seq<EntryLink>)
      requires MergeLoop(stored, storedCount, before, t, |before|, [t], links, [newLeafLink], date)
      requires storedCount == start + 1 && newLeafLink == Stored(start)
      modifies this`stored, this`storedCount
      ensures StackReady(stored, storedCount, Push(before, t), mergeStack, date)
      ensures start < storedCount && appended == NewLinks(start, storedCount)
      ensures Grown(old(stored), stored, old(storedCount), storedCount)
    {
      var peakStack := links;
      mergeStack, appended := [newLeafLink], [newLeafLink];
      ghost var m: nat, suf := |before|, [t];
      NewLinksSnoc(start, start);
      while peakStack != []
        invariant MergeLoop(stored, storedCount, before, t, m, suf, peakStack, mergeStack, date)
        invariant start < storedCount && appended == NewLinks(start, storedCount)
        invariant old(storedCount) <= storedCount && Grown(old(stored), stored, old(storedCount), storedCount)
        decreases m
      {
        LoopSizes(stored, storedCount, before, t, m, suf, peakStack, mergeStack, date);
        Unsnoc(peakStack);
        Unsnoc(mergeStack);
        NewLinksSplit(start, storedCount);
        var nextPeak, nextMerge := peakStack[|peakStack| - 1], mergeStack[|mergeStack| - 1];
        peakStack := peakStack[..|peakStack| - 1];
        mergeStack := mergeStack[..|mergeStack| - 1];
        var added;
        ghost var earlier, mid := stored, storedCount;
        mergeStack, added, suf := MergeTurn(nextPeak, nextMerge, peakStack, mergeStack, before, t, m, suf, date);
        GrownTwice(old(stored), earlier, stored, old(storedCount), mid, storedCount);
        appended := appended + added;
        m := m - 1;
      }
      LoopEnd(stored, storedCount, before, t, m, suf, mergeStack, date);
    }

    /** Connects the peaks left to right by generated nodes, popping the stack from its top. */
    method Bag(stack: seq<EntryLink>, ghost ps: seq<Mountain>, ghost date: nat) returns (newRoot: EntryLink)
      requires ps != [] && stack == StackLinks(ps, 0)
      requires Store(stored, storedCount, ps, date)
      modifies this`generated
      ensures Spine(generated, newRoot, ps, 0, |ps|)
    {
      hide Spine, Store, Combine, StackLinks, PeakIndex, FlattenAll, LeavesAll, Holds, AllPerfect, Dated;
      BagStart(generated, stack, ps);
      StoreParts(stored, storedCount, ps, date);
      var top := |stack| - 1;
      newRoot := stack[top];
      while top > 0
        invariant 0 <= top < |ps| && Spine(generated, newRoot, ps, 0, |ps| - top)
      {
        ghost var q := |ps| - top;
        top := top - 1;
        var nextChild := stack[top];
        StackAt(stack, ps, q);
        BagTurn(stored, generated, newRoot, nextChild, ps, q, date);
        var e := CombineNodes(newRoot, nextChild);
        newRoot := Generated(|generated|);
        generated := generated + [e];
      }
    }

    /** Stores the new leaf and collects the old peaks. */
    method StartAppend(leaf: NodeData) returns (link: EntryLink, links: seq<EntryLink>)
      requires Valid() && Follows(leaf, LeavesAll(peaks), first)
      modifies this`stored, this`storedCount
      ensures storedCount == old(storedCount) + 1 && link == Stored(old(storedCount))
      ensures Grown(old(stored), stored, old(storedCount), storedCount)
      ensures MergeLoop(stored, storedCount, peaks, Leaf(leaf), |peaks|, [Leaf(leaf)], links, [link], first)
    {
      hide FlattenAll, LeavesAll, Holds, PeaksHeld, Dated, MergeLoop, Grown;
      ViewStore(stored, generated, storedCount, root, peaks, first);
      StoreLeaf(stored, storedCount, peaks, first, leaf);
      link := PushNode(Entry(LeafKind, leaf));
      StorePeakData(stored, storedCount, peaks, Leaf(leaf), first);
      links := GetPeaks(root, [], peaks, 0, |peaks|, first);
      assert [] + PeakLinks(peaks, 0, |peaks|) == PeakLinks(peaks, 0, |peaks|);
      LoopStart(stored, storedCount, peaks, Leaf(leaf), links, first);
    }

    /** Bags the merged peaks and makes the result the new root. */
    method FinishAppend(mergeStack: seq<EntryLink>, ghost ps: seq<Mountain>)
      requires StackReady(stored, storedCount, ps, mergeStack, first)
      modifies this`generated, this`root, this`peaks
      ensures peaks == ps && Valid()
    {
      root := Bag(mergeStack, ps, first);
      peaks := ps;
      StoreView(stored, generated, storedCount, root, ps, first);
    }

    /** Appends one leaf; returns links to the nodes to persist, which are exactly the new end of the
        array: the leaf and one node per merge. */
    method AppendLeaf(leaf: NodeData) returns (appended: seq<EntryLink>)
      requires Valid() && Follows(leaf, LeavesAll(peaks), first)
      modifies this
      ensures Valid() && first == old(first)
      ensures peaks == Push(old(peaks), Leaf(leaf))
      ensures old(storedCount) < storedCount && |appended| == storedCount - old(storedCount)
      ensures forall i :: 0 <= i < |appended| ==> appended[i] == Stored(old(storedCount) + i)
      ensures Cut(stored, old(storedCount)) == old(stored) && Deletable(stored, peaks)
    {
      hide View, Push, LeavesAll, MergeLoop, StackReady, Grown, Deletable, NewLinks;
      var link, links := StartAppend(leaf);
      ghost var earlier, mid := stored, storedCount;
      var mergeStack;
      mergeStack, appended := MergePeaks(links, link, peaks, Leaf(leaf), first, old(storedCount));
      NewLinksAre(old(storedCount), storedCount);
      GrownTwice(old(stored), earlier, stored, old(storedCount), mid, storedCount);
      FinishAppend(mergeStack, Push(peaks, Leaf(leaf)));
      Appended(old(stored), old(generated), old(storedCount), old(root), old(peaks), first,
               stored, generated, storedCount, root, leaf);
    }

    /** Removes the last `k` array nodes. */
    method PopNodes(k: nat)
      requires k <= storedCount && forall i :: i in stored ==> i < storedCount
      modifies this`stored, this`storedCount
      ensures storedCount == old(storedCount) - k && stored == Cut(old(stored), storedCount)
    {
      var done := 0;
      while done < k
        invariant done <= k && storedCount == old(storedCount) - done
        invariant stored == Cut(old(stored), storedCount)
      {
        stored := stored - {storedCount - 1};
        storedCount := storedCount - 1;
        done := done + 1;
      }
    }

    /** Bags what is left after a deletion. Fails where a peak is not loaded; generated nodes it has
        added by then stay behind. */
    method Rebag(links: seq<EntryLink>, ghost shorter: seq<Mountain>, ghost base: nat, ghost date: nat)
      returns (newRoot: EntryLink, missing: bool, at: EntryLink, ghost j: nat)
      requires LinksFor(stored, links, shorter, base, date)
      requires 1 <= base <= |shorter| && |links| == |shorter| - base + 1
      requires Spine(generated, links[0], shorter, 0, base)
      modifies this`generated
      ensures old(generated) <= generated
      ensures missing ==> Missing(stored, shorter, j) && Resolve(at).Err?
      ensures !missing ==> Spine(generated, newRoot, shorter, 0, |shorter|)
      ensures !missing && |links| > 1 ==> LinksLoaded(stored, links)
      ensures |links| == 1 ==> !missing
    {
      hide Spine, LinksFor, Missing;
      newRoot, missing, at, j := links[0], false, links[0], 0;
      var k := 1;
      while k < |links|
        invariant 1 <= k <= |links| && old(generated) <= generated
        invariant Spine(generated, newRoot, shorter, 0, base + k - 1)
        invariant k == 1 ==> newRoot == links[0]
        invariant k > 1 ==> forall i {:trigger links[i]} :: 0 <= i < k && links[i].Stored? ==> links[i].index in stored
      {
        RebagTurn(stored, generated, links, shorter, base, date, k, newRoot, base + k - 1);
        if Resolve(newRoot).Err? {
          missing, at, j := true, newRoot, 0;
          return;
        }
        if Resolve(links[k]).Err? {
          missing, at, j := true, links[k], base + k - 1;
          return;
        }
        var e := CombineNodes(newRoot, links[k]);
        newRoot := Generated(|generated|);
        generated := generated + [e];
        k := k + 1;
      }
    }

    /** The last peak is an inner node: its slope becomes peaks, bagged anew. */
    method RebuildSlope(node: Entry) returns (r: Result<(nat, EntryLink)>)
      requires Valid() && peaks != [] && Resolve(root) == Ok(node) && peaks[|peaks| - 1].Node?
      modifies this`generated
      ensures r.Err? ==>
        Valid() && !Deletable(stored, peaks) && r.error.ExpectedInMemory? && Resolve(r.error.link).Err?
      ensures r.Ok? && |LeavesAll(peaks)| > 2 ==> Deletable(stored, peaks)
      ensures |LeavesAll(peaks)| == 2 ==> storedCount >= 2 && (r.Ok? <==> storedCount - 2 in stored)
      ensures r.Ok? ==> Ready(stored, generated, storedCount, peaks, r.value.0, r.value.1, first)
    {
      hide View, Pop, FlattenAll, LeavesAll, Height, Complete, Combine, Spine, LinksFor, Descending, PlanFor, Ready,
           Deletable, Missing,
           NotLoaded, WalkLoaded, LinksLoaded, Decides, Range, Dated, Holds, PeaksHeld;
      ghost var top, from, all, base := MakePlan(stored, generated, storedCount, root, peaks, first, node);
      ghost var shorter := Pop(peaks);
      PlanFacts(stored, generated, peaks, shorter, first, node, top, from, all, base);
      ViewParts(stored, generated, storedCount, root, peaks, first);
      var links, truncated, missing, at := Descend(node.kind.right, node.kind.left, FlattenAll(peaks), top, from, all);
      if missing {
        DecidesStop(stored, peaks, top, from, all);
        return Err(ExpectedInMemory(at));
      }
      if Complete(node.data) {
        truncated := truncated + 1;
      }
      var newRoot;
      ghost var j;
      newRoot, missing, at, j := Rebag(links, shorter, base, first);
      if missing {
        DecidesPair(stored, peaks, top, from, all);
        StillView(stored, old(generated), generated, storedCount, root, peaks, first, j);
        return Err(ExpectedInMemory(at));
      }
      DecidesDone(stored, peaks, top, from, all);
      CutBack(stored, generated, storedCount, peaks, shorter, truncated, newRoot, first);
      r := Ok((truncated, newRoot));
    }

    /** Drops the last `k` nodes and moves to the new root. */
    method MoveTo(k: nat, newRoot: EntryLink)
      requires Ready(stored, generated, storedCount, peaks, k, newRoot, first)
      modifies this
      ensures first == old(first) && Shortened(old(peaks), peaks, old(storedCount), storedCount, k)
      ensures stored == Cut(old(stored), storedCount)
      ensures Valid() <==> Deletable(old(stored), old(peaks))
      ensures Resolve(root).Ok? <==> Deletable(old(stored), old(peaks))
    {
      PopNodes(k);
      root, peaks := newRoot, Pop(peaks);
    }

    /** Removes the last leaf; returns how many nodes leave the end of the array. Works whenever there is
        a second leaf and the slope under an inner last peak is loaded; a failed call changes nothing but
        generated nodes that no link leads to. */
    method TruncateLeaf() returns (r: Result<nat>)
      requires Valid()
      modifies this
      ensures |LeavesAll(old(peaks))| == 1 ==> r == Err(ExpectedNode(None))
      ensures |LeavesAll(old(peaks))| > 1 && Deletable(old(stored), old(peaks)) ==> r.Ok? && Valid()
      ensures |LeavesAll(old(peaks))| == 2 ==> old(storedCount) >= 2 && (r.Ok? <==> old(storedCount) - 2 in old(stored))
      ensures |LeavesAll(old(peaks))| > 2 ==> (r.Ok? <==> Deletable(old(stored), old(peaks)))
      ensures r.Ok? ==> (Valid() <==> Deletable(old(stored), old(peaks)))
      ensures r.Ok? ==> (Resolve(root).Ok? <==> Deletable(old(stored), old(peaks)))
      ensures |LeavesAll(old(peaks))| > 1 && r.Err? ==> r.error.ExpectedInMemory? && Resolve(r.error.link).Err?
      ensures r.Ok? ==> first == old(first) && Shortened(old(peaks), peaks, old(storedCount), storedCount, r.value)
      ensures r.Ok? ==> stored == Cut(old(stored), storedCount)
      ensures r.Err? ==> && Valid() && first == old(first) && peaks == old(peaks)
                         && stored == old(stored) && storedCount == old(storedCount) && root == old(root)
    {
      hide View, LeavesAll, Spine, Ready, Deletable, Shortened;
      RootCases(stored, generated, storedCount, root, peaks, first);
      var node := Resolve(root).value;
      if node.kind.LeafKind? {
        return Err(ExpectedNode(None));
      }
      if LeafCount(node.data) % 2 == 1 {
        DropLeaf(stored, generated, storedCount, root, peaks, node.kind.left, first);
        MoveTo(1, node.kind.left);
        return Ok(1);
      }
      var plan := RebuildSlope(node);
      if plan.Err? {
        return Err(plan.error);
      }
      MoveTo(plan.value.0, plan.value.1);
      r := Ok(plan.value.0);
    }

    /** Walks down the right slope and collects the left siblings. Fails where a node is not loaded. */
    method Descend(start: EntryLink, leftmost: EntryLink, ghost arr: seq<Mountain>, ghost top: Mountain,
                   ghost from: nat, ghost all: seq<EntryLink>)
      returns (links: seq<EntryLink>, truncated: nat, missing: bool, at: EntryLink)
      requires Descending(stored, arr, top, from, top, from, [leftmost], all)
      requires from >= 1 && start == Stored(from - 1)
      ensures missing ==> NotLoaded(stored, top, from) && Resolve(at).Err?
      ensures !missing ==> links == all && truncated == |all| && WalkLoaded(stored, top, from)
    {
      hide Descending, NotLoaded, WalkLoaded;
      links, truncated, missing, at := [leftmost], 1, false, start;
      ghost var t, pos := top, from;
      while true
        invariant Descending(stored, arr, top, from, t, pos, links, all)
        invariant pos >= 1 && at == Stored(pos - 1) && truncated == |links|
        decreases t
      {
        var node := Resolve(at);
        if node.Err? {
          DescendStops(stored, arr, top, from, t, pos, links, all);
          missing := true;
          return;
        }
        DescendTurn(stored, arr, top, from, t, pos, links, all);
        match node.value.kind
        case LeafKind =>
          return;
        case NodeKind(left, right) =>
          links := links + [left];
          truncated := truncated + 1;
          t, pos, at := t.right, pos - 1, right;
      }
    }
  }

  lemma RootIs(stored: Nodes, generated: seq<Entry>, count: nat, root: EntryLink, ps: seq<Mountain>, date: nat)
    requires View(stored, generated, count, root, ps, date)
    ensures ps != [] && Summarises(RootData(ps), LeavesAll(ps))
    ensures var r := Fetch(stored, generated, root); r.Ok? && r.value.data == RootData(ps)
  {
    hide Summarises, LeavesAll;
    SpineData(stored, generated, root, ps, 0, |ps|);
    assert ps[0..|ps|] == ps;
    RootSummarises(ps);
  }

  /** Loads a tree from the array of a range. One deletion is then possible at once. */
  method PrepareTree(vec: seq<NodeData>, ghost ps: seq<Mountain>, ghost date: nat) returns (tree: Tree)
    requires 1 <= |vec| && |vec| + 1 < 0x1_0000_0000
    requires ps != [] && Range(ps) && Dated(LeavesAll(ps), date) && vec == Datas(FlattenAll(ps))
    ensures fresh(tree) && tree.Valid() && tree.peaks == ps && tree.first == date && tree.storedCount == |vec|
    ensures Deletable(tree.stored, tree.peaks)
  {
    var nodes, extra := DraftNodes(vec);
    LoaderFits(vec, ps, FlattenAll(ps), nodes, extra);
    hide *;
    tree := new Tree(|vec|, nodes, extra, ps, date);
    LoadedDeletable(ps, nodes, extra, tree.stored);
  }

  /** Blocks that can be appended one after the other. */
  ghost predicate Continue(more: seq<NodeData>, leaves: seq<NodeData>, first: nat) {
    more != [] ==> Follows(more[0], leaves, first) && Continue(more[1..], leaves + [more[0]], first)
  }

  /** Appending any number of leaves and truncating as many brings back the same tree. */
  method ThereAndBack(tree: Tree, more: seq<NodeData>)
    requires tree.Valid() && Continue(more, LeavesAll(tree.peaks), tree.first)
    modifies tree
    ensures tree.Valid() && tree.peaks == old(tree.peaks) && tree.first == old(tree.first)
    ensures tree.stored == old(tree.stored) && tree.storedCount == old(tree.storedCount)
    decreases |more|
  {
    if more == [] {
      return;
    }
    hide View, Push, Pop, LeavesAll, Deletable, NewLinks, Cut, FlattenAll;
    ViewParts(tree.stored, tree.generated, tree.storedCount, tree.root, tree.peaks, tree.first);
    var _ := tree.AppendLeaf(more[0]);
    LeafPushed(old(tree.peaks), more[0]);
    ThereAndBack(tree, more[1..]);
    var _ := tree.TruncateLeaf();
    ViewParts(tree.stored, tree.generated, tree.storedCount, tree.root, tree.peaks, tree.first);
  }

  lemma LeafPushed(ps: seq<Mountain>, leaf: NodeData)
    ensures LeavesAll(Push(ps, Leaf(leaf))) == LeavesAll(ps) + [leaf]
    ensures Push(ps, Leaf(leaf)) != [] && Pop(Push(ps, Leaf(leaf))) == ps
  {
    PushLeaves(ps, Leaf(leaf));
    PopAfterPush(ps, Leaf(leaf));
    assert ps + [] == ps;
  }

  // ---- The one deletion that leaves a broken view ----

  /** Two leaves, of which only the right one and the parent are loaded: the deletion succeeds and makes
      the left leaf the root, which is not there. */
  method PairWithoutFirst(a: NodeData, b: NodeData) returns (tree: Tree, r: Result<nat>)
    requires Dated([a, b], a.startHeight)
    ensures fresh(tree) && r == Ok(2) && tree.peaks == [Leaf(a)] && tree.Resolve(tree.root).Err? && !tree.Valid()
  {
    ghost var ps := [Node(Leaf(a), Leaf(b))];
    var peak, extra := (2, Entry(NodeKind(Stored(0), Stored(1)), Combine(a, b))), (1, Entry(LeafKind, b));
    PairGiven(a, b, ps, peak, extra);
    PairStored(a, b, ps, peak, extra);
    hide View, Range, Dated, PeaksGiven, AllLoaded, WithAll, Deletable, FlattenAll, LeavesAll, Pop;
    tree := new Tree(3, [peak], [extra], ps, a.startHeight);
    r := tree.TruncateLeaf();
  }

  lemma PairLayout(a: NodeData, b: NodeData, ps: seq<Mountain>)
    requires ps == [Node(Leaf(a), Leaf(b))]
    ensures Range(ps) && Height(ps[0]) == 1 && Pop(ps) == [Leaf(a)] && Data(ps[0]) == Combine(a, b)
    ensures LeavesAll(ps) == [a, b] && FlattenAll(ps) == Flatten(ps[0]) == [Leaf(a), Leaf(b), ps[0]]
    ensures |Flatten(ps[0].right)| == 1 && Flatten(Leaf(b)) == [Leaf(b)]
  {
    LeavesOne(ps[0]);
    assert Slope(ps[0].right) == [] && Slope(ps[0]) == [Leaf(a)] + [] && ps[..0] == [];
  }

  lemma PairGiven(a: NodeData, b: NodeData, ps: seq<Mountain>, peak: (nat, Entry), extra: (nat, Entry))
    requires ps == [Node(Leaf(a), Leaf(b))] && extra == (1, Entry(LeafKind, b))
    requires peak == (2, Entry(NodeKind(Stored(0), Stored(1)), Combine(a, b)))
    ensures Range(ps) && Height(ps[0]) == 1 && Pop(ps) == [Leaf(a)] && LeavesAll(ps) == [a, b] && |FlattenAll(ps)| == 3
    ensures PeaksGiven([peak], ps) && AllLoaded([extra], FlattenAll(ps))
  {
    PairLayout(a, b, ps);
    LastPeakIndex(ps);
    hide Flatten, FlattenAll, LeavesAll, Pop, Data, Range, Height, PeakIndex;
    var arr := FlattenAll(ps);
    assert Block(arr, 2) by { assert arr[0..3] == arr; }
    assert Block(arr, 1) by { assert arr[1..2] == [Leaf(b)]; }
  }

  lemma WithOne(stored: Nodes, e: (nat, Entry))
    ensures WithAll(stored, [e]) == stored[e.0 := e.1]
  {
    assert [e][..0] == [];
  }

  lemma PairStored(a: NodeData, b: NodeData, ps: seq<Mountain>, peak: (nat, Entry), extra: (nat, Entry))
    requires ps == [Node(Leaf(a), Leaf(b))] && peak.0 == 2 && extra.0 == 1
    ensures var stored := WithAll(WithAll(map[], [peak]), [extra]); 1 in stored && !Deletable(stored, ps)
  {
    PairLayout(a, b, ps);
    WithOne(map[], peak);
    WithOne(map[peak.0 := peak.1], extra);
    hide Flatten, FlattenAll, LeavesAll, Pop, Data, Range, Height, WithAll;
  }
}
