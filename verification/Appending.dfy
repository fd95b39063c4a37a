/** What appending a leaf does to a view, step by step: the carry through the peaks and the new root. */
module Appending {
  import opened Mountains
  import opened MountainArray
  import opened MountainLayout
  import opened TreeView

  /** The block right after the last one, on the same consensus branch. */
  ghost predicate Follows(leaf: NodeData, leaves: seq<NodeData>, first: nat) {
    && leaves != [] && leaf.branchId == leaves[0].branchId
    && leaf.startHeight == leaf.endHeight == first + |leaves|
  }

  function NewLinks(lo: nat, hi: nat): (r: seq<EntryLink>)
    requires lo <= hi
    ensures |r| == hi - lo
  {
    seq(hi - lo, k requires 0 <= k < hi - lo => Stored(lo + k))
  }

  lemma NewLinksAre(lo: nat, hi: nat)
    requires lo <= hi
    ensures forall i :: 0 <= i < hi - lo ==> NewLinks(lo, hi)[i] == Stored(lo + i)
  {
  }

  lemma NewLinksSplit(lo: nat, mid: nat)
    requires lo <= mid
    ensures forall hi :: mid <= hi ==> NewLinks(lo, mid) + NewLinks(mid, hi) == NewLinks(lo, hi)
  {
  }

  lemma NewLinksSnoc(lo: nat, hi: nat)
    requires lo <= hi
    ensures NewLinks(lo, hi) + [Stored(hi)] == NewLinks(lo, hi + 1)
    ensures lo == hi ==> NewLinks(lo, hi + 1) == [Stored(hi)]
  {
  }

  /** Links of the peaks from `m` on, rightmost first: a stack with the leftmost on top. */
  function StackLinks(cur: seq<Mountain>, m: nat): seq<EntryLink>
    requires m <= |cur|
  {
    seq(|cur| - m, k requires 0 <= k < |cur| - m => Stored(PeakIndex(cur, |cur| - 1 - k)))
  }

  /** Adding the next array node keeps the store right. */
  lemma HoldsOneMore(stored: Nodes, arr: seq<Mountain>, t: Mountain)
    requires Holds(stored, arr) && Ends(arr + [t], t, |arr| + 1)
    ensures Holds(stored[|arr| := EntryFor(t, |arr|)], arr + [t])
  {
    hide Flatten, Data;
    forall i | i in stored ensures i < |arr| && Block(arr + [t], i) && (arr + [t])[i] == arr[i] {
      assert stored[i] == EntryFor(arr[i], i);
      EndsInPrefix(arr, [t], arr[i], i + 1);
    }
  }

  /** Appending the leaf node itself. */
  lemma PushLeafNode(stored: Nodes, peaks: seq<Mountain>, t: Mountain)
    requires Holds(stored, FlattenAll(peaks)) && PeaksHeld(stored, peaks) && t.Leaf?
    ensures FlattenAll(peaks + [t]) == FlattenAll(peaks) + [t]
    ensures var stored' := stored[|FlattenAll(peaks)| := Entry(LeafKind, t.leaf)];
            Holds(stored', FlattenAll(peaks + [t])) && PeaksHeld(stored', peaks + [t])
  {
    var arr := FlattenAll(peaks);
    Snoc(peaks, t);
    assert (arr + [t])[|arr|..] == [t];
    HoldsOneMore(stored, arr, t);
    forall j | 0 <= j < |peaks| + 1
      ensures PeakIndex(peaks + [t], j) in stored[|arr| := Entry(LeafKind, t.leaf)]
    {
      if j < |peaks| {
        PeakIndexPrefix(peaks, [t], j);
      } else {
        LastPeakIndex(peaks + [t]);
      }
    }
  }

  lemma StoreLeaf(stored: Nodes, count: nat, peaks: seq<Mountain>, first: nat, leaf: NodeData)
    requires Store(stored, count, peaks, first) && peaks != []
    requires Follows(leaf, LeavesAll(peaks), first)
    ensures Store(stored[count := Entry(LeafKind, leaf)], count + 1, peaks + [Leaf(leaf)], first)
  {
    PushLeafNode(stored, peaks, Leaf(leaf));
    Snoc(peaks, Leaf(leaf));
  }

  lemma StorePeakData(stored: Nodes, count: nat, peaks: seq<Mountain>, t: Mountain, first: nat)
    requires Store(stored, count, peaks + [t], first)
    ensures PeakData(stored, peaks)
  {
    forall j | 0 <= j < |peaks|
      ensures PeakIndex(peaks, j) in stored && stored[PeakIndex(peaks, j)].data == Data(peaks[j])
    {
      PeakIndexPrefix(peaks, [t], j);
      PeakEntry(stored, peaks + [t], j);
    }
  }

  /** Merging the last two mountains appends their parent to the array. */
  lemma MergeArray(rest: seq<Mountain>, p: Mountain, t: Mountain, n: Mountain, two: seq<Mountain>)
    requires n == Node(p, t) && two == rest + [p] + [t]
    ensures FlattenAll(rest + [n]) == FlattenAll(two) + [n]
  {
    FlattenSnoc(rest, p);
    FlattenSnoc(rest + [p], t);
    FlattenSnoc(rest, n);
    AssocFour(FlattenAll(rest), Flatten(p), Flatten(t), [n]);
  }

  lemma EndsLast(rest: seq<Mountain>, n: Mountain)
    ensures Ends(FlattenAll(rest + [n]), n, |FlattenAll(rest + [n])|)
  {
    hide Flatten, FlattenAll;
    var base, f := FlattenAll(rest), Flatten(n);
    FlattenSnoc(rest, n);
    assert (base + f)[|base|..|base| + |f|] == f;
  }

  lemma LastTwoIndices(rest: seq<Mountain>, p: Mountain, t: Mountain, two: seq<Mountain>)
    requires two == rest + [p] + [t]
    ensures PeakIndex(two, |rest|) == |FlattenAll(two)| - |Flatten(t)| - 1
    ensures PeakIndex(two, |rest| + 1) == |FlattenAll(two)| - 1
  {
    FlattenSnoc(rest, p);
    FlattenSnoc(rest + [p], t);
    assert two[..|rest|] == rest && two[|rest|] == p;
    assert two[..|rest| + 1] == rest + [p] && two[|rest| + 1] == t;
  }

  /** Storing a parent whose children end the array. */
  lemma StoreParent(stored: Nodes, arr: seq<Mountain>, n: Mountain, left: nat, right: nat, e: Entry)
    requires Holds(stored, arr) && n.Node? && Ends(arr + [n], n, |arr| + 1)
    requires left + |Flatten(n.right)| + 1 == |arr| && right + 1 == |arr|
    requires e == Entry(NodeKind(Stored(left), Stored(right)), Data(n))
    ensures Holds(stored[|arr| := e], arr + [n])
  {
    HoldsOneMore(stored, arr, n);
  }

  lemma MergeHolds(stored: Nodes, rest: seq<Mountain>, p: Mountain, t: Mountain, n: Mountain, two: seq<Mountain>,
                   arr: seq<Mountain>, e: Entry)
    requires two == rest + [p] + [t] && n == Node(p, t) && arr == FlattenAll(two) && Holds(stored, arr)
    requires e == Entry(NodeKind(Stored(PeakIndex(two, |rest|)), Stored(PeakIndex(two, |rest| + 1))), Data(n))
    ensures FlattenAll(rest + [n]) == arr + [n]
    ensures Holds(stored[|arr| := e], arr + [n])
  {
    MergeArray(rest, p, t, n, two);
    assert Ends(arr + [n], n, |arr| + 1) by { EndsLast(rest, n); }
    LastTwoIndices(rest, p, t, two);
    StoreParent(stored, arr, n, PeakIndex(two, |rest|), PeakIndex(two, |rest| + 1), e);
  }

  lemma MergePeaksHeld(stored: Nodes, rest: seq<Mountain>, p: Mountain, t: Mountain, n: Mountain, two: seq<Mountain>,
                       e: Entry)
    requires n == Node(p, t) && two == rest + [p] + [t] && PeaksHeld(stored, two)
    ensures PeaksHeld(stored[|FlattenAll(two)| := e], rest + [n])
  {
    MergeArray(rest, p, t, n, two);
    assert two == rest + ([p] + [t]);
    forall j | 0 <= j < |rest| + 1 ensures PeakIndex(rest + [n], j) in stored[|FlattenAll(two)| := e] {
      if j < |rest| {
        PeakIndexPrefix(rest, [n], j);
        PeakIndexPrefix(rest, [p] + [t], j);
      } else {
        LastPeakIndex(rest + [n]);
      }
    }
  }

  lemma MergeKeepsLeaves(rest: seq<Mountain>, p: Mountain, t: Mountain, two: seq<Mountain>)
    requires two == rest + [p] + [t]
    ensures LeavesAll(rest + [Node(p, t)]) == LeavesAll(two)
  {
    Snoc(rest, p);
    Snoc(rest + [p], t);
    Snoc(rest, Node(p, t));
    Assoc(LeavesAll(rest), Leaves(p), Leaves(t));
  }

  lemma MergePerfect(rest: seq<Mountain>, p: Mountain, t: Mountain, two: seq<Mountain>)
    requires two == rest + [p] + [t] && AllPerfect(two) && Height(p) == Height(t)
    ensures AllPerfect(rest + [Node(p, t)])
  {
    assert two[|rest|] == p && two[|rest| + 1] == t && forall j :: 0 <= j < |rest| ==> two[j] == rest[j];
  }

  lemma StoreMerge(stored: Nodes, count: nat, rest: seq<Mountain>, p: Mountain, t: Mountain, two: seq<Mountain>,
                   first: nat, e: Entry)
    requires two == rest + [p] + [t] && Store(stored, count, two, first) && Height(p) == Height(t)
    requires e == Entry(NodeKind(Stored(PeakIndex(two, |rest|)), Stored(PeakIndex(two, |rest| + 1))), Combine(Data(p), Data(t)))
    ensures Store(stored[count := e], count + 1, rest + [Node(p, t)], first)
  {
    var n := Node(p, t);
    MergeHolds(stored, rest, p, t, n, two, FlattenAll(two), e);
    MergePeaksHeld(stored, rest, p, t, n, two, e);
    MergeKeepsLeaves(rest, p, t, two);
    MergePerfect(rest, p, t, two);
  }

  /** Half-way through the merge loop, still carrying one mountain into the first `m` old peaks. */
  ghost predicate Carrying(before: seq<Mountain>, leaf: Mountain, m: nat, t: Mountain) {
    && m <= |before| && Perfect(t)
    && (m > 0 ==> Height(before[m - 1]) >= Height(t))
    && Push(before, leaf) == Push(before[..m], t)
  }

  /** The carry is over: the first `m` old peaks and the stack make up the new range. */
  ghost predicate Carried(before: seq<Mountain>, leaf: Mountain, m: nat, suf: seq<Mountain>) {
    m <= |before| && suf != [] && Push(before, leaf) == before[..m] + suf && Range(before[..m] + suf)
  }

  /** `suf` are the mountains on the stack, top first. */
  ghost predicate Merging(before: seq<Mountain>, leaf: Mountain, m: nat, suf: seq<Mountain>) {
    (|suf| == 1 && Carrying(before, leaf, m, suf[0])) || Carried(before, leaf, m, suf)
  }

  lemma CarryStarts(before: seq<Mountain>, t: Mountain)
    requires Range(before) && t.Leaf?
    ensures Carrying(before, t, |before|, t)
  {
    assert before[..|before|] == before;
  }

  lemma CarriedHeights(before: seq<Mountain>, leaf: Mountain, m: nat, suf: seq<Mountain>)
    requires Carried(before, leaf, m, suf) && m > 0
    ensures Height(before[m - 1]) > Height(suf[0])
  {
    var cur := before[..m] + suf;
    assert cur[m - 1] == before[m - 1] && cur[m] == suf[0];
  }

  /** Equal heights: only the carried mountain can meet its equal, and merging it goes on carrying. */
  lemma CarryOn(before: seq<Mountain>, leaf: Mountain, m: nat, suf: seq<Mountain>)
    requires Range(before) && Merging(before, leaf, m, suf) && m > 0
    requires Height(before[m - 1]) == Height(suf[0])
    ensures |suf| == 1 && Carrying(before, leaf, m - 1, Node(before[m - 1], suf[0]))
  {
    if Carried(before, leaf, m, suf) {
      CarriedHeights(before, leaf, m, suf);
    }
    assert before[..m][..m - 1] == before[..m - 1];
    assert before[..m][m - 1] == before[m - 1];
  }

  /** Nothing left to meet, or different heights: the carry is over. */
  lemma CarryStops(before: seq<Mountain>, leaf: Mountain, m: nat, suf: seq<Mountain>)
    requires Range(before) && Merging(before, leaf, m, suf)
    requires m > 0 ==> Height(before[m - 1]) != Height(suf[0])
    ensures Carried(before, leaf, m, suf)
    ensures m > 0 ==> Carried(before, leaf, m - 1, [before[m - 1]] + suf)
  {
    if |suf| == 1 && Carrying(before, leaf, m, suf[0]) {
      assert suf == [suf[0]];
      PushRange(before[..m], suf[0]);
    }
    if m > 0 {
      assert before[..m - 1] + ([before[m - 1]] + suf) == before[..m] + suf;
    }
  }

  lemma {:induction false} Pow2Injective(a: nat, b: nat)
    requires Pow2(a) == Pow2(b)
    ensures a == b
  {
    if a > 0 && b > 0 {
      Pow2Injective(a - 1, b - 1);
    }
  }

  ghost predicate Sized(t: Mountain) {
    1 <= Data(t).startHeight <= Data(t).endHeight
  }

  ghost predicate Comparable(a: Mountain, b: Mountain) {
    && Sized(a) && Sized(b) && Data(a).branchId == Data(b).branchId
    && (LeafCount(Data(a)) == LeafCount(Data(b)) <==> Height(a) == Height(b))
  }

  lemma SameCountSameHeight(cur: seq<Mountain>, i: nat, j: nat, date: nat)
    requires i < |cur| && j < |cur| && AllPerfect(cur) && Dated(LeavesAll(cur), date)
    ensures Comparable(cur[i], cur[j])
  {
    PeakLeafCount(cur, i, date);
    PeakLeafCount(cur, j, date);
    if Pow2(Height(cur[i])) == Pow2(Height(cur[j])) {
      Pow2Injective(Height(cur[i]), Height(cur[j]));
    }
  }

  /** A peak's place does not depend on what stands to its right. */
  lemma SamePlace(before: seq<Mountain>, m: nat, suf: seq<Mountain>)
    requires 0 < m <= |before|
    ensures PeakIndex(before[..m] + suf, m - 1) == PeakIndex(before, m - 1)
  {
    PeakIndexPrefix(before[..m], suf, m - 1);
    PeakIndexPrefix(before[..m], before[m..], m - 1);
    assert before[..m] + before[m..] == before;
  }

  /** Entries of the two mountains that meet. */
  lemma MeetingEntries(stored: Nodes, count: nat, before: seq<Mountain>, m: nat, suf: seq<Mountain>,
                       cur: seq<Mountain>, date: nat)
    requires 0 < m <= |before| && suf != [] && cur == before[..m] + suf && Store(stored, count, cur, date)
    ensures PeakIndex(cur, m - 1) in stored && stored[PeakIndex(cur, m - 1)].data == Data(before[m - 1])
    ensures PeakIndex(cur, m) in stored && stored[PeakIndex(cur, m)].data == Data(suf[0])
    ensures Comparable(before[m - 1], suf[0])
  {
    assert cur[m - 1] == before[m - 1] && cur[m] == suf[0];
    PeakEntry(stored, cur, m - 1);
    PeakEntry(stored, cur, m);
    SameCountSameHeight(cur, m - 1, m, date);
  }

  /** State of the merge loop: the first `m` old peaks are still on their stack, `suf` are on the
      merge stack, top first. */
  ghost predicate MergeLoop(stored: Nodes, count: nat, before: seq<Mountain>, t: Mountain, m: nat, suf: seq<Mountain>,
                            peakStack: seq<EntryLink>, mergeStack: seq<EntryLink>, date: nat) {
    && Range(before) && m <= |before| && suf != []
    && peakStack == PeakLinks(before, 0, m)
    && mergeStack == StackLinks(before[..m] + suf, m)
    && Store(stored, count, before[..m] + suf, date)
    && Merging(before, t, m, suf)
  }

  lemma LoopStart(stored: Nodes, count: nat, before: seq<Mountain>, t: Mountain, links: seq<EntryLink>, date: nat)
    requires Range(before) && before != [] && t.Leaf? && Store(stored, count, before + [t], date)
    requires links == PeakLinks(before, 0, |before|)
    ensures count >= 1 && MergeLoop(stored, count, before, t, |before|, [t], links, [Stored(count - 1)], date)
  {
    hide Flatten, FlattenAll, LeavesAll, Dated, Holds, PeaksHeld, AllPerfect, Height, Push, PeakIndex, Carrying,
         Carried;
    assert before[..|before|] == before;
    FlattenSnoc(before, t);
    StackLinksOne(before, t, count - 1);
    CarryStarts(before, t);
  }

  lemma LoopSizes(stored: Nodes, count: nat, before: seq<Mountain>, t: Mountain, m: nat, suf: seq<Mountain>,
                  peakStack: seq<EntryLink>, mergeStack: seq<EntryLink>, date: nat)
    requires MergeLoop(stored, count, before, t, m, suf, peakStack, mergeStack, date)
    ensures |peakStack| == m && mergeStack != []
  {
  }

  /** What one turn of the merge loop reads. */
  lemma LoopTop(stored: Nodes, count: nat, before: seq<Mountain>, t: Mountain, m: nat, suf: seq<Mountain>,
                peakStack: seq<EntryLink>, mergeStack: seq<EntryLink>, date: nat)
    requires MergeLoop(stored, count, before, t, m, suf, peakStack, mergeStack, date) && peakStack != []
    ensures m > 0 && |peakStack| == m && |mergeStack| == |suf|
    ensures var p, q := peakStack[m - 1], mergeStack[|suf| - 1];
            && p == Stored(PeakIndex(before[..m] + suf, m - 1)) && q == Stored(PeakIndex(before[..m] + suf, m))
            && p.index in stored && stored[p.index].data == Data(before[m - 1])
            && q.index in stored && stored[q.index].data == Data(suf[0])
    ensures Comparable(before[m - 1], suf[0])
  {
    SamePlace(before, m, suf);
    MeetingEntries(stored, count, before, m, suf, before[..m] + suf, date);
  }

  lemma PeakLinksPrefix(ps: seq<Mountain>, m: nat)
    requires 0 < m <= |ps|
    ensures PeakLinks(ps, 0, m)[..m - 1] == PeakLinks(ps, 0, m - 1)
  {
  }

  lemma StackLinksPush(cur: seq<Mountain>, m: nat)
    requires 0 < m < |cur|
    ensures StackLinks(cur, m)[..|cur| - m - 1] + [Stored(PeakIndex(cur, m))] == StackLinks(cur, m)
    ensures StackLinks(cur, m) + [Stored(PeakIndex(cur, m - 1))] == StackLinks(cur, m - 1)
  {
  }

  lemma StackLinksOne(rest: seq<Mountain>, n: Mountain, count: nat)
    requires |FlattenAll(rest + [n])| == count + 1
    ensures StackLinks(rest + [n], |rest|) == [Stored(count)]
  {
    LastPeakIndex(rest + [n]);
  }

  lemma SplitLastTwo<T>(s: seq<T>, m: nat, u: seq<T>)
    requires 0 < m <= |s| && |u| == 1
    ensures s[..m] + u == s[..m - 1] + [s[m - 1]] + [u[0]]
  {
  }

  /** Equal sizes: the parent is stored and carried on. */
  lemma MergeStep(stored: Nodes, count: nat, before: seq<Mountain>, t: Mountain, m: nat, suf: seq<Mountain>,
                  cur: seq<Mountain>,
                  n: Mountain, date: nat, e: Entry)
    requires Range(before) && 0 < m <= |before| && suf != [] && Merging(before, t, m, suf)
    requires cur == before[..m] + suf && Store(stored, count, cur, date) && Height(before[m - 1]) == Height(suf[0])
    requires n == Node(before[m - 1], suf[0])
    requires e == Entry(NodeKind(Stored(PeakIndex(cur, m - 1)), Stored(PeakIndex(cur, m))), Combine(Data(before[m - 1]), Data(suf[0])))
    ensures |suf| == 1 && Merging(before, t, m - 1, [n])
    ensures Store(stored[count := e], count + 1, before[..m - 1] + [n], date)
    ensures StackLinks(before[..m - 1] + [n], m - 1) == [Stored(count)]
  {
    CarryOn(before, t, m, suf);
    var rest, p := before[..m - 1], before[m - 1];
    SplitLastTwo(before, m, suf);
    StoreMerge(stored, count, rest, p, suf[0], cur, date, e);
    StackLinksOne(rest, n, count);
  }

  lemma LoopMerge(stored: Nodes, count: nat, before: seq<Mountain>, t: Mountain, m: nat, suf: seq<Mountain>,
                  peakStack: seq<EntryLink>, mergeStack: seq<EntryLink>, date: nat, p: EntryLink, q: EntryLink, e: Entry)
    requires 0 < m <= |before| && suf != []
    requires MergeLoop(stored, count, before, t, m, suf, peakStack + [p], mergeStack + [q], date)
    requires Height(before[m - 1]) == Height(suf[0])
    requires var cur := before[..m] + suf;
             e == Entry(NodeKind(Stored(PeakIndex(cur, m - 1)), Stored(PeakIndex(cur, m))), Combine(Data(before[m - 1]), Data(suf[0])))
    ensures MergeLoop(stored[count := e], count + 1, before, t, m - 1, [Node(before[m - 1], suf[0])],
                      peakStack, mergeStack + [Stored(count)], date)
  {
    MergeStep(stored, count, before, t, m, suf, before[..m] + suf, Node(before[m - 1], suf[0]), date, e);
    PeakLinksPrefix(before, m);
    Snoc(peakStack, p);
    assert |mergeStack + [q]| == 1;
    assert mergeStack == [];
  }

  /** Different sizes: both go back on the stack. */
  lemma LoopStack(stored: Nodes, count: nat, before: seq<Mountain>, t: Mountain, m: nat, suf: seq<Mountain>,
                  peakStack: seq<EntryLink>, mergeStack: seq<EntryLink>, date: nat, p: EntryLink, q: EntryLink)
    requires 0 < m <= |before| && suf != []
    requires MergeLoop(stored, count, before, t, m, suf, peakStack + [p], mergeStack + [q], date)
    requires Height(before[m - 1]) != Height(suf[0])
    ensures MergeLoop(stored, count, before, t, m - 1, [before[m - 1]] + suf, peakStack, mergeStack + [q] + [p], date)
  {
    var cur := before[..m] + suf;
    CarryStops(before, t, m, suf);
    assert before[..m - 1] + ([before[m - 1]] + suf) == cur;
    PeakLinksPrefix(before, m);
    Snoc(peakStack, p);
    StackLinksPush(cur, m);
    SamePlace(before, m, suf);
  }

  /** The merge loop is done: the stack holds the peaks of the new range, leftmost on top. */
  ghost predicate StackReady(stored: Nodes, count: nat, ps: seq<Mountain>, mergeStack: seq<EntryLink>, date: nat) {
    ps != [] && Range(ps) && Store(stored, count, ps, date) && mergeStack == StackLinks(ps, 0)
  }

  lemma LoopEnd(stored: Nodes, count: nat, before: seq<Mountain>, t: Mountain, m: nat, suf: seq<Mountain>,
                mergeStack: seq<EntryLink>, date: nat)
    requires MergeLoop(stored, count, before, t, m, suf, [], mergeStack, date)
    ensures Push(before, t) == suf && StackReady(stored, count, suf, mergeStack, date)
  {
    assert m == 0 by { assert |PeakLinks(before, 0, m)| == m; }
    CarryStops(before, t, 0, suf);
    assert before[..0] + suf == suf;
  }

  lemma BagStart(generated: seq<Entry>, stack: seq<EntryLink>, ps: seq<Mountain>)
    requires ps != [] && stack == StackLinks(ps, 0)
    ensures |stack| == |ps| && Spine(generated, stack[|stack| - 1], ps, 0, 1)
  {
  }

  lemma StackAt(stack: seq<EntryLink>, ps: seq<Mountain>, q: nat)
    requires q < |ps| && stack == StackLinks(ps, 0)
    ensures |stack| == |ps| && stack[|ps| - 1 - q] == Stored(PeakIndex(ps, q))
  {
  }
}
