/** What a partially loaded tree must hold to stand for a mountain range, as facts about values. */
module TreeView {
  import opened Options
  import opened Mountains
  import opened MountainArray
  import opened MountainLayout

  // ---- Counting leaves by block height ----

  /** Leaves of consecutive block heights and one consensus branch, the first at height `first`. */
  ghost predicate Dated(leaves: seq<NodeData>, first: nat) {
    first >= 1 && forall i :: 0 <= i < |leaves| ==>
      && leaves[i].startHeight == leaves[i].endHeight == first + i
      && leaves[i].branchId == leaves[0].branchId
  }

  function LeafCount(d: NodeData): nat
    requires 1 <= d.startHeight <= d.endHeight
  {
    d.endHeight - (d.startHeight - 1)
  }

  /** Bitwise and of two machine words. */
  function BitAnd(a: nat, b: nat): nat {
    if a == 0 || b == 0 then 0 else 2 * BitAnd(a / 2, b / 2) + (if a % 2 == 1 && b % 2 == 1 then 1 else 0)
  }

  predicate Complete(d: NodeData)
    requires 1 <= d.startHeight <= d.endHeight
  {
    BitAnd(LeafCount(d), LeafCount(d) - 1) == 0
  }

  lemma {:induction false} AndSelf(n: nat)
    ensures BitAnd(n, n) == n
  {
    if n > 0 {
      AndSelf(n / 2);
    }
  }

  /** The bit trick recognises exactly the numbers with a single set bit. */
  lemma {:induction false} AndPredecessor(n: nat)
    requires n >= 1
    ensures BitAnd(n, n - 1) == 0 <==> Popcount(n) == 1
    decreases n
  {
    if n % 2 == 0 {
      AndPredecessor(n / 2);
      assert (n - 1) / 2 == n / 2 - 1;
    } else {
      assert (n - 1) / 2 == n / 2;
      AndSelf(n / 2);
      PopcountZero(n / 2);
    }
  }

  lemma {:induction false} PopcountZero(n: nat)
    ensures Popcount(n) == 0 <==> n == 0
  {
    if n > 0 {
      PopcountZero(n / 2);
    }
  }

  /** A node's heights span exactly its leaves. */
  ghost predicate Spans(d: NodeData, first: nat, count: nat, branch: nat) {
    d.startHeight == first && d.endHeight + 1 == first + count && d.branchId == branch
  }

  lemma {:induction false} DataSpans(t: Mountain, leaves: seq<NodeData>, first: nat)
    requires leaves == Leaves(t) && Dated(leaves, first)
    ensures leaves != [] && Spans(Data(t), first, |leaves|, leaves[0].branchId)
  {
    if t.Node? {
      var l, r := Leaves(t.left), Leaves(t.right);
      LeavesNonEmpty(t.left);
      LeavesNonEmpty(t.right);
      assert forall i :: 0 <= i < |l| ==> leaves[i] == l[i];
      assert forall i :: 0 <= i < |r| ==> leaves[|l| + i] == r[i];
      DataSpans(t.left, l, first);
      DataSpans(t.right, r, first + |l|);
    }
  }

  lemma {:induction false} LeavesNonEmpty(t: Mountain)
    ensures Leaves(t) != []
  {
    if t.Node? {
      LeavesNonEmpty(t.left);
    }
  }

  /** So does the bagged root of a whole range. */
  lemma {:induction false} RootSpans(peaks: seq<Mountain>, first: nat)
    requires peaks != [] && Dated(LeavesAll(peaks), first)
    ensures LeavesAll(peaks) != []
    ensures Spans(RootData(peaks), first, |LeavesAll(peaks)|, LeavesAll(peaks)[0].branchId)
  {
    var n := |peaks| - 1;
    var leaves, l, r := LeavesAll(peaks), LeavesAll(peaks[..n]), Leaves(peaks[n]);
    LeavesNonEmpty(peaks[n]);
    assert forall i :: 0 <= i < |l| ==> leaves[i] == l[i];
    assert forall i :: 0 <= i < |r| ==> leaves[|l| + i] == r[i];
    if n > 0 {
      RootSpans(peaks[..n], first);
      DataSpans(peaks[n], r, first + |l|);
    } else {
      assert l == [] && leaves == r;
      DataSpans(peaks[n], r, first);
    }
  }

  /** The root reports itself complete exactly when the range is a single mountain. */
  lemma CompleteIffOnePeak(peaks: seq<Mountain>, first: nat)
    requires Range(peaks) && peaks != [] && Dated(LeavesAll(peaks), first)
    ensures 1 <= RootData(peaks).startHeight <= RootData(peaks).endHeight
    ensures LeafCount(RootData(peaks)) == |LeavesAll(peaks)|
    ensures Complete(RootData(peaks)) <==> |peaks| == 1
  {
    RootSpans(peaks, first);
    RangeSizes(peaks);
    FallingIsBits(Heights(peaks));
    AndPredecessor(|LeavesAll(peaks)|);
  }

  /** A mountain whose heights span its `2^h` blocks is complete. */
  lemma MountainComplete(t: Mountain, first: nat)
    requires Perfect(t) && Dated(Leaves(t), first)
    ensures 1 <= Data(t).startHeight <= Data(t).endHeight
    ensures LeafCount(Data(t)) == Pow2(Height(t)) && Complete(Data(t))
  {
    LeavesOne(t);
    CompleteIffOnePeak([t], first);
    PerfectSizes(t);
  }

  // ---- The view ----

  /** The loaded entries of an array, by index. */
  type Nodes = map<nat, Entry>

  datatype Error = ExpectedInMemory(link: EntryLink) | ExpectedNode(at: Option<EntryLink>)

  datatype Result<+T> = Ok(value: T) | Err(error: Error)

  function Fetch(stored: Nodes, generated: seq<Entry>, link: EntryLink): Result<Entry> {
    match link
    case Stored(i) => if i in stored then Ok(stored[i]) else Err(ExpectedInMemory(link))
    case Generated(i) => if i < |generated| then Ok(generated[i]) else Err(ExpectedInMemory(link))
  }

  /** Every loaded entry is the entry of the subtree the array holds there. */
  ghost predicate Holds(stored: Nodes, arr: seq<Mountain>) {
    forall i {:trigger stored[i]} :: i in stored ==> i < |arr| && Block(arr, i) && stored[i] == EntryFor(arr[i], i)
  }

  function Cut(stored: Nodes, count: nat): Nodes {
    map i | i in stored && i < count :: stored[i]
  }

  /** From `a` to `b` nothing changed below `lo`, and everything from `lo` up to `hi` is now loaded. */
  ghost predicate Grown(a: Nodes, b: Nodes, lo: nat, hi: nat) {
    Cut(b, lo) == Cut(a, lo) && forall i :: lo <= i < hi ==> i in b
  }

  lemma GrownTwice(a: Nodes, b: Nodes, c: Nodes, lo: nat, mid: nat, hi: nat)
    requires lo <= mid && Grown(a, b, lo, mid) && Grown(b, c, mid, hi)
    ensures Grown(a, c, lo, hi)
  {
    forall i | lo <= i < hi ensures i in c {
      if i < mid {
        assert i in Cut(b, mid);
      }
    }
    forall i: nat | i < lo ensures (i in c <==> i in b) && (i in c ==> c[i] == b[i]) {
      assert i in c <==> i in Cut(c, mid);
      assert i in b <==> i in Cut(b, mid);
    }
    assert Cut(c, lo) == Cut(b, lo);
  }

  ghost predicate PeaksHeld(stored: Nodes, peaks: seq<Mountain>) {
    forall j {:trigger PeakIndex(peaks, j)} :: 0 <= j < |peaks| ==> PeakIndex(peaks, j) in stored
  }

  /** `link` bags the peaks `lo..hi` from left to right. */
  ghost predicate Spine(generated: seq<Entry>, link: EntryLink, peaks: seq<Mountain>, lo: nat, hi: nat)
    requires lo < hi <= |peaks|
    decreases hi - lo
  {
    if hi - lo == 1 then link == Stored(PeakIndex(peaks, lo)) else
      && link.Generated? && link.index < |generated|
      && var e := generated[link.index];
      && e.data == RootData(peaks[lo..hi])
      && e.kind.NodeKind? && e.kind.right == Stored(PeakIndex(peaks, hi - 1))
      && Spine(generated, e.kind.left, peaks, lo, hi - 1)
  }

  /** The whole view: `peaks` is the range it stands for, its leaves start at block `first`. */
  ghost predicate View(stored: Nodes, generated: seq<Entry>, count: nat, root: EntryLink, peaks: seq<Mountain>,
                       first: nat) {
    && peaks != [] && Range(peaks) && Dated(LeavesAll(peaks), first)
    && count == |FlattenAll(peaks)|
    && Holds(stored, FlattenAll(peaks))
    && PeaksHeld(stored, peaks)
    && Spine(generated, root, peaks, 0, |peaks|)
  }

  ghost predicate AllPerfect(peaks: seq<Mountain>) {
    forall j :: 0 <= j < |peaks| ==> Perfect(peaks[j])
  }

  /** The store stands for the peaks `cur`, not necessarily merged yet. */
  ghost predicate Store(stored: Nodes, count: nat, cur: seq<Mountain>, first: nat) {
    && count == |FlattenAll(cur)| && Holds(stored, FlattenAll(cur)) && PeaksHeld(stored, cur)
    && AllPerfect(cur) && Dated(LeavesAll(cur), first)
  }

  ghost predicate PeakData(stored: Nodes, ps: seq<Mountain>) {
    forall j {:trigger PeakIndex(ps, j)} :: 0 <= j < |ps| ==>
      PeakIndex(ps, j) in stored && stored[PeakIndex(ps, j)].data == Data(ps[j])
  }

  function PeakLinks(peaks: seq<Mountain>, lo: nat, hi: nat): seq<EntryLink>
    requires lo <= hi <= |peaks|
  {
    seq(hi - lo, k requires 0 <= k < hi - lo => Stored(PeakIndex(peaks, lo + k)))
  }

  lemma ViewParts(stored: Nodes, generated: seq<Entry>, count: nat, root: EntryLink, ps: seq<Mountain>, date: nat)
    requires View(stored, generated, count, root, ps, date)
    ensures Range(ps) && Dated(LeavesAll(ps), date) && Holds(stored, FlattenAll(ps))
    ensures PeaksHeld(stored, ps) && count == |FlattenAll(ps)|
    ensures forall i :: i in stored ==> i < count
  {
    forall i | i in stored ensures i < count { assert stored[i] == stored[i]; }
  }

  lemma ViewStore(stored: Nodes, generated: seq<Entry>, count: nat, root: EntryLink, peaks: seq<Mountain>, first: nat)
    requires View(stored, generated, count, root, peaks, first)
    ensures Store(stored, count, peaks, first)
  {
  }

  lemma StoreParts(stored: Nodes, count: nat, ps: seq<Mountain>, date: nat)
    requires Store(stored, count, ps, date)
    ensures Holds(stored, FlattenAll(ps)) && AllPerfect(ps) && Dated(LeavesAll(ps), date)
    ensures forall q {:trigger PeakIndex(ps, q)} :: 0 <= q < |ps| ==> PeakIndex(ps, q) in stored
  {
  }

  lemma StoreView(stored: Nodes, generated: seq<Entry>, count: nat, root: EntryLink, peaks: seq<Mountain>, first: nat)
    requires peaks != [] && Range(peaks) && Store(stored, count, peaks, first)
    requires Spine(generated, root, peaks, 0, |peaks|)
    ensures View(stored, generated, count, root, peaks, first)
  {
  }

  lemma Unsnoc<T>(s: seq<T>)
    requires s != []
    ensures s[..|s| - 1] + [s[|s| - 1]] == s
  {
  }

  lemma AssocFour<T>(a: seq<T>, b: seq<T>, c: seq<T>, d: seq<T>)
    ensures a + (b + c + d) == a + b + c + d
  {
  }

  /** A peak's entry carries the peak's data. */
  lemma PeakEntry(stored: Nodes, peaks: seq<Mountain>, j: nat)
    requires Holds(stored, FlattenAll(peaks)) && j < |peaks| && PeakIndex(peaks, j) in stored
    ensures stored[PeakIndex(peaks, j)].data == Data(peaks[j])
    ensures PeakIndex(peaks, j) + 1 >= |Flatten(peaks[j])|
    ensures stored[PeakIndex(peaks, j)] == EntryFor(peaks[j], PeakIndex(peaks, j))
  {
    var at := PeakIndex(peaks, j);
    PeakEnds(peaks, j);
    EndsAtRoot(FlattenAll(peaks), peaks[j], at + 1);
    assert at in stored && stored[at] == EntryFor(peaks[j], at);
  }

  lemma PeakIndexPrefix(a: seq<Mountain>, b: seq<Mountain>, j: nat)
    requires j < |a|
    ensures PeakIndex(a + b, j) == PeakIndex(a, j)
  {
    assert (a + b)[..j] == a[..j];
  }

  lemma LastPeakIndex(peaks: seq<Mountain>)
    requires peaks != []
    ensures PeakIndex(peaks, |peaks| - 1) == |FlattenAll(peaks)| - 1
  {
  }

  lemma FlattenSnoc(peaks: seq<Mountain>, t: Mountain)
    ensures FlattenAll(peaks + [t]) == FlattenAll(peaks) + Flatten(t)
  {
    Snoc(peaks, t);
  }

  /** A prefix of a range is a range with dated leaves. */
  lemma {:induction false} PrefixDated(ps: seq<Mountain>, hi: nat, date: nat)
    requires Range(ps) && Dated(LeavesAll(ps), date) && hi <= |ps|
    ensures Range(ps[0..hi]) && Dated(LeavesAll(ps[0..hi]), date)
    decreases |ps|
  {
    if hi == |ps| {
      assert ps[0..hi] == ps;
    } else {
      var n := |ps| - 1;
      var leaves, l := LeavesAll(ps), LeavesAll(ps[..n]);
      assert forall i :: 0 <= i < |l| ==> leaves[i] == l[i];
      PrefixDated(ps[..n], hi, date);
      assert ps[..n][0..hi] == ps[0..hi];
    }
  }

  /** The leaves under peak `j` are dated too, so its leaf count is read off its heights. */
  lemma {:induction false} PeakDated(peaks: seq<Mountain>, j: nat, first: nat)
    requires j < |peaks| && Dated(LeavesAll(peaks), first)
    ensures exists from :: from >= first && Dated(Leaves(peaks[j]), from)
    ensures Leaves(peaks[j]) != [] && LeavesAll(peaks) != []
    ensures Leaves(peaks[j])[0].branchId == LeavesAll(peaks)[0].branchId
    decreases |peaks|
  {
    var n := |peaks| - 1;
    var leaves, l, r := LeavesAll(peaks), LeavesAll(peaks[..n]), Leaves(peaks[n]);
    LeavesNonEmpty(peaks[n]);
    assert forall i :: 0 <= i < |l| ==> leaves[i] == l[i];
    assert forall i :: 0 <= i < |r| ==> leaves[|l| + i] == r[i];
    if j < n {
      PeakDated(peaks[..n], j, first);
    } else {
      assert Dated(r, first + |l|);
    }
  }

  lemma PeakLeafCount(peaks: seq<Mountain>, j: nat, first: nat)
    requires j < |peaks| && Dated(LeavesAll(peaks), first) && Perfect(peaks[j])
    ensures var d := Data(peaks[j]);
            && 1 <= d.startHeight <= d.endHeight && LeafCount(d) == Pow2(Height(peaks[j])) && Complete(d)
            && LeavesAll(peaks) != [] && d.branchId == LeavesAll(peaks)[0].branchId
  {
    PeakDated(peaks, j, first);
    var from :| from >= first && Dated(Leaves(peaks[j]), from);
    MountainComplete(peaks[j], from);
    DataSpans(peaks[j], Leaves(peaks[j]), from);
  }

  lemma {:induction false} SpineGrows(generated: seq<Entry>, more: seq<Entry>, link: EntryLink, peaks: seq<Mountain>,
                                      lo: nat, hi: nat)
    requires lo < hi <= |peaks| && Spine(generated, link, peaks, lo, hi)
    ensures Spine(generated + more, link, peaks, lo, hi)
    decreases hi - lo
  {
    if hi - lo > 1 {
      SpineGrows(generated, more, generated[link.index].kind.left, peaks, lo, hi - 1);
    }
  }

  /** A spine over a prefix of the peaks does not care about the rest. */
  lemma {:induction false} SpinePrefix(generated: seq<Entry>, link: EntryLink, a: seq<Mountain>, b: seq<Mountain>,
                                       hi: nat)
    requires 0 < hi <= |a|
    ensures Spine(generated, link, a, 0, hi) <==> Spine(generated, link, a + b, 0, hi)
    decreases hi
  {
    PeakIndexPrefix(a, b, hi - 1);
    if hi > 1 {
      assert (a + b)[0..hi] == a[0..hi];
      if link.Generated? && link.index < |generated| && generated[link.index].kind.NodeKind? {
        SpinePrefix(generated, generated[link.index].kind.left, a, b, hi - 1);
      }
    }
  }

  /** Bagging one more peak. */
  lemma SpineBag(generated: seq<Entry>, link: EntryLink, peaks: seq<Mountain>, hi: nat, e: Entry)
    requires 0 < hi < |peaks| && Spine(generated, link, peaks, 0, hi)
    requires e == Entry(NodeKind(link, Stored(PeakIndex(peaks, hi))), Combine(RootData(peaks[..hi]), Data(peaks[hi])))
    ensures Spine(generated + [e], Generated(|generated|), peaks, 0, hi + 1)
  {
    SpineGrows(generated, [e], link, peaks, 0, hi);
    assert peaks[0..hi + 1][..hi] == peaks[..hi];
  }

  /** Whatever a spine hangs from carries the bagged data of its peaks. */
  lemma SpineData(stored: Nodes, generated: seq<Entry>, link: EntryLink, peaks: seq<Mountain>, lo: nat, hi: nat)
    requires lo < hi <= |peaks| && Spine(generated, link, peaks, lo, hi)
    requires Holds(stored, FlattenAll(peaks)) && PeakIndex(peaks, lo) in stored
    ensures match link
            case Stored(i) => i in stored && stored[i].data == RootData(peaks[lo..hi])
            case Generated(i) => i < |generated| && generated[i].data == RootData(peaks[lo..hi])
  {
    if hi - lo == 1 {
      PeakEntry(stored, peaks, lo);
      assert peaks[lo..hi] == [peaks[lo]];
    }
  }

  /** What the walk over the spine finds at each link. */
  lemma SpineNode(stored: Nodes, generated: seq<Entry>, link: EntryLink, ps: seq<Mountain>, lo: nat, hi: nat, date: nat)
    requires Range(ps) && Dated(LeavesAll(ps), date) && lo < hi <= |ps| && (hi - lo > 1 ==> lo == 0)
    requires Spine(generated, link, ps, lo, hi) && PeakData(stored, ps)
    ensures var r := Fetch(stored, generated, link);
            && r.Ok? && 1 <= r.value.data.startHeight <= r.value.data.endHeight
            && (Complete(r.value.data) <==> hi - lo == 1)
            && (hi - lo > 1 ==>
                  && r.value.kind.NodeKind? && Spine(generated, r.value.kind.left, ps, lo, hi - 1)
                  && Spine(generated, r.value.kind.right, ps, hi - 1, hi))
  {
    if hi - lo == 1 {
      PeakLeafCount(ps, lo, date);
    } else {
      PrefixDated(ps, hi, date);
      CompleteIffOnePeak(ps[lo..hi], date);
    }
  }

  lemma PeakLinksSplit(ps: seq<Mountain>, lo: nat, hi: nat, target: seq<EntryLink>)
    requires lo < hi <= |ps|
    ensures hi - lo == 1 ==> target + [Stored(PeakIndex(ps, lo))] == target + PeakLinks(ps, lo, hi)
    ensures hi - lo > 1 ==>
      target + PeakLinks(ps, lo, hi - 1) + PeakLinks(ps, hi - 1, hi) == target + PeakLinks(ps, lo, hi)
  {
    assert PeakLinks(ps, lo, hi - 1) + PeakLinks(ps, hi - 1, hi) == PeakLinks(ps, lo, hi);
    if hi - lo == 1 {
      assert [Stored(PeakIndex(ps, lo))] == PeakLinks(ps, lo, hi);
    }
  }

  lemma {:induction false} RootBranch(ps: seq<Mountain>, q: nat, date: nat)
    requires 0 < q <= |ps| && AllPerfect(ps) && Dated(LeavesAll(ps), date)
    ensures LeavesAll(ps) != [] && RootData(ps[..q]).branchId == LeavesAll(ps)[0].branchId
  {
    PeakLeafCount(ps, 0, date);
    if q > 1 {
      RootBranch(ps, q - 1, date);
      assert ps[..q][..q - 1] == ps[..q - 1];
    }
  }

  lemma OneBranch(ps: seq<Mountain>, q: nat, date: nat)
    requires 0 < q < |ps| && AllPerfect(ps) && Dated(LeavesAll(ps), date)
    ensures RootData(ps[..q]).branchId == Data(ps[q]).branchId
  {
    PeakLeafCount(ps, q, date);
    RootBranch(ps, q, date);
  }

  /** What one turn of the bagging loop reads and adds. */
  lemma BagTurn(stored: Nodes, generated: seq<Entry>, link: EntryLink, child: EntryLink, ps: seq<Mountain>, q: nat,
                date: nat)
    requires 0 < q < |ps| && Spine(generated, link, ps, 0, q) && child == Stored(PeakIndex(ps, q))
    requires Holds(stored, FlattenAll(ps)) && PeakIndex(ps, 0) in stored && PeakIndex(ps, q) in stored
    requires AllPerfect(ps) && Dated(LeavesAll(ps), date)
    ensures var l, r := Fetch(stored, generated, link), Fetch(stored, generated, child);
            && l.Ok? && r.Ok? && l.value.data.branchId == r.value.data.branchId
            && Spine(generated + [Entry(NodeKind(link, child), Combine(l.value.data, r.value.data))],
                             Generated(|generated|), ps, 0, q + 1)
  {
    hide Flatten, FlattenAll, LeavesAll, Dated, Holds, PeakIndex, RootData, Data, Combine, Spine;
    SpineData(stored, generated, link, ps, 0, q);
    PeakEntry(stored, ps, q);
    assert ps[0..q] == ps[..q];
    OneBranch(ps, q, date);
    var l, r := Fetch(stored, generated, link), Fetch(stored, generated, child);
    SpineBag(generated, link, ps, q, Entry(NodeKind(link, child), Combine(l.value.data, r.value.data)));
  }

  /** The root entry of a view: a leaf, a single mountain, or the bag of all peaks. */
  lemma RootEntry(stored: Nodes, generated: seq<Entry>, count: nat, root: EntryLink, ps: seq<Mountain>, date: nat)
    requires View(stored, generated, count, root, ps, date)
    ensures ps != [] && Range(ps)
    ensures var r := Fetch(stored, generated, root);
            && r.Ok? && 1 <= r.value.data.startHeight <= r.value.data.endHeight
            && LeafCount(r.value.data) == |LeavesAll(ps)|
            && (Complete(r.value.data) <==> |ps| == 1)
    ensures |ps| == 1 ==>
      && PeakIndex(ps, 0) in stored && PeakIndex(ps, 0) + 1 == |FlattenAll(ps)|
      && Fetch(stored, generated, root).value == EntryFor(ps[0], PeakIndex(ps, 0))
    ensures |ps| > 1 ==>
      var kind := Fetch(stored, generated, root).value.kind;
      && kind.NodeKind? && kind.right == Stored(PeakIndex(ps, |ps| - 1))
      && Spine(generated, kind.left, ps, 0, |ps| - 1)
  {
    SpineData(stored, generated, root, ps, 0, |ps|);
    assert ps[0..|ps|] == ps;
    CompleteIffOnePeak(ps, date);
    if |ps| == 1 {
      PeakEntry(stored, ps, 0);
      LastPeakIndex(ps);
    }
  }
}
