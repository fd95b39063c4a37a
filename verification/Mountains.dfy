/** Merkle mountain ranges as values: perfect binary trees of strictly decreasing height, their
    post-order array, and what appending and truncating one leaf does to them. */
module Mountains {

  /** Block metadata. The Blake2b commitment of an inner node is kept as the pair it hashes. */
  datatype Commitment =
    | BlockHash(id: nat)
    | ChildrenHash(left: NodeData, right: NodeData)

  datatype NodeData = NodeData(
    branchId: nat,
    commitment: Commitment,
    startTime: nat, endTime: nat,
    startTarget: nat, endTarget: nat,
    startSaplingRoot: nat, endSaplingRoot: nat,
    totalWork: nat,
    startHeight: nat, endHeight: nat,
    saplingTx: nat)

  function Combine(left: NodeData, right: NodeData): NodeData {
    NodeData(
      left.branchId,
      ChildrenHash(left, right),
      left.startTime, right.endTime,
      left.startTarget, right.endTarget,
      left.startSaplingRoot, right.endSaplingRoot,
      left.totalWork + right.totalWork,
      left.startHeight, right.endHeight,
      left.saplingTx + right.saplingTx)
  }

  datatype Mountain = Leaf(leaf: NodeData) | Node(left: Mountain, right: Mountain)

  function Height(t: Mountain): nat {
    match t
    case Leaf(_) => 0
    case Node(l, _) => Height(l) + 1
  }

  predicate Perfect(t: Mountain) {
    t.Node? ==> Perfect(t.left) && Perfect(t.right) && Height(t.left) == Height(t.right)
  }

  function Data(t: Mountain): NodeData {
    match t
    case Leaf(d) => d
    case Node(l, r) => Combine(Data(l), Data(r))
  }

  function Leaves(t: Mountain): seq<NodeData> {
    match t
    case Leaf(d) => [d]
    case Node(l, r) => Leaves(l) + Leaves(r)
  }

  /** Post-order: both halves, then the node itself. */
  function Flatten(t: Mountain): (s: seq<Mountain>)
    ensures |s| > 0
  {
    match t
    case Leaf(_) => [t]
    case Node(l, r) => Flatten(l) + Flatten(r) + [t]
  }

  function Pow2(n: nat): (p: nat)
    ensures p >= 1
  {
    if n == 0 then 1 else 2 * Pow2(n - 1)
  }

  lemma {:induction false} PerfectSizes(t: Mountain)
    requires Perfect(t)
    ensures |Leaves(t)| == Pow2(Height(t))
    ensures |Flatten(t)| == Pow2(Height(t) + 1) - 1
  {
    match t
    case Leaf(_) =>
      assert Pow2(1) == 2;
    case Node(l, r) =>
      PerfectSizes(l);
      PerfectSizes(r);
  }

  // ---- Ranges ----

  ghost predicate Decreasing(peaks: seq<Mountain>) {
    forall i, j :: 0 <= i < j < |peaks| ==> Height(peaks[i]) > Height(peaks[j])
  }

  ghost predicate Range(peaks: seq<Mountain>) {
    Decreasing(peaks) && forall i :: 0 <= i < |peaks| ==> Perfect(peaks[i])
  }

  function FlattenAll(peaks: seq<Mountain>): seq<Mountain> {
    if peaks == [] then [] else FlattenAll(peaks[..|peaks| - 1]) + Flatten(peaks[|peaks| - 1])
  }

  function LeavesAll(peaks: seq<Mountain>): seq<NodeData> {
    if peaks == [] then [] else LeavesAll(peaks[..|peaks| - 1]) + Leaves(peaks[|peaks| - 1])
  }

  /** Peaks bagged from left to right. */
  function RootData(peaks: seq<Mountain>): NodeData
    requires peaks != []
  {
    if |peaks| == 1 then Data(peaks[0])
    else Combine(RootData(peaks[..|peaks| - 1]), Data(peaks[|peaks| - 1]))
  }

  /** Binary-counter carry: equal heights merge. */
  function Push(peaks: seq<Mountain>, t: Mountain): seq<Mountain>
    decreases |peaks|
  {
    if peaks != [] && Height(peaks[|peaks| - 1]) == Height(t)
    then Push(peaks[..|peaks| - 1], Node(peaks[|peaks| - 1], t))
    else peaks + [t]
  }

  /** The nodes the carry creates, in order. */
  function Merged(peaks: seq<Mountain>, t: Mountain): seq<Mountain>
    decreases |peaks|
  {
    if peaks != [] && Height(peaks[|peaks| - 1]) == Height(t)
    then [Node(peaks[|peaks| - 1], t)] + Merged(peaks[..|peaks| - 1], Node(peaks[|peaks| - 1], t))
    else []
  }

  /** Left children along the right slope: what is left of a mountain without its last leaf. */
  function Slope(t: Mountain): seq<Mountain> {
    match t
    case Leaf(_) => []
    case Node(l, r) => [l] + Slope(r)
  }

  function Pop(peaks: seq<Mountain>): seq<Mountain>
    requires peaks != []
  {
    peaks[..|peaks| - 1] + Slope(peaks[|peaks| - 1])
  }

  /** The range a list of leaves builds, one append at a time. */
  function Build(leaves: seq<NodeData>): seq<Mountain> {
    if leaves == [] then [] else Push(Build(leaves[..|leaves| - 1]), Leaf(leaves[|leaves| - 1]))
  }

  lemma Snoc<T>(s: seq<T>, x: T)
    ensures (s + [x])[..|s|] == s && (s + [x])[|s|] == x
  {
  }

  // ---- Appending ----

  lemma {:induction false} PushRange(peaks: seq<Mountain>, t: Mountain)
    requires Range(peaks) && Perfect(t)
    requires peaks != [] ==> Height(peaks[|peaks| - 1]) >= Height(t)
    ensures Range(Push(peaks, t)) && Push(peaks, t) != []
    decreases |peaks|
  {
    if peaks != [] && Height(peaks[|peaks| - 1]) == Height(t) {
      PushRange(peaks[..|peaks| - 1], Node(peaks[|peaks| - 1], t));
    }
  }

  lemma {:induction false} PushLeaves(peaks: seq<Mountain>, t: Mountain)
    ensures LeavesAll(Push(peaks, t)) == LeavesAll(peaks) + Leaves(t)
    decreases |peaks|
  {
    if peaks != [] && Height(peaks[|peaks| - 1]) == Height(t) {
      PushLeaves(peaks[..|peaks| - 1], Node(peaks[|peaks| - 1], t));
    } else {
      Snoc(peaks, t);
    }
  }

  /** Appending only ever appends to the array: the old array, the new tree, then the merged nodes. */
  lemma {:induction false} PushArray(peaks: seq<Mountain>, t: Mountain)
    ensures FlattenAll(Push(peaks, t)) == FlattenAll(peaks) + (Flatten(t) + Merged(peaks, t))
    decreases |peaks|
  {
    if peaks != [] && Height(peaks[|peaks| - 1]) == Height(t) {
      var rest, p := peaks[..|peaks| - 1], peaks[|peaks| - 1];
      var n := Node(p, t);
      PushArray(rest, n);
      Regroup(FlattenAll(rest), Flatten(p), Flatten(t), [n], Merged(rest, n));
    } else {
      Snoc(peaks, t);
      assert Flatten(t) + [] == Flatten(t);
    }
  }

  lemma Regroup<T>(a: seq<T>, b: seq<T>, c: seq<T>, d: seq<T>, e: seq<T>)
    ensures a + ((b + c + d) + e) == (a + b) + (c + (d + e))
  {
  }

  lemma {:induction false} BuildRange(leaves: seq<NodeData>)
    ensures Range(Build(leaves))
    ensures leaves != [] ==> Build(leaves) != []
  {
    if leaves != [] {
      var before, last := leaves[..|leaves| - 1], leaves[|leaves| - 1];
      BuildRange(before);
      PushRange(Build(before), Leaf(last));
    }
  }

  lemma {:induction false} BuildLeaves(leaves: seq<NodeData>)
    ensures LeavesAll(Build(leaves)) == leaves
  {
    if leaves != [] {
      var before, last := leaves[..|leaves| - 1], leaves[|leaves| - 1];
      BuildLeaves(before);
      PushLeaves(Build(before), Leaf(last));
      assert before + [last] == leaves;
    }
  }

  // ---- Truncating ----

  /** The slope of a mountain is itself a range, one peak per level below it. */
  lemma {:induction false} SlopeRange(t: Mountain)
    requires Perfect(t)
    ensures Range(Slope(t)) && |Slope(t)| == Height(t)
    ensures forall i :: 0 <= i < |Slope(t)| ==> Height(Slope(t)[i]) == Height(t) - 1 - i
  {
    if t.Node? {
      SlopeRange(t.right);
    }
  }

  lemma PopRange(peaks: seq<Mountain>)
    requires Range(peaks) && peaks != []
    ensures Range(Pop(peaks))
  {
    SlopeRange(peaks[|peaks| - 1]);
  }

  function LastLeaf(t: Mountain): NodeData {
    match t
    case Leaf(d) => d
    case Node(_, r) => LastLeaf(r)
  }

  /** Carrying a leaf into a mountain's slope rebuilds the mountain. */
  lemma {:induction false} PushSlope(peaks: seq<Mountain>, u: Mountain)
    requires Perfect(u)
    ensures Push(peaks + Slope(u), Leaf(LastLeaf(u))) == Push(peaks, u)
    decreases u
  {
    match u
    case Leaf(_) => assert peaks + [] == peaks;
    case Node(l, r) =>
      PushSlope(peaks + [l], r);
      assert peaks + Slope(u) == (peaks + [l]) + Slope(r);
      Snoc(peaks, l);
  }

  /** Truncating undoes appending. */
  lemma {:induction false} PopAfterPush(peaks: seq<Mountain>, t: Mountain)
    ensures Push(peaks, t) != [] && Pop(Push(peaks, t)) == peaks + Slope(t)
    decreases |peaks|
  {
    if peaks != [] && Height(peaks[|peaks| - 1]) == Height(t) {
      var rest, p := peaks[..|peaks| - 1], peaks[|peaks| - 1];
      PopAfterPush(rest, Node(p, t));
      assert rest + ([p] + Slope(t)) == peaks + Slope(t);
    } else {
      Snoc(peaks, t);
    }
  }

  /** Appending the removed leaf undoes truncating. */
  lemma PushAfterPop(peaks: seq<Mountain>)
    requires Range(peaks) && peaks != []
    ensures Push(Pop(peaks), Leaf(LastLeaf(peaks[|peaks| - 1]))) == peaks
  {
    PushSlope(peaks[..|peaks| - 1], peaks[|peaks| - 1]);
  }

  lemma {:induction false} SlopeLeaves(t: Mountain)
    ensures Leaves(t) == LeavesAll(Slope(t)) + [LastLeaf(t)]
  {
    if t.Node? {
      SlopeLeaves(t.right);
      LeavesSplit([t.left], Slope(t.right));
      LeavesOne(t.left);
      Assoc(Leaves(t.left), LeavesAll(Slope(t.right)), [LastLeaf(t)]);
    }
  }

  lemma LeavesOne(t: Mountain)
    ensures LeavesAll([t]) == Leaves(t) && FlattenAll([t]) == Flatten(t)
  {
    assert [t][..0] == [];
    assert [] + Leaves(t) == Leaves(t) && [] + Flatten(t) == Flatten(t);
  }

  lemma {:induction false} LeavesSplit(a: seq<Mountain>, b: seq<Mountain>)
    ensures LeavesAll(a + b) == LeavesAll(a) + LeavesAll(b)
  {
    if b == [] {
      assert a + b == a;
    } else {
      var rest, last := b[..|b| - 1], b[|b| - 1];
      LeavesSplit(a, rest);
      Snoc(a + rest, last);
      assert a + b == a + rest + [last];
      Assoc(LeavesAll(a), LeavesAll(rest), Leaves(last));
    }
  }

  lemma {:induction false} FlattenSplit(a: seq<Mountain>, b: seq<Mountain>)
    ensures FlattenAll(a + b) == FlattenAll(a) + FlattenAll(b)
  {
    if b == [] {
      assert a + b == a;
    } else {
      var rest, last := b[..|b| - 1], b[|b| - 1];
      FlattenSplit(a, rest);
      Snoc(a + rest, last);
      assert a + b == a + rest + [last];
      Assoc(FlattenAll(a), FlattenAll(rest), Flatten(last));
    }
  }

  lemma Assoc<T>(a: seq<T>, b: seq<T>, c: seq<T>)
    ensures a + b + c == a + (b + c)
  {
  }

  /** Truncation drops exactly the last leaf. */
  lemma PopLeaves(peaks: seq<Mountain>)
    requires peaks != []
    ensures LeavesAll(peaks) == LeavesAll(Pop(peaks)) + [LastLeaf(peaks[|peaks| - 1])]
  {
    var rest, last := peaks[..|peaks| - 1], peaks[|peaks| - 1];
    LeavesSplit(rest, Slope(last));
    SlopeLeaves(last);
    Assoc(LeavesAll(rest), LeavesAll(Slope(last)), [LastLeaf(last)]);
  }

  /** Ranges are canonical: the leaves alone determine the peaks, so append and truncate reach every
      range and nothing else. */
  lemma {:induction false} RangeIsBuild(peaks: seq<Mountain>)
    requires Range(peaks)
    ensures peaks == Build(LeavesAll(peaks))
    decreases |LeavesAll(peaks)|
  {
    if peaks != [] {
      PopRange(peaks);
      PopLeaves(peaks);
      RangeIsBuild(Pop(peaks));
      PushAfterPop(peaks);
      Snoc(LeavesAll(Pop(peaks)), LastLeaf(peaks[|peaks| - 1]));
    }
  }

  /** A range is exactly what appending its leaves one by one builds: every list of leaves has one range,
      and every range has one list of leaves. */
  lemma Canonical(peaks: seq<Mountain>, leaves: seq<NodeData>)
    ensures Range(peaks) && LeavesAll(peaks) == leaves <==> peaks == Build(leaves)
  {
    BuildRange(leaves);
    BuildLeaves(leaves);
    if Range(peaks) {
      RangeIsBuild(peaks);
    }
  }

  lemma PrefixInside<T>(a: seq<T>, b: seq<T>, c: seq<T>, k: nat)
    requires k <= |b|
    ensures (a + b + c)[..|a| + k] == a + b[..k]
  {
  }

  /** What the array loses on truncation: the last leaf and the slope above it. */
  lemma {:induction false} SlopeArray(t: Mountain)
    requires Perfect(t)
    ensures |Flatten(t)| == |FlattenAll(Slope(t))| + Height(t) + 1
    ensures Flatten(t)[..|FlattenAll(Slope(t))|] == FlattenAll(Slope(t))
  {
    if t.Node? {
      SlopeArray(t.right);
      FlattenSplit([t.left], Slope(t.right));
      LeavesOne(t.left);
      PrefixInside(Flatten(t.left), Flatten(t.right), [t], |FlattenAll(Slope(t.right))|);
    }
  }

  lemma PopArray(peaks: seq<Mountain>)
    requires Range(peaks) && peaks != []
    ensures var before, after := FlattenAll(peaks), FlattenAll(Pop(peaks));
            |before| == |after| + Height(peaks[|peaks| - 1]) + 1 && before[..|after|] == after
  {
    var rest, last := peaks[..|peaks| - 1], peaks[|peaks| - 1];
    SlopeArray(last);
    FlattenSplit(rest, Slope(last));
    PrefixInside(FlattenAll(rest), Flatten(last), [], |FlattenAll(Slope(last))|);
    assert FlattenAll(peaks) + [] == FlattenAll(peaks);
  }
}
