/** The loader is right: which array lengths it reads correctly, and what it loads from them. */
module MountainLayout {
  import opened Mountains
  import opened MountainArray

  // ---- Legal lengths ----

  function Popcount(n: nat): nat {
    if n == 0 then 0 else n % 2 + Popcount(n / 2)
  }

  function Up(hs: seq<nat>): (r: seq<nat>)
    ensures |r| == |hs|
  {
    seq(|hs|, i requires 0 <= i < |hs| => hs[i] + 1)
  }

  /** Positions of the set bits of `n`, highest first. */
  function Bits(n: nat): seq<nat> {
    if n == 0 then [] else Up(Bits(n / 2)) + if n % 2 == 1 then [0] else []
  }

  predicate BitSet(n: nat, h: nat) {
    if h == 0 then n % 2 == 1 else BitSet(n / 2, h - 1)
  }

  lemma {:induction false} BitsAreTheSetBits(n: nat, h: nat)
    ensures h in Bits(n) <==> BitSet(n, h)
    ensures |Bits(n)| == Popcount(n)
    decreases h, n
  {
    if n > 0 {
      var half, up := Bits(n / 2), Up(Bits(n / 2));
      if h == 0 {
        BitsAreTheSetBits(n / 2, 0);
      } else {
        BitsAreTheSetBits(n / 2, h - 1);
        if h - 1 in half {
          var i :| 0 <= i < |half| && half[i] == h - 1;
          assert up[i] == h;
        }
      }
    } else if h > 0 {
      BitsAreTheSetBits(0, h - 1);
    }
  }

  lemma {:induction false} UpTotals(hs: seq<nat>)
    ensures LeafTotal(Up(hs)) == 2 * LeafTotal(hs)
  {
    if hs != [] {
      UpTotals(hs[..|hs| - 1]);
      assert Up(hs)[..|hs| - 1] == Up(hs[..|hs| - 1]);
    }
  }

  lemma UpFalls(hs: seq<nat>)
    requires Falling(hs)
    ensures Falling(Up(hs)) && Falling(Up(hs) + [0])
  {
  }

  lemma GroundBehind(hs: seq<nat>)
    ensures LeafTotal(hs + [0]) == LeafTotal(hs) + 1
  {
    Snoc(hs, 0);
  }

  lemma {:induction false} BitsFall(n: nat)
    ensures Falling(Bits(n)) && LeafTotal(Bits(n)) == n
    decreases n
  {
    hide Up, LeafTotal;
    if n > 0 {
      var half, up := Bits(n / 2), Up(Bits(n / 2));
      BitsFall(n / 2);
      UpFalls(half);
      UpTotals(half);
      GroundBehind(up);
      assert up + [] == up;
    } else {
      NoLeaves();
    }
  }

  lemma NoLeaves()
    ensures LeafTotal([]) == 0
  {
  }

  function Down(hs: seq<nat>): (r: seq<nat>)
    requires forall i :: 0 <= i < |hs| ==> hs[i] > 0
    ensures |r| == |hs| && Up(r) == hs
  {
    seq(|hs|, i requires 0 <= i < |hs| => hs[i] - 1)
  }

  lemma DownFalls(hs: seq<nat>)
    requires Falling(hs) && forall i :: 0 <= i < |hs| ==> hs[i] > 0
    ensures Falling(Down(hs)) && LeafTotal(hs) == 2 * LeafTotal(Down(hs))
  {
    UpTotals(Down(hs));
  }

  /** A falling list of heights has one entry per set bit of its leaf count. */
  lemma {:induction false} FallingIsBits(hs: seq<nat>)
    requires Falling(hs)
    ensures Popcount(LeafTotal(hs)) == |hs|
    decreases LeafTotal(hs)
  {
    if hs != [] {
      var n := |hs| - 1;
      var high := if hs[n] == 0 then hs[..n] else hs;
      var total := LeafTotal(high);
      assert LeafTotal(hs) == total + if hs[n] == 0 then 1 else 0;
      DownFalls(high);
      FallingIsBits(Down(high));
      assert LeafTotal(hs) / 2 == total / 2 == LeafTotal(Down(high));
    }
  }

  lemma {:induction false} SizeFromLeaves(hs: seq<nat>)
    ensures SizeOf(hs) == 2 * LeafTotal(hs) - |hs|
  {
    if hs != [] {
      SizeFromLeaves(hs[..|hs| - 1]);
    }
  }

  // ---- The greedy choice is exact on legal lengths ----

  lemma {:induction false} Pow2Monotone(a: nat, b: nat)
    requires a <= b
    ensures Pow2(a) <= Pow2(b)
    decreases b
  {
    if a < b {
      Pow2Monotone(a, b - 1);
    }
  }

  lemma {:induction false} SizeOfCons(hs: seq<nat>)
    requires hs != []
    ensures SizeOf(hs) == Pow2(hs[0] + 1) - 1 + SizeOf(hs[1..])
  {
    var n := |hs| - 1;
    if n > 0 {
      SizeOfCons(hs[..n]);
      assert hs[..n][1..] == hs[1..][..n - 1];
    }
  }

  /** Lower mountains together never reach the size of one higher mountain. */
  lemma {:induction false} FallingBound(hs: seq<nat>, h: nat)
    requires Falling(hs) && (hs != [] ==> hs[0] < h)
    ensures SizeOf(hs) < Pow2(h + 1) - 1
    decreases |hs|
  {
    if hs != [] {
      SizeOfCons(hs);
      FallingBound(hs[1..], hs[0]);
      Pow2Monotone(hs[0] + 2, h + 1);
    }
  }

  lemma {:induction false} GreedyExact(hs: seq<nat>, h: nat)
    requires Falling(hs) && (hs != [] ==> hs[0] <= h)
    ensures Greedy(SizeOf(hs), h) == hs
    decreases h + |hs|
  {
    if hs != [] && hs[0] == h {
      SizeOfCons(hs);
      if h == 0 {
        var last := hs[|hs| - 1];
        assert |hs| > 1 ==> h > last;
      } else {
        GreedyExact(hs[1..], h);
      }
      assert hs == [h] + hs[1..];
    } else {
      FallingBound(hs, h);
      if h > 0 {
        GreedyExact(hs, h - 1);
      }
    }
  }

  lemma FitsUnderTop(h: nat, n: nat)
    requires Pow2(h + 1) - 1 <= n
    ensures n >= 1 && h <= Log2(n + 1) - 1
  {
    var top := Log2(n + 1);
    if h + 1 > top {
      Pow2Monotone(top + 1, h + 1);
    }
  }

  lemma StartsAtTop(n: nat, top: nat)
    requires n >= 1 && top == Log2(n + 1) - 1
    ensures PeakHeights(n) == Greedy(n, top)
  {
  }

  lemma PeaksOfFalling(hs: seq<nat>, n: nat)
    requires Falling(hs) && hs != [] && n == SizeOf(hs)
    ensures n >= 1 && PeakHeights(n) == hs
  {
    SizeOfCons(hs);
    FitsUnderTop(hs[0], n);
    var top := Log2(n + 1) - 1;
    GreedyExact(hs, top);
    StartsAtTop(n, top);
  }

  /** One peak per set bit of the leaf count, covering every position. */
  lemma PeaksAreTheSetBits(leaves: nat)
    requires leaves >= 1
    ensures var n := 2 * leaves - Popcount(leaves);
            n >= 1 && PeakHeights(n) == Bits(leaves) && SizeOf(Bits(leaves)) == n
  {
    BitsFall(leaves);
    BitsAreTheSetBits(leaves, 0);
    SizeFromLeaves(Bits(leaves));
    PeaksOfFalling(Bits(leaves), 2 * leaves - Popcount(leaves));
  }

  /** The loader covers an array by mountains of strictly decreasing height exactly when its length is
      that of some mountain range. */
  lemma TilesIffLegalLength(n: nat)
    requires n >= 1
    ensures SizeOf(PeakHeights(n)) == n && Falling(PeakHeights(n)) <==>
            exists leaves :: leaves >= 1 && n == 2 * leaves - Popcount(leaves)
  {
    var hs := PeakHeights(n);
    if SizeOf(hs) == n && Falling(hs) {
      FallingIsBits(hs);
      SizeFromLeaves(hs);
      assert LeafTotal(hs) >= 1;
    }
    forall leaves: nat | leaves >= 1 && n == 2 * leaves - Popcount(leaves)
      ensures SizeOf(hs) == n && Falling(hs)
    {
      PeaksAreTheSetBits(leaves);
      BitsFall(leaves);
    }
  }

  // ---- What the array holds ----

  function Datas(arr: seq<Mountain>): (r: seq<NodeData>)
    ensures |r| == |arr|
  {
    seq(|arr|, i requires 0 <= i < |arr| => Data(arr[i]))
  }

  /** The entry that represents subtree `t` at 0-based index `i`: its right child sits just before it,
      its left child before the whole right half. */
  function EntryFor(t: Mountain, i: nat): Entry
    requires i + 1 >= |Flatten(t)|
  {
    match t
    case Leaf(d) => Entry(LeafKind, d)
    case Node(l, r) => Entry(NodeKind(Stored(i - 1 - |Flatten(r)|), Stored(i - 1)), Data(t))
  }

  /** Every node is preceded by the whole of its own subtree. */
  ghost predicate PostOrdered(arr: seq<Mountain>) {
    forall i {:trigger Block(arr, i)} :: 0 <= i < |arr| ==> Block(arr, i) && Perfect(arr[i])
  }

  /** The subtree `t` takes up the positions that end at `pos`. */
  ghost predicate Ends(arr: seq<Mountain>, t: Mountain, pos: nat) {
    |Flatten(t)| <= pos <= |arr| && arr[pos - |Flatten(t)|..pos] == Flatten(t)
  }

  ghost predicate Block(arr: seq<Mountain>, i: nat)
    requires i < |arr|
  {
    Ends(arr, arr[i], i + 1)
  }

  lemma BlockBefore(a: seq<Mountain>, b: seq<Mountain>, i: nat)
    requires i < |a| && Block(a, i)
    ensures Block(a + b, i)
  {
    var lo := i + 1 - |Flatten(a[i])|;
    assert (a + b)[lo..i + 1] == a[lo..i + 1];
  }

  lemma BlockBehind(a: seq<Mountain>, b: seq<Mountain>, j: nat)
    requires j < |b| && Block(b, j)
    ensures Block(a + b, |a| + j)
  {
    var lo := j + 1 - |Flatten(b[j])|;
    assert (a + b)[|a| + lo..|a| + j + 1] == b[lo..j + 1];
  }

  lemma PostOrderedConcat(a: seq<Mountain>, b: seq<Mountain>)
    requires PostOrdered(a) && PostOrdered(b)
    ensures PostOrdered(a + b)
  {
    forall i | 0 <= i < |a + b| ensures Block(a + b, i) && Perfect((a + b)[i]) {
      if i < |a| {
        assert Block(a, i);
        BlockBefore(a, b, i);
      } else {
        assert Block(b, i - |a|);
        BlockBehind(a, b, i - |a|);
      }
    }
  }

  lemma {:induction false} FlattenPostOrdered(t: Mountain)
    requires Perfect(t)
    ensures PostOrdered(Flatten(t))
  {
    if t.Node? {
      FlattenPostOrdered(t.left);
      FlattenPostOrdered(t.right);
      var both := Flatten(t.left) + Flatten(t.right);
      PostOrderedConcat(Flatten(t.left), Flatten(t.right));
      RootBehind(both, t);
    }
  }

  lemma WholeEnds(f: seq<Mountain>, t: Mountain)
    requires Flatten(t) == f
    ensures Block(f, |f| - 1)
  {
    assert f[0..|f|] == f;
  }

  lemma RootBehind(both: seq<Mountain>, t: Mountain)
    requires PostOrdered(both) && Perfect(t) && Flatten(t) == both + [t]
    ensures PostOrdered(both + [t])
  {
    var f := both + [t];
    WholeEnds(f, t);
    forall i | 0 <= i < |both| ensures Block(f, i) && Perfect(f[i]) {
      assert Block(both, i);
      BlockBefore(both, [t], i);
    }
  }

  lemma {:induction false} RangePostOrdered(peaks: seq<Mountain>)
    requires Range(peaks)
    ensures PostOrdered(FlattenAll(peaks))
  {
    if peaks != [] {
      RangePostOrdered(peaks[..|peaks| - 1]);
      FlattenPostOrdered(peaks[|peaks| - 1]);
      PostOrderedConcat(FlattenAll(peaks[..|peaks| - 1]), Flatten(peaks[|peaks| - 1]));
    }
  }

  lemma EndsAtRoot(arr: seq<Mountain>, t: Mountain, pos: nat)
    requires Ends(arr, t, pos)
    ensures arr[pos - 1] == t
  {
    var f := Flatten(t);
    assert f[|f| - 1] == t;
    assert arr[pos - 1] == arr[pos - |f|..pos][|f| - 1];
  }

  /** The two halves of a subtree lie side by side in front of its root. */
  lemma HalvesEnd(arr: seq<Mountain>, t: Mountain, pos: nat)
    requires Ends(arr, t, pos) && t.Node?
    ensures Ends(arr, t.right, pos - 1)
    ensures Ends(arr, t.left, pos - 1 - |Flatten(t.right)|)
  {
    SliceParts(arr, pos - |Flatten(t)|, pos, Flatten(t.left), Flatten(t.right), [t]);
  }

  lemma SliceParts<T>(s: seq<T>, lo: nat, hi: nat, a: seq<T>, b: seq<T>, c: seq<T>)
    requires lo <= hi <= |s| && s[lo..hi] == a + b + c
    ensures s[lo..lo + |a|] == a && s[lo + |a|..lo + |a| + |b|] == b
  {
    forall k | 0 <= k < |a| ensures s[lo + k] == a[k] {
      assert s[lo..hi][k] == s[lo + k];
    }
    forall k | 0 <= k < |b| ensures s[lo + |a| + k] == b[k] {
      assert s[lo..hi][|a| + k] == s[lo + |a| + k];
    }
    assert s[lo..lo + |a|] == a;
    assert s[lo + |a|..lo + |a| + |b|] == b;
  }

  lemma BlockLinks(arr: seq<Mountain>, i: nat)
    requires i < |arr| && arr[i].Node? && Block(arr, i)
    ensures var kind := EntryFor(arr[i], i).kind;
            && kind.left.index < |arr| && arr[kind.left.index] == arr[i].left
            && kind.right.index < |arr| && arr[kind.right.index] == arr[i].right
  {
    hide Flatten, Data;
    HalvesEnd(arr, arr[i], i + 1);
    EndsAtRoot(arr, arr[i].left, i - |Flatten(arr[i].right)|);
    EndsAtRoot(arr, arr[i].right, i);
  }

  /** In the array of a range every inner node's links lead to the roots of the two halves of its own
      positions. */
  lemma LinksLeadToChildren(peaks: seq<Mountain>, arr: seq<Mountain>, i: nat)
    requires Range(peaks) && arr == FlattenAll(peaks) && i < |arr|
    ensures Block(arr, i)
    ensures arr[i].Node? ==>
      var kind := EntryFor(arr[i], i).kind;
      && kind.left.index < |arr| && arr[kind.left.index] == arr[i].left
      && kind.right.index < |arr| && arr[kind.right.index] == arr[i].right
  {
    hide Flatten, FlattenAll, Data, Range;
    RangePostOrdered(peaks);
    assert Block(arr, i);
    if arr[i].Node? {
      BlockLinks(arr, i);
    }
  }

  // ---- What the loader loads ----

  function Heights(peaks: seq<Mountain>): (hs: seq<nat>)
    ensures |hs| == |peaks|
  {
    seq(|peaks|, i requires 0 <= i < |peaks| => Height(peaks[i]))
  }

  lemma {:induction false} ArraySize(peaks: seq<Mountain>, hs: seq<nat>)
    requires Range(peaks) && hs == Heights(peaks)
    ensures SizeOf(hs) == |FlattenAll(peaks)|
  {
    if peaks != [] {
      var n := |peaks| - 1;
      assert Heights(peaks[..n]) == hs[..n];
      ArraySize(peaks[..n], hs[..n]);
      var h := hs[n];
      assert |Flatten(peaks[n])| == Pow2(h + 1) - 1 by { PerfectSizes(peaks[n]); }
    }
  }

  lemma {:induction false} LeafCounts(peaks: seq<Mountain>, hs: seq<nat>)
    requires Range(peaks) && hs == Heights(peaks)
    ensures LeafTotal(hs) == |LeavesAll(peaks)|
  {
    if peaks != [] {
      var n := |peaks| - 1;
      assert Heights(peaks[..n]) == hs[..n];
      LeafCounts(peaks[..n], hs[..n]);
      var h := hs[n];
      assert |Leaves(peaks[n])| == Pow2(h) by { PerfectSizes(peaks[n]); }
    }
  }

  lemma RangeSizes(peaks: seq<Mountain>)
    requires Range(peaks)
    ensures Falling(Heights(peaks))
    ensures SizeOf(Heights(peaks)) == |FlattenAll(peaks)|
    ensures LeafTotal(Heights(peaks)) == |LeavesAll(peaks)|
  {
    ArraySize(peaks, Heights(peaks));
    LeafCounts(peaks, Heights(peaks));
  }

  /** The array of a range of `n` leaves has `2n - popcount(n)` nodes. */
  lemma ArrayLength(peaks: seq<Mountain>)
    requires Range(peaks)
    ensures |FlattenAll(peaks)| == 2 * |LeavesAll(peaks)| - Popcount(|LeavesAll(peaks)|)
  {
    RangeSizes(peaks);
    FallingIsBits(Heights(peaks));
    SizeFromLeaves(Heights(peaks));
  }

  /** Sizes of a perfect subtree and its right half, by height. */
  lemma SizesByHeight(t: Mountain, h: nat)
    requires Perfect(t) && h == Height(t)
    ensures |Flatten(t)| == Pow2(h + 1) - 1
    ensures t.Leaf? <==> h == 0
    ensures t.Node? ==> Height(t.left) == Height(t.right) == h - 1 && |Flatten(t.right)| == Pow2(h) - 1
  {
    PerfectSizes(t);
    if t.Node? {
      PerfectSizes(t.right);
    }
  }

  /** A draft at the end of a subtree is the entry of that subtree. */
  lemma DraftIsEntry(vec: seq<NodeData>, t: Mountain, pos: nat, h: nat)
    requires |Flatten(t)| == Pow2(h + 1) - 1 <= pos <= |vec| && vec[pos - 1] == Data(t)
    requires t.Leaf? <==> h == 0
    requires t.Node? ==> |Flatten(t.right)| == Pow2(h) - 1
    ensures Draft(vec, pos, h) == (pos - 1, EntryFor(t, pos - 1))
  {
    if h > 0 {
      var before := |Flatten(t.right)|;
      assert pos - Pow2(h) - 1 == pos - 1 - 1 - before;
    }
  }

  /** Index of the root of peak `j`. */
  function PeakIndex(peaks: seq<Mountain>, j: nat): nat
    requires j < |peaks|
  {
    |FlattenAll(peaks[..j])| + |Flatten(peaks[j])| - 1
  }

  lemma {:induction false} PeakEnds(peaks: seq<Mountain>, j: nat)
    requires j < |peaks|
    ensures Ends(FlattenAll(peaks), peaks[j], PeakIndex(peaks, j) + 1)
  {
    var n := |peaks| - 1;
    var rest, f := FlattenAll(peaks[..n]), Flatten(peaks[n]);
    if j < n {
      PeakEnds(peaks[..n], j);
      assert peaks[..n][..j] == peaks[..j];
      EndsInPrefix(rest, f, peaks[j], PeakIndex(peaks, j) + 1);
    } else {
      assert (rest + f)[|rest|..] == f;
    }
  }

  lemma EndsInPrefix(a: seq<Mountain>, b: seq<Mountain>, t: Mountain, pos: nat)
    requires Ends(a, t, pos)
    ensures Ends(a + b, t, pos)
  {
    var lo := pos - |Flatten(t)|;
    assert (a + b)[lo..pos] == a[lo..pos];
  }

  lemma {:induction false} DraftAllAt(vec: seq<NodeData>, hs: seq<nat>, j: nat)
    requires SizeOf(hs) <= |vec| && j < |hs|
    ensures SizeOf(hs[..j + 1]) <= |vec| && Pow2(hs[j] + 1) - 1 <= SizeOf(hs[..j + 1])
    ensures |DraftAll(vec, hs)| == |hs| && DraftAll(vec, hs)[j] == Draft(vec, SizeOf(hs[..j + 1]), hs[j])
  {
    var n := |hs| - 1;
    if n > 0 {
      DraftAllAt(vec, hs[..n], if j < n then j else 0);
    }
    if j < n {
      assert hs[..n][..j + 1] == hs[..j + 1];
    } else {
      assert hs[..j + 1] == hs && hs[..j + 1][..j] == hs[..j];
    }
  }

  /** `e` is the entry of the subtree that the array holds at index `at`. */
  ghost predicate Loaded(arr: seq<Mountain>, e: (nat, Entry), at: nat) {
    at < |arr| && Block(arr, at) && e == (at, EntryFor(arr[at], at))
  }

  lemma PeakPosition(peaks: seq<Mountain>, j: nat)
    requires Range(peaks) && j < |peaks|
    ensures SizeOf(Heights(peaks)[..j + 1]) == PeakIndex(peaks, j) + 1
  {
    var upto := peaks[..j + 1];
    RangeSizes(upto);
    assert Heights(peaks)[..j + 1] == Heights(upto);
    assert upto[..j] == peaks[..j];
  }

  lemma DraftLoads(vec: seq<NodeData>, arr: seq<Mountain>, t: Mountain, pos: nat, h: nat)
    requires vec == Datas(arr) && Perfect(t) && Ends(arr, t, pos) && h == Height(t)
    ensures Pow2(h + 1) - 1 <= pos && Loaded(arr, Draft(vec, pos, h), pos - 1)
  {
    EndsAtRoot(arr, t, pos);
    DraftEntry(vec, arr, t, pos, h);
  }

  /** The peak loop loads exactly the peaks, each with its own entry. */
  lemma LoaderFindsPeaks(peaks: seq<Mountain>, arr: seq<Mountain>, j: nat)
    requires Range(peaks) && j < |peaks| && arr == FlattenAll(peaks)
    ensures SizeOf(Heights(peaks)) == |arr| && |DraftAll(Datas(arr), Heights(peaks))| == |peaks|
    ensures Loaded(arr, DraftAll(Datas(arr), Heights(peaks))[j], PeakIndex(peaks, j))
  {
    RangeSizes(peaks);
    PeakEnds(peaks, j);
    PeakPosition(peaks, j);
    DraftAllAt(Datas(arr), Heights(peaks), j);
    DraftLoads(Datas(arr), arr, peaks[j], PeakIndex(peaks, j) + 1, Heights(peaks)[j]);
  }

  /** The entries of both children of every inner node on the right slope of the subtree that ends at
      `pos`, from the top down. */
  function SlopeEntries(t: Mountain, pos: nat): seq<(nat, Entry)>
    requires pos >= |Flatten(t)|
  {
    match t
    case Leaf(_) => []
    case Node(l, r) =>
      var left := pos - 1 - |Flatten(r)|;
      [(left - 1, EntryFor(l, left - 1)), (pos - 2, EntryFor(r, pos - 2))] + SlopeEntries(r, pos - 1)
  }

  lemma DraftSlopeUnfolds(vec: seq<NodeData>, pos: nat, h: nat, left: nat)
    requires h > 0 && Pow2(h + 1) - 1 <= pos <= |vec| && left + Pow2(h) == pos
    ensures DraftSlope(vec, pos, h) ==
            [Draft(vec, left, h - 1), Draft(vec, pos - 1, h - 1)] + DraftSlope(vec, pos - 1, h - 1)
  {
  }

  lemma SlopeEntriesUnfold(t: Mountain, pos: nat, left: nat)
    requires t.Node? && pos >= |Flatten(t)| && left + 1 + |Flatten(t.right)| == pos
    ensures SlopeEntries(t, pos) ==
            [(left - 1, EntryFor(t.left, left - 1)), (pos - 2, EntryFor(t.right, pos - 2))] + SlopeEntries(t.right, pos - 1)
  {
  }

  lemma DraftEntry(vec: seq<NodeData>, arr: seq<Mountain>, t: Mountain, pos: nat, h: nat)
    requires vec == Datas(arr) && Perfect(t) && Ends(arr, t, pos) && h == Height(t)
    ensures Pow2(h + 1) - 1 <= pos && Draft(vec, pos, h) == (pos - 1, EntryFor(t, pos - 1))
  {
    EndsAtRoot(arr, t, pos);
    SizesByHeight(t, h);
    DraftIsEntry(vec, t, pos, h);
  }

  /** The array holds the slope's nodes and their left siblings where a deletion looks for them. */
  ghost predicate SlopeInPlace(vec: seq<NodeData>, t: Mountain, pos: nat) {
    && |Flatten(t)| <= pos <= |vec| && vec[pos - 1] == Data(t)
    && (t.Node? ==>
          var left := pos - 1 - |Flatten(t.right)|;
          1 <= left && vec[left - 1] == Data(t.left) && SlopeInPlace(vec, t.right, pos - 1))
  }

  lemma {:induction false} EndsInPlace(vec: seq<NodeData>, arr: seq<Mountain>, t: Mountain, pos: nat)
    requires vec == Datas(arr) && Ends(arr, t, pos)
    ensures SlopeInPlace(vec, t, pos)
  {
    EndsAtRoot(arr, t, pos);
    if t.Node? {
      HalvesEnd(arr, t, pos);
      EndsAtRoot(arr, t.left, pos - 1 - |Flatten(t.right)|);
      EndsInPlace(vec, arr, t.right, pos - 1);
    }
  }

  /** One turn of the slope loop drafts the entries of the two children. */
  lemma SlopeTurn(vec: seq<NodeData>, t: Mountain, pos: nat, h: nat, left: nat)
    requires Perfect(t) && t.Node? && SlopeInPlace(vec, t, pos) && h + 1 == Height(t)
    requires left + 1 + |Flatten(t.right)| == pos
    ensures Height(t.right) == h && left + Pow2(h + 1) == pos && Pow2(h + 1) - 1 <= left && Pow2(h + 2) - 1 <= pos
    ensures Draft(vec, left, h) == (left - 1, EntryFor(t.left, left - 1))
    ensures Draft(vec, pos - 1, h) == (pos - 2, EntryFor(t.right, pos - 2))
  {
    SizesByHeight(t, h + 1);
    SizesByHeight(t.left, h);
    DraftIsEntry(vec, t.left, left, h);
    SizesByHeight(t.right, h);
    DraftIsEntry(vec, t.right, pos - 1, h);
  }

  /** The slope loop loads exactly both children of every inner node on the right slope. */
  lemma {:induction false} LoaderLoadsSlope(vec: seq<NodeData>, t: Mountain, pos: nat, h: nat)
    requires Perfect(t) && SlopeInPlace(vec, t, pos) && h == Height(t)
    ensures Pow2(h + 1) - 1 <= pos
    ensures DraftSlope(vec, pos, h) == SlopeEntries(t, pos)
  {
    if t.Node? {
      var left := pos - 1 - |Flatten(t.right)|;
      SlopeTurn(vec, t, pos, h - 1, left);
      LoaderLoadsSlope(vec, t.right, pos - 1, h - 1);
      DraftSlopeUnfolds(vec, pos, h, left);
      SlopeEntriesUnfold(t, pos, left);
    }
  }

  lemma {:induction false} SlopeEntryCount(vec: seq<NodeData>, pos: nat, h: nat)
    requires Pow2(h + 1) - 1 <= pos <= |vec|
    ensures |DraftSlope(vec, pos, h)| == 2 * h
  {
    if h > 0 {
      SlopeEntryCount(vec, pos - 1, h - 1);
    }
  }
}
