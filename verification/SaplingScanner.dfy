/** The background scanner that rebuilds the Sapling note-commitment tree from a native node. */
module SaplingScanner {
  import opened Options

  type Commitment(==)

  /** A tree is the list of its leaves; its root is taken to be injective and never the zero hash. */
  type Tree = seq<Commitment>

  datatype Root = ZeroHash | RootOf(tree: Tree)

  /** A block as the node returns it: the shielded outputs of each transaction. */
  datatype Block = Block(txs: seq<Tree>, finalRoot: Option<Root>)

  type Chain = seq<Block>

  /** The tree as of `height`: before the block at `height` (one behind the block that made the row). */
  datatype BlockState = BlockState(height: nat, prevTree: Tree, cmus: Tree)

  datatype CheckPoint = CheckPoint(height: nat, tree: Option<Tree>)

  /** What the node answers to the next request; the last answer is followed by the end of the process. */
  datatype Answer = Failed | Answered(tip: nat)

  // ---- The chain ----

  function Concat(txs: seq<Tree>): Tree {
    if txs == [] then [] else Concat(txs[..|txs| - 1]) + txs[|txs| - 1]
  }

  function Outputs(b: Block): Tree { Concat(b.txs) }

  /** All commitments of the blocks below `height`, in order. */
  function TreeAt(chain: Chain, height: nat): Tree
    requires height <= |chain|
  {
    if height == 0 then [] else TreeAt(chain, height - 1) + Outputs(chain[height - 1])
  }

  /** Roots are the node's word: a real root is the root behind the block, a zero root means no outputs. */
  ghost predicate Honest(chain: Chain) {
    forall h :: 0 <= h < |chain| ==>
      match chain[h].finalRoot
      case None => true
      case Some(ZeroHash) => Outputs(chain[h]) == []
      case Some(r) => r == RootOf(TreeAt(chain, h + 1))
  }

  ghost predicate QuietBelow(chain: Chain, height: nat) {
    forall h :: 0 <= h < height && h < |chain| ==> Outputs(chain[h]) == []
  }

  lemma {:induction false} QuietTree(chain: Chain, height: nat, floor: nat)
    requires height <= |chain| && height <= floor && QuietBelow(chain, floor)
    ensures TreeAt(chain, height) == []
  {
    if height > 0 {
      QuietTree(chain, height - 1, floor);
    }
  }

  // ---- One block at a time ----

  datatype Progress = Progress(height: nat, tree: Tree, cache: map<nat, BlockState>, synced: bool, target: Option<nat>)

  predicate Changed(tree: Tree, b: Block) {
    Some(RootOf(tree)) != b.finalRoot && b.finalRoot != Some(ZeroHash)
  }

  function Advance(chain: Chain, s: Progress): Progress
    requires s.height < |chain|
  {
    var b, next := chain[s.height], s.height + 1;
    if Changed(s.tree, b)
    then s.(height := next, tree := s.tree + Outputs(b), cache := s.cache[next := BlockState(next, s.tree, Outputs(b))])
    else s.(height := next)
  }

  /** The target is passed: in sync until the next look at the tip. */
  function Settle(s: Progress): Progress {
    if s.target.Some? && s.height > s.target.value then s.(synced := true, target := None) else s
  }

  predicate Fits(chain: Chain, s: Progress, a: Answer) {
    && (a.Answered? ==> a.tip < |chain|)
    && (s.target.Some? ==> s.height <= s.target.value < |chain|)
  }

  /** One answer at a time, without batches: a tip when none is being worked towards, else a block. */
  function Step(chain: Chain, s: Progress, a: Answer): Progress
    requires Fits(chain, s, a)
  {
    match (s.target, a)
    case (None, Failed) => s.(synced := false)
    case (None, Answered(tip)) => Settle(s.(synced := false, target := Some(tip)))
    case (Some(_), Failed) => s
    case (Some(_), Answered(_)) => Settle(Advance(chain, s))
  }

  predicate Tips(chain: Chain, script: seq<Answer>) {
    forall i :: 0 <= i < |script| && script[i].Answered? ==> script[i].tip < |chain|
  }

  predicate Ready(chain: Chain, s: Progress) {
    s.target.Some? ==> s.height <= s.target.value < |chain|
  }

  function Scan(chain: Chain, s: Progress, script: seq<Answer>): (r: Progress)
    requires Ready(chain, s) && Tips(chain, script)
    ensures Ready(chain, r)
  {
    if script == [] then s else
      Step(chain, Scan(chain, s, script[..|script| - 1]), script[|script| - 1])
  }

  lemma ScanSnoc(chain: Chain, s: Progress, script: seq<Answer>, i: nat)
    requires Ready(chain, s) && Tips(chain, script) && i < |script|
    ensures Tips(chain, script[..i]) && Tips(chain, script[..i + 1])
      && (script[i].Answered? ==> script[i].tip < |chain|)
    ensures Scan(chain, s, script[..i + 1]) == Step(chain, Scan(chain, s, script[..i]), script[i])
  {
    assert script[..i + 1][..i] == script[..i];
  }

  // ---- What is always true ----

  /** A row rebuilds the tree at its height. */
  ghost predicate RowRight(chain: Chain, h: nat, row: BlockState) {
    && 1 <= h == row.height <= |chain|
    && row.prevTree == TreeAt(chain, h - 1) && row.prevTree + row.cmus == TreeAt(chain, h)
  }

  ghost predicate CacheRight(chain: Chain, cache: map<nat, BlockState>) {
    forall h :: h in cache ==> RowRight(chain, h, cache[h])
  }

  ghost predicate Right(chain: Chain, s: Progress) {
    && s.height <= |chain| && s.tree == TreeAt(chain, s.height) && CacheRight(chain, s.cache)
    && Ready(chain, s)
  }

  /** The newest row is the tree in memory: every later block so far had no outputs. */
  ghost predicate Abreast(chain: Chain, s: Progress) {
    forall h :: h in s.cache ==> h <= s.height && (Newest(s.cache, h) ==> h <= |chain| && TreeAt(chain, h) == s.tree)
  }

  ghost predicate Newest(cache: map<nat, BlockState>, h: nat) {
    h in cache && forall k :: k in cache ==> k <= h
  }

  lemma UnchangedMeansNoOutputs(chain: Chain, h: nat)
    requires Honest(chain) && h < |chain| && !Changed(TreeAt(chain, h), chain[h])
    ensures Outputs(chain[h]) == [] && TreeAt(chain, h + 1) == TreeAt(chain, h)
  {
    var t, o := TreeAt(chain, h), Outputs(chain[h]);
    assert TreeAt(chain, h + 1) == t + o;
    if chain[h].finalRoot == Some(RootOf(t)) {
      assert t == t + o;
    }
    assert t + [] == t;
  }

  lemma AdvanceTree(chain: Chain, s: Progress)
    requires Honest(chain) && Right(chain, s) && s.height < |chain|
    ensures Advance(chain, s).tree == TreeAt(chain, s.height + 1) == s.tree + Outputs(chain[s.height])
    ensures !Changed(s.tree, chain[s.height]) ==> Advance(chain, s).tree == s.tree
  {
    if !Changed(s.tree, chain[s.height]) {
      UnchangedMeansNoOutputs(chain, s.height);
    }
  }

  lemma AdvanceAbreast(chain: Chain, s: Progress)
    requires Honest(chain) && Right(chain, s) && s.height < |chain| && Abreast(chain, s)
    ensures Abreast(chain, Advance(chain, s))
  {
    hide TreeAt, Outputs, Concat, Honest, Changed;
    AdvanceTree(chain, s);
    var r := Advance(chain, s);
    forall h | h in r.cache
      ensures h <= r.height && (Newest(r.cache, h) ==> h <= |chain| && TreeAt(chain, h) == r.tree)
    {
      if Newest(r.cache, h) && Changed(s.tree, chain[s.height]) {
        assert r.height in r.cache;
      }
    }
  }

  lemma AdvanceRight(chain: Chain, s: Progress)
    requires Honest(chain) && Right(chain, s) && s.height < |chain|
    ensures var r := Advance(chain, s); r.tree == TreeAt(chain, r.height) && CacheRight(chain, r.cache)
  {
    hide TreeAt, Outputs, Concat, Honest, Changed;
    AdvanceTree(chain, s);
  }

  /** Every answer, in any order, keeps the tree and all rows right. */
  lemma StepRight(chain: Chain, s: Progress, a: Answer)
    requires Honest(chain) && Right(chain, s) && Fits(chain, s, a)
    ensures Right(chain, Step(chain, s, a))
    ensures Abreast(chain, s) ==> Abreast(chain, Step(chain, s, a))
  {
    hide TreeAt, Outputs, Concat, Honest, CacheRight;
    if s.target.Some? && a.Answered? {
      AdvanceRight(chain, s);
      if Abreast(chain, s) {
        AdvanceAbreast(chain, s);
      }
    }
  }

  lemma {:induction false} ScanRight(chain: Chain, s: Progress, script: seq<Answer>)
    requires Honest(chain) && Right(chain, s) && Tips(chain, script)
    ensures Right(chain, Scan(chain, s, script))
    ensures Abreast(chain, s) ==> Abreast(chain, Scan(chain, s, script))
  {
    if script != [] {
      var n := |script| - 1;
      ScanRight(chain, s, script[..n]);
      StepRight(chain, Scan(chain, s, script[..n]), script[n]);
    }
  }

  // ---- Starting and restarting ----

  lemma {:induction false} NewestExists(keys: set<nat>)
    requires keys != {}
    ensures exists h :: h in keys && forall k :: k in keys ==> k <= h
  {
    var x :| x in keys;
    var rest := keys - {x};
    if rest == {} {
      assert forall k :: k in keys ==> k == x || k in rest;
    } else {
      NewestExists(rest);
      var h :| h in rest && forall k :: k in rest ==> k <= h;
      var top := if x > h then x else h;
      assert top in keys && forall k :: k in keys ==> k == x || k in rest;
    }
  }

  /** Where the scan starts when no row is found. */
  function Anchor(checkPoint: Option<CheckPoint>, activation: nat): (nat, Tree) {
    match checkPoint
    case Some(CheckPoint(height, Some(tree))) => (height + 1, tree)
    case _ => (activation, [])
  }

  /** The configuration tells the truth about the chain. */
  ghost predicate Configured(chain: Chain, checkPoint: Option<CheckPoint>, activation: nat) {
    && activation <= |chain| && QuietBelow(chain, activation)
    && (checkPoint.Some? && checkPoint.value.tree.Some? ==>
          checkPoint.value.height < |chain|
            && checkPoint.value.tree.value == TreeAt(chain, checkPoint.value.height + 1))
  }

  lemma AnchorRight(chain: Chain, checkPoint: Option<CheckPoint>, activation: nat)
    requires Configured(chain, checkPoint, activation)
    ensures var (height, tree) := Anchor(checkPoint, activation); height <= |chain| && tree == TreeAt(chain, height)
  {
    QuietTree(chain, activation, activation);
  }

  ghost predicate StartsAs(rows: map<nat, BlockState>, queryFails: bool, checkPoint: Option<CheckPoint>,
                           activation: nat, s: Progress) {
    && s.cache == rows && !s.synced && s.target == None
    && (if queryFails || rows == map[]
        then (s.height, s.tree) == Anchor(checkPoint, activation)
        else exists h :: Newest(rows, h) && s.height == rows[h].height && s.tree == rows[h].prevTree + rows[h].cmus)
  }

  /** From right rows every start is right, whichever source it uses. */
  lemma StartRight(chain: Chain, rows: map<nat, BlockState>, queryFails: bool, checkPoint: Option<CheckPoint>,
                   activation: nat, s: Progress)
    requires Configured(chain, checkPoint, activation) && CacheRight(chain, rows)
    requires StartsAs(rows, queryFails, checkPoint, activation, s)
    ensures Right(chain, s)
    ensures !queryFails ==> Abreast(chain, s)
  {
    hide TreeAt, QuietBelow;
    if queryFails || rows == map[] {
      AnchorRight(chain, checkPoint, activation);
    } else {
      var h :| Newest(rows, h) && s.height == rows[h].height && s.tree == rows[h].prevTree + rows[h].cmus;
      assert RowRight(chain, h, rows[h]);
    }
  }

  /** Killed and restarted, the scanner has the tree it had: no block with outputs is scanned twice. */
  lemma RestartKeepsTree(chain: Chain, s: Progress, checkPoint: Option<CheckPoint>, activation: nat, r: Progress)
    requires Right(chain, s) && Abreast(chain, s) && s.cache != map[]
    requires StartsAs(s.cache, false, checkPoint, activation, r)
    ensures r.tree == s.tree && r.height <= s.height
  {
    hide TreeAt;
    var h :| Newest(s.cache, h) && r.height == s.cache[h].height && r.tree == s.cache[h].prevTree + s.cache[h].cmus;
    assert RowRight(chain, h, s.cache[h]);
  }

  class Scanner {
    var processedHeight: nat
    var currentTree: Tree
    var cache: map<nat, BlockState>
    var synced: bool
    /** The tip being worked towards, while blocks are fetched. */
    ghost var target: Option<nat>

    ghost function View(): Progress
      reads this
    {
      Progress(processedHeight, currentTree, cache, synced, target)
    }

    /** Starts from the newest row; without one, or if the query fails, from the anchor. */
    constructor (rows: map<nat, BlockState>, queryFails: bool, checkPoint: Option<CheckPoint>, activation: nat)
      ensures StartsAs(rows, queryFails, checkPoint, activation, View())
      ensures cache == rows && !synced && target == None
      ensures !queryFails && rows != map[] ==>
        exists h :: && h in rows && (forall k :: k in rows ==> k <= h)
                    && processedHeight == rows[h].height && currentTree == rows[h].prevTree + rows[h].cmus
      ensures (queryFails || rows == map[]) && checkPoint.Some? && checkPoint.value.tree.Some? ==>
        processedHeight == checkPoint.value.height + 1 && currentTree == checkPoint.value.tree.value
      ensures (queryFails || rows == map[]) && (checkPoint.None? || checkPoint.value.tree.None?) ==>
        processedHeight == activation && currentTree == []
    {
      if !queryFails && rows != map[] {
        assert rows.Keys != {} by {
          var h :| h in rows;
        }
        NewestExists(rows.Keys);
        var h :| h in rows.Keys && forall k :: k in rows.Keys ==> k <= h;
        assert Newest(rows, h);
        var state := rows[h];
        var tree := state.prevTree;
        var i := 0;
        while i < |state.cmus|
          invariant i <= |state.cmus| && tree == state.prevTree + state.cmus[..i]
        {
          tree := tree + [state.cmus[i]];
          i := i + 1;
        }
        assert state.cmus[..i] == state.cmus;
        processedHeight, currentTree := state.height, tree;
      } else {
        var (height, tree) := Anchor(checkPoint, activation);
        processedHeight, currentTree := height, tree;
      }
      cache, synced, target := rows, false, None;
    }

    /** Appends the outputs of a block whose root is new, and stores the row. */
    method ProcessBlock(block: Block)
      modifies this`currentTree, this`cache
      ensures Changed(old(currentTree), block) ==>
        && currentTree == old(currentTree) + Outputs(block)
        && cache == old(cache)[processedHeight + 1 := BlockState(processedHeight + 1, old(currentTree), Outputs(block))]
      ensures !Changed(old(currentTree), block) ==> currentTree == old(currentTree) && cache == old(cache)
    {
      if Some(RootOf(currentTree)) != block.finalRoot && block.finalRoot != Some(ZeroHash) {
        var prevTree := currentTree;
        var cmus: Tree := [];
        var i := 0;
        while i < |block.txs|
          invariant i <= |block.txs| && cmus == Concat(block.txs[..i]) && currentTree == prevTree + cmus
          invariant cache == old(cache)
        {
          ConcatSnoc(block.txs, i);
          var outputs := block.txs[i];
          ghost var before := cmus;
          var j := 0;
          while j < |outputs|
            invariant j <= |outputs| && cmus == before + outputs[..j] && currentTree == prevTree + cmus
            invariant cache == old(cache)
          {
            currentTree := currentTree + [outputs[j]];
            cmus := cmus + [outputs[j]];
            j := j + 1;
          }
          assert outputs[..j] == outputs;
          i := i + 1;
        }
        assert block.txs[..i] == block.txs;
        cache := cache[processedHeight + 1 := BlockState(processedHeight + 1, prevTree, cmus)];
      }
    }

    /** Scans until the answers run out. In batches of any size it does what the plain scan does. */
    method Run(chain: Chain, script: seq<Answer>, blocksPerIteration: nat)
      requires Tips(chain, script) && target == None
      modifies this
      ensures View() == Scan(chain, old(View()), script)
    {
      hide Scan, Tips, Settle, Advance, Working, Changed, Outputs;
      ghost var start := View();
      ScanEnds(chain, start, script);
      var i := 0;
      var batch := if blocksPerIteration > 1 then blocksPerIteration else 1;
      while i < |script|
        invariant i <= |script| && target == None && Idle(chain, start, script, i, View())
      {
        synced := false;
        var answer := script[i];
        i := i + 1;
        TakeTip(chain, start, script, i, View());
        if answer.Failed? {
          continue;
        }
        var currentBlock := answer.tip;
        target := Some(currentBlock);
        ghost var turn := i;
        while processedHeight <= currentBlock
          invariant turn <= i <= |script| && target == Some(currentBlock) && !synced
          invariant Working(chain, start, script, i, View())
          decreases currentBlock + 1 - processedHeight
        {
          var batchEnd := if currentBlock < processedHeight + batch - 1 then currentBlock else processedHeight + batch - 1;
          ghost var first := processedHeight;
          while processedHeight <= batchEnd
            invariant first <= processedHeight <= batchEnd + 1
            invariant turn <= i <= |script| && target == Some(currentBlock) && !synced
            invariant Working(chain, start, script, i, View())
            decreases |script| - i
          {
            TakeBlock(chain, start, script, i, View());
            if i == |script| {
              return;
            }
            var reply := script[i];
            i := i + 1;
            if reply.Failed? {
              continue;
            }
            ghost var before := View();
            ProcessBlock(chain[processedHeight]);
            processedHeight := processedHeight + 1;
            Advanced(chain, before, View());
          }
        }
        Reached(chain, start, script, i, View());
        synced := true;
        target := None;
      }
    }
  }

  /** Between two looks at the tip. */
  ghost predicate Idle(chain: Chain, start: Progress, script: seq<Answer>, i: nat, s: Progress) {
    Ready(chain, start) && Tips(chain, script) && i <= |script| && s == Scan(chain, start, script[..i])
  }

  /** While blocks are fetched; the plain scan settles with the last block, the batched one after its loops. */
  ghost predicate Working(chain: Chain, start: Progress, script: seq<Answer>, i: nat, s: Progress) {
    && Ready(chain, start) && Tips(chain, script) && i <= |script|
    && s.target.Some? && s.target.value < |chain| && Settle(s) == Scan(chain, start, script[..i])
  }

  lemma ScanEnds(chain: Chain, start: Progress, script: seq<Answer>)
    requires Ready(chain, start) && Tips(chain, script)
    ensures Scan(chain, start, script[..0]) == start && script[..|script|] == script
  {
  }

  lemma TakeTip(chain: Chain, start: Progress, script: seq<Answer>, i: nat, s: Progress)
    requires 0 < i <= |script| && s.target == None && !s.synced
    requires Idle(chain, start, script, i - 1, s) || Idle(chain, start, script, i - 1, s.(synced := true))
    ensures script[i - 1].Failed? ==> Idle(chain, start, script, i, s)
    ensures script[i - 1].Answered? ==> Working(chain, start, script, i, s.(target := Some(script[i - 1].tip)))
  {
    ScanSnoc(chain, start, script, i - 1);
  }

  lemma TakeBlock(chain: Chain, start: Progress, script: seq<Answer>, i: nat, s: Progress)
    requires Working(chain, start, script, i, s) && s.target.Some? && s.height <= s.target.value
    ensures s.height < |chain|
    ensures i == |script| ==> s == Scan(chain, start, script)
    ensures i < |script| && script[i].Failed? ==> Working(chain, start, script, i + 1, s)
    ensures i < |script| && script[i].Answered? ==> Working(chain, start, script, i + 1, Advance(chain, s))
  {
    if i < |script| {
      ScanSnoc(chain, start, script, i);
    } else {
      assert script[..i] == script;
    }
  }

  lemma Advanced(chain: Chain, before: Progress, after: Progress)
    requires before.height < |chain|
    requires after == before.(height := before.height + 1, tree := after.tree, cache := after.cache)
    requires var b, next := chain[before.height], before.height + 1;
             if Changed(before.tree, b)
             then after.tree == before.tree + Outputs(b)
               && after.cache == before.cache[next := BlockState(next, before.tree, Outputs(b))]
             else after.tree == before.tree && after.cache == before.cache
    ensures after == Advance(chain, before)
  {
  }

  lemma Reached(chain: Chain, start: Progress, script: seq<Answer>, i: nat, s: Progress)
    requires Working(chain, start, script, i, s) && s.target.Some? && s.height > s.target.value
    ensures Idle(chain, start, script, i, s.(synced := true, target := None))
  {
  }

  lemma ConcatSnoc(txs: seq<Tree>, i: nat)
    requires i < |txs|
    ensures Concat(txs[..i + 1]) == Concat(txs[..i]) + txs[i]
  {
    assert txs[..i + 1][..i] == txs[..i];
  }

  // ---- Whole histories ----

  datatype Life = Life(queryFails: bool, script: seq<Answer>)

  /** One process after another on the same database: `starts[k]` and `ends[k]` are the k-th life's. */
  ghost predicate History(chain: Chain, checkPoint: Option<CheckPoint>, activation: nat, lives: seq<Life>,
                          starts: seq<Progress>, ends: seq<Progress>) {
    && |starts| == |ends| == |lives|
    && (forall k :: 0 <= k < |lives| ==> Tips(chain, lives[k].script) && Ready(chain, starts[k]))
    && (forall k :: 0 <= k < |lives| ==>
          && StartsAs(if k == 0 then map[] else ends[k - 1].cache, lives[k].queryFails, checkPoint, activation, starts[k])
          && ends[k] == Scan(chain, starts[k], lives[k].script))
  }

  /** Whatever fails, dies and restarts, in every life the tree is the chain's tree at the processed
      height and every stored row rebuilds the chain's tree at its own height. */
  lemma {:induction false} HistoryRight(chain: Chain, checkPoint: Option<CheckPoint>, activation: nat, lives: seq<Life>,
                                        starts: seq<Progress>, ends: seq<Progress>, k: nat)
    requires Honest(chain) && Configured(chain, checkPoint, activation)
    requires History(chain, checkPoint, activation, lives, starts, ends) && k < |lives|
    ensures Right(chain, starts[k]) && Right(chain, ends[k])
    ensures !lives[k].queryFails ==> Abreast(chain, ends[k])
  {
    hide Scan, TreeAt, RowRight;
    var rows := if k == 0 then map[] else ends[k - 1].cache;
    if k > 0 {
      HistoryRight(chain, checkPoint, activation, lives, starts, ends, k - 1);
      RightRows(chain, ends[k - 1]);
    }
    StartRight(chain, rows, lives[k].queryFails, checkPoint, activation, starts[k]);
    ScanRight(chain, starts[k], lives[k].script);
  }

  lemma RightRows(chain: Chain, s: Progress)
    requires Right(chain, s)
    ensures CacheRight(chain, s.cache)
  {
  }

  // ---- Which blocks are taken and which rows are written ----

  /** Blocks that need a row: those with outputs, and those whose root the node does not tell. */
  ghost predicate NeedsRow(b: Block) {
    Outputs(b) != [] || b.finalRoot == None
  }

  /** What is under `k` after a scan from `before` to `after`: the row of a block taken on the way that
      needs one, and otherwise whatever was there. */
  ghost predicate RowAfter(chain: Chain, before: Progress, after: Progress, k: nat)
    requires after.height <= |chain|
  {
    if before.height < k <= after.height && NeedsRow(chain[k - 1])
    then k in after.cache && after.cache[k] == BlockState(k, TreeAt(chain, k - 1), Outputs(chain[k - 1]))
    else (k in after.cache <==> k in before.cache) && (k in after.cache ==> after.cache[k] == before.cache[k])
  }

  lemma AdvanceWrites(chain: Chain, s: Progress, k: nat)
    requires Honest(chain) && Right(chain, s) && s.height < |chain|
    ensures RowAfter(chain, s, Advance(chain, s), k)
  {
    ChangedIffNeedsRow(chain, s.height);
    hide TreeAt, Outputs, Concat, Honest, Changed, CacheRight;
  }

  /** Comparing roots tells exactly the blocks that need a row. */
  lemma ChangedIffNeedsRow(chain: Chain, h: nat)
    requires Honest(chain) && h < |chain|
    ensures Changed(TreeAt(chain, h), chain[h]) <==> NeedsRow(chain[h])
  {
    hide Outputs, Concat;
    var t, o := TreeAt(chain, h), Outputs(chain[h]);
    assert TreeAt(chain, h + 1) == t + o;
    assert o != [] ==> |t + o| > |t|;
    assert t + [] == t;
  }

  /** A scan only goes forward, and it writes exactly one row for each block it takes that needs one. */
  lemma {:induction false} RowsWritten(chain: Chain, s: Progress, script: seq<Answer>, k: nat)
    requires Honest(chain) && Right(chain, s) && Tips(chain, script)
    ensures var r := Scan(chain, s, script);
            s.height <= r.height <= |chain| && RowAfter(chain, s, r, k)
  {
    hide TreeAt, Outputs, Concat, Honest, NeedsRow, CacheRight, Advance;
    if script != [] {
      var n := |script| - 1;
      RowsWritten(chain, s, script[..n], k);
      ScanRight(chain, s, script[..n]);
      StepWrites(chain, Scan(chain, s, script[..n]), script[n], k);
    }
  }

  lemma StepWrites(chain: Chain, s: Progress, a: Answer, k: nat)
    requires Honest(chain) && Right(chain, s) && Fits(chain, s, a)
    ensures var r := Step(chain, s, a);
            s.height <= r.height <= s.height + 1 && r.height <= |chain| && RowAfter(chain, s, r, k)
  {
    hide TreeAt, Outputs, Concat, Honest, NeedsRow, CacheRight;
    if s.target.Some? && a.Answered? {
      AdvanceWrites(chain, s, k);
    }
  }

  /** After a start from a readable checkpoint no block up to the checkpoint is taken: the scan stays
      behind it and the rows up to there stay as they were. */
  lemma NothingBelowCheckPoint(chain: Chain, rows: map<nat, BlockState>, queryFails: bool, checkPoint: CheckPoint,
                               activation: nat, s: Progress, script: seq<Answer>, k: nat)
    requires Honest(chain) && Configured(chain, Some(checkPoint), activation) && CacheRight(chain, rows)
    requires Tips(chain, script)
    requires checkPoint.tree.Some? && (queryFails || rows == map[])
    requires StartsAs(rows, queryFails, Some(checkPoint), activation, s) && k <= checkPoint.height + 1
    ensures Ready(chain, s)
    ensures var r := Scan(chain, s, script);
            && r.height >= checkPoint.height + 1
            && (k in r.cache <==> k in rows) && (k in rows ==> r.cache[k] == rows[k])
  {
    StartRight(chain, rows, queryFails, Some(checkPoint), activation, s);
    RowsWritten(chain, s, script, k);
  }

  // ---- The synced flag ----

  lemma {:induction false} TreePrefix(chain: Chain, a: nat, b: nat)
    requires a <= b <= |chain|
    ensures TreeAt(chain, a) <= TreeAt(chain, b)
    decreases b
  {
    if a < b {
      TreePrefix(chain, a, b - 1);
    }
  }

  /** The last tip the node has answered, starting from the one worked towards at the beginning. */
  ghost function LastTip(chain: Chain, s: Progress, script: seq<Answer>): Option<nat>
    requires Ready(chain, s) && Tips(chain, script)
  {
    if script == [] then s.target else
      var n := |script| - 1;
      if Scan(chain, s, script[..n]).target.None? && script[n].Answered? then Some(script[n].tip)
      else LastTip(chain, s, script[..n])
  }

  /** Over every scan, from any start: the flag is up only with every commitment up to the last answered
      tip in the tree, and never while blocks are being fetched. */
  lemma {:induction false} SyncedCoversTip(chain: Chain, s: Progress, script: seq<Answer>)
    requires Honest(chain) && Right(chain, s) && !s.synced && Tips(chain, script)
    ensures var r, tip := Scan(chain, s, script), LastTip(chain, s, script);
            && (r.target.Some? ==> !r.synced && tip == r.target)
            && (r.synced ==> tip.Some? && tip.value < r.height && TreeAt(chain, tip.value + 1) <= r.tree)
  {
    hide TreeAt, Outputs, CacheRight, Step, Settle, Advance, Concat;
    if script != [] {
      var n := |script| - 1;
      SyncedCoversTip(chain, s, script[..n]);
      ScanRight(chain, s, script[..n]);
      StepCoversTip(chain, Scan(chain, s, script[..n]), script[n]);
    }
  }

  /** The flag is up exactly right after the answer that completed the work towards a tip. */
  lemma {:induction false} SyncedIff(chain: Chain, s: Progress, script: seq<Answer>)
    requires Ready(chain, s) && !s.synced && Tips(chain, script)
    ensures var r := Scan(chain, s, script);
            && (r.target.Some? ==> !r.synced)
            && (r.synced <==> script != [] && script[|script| - 1].Answered? && r.target == None)
  {
    if script != [] {
      SyncedIff(chain, s, script[..|script| - 1]);
    }
  }

  lemma StepCoversTip(chain: Chain, s: Progress, a: Answer)
    requires Honest(chain) && Right(chain, s) && Fits(chain, s, a) && (s.target.Some? ==> !s.synced)
    ensures var r := Step(chain, s, a);
            && (r.target.Some? ==> !r.synced)
            && (r.target.Some? ==> if s.target.Some? then r.target == s.target else a.Answered? && r.target.value == a.tip)
            && (r.synced ==>
                  exists tip: nat :: && (s.target == Some(tip) || (s.target == None && a == Answered(tip)))
                                     && tip < r.height && TreeAt(chain, tip + 1) <= r.tree)
  {
    hide TreeAt, Advance;
    StepRight(chain, s, a);
    NotWhileWorking(chain, s, a);
    var r := Step(chain, s, a);
    if r.synced {
      var tip := if s.target.Some? then s.target.value else a.tip;
      RightTree(chain, r);
      SettledPast(chain, s, a, tip);
      TreePrefix(chain, tip + 1, r.height);
      assert s.target == Some(tip) || (s.target == None && a == Answered(tip));
    }
  }

  lemma RightTree(chain: Chain, s: Progress)
    requires Right(chain, s)
    ensures s.height <= |chain| && s.tree == TreeAt(chain, s.height)
  {
  }

  lemma NotWhileWorking(chain: Chain, s: Progress, a: Answer)
    requires Fits(chain, s, a) && (s.target.Some? ==> !s.synced)
    ensures var r := Step(chain, s, a);
            r.target.Some? ==>
              !r.synced && if s.target.Some? then r.target == s.target else a.Answered? && r.target.value == a.tip
  {
  }

  lemma SettledPast(chain: Chain, s: Progress, a: Answer, tip: nat)
    requires Fits(chain, s, a) && (s.target.Some? ==> !s.synced) && Step(chain, s, a).synced
    requires s.target == Some(tip) || (s.target == None && a == Answered(tip))
    ensures tip < Step(chain, s, a).height
  {
  }

  function Answers(script: seq<Answer>): nat {
    if script == [] then 0 else Answers(script[..|script| - 1]) + if script[|script| - 1].Answered? then 1 else 0
  }

  /** One block per answer, however many requests fail in between. */
  lemma {:induction false} BlocksTaken(chain: Chain, s: Progress, script: seq<Answer>)
    requires Ready(chain, s) && Tips(chain, script) && s.target.Some? && !s.synced
    requires Answers(script) <= s.target.value - s.height
    ensures var r := Scan(chain, s, script);
            r.height == s.height + Answers(script) && r.target == s.target && !r.synced
  {
    if script != [] {
      BlocksTaken(chain, s, script[..|script| - 1]);
    }
  }

  /** With one answer for each missing block the scan gets there. */
  lemma ScanCompletes(chain: Chain, s: Progress, script: seq<Answer>, last: Answer)
    requires Ready(chain, s) && Tips(chain, script + [last]) && s.target.Some? && !s.synced
    requires Answers(script) == s.target.value - s.height && last.Answered?
    ensures var r := Scan(chain, s, script + [last]);
            r.synced && r.target == None && r.height == s.target.value + 1
  {
    assert (script + [last])[..|script|] == script;
    assert Tips(chain, script) by {
      assert forall i :: 0 <= i < |script| ==> (script + [last])[i] == script[i];
    }
    BlocksTaken(chain, s, script);
  }
}
