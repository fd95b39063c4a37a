/** Why the recently-spent cache is right: in every legal run it agrees with the ledger, so it turns
    any stale list of unspents into the true one. */
module StaleSnapshots {
  import opened Ledger
  import opened Options
  import opened RecentlySpent

  /** The cache after every event of the log; a receipt does not touch it. */
  ghost function Run(script: string, log: seq<Event>): Cache {
    if log == [] then Cache(map[], map[]) else
      var before := Run(script, log[..|log| - 1]);
      match log[|log| - 1]
      case Send(inputs, hash, outputs) => Spend(before, inputs, OwnOutputs(script, hash, outputs))
      case Receive(_) => before
  }

  // ---- Facts about the ledger alone ----

  /** Nothing the log talks about carries a hash it has not seen. */
  ghost predicate HashesSeen(script: string, genesis: set<Coin>, log: seq<Event>) {
    && HashesOf(Utxo(script, genesis, log)) <= Hashes(genesis, log)
    && HashesOf(Spent(log)) <= Hashes(genesis, log)
    && forall a :: HashesOf(Descendants(script, log, a)) <= Hashes(genesis, log)
  }

  lemma {:induction false} HashesAreSeen(script: string, genesis: set<Coin>, log: seq<Event>)
    requires Legal(script, genesis, log)
    ensures HashesSeen(script, genesis, log)
  {
    if log != [] {
      HashesAreSeen(script, genesis, log[..|log| - 1]);
    }
  }

  lemma NewHashNotIn(coins: set<Coin>, hashes: set<nat>, c: Coin)
    requires HashesOf(coins) <= hashes && c.outpoint.hash !in hashes
    ensures c !in coins
  {
    assert c in coins ==> c.outpoint.hash in HashesOf(coins);
  }

  /** Coins of a transaction nobody has seen are neither unspent, nor spent, nor anyone's descendants. */
  lemma NewCoinsAreNew(script: string, genesis: set<Coin>, log: seq<Event>, coins: set<Coin>)
    requires Legal(script, genesis, log) && HashesOf(coins) !! Hashes(genesis, log)
    ensures coins !! Utxo(script, genesis, log) + Spent(log)
    ensures forall a :: coins !! Descendants(script, log, a)
  {
    HashesAreSeen(script, genesis, log);
    var hashes := Hashes(genesis, log);
    forall b | b in coins
      ensures b !in Utxo(script, genesis, log) + Spent(log)
      ensures forall a :: b !in Descendants(script, log, a)
    {
      assert b.outpoint.hash in HashesOf(coins);
      NewHashNotIn(Utxo(script, genesis, log), hashes, b);
      NewHashNotIn(Spent(log), hashes, b);
      forall a ensures b !in Descendants(script, log, a) {
        NewHashNotIn(Descendants(script, log, a), hashes, b);
      }
    }
  }

  /** A coin is spent at most once: what is spent is never unspent again. */
  lemma {:induction false} SpentIsNotUnspent(script: string, genesis: set<Coin>, log: seq<Event>)
    requires Legal(script, genesis, log)
    ensures Spent(log) !! Utxo(script, genesis, log)
  {
    if log != [] {
      var before := log[..|log| - 1];
      SpentIsNotUnspent(script, genesis, before);
      match log[|log| - 1]
      case Send(inputs, hash, outputs) =>
        NewCoinsAreNew(script, genesis, before, OwnOutputs(script, hash, outputs));
      case Receive(coins) => NewCoinsAreNew(script, genesis, before, coins);
    }
  }

  /** Only spent coins have descendants. */
  lemma {:induction false} OnlySpentHaveDescendants(script: string, log: seq<Event>, a: Coin)
    requires a !in Spent(log)
    ensures Descendants(script, log, a) == {}
  {
    if log != [] {
      OnlySpentHaveDescendants(script, log[..|log| - 1], a);
    }
  }

  // ---- The invariant of every reachable state ----

  /** The stored set of a spent coin is exactly its live descendants. */
  ghost predicate Forward(script: string, genesis: set<Coin>, log: seq<Event>, c: Cache) {
    && c.inputToOutput.Keys == Spent(log)
    && forall a :: a in c.inputToOutput ==>
         c.inputToOutput[a] == Descendants(script, log, a) * Utxo(script, genesis, log)
  }

  /** The two maps index each other on every live coin. */
  ghost predicate Mirrored(live: set<Coin>, c: Cache) {
    forall a, b :: b in live ==> (Leads(c, a, b) <==> a in c.inputToOutput && b in c.inputToOutput[a])
  }

  ghost predicate Agrees(script: string, genesis: set<Coin>, log: seq<Event>, c: Cache) {
    && Forward(script, genesis, log, c)
    && Mirrored(Utxo(script, genesis, log), c)
    && HashesOf(c.outputToInput.Keys) <= Hashes(genesis, log)
  }

  lemma {:induction false} CacheMatchesLedger(script: string, genesis: set<Coin>, log: seq<Event>)
    requires Legal(script, genesis, log)
    ensures Agrees(script, genesis, log, Run(script, log))
  {
    if log != [] {
      var before := log[..|log| - 1];
      CacheMatchesLedger(script, genesis, before);
      match log[|log| - 1]
      case Send(inputs, hash, outputs) =>
        SendKeepsForward(script, genesis, log, Run(script, before));
        SendKeepsMirrored(script, genesis, log, Run(script, before));
      case Receive(coins) => ReceiveKeepsAgreement(script, genesis, log, Run(script, before));
    }
  }

  lemma ReceiveKeepsAgreement(script: string, genesis: set<Coin>, log: seq<Event>, c: Cache)
    requires log != [] && log[|log| - 1].Receive? && Legal(script, genesis, log)
    requires Agrees(script, genesis, log[..|log| - 1], c)
    ensures Agrees(script, genesis, log, c)
  {
    var before, coins := log[..|log| - 1], log[|log| - 1].coins;
    NewCoinsAreNew(script, genesis, before, coins);
    forall a, b | b in coins ensures !Leads(c, a, b) {
      assert b.outpoint.hash in HashesOf(coins);
      NewHashNotIn(c.outputToInput.Keys, Hashes(genesis, before), b);
    }
  }

  /** The inputs that hit a spent coin's entry are exactly those among its descendants. */
  lemma HitsAreDescendants(script: string, genesis: set<Coin>, log: seq<Event>, c: Cache, a: Coin, inputs: set<Coin>)
    requires Agrees(script, genesis, log, c) && inputs <= Utxo(script, genesis, log) && a in c.inputToOutput
    ensures Hits(c, a, inputs) == inputs * Descendants(script, log, a)
  {
  }

  lemma SendKeepsForward(script: string, genesis: set<Coin>, log: seq<Event>, c: Cache)
    requires log != [] && log[|log| - 1].Send? && Legal(script, genesis, log)
    requires Agrees(script, genesis, log[..|log| - 1], c)
    ensures var Send(inputs, hash, outputs) := log[|log| - 1];
            Forward(script, genesis, log, Spend(c, inputs, OwnOutputs(script, hash, outputs)))
  {
    var before := log[..|log| - 1];
    var Send(inputs, hash, outputs) := log[|log| - 1];
    var own := OwnOutputs(script, hash, outputs);
    NewCoinsAreNew(script, genesis, before, own);
    SpentIsNotUnspent(script, genesis, before);
    var live := Utxo(script, genesis, before);
    var c' := Spend(c, inputs, own);
    forall a | a in c'.inputToOutput
      ensures c'.inputToOutput[a] == Descendants(script, log, a) * Utxo(script, genesis, log)
    {
      var d := Descendants(script, before, a);
      if a in inputs {
        OnlySpentHaveDescendants(script, before, a);
        assert Descendants(script, log, a) == own;
      } else {
        HitsAreDescendants(script, genesis, before, c, a, inputs);
        SpendForwardAt(c, live, inputs, own, a, d);
      }
    }
  }

  /** One entry of the forward map across a send; `d` are the old descendants of `a`. */
  lemma SpendForwardAt(c: Cache, live: set<Coin>, inputs: set<Coin>, own: set<Coin>, a: Coin, d: set<Coin>)
    requires a in c.inputToOutput && a !in inputs && c.inputToOutput[a] == d * live
    requires Hits(c, a, inputs) == inputs * d
    requires inputs <= live && own !! live + d
    ensures Spend(c, inputs, own).inputToOutput[a] ==
            (if inputs !! {a} + d then d else d + own) * (live - inputs + own)
  {
    if inputs !! {a} + d {
      assert d * live == d * (live - inputs + own);
    } else {
      var i :| i in inputs && i in {a} + d;
      assert i in inputs * d && i in Hits(c, a, inputs);
      assert d * live - inputs * d + own == (d + own) * (live - inputs + own);
    }
  }

  lemma SendKeepsMirrored(script: string, genesis: set<Coin>, log: seq<Event>, c: Cache)
    requires log != [] && log[|log| - 1].Send? && Legal(script, genesis, log)
    requires Agrees(script, genesis, log[..|log| - 1], c)
    ensures var Send(inputs, hash, outputs) := log[|log| - 1];
            var c' := Spend(c, inputs, OwnOutputs(script, hash, outputs));
            && Mirrored(Utxo(script, genesis, log), c')
            && HashesOf(c'.outputToInput.Keys) <= Hashes(genesis, log)
  {
    var before := log[..|log| - 1];
    var Send(inputs, hash, outputs) := log[|log| - 1];
    var own := OwnOutputs(script, hash, outputs);
    NewCoinsAreNew(script, genesis, before, own);
    SpentIsNotUnspent(script, genesis, before);
    var live := Utxo(script, genesis, before);
    SpendKeepsMirrored(c, live, inputs, own);
  }

  /** The step itself, away from the ledger. */
  lemma SpendKeepsMirrored(c: Cache, live: set<Coin>, inputs: set<Coin>, own: set<Coin>)
    requires Mirrored(live, c) && inputs <= live && own !! live
    requires c.inputToOutput.Keys !! live
    requires forall a :: a in c.inputToOutput ==> c.inputToOutput[a] <= live
    ensures Mirrored(live - inputs + own, Spend(c, inputs, own))
  {
  }

  // ---- What a caller gets ----

  /** In every reachable state the substitution is well defined and one round of it is enough. */
  lemma ReachableIsSettled(script: string, genesis: set<Coin>, log: seq<Event>)
    requires Legal(script, genesis, log)
    ensures Settled(Run(script, log).inputToOutput)
  {
    CacheMatchesLedger(script, genesis, log);
    SpentIsNotUnspent(script, genesis, log);
  }

  /** `b` is in the snapshot or descends from a coin of the snapshot. */
  ghost predicate Linked(script: string, log: seq<Event>, snapshot: set<Coin>, b: Coin) {
    b in snapshot || exists a :: a in snapshot && b in Descendants(script, log, a)
  }

  /** Resolving any list whatsoever: what is not spent stays, and the live descendants of what is
      spent are added. Nothing the cache knows to be spent is returned. */
  lemma ResolveAnyList(script: string, genesis: set<Coin>, log: seq<Event>, listed: set<Coin>)
    requires Legal(script, genesis, log)
    ensures var r := Resolve(Run(script, log).inputToOutput, listed);
            && r !! Spent(log)
            && forall b :: b in r <==>
                 || (b in listed && b !in Spent(log))
                 || (b in Utxo(script, genesis, log) && exists a :: a in listed && b in Descendants(script, log, a))
  {
    CacheMatchesLedger(script, genesis, log);
    SpentIsNotUnspent(script, genesis, log);
    var m := Run(script, log).inputToOutput;
    forall a, b | a in listed && b in Descendants(script, log, a) && b in Utxo(script, genesis, log)
      ensures b in Replacements(m, listed)
    {
      if a !in Spent(log) {
        OnlySpentHaveDescendants(script, log, a);
      }
      assert b in m[a];
    }
  }

  lemma {:induction false} PrefixFacts(script: string, genesis: set<Coin>, log: seq<Event>, k: nat)
    requires Legal(script, genesis, log) && k <= |log|
    ensures Legal(script, genesis, log[..k])
    ensures Hashes(genesis, log[..k]) <= Hashes(genesis, log)
    ensures Spent(log[..k]) <= Spent(log)
    ensures Utxo(script, genesis, log[..k]) - Spent(log) <= Utxo(script, genesis, log)
  {
    if k == |log| {
      assert log[..k] == log;
    } else {
      assert log[..|log| - 1][..k] == log[..k];
      PrefixFacts(script, genesis, log[..|log| - 1], k);
    }
  }

  /** A live coin is out of a snapshot's reach exactly when it counts as unseen. */
  lemma {:induction false} UnseenIsUnlinked(script: string, genesis: set<Coin>, log: seq<Event>, k: nat)
    requires Legal(script, genesis, log) && k <= |log|
    ensures Unseen(script, log, k) <= Utxo(script, genesis, log)
    ensures forall b :: b in Utxo(script, genesis, log) ==>
              (b in Unseen(script, log, k) <==> !Linked(script, log, Utxo(script, genesis, log[..k]), b))
  {
    if k == |log| {
      assert log[..k] == log;
    } else {
      var before := log[..|log| - 1];
      assert before[..k] == log[..k];
      UnseenIsUnlinked(script, genesis, before, k);
      var snapshot := Utxo(script, genesis, log[..k]);
      PrefixFacts(script, genesis, before, k);
      HashesAreSeen(script, genesis, log[..k]);
      match log[|log| - 1]
      case Send(inputs, hash, outputs) =>
        var own := OwnOutputs(script, hash, outputs);
        NewCoinsAreNew(script, genesis, before, own);
        forall b | b in own ensures b !in snapshot {
          NewHashNotIn(snapshot, Hashes(genesis, before), b);
        }
        forall b | b in Utxo(script, genesis, log)
          ensures b in Unseen(script, log, k) <==> !Linked(script, log, snapshot, b)
        {
          if b in own {
            OwnOutputLinked(script, log, before, snapshot, b);
          } else {
            assert forall a :: b in Descendants(script, log, a) <==> b in Descendants(script, before, a);
          }
        }
      case Receive(coins) =>
        NewCoinsAreNew(script, genesis, before, coins);
        forall b | b in coins ensures b !in snapshot {
          assert b.outpoint.hash in HashesOf(coins);
          NewHashNotIn(snapshot, Hashes(genesis, before), b);
        }
        assert forall a :: Descendants(script, log, a) == Descendants(script, before, a);
    }
  }

  /** A new output is linked to a snapshot exactly when one of the spent inputs was. */
  lemma OwnOutputLinked(script: string, log: seq<Event>, before: seq<Event>, snapshot: set<Coin>, b: Coin)
    requires log != [] && log[|log| - 1].Send? && before == log[..|log| - 1]
    requires var Send(inputs, hash, outputs) := log[|log| - 1]; b in OwnOutputs(script, hash, outputs)
    requires b !in snapshot && forall a :: b !in Descendants(script, before, a)
    ensures Linked(script, log, snapshot, b) <==>
            exists i :: i in log[|log| - 1].inputs && Linked(script, before, snapshot, i)
  {
    var inputs := log[|log| - 1].inputs;
    forall i | i in inputs && Linked(script, before, snapshot, i) ensures Linked(script, log, snapshot, b) {
      if i in snapshot {
        assert b in Descendants(script, log, i);
      } else {
        var a :| a in snapshot && i in Descendants(script, before, a);
        assert b in Descendants(script, log, a);
      }
    }
    if Linked(script, log, snapshot, b) {
      var a :| a in snapshot && b in Descendants(script, log, a);
      var i :| i in inputs && i in {a} + Descendants(script, before, a);
      assert Linked(script, before, snapshot, i);
    }
  }

  /** The main theorem: whatever prefix of the log the daemon has indexed, resolving its list gives
      the true unspent set, up to coins that reached the wallet after the snapshot. */
  lemma StaleSnapshotRepaired(script: string, genesis: set<Coin>, log: seq<Event>, k: nat)
    requires Legal(script, genesis, log) && k <= |log|
    ensures Resolve(Run(script, log).inputToOutput, Utxo(script, genesis, log[..k])) ==
            Utxo(script, genesis, log) - Unseen(script, log, k)
    ensures OnlySends(log[k..]) ==>
            Resolve(Run(script, log).inputToOutput, Utxo(script, genesis, log[..k])) == Utxo(script, genesis, log)
  {
    var snapshot := Utxo(script, genesis, log[..k]);
    ResolveAnyList(script, genesis, log, snapshot);
    UnseenIsUnlinked(script, genesis, log, k);
    PrefixFacts(script, genesis, log, k);
    SpentIsNotUnspent(script, genesis, log);
    var r, now := Resolve(Run(script, log).inputToOutput, snapshot), Utxo(script, genesis, log);
    forall b ensures b in r <==> b in now && Linked(script, log, snapshot, b) {}
    if OnlySends(log[k..]) {
      SendsLeaveNothingUnseen(script, genesis, log, k);
    }
  }

  lemma {:induction false} SendsLeaveNothingUnseen(script: string, genesis: set<Coin>, log: seq<Event>, k: nat)
    requires Legal(script, genesis, log) && k <= |log| && OnlySends(log[k..])
    ensures Unseen(script, log, k) == {}
  {
    if k < |log| {
      assert log[..|log| - 1][k..] == log[k..][..|log| - 1 - k];
      assert log[|log| - 1] in log[k..];
      SendsLeaveNothingUnseen(script, genesis, log[..|log| - 1], k);
    }
  }

  /** No coin has two entries. */
  ghost predicate OnePerCoin(us: set<UnspentInfo>) {
    forall u, v :: u in us && v in us && ToCoin(u) == ToCoin(v) ==> u == v
  }

  /** An unspent coin is listed with two entries. */
  ghost predicate ListedRepeatedly(log: seq<Event>, listed: set<UnspentInfo>) {
    exists u, v :: u in listed && v in listed && u != v && ToCoin(u) == ToCoin(v) && ToCoin(u) !in Spent(log)
  }

  /** `u` is listed with a height and live, and so is listed a spent coin it descends from. */
  ghost predicate ListedTwice(script: string, genesis: set<Coin>, log: seq<Event>, listed: set<UnspentInfo>,
                              u: UnspentInfo) {
    && u in listed && u.height.Some? && ToCoin(u) in Utxo(script, genesis, log)
    && exists a :: a in Coins(listed) && ToCoin(u) in Descendants(script, log, a)
  }

  /** A listed coin is also a replacement exactly when it is live and descends from a listed coin. */
  lemma ReplacedAndListed(script: string, genesis: set<Coin>, log: seq<Event>, listed: set<Coin>, b: Coin)
    requires Legal(script, genesis, log)
    ensures b in Replacements(Run(script, log).inputToOutput, listed) <==>
            b in Utxo(script, genesis, log) && exists a :: a in listed && b in Descendants(script, log, a)
    ensures b in Utxo(script, genesis, log) ==> b !in Run(script, log).inputToOutput
  {
    CacheMatchesLedger(script, genesis, log);
    SpentIsNotUnspent(script, genesis, log);
    var m := Run(script, log).inputToOutput;
    if a :| a in listed && b in Descendants(script, log, a) && b in Utxo(script, genesis, log) {
      if a !in Spent(log) {
        OnlySpentHaveDescendants(script, log, a);
      }
      assert b in m[a];
    }
  }

  /** Kept entries carry the daemon's height and replacements carry none. So a coin comes back with two
      entries exactly when it was listed twice and is unspent, or when it is listed as mined together
      with a spent ancestor. A coin the daemon lists as not yet mined equals its replacement. */
  lemma ListedTwiceIff(script: string, genesis: set<Coin>, log: seq<Event>, listed: set<UnspentInfo>)
    requires Legal(script, genesis, log)
    ensures !OnePerCoin(Repaired(Run(script, log).inputToOutput, listed)) <==>
            ListedRepeatedly(log, listed) || (exists u :: ListedTwice(script, genesis, log, listed, u))
  {
    var m := Run(script, log).inputToOutput;
    var r := Repaired(m, listed);
    CacheMatchesLedger(script, genesis, log);
    SpentIsNotUnspent(script, genesis, log);
    forall b ensures b in Replacements(m, Coins(listed)) <==>
        b in Utxo(script, genesis, log) && exists a :: a in Coins(listed) && b in Descendants(script, log, a)
    {
      ReplacedAndListed(script, genesis, log, Coins(listed), b);
    }
    TwoEntries(script, genesis, log, listed, m, r);
    if ListedRepeatedly(log, listed) || (exists u :: ListedTwice(script, genesis, log, listed, u)) {
      OneEntry(script, genesis, log, listed, m, r);
    }
  }

  /** What the two halves of the equivalence know about the cache. */
  ghost predicate RepairFacts(script: string, genesis: set<Coin>, log: seq<Event>, listed: set<UnspentInfo>, m: Links,
                              r: set<UnspentInfo>) {
    && r == Repaired(m, listed) && m.Keys == Spent(log) && Spent(log) !! Utxo(script, genesis, log)
    && forall b :: b in Replacements(m, Coins(listed)) <==>
         b in Utxo(script, genesis, log) && exists a :: a in Coins(listed) && b in Descendants(script, log, a)
  }

  lemma TwoEntries(script: string, genesis: set<Coin>, log: seq<Event>, listed: set<UnspentInfo>, m: Links,
                   r: set<UnspentInfo>)
    requires RepairFacts(script, genesis, log, listed, m, r)
    ensures !OnePerCoin(r) ==>
            ListedRepeatedly(log, listed) || (exists u :: ListedTwice(script, genesis, log, listed, u))
  {
    hide Utxo, Spent, Descendants, Replacements;
    if !OnePerCoin(r) {
      var u, v :| u in r && v in r && ToCoin(u) == ToCoin(v) && u != v;
      var w := if u.height.Some? then u else v;
      if !(u in listed && v in listed) {
        assert ToCoin(w) in Replacements(m, Coins(listed));
        assert ListedTwice(script, genesis, log, listed, w);
      }
    }
  }

  lemma OneEntry(script: string, genesis: set<Coin>, log: seq<Event>, listed: set<UnspentInfo>, m: Links,
                 r: set<UnspentInfo>)
    requires RepairFacts(script, genesis, log, listed, m, r)
    requires ListedRepeatedly(log, listed) || (exists u :: ListedTwice(script, genesis, log, listed, u))
    ensures !OnePerCoin(r)
  {
    hide Utxo, Spent, Descendants, Replacements;
    if u :| ListedTwice(script, genesis, log, listed, u) {
      assert u in r && FromCoin(ToCoin(u)) in r;
    } else {
      var u, v :| u in listed && v in listed && u != v && ToCoin(u) == ToCoin(v) && ToCoin(u) !in Spent(log);
      assert u in r && v in r;
    }
  }

  /** A true snapshot with one entry per coin comes back with one entry per coin. */
  lemma SnapshotNeverListedTwice(script: string, genesis: set<Coin>, log: seq<Event>, k: nat, listed: set<UnspentInfo>)
    requires Legal(script, genesis, log) && k <= |log|
    requires Coins(listed) == Utxo(script, genesis, log[..k]) && OnePerCoin(listed)
    ensures OnePerCoin(Repaired(Run(script, log).inputToOutput, listed))
  {
    ListedTwiceIff(script, genesis, log, listed);
    forall u | u in listed ensures !ListedTwice(script, genesis, log, listed, u) {
      forall a | a in Coins(listed) ensures ToCoin(u) !in Descendants(script, log, a) {
        assert ToCoin(u) in Coins(listed);
        LaterDescendantsAreNew(script, genesis, log, k, a, ToCoin(u));
      }
    }
  }

  /** One send spends a coin and pays change; the daemon lists both. The change comes back twice exactly
      when the daemon gives it a height. */
  method ChangeListedWithInput(height: Option<nat>) returns (r: set<UnspentInfo>)
    ensures height.Some? ==> r == {UnspentInfo(OutPoint(2, 0), 9, height), UnspentInfo(OutPoint(2, 0), 9, None)}
    ensures height.None? ==> r == {UnspentInfo(OutPoint(2, 0), 9, None)}
    ensures OnePerCoin(r) <==> height.None?
  {
    hide Spend, OwnOutputs, Repaired, Coins, Settled;
    var cache := new RecentlySpentOutPoints("own");
    var input, change := UnspentInfo(OutPoint(1, 0), 10, Some(5)), UnspentInfo(OutPoint(2, 0), 9, height);
    var outputs := [TransactionOutput(9, "own")];
    cache.AddSpent([input], 2, outputs);
    ChangeOf(input, change, outputs);
    r := cache.ReplaceSpentOutputsWithCache({input, change});
    assert height.Some? ==> change in r && FromCoin(ToCoin(change)) in r;
  }

  lemma ChangeOf(input: UnspentInfo, change: UnspentInfo, outputs: seq<TransactionOutput>)
    requires input == UnspentInfo(OutPoint(1, 0), 10, Some(5)) && change.outpoint == OutPoint(2, 0) && change.value == 9
    requires outputs == [TransactionOutput(9, "own")]
    ensures var m := Spend(Cache(map[], map[]), Coins(set u | u in [input]), OwnOutputs("own", 2, outputs)).inputToOutput;
            && m == map[ToCoin(input) := {ToCoin(change)}] && Settled(m)
            && Repaired(m, {input, change}) == {change, FromCoin(ToCoin(change))}
  {
    assert OutputAt(2, outputs, 0) == ToCoin(change);
    assert OwnOutputs("own", 2, outputs) == {ToCoin(change)};
    assert Coins(set u | u in [input]) == {ToCoin(input)};
    assert Coins({input, change}) == {ToCoin(input), ToCoin(change)};
    var m := Spend(Cache(map[], map[]), {ToCoin(input)}, {ToCoin(change)}).inputToOutput;
    assert m == map[ToCoin(input) := {ToCoin(change)}];
    assert Replacements(m, {ToCoin(input), ToCoin(change)}) == {ToCoin(change)};
  }

  /** While `a` is unspent it has no descendants, and later ones are new coins. */
  lemma {:induction false} LaterDescendantsAreNew(script: string, genesis: set<Coin>, log: seq<Event>, k: nat, a: Coin,
                                                  b: Coin)
    requires Legal(script, genesis, log) && k <= |log|
    requires a in Utxo(script, genesis, log[..k]) && b in Utxo(script, genesis, log[..k])
    ensures b !in Descendants(script, log, a)
  {
    PrefixFacts(script, genesis, log, k);
    if k == |log| {
      assert log[..k] == log;
      SpentIsNotUnspent(script, genesis, log);
      OnlySpentHaveDescendants(script, log, a);
    } else {
      var before := log[..|log| - 1];
      assert before[..k] == log[..k];
      LaterDescendantsAreNew(script, genesis, before, k, a, b);
      if log[|log| - 1].Send? {
        PrefixFacts(script, genesis, before, k);
        HashesAreSeen(script, genesis, log[..k]);
        assert b.outpoint.hash in HashesOf(Utxo(script, genesis, log[..k]));
      }
    }
  }

  // ---- Value ----

  lemma {:induction false} TotalRemove(coins: set<Coin>, c: Coin)
    requires c in coins
    ensures Total(coins) == c.value + Total(coins - {c})
  {
    var d :| d in coins && Total(coins) == d.value + Total(coins - {d});
    if d != c {
      TotalRemove(coins - {d}, c);
      TotalRemove(coins - {c}, d);
      assert coins - {d} - {c} == coins - {c} - {d};
    }
  }

  lemma {:induction false} TotalSplit(a: set<Coin>, b: set<Coin>)
    requires a !! b
    ensures Total(a + b) == Total(a) + Total(b)
  {
    if a == {} {
      assert a + b == b;
    } else {
      var c :| c in a;
      TotalRemove(a, c);
      TotalRemove(a + b, c);
      assert a + b - {c} == a - {c} + b;
      TotalSplit(a - {c}, b);
    }
  }

  /** As long as indices fit 32 bits the last output is a coin of its own. */
  lemma LastOutputIsSeparate(script: string, hash: nat, outputs: seq<TransactionOutput>, n: nat)
    requires |outputs| == n + 1 <= U32_RANGE
    ensures var rest, last := OwnOutputs(script, hash, outputs[..n]), OutputAt(hash, outputs, n);
            && last !in rest
            && OwnOutputs(script, hash, outputs) == rest + if outputs[n].scriptPubkey == script then {last} else {}
  {
    var rest, last := OwnOutputs(script, hash, outputs[..n]), OutputAt(hash, outputs, n);
    forall i | 0 <= i <= n ensures OutputAt(hash, outputs, i).outpoint.index == i {}
    forall i | 0 <= i < n
      ensures OutputAt(hash, outputs[..n], i) == OutputAt(hash, outputs, i)
      ensures outputs[..n][i].scriptPubkey == script ==> OutputAt(hash, outputs, i) in rest
    {}
  }

  lemma {:induction false} OwnOutputsTotal(script: string, hash: nat, outputs: seq<TransactionOutput>)
    requires |outputs| <= U32_RANGE
    ensures Total(OwnOutputs(script, hash, outputs)) == OwnValue(script, outputs)
  {
    if outputs != [] {
      var n := |outputs| - 1;
      OwnOutputsTotal(script, hash, outputs[..n]);
      LastOutputIsSeparate(script, hash, outputs, n);
      var rest, last := OwnOutputs(script, hash, outputs[..n]), OutputAt(hash, outputs, n);
      TotalRemove(rest + {last}, last);
      assert rest + {last} - {last} == rest;
      assert rest + {} == rest;
    }
  }

  /** The ledger's balance moves by exactly the net flow of its events. */
  lemma {:induction false} BalanceMovesByNetFlow(script: string, genesis: set<Coin>, log: seq<Event>, k: nat)
    requires Legal(script, genesis, log) && k <= |log|
    ensures Total(Utxo(script, genesis, log)) == Total(Utxo(script, genesis, log[..k])) + NetFlow(script, log, k)
  {
    if k == |log| {
      assert log[..k] == log;
    } else {
      var before := log[..|log| - 1];
      assert before[..k] == log[..k];
      BalanceMovesByNetFlow(script, genesis, before, k);
      var live := Utxo(script, genesis, before);
      match log[|log| - 1]
      case Send(inputs, hash, outputs) =>
        var own := OwnOutputs(script, hash, outputs);
        NewCoinsAreNew(script, genesis, before, own);
        TotalSplit(inputs, live - inputs);
        assert inputs + (live - inputs) == live;
        TotalSplit(live - inputs, own);
        OwnOutputsTotal(script, hash, outputs);
      case Receive(coins) =>
        NewCoinsAreNew(script, genesis, before, coins);
        TotalSplit(live, coins);
    }
  }

  /** Value is conserved through the cache: the resolved list is worth the snapshot plus the net flow
      of every later event, less what the snapshot cannot lead to; shared descendants count once. */
  lemma ValueConserved(script: string, genesis: set<Coin>, log: seq<Event>, k: nat)
    requires Legal(script, genesis, log) && k <= |log|
    ensures var snapshot := Utxo(script, genesis, log[..k]);
            Total(Resolve(Run(script, log).inputToOutput, snapshot)) + Total(Unseen(script, log, k)) ==
            Total(snapshot) + NetFlow(script, log, k)
  {
    StaleSnapshotRepaired(script, genesis, log, k);
    UnseenIsUnlinked(script, genesis, log, k);
    BalanceMovesByNetFlow(script, genesis, log, k);
    var now, unseen := Utxo(script, genesis, log), Unseen(script, log, k);
    TotalSplit(now - unseen, unseen);
    assert now - unseen + unseen == now;
  }

  // ---- The class over a whole run ----

  /** Entries for a set of coins, in any order. */
  method Entries(coins: set<Coin>) returns (us: seq<UnspentInfo>)
    ensures Coins(set u | u in us) == coins
  {
    us := [];
    var todo := coins;
    while todo != {}
      invariant todo <= coins && Coins(set u | u in us) == coins - todo
      decreases todo
    {
      var c :| c in todo;
      ghost var before := set u | u in us;
      us := us + [FromCoin(c)];
      todo := todo - {c};
      assert (set u | u in us) == before + {FromCoin(c)};
      assert Coins(before + {FromCoin(c)}) == Coins(before) + {ToCoin(FromCoin(c))};
    }
  }

  /** Every send of the log goes through the cache, receipts pass it by. */
  method Replay(script: string, log: seq<Event>) returns (cache: RecentlySpentOutPoints)
    ensures fresh(cache) && cache.forScriptPubkey == script && cache.View() == Run(script, log)
  {
    cache := new RecentlySpentOutPoints(script);
    var i := 0;
    while i < |log|
      invariant i <= |log| && fresh(cache) && cache.forScriptPubkey == script && cache.View() == Run(script, log[..i])
    {
      assert log[..i + 1][..i] == log[..i];
      if log[i].Send? {
        var spent := Entries(log[i].inputs);
        cache.AddSpent(spent, log[i].hash, log[i].outputs);
      }
      i := i + 1;
    }
    assert log[..i] == log;
  }

  /** After any legal run, a list of the true unspent coins of any prefix is repaired to the true unspent
      coins of now, less those that reached the wallet later, with one entry per coin. */
  method RepairAfter(script: string, ghost genesis: set<Coin>, log: seq<Event>, ghost k: nat, listed: set<UnspentInfo>)
    returns (r: set<UnspentInfo>)
    requires Legal(script, genesis, log) && k <= |log| && Coins(listed) == Utxo(script, genesis, log[..k])
    ensures Coins(r) == Utxo(script, genesis, log) - Unseen(script, log, k)
    ensures OnePerCoin(listed) ==> OnePerCoin(r)
  {
    var cache := Replay(script, log);
    ReachableIsSettled(script, genesis, log);
    StaleSnapshotRepaired(script, genesis, log, k);
    if OnePerCoin(listed) {
      SnapshotNeverListedTwice(script, genesis, log, k, listed);
    }
    r := cache.ReplaceSpentOutputsWithCache(listed);
  }
}
