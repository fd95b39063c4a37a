/** The wallet's ground truth: a log of the transactions it sent and of the coins it received,
    the set of its unspent coins after any prefix of that log, and who descends from whom. */
module Ledger {
  import opened Options

  datatype OutPoint = OutPoint(hash: nat, index: nat)

  /** An unspent output as the daemon reports it; `height` is `None` while it is not mined. */
  datatype UnspentInfo = UnspentInfo(outpoint: OutPoint, value: nat, height: Option<nat>)

  /** The same output with the height dropped: what the cache is keyed by. */
  datatype Coin = Coin(outpoint: OutPoint, value: nat)

  datatype TransactionOutput = TransactionOutput(value: nat, scriptPubkey: string)

  datatype Event =
    | Send(inputs: set<Coin>, hash: nat, outputs: seq<TransactionOutput>)
    | Receive(coins: set<Coin>)

  const U32_RANGE := 0x1_0000_0000

  /** Output `i` of transaction `hash`; the index is cut to 32 bits. */
  function OutputAt(hash: nat, outputs: seq<TransactionOutput>, i: nat): Coin
    requires i < |outputs|
  {
    Coin(OutPoint(hash, i % U32_RANGE), outputs[i].value)
  }

  /** The outputs of a transaction that pay back to the wallet's own script. */
  function OwnOutputs(script: string, hash: nat, outputs: seq<TransactionOutput>): set<Coin> {
    set i | 0 <= i < |outputs| && outputs[i].scriptPubkey == script :: OutputAt(hash, outputs, i)
  }

  /** Own output `i` has outpoint index `i`; only beyond 2^32 outputs would an index wrap. */
  lemma OwnOutputsAre(script: string, hash: nat, outputs: seq<TransactionOutput>, c: Coin)
    ensures c in OwnOutputs(script, hash, outputs) <==>
            exists i :: && 0 <= i < |outputs| && outputs[i].scriptPubkey == script
                        && c == Coin(OutPoint(hash, i % 0x1_0000_0000), outputs[i].value)
    ensures |outputs| <= 0x1_0000_0000 ==>
            (c in OwnOutputs(script, hash, outputs) <==>
             exists i :: 0 <= i < |outputs| && outputs[i].scriptPubkey == script
               && c == Coin(OutPoint(hash, i), outputs[i].value))
  {
  }

  /** The true unspent set after the whole log. */
  ghost function Utxo(script: string, genesis: set<Coin>, log: seq<Event>): set<Coin> {
    if log == [] then genesis else
      var before := Utxo(script, genesis, log[..|log| - 1]);
      match log[|log| - 1]
      case Send(inputs, hash, outputs) => before - inputs + OwnOutputs(script, hash, outputs)
      case Receive(coins) => before + coins
  }

  /** Every coin some transaction of the log spends. */
  ghost function Spent(log: seq<Event>): set<Coin> {
    if log == [] then {} else
      var before := Spent(log[..|log| - 1]);
      match log[|log| - 1]
      case Send(inputs, _, _) => before + inputs
      case Receive(_) => before
  }

  /** Own coins that descend from `a`: outputs of a transaction that spends `a` or a descendant of `a`. */
  ghost function Descendants(script: string, log: seq<Event>, a: Coin): set<Coin> {
    if log == [] then {} else
      var before := Descendants(script, log[..|log| - 1], a);
      match log[|log| - 1]
      case Send(inputs, hash, outputs) =>
        if inputs !! {a} + before then before else before + OwnOutputs(script, hash, outputs)
      case Receive(_) => before
  }

  ghost function HashesOf(coins: set<Coin>): set<nat> {
    set c | c in coins :: c.outpoint.hash
  }

  /** Every transaction hash the log has used so far. */
  ghost function Hashes(genesis: set<Coin>, log: seq<Event>): set<nat> {
    if log == [] then HashesOf(genesis) else
      var before := Hashes(genesis, log[..|log| - 1]);
      match log[|log| - 1]
      case Send(_, hash, _) => before + {hash}
      case Receive(coins) => before + HashesOf(coins)
  }

  /** What the chain guarantees: a send spends at least one coin, all of them currently unspent, its
      hash is new and its output indices fit 32 bits; a receipt brings coins of new transactions. */
  ghost predicate Legal(script: string, genesis: set<Coin>, log: seq<Event>) {
    log == [] ||
    var before := log[..|log| - 1];
    && Legal(script, genesis, before)
    && match log[|log| - 1]
       case Send(inputs, hash, outputs) =>
         && inputs != {}
         && inputs <= Utxo(script, genesis, before)
         && hash !in Hashes(genesis, before)
         && |outputs| <= U32_RANGE
       case Receive(coins) => HashesOf(coins) !! Hashes(genesis, before)
  }

  /** Coins a snapshot taken after `k` events cannot lead to: receipts after `k`, and outputs of
      transactions that spend nothing but such coins. */
  ghost function Unseen(script: string, log: seq<Event>, k: nat): set<Coin> {
    if |log| <= k then {} else
      var before := Unseen(script, log[..|log| - 1], k);
      match log[|log| - 1]
      case Send(inputs, hash, outputs) =>
        before - inputs + if inputs <= before then OwnOutputs(script, hash, outputs) else {}
      case Receive(coins) => before + coins
  }

  ghost predicate OnlySends(log: seq<Event>) {
    forall e :: e in log ==> e.Send?
  }

  /** Sum of the values of a set of coins. */
  ghost function Total(coins: set<Coin>): nat {
    if coins == {} then 0 else
      var c :| c in coins;
      c.value + Total(coins - {c})
  }

  /** Sum of the outputs that pay the own script, read off the transaction itself. */
  ghost function OwnValue(script: string, outputs: seq<TransactionOutput>): nat {
    if outputs == [] then 0 else
      var last := outputs[|outputs| - 1];
      OwnValue(script, outputs[..|outputs| - 1]) + if last.scriptPubkey == script then last.value else 0
  }

  /** Net value the events after the first `k` brought in: receipts and own change, minus inputs. */
  ghost function NetFlow(script: string, log: seq<Event>, k: nat): int {
    if |log| <= k then 0 else
      NetFlow(script, log[..|log| - 1], k) +
      match log[|log| - 1]
      case Send(inputs, _, outputs) => OwnValue(script, outputs) - Total(inputs)
      case Receive(coins) => Total(coins)
  }
}
