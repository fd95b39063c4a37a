/** The cache of recently spent outpoints. */
module RecentlySpent {
  import opened Ledger
  import opened Options

  type Links = map<Coin, set<Coin>>

  datatype Cache = Cache(inputToOutput: Links, outputToInput: Links)

  function ToCoin(u: UnspentInfo): Coin {
    Coin(u.outpoint, u.value)
  }

  function FromCoin(c: Coin): UnspentInfo {
    UnspentInfo(c.outpoint, c.value, None)
  }

  function Coins(us: set<UnspentInfo>): set<Coin> {
    set u | u in us :: ToCoin(u)
  }

  /** `input` is an output the cache knows to descend from `ancestor`. */
  predicate Leads(c: Cache, ancestor: Coin, input: Coin) {
    input in c.outputToInput && ancestor in c.outputToInput[input]
  }

  /** The inputs among `inputs` that descend from `ancestor`. */
  function Hits(c: Cache, ancestor: Coin, inputs: set<Coin>): set<Coin> {
    set i | i in inputs && Leads(c, ancestor, i)
  }

  /** Spent coins some of whose cached descendants are spent by `inputs`. */
  function Rewired(c: Cache, inputs: set<Coin>): set<Coin> {
    set a | a in c.inputToOutput && Hits(c, a, inputs) != {}
  }

  /** Every ancestor of `inputs` now points at `paid` instead of at the inputs. */
  function Substitute(c: Cache, inputs: set<Coin>, paid: set<Coin>): (m: Links)
    ensures m.Keys == c.inputToOutput.Keys
  {
    map a | a in c.inputToOutput ::
      if a in Rewired(c, inputs) then c.inputToOutput[a] - Hits(c, a, inputs) + paid
      else c.inputToOutput[a]
  }

  /** The cache after a transaction that spends `inputs` and pays the own script with `paid`. */
  function Spend(c: Cache, inputs: set<Coin>, paid: set<Coin>): Cache {
    Cache(
      Substitute(c, inputs, paid) + map i | i in inputs :: paid,
      c.outputToInput + map o | o in paid :: Rewired(c, inputs) + inputs)
  }

  /** Everything the spent members of `s` are replaced with. */
  function Replacements(m: Links, s: set<Coin>): set<Coin> {
    set a, b | a in s && a in m && b in m[a] :: b
  }

  /** One round of substitution: unspent coins stay, spent ones give way to their replacements. */
  function Resolve(m: Links, s: set<Coin>): set<Coin> {
    s - m.Keys + Replacements(m, s)
  }

  /** The repaired list: unspent entries as they are, and every replacement without a height. */
  function Repaired(m: Links, unspents: set<UnspentInfo>): set<UnspentInfo> {
    (set u | u in unspents && ToCoin(u) !in m) + (set c | c in Replacements(m, Coins(unspents)) :: FromCoin(c))
  }

  /** No stored replacement is itself spent. */
  predicate Settled(m: Links) {
    forall a, b :: a in m && b in m[a] ==> b !in m
  }

  class RecentlySpentOutPoints {
    var inputToOutput: Links
    var outputToInput: Links
    var forScriptPubkey: string

    ghost function View(): Cache
      reads this
    {
      Cache(inputToOutput, outputToInput)
    }

    constructor (script: string)
      ensures View() == Cache(map[], map[]) && forScriptPubkey == script
    {
      inputToOutput, outputToInput, forScriptPubkey := map[], map[], script;
    }

    /** Records a sent transaction. The sets are walked in no particular order. */
    method AddSpent(spent: seq<UnspentInfo>, hash: nat, outputs: seq<TransactionOutput>)
      modifies this`inputToOutput, this`outputToInput
      ensures View() ==
        Spend(old(View()), Coins(set u | u in spent), OwnOutputs(forScriptPubkey, hash, outputs))
      ensures |outputs| <= 0x1_0000_0000 ==> forall u :: u in spent ==>
        && Coin(u.outpoint, u.value) in inputToOutput
        && forall c :: c in inputToOutput[Coin(u.outpoint, u.value)] <==>
             exists i :: && 0 <= i < |outputs| && outputs[i].scriptPubkey == forScriptPubkey
                         && c == Coin(OutPoint(hash, i), outputs[i].value)
    {
      hide Hits, Substitute, Rewired, Walked, Seen, OwnOutputs;
      var inputs := set u | u in spent :: ToCoin(u);
      var toReplace := OwnOutputs(forScriptPubkey, hash, outputs);
      assert inputs == Coins(set u | u in spent);
      ghost var c := View();
      SubstituteNothing(c, toReplace);
      assert inputs - inputs == {};
      var prevInputsSpent := {};
      var todo := inputs;
      while todo != {}
        invariant todo <= inputs
        invariant outputToInput == c.outputToInput
        invariant inputToOutput == Substitute(c, inputs - todo, toReplace)
        invariant prevInputsSpent == Rewired(c, inputs - todo)
        decreases todo
      {
        var input :| input in todo;
        ghost var done := inputs - todo;
        if input in outputToInput {
          var prevs := outputToInput[input];
          WalkedStart(c, input, done, toReplace);
          while prevs != {}
            invariant prevs <= c.outputToInput[input]
            invariant outputToInput == c.outputToInput
            invariant Walked(c, input, prevs, done, toReplace, inputToOutput)
            invariant prevInputsSpent == Rewired(c, done) + Seen(c, input, prevs)
            decreases prevs
          {
            var prev :| prev in prevs;
            WalkedStep(c, input, prevs, prev, done, toReplace, inputToOutput);
            if prev in inputToOutput {
              prevInputsSpent := prevInputsSpent + {prev};
              inputToOutput := inputToOutput[prev := inputToOutput[prev] - {input} + toReplace];
            }
            prevs := prevs - {prev};
          }
        }
        SubstituteOneMore(c, input, done, toReplace, inputToOutput, prevInputsSpent);
        todo := todo - {input};
        assert inputs - todo == done + {input};
      }
      assert inputs - todo == inputs;
      prevInputsSpent := prevInputsSpent + inputs;
      outputToInput := outputToInput + map o | o in toReplace :: prevInputsSpent;
      inputToOutput := inputToOutput + map i | i in inputs :: toReplace;
      forall u | u in spent ensures inputToOutput[Coin(u.outpoint, u.value)] == toReplace {
        assert ToCoin(u) in inputs;
      }
      forall c ensures |outputs| <= 0x1_0000_0000 ==>
          (c in toReplace <==> exists i :: && 0 <= i < |outputs| && outputs[i].scriptPubkey == forScriptPubkey
                                           && c == Coin(OutPoint(hash, i), outputs[i].value))
      {
        OwnOutputsAre(forScriptPubkey, hash, outputs, c);
      }
    }

    /** Repairs a stale list of unspents. The recursion ends after at most one replacing round:
        its rank is 1 while some listed output is spent and 0 afterwards. */
    method ReplaceSpentOutputsWithCache(unspents: set<UnspentInfo>) returns (r: set<UnspentInfo>)
      requires Settled(inputToOutput)
      ensures r == Repaired(inputToOutput, unspents)
      ensures Coins(r) == Resolve(inputToOutput, Coins(unspents))
      decreases if Coins(unspents) !! inputToOutput.Keys then 0 else 1
    {
      var replacements: set<Coin> := {};
      var outputs: set<UnspentInfo> := {};
      var todo := unspents;
      while todo != {}
        invariant todo <= unspents
        invariant outputs == set u | u in unspents - todo && ToCoin(u) !in inputToOutput
        invariant replacements == Replacements(inputToOutput, Coins(unspents - todo))
        decreases todo
      {
        var u :| u in todo;
        ghost var done := unspents - todo;
        if ToCoin(u) in inputToOutput {
          replacements := replacements + inputToOutput[ToCoin(u)];
        } else {
          outputs := outputs + {u};
        }
        todo := todo - {u};
        assert unspents - todo == done + {u};
        ReplacementsOneMore(inputToOutput, done, u);
      }
      assert unspents - todo == unspents;
      RoundResolves(inputToOutput, unspents, outputs, set c | c in replacements :: FromCoin(c));
      if replacements == {} {
        return outputs;
      }
      r := set c | c in replacements :: FromCoin(c);
      ghost var added := r;
      r := outputs + r;
      RoundIsFinal(inputToOutput, unspents, outputs, added);
      r := ReplaceSpentOutputsWithCache(r);
    }
  }

  /** Half-way through the ancestors of `input`: those no longer in `prevs` are rewired. */
  ghost predicate Walked(c: Cache, input: Coin, prevs: set<Coin>, done: set<Coin>, paid: set<Coin>, m: Links) {
    && m.Keys == c.inputToOutput.Keys
    && forall a :: a in c.inputToOutput ==>
         m[a] == if Leads(c, a, input) && a !in prevs
                 then Substitute(c, done, paid)[a] - {input} + paid
                 else Substitute(c, done, paid)[a]
  }

  ghost function Seen(c: Cache, input: Coin, prevs: set<Coin>): set<Coin> {
    set p | p in c.inputToOutput && Leads(c, p, input) && p !in prevs
  }

  lemma WalkedStart(c: Cache, input: Coin, done: set<Coin>, paid: set<Coin>)
    requires input in c.outputToInput
    ensures Walked(c, input, c.outputToInput[input], done, paid, Substitute(c, done, paid))
    ensures Seen(c, input, c.outputToInput[input]) == {}
  {
  }

  lemma WalkedStep(c: Cache, input: Coin, prevs: set<Coin>, prev: Coin, done: set<Coin>, paid: set<Coin>, m: Links)
    requires Walked(c, input, prevs, done, paid, m) && prev in prevs && Leads(c, prev, input)
    ensures Walked(c, input, prevs - {prev}, done, paid,
                   if prev in m then m[prev := m[prev] - {input} + paid] else m)
    ensures Seen(c, input, prevs - {prev}) == Seen(c, input, prevs) + if prev in m then {prev} else {}
  {
  }

  lemma SubstituteNothing(c: Cache, paid: set<Coin>)
    ensures Substitute(c, {}, paid) == c.inputToOutput && Rewired(c, {}) == {}
  {
  }

  lemma SubstituteOneMore(c: Cache, input: Coin, done: set<Coin>, paid: set<Coin>, m: Links, prev: set<Coin>)
    requires if input in c.outputToInput
             then Walked(c, input, {}, done, paid, m)
               && prev == Rewired(c, done) + Seen(c, input, {})
             else m == Substitute(c, done, paid) && prev == Rewired(c, done)
    ensures m == Substitute(c, done + {input}, paid)
    ensures prev == Rewired(c, done + {input})
  {
    forall a | a in c.inputToOutput
      ensures a in Rewired(c, done + {input}) <==> a in Rewired(c, done) || Leads(c, a, input)
      ensures m[a] == Substitute(c, done + {input}, paid)[a]
    {
      HitsOneMore(c, a, input, done);
    }
  }

  lemma HitsOneMore(c: Cache, a: Coin, input: Coin, done: set<Coin>)
    ensures Hits(c, a, done + {input}) == Hits(c, a, done) + if Leads(c, a, input) then {input} else {}
  {
  }

  lemma ReplacementsOneMore(m: Links, done: set<UnspentInfo>, u: UnspentInfo)
    ensures Replacements(m, Coins(done + {u})) ==
            Replacements(m, Coins(done)) + if ToCoin(u) in m then m[ToCoin(u)] else {}
  {
    assert Coins(done + {u}) == Coins(done) + {ToCoin(u)};
  }

  lemma RoundResolves(m: Links, unspents: set<UnspentInfo>, kept: set<UnspentInfo>, added: set<UnspentInfo>)
    requires kept == set u | u in unspents && ToCoin(u) !in m
    requires added == set c | c in Replacements(m, Coins(unspents)) :: FromCoin(c)
    ensures Coins(kept + added) == Resolve(m, Coins(unspents))
    ensures Replacements(m, Coins(unspents)) == {} ==> added == {} && kept + added == kept
  {
    forall c | c in Coins(unspents) - m.Keys ensures c in Coins(kept) {
      var u :| u in unspents && ToCoin(u) == c;
      assert u in kept;
    }
    forall c | c in Replacements(m, Coins(unspents)) ensures c in Coins(added) {
      assert FromCoin(c) in added && ToCoin(FromCoin(c)) == c;
    }
  }

  lemma RoundIsFinal(m: Links, unspents: set<UnspentInfo>, kept: set<UnspentInfo>, added: set<UnspentInfo>)
    requires Settled(m)
    requires kept == set u | u in unspents && ToCoin(u) !in m
    requires added == set c | c in Replacements(m, Coins(unspents)) :: FromCoin(c)
    ensures Coins(kept + added) !! m.Keys
    ensures Replacements(m, Coins(kept + added)) == {}
    ensures added != {} ==> !(Coins(unspents) !! m.Keys)
  {
    forall u | u in kept + added ensures ToCoin(u) !in m {}
    if added != {} {
      var u :| u in added;
      var a :| a in Coins(unspents) && a in m && ToCoin(u) in m[a];
    }
  }
}
