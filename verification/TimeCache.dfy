/** A cache whose entries expire: a map and a queue of expiry times, purged lazily. */
module TimeCaches {
  import opened Options

  type Key(==, !new)
  type Value

  datatype Expiring<T> = Expiring(element: T, expires: nat)

  type Elements = map<Key, Expiring<Value>>

  /** A mutating call, with the time it was made. */
  datatype Op =
    | Insert(key: Key, value: Value, now: nat)
    | Refresh(key: Key, value: Value, now: nat)
    | Replace(key: Key, value: Value, now: nat)
    | Overwrite(key: Key, value: Value, now: nat)
    | Remove(key: Key, now: nat)
    | Clear(now: nat)

  // ---- The naive map: it never purges, a reader skips what has expired ----

  predicate Alive(m: Elements, key: Key, now: nat) {
    key in m && m[key].expires > now
  }

  function Live(m: Elements, now: nat): Elements {
    map k | k in m && m[k].expires > now :: m[k]
  }

  function Apply(ttl: nat, m: Elements, op: Op): Elements {
    match op
    case Insert(k, v, now) => if Alive(m, k, now) then m else m[k := Expiring(v, now + ttl)]
    case Refresh(k, v, now) => m[k := Expiring(if Alive(m, k, now) then m[k].element else v, now + ttl)]
    case Replace(k, v, now) => if Alive(m, k, now) then m[k := Expiring(v, now + ttl)] else m
    case Overwrite(k, v, now) => if Alive(m, k, now) then m[k := Expiring(v, m[k].expires)] else m
    case Remove(k, _) => m - {k}
    case Clear(_) => map[]
  }

  ghost function Naive(ttl: nat, log: seq<Op>): Elements {
    if log == [] then map[] else Apply(ttl, Naive(ttl, log[..|log| - 1]), log[|log| - 1])
  }

  /** The clock never runs backwards. */
  ghost predicate Timely(log: seq<Op>, clock: nat) {
    && (forall i, j :: 0 <= i < j < |log| ==> log[i].now <= log[j].now)
    && (forall i :: 0 <= i < |log| ==> log[i].now <= clock)
  }

  lemma LiveLater(m: Elements, a: nat, b: nat)
    requires a <= b
    ensures Live(Live(m, a), b) == Live(m, b)
  {
  }

  /** What has expired does not matter to any later call. */
  lemma ApplyLive(ttl: nat, m: Elements, n: Elements, op: Op)
    requires Live(m, op.now) == Live(n, op.now)
    ensures Live(Apply(ttl, m, op), op.now) == Live(Apply(ttl, n, op), op.now)
  {
    var now := op.now;
    if !op.Clear? {
      assert Alive(m, op.key, now) <==> op.key in Live(m, now);
      assert Alive(n, op.key, now) <==> op.key in Live(n, now);
      assert Alive(m, op.key, now) ==> m[op.key] == Live(m, now)[op.key] == n[op.key];
    }
    var a, b := Apply(ttl, m, op), Apply(ttl, n, op);
    forall k | k in Live(a, now) || k in Live(b, now) ensures k in Live(a, now) && k in Live(b, now) && a[k] == b[k] {
      assert k in Live(m, now) <==> k in Live(n, now);
      assert k in Live(m, now) ==> m[k] == Live(m, now)[k] == n[k];
    }
  }

  // ---- The queue ----

  ghost predicate Sorted(queue: seq<Expiring<Key>>) {
    forall i, j :: 0 <= i < j < |queue| ==> queue[i].expires <= queue[j].expires
  }

  /** Every entry has its own expiry time queued; the queue may hold older or removed ones too. */
  ghost predicate Queued(m: Elements, queue: seq<Expiring<Key>>) {
    forall k :: k in m ==> Expiring(k, m[k].expires) in queue
  }

  /** Half-way through a purge at `now`: only expired entries have gone. */
  ghost predicate Purging(before: Elements, m: Elements, queue: seq<Expiring<Key>>, now: nat) {
    && Sorted(queue) && Queued(m, queue)
    && (forall k :: k in m ==> k in before && m[k] == before[k])
    && (forall k :: k in before && before[k].expires > now ==> k in m)
  }

  lemma PurgeTurn(before: Elements, m: Elements, queue: seq<Expiring<Key>>, now: nat)
    requires Purging(before, m, queue, now) && queue != [] && queue[0].expires <= now
    ensures var k := queue[0].element;
            Purging(before, if k in m && m[k].expires <= now then m - {k} else m, queue[1..], now)
  {
    var k := queue[0].element;
    var m' := if k in m && m[k].expires <= now then m - {k} else m;
    forall k' | k' in m' ensures Expiring(k', m'[k'].expires) in queue[1..] {
      var e := Expiring(k', m[k'].expires);
      assert e in queue && e != queue[0];
      assert queue == [queue[0]] + queue[1..];
    }
  }

  lemma PurgeDone(before: Elements, m: Elements, queue: seq<Expiring<Key>>, now: nat)
    requires Purging(before, m, queue, now) && (queue != [] ==> queue[0].expires > now)
    ensures m == Live(before, now)
    ensures forall i :: 0 <= i < |queue| ==> queue[i].expires > now
  {
    forall k | k in m ensures m[k].expires > now {
      var i :| 0 <= i < |queue| && queue[i] == Expiring(k, m[k].expires);
      assert queue[0].expires <= queue[i].expires;
    }
  }

  ghost predicate Tidy(m: Elements, queue: seq<Expiring<Key>>, ttl: nat, clock: nat) {
    Sorted(queue) && Queued(m, queue) && forall i :: 0 <= i < |queue| ==> queue[i].expires <= clock + ttl
  }

  lemma PurgeStart(m: Elements, queue: seq<Expiring<Key>>, ttl: nat, clock: nat, now: nat)
    requires Tidy(m, queue, ttl, clock) && clock <= now
    ensures Purging(m, m, queue, now)
    ensures forall i :: 0 <= i < |queue| ==> queue[i].expires <= now + ttl
  {
  }

  lemma PurgeTidy(before: Elements, m: Elements, queue: seq<Expiring<Key>>, ttl: nat, now: nat)
    requires Purging(before, m, queue, now) && forall i :: 0 <= i < |queue| ==> queue[i].expires <= now + ttl
    ensures Tidy(m, queue, ttl, now)
  {
  }

  lemma TidyPush(m: Elements, queue: seq<Expiring<Key>>, ttl: nat, now: nat, key: Key, value: Value)
    requires Tidy(m, queue, ttl, now)
    ensures Tidy(m[key := Expiring(value, now + ttl)], queue + [Expiring(key, now + ttl)], ttl, now)
  {
    var queue' := queue + [Expiring(key, now + ttl)];
    assert queue'[|queue|] == Expiring(key, now + ttl);
    forall k | k in m ensures Expiring(k, m[k].expires) in queue' {
      assert Expiring(k, m[k].expires) in queue;
    }
  }

  /** What a call finds after its purge is what the naive map holds alive at that time. */
  ghost predicate Found(ttl: nat, log: seq<Op>, purged: Elements, now: nat) {
    purged == Live(Naive(ttl, log), now)
  }

  lemma LiveAt(m: Elements, now: nat, key: Key)
    ensures key in Live(m, now) <==> Alive(m, key, now)
    ensures Alive(m, key, now) ==> Live(m, now)[key] == m[key] && m[key].expires > now
  {
  }

  lemma RemoveFirst(m: Elements, key: Key, now: nat)
    ensures Live(m - {key}, now) == Live(m, now) - {key}
  {
  }

  lemma PurgedFinds(ttl: nat, m: Elements, clock: nat, log: seq<Op>, now: nat)
    requires Live(m, clock) == Live(Naive(ttl, log), clock) && clock <= now
    ensures Found(ttl, log, Live(m, now), now)
  {
    LiveLater(m, clock, now);
    LiveLater(Naive(ttl, log), clock, now);
  }

  ghost predicate Recorded(ttl: nat, log: seq<Op>, m: Elements, clock: nat) {
    Timely(log, clock) && Live(m, clock) == Live(Naive(ttl, log), clock) && (ttl > 0 ==> m == Live(m, clock))
  }

  lemma Record(ttl: nat, log: seq<Op>, clock: nat, purged: Elements, op: Op)
    requires Timely(log, clock) && clock <= op.now && Found(ttl, log, purged, op.now)
    ensures Recorded(ttl, log + [op], Apply(ttl, purged, op), op.now)
  {
    var naive := Naive(ttl, log);
    assert (log + [op])[..|log|] == log;
    LiveLater(naive, op.now, op.now);
    ApplyLive(ttl, purged, naive, op);
    if ttl > 0 {
      ApplyExact(ttl, purged, op);
    }
  }

  lemma ApplyExact(ttl: nat, purged: Elements, op: Op)
    requires purged == Live(purged, op.now) && ttl > 0
    ensures Apply(ttl, purged, op) == Live(Apply(ttl, purged, op), op.now)
  {
    forall k | k in Apply(ttl, purged, op) ensures Apply(ttl, purged, op)[k].expires > op.now {
      if k in purged {
        assert k in Live(purged, op.now);
      }
    }
  }

  class TimeCache {
    var elements: Elements
    var queue: seq<Expiring<Key>>
    const ttl: nat
    /** Time of the last mutating call, and all of them so far. */
    ghost var clock: nat
    ghost var log: seq<Op>

    ghost predicate Valid()
      reads this
    {
      && Tidy(elements, queue, ttl, clock) && Timely(log, clock)
      && Live(elements, clock) == Live(Naive(ttl, log), clock)
      && (ttl > 0 ==> elements == Live(elements, clock))
    }

    constructor (ttl: nat)
      ensures Valid() && this.ttl == ttl && log == [] && clock == 0
    {
      this.ttl := ttl;
      elements, queue := map[], [];
      clock, log := 0, [];
    }

    /** Pops what has expired. Leaves exactly the entries that have not, whatever else is queued. */
    method RemoveExpiredKeys(now: nat)
      requires Tidy(elements, queue, ttl, clock) && clock <= now
      modifies this`elements, this`queue
      ensures elements == Live(old(elements), now) && Tidy(elements, queue, ttl, now)
    {
      hide Purging;
      ghost var before := elements;
      PurgeStart(elements, queue, ttl, clock, now);
      while queue != []
        invariant Purging(before, elements, queue, now)
        invariant forall i :: 0 <= i < |queue| ==> queue[i].expires <= now + ttl
        decreases |queue|
      {
        var element := queue[0];
        assert [queue[0]] + queue[1..] == queue;
        if element.expires <= now {
          PurgeTurn(before, elements, queue, now);
        }
        queue := queue[1..];
        if element.expires > now {
          queue := [element] + queue;
          break;
        }
        if element.element in elements {
          if elements[element.element].expires <= now {
            elements := elements - {element.element};
          }
        }
      }
      PurgeDone(before, elements, queue, now);
      PurgeTidy(before, elements, queue, ttl, now);
    }

    /** Adds the key unless it is there and has not expired. */
    method Insert(key: Key, value: Value, now: nat) returns (accepted: bool)
      requires Valid() && clock <= now
      modifies this
      ensures Valid() && clock == now && log == old(log) + [Op.Insert(key, value, now)]
      ensures accepted <==> !Alive(Naive(ttl, old(log)), key, now)
      ensures key in elements && (accepted ==> elements[key] == Expiring(value, now + ttl))
    {
      hide Naive, Live, Tidy, Timely;
      Entry(key, now);
      ghost var purged := elements;
      accepted := key !in elements;
      if accepted {
        PushNew(key, value, now);
      }
      Note(Op.Insert(key, value, now), purged);
    }

    /** The value under the key, adding it first if need be; an existing entry keeps its expiry. */
    method OrInsertWith(key: Key, default: Value, now: nat) returns (value: Value)
      requires Valid() && clock <= now
      modifies this
      ensures Valid() && clock == now && log == old(log) + [Op.Insert(key, default, now)]
      ensures var naive := Naive(ttl, old(log)); value == if Alive(naive, key, now) then naive[key].element else default
    {
      hide Naive, Live, Tidy, Timely;
      Entry(key, now);
      ghost var purged := elements;
      if key in elements {
        value := elements[key].element;
      } else {
        PushNew(key, default, now);
        value := default;
      }
      Note(Op.Insert(key, default, now), purged);
    }

    /** The same, but an existing entry starts a new life. */
    method OrInsertWithUpdateExpiration(key: Key, default: Value, now: nat) returns (value: Value)
      requires Valid() && clock <= now
      modifies this
      ensures Valid() && clock == now && log == old(log) + [Op.Refresh(key, default, now)]
      ensures key in elements && elements[key] == Expiring(value, now + ttl)
      ensures var naive := Naive(ttl, old(log)); value == if Alive(naive, key, now) then naive[key].element else default
    {
      hide Naive, Live, Tidy, Timely;
      Entry(key, now);
      ghost var purged := elements;
      value := if key in elements then elements[key].element else default;
      PushNew(key, value, now);
      Note(Op.Refresh(key, default, now), purged);
    }

    /** Replaces the value of an entry found occupied and renews it; a vacant entry stays vacant. */
    method InsertAndUpdateExpiration(key: Key, value: Value, now: nat) returns (previous: Option<Value>)
      requires Valid() && clock <= now
      modifies this
      ensures Valid() && clock == now && log == old(log) + [Op.Replace(key, value, now)]
      ensures previous.None? ==> key !in elements
      ensures previous.Some? ==> key in elements && elements[key] == Expiring(value, now + ttl)
      ensures var naive := Naive(ttl, old(log)); previous == if Alive(naive, key, now) then Some(naive[key].element) else None
    {
      hide Naive, Live, Tidy, Timely;
      Entry(key, now);
      ghost var purged := elements;
      previous := None;
      if key in elements {
        previous := Some(elements[key].element);
        PushNew(key, value, now);
      }
      Note(Op.Replace(key, value, now), purged);
    }

    /** Replaces the value of an entry found occupied; it expires when it would have. */
    method InsertWithoutUpdatingExpiration(key: Key, value: Value, now: nat) returns (previous: Option<Value>)
      requires Valid() && clock <= now
      modifies this
      ensures Valid() && clock == now && log == old(log) + [Op.Overwrite(key, value, now)]
      ensures previous.None? ==> key !in elements
      ensures previous.Some? ==> key in elements && elements[key].element == value
      ensures var naive := Naive(ttl, old(log)); previous == if Alive(naive, key, now) then Some(naive[key].element) else None
    {
      hide Naive, Live, Timely;
      Entry(key, now);
      ghost var purged := elements;
      previous := None;
      if key in elements {
        previous := Some(elements[key].element);
        elements := elements[key := Expiring(value, elements[key].expires)];
      }
      Note(Op.Overwrite(key, value, now), purged);
    }

    /** Removes the key. The result is read before the purge: it is what was alive at the last call,
        which may have expired since. */
    method Remove(key: Key, now: nat) returns (removed: Option<Value>)
      requires Valid() && clock <= now
      modifies this
      ensures Valid() && clock == now && log == old(log) + [Op.Remove(key, now)]
      ensures removed == if key in old(elements) then Some(old(elements)[key].element) else None
      ensures var naive := Naive(ttl, old(log));
              ttl > 0 ==>
                && removed == (if Alive(naive, key, old(clock)) then Some(naive[key].element) else None)
                && (removed.Some? && old(elements)[key].expires <= now <==>
                    Alive(naive, key, old(clock)) && !Alive(naive, key, now))
    {
      LiveAt(elements, clock, key);
      LiveAt(Naive(ttl, log), clock, key);
      PurgedFinds(ttl, elements, clock, log, now);
      hide Naive, Live, Timely;
      removed := if key in elements then Some(elements[key].element) else None;
      elements := elements - {key};
      RemoveExpiredKeys(now);
      RemoveFirst(old(elements), key, now);
      Record(ttl, log, clock, Live(old(elements), now), Op.Remove(key, now));
      clock, log := now, log + [Op.Remove(key, now)];
    }

    method Clear()
      requires Valid()
      modifies this
      ensures Valid() && clock == old(clock) && log == old(log) + [Op.Clear(clock)]
      ensures elements == map[]
    {
      hide Naive, Live, Timely;
      PurgedFinds(ttl, elements, clock, log, clock);
      Record(ttl, log, clock, Live(elements, clock), Op.Clear(clock));
      elements, queue := map[], [];
      log := log + [Op.Clear(clock)];
    }

    /** Reads without purging: the answer is the one for the last mutating call, not for now. */
    method ContainsKey(key: Key) returns (found: bool)
      requires Valid()
      ensures found <==> key in elements
      ensures ttl > 0 ==> (found <==> Alive(Naive(ttl, log), key, clock))
    {
      LiveAt(elements, clock, key);
      LiveAt(Naive(ttl, log), clock, key);
      found := key in elements;
    }

    // ---- Shared steps ----

    method Entry(key: Key, now: nat)
      requires Valid() && clock <= now
      modifies this`elements, this`queue
      ensures Tidy(elements, queue, ttl, now) && Found(ttl, log, elements, now)
      ensures var naive := Naive(ttl, log);
              && (key in elements <==> Alive(naive, key, now))
              && (key in elements ==> elements[key] == naive[key] && elements[key].expires > now)
    {
      PurgedFinds(ttl, elements, clock, log, now);
      RemoveExpiredKeys(now);
      LiveAt(Naive(ttl, log), now, key);
    }

    method PushNew(key: Key, value: Value, now: nat)
      requires Tidy(elements, queue, ttl, now)
      modifies this`elements, this`queue
      ensures elements == old(elements)[key := Expiring(value, now + ttl)] && Tidy(elements, queue, ttl, now)
    {
      TidyPush(elements, queue, ttl, now, key, value);
      queue := queue + [Expiring(key, now + ttl)];
      elements := elements[key := Expiring(value, now + ttl)];
    }

    ghost method Note(op: Op, purged: Elements)
      requires Timely(log, clock) && clock <= op.now && Found(ttl, log, purged, op.now)
      requires elements == Apply(ttl, purged, op) && Tidy(elements, queue, ttl, op.now)
      modifies this`clock, this`log
      ensures Valid() && clock == op.now && log == old(log) + [op]
    {
      Record(ttl, log, clock, purged, op);
      clock, log := op.now, log + [op];
    }

  }

  // ---- Which calls keep a key alive ----

  ghost predicate Grants(ttl: nat, log: seq<Op>, i: nat, key: Key)
    requires i < |log|
  {
    match log[i]
    case Insert(k, _, now) => k == key && !Alive(Naive(ttl, log[..i]), key, now)
    case Refresh(k, _, _) => k == key
    case Replace(k, _, now) => k == key && Alive(Naive(ttl, log[..i]), key, now)
    case _ => false
  }

  predicate Wipes(op: Op, key: Key) {
    op.Clear? || (op.Remove? && op.key == key)
  }

  ghost predicate YoungGrant(ttl: nat, log: seq<Op>, i: nat, key: Key, now: nat) {
    && i < |log| && Grants(ttl, log, i, key) && log[i].now + ttl > now
    && forall j :: i < j < |log| ==> !Wipes(log[j], key)
  }

  /** One more call that neither grants nor wipes changes nothing. */
  lemma EarlierGrant(ttl: nat, log: seq<Op>, i: nat, key: Key, now: nat)
    requires log != [] && i < |log| - 1
    ensures YoungGrant(ttl, log, i, key, now) <==>
            YoungGrant(ttl, log[..|log| - 1], i, key, now) && !Wipes(log[|log| - 1], key)
  {
    var n := |log| - 1;
    hide Naive, Alive;
    assert log[..n][..i] == log[..i] && log[..n][i] == log[i];
    assert forall j :: i < j < n ==> log[..n][j] == log[j];
  }

  lemma LastCall(ttl: nat, log: seq<Op>, key: Key, now: nat)
    requires log != [] && Timely(log, now)
    ensures var n := |log| - 1;
            var alive, before := Alive(Naive(ttl, log), key, now), Alive(Naive(ttl, log[..n]), key, now);
            && (Wipes(log[n], key) ==> !alive)
            && (Grants(ttl, log, n, key) ==> (alive <==> log[n].now + ttl > now))
            && (!Wipes(log[n], key) && !Grants(ttl, log, n, key) ==> (alive <==> before))
  {
  }

  /** A key is alive exactly when some insert that was accepted, or some refresh, is younger than the
      time to live and nothing has removed the key since. */
  lemma {:induction false} AliveIffYoungGrant(ttl: nat, log: seq<Op>, key: Key, now: nat)
    requires Timely(log, now)
    ensures Alive(Naive(ttl, log), key, now) <==> exists i: nat :: YoungGrant(ttl, log, i, key, now)
  {
    if log != [] {
      var n := |log| - 1;
      AliveIffYoungGrant(ttl, log[..n], key, now);
      LastCall(ttl, log, key, now);
      if i: nat :| YoungGrant(ttl, log, i, key, now) {
        if i < n {
          EarlierGrant(ttl, log, i, key, now);
          assert log[i].now <= log[n].now;
        }
      }
      if Alive(Naive(ttl, log), key, now) {
        if Grants(ttl, log, n, key) {
          assert YoungGrant(ttl, log, n, key, now);
        } else {
          var i: nat :| YoungGrant(ttl, log[..n], i, key, now);
          EarlierGrant(ttl, log, i, key, now);
        }
      }
    }
  }

  // ---- Which call wrote the value ----

  /** Call `i` writes a value under the key: an insert or a refresh that finds it gone, a replace or an
      overwrite that finds it alive. A refresh of a live key only renews it. */
  ghost predicate Writes(ttl: nat, log: seq<Op>, i: nat, key: Key)
    requires i < |log|
  {
    && (log[i].Insert? || log[i].Refresh? || log[i].Replace? || log[i].Overwrite?) && log[i].key == key
    && (Alive(Naive(ttl, log[..i]), key, log[i].now) <==> log[i].Replace? || log[i].Overwrite?)
  }

  /** Call `i` is the last one to write a value under the key, and nothing has removed the key since. */
  ghost predicate LastWrite(ttl: nat, log: seq<Op>, i: nat, key: Key) {
    && i < |log| && Writes(ttl, log, i, key)
    && forall j :: i < j < |log| ==> !Writes(ttl, log, j, key) && !Wipes(log[j], key)
  }

  lemma EarlierWrite(ttl: nat, log: seq<Op>, i: nat, key: Key)
    requires log != [] && i < |log| - 1
    ensures LastWrite(ttl, log, i, key) <==>
            LastWrite(ttl, log[..|log| - 1], i, key) && !Writes(ttl, log, |log| - 1, key) && !Wipes(log[|log| - 1], key)
  {
    hide Naive, Alive;
    var n := |log| - 1;
    forall j | 0 <= j < n ensures Writes(ttl, log, j, key) <==> Writes(ttl, log[..n], j, key) {
      assert log[..n][..j] == log[..j] && log[..n][j] == log[j];
    }
    assert forall j :: 0 <= j < n ==> log[..n][j] == log[j];
  }

  lemma LastCallWrites(ttl: nat, log: seq<Op>, key: Key)
    requires log != []
    ensures var n := |log| - 1;
            var after, before := Naive(ttl, log), Naive(ttl, log[..n]);
            && (Wipes(log[n], key) ==> key !in after)
            && (Writes(ttl, log, n, key) ==> key in after && after[key].element == log[n].value)
            && (!Wipes(log[n], key) && !Writes(ttl, log, n, key) ==>
                  (key in after <==> key in before) && (key in after ==> after[key].element == before[key].element))
  {
  }

  /** The value under a key is the one the last writing call wrote, and a key is there exactly when some
      call wrote it and nothing has removed it since. In particular this is the value of a live key. */
  lemma {:induction false} ValueIsLastWritten(ttl: nat, log: seq<Op>, key: Key)
    ensures key in Naive(ttl, log) <==> exists i: nat :: LastWrite(ttl, log, i, key)
    ensures forall i: nat :: LastWrite(ttl, log, i, key) ==>
              key in Naive(ttl, log) && Naive(ttl, log)[key].element == log[i].value
  {
    if log != [] {
      var n := |log| - 1;
      ValueIsLastWritten(ttl, log[..n], key);
      LastCallWrites(ttl, log, key);
      forall i: nat | i < n
        ensures LastWrite(ttl, log, i, key) <==>
                LastWrite(ttl, log[..n], i, key) && !Writes(ttl, log, n, key) && !Wipes(log[n], key)
      {
        EarlierWrite(ttl, log, i, key);
      }
      if key in Naive(ttl, log) {
        if Writes(ttl, log, n, key) {
          assert LastWrite(ttl, log, n, key);
        } else {
          var i: nat :| LastWrite(ttl, log[..n], i, key);
          assert LastWrite(ttl, log, i, key);
        }
      }
      forall i: nat | LastWrite(ttl, log, i, key)
        ensures key in Naive(ttl, log) && Naive(ttl, log)[key].element == log[i].value
      {
        if i < n {
          assert LastWrite(ttl, log[..n], i, key);
        }
      }
    }
  }

  /** With no time to live at all, nothing is ever found again: every insert is accepted. */
  lemma ZeroTtl(log: seq<Op>, key: Key, now: nat)
    requires Timely(log, now)
    ensures !Alive(Naive(0, log), key, now)
  {
    AliveIffYoungGrant(0, log, key, now);
  }

  /** A removal can hand out a value that has already expired: here it was inserted a whole time to live
      ago and nothing has purged it since. */
  method StaleRemoval(ttl: nat, key: Key, value: Value) returns (removed: Option<Value>)
    requires ttl > 0
    ensures removed == Some(value) && !Alive(Naive(ttl, [Op.Insert(key, value, 0)]), key, ttl)
  {
    var cache := new TimeCache(ttl);
    var accepted := cache.Insert(key, value, 0);
    assert cache.log == [Op.Insert(key, value, 0)];
    JustInserted(ttl, key, value);
    removed := cache.Remove(key, ttl);
  }

  lemma JustInserted(ttl: nat, key: Key, value: Value)
    requires ttl > 0
    ensures var naive := Naive(ttl, [Op.Insert(key, value, 0)]);
            Alive(naive, key, 0) && naive[key].element == value && !Alive(naive, key, ttl)
  {
    assert [Op.Insert(key, value, 0)][..0] == [];
  }
}
