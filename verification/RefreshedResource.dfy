/** Periodic refreshing of an external resource. Ticks are atomic; a spawned sync may finish late, out of
    order or never. Times are seconds, without rounding. */
module RefreshedResource {
  import opened Options

  type Payload
  type Task(==)

  datatype Shelf = Shelf(time: real, result: Payload)

  /** A sync whose result was taken: from its start to the time it filled the shelf. */
  datatype Interval = Interval(start: real, finish: real)

  ghost predicate InOrder(accepted: seq<Interval>) {
    && (forall i :: 0 <= i < |accepted| ==> accepted[i].start <= accepted[i].finish)
    && (forall i, j :: 0 <= i < j < |accepted| ==> accepted[i].finish < accepted[j].start)
  }

  ghost predicate Spaced(starts: seq<real>, gap: real) {
    forall i, j :: 0 <= i < j < |starts| ==> starts[j] - starts[i] > gap
  }

  class RefreshedExternalResource {
    const everyNSec: real
    const timeoutSec: real
    var lastStart: real
    var shelf: Option<Shelf>
    var listeners: seq<Task>
    /** Start times of the syncs still running. */
    var running: seq<real>
    /** All tasks notified so far, all sync starts, all accepted syncs, and the last time anything happened. */
    ghost var notified: seq<Task>
    ghost var starts: seq<real>
    ghost var accepted: seq<Interval>
    ghost var clock: real

    ghost predicate Valid()
      reads this
    {
      && 0.0 <= everyNSec <= timeoutSec && 0.0 <= lastStart <= clock
      && lastStart == (if starts == [] then 0.0 else starts[|starts| - 1])
      && Spaced([0.0] + starts, everyNSec) && InOrder(accepted)
      && (forall i :: 0 <= i < |accepted| ==> accepted[i].start in starts && accepted[i].finish <= clock)
      && (forall i :: 0 <= i < |running| ==> running[i] in starts)
      && (shelf.None? <==> accepted == [])
      && (shelf.Some? ==> shelf.value.time == accepted[|accepted| - 1].finish)
    }

    constructor (everyNSec: real, timeoutSec: real)
      requires everyNSec >= 0.0
      ensures Valid() && this.everyNSec == everyNSec && clock == 0.0
      ensures this.timeoutSec == if timeoutSec < everyNSec then everyNSec else timeoutSec
      ensures running == [] && starts == [] && accepted == [] && listeners == [] && notified == []
    {
      this.everyNSec := everyNSec;
      this.timeoutSec := if timeoutSec < everyNSec then everyNSec else timeoutSec;
      lastStart, shelf, listeners, running := 0.0, None, [], [];
      notified, starts, accepted, clock := [], [], [], 0.0;
    }

    method AddListeners(tasks: seq<Task>)
      requires Valid()
      modifies this`listeners
      ensures Valid() && notified + listeners == old(notified + listeners) + tasks
    {
      listeners := listeners + tasks;
    }

    /** Starts a sync when the last one timed out, or when one finished since and the rate limit allows. */
    method Tick(now: real) returns (started: bool)
      requires Valid() && clock <= now
      modifies this`lastStart, this`running, this`starts, this`clock
      ensures Valid() && clock == now
      ensures started ==> starts == old(starts) + [now] && running == old(running) + [now]
      ensures !started ==> starts == old(starts) && running == old(running)
      ensures now - old(lastStart) > timeoutSec ==> started
      ensures now - old(lastStart) <= everyNSec ==> !started
      ensures everyNSec < now - old(lastStart) <= timeoutSec ==>
        (started <==> exists k :: 0 <= k < |accepted| && accepted[k].finish > old(lastStart))
    {
      LastFinishIsLatest(accepted, lastStart);
      hide InOrder;
      var lastFinish := if shelf.Some? then shelf.value.time else 0.0;
      started := now - lastStart > timeoutSec || (lastFinish > lastStart && now - lastStart > everyNSec);
      clock := now;
      if started {
        SpacedMore(starts, everyNSec, now);
        lastStart := now;
        running := running + [now];
        starts := starts + [now];
      }
    }

    /** The `i`-th running sync finishes. Its result is taken exactly when it started after everything
        accepted so far had finished; then all listeners are notified once. */
    method Finish(i: nat, result: Payload, now: real) returns (taken: bool)
      requires Valid() && clock <= now && i < |running|
      modifies this`shelf, this`listeners, this`running, this`notified, this`accepted, this`clock
      ensures Valid() && clock == now && running == old(running[..i] + running[i + 1..])
      ensures taken <==> forall k :: 0 <= k < |old(accepted)| ==> old(accepted)[k].finish < old(running)[i]
      ensures taken ==>
        && shelf == Some(Shelf(now, result)) && accepted == old(accepted) + [Interval(old(running)[i], now)]
                        && listeners == [] && notified == old(notified + listeners)
      ensures !taken ==> && shelf == old(shelf) && accepted == old(accepted)
                         && listeners == old(listeners) && notified == old(notified)
    {
      hide Spaced, InOrder;
      var start := running[i];
      StartsAfterZero(starts, everyNSec, start);
      StartedBy(starts, everyNSec, start);
      AcceptMore(accepted, start, now);
      running := running[..i] + running[i + 1..];
      clock := now;
      var shelfTime := if shelf.Some? then shelf.value.time else 0.0;
      taken := start > shelfTime;
      if taken {
        shelf := Some(Shelf(now, result));
        accepted := accepted + [Interval(start, now)];
        notified, listeners := notified + listeners, [];
      }
    }
  }

  /** Starting after the last finish is starting after every finish, and keeps the order. */
  lemma AcceptMore(accepted: seq<Interval>, start: real, now: real)
    requires InOrder(accepted) && start <= now
    ensures accepted != [] ==>
      (accepted[|accepted| - 1].finish < start <==> forall k :: 0 <= k < |accepted| ==> accepted[k].finish < start)
    ensures (accepted == [] || accepted[|accepted| - 1].finish < start) ==>
      InOrder(accepted + [Interval(start, now)])
  {
    if accepted != [] && accepted[|accepted| - 1].finish < start {
      forall k | 0 <= k < |accepted| ensures accepted[k].finish < start {
        if k < |accepted| - 1 {
          assert accepted[k].finish < accepted[|accepted| - 1].start;
        }
      }
    }
  }

  lemma LastFinishIsLatest(accepted: seq<Interval>, time: real)
    requires InOrder(accepted)
    ensures (exists k :: 0 <= k < |accepted| && accepted[k].finish > time) <==>
            accepted != [] && accepted[|accepted| - 1].finish > time
  {
    if k :| 0 <= k < |accepted| && accepted[k].finish > time {
      if k < |accepted| - 1 {
        assert accepted[k].finish < accepted[|accepted| - 1].start;
      }
    }
  }

  /** Consecutive accepted syncs are further apart than the rate limit. */
  lemma AcceptedSpaced(starts: seq<real>, accepted: seq<Interval>, gap: real, i: nat, j: nat)
    requires Spaced(starts, gap) && gap >= 0.0 && InOrder(accepted) && i < j < |accepted|
    requires accepted[i].start in starts && accepted[j].start in starts
    ensures accepted[j].start - accepted[i].start > gap
  {
    var a :| 0 <= a < |starts| && starts[a] == accepted[i].start;
    var b :| 0 <= b < |starts| && starts[b] == accepted[j].start;
    assert accepted[i].start < accepted[j].start;
    if b <= a {
      assert b < a ==> starts[a] - starts[b] > gap;
    }
  }

  /** Ordering by finish can drop the newer data: a sync that timed out but finishes before its
      successor makes the successor's result come too late. */
  method NewerResultDropped(older: Payload, newer: Payload) returns (r: RefreshedExternalResource, taken: bool)
    ensures fresh(r) && r.Valid() && !taken && r.shelf == Some(Shelf(6.0, older))
    ensures r.starts == [3.0, 5.0] && r.accepted == [Interval(3.0, 6.0)]
  {
    hide Spaced, InOrder;
    r := new RefreshedExternalResource(1.0, 1.0);
    var _ := r.Tick(3.0);
    assert r.running == [3.0] && r.starts == [3.0];
    var _ := r.Tick(5.0);
    assert r.running == [3.0, 5.0] && r.starts == [3.0, 5.0];
    taken := r.Finish(0, older, 6.0);
    assert taken && r.running == [5.0] && r.accepted == [Interval(3.0, 6.0)];
    taken := r.Finish(0, newer, 7.0);
  }

  lemma SpacedMore(starts: seq<real>, gap: real, now: real)
    requires Spaced([0.0] + starts, gap) && gap >= 0.0
    requires now - (if starts == [] then 0.0 else starts[|starts| - 1]) > gap
    ensures Spaced([0.0] + (starts + [now]), gap)
  {
    var all := [0.0] + starts;
    var last := all[|all| - 1];
    assert last == if starts == [] then 0.0 else starts[|starts| - 1];
    assert [0.0] + (starts + [now]) == all + [now];
    forall i | 0 <= i < |all| ensures now - all[i] > gap {
      if i < |all| - 1 {
        assert all[|all| - 1] - all[i] > gap;
      }
    }
  }

  lemma StartsAfterZero(starts: seq<real>, gap: real, start: real)
    requires Spaced([0.0] + starts, gap) && gap >= 0.0 && start in starts
    ensures start > 0.0
  {
    var k :| 0 <= k < |starts| && starts[k] == start;
    assert ([0.0] + starts)[k + 1] - ([0.0] + starts)[0] > gap;
  }

  lemma StartedBy(starts: seq<real>, gap: real, start: real)
    requires Spaced([0.0] + starts, gap) && gap >= 0.0 && start in starts
    ensures start <= starts[|starts| - 1]
  {
    var k :| 0 <= k < |starts| && starts[k] == start;
    var all := [0.0] + starts;
    if k < |starts| - 1 {
      assert all[|starts|] - all[k + 1] > gap;
    }
  }
}
