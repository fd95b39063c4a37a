/** A lock word shared by spinning and sleeping waiters, as a machine of atomic steps: every
    compare-and-swap and every look at the clock is one step, and steps of different attempts interleave
    freely. */
module DuplexMutex {

  datatype Kind = Spin | Sleep

  /** Where an attempt stands: its first swap failed and it has yet to note the time; it is about to swap
      again; a swap failed and it is about to look at the clock; it holds a guard. */
  datatype Phase =
    | Starting(kind: Kind, timeoutMs: int)
    | Waiting(kind: Kind, timeoutMs: int, start: int)
    | Checking(kind: Kind, timeoutMs: int, start: int)
    | Guarding

  /** The lock word, and every attempt that is under way or holds a guard, on any thread or clone. */
  datatype System = System(locked: nat, attempts: map<nat, Phase>)

  datatype Step =
    | Begin(id: nat, kind: Kind, timeoutMs: int)
    | NoteStart(id: nat, now: int)
    | Swap(id: nat, fast: bool)
    | LookAtClock(id: nat, now: int)
    | Cancel(id: nat)
    | DropGuard(id: nat)

  datatype Outcome = Acquired | StillWaiting | TimedOut(delta: int) | Cancelled | Unlocked | NotLocked

  function CompareExchange(word: nat, current: nat, new_: nat): (bool, nat) {
    if word == current then (true, new_) else (false, word)
  }

  /** What an attempt can do in its phase. A sleeping one can be cancelled while it sleeps. */
  predicate Enabled(s: System, step: Step) {
    if step.Begin? then step.id !in s.attempts else
      step.id in s.attempts && var phase := s.attempts[step.id];
      match step
      case NoteStart(_, _) => phase.Starting?
      case Swap(_, _) => phase.Waiting?
      case LookAtClock(_, _) => phase.Checking?
      case Cancel(_) => phase.Waiting? && phase.kind.Sleep?
      case DropGuard(_) => phase.Guarding?
  }

  function Take(s: System, step: Step): (System, Outcome)
    requires Enabled(s, step)
  {
    match step
    case Begin(id, kind, timeoutMs) =>
      var (ok, word) := CompareExchange(s.locked, 0, 1);
      if ok then (System(word, s.attempts[id := Guarding]), Acquired)
      else (s.(attempts := s.attempts[id := Starting(kind, timeoutMs)]), StillWaiting)
    case NoteStart(id, now) =>
      var w := s.attempts[id];
      (s.(attempts := s.attempts[id := Waiting(w.kind, w.timeoutMs, now)]), StillWaiting)
    case Swap(id, fast) =>
      var (ok, word) := CompareExchange(s.locked, 0, 1);
      var w := s.attempts[id];
      if ok then (System(word, s.attempts[id := Guarding]), Acquired)
      else if w.kind.Spin? && fast then (s, StillWaiting)
      else (s.(attempts := s.attempts[id := Checking(w.kind, w.timeoutMs, w.start)]), StillWaiting)
    case LookAtClock(id, now) =>
      var w := s.attempts[id];
      if now - w.start > w.timeoutMs then (s.(attempts := s.attempts - {id}), TimedOut(now - w.start))
      else (s.(attempts := s.attempts[id := Waiting(w.kind, w.timeoutMs, w.start)]), StillWaiting)
    case Cancel(id) => (s.(attempts := s.attempts - {id}), Cancelled)
    case DropGuard(id) =>
      var (ok, word) := CompareExchange(s.locked, 1, 0);
      if ok then (System(word, s.attempts - {id}), Unlocked) else (s, NotLocked)
  }

  function Guards(s: System): set<nat> {
    set id | id in s.attempts && s.attempts[id].Guarding?
  }

  ghost predicate Inv(s: System) {
    s.locked <= 1 && |Guards(s)| == s.locked
  }

  // ---- Every step ----

  /** A new mutex is unlocked and has no guard. */
  lemma NewMutex()
    ensures Inv(System(0, map[]))
  {
    assert Guards(System(0, map[])) == {};
  }

  lemma StepKeeps(s: System, step: Step)
    requires Inv(s) && Enabled(s, step)
    ensures Inv(Take(s, step).0)
  {
    GuardsAfter(s, step);
  }

  /** Only getting the lock and giving it back change who holds a guard. */
  lemma GuardsAfter(s: System, step: Step)
    requires Enabled(s, step)
    ensures var (s', outcome) := Take(s, step);
            match outcome
            case Acquired => s.locked == 0 && s'.locked == 1 && Guards(s') == Guards(s) + {step.id}
            case Unlocked => s.locked == 1 && s'.locked == 0 && Guards(s') == Guards(s) - {step.id}
              && step.id in Guards(s)
            case _ => s'.locked == s.locked && Guards(s') == Guards(s)
  {
    var s' := Take(s, step).0;
    forall id | id != step.id ensures id in Guards(s') <==> id in Guards(s) {
      OthersKeepPhase(s, step, id);
    }
  }

  /** There is never more than one guard. */
  lemma LoneGuard(s: System, a: nat, b: nat)
    requires Inv(s) && a in Guards(s) && b in Guards(s)
    ensures a == b
  {
    assert |Guards(s) - {a}| == |Guards(s)| - 1 == 0;
    assert b !in Guards(s) - {a};
  }

  /** Unlocking when a guard is dropped cannot fail. */
  lemma DropNeverFails(s: System, id: nat)
    requires Inv(s) && Enabled(s, DropGuard(id))
    ensures Take(s, DropGuard(id)).1 == Unlocked
  {
    assert |Guards(s) - {id}| == |Guards(s)| - 1;
  }

  /** A swap gets the lock exactly when nobody holds a guard. */
  lemma AcquiredIffFree(s: System, step: Step)
    requires Inv(s) && Enabled(s, step) && (step.Begin? || step.Swap?)
    ensures Take(s, step).1 == Acquired <==> Guards(s) == {}
  {
  }

  /** A timed-out attempt changes nothing for anyone else, and gives up only after its timeout. */
  lemma TimeoutChangesNothing(s: System, step: Step)
    requires Enabled(s, step) && Take(s, step).1.TimedOut?
    ensures var s' := Take(s, step).0;
            && s'.locked == s.locked && Guards(s') == Guards(s)
            && s'.attempts == s.attempts - {step.id}
            && Take(s, step).1.delta > s.attempts[step.id].timeoutMs
  {
  }

  // ---- Every run ----

  /** `states` are the states before, between and after the steps. */
  ghost predicate Trace(states: seq<System>, steps: seq<Step>) {
    && |states| == |steps| + 1
    && forall i :: 0 <= i < |steps| ==> Enabled(states[i], steps[i]) && states[i + 1] == Take(states[i], steps[i]).0
  }

  lemma {:induction false} RunKeeps(states: seq<System>, steps: seq<Step>, i: nat)
    requires Trace(states, steps) && Inv(states[0]) && i < |states|
    ensures Inv(states[i])
  {
    if i > 0 {
      RunKeeps(states, steps, i - 1);
      StepKeeps(states[i - 1], steps[i - 1]);
    }
  }

  /** Step `i` is the last step of attempt `id` before step `j`. */
  ghost predicate LastStep(steps: seq<Step>, i: nat, j: nat, id: nat) {
    i < j <= |steps| && steps[i].id == id && forall m :: i < m < j ==> steps[m].id != id
  }

  lemma OthersKeepPhase(s: System, step: Step, id: nat)
    requires Enabled(s, step) && step.id != id
    ensures id in Take(s, step).0.attempts <==> id in s.attempts
    ensures id in s.attempts ==> Take(s, step).0.attempts[id] == s.attempts[id]
  {
  }

  /** Whoever is about to look at the clock has just seen the lock taken: at its last step, a swap, the
      lock word was set. */
  lemma {:induction false} CheckingSawLock(states: seq<System>, steps: seq<Step>, j: nat, id: nat)
    requires Trace(states, steps) && j < |states| && id in states[j].attempts && states[j].attempts[id].Checking?
    requires id in states[0].attempts ==> !states[0].attempts[id].Checking?
    ensures exists i: nat :: LastStep(steps, i, j, id) && steps[i].Swap? && states[i].locked != 0
  {
    var s, step := states[j - 1], steps[j - 1];
    assert states[j] == Take(s, step).0;
    if step.id == id {
      assert LastStep(steps, j - 1, j, id) && steps[j - 1].Swap? && states[j - 1].locked != 0;
    } else {
      OthersKeepPhase(s, step, id);
      CheckingSawLock(states, steps, j - 1, id);
      var i: nat :| LastStep(steps, i, j - 1, id) && steps[i].Swap? && states[i].locked != 0;
      assert LastStep(steps, i, j, id);
    }
  }

  /** Over every run, an attempt that times out saw a live guard at its last swap. */
  lemma TimeoutSawGuard(states: seq<System>, steps: seq<Step>, j: nat)
    requires Trace(states, steps) && Inv(states[0]) && j < |steps| && Take(states[j], steps[j]).1.TimedOut?
    requires steps[j].id in states[0].attempts ==> !states[0].attempts[steps[j].id].Checking?
    ensures exists i: nat :: LastStep(steps, i, j, steps[j].id) && steps[i].Swap? && Guards(states[i]) != {}
  {
    CheckingSawLock(states, steps, j, steps[j].id);
    var i: nat :| LastStep(steps, i, j, steps[j].id) && steps[i].Swap? && states[i].locked != 0;
    RunKeeps(states, steps, i);
  }

  /** Of the steps of attempt `id` before step `j`, step `b` is the last that begins it and step `n` the
      only one after that to note its start. */
  ghost predicate Since(steps: seq<Step>, b: nat, n: nat, j: nat, id: nat) {
    && b < n < j <= |steps| && steps[b].Begin? && steps[b].id == id && steps[n].NoteStart? && steps[n].id == id
    && forall m :: b < m < j && m != n && steps[m].id == id ==> !steps[m].Begin? && !steps[m].NoteStart?
  }

  /** Attempt `id` was begun as a `kind` with that timeout, and noted `start`. */
  ghost predicate WaitsSince(steps: seq<Step>, b: nat, n: nat, j: nat, id: nat, kind: Kind, timeoutMs: int,
                             start: int) {
    Since(steps, b, n, j, id) && steps[b] == Begin(id, kind, timeoutMs) && steps[n] == NoteStart(id, start)
  }

  lemma SinceUnique(steps: seq<Step>, b: nat, n: nat, b': nat, n': nat, j: nat, id: nat)
    requires Since(steps, b, n, j, id) && Since(steps, b', n', j, id)
    ensures b == b' && n == n'
  {
  }

  /** What the phase of an attempt remembers is what its own steps said. */
  ghost predicate Remembers(steps: seq<Step>, j: nat, id: nat, phase: Phase) {
    match phase
    case Starting(kind, timeoutMs) =>
      exists b: nat :: LastStep(steps, b, j, id) && steps[b] == Begin(id, kind, timeoutMs)
    case Waiting(kind, timeoutMs, start) =>
      exists b: nat, n: nat :: WaitsSince(steps, b, n, j, id, kind, timeoutMs, start)
    case Checking(kind, timeoutMs, start) =>
      exists b: nat, n: nat :: WaitsSince(steps, b, n, j, id, kind, timeoutMs, start)
    case Guarding => true
  }

  lemma RemembersLonger(steps: seq<Step>, j: nat, id: nat, phase: Phase)
    requires j < |steps| && Remembers(steps, j, id, phase)
    requires steps[j].id != id || steps[j].Swap? || steps[j].LookAtClock?
    ensures steps[j].id != id ==> Remembers(steps, j + 1, id, phase)
    ensures phase.Waiting? || phase.Checking? ==>
      && Remembers(steps, j + 1, id, Waiting(phase.kind, phase.timeoutMs, phase.start))
      && Remembers(steps, j + 1, id, Checking(phase.kind, phase.timeoutMs, phase.start))
  {
    match phase
    case Starting(kind, timeoutMs) =>
      var b: nat :| LastStep(steps, b, j, id) && steps[b] == Begin(id, kind, timeoutMs);
      assert steps[j].id != id ==> LastStep(steps, b, j + 1, id);
    case Waiting(kind, timeoutMs, start) =>
      var b: nat, n: nat :| WaitsSince(steps, b, n, j, id, kind, timeoutMs, start);
      assert WaitsSince(steps, b, n, j + 1, id, kind, timeoutMs, start);
    case Checking(kind, timeoutMs, start) =>
      var b: nat, n: nat :| WaitsSince(steps, b, n, j, id, kind, timeoutMs, start);
      assert WaitsSince(steps, b, n, j + 1, id, kind, timeoutMs, start);
    case Guarding =>
  }

  lemma {:induction false} PhaseRemembers(states: seq<System>, steps: seq<Step>, j: nat, id: nat)
    requires Trace(states, steps) && j < |states| && id !in states[0].attempts && id in states[j].attempts
    ensures Remembers(steps, j, id, states[j].attempts[id])
  {
    var s, step := states[j - 1], steps[j - 1];
    assert Enabled(s, step) && states[j] == Take(s, step).0;
    if step.id != id {
      OthersKeepPhase(s, step, id);
      PhaseRemembers(states, steps, j - 1, id);
      RemembersLonger(steps, j - 1, id, s.attempts[id]);
    } else if step.Begin? {
      assert LastStep(steps, j - 1, j, id);
    } else {
      PhaseRemembers(states, steps, j - 1, id);
      if step.NoteStart? {
        var w := s.attempts[id];
        var b: nat :| LastStep(steps, b, j - 1, id) && steps[b] == Begin(id, w.kind, w.timeoutMs);
        assert WaitsSince(steps, b, j - 1, j, id, w.kind, w.timeoutMs, step.now);
      } else if step.Swap? || step.LookAtClock? {
        RemembersLonger(steps, j - 1, id, s.attempts[id]);
      }
    }
  }

  /** Over every run, a look at the clock ends the attempt exactly when more than the timeout it was begun
      with has passed since the time it noted. */
  lemma ClockDecides(states: seq<System>, steps: seq<Step>, j: nat)
    requires Trace(states, steps) && j < |steps| && steps[j].LookAtClock? && steps[j].id !in states[0].attempts
    ensures exists b: nat, n: nat :: Since(steps, b, n, j, steps[j].id)
    ensures forall b: nat, n: nat :: Since(steps, b, n, j, steps[j].id) ==>
              var passed := steps[j].now - steps[n].now;
              Take(states[j], steps[j]).1 == if passed > steps[b].timeoutMs then TimedOut(passed) else StillWaiting
  {
    var id := steps[j].id;
    PhaseRemembers(states, steps, j, id);
    var w := states[j].attempts[id];
    var b: nat, n: nat :| WaitsSince(steps, b, n, j, id, w.kind, w.timeoutMs, w.start);
    forall b': nat, n': nat | Since(steps, b', n', j, id) ensures b' == b && n' == n {
      SinceUnique(steps, b, n, b', n', j, id);
    }
  }

  lemma {:induction false} PhaseKept(states: seq<System>, steps: seq<Step>, i: nat, j: nat, id: nat)
    requires Trace(states, steps) && LastStep(steps, i, j, id)
    ensures id in states[j].attempts <==> id in states[i + 1].attempts
    ensures id in states[j].attempts ==> states[j].attempts[id] == states[i + 1].attempts[id]
    decreases j
  {
    if i + 1 < j {
      PhaseKept(states, steps, i, j - 1, id);
      OthersKeepPhase(states[j - 1], steps[j - 1], id);
    }
  }

  /** A spinning attempt looks at the clock after every swap that was not fast, a sleeping one after every
      swap; neither swaps again without having done so. */
  lemma ClockBetweenSwaps(states: seq<System>, steps: seq<Step>, i: nat, j: nat)
    requires Trace(states, steps) && j < |steps| && LastStep(steps, i, j, steps[j].id)
    ensures steps[j].LookAtClock? ==> steps[i].Swap? && (steps[i].fast ==> states[j].attempts[steps[j].id].kind.Sleep?)
    ensures steps[j].Swap? && steps[i].Swap? ==> steps[i].fast && states[j].attempts[steps[j].id].kind.Spin?
  {
    PhaseKept(states, steps, i, j, steps[j].id);
    assert Enabled(states[i], steps[i]) && states[i + 1] == Take(states[i], steps[i]).0;
    assert Enabled(states[j], steps[j]);
  }

  /** The guard may be gone by then: the attempt gives up although the lock is free. */
  lemma TimeoutWhileFree() returns (states: seq<System>, steps: seq<Step>)
    ensures Trace(states, steps) && states[0] == System(0, map[]) && |steps| == 6
    ensures Take(states[5], steps[5]).1 == TimedOut(10) && Guards(states[5]) == {} && states[5].locked == 0
  {
    steps := [Begin(0, Spin, 5), Begin(1, Spin, 5), NoteStart(1, 0), Swap(1, false), DropGuard(0), LookAtClock(1, 10)];
    states := [System(0, map[])];
    var i := 0;
    while i < 6
      invariant 0 <= i <= 6 && |states| == i + 1 && states[0] == System(0, map[])
      invariant i == 0 ==> states[i] == System(0, map[])
      invariant i == 1 ==> states[i] == System(1, map[0 := Guarding])
      invariant i == 2 ==> states[i] == System(1, map[0 := Guarding, 1 := Starting(Spin, 5)])
      invariant i == 3 ==> states[i] == System(1, map[0 := Guarding, 1 := Waiting(Spin, 5, 0)])
      invariant i == 4 ==> states[i] == System(1, map[0 := Guarding, 1 := Checking(Spin, 5, 0)])
      invariant i == 5 ==> states[i] == System(0, map[1 := Checking(Spin, 5, 0)])
      invariant i > 5 ==> states[5] == System(0, map[1 := Checking(Spin, 5, 0)])
      invariant forall k :: 0 <= k < i ==> Enabled(states[k], steps[k]) && states[k + 1] == Take(states[k], steps[k]).0
    {
      states := states + [Take(states[i], steps[i]).0];
      i := i + 1;
    }
  }

  /** What happens to the lock over a run: who locks and who unlocks, in order. */
  datatype Event = Lock(id: nat) | Unlock(id: nat)

  ghost function Events(states: seq<System>, steps: seq<Step>): seq<Event>
    requires Trace(states, steps)
    decreases |steps|
  {
    if steps == [] then [] else
      var rest := Events(states[1..], steps[1..]);
      match Take(states[0], steps[0]).1
      case Acquired => [Lock(steps[0].id)] + rest
      case Unlocked => [Unlock(steps[0].id)] + rest
      case _ => rest
  }

  /** Critical sections one after the other, each left by whoever entered it; the first may already be
      under way, the last may still be. */
  ghost predicate Serial(holder: set<nat>, events: seq<Event>)
    decreases |events|
  {
    events != [] ==>
      match events[0]
      case Lock(id) => holder == {} && Serial({id}, events[1..])
      case Unlock(id) => holder == {id} && Serial({}, events[1..])
  }

  lemma HolderIs(s: System, id: nat)
    requires Inv(s) && id in Guards(s)
    ensures Guards(s) == {id}
  {
    forall x | x in Guards(s) ensures x == id {
      LoneGuard(s, x, id);
    }
  }

  lemma StepEvent(s: System, step: Step)
    requires Inv(s) && Enabled(s, step)
    ensures var (s', outcome) := Take(s, step);
            match outcome
            case Acquired => Guards(s) == {} && Guards(s') == {step.id}
            case Unlocked => Guards(s) == {step.id} && Guards(s') == {}
            case _ => Guards(s') == Guards(s)
  {
    var (s', outcome) := Take(s, step);
    StepKeeps(s, step);
    match outcome
    case Acquired =>
      AcquiredIffFree(s, step);
      HolderIs(s', step.id);
    case Unlocked =>
      HolderIs(s, step.id);
    case _ =>
  }

  /** Mutual exclusion over every interleaving of any number of attempts. */
  lemma {:induction false} RunsAreSerial(states: seq<System>, steps: seq<Step>)
    requires Trace(states, steps) && Inv(states[0])
    ensures Serial(Guards(states[0]), Events(states, steps))
    decreases |steps|
  {
    if steps != [] {
      var s, step := states[0], steps[0];
      StepKeeps(s, step);
      StepEvent(s, step);
      RunsAreSerial(states[1..], steps[1..]);
      var rest := Events(states[1..], steps[1..]);
      hide Guards, Inv, Take, Enabled;
      match Take(s, step).1
      case Acquired => assert ([Lock(step.id)] + rest)[1..] == rest;
      case Unlocked => assert ([Unlock(step.id)] + rest)[1..] == rest;
      case _ =>
    }
  }
}
