/** Operations that queue up behind a chain of promises: the throttle of one
    layer of a rate-limited client, and the per-file lock that forgets its chain
    once nobody waits. */
module PromiseTails {
  import opened Basics

  type Operation = nat

  // --- the throttle -------------------------------------------------------------------------

  datatype Stage = Waiting | Sleeping(until: int) | Running | Over

  /** `stages` in the order of arrival; `starts` are the times of the starts. */
  datatype Throttle = Throttle(
    now: int, intervalMs: nat, stages: seq<Stage>, lastStartedAt: int, inFlight: bool, pending: nat, starts: seq<int>)

  datatype ThrottleStep =
    | Arrive
    | Wake(op: Operation)
    | Start(op: Operation)
    | End(op: Operation)
    | Tick(ms: nat)

  /** The promise before this one is settled. */
  predicate Released(stages: seq<Stage>, op: Operation)
    requires op < |stages|
  {
    op == 0 || stages[op - 1].Over?
  }

  ghost predicate ThrottleNext(t: Throttle, step: ThrottleStep, next: Throttle) {
    match step
    case Arrive => next == t.(stages := t.stages + [Waiting], pending := t.pending + 1)
    case Wake(op) =>
      && op < |t.stages| && t.stages[op].Waiting? && Released(t.stages, op)
      && next == t.(stages := t.stages[op := Sleeping(t.now + Max(0, t.lastStartedAt + t.intervalMs - t.now))])
    case Start(op) =>
      && op < |t.stages| && t.stages[op].Sleeping? && t.stages[op].until <= t.now
      && next == t.(
           stages := t.stages[op := Running], inFlight := true, lastStartedAt := t.now, starts := t.starts + [t.now])
    case End(op) =>
      // The operation returned or threw; either way the next one is released.
      && op < |t.stages| && t.stages[op].Running? && t.pending > 0
      && next == t.(stages := t.stages[op := Over], inFlight := false, pending := t.pending - 1)
    case Tick(ms) => next == t.(now := t.now + ms)
  }

  function FreshThrottle(now: int, intervalMs: nat): Throttle { Throttle(now, intervalMs, [], 0, false, 0, []) }

  /** Whoever is past waiting is the only one, and everybody before is done. */
  ghost predicate OneAtATime(stages: seq<Stage>) {
    forall i, j :: 0 <= i < j < |stages| && !stages[j].Waiting? ==> stages[i].Over?
  }

  predicate Started(stage: Stage) { stage.Running? || stage.Over? }

  ghost predicate ThrottleInv(t: Throttle) {
    && OneAtATime(t.stages)
    && |t.starts| <= |t.stages|
    && (forall i :: 0 <= i < |t.stages| ==> (Started(t.stages[i]) <==> i < |t.starts|))
    && (forall i :: 0 <= i < |t.stages| && t.stages[i].Sleeping? ==>
        t.lastStartedAt + t.intervalMs <= t.stages[i].until)
    && (t.starts != [] ==> t.starts[|t.starts| - 1] == t.lastStartedAt)
    && (forall i :: 0 < i < |t.starts| ==> t.starts[i - 1] + t.intervalMs <= t.starts[i])
    && (t.inFlight <==> exists i :: 0 <= i < |t.stages| && t.stages[i].Running?)
    && t.pending == Unfinished(t.stages)
  }

  function Unfinished(stages: seq<Stage>): nat {
    if stages == [] then 0
    else Unfinished(stages[..|stages| - 1]) + if stages[|stages| - 1].Over? then 0 else 1
  }

  lemma {:induction false} UnfinishedAfter(stages: seq<Stage>, op: Operation, stage: Stage)
    requires op < |stages|
    ensures Unfinished(stages[op := stage])
         == Unfinished(stages) - (if stages[op].Over? then 0 else 1) + (if stage.Over? then 0 else 1)
  {
    var last := |stages| - 1;
    if op < last {
      UnfinishedAfter(stages[..last], op, stage);
      assert stages[op := stage][..last] == stages[..last][op := stage];
    } else {
      assert stages[op := stage][..last] == stages[..last];
    }
  }

  lemma ThrottleKeepsInv(t: Throttle, step: ThrottleStep, next: Throttle)
    requires ThrottleInv(t) && ThrottleNext(t, step, next)
    ensures ThrottleInv(next)
  {
    hide ThrottleInv, Unfinished;
    match step
    case Arrive => ArrivalKeepsInv(t);
    case Wake(op) => WakeKeepsInv(t, op, next);
    case Start(op) => StartKeepsInv(t, op, next);
    case End(op) => EndKeepsInv(t, op, next);
    case Tick(ms) => TickKeepsInv(t, ms);
  }

  lemma ArrivalKeepsInv(t: Throttle)
    requires ThrottleInv(t)
    ensures ThrottleInv(t.(stages := t.stages + [Waiting], pending := t.pending + 1))
  {
    var more := t.stages + [Waiting];
    assert more[..|t.stages|] == t.stages;
    assert forall i :: 0 <= i < |t.stages| ==> more[i] == t.stages[i];
  }

  lemma TickKeepsInv(t: Throttle, ms: nat)
    requires ThrottleInv(t)
    ensures ThrottleInv(t.(now := t.now + ms))
  {
  }

  lemma WakeKeepsInv(t: Throttle, op: Operation, next: Throttle)
    requires ThrottleInv(t) && ThrottleNext(t, Wake(op), next)
    ensures ThrottleInv(next)
  {
    hide Unfinished;
    UnfinishedAfter(t.stages, op, next.stages[op]);
    WakesInTurn(t.stages, op, next.stages[op]);
    assert forall i :: 0 <= i < |t.stages| && i != op ==> next.stages[i] == t.stages[i];
    assert forall i :: 0 <= i < |t.stages| && t.stages[i].Running? ==> next.stages[i].Running?;
  }

  lemma WakesInTurn(stages: seq<Stage>, op: Operation, stage: Stage)
    requires OneAtATime(stages) && op < |stages| && stages[op].Waiting? && Released(stages, op)
    ensures OneAtATime(stages[op := stage])
  {
    var after := stages[op := stage];
    forall i, j | 0 <= i < j < |after| && !after[j].Waiting? ensures after[i].Over? {
      if j == op && i < op - 1 {
        assert !stages[op - 1].Waiting?;
      }
    }
  }

  lemma StartKeepsInv(t: Throttle, op: Operation, next: Throttle)
    requires ThrottleInv(t) && ThrottleNext(t, Start(op), next)
    ensures ThrottleInv(next)
  {
    hide Unfinished;
    UnfinishedAfter(t.stages, op, Running);
    StartsInTurn(t, op);
    assert next.stages[op].Running?;
    assert forall i :: 0 <= i < |t.stages| && i != op ==> next.stages[i] == t.stages[i];
  }

  /** The sleeper that starts is the next one in the order of arrival. */
  lemma StartsInTurn(t: Throttle, op: Operation)
    requires ThrottleInv(t) && op < |t.stages| && t.stages[op].Sleeping?
    ensures op == |t.starts|
  {
    assert !Started(t.stages[op]);
    assert op > 0 ==> Started(t.stages[op - 1]);
  }

  lemma EndKeepsInv(t: Throttle, op: Operation, next: Throttle)
    requires ThrottleInv(t) && ThrottleNext(t, End(op), next)
    ensures ThrottleInv(next)
  {
    hide Unfinished;
    UnfinishedAfter(t.stages, op, Over);
    assert forall i :: 0 <= i < |t.stages| && i != op ==> next.stages[i] == t.stages[i];
    forall i | 0 <= i < |t.stages| ensures !next.stages[i].Running? {
      if i != op && t.stages[i].Running? {
        assert false;
      }
    }
  }

  ghost predicate IsThrottleRun(states: seq<Throttle>, steps: seq<ThrottleStep>, now: int, intervalMs: nat) {
    && |states| == |steps| + 1
    && states[0] == FreshThrottle(now, intervalMs)
    && forall i :: 0 <= i < |steps| ==> ThrottleNext(states[i], steps[i], states[i + 1])
  }

  lemma {:induction false} ThrottleRunKeepsInv(states: seq<Throttle>, steps: seq<ThrottleStep>, now: int,
      intervalMs: nat, k: nat)
    requires IsThrottleRun(states, steps, now, intervalMs) && k <= |steps|
    ensures ThrottleInv(states[k]) && states[k].intervalMs == intervalMs
  {
    hide ThrottleInv;
    if k == 0 {
      FreshIsSound(now, intervalMs);
    } else {
      ThrottleRunKeepsInv(states, steps, now, intervalMs, k - 1);
      ThrottleKeepsInv(states[k - 1], steps[k - 1], states[k]);
    }
  }

  lemma FreshIsSound(now: int, intervalMs: nat)
    ensures ThrottleInv(FreshThrottle(now, intervalMs))
  {
  }

  /** Operations of one layer never overlap, start in the order of their arrival
      and start at least the interval apart, however they end. */
  lemma ThrottledOneByOne(
    states: seq<Throttle>, steps: seq<ThrottleStep>, now: int, intervalMs: nat, k: nat, one: Operation,
    other: Operation)
    requires IsThrottleRun(states, steps, now, intervalMs) && k <= |steps| && one < other < |states[k].stages|
    ensures !(states[k].stages[one].Running? && states[k].stages[other].Running?)
    ensures Started(states[k].stages[other]) ==> states[k].stages[one].Over?
    ensures Started(states[k].stages[other]) ==>
              && other < |states[k].starts|
              && states[k].starts[one] + intervalMs <= states[k].starts[other]
  {
    ThrottleRunKeepsInv(states, steps, now, intervalMs, k);
    if other < |states[k].starts| {
      StartsAreApart(states[k].starts, intervalMs, one, other);
    }
  }

  lemma {:induction false} StartsAreApart(starts: seq<int>, intervalMs: nat, one: nat, other: nat)
    requires one < other < |starts| && forall i :: 0 < i < |starts| ==> starts[i - 1] + intervalMs <= starts[i]
    ensures starts[one] + intervalMs <= starts[other]
    decreases other
  {
    if one < other - 1 {
      StartsAreApart(starts, intervalMs, one, other - 1);
    }
  }

  /** An operation goes on as soon as all before it are over, and then starts as
      soon as the interval since the last start has passed, and not sooner. */
  lemma StartsAsSoonAsAllowed(t: Throttle, op: Operation, later: int)
    requires ThrottleInv(t) && op < |t.stages| && t.stages[op].Waiting? && t.now <= later
    ensures (exists next :: ThrottleNext(t, Wake(op), next)) <==> forall i :: 0 <= i < op ==> t.stages[i].Over?
    ensures forall next :: ThrottleNext(t, Wake(op), next) ==>
              next.now == t.now
              && ((exists started :: ThrottleNext(next.(now := later), Start(op), started))
                  <==> t.lastStartedAt + t.intervalMs <= later)
  {
    var woken := t.(stages := t.stages[op := Sleeping(t.now + Max(0, t.lastStartedAt + t.intervalMs - t.now))]);
    if forall i :: 0 <= i < op ==> t.stages[i].Over? {
      assert ThrottleNext(t, Wake(op), woken);
    }
    forall next | ThrottleNext(t, Wake(op), next)
      ensures forall i :: 0 <= i < op ==> t.stages[i].Over?
      ensures (exists started :: ThrottleNext(next.(now := later), Start(op), started))
         <==> t.lastStartedAt + t.intervalMs <= later
    {
      var ready := woken.(now := later);
      assert op > 0 ==> !t.stages[op - 1].Waiting?;
      if t.lastStartedAt + t.intervalMs <= later {
        assert ThrottleNext(ready, Start(op), ready.(
          stages := ready.stages[op := Running], inFlight := true, lastStartedAt := later,
          starts := ready.starts + [later]));
      }
    }
  }

  /** The client reports infinity exactly while somebody has arrived and is not done. */
  lemma BusyIffUnfinished(states: seq<Throttle>, steps: seq<ThrottleStep>, now: int, intervalMs: nat, k: nat)
    requires IsThrottleRun(states, steps, now, intervalMs) && k <= |steps|
    ensures states[k].inFlight || states[k].pending > 0
       <==> exists i :: 0 <= i < |states[k].stages| && !states[k].stages[i].Over?
  {
    ThrottleRunKeepsInv(states, steps, now, intervalMs, k);
    UnfinishedIsPositive(states[k].stages);
  }

  lemma {:induction false} UnfinishedIsPositive(stages: seq<Stage>)
    ensures Unfinished(stages) > 0 <==> exists i :: 0 <= i < |stages| && !stages[i].Over?
  {
    if stages != [] {
      var front := stages[..|stages| - 1];
      UnfinishedIsPositive(front);
      assert forall i :: 0 <= i < |front| ==> front[i] == stages[i];
    }
  }

  // --- the lock that forgets its chain ------------------------------------------------------

  /** A caller waits for the one whose tail it found, if there was one. */
  datatype Holder = Holder(waitsFor: Option<Operation>, held: bool, done: bool)

  /** `tail` is the map's entry for the file: the last caller of the chain. */
  datatype Lock = Lock(holders: seq<Holder>, tail: Option<Operation>)

  datatype LockStep = Enter | Acquire(op: Operation) | Release(op: Operation)

  ghost predicate LockNext(l: Lock, step: LockStep, next: Lock) {
    match step
    case Enter => next == Lock(l.holders + [Holder(l.tail, false, false)], Some(|l.holders|))
    case Acquire(op) =>
      && op < |l.holders| && !l.holders[op].held && !l.holders[op].done
      && var previous := l.holders[op].waitsFor;
         && (previous.Some? ==> previous.value < |l.holders| && l.holders[previous.value].done)
         && next == l.(holders := l.holders[op := l.holders[op].(held := true)])
    case Release(op) =>
      && op < |l.holders| && l.holders[op].held
      && next == Lock(
           l.holders[op := l.holders[op].(held := false, done := true)],
           if l.tail == Some(op) then None else l.tail)
  }

  ghost predicate LockInv(l: Lock) {
    && (forall i, j :: 0 <= i < j < |l.holders| && (l.holders[j].held || l.holders[j].done) ==> l.holders[i].done)
    && (forall i :: 0 <= i < |l.holders| ==> !(l.holders[i].held && l.holders[i].done))
    && (forall i :: 0 <= i < |l.holders| ==>
          match l.holders[i].waitsFor
          case Some(previous) => previous == i - 1
          case None => forall j :: 0 <= j < i ==> l.holders[j].done)
    && (match l.tail
        case Some(op) => op == |l.holders| - 1
        case None => forall i :: 0 <= i < |l.holders| ==> l.holders[i].done)
  }

  lemma LockKeepsInv(l: Lock, step: LockStep, next: Lock)
    requires LockInv(l) && LockNext(l, step, next)
    ensures LockInv(next)
  {
    match step
    case Enter =>
    case Acquire(op) =>
      forall i | 0 <= i < op ensures l.holders[i].done {
        if l.holders[op].waitsFor.Some? && i < op - 1 {
          assert l.holders[op - 1].done;
        }
      }
    case Release(op) =>
  }

  ghost predicate IsLockRun(states: seq<Lock>, steps: seq<LockStep>) {
    && |states| == |steps| + 1
    && states[0] == Lock([], None)
    && forall i :: 0 <= i < |steps| ==> LockNext(states[i], steps[i], states[i + 1])
  }

  lemma {:induction false} LockRunKeepsInv(states: seq<Lock>, steps: seq<LockStep>, k: nat)
    requires IsLockRun(states, steps) && k <= |steps|
    ensures LockInv(states[k])
  {
    if k > 0 {
      LockRunKeepsInv(states, steps, k - 1);
      LockKeepsInv(states[k - 1], steps[k - 1], states[k]);
    }
  }

  /** Although the entry is dropped and chains begin anew, no two callers ever
      hold the lock together, and they hold it in the order they came. */
  lemma LockExcludes(states: seq<Lock>, steps: seq<LockStep>, k: nat, one: Operation, other: Operation)
    requires IsLockRun(states, steps) && k <= |steps| && one < other < |states[k].holders|
    ensures !(states[k].holders[one].held && states[k].holders[other].held)
    ensures states[k].holders[other].held || states[k].holders[other].done ==> states[k].holders[one].done
  {
    LockRunKeepsInv(states, steps, k);
  }

  /** Nobody who waits is kept waiting: the lock can be acquired as soon as all
      who came before are done, and not sooner. */
  lemma AcquiresIff(states: seq<Lock>, steps: seq<LockStep>, k: nat, op: Operation)
    requires IsLockRun(states, steps) && k <= |steps| && op < |states[k].holders|
    requires !states[k].holders[op].held && !states[k].holders[op].done
    ensures (exists next :: LockNext(states[k], Acquire(op), next))
       <==> forall i :: 0 <= i < op ==> states[k].holders[i].done
  {
    LockRunKeepsInv(states, steps, k);
    var l := states[k];
    if forall i :: 0 <= i < op ==> l.holders[i].done {
      assert LockNext(l, Acquire(op), l.(holders := l.holders[op := l.holders[op].(held := true)]));
    }
    if exists next :: LockNext(l, Acquire(op), next) {
      var next :| LockNext(l, Acquire(op), next);
      LockKeepsInv(l, Acquire(op), next);
      assert next.holders[op].held;
      forall i | 0 <= i < op ensures l.holders[i].done {
        assert next.holders[i].done;
      }
    }
  }

  /** The entry is kept exactly as long as somebody is not done. */
  lemma EntryIffBusy(states: seq<Lock>, steps: seq<LockStep>, k: nat)
    requires IsLockRun(states, steps) && k <= |steps|
    ensures states[k].tail.Some? <==> exists i :: 0 <= i < |states[k].holders| && !states[k].holders[i].done
  {
    LockRunKeepsInv(states, steps, k);
    if states[k].tail.Some? {
      EntryIsOpen(states, steps, k);
    }
  }

  lemma {:induction false} EntryIsOpen(states: seq<Lock>, steps: seq<LockStep>, k: nat)
    requires IsLockRun(states, steps) && k <= |steps| && states[k].tail.Some?
    ensures states[k].tail.value < |states[k].holders| && !states[k].holders[states[k].tail.value].done
  {
    if k > 0 && states[k - 1].tail.Some? {
      EntryIsOpen(states, steps, k - 1);
    }
  }
}
