/** The recovery coordinator: events that arrive while the client catches up with
    the server wait in a queue. Every method is one uninterrupted piece of the
    source's asynchronous code; they may follow each other in any order their
    preconditions admit. */
module RecoveryLifecycle {
  import opened Basics

  type Event = nat

  datatype Phase =
    | Idle
    | RefreshingAccess
    | FlushingProposals
    | RecoveringRevisions
    | RefreshingSnapshots
    | ReplayingEvents

  /** Where the one live run waits. A replay waits for each event it started. */
  datatype Run = RefreshingState | Recovering(stage: Phase) | Replaying(batch: seq<Event>, busy: bool)

  /** How many stages a run has before it from here to the replay. */
  function StagesLeft(stage: Phase): nat {
    match stage
    case RefreshingAccess => 4
    case FlushingProposals => 3
    case RecoveringRevisions => 2
    case RefreshingSnapshots => 1
    case _ => 0
  }

  function NextStage(stage: Phase): Phase {
    match stage
    case RefreshingAccess => FlushingProposals
    case FlushingProposals => RecoveringRevisions
    case RecoveringRevisions => RefreshingSnapshots
    case _ => ReplayingEvents
  }

  class RecoveryCoordinator {
    var phase: Phase
    var queuedEvents: seq<Event>
    var scheduled: bool
    var running: Option<Run>
    /** The events given since the last stop and not discarded, and those of them
        that were started, in order. */
    ghost var given: seq<Event>
    ghost var started: seq<Event>
    /** The batch being replayed was taken before the last stop. */
    ghost var stale: bool

    /** What is still to start of the events given since the last stop. */
    ghost function Waiting(): seq<Event>
      reads this
    {
      (if running.Some? && running.value.Replaying? && !stale then running.value.batch else []) + queuedEvents
    }

    ghost predicate Valid()
      reads this
    {
      && given == started + Waiting()
      && (phase.Idle? ==> Waiting() == [])
      && (phase != Idle ==> scheduled || running.Some?)
      && (running.Some? && running.value.Recovering? ==> StagesLeft(running.value.stage) > 0)
      && (running.Some? && running.value.Replaying? && !running.value.busy ==> running.value.batch != [])
    }

    /** How many continuations of the run, the firing of the timer included, are
        left until everything that waits now has started. */
    ghost function Distance(): nat
      reads this
    {
      2 * |queuedEvents|
      + match running
        case None => 6
        case Some(RefreshingState) => 5
        case Some(Recovering(stage)) => StagesLeft(stage)
        case Some(Replaying(batch, busy)) => 2 * |batch| + if busy then 1 else 0
    }

    /** Something waits, or a batch from before the last stop is not through. */
    predicate HasWaiting()
      reads this
      ensures !HasWaiting() ==> Waiting() == []
    {
      queuedEvents != [] || (running.Some? && running.value.Replaying? && running.value.batch != [])
    }

    constructor ()
      ensures Valid() && given == [] && phase.Idle?
    {
      phase, queuedEvents, scheduled, running := Idle, [], false, None;
      given, started, stale := [], [], false;
    }

    method Enqueue(event: Event) returns (startsNow: bool)
      requires Valid()
      modifies this
      ensures Valid() && given == old(given) + [event]
      ensures startsNow <==> old(phase).Idle?
      ensures started == if startsNow then old(started) + [event] else old(started)
      ensures Waiting() == if startsNow then [] else old(Waiting()) + [event]
      ensures running == old(running) && scheduled == old(scheduled) && phase == old(phase)
    {
      given := given + [event];
      startsNow := phase.Idle?;
      if startsNow {
        started := started + [event];
        return;
      }
      queuedEvents := queuedEvents + [event];
    }

    method Schedule()
      requires Valid()
      modifies this`phase, this`scheduled
      ensures Valid() && scheduled
      ensures phase == if old(phase).Idle? then RefreshingAccess else old(phase)
    {
      if phase.Idle? {
        phase := RefreshingAccess;
      }
      scheduled := true;
    }

    method Stop()
      requires Valid()
      modifies this
      ensures Valid() && given == [] && started == [] && Waiting() == []
      ensures running == old(running) && !scheduled && phase.Idle?
    {
      scheduled := false;
      queuedEvents := [];
      phase := Idle;
      given, started, stale := [], [], true;
    }

    /** The timer fires; a run that is under way is not joined by another. */
    method Fire()
      requires Valid() && scheduled
      modifies this`scheduled, this`running
      ensures Valid() && !scheduled && running.Some?
      ensures running == if old(running).Some? then old(running) else Some(RefreshingState)
      ensures Waiting() == old(Waiting()) && given == old(given) && started == old(started)
      ensures old(running).None? ==> Distance() < old(Distance())
    {
      scheduled := false;
      if running.None? {
        running := Some(RefreshingState);
      }
    }

    /** The state is there. Without a token nothing is worth keeping. */
    method StateRefreshed(hasToken: bool)
      requires Valid() && running == Some(RefreshingState)
      modifies this
      ensures Valid()
      ensures started == old(started)
      ensures hasToken ==>
                given == old(given) && Waiting() == old(Waiting()) && running == Some(Recovering(RefreshingAccess))
      ensures hasToken ==> phase.RefreshingAccess? && Distance() < old(Distance())
      ensures !hasToken ==> given == old(started) && Waiting() == [] && running.None? && phase.Idle?
    {
      if !hasToken {
        queuedEvents := [];
        phase := Idle;
        running := None;
        given := started;
        return;
      }
      phase := RefreshingAccess;
      running := Some(Recovering(RefreshingAccess));
    }

    /** A stage is done, however it ended; after the last one the queue is replayed. */
    method StageDone()
      requires Valid() && running.Some? && running.value.Recovering?
      modifies this
      ensures Valid() && given == old(given) && started == old(started) && Waiting() == old(Waiting())
      ensures running.None? ==> Waiting() == [] && phase.Idle?
      ensures running.Some? ==>
                && phase != Idle && Distance() < old(Distance())
                && if old(running).value.stage.RefreshingSnapshots? then running == Some(Replaying(Waiting(), false))
                   else running.value.Recovering?
                        && StagesLeft(running.value.stage) == StagesLeft(old(running).value.stage) - 1
      ensures match old(running).value.stage
              case RefreshingAccess => running == Some(Recovering(FlushingProposals)) && phase.FlushingProposals?
              case FlushingProposals => running == Some(Recovering(RecoveringRevisions)) && phase.RecoveringRevisions?
              case RecoveringRevisions => running == Some(Recovering(RefreshingSnapshots)) && phase.RefreshingSnapshots?
              case _ => running.Some? ==> phase.ReplayingEvents?
    {
      if running.value.stage.RefreshingSnapshots? {
        phase := ReplayingEvents;
        NextBatch();
      } else {
        phase := NextStage(running.value.stage);
        running := Some(Recovering(phase));
      }
    }

    method NextBatch()
      requires given == started + queuedEvents
      requires phase.Idle? ==> queuedEvents == []
      requires running.Some? && (running.value.Replaying? ==> running.value.batch == [])
      modifies this
      ensures Valid() && given == old(given) && started == old(started) && Waiting() == old(queuedEvents)
      ensures old(queuedEvents) == [] ==> running.None? && phase.Idle?
      ensures old(queuedEvents) != [] ==>
                running == Some(Replaying(old(queuedEvents), false)) && phase == old(phase) && !stale
      ensures scheduled == old(scheduled)
      ensures old(queuedEvents) != [] ==> Distance() == 2 * |old(queuedEvents)|
    {
      if queuedEvents == [] {
        phase := Idle;
        running := None;
        return;
      }
      running := Some(Replaying(queuedEvents, false));
      queuedEvents := [];
      stale := false;
    }

    /** The next event of the batch starts. */
    method ReplayNext() returns (event: Event)
      requires Valid() && running.Some? && running.value.Replaying? && running.value.batch != [] && !running.value.busy
      modifies this
      ensures Valid() && given == old(given)
      ensures event == old(running).value.batch[0]
      ensures running == Some(Replaying(old(running).value.batch[1..], true)) && Distance() < old(Distance())
      ensures old(stale) ==> started == old(started) && Waiting() == old(Waiting())
      ensures !old(stale) ==>
                && old(Waiting()) != [] && event == old(Waiting())[0]
                && started == old(started) + [event] && Waiting() == old(Waiting())[1..]
    {
      event := running.value.batch[0];
      var rest := running.value.batch[1..];
      assert running.value.batch == [event] + rest;
      if !stale {
        started := started + [event];
      }
      running := Some(Replaying(rest, true));
    }

    /** The event is over, however it ended; after the last of a batch the queue
        is looked at again. */
    method EventDone()
      requires Valid() && running.Some? && running.value.Replaying? && running.value.busy
      modifies this
      ensures Valid() && given == old(given) && started == old(started) && Waiting() == old(Waiting())
      ensures running.None? ==> Waiting() == [] && phase.Idle?
      ensures running.Some? ==>
                && running.value.Replaying? && running.value.batch != [] && !running.value.busy
                && Distance() < old(Distance())
    {
      running := Some(Replaying(running.value.batch, false));
      if running.value.batch == [] {
        NextBatch();
      }
    }
  }

  // --- a driver that lets anything happen ---------------------------------------------------

  datatype Happening =
    | EventArrives(event: Event)
    | RecoveryScheduled
    | TimerFires
    | RunContinues(hasToken: bool)

  /** One thing happens. A run without a token, which leaves nothing of what
      waits, is the only one that takes an event back. */
  method Happen(c: RecoveryCoordinator, happening: Happening) returns (ghost discarded: bool)
    requires c.Valid()
    modifies c
    ensures c.Valid() && old(c.started) <= c.started
    ensures c.given == if discarded then c.started else old(c.given) + Arrived([happening])
    ensures discarded ==> happening == RunContinues(false) && c.Waiting() == [] && c.started == old(c.started)
    ensures happening == TimerFires || happening == RunContinues(true) ==>
              c.started + c.Waiting() == old(c.started + c.Waiting())
    ensures happening == (if old(c.running).None? then TimerFires else RunContinues(true)) && old(c.HasWaiting()) ==>
              !c.HasWaiting() || c.Distance() < old(c.Distance())
  {
    discarded := false;
    assert [happening][..0] == [];
    match happening {
      case EventArrives(event) =>
        var startsNow := c.Enqueue(event);
      case RecoveryScheduled =>
        c.Schedule();
      case TimerFires =>
        if c.scheduled {
          c.Fire();
        }
      case RunContinues(hasToken) =>
        if c.running.Some? {
          match c.running.value {
            case RefreshingState =>
              c.StateRefreshed(hasToken);
              discarded := !hasToken;
            case Recovering(_) =>
              c.StageDone();
            case Replaying(_, busy) =>
              if busy {
                c.EventDone();
              } else {
                var event := c.ReplayNext();
              }
          }
        }
    }
  }

  /** Nothing that has started is ever taken back. */
  ghost predicate Growing(traces: seq<seq<Event>>) {
    forall j, k :: 0 <= j <= k < |traces| ==> traces[j] <= traces[k]
  }

  lemma GrowMore(traces: seq<seq<Event>>, next: seq<Event>)
    requires Growing(traces) && (traces != [] ==> traces[|traces| - 1] <= next)
    ensures Growing(traces + [next])
  {
  }

  /** `traces[k]` is what had started after the first k happenings. If runs
      without a token discarded anything, then what is given is what had started
      at the last of them, and all that arrived since. */
  ghost predicate Accounted(
    happenings: seq<Happening>, was: seq<Event>, traces: seq<seq<Event>>, since: nat, started: seq<Event>,
    given: seq<Event>)
  {
    && Growing(traces) && |traces| == |happenings| + 1 && traces[|happenings|] == started
    && since <= |happenings| && (since > 0 ==> happenings[since - 1] == RunContinues(false))
    && given == (if since == 0 then was else traces[since]) + Arrived(happenings[since..])
  }

  lemma AccountNothing(was: seq<Event>, started: seq<Event>)
    ensures Accounted([], was, [started], 0, started, was)
  {
  }

  lemma AccountKept(
    happenings: seq<Happening>, was: seq<Event>, traces: seq<seq<Event>>, since: nat, started: seq<Event>,
    given: seq<Event>, happening: Happening, nextStarted: seq<Event>)
    requires Accounted(happenings, was, traces, since, started, given) && started <= nextStarted
    ensures Accounted(
              happenings + [happening], was, traces + [nextStarted], since, nextStarted, given + Arrived([happening]))
  {
    hide Growing, Arrived;
    GrowMore(traces, nextStarted);
    var base := if since == 0 then was else traces[since];
    GivenMore(base, happenings, since, happening);
    assert since > 0 ==> (happenings + [happening])[since - 1] == happenings[since - 1];
  }

  lemma GivenMore(base: seq<Event>, happenings: seq<Happening>, since: nat, happening: Happening)
    requires since <= |happenings|
    ensures (base + Arrived(happenings[since..])) + Arrived([happening])
         == base + Arrived((happenings + [happening])[since..])
  {
    hide Arrived;
    var all := happenings + [happening];
    ArrivedNext(all, since, |happenings|);
    assert all[since..] == all[since..|all|] && all[since..|happenings|] == happenings[since..];
  }

  lemma AccountDiscarded(
    happenings: seq<Happening>, was: seq<Event>, traces: seq<seq<Event>>, since: nat, started: seq<Event>,
    given: seq<Event>, nextStarted: seq<Event>)
    requires Accounted(happenings, was, traces, since, started, given) && started <= nextStarted
    ensures Accounted(happenings + [RunContinues(false)], was, traces + [nextStarted], |happenings| + 1, nextStarted,
                      nextStarted)
  {
    hide Growing;
    GrowMore(traces, nextStarted);
  }

  /** Between two stops, whatever happens in whatever order: each event given is
      started or waits, once and in order, and what is given is accounted for. */
  method Live(c: RecoveryCoordinator, happenings: seq<Happening>)
    returns (ghost traces: seq<seq<Event>>, ghost since: nat)
    requires c.Valid()
    modifies c
    ensures c.Valid() && c.given == c.started + c.Waiting()
    ensures traces != [] && traces[0] == old(c.started)
    ensures Accounted(happenings, old(c.given), traces, since, c.started, c.given)
  {
    hide c.Valid, c.Waiting, c.Distance, Accounted;
    AccountNothing(c.given, c.started);
    since := 0;
    traces := [c.started];
    assert happenings[..0] == [];
    for k := 0 to |happenings|
      invariant c.Valid() && traces != [] && traces[0] == old(c.started)
      invariant Accounted(happenings[..k], old(c.given), traces, since, c.started, c.given)
    {
      ghost var started, given := c.started, c.given;
      var discarded := Happen(c, happenings[k]);
      if discarded {
        AccountDiscarded(happenings[..k], old(c.given), traces, since, started, given, c.started);
      } else {
        AccountKept(happenings[..k], old(c.given), traces, since, started, given, happenings[k], c.started);
      }
      assert happenings[..k] + [happenings[k]] == happenings[..k + 1];
      traces := traces + [c.started];
      since := if discarded then k + 1 else since;
    }
    assert happenings[..|happenings|] == happenings;
    ValidAccounts(c);
  }

  lemma ValidAccounts(c: RecoveryCoordinator)
    requires c.Valid()
    ensures c.given == c.started + c.Waiting()
  {
  }

  /** The timer and a run that keeps its token drain everything that waits, in a
      bounded number of steps and in order. */
  method Drain(c: RecoveryCoordinator) returns (ghost happenings: seq<Happening>)
    requires c.Valid()
    modifies c
    ensures c.Valid() && c.Waiting() == []
    ensures c.started == old(c.started + c.Waiting())
    ensures |happenings| <= old(c.Distance())
    ensures forall k :: 0 <= k < |happenings| ==> happenings[k] == TimerFires || happenings[k] == RunContinues(true)
  {
    happenings := [];
    while c.HasWaiting()
      invariant c.Valid() && c.started + c.Waiting() == old(c.started + c.Waiting())
      invariant |happenings| <= old(c.Distance())
      invariant c.HasWaiting() ==> |happenings| + c.Distance() <= old(c.Distance())
      invariant forall k :: 0 <= k < |happenings| ==> happenings[k] == TimerFires || happenings[k] == RunContinues(true)
      decreases c.HasWaiting(), c.Distance()
    {
      var next := if c.running.None? then TimerFires else RunContinues(true);
      var _ := Happen(c, next);
      happenings := happenings + [next];
    }
  }

  function Arrived(happenings: seq<Happening>): seq<Event> {
    if happenings == [] then []
    else
      Arrived(happenings[..|happenings| - 1])
      + if happenings[|happenings| - 1].EventArrives? then [happenings[|happenings| - 1].event] else []
  }

  lemma ArrivedNext(happenings: seq<Happening>, from: nat, k: nat)
    requires from <= k < |happenings|
    ensures Arrived(happenings[from..k + 1]) == Arrived(happenings[from..k]) + Arrived([happenings[k]])
  {
    assert happenings[from..k + 1][..k - from] == happenings[from..k];
    assert [happenings[k]][..0] == [];
  }
}
