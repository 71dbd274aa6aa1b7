/** Soft retry windows for interactive users of rate-limited clients. */
module CooldownAllocator {
  import opened Basics

  type UserId = string

  /** Milliseconds, or the infinity a busy client reports. */
  datatype Instant = At(ms: int) | Never

  predicate NotBefore(instant: Instant, now: int) { instant.Never? || now <= instant.ms }

  function Later(instant: Instant, ms: int): Instant {
    if instant.Never? then Never else At(instant.ms + ms)
  }

  function LaterOf(one: Instant, other: Instant): Instant {
    if one.Never? || other.Never? then Never else At(Max(one.ms, other.ms))
  }

  datatype State = State(assignedAt: int, retryAt: Instant, interference: nat, lastBusyAt: int)

  type Users = map<UserId, State>

  datatype Allocation = Allocation(retryAt: Instant, retryAfter: Instant, interference: nat)

  predicate Expired(state: State, ttl: int, now: int) { now - Max(state.lastBusyAt, state.assignedAt) > ttl }

  function Pruned(users: Users, ttl: int, now: int): Users {
    map id | id in users && !Expired(users[id], ttl, now) :: users[id]
  }

  /** The retry times of the other users that are still ahead. */
  function Occupied(users: Users, user: UserId, now: int): set<Instant> {
    set id | id in users && id != user && NotBefore(users[id].retryAt, now) :: users[id].retryAt
  }

  /** Another user was assigned the k-th slot from this time on. */
  ghost predicate TakenByOther(users: Users, user: UserId, from: int, k: nat, slotMs: nat) {
    exists other :: other != user && other in users && users[other].retryAt == At(from + k * slotMs)
  }

  predicate StillAhead(instant: Instant, now: int) { instant.Never? || now < instant.ms }

  /** Retry times that are still ahead belong to one user each. */
  ghost predicate Distinct(users: Users, now: int) {
    forall one, other :: one in users && other in users && one != other && NotBefore(users[one].retryAt, now) ==>
      users[one].retryAt != users[other].retryAt
  }

  // --- the search for a free slot -----------------------------------------------------------

  /** The search passes over slots while they are occupied. */
  predicate Passes(occupied: set<Instant>, start: Instant, slotMs: nat, steps: nat) {
    forall k: nat :: k < steps ==> Later(start, k * slotMs) in occupied
  }

  /** The search ends after some number of steps. */
  ghost predicate SearchEnds(occupied: set<Instant>, start: Instant, slotMs: nat) {
    exists steps: nat :: Later(start, steps * slotMs) !in occupied
  }

  /** Every step of a search passes over another occupied time. */
  lemma {:induction false} PassedTimes(occupied: set<Instant>, start: Instant, slotMs: nat, steps: nat)
    returns (passed: set<Instant>)
    requires start.At? && slotMs > 0 && Passes(occupied, start, slotMs, steps)
    ensures passed <= occupied && |passed| == steps
    ensures forall t :: t in passed ==> t.At? && t.ms < start.ms + steps * slotMs
  {
    if steps == 0 {
      passed := {};
    } else {
      var before := PassedTimes(occupied, start, slotMs, steps - 1);
      var next := Later(start, (steps - 1) * slotMs);
      assert next !in before;
      passed := before + {next};
      assert (steps - 1) * slotMs + slotMs == steps * slotMs;
    }
  }

  lemma {:induction false} SubsetIsSmaller<T>(small: set<T>, large: set<T>)
    requires small <= large
    ensures |small| <= |large|
  {
    if small != {} {
      var x :| x in small;
      SubsetIsSmaller(small - {x}, large - {x});
    }
  }

  /** No more steps than there are occupied times. */
  lemma SearchIsShort(occupied: set<Instant>, start: Instant, slotMs: nat, steps: nat)
    requires start.At? && slotMs > 0 && Passes(occupied, start, slotMs, steps)
    ensures steps <= |occupied|
  {
    var passed := PassedTimes(occupied, start, slotMs, steps);
    SubsetIsSmaller(passed, occupied);
  }

  /** The search ends unless it starts at infinity and infinity is taken. */
  lemma SearchEndsIff(occupied: set<Instant>, start: Instant, slotMs: nat)
    requires slotMs > 0
    ensures SearchEnds(occupied, start, slotMs) <==> start.At? || Never !in occupied
  {
    if start.At? && !SearchEnds(occupied, start, slotMs) {
      SearchIsShort(occupied, start, slotMs, |occupied| + 1);
      assert false;
    }
    if start.Never? && Never !in occupied {
      assert Later(start, 0 * slotMs) !in occupied;
    }
  }

  method Search(occupied: set<Instant>, start: Instant, slotMs: nat) returns (retryAt: Instant, ghost steps: nat)
    requires slotMs > 0 && (start.At? || Never !in occupied)
    ensures retryAt == Later(start, steps * slotMs) && retryAt !in occupied
    ensures Passes(occupied, start, slotMs, steps)
    ensures steps <= |occupied|
  {
    retryAt, steps := start, 0;
    while retryAt in occupied
      invariant retryAt == Later(start, steps * slotMs) && Passes(occupied, start, slotMs, steps)
      invariant steps > 0 ==> start.At?
      invariant steps <= |occupied|
      decreases |occupied| - steps
    {
      assert (steps + 1) * slotMs == steps * slotMs + slotMs;
      steps := steps + 1;
      SearchIsShort(occupied, start, slotMs, steps);
      retryAt := Later(retryAt, slotMs);
    }
  }

  // --- the allocator ------------------------------------------------------------------------

  class DynamicCooldownAllocator {
    const slotMs: nat
    const stateTtlMs: int
    var users: Users
    /** The latest time the allocator was asked at. */
    ghost var clock: int

    ghost predicate Valid()
      reads this
    {
      slotMs > 0 && Distinct(users, clock)
    }

    constructor (slotMs: nat, stateTtlMs: int, ghost now: int)
      requires slotMs > 0
      ensures Valid() && users == map[] && clock == now && this.slotMs == slotMs && this.stateTtlMs == stateTtlMs
    {
      this.slotMs, this.stateTtlMs, users, clock := slotMs, stateTtlMs, map[], now;
    }

    method Prune(now: int)
      modifies this`users
      ensures users == Pruned(old(users), stateTtlMs, now)
      ensures forall id :: id in users <==>
                && id in old(users)
                && now - Max(old(users)[id].lastBusyAt, old(users)[id].assignedAt) <= stateTtlMs
      ensures forall id :: id in users ==> users[id] == old(users)[id]
    {
      var ids := users.Keys;
      while ids != {}
        invariant ids <= old(users).Keys
        invariant forall id ::
                    id in users <==> id in old(users) && (id in ids || !Expired(old(users)[id], stateTtlMs, now))
        invariant forall id :: id in users ==> users[id] == old(users)[id]
        decreases |ids|
      {
        var id :| id in ids;
        if Expired(users[id], stateTtlMs, now) {
          users := users - {id};
        }
        ids := ids - {id};
      }
    }

    /** The time a user may try again; none if the search never ends. */
    method Allocate(user: UserId, resourceReadyAt: Instant, now: int)
      returns (allocation: Option<Allocation>, ghost steps: nat)
      requires Valid() && clock <= now
      modifies this
      ensures Valid() && clock == now
      // The users that are left, and what becomes of them.
      ensures allocation.None? <==>
                && resourceReadyAt.Never?
                && exists other :: other != user && other in Pruned(old(users), stateTtlMs, now)
                                   && old(users)[other].retryAt.Never?
      ensures allocation.None? ==> users == Pruned(old(users), stateTtlMs, now)
      ensures allocation.Some? ==>
                var a := allocation.value;
                users == Pruned(old(users), stateTtlMs, now)[user := State(now, a.retryAt, a.interference, now)]
      // The interference of this user.
      ensures allocation.Some? && user !in Pruned(old(users), stateTtlMs, now) ==> allocation.value.interference == 0
      ensures allocation.Some? && user in Pruned(old(users), stateTtlMs, now) ==>
                var was := old(users)[user];
                var a := allocation.value;
                && (was.retryAt.Never? || now < was.retryAt.ms ==> a.interference == was.interference + 1)
                && (was.retryAt.At? && was.retryAt.ms <= now ==> a.interference == Max(0, was.interference - 1))
      // The time that is assigned.
      ensures allocation.Some? && resourceReadyAt.At? ==>
                var a := allocation.value;
                && a.retryAt == At(Max(now, resourceReadyAt.ms) + (a.interference + steps) * slotMs)
                && a.retryAfter == At(a.retryAt.ms - now)
                && a.retryAt.ms >= Max(now, resourceReadyAt.ms) + a.interference * slotMs
                && a.retryAt.ms
                   <= Max(now, resourceReadyAt.ms)
                      + (a.interference + |Occupied(Pruned(old(users), stateTtlMs, now), user, now)|) * slotMs
      ensures allocation.Some? && resourceReadyAt.Never? ==>
                allocation.value.retryAt.Never? && allocation.value.retryAfter.Never?
      // It is free, and the slots that were passed over are not.
      ensures allocation.Some? ==>
                forall other :: other != user && other in Pruned(old(users), stateTtlMs, now) ==>
                                  old(users)[other].retryAt != allocation.value.retryAt
      ensures allocation.Some? && resourceReadyAt.At? ==>
                var from := Max(now, resourceReadyAt.ms) + allocation.value.interference * slotMs;
                forall k: nat :: k < steps ==>
                                   TakenByOther(Pruned(old(users), stateTtlMs, now), user, from, k, slotMs)
    {
      hide Distinct, Passes, TakenByOther, Expired, Occupied, Later, LaterOf, NotBefore;
      Prune(now);
      clock := now;
      DistinctLater(old(users), old(clock), users, now);
      ghost var rest := users;
      var retriedEarly := user in users && StillAhead(users[user].retryAt, now);
      var interference: nat :=
        if retriedEarly then users[user].interference + 1
        else Max(0, (if user in users then users[user].interference else 0) - 1);
      var occupied := Occupied(users, user, now);
      var start := Later(LaterOf(At(now), resourceReadyAt), interference * slotMs);
      StartIs(now, resourceReadyAt, interference * slotMs);
      InfinityIsTaken(users, user, now);
      steps := 0;
      if start.Never? && start in occupied {
        // Infinity plus a slot is infinity: the source's loop does not end here.
        return None, 0;
      }
      var retryAt;
      retryAt, steps := Search(occupied, start, slotMs);
      users := users[user := State(now, retryAt, interference, now)];
      allocation := Some(Allocation(retryAt, Later(retryAt, -now), interference));
      TimeIs(now, resourceReadyAt, interference, slotMs, steps);
      DistinctWithNew(rest, user, users[user], now);
      TimeIsFree(rest, user, now, retryAt);
      if resourceReadyAt.At? {
        SlotsAreTaken(rest, user, now, Max(now, resourceReadyAt.ms) + interference * slotMs, slotMs, steps);
        RetryIsBounded(occupied, now, resourceReadyAt.ms, interference, slotMs, steps);
      }
    }

    method Succeeded(user: UserId)
      requires Valid()
      modifies this`users
      ensures Valid() && users == old(users) - {user}
    {
      users := users - {user};
    }
  }

  lemma DistinctLater(before: Users, earlier: int, after: Users, now: int)
    requires Distinct(before, earlier) && earlier <= now
    requires forall id :: id in after ==> id in before && after[id] == before[id]
    ensures Distinct(after, now)
  {
  }

  lemma TimeIsFree(rest: Users, user: UserId, now: int, retryAt: Instant)
    requires retryAt !in Occupied(rest, user, now) && NotBefore(retryAt, now)
    ensures forall other :: other != user && other in rest ==> rest[other].retryAt != retryAt
  {
    forall other | other != user && other in rest ensures rest[other].retryAt != retryAt {
      assert NotBefore(rest[other].retryAt, now) ==> rest[other].retryAt in Occupied(rest, user, now);
    }
  }

  lemma SlotsAreTaken(rest: Users, user: UserId, now: int, from: int, slotMs: nat, steps: nat)
    requires Passes(Occupied(rest, user, now), At(from), slotMs, steps)
    ensures forall k: nat :: k < steps ==> TakenByOther(rest, user, from, k, slotMs)
  {
    forall k: nat | k < steps ensures TakenByOther(rest, user, from, k, slotMs) {
      assert Later(At(from), k * slotMs) in Occupied(rest, user, now);
    }
  }

  lemma StartIs(now: int, ready: Instant, behind: nat)
    ensures Later(LaterOf(At(now), ready), behind)
         == if ready.Never? then Never else At(Max(now, ready.ms) + behind)
  {
  }

  lemma InfinityIsTaken(users: Users, user: UserId, now: int)
    ensures Never in Occupied(users, user, now)
       <==> exists other :: other != user && other in users && users[other].retryAt.Never?
  {
    if Never in Occupied(users, user, now) {
      var other :| other in users && other != user && users[other].retryAt == Never;
    }
    forall other | other != user && other in users && users[other].retryAt.Never?
      ensures Never in Occupied(users, user, now)
    {
      assert users[other].retryAt in Occupied(users, user, now);
    }
  }

  /** The assigned time, and how long the user is told to wait. */
  lemma TimeIs(now: int, ready: Instant, interference: nat, slotMs: nat, steps: nat)
    ensures var retryAt := Later(Later(LaterOf(At(now), ready), interference * slotMs), steps * slotMs);
            && retryAt == (if ready.Never? then Never
                           else At(Max(now, ready.ms) + (interference + steps) * slotMs))
            && Later(retryAt, -now) == (if retryAt.Never? then Never else At(retryAt.ms - now))
            && NotBefore(retryAt, now)
  {
    assert interference * slotMs + steps * slotMs == (interference + steps) * slotMs;
  }

  lemma DistinctWithNew(rest: Users, user: UserId, state: State, now: int)
    requires Distinct(rest, now) && state.retryAt !in Occupied(rest, user, now) && NotBefore(state.retryAt, now)
    ensures Distinct(rest[user := state], now)
  {
    var users := rest[user := state];
    forall one, other | one in users && other in users && one != other && NotBefore(users[one].retryAt, now)
      ensures users[one].retryAt != users[other].retryAt
    {
      if one == user {
        assert NotBefore(rest[other].retryAt, now) ==> rest[other].retryAt in Occupied(rest, user, now);
      } else if other == user {
        assert rest[one].retryAt in Occupied(rest, user, now);
      }
    }
  }

  /** How far ahead the assigned time can lie. */
  lemma RetryIsBounded(occupied: set<Instant>, now: int, ready: int, interference: nat, slotMs: nat, steps: nat)
    requires slotMs > 0
    requires var start := Later(LaterOf(At(now), At(ready)), interference * slotMs);
             Passes(occupied, start, slotMs, steps)
    ensures Later(Later(LaterOf(At(now), At(ready)), interference * slotMs), steps * slotMs).ms
         == Max(now, ready) + (interference + steps) * slotMs
    ensures Max(now, ready) + interference * slotMs
         <= Max(now, ready) + (interference + steps) * slotMs
         <= Max(now, ready) + (interference + |occupied|) * slotMs
  {
    var start := Later(LaterOf(At(now), At(ready)), interference * slotMs);
    SearchIsShort(occupied, start, slotMs, steps);
    MoreSlots(interference + steps, interference + |occupied|, slotMs);
    assert interference * slotMs + steps * slotMs == (interference + steps) * slotMs;
  }

  lemma MoreSlots(few: nat, many: nat, slotMs: nat)
    requires few <= many
    ensures few * slotMs <= many * slotMs
  {
  }

  /** Two users who are told infinity: the second one's search never ends. */
  method SecondWaitsForever(first: UserId, second: UserId, now: int) returns (told: Option<Allocation>)
    requires first != second
    ensures told.None?
  {
    var allocator := new DynamicCooldownAllocator(5_000, 300_000, now);
    var before, steps := allocator.Allocate(first, Never, now);
    assert allocator.users[first].retryAt == Never;
    assert first in Pruned(allocator.users, 300_000, now);
    told, steps := allocator.Allocate(second, Never, now);
  }

  // --- where infinity comes from ------------------------------------------------------------

  datatype Slot = Slot(leased: bool, availableAt: Instant)

  function SoonerOf(one: Instant, other: Instant): Instant {
    if one.Never? then other else if other.Never? then one else At(Min(one.ms, other.ms))
  }

  /** The pool's estimate for one layer. */
  function ResourceReadyAt(slots: seq<Slot>, cooldownMs: nat, now: int): Instant {
    if slots == [] then Never
    else
      var last := slots[|slots| - 1];
      SoonerOf(
        ResourceReadyAt(slots[..|slots| - 1], cooldownMs, now),
        if last.leased then At(now + cooldownMs) else last.availableAt)
  }

  /** The pool passes on infinity exactly when every client is busy without
      being leased through the pool. */
  lemma {:induction false} InfinityMeansBusyElsewhere(slots: seq<Slot>, cooldownMs: nat, now: int)
    ensures ResourceReadyAt(slots, cooldownMs, now).Never?
       <==> forall k :: 0 <= k < |slots| ==> !slots[k].leased && slots[k].availableAt.Never?
  {
    if slots != [] {
      InfinityMeansBusyElsewhere(slots[..|slots| - 1], cooldownMs, now);
    }
  }

  /** Otherwise it is the earliest time of its clients, a leased one counting as
      ready after the cooldown. */
  lemma {:induction false} SoonestClient(slots: seq<Slot>, cooldownMs: nat, now: int) returns (soonest: nat)
    requires ResourceReadyAt(slots, cooldownMs, now).At?
    ensures soonest < |slots|
    ensures var ready := ResourceReadyAt(slots, cooldownMs, now);
            && ready == (if slots[soonest].leased then At(now + cooldownMs) else slots[soonest].availableAt)
            && forall k :: 0 <= k < |slots| ==>
                 if slots[k].leased then ready.ms <= now + cooldownMs else NotBefore(slots[k].availableAt, ready.ms)
  {
    var last := |slots| - 1;
    var front := ResourceReadyAt(slots[..last], cooldownMs, now);
    if front.At? {
      soonest := SoonestClient(slots[..last], cooldownMs, now);
      assert forall k :: 0 <= k < last ==> slots[..last][k] == slots[k];
      if ResourceReadyAt(slots, cooldownMs, now) != front {
        soonest := last;
      }
    } else {
      InfinityMeansBusyElsewhere(slots[..last], cooldownMs, now);
      assert forall k :: 0 <= k < last ==> slots[..last][k] == slots[k];
      soonest := last;
    }
  }
}
