/** Whole runs of the billing code: solvency across days and weeks, quotas,
    idempotence, and exactly when a settlement can fail. */
module CreditProtocol {
  import opened Basics
  import opened CreditLedger
  import opened CreditSafety
  import opened CreditTables

  datatype Step =
    | Balance(user: UserId)
    | TopUpCredits(user: UserId, amount: nat, key: string)
    | BeginRun(user: UserId, run: RunId, amount: nat)
    | ReserveOperation(user: UserId, id: string, amount: nat)
    | SettleOperation(user: UserId, id: string, charged: int)
    | SettleRun(user: UserId, run: RunId, charged: int)
    | EndRun(run: RunId, charged: int)
    | StreamRun(run: RunId)
    | Repair(order: seq<RunId>)
    | Assign(user: UserId, days: nat)
    | SetPolicy(policy: Policy)
    | Tick(later: nat)

  function Outcome(db: Db, transaction: Transaction): Db {
    if transaction.Committed? then transaction.db else db
  }

  function Next(db: Db, step: Step): Db {
    match step
    case Balance(user) => Register(db, user)
    case TopUpCredits(user, amount, key) => TopUp(db, user, amount, key)
    case BeginRun(user, run, amount) => StartRun(db, user, run, amount).0
    case ReserveOperation(user, id, amount) => Reserve(db, user, NamedOperation(id), None, amount).0
    case SettleOperation(user, id, charged) => Outcome(db, Settle(db, user, NamedOperation(id), charged))
    case SettleRun(user, run, charged) => Outcome(db, Settle(db, user, RunOperation(run), charged))
    case EndRun(run, charged) => Outcome(db, FinishRun(db, run, charged))
    case StreamRun(run) => if run in db.runs then db.(runs := db.runs[run := db.runs[run].(status := Live)]) else db
    case Repair(order) => Outcome(db, SettleRuns(db, order))
    case Assign(user, days) => AssignPlan(db, user, days)
    case SetPolicy(policy) => db.(policy := policy)
    case Tick(later) => db.(now := Max(db.now, later))
  }

  function Fresh(now: nat, policy: Policy): Db { Db(now, policy, map[], map[], [], [], [], map[]) }

  function After(db: Db, steps: seq<Step>): Db {
    if steps == [] then db else Next(After(db, steps[..|steps| - 1]), steps[|steps| - 1])
  }

  // --- conservation in every run ------------------------------------------------------------

  lemma {:induction false} RepairKeepsInv(db: Db, order: seq<RunId>)
    requires Inv(db) && SettleRuns(db, order).Committed?
    ensures Inv(SettleRuns(db, order).db)
  {
    hide Inv, Settle;
    if order != [] {
      RepairKeepsInv(db, order[..|order| - 1]);
      var before, run := SettleRuns(db, order[..|order| - 1]).db, order[|order| - 1];
      if run in before.runs {
        SettleKeepsInv(before, before.runs[run].user, RunOperation(run), before.runs[run].charged);
      }
    }
  }

  lemma QuietStepKeepsInv(db: Db, after: Db)
    requires Inv(db) && SameRows(db, after) && after.runs == db.runs && after.accounts == db.accounts
    ensures Inv(after)
  {
    hide AccountAdds, KeyExplained, RunningTotals, KeysExplained, OncePerOperation;
    SameSums(db, after);
    SameRowsSameKeys(db, after);
    SameReservationsOnce(db, after);
  }

  lemma StreamKeepsInv(db: Db, run: RunId)
    requires Inv(db) && run in db.runs
    ensures Inv(db.(runs := db.runs[run := db.runs[run].(status := Live)]))
  {
    NewRunKeepsInv(db, db.(runs := db.runs[run := db.runs[run].(status := Live)]), run);
  }

  /** Every transaction keeps the books: what is reserved is the sum of the
      active reservations, what is topped up is the sum of the ledger and the
      top-ups less their usage, and every operation is settled at most once. */
  lemma StepKeepsInv(db: Db, step: Step)
    requires Inv(db)
    ensures Inv(Next(db, step))
  {
    hide Inv, Register, TopUp, StartRun, Reserve, Settle, FinishRun, SettleRuns, SameRows;
    match step
    case Balance(user) => RegisterKeepsInv(db, user);
    case TopUpCredits(user, amount, key) => TopUpKeepsInv(db, user, amount, key);
    case BeginRun(user, run, amount) => StartRunKeepsInv(db, user, run, amount);
    case ReserveOperation(user, id, amount) => ReserveKeepsInv(db, user, NamedOperation(id), None, amount);
    case SettleOperation(user, id, charged) =>
      if Settle(db, user, NamedOperation(id), charged).Committed? {
        SettleKeepsInv(db, user, NamedOperation(id), charged);
      }
    case SettleRun(user, run, charged) =>
      if Settle(db, user, RunOperation(run), charged).Committed? {
        SettleKeepsInv(db, user, RunOperation(run), charged);
      }
    case EndRun(run, charged) =>
      if FinishRun(db, run, charged).Committed? {
        FinishRunKeepsInv(db, run, charged);
      }
    case StreamRun(run) =>
      if run in db.runs {
        StreamKeepsInv(db, run);
      }
    case Repair(order) =>
      if SettleRuns(db, order).Committed? {
        RepairKeepsInv(db, order);
      }
    case Assign(user, days) => AssignKeepsInv(db, user, days);
    case SetPolicy(policy) => ClockAndPolicyKeepInv(db, db.now, policy);
    case Tick(later) => ClockAndPolicyKeepInv(db, Max(db.now, later), db.policy);
  }

  lemma AssignKeepsInv(db: Db, user: UserId, days: nat)
    requires Inv(db)
    ensures Inv(AssignPlan(db, user, days))
  {
    hide Inv;
    MoreAccountsKeepInv(db, AssignPlan(db, user, days), user);
  }

  lemma ClockAndPolicyKeepInv(db: Db, now: nat, policy: Policy)
    requires Inv(db) && db.now <= now
    ensures Inv(db.(now := now, policy := policy))
  {
    hide Inv;
    DaysFollowClock(db.now, now);
    QuietStepKeepsInv(db, db.(now := now, policy := policy));
  }

  lemma {:induction false} RunKeepsInv(now: nat, policy: Policy, steps: seq<Step>)
    ensures Inv(After(Fresh(now, policy), steps))
  {
    hide Next;
    if steps != [] {
      RunKeepsInv(now, policy, steps[..|steps| - 1]);
      StepKeepsInv(After(Fresh(now, policy), steps[..|steps| - 1]), steps[|steps| - 1]);
    }
  }

  /** The conservation laws of every run, for one user. */
  lemma CreditsAreConserved(now: nat, policy: Policy, steps: seq<Step>, user: UserId)
    requires user in After(Fresh(now, policy), steps).accounts
    ensures AccountAdds(After(Fresh(now, policy), steps), user)
  {
    hide AccountAdds, After;
    RunKeepsInv(now, policy, steps);
  }

  // --- solvency -----------------------------------------------------------------------------

  /** What the plan still grants and the top-up cover all that is reserved. */
  predicate Solvent(db: Db, user: UserId)
    requires user in db.accounts
  {
    db.accounts[user].reserved <= PlanAvailable(db, user) + db.accounts[user].topUp
  }

  /** Nobody who has an account is insolvent under this name. */
  predicate Covered(db: Db, user: UserId) { user in db.accounts ==> Solvent(db, user) }

  lemma PlanFollowsUsage(before: Db, after: Db, row: Usage, user: UserId)
    requires after.usage == before.usage + [row] && row.day == DayOf(before.now) && row.week == WeekOf(row.day)
    requires after.now == before.now && after.policy == before.policy && after.enrollments == before.enrollments
    requires row.user == user ==> 0 <= row.plan <= PlanAvailable(before, user)
    ensures PlanAvailable(after, user) == PlanAvailable(before, user) - if row.user == user then row.plan else 0
  {
    SumAppend(before.usage, row, PlanSpentOn(user, DayOf(before.now)));
    SumAppend(before.usage, row, PlanSpentIn(user, WeekOf(DayOf(before.now))));
  }

  lemma CollectKeepsSolvent(d: Db, k: nat, charged: int, user: UserId)
    requires Books(d) && user in d.accounts && Solvent(d, user)
    requires k < |d.reservations| && d.reservations[k].user in d.accounts
    requires Settles(d, k, BillFor(d, d.reservations[k].user, d.reservations[k].amount, charged))
    ensures Solvent(Collect(d, k, BillFor(d, d.reservations[k].user, d.reservations[k].amount, charged)), user)
  {
    hide Conserved, Known, OncePerOperation, UsageInTime, KeysExplained, RunningTotals, PlanAvailable, SettleConflicts;
    var bill := BillFor(d, d.reservations[k].user, d.reservations[k].amount, charged);
    var after := Collect(d, k, bill);
    PlanFollowsUsage(d, after, after.usage[|d.usage|], user);
    HeldCovers(d, k);
  }

  lemma RegisterKeepsSolvent(db: Db, user: UserId, other: UserId)
    requires Covered(db, user)
    ensures Covered(Register(db, other), user)
  {
  }

  lemma SettleKeepsSolvent(db: Db, user: UserId, operation: OperationId, charged: int, other: UserId)
    requires Books(db) && Covered(db, other)
    requires Settle(db, user, operation, charged).Committed?
    ensures Covered(Settle(db, user, operation, charged).db, other)
  {
    hide Books, Settle, Settles, Solvent, BillFor;
    RegisterKeepsBooks(db, user);
    RegisterKeepsSolvent(db, other, user);
    SettleIsCollect(db, user, operation, charged);
    if Collects(db, user, operation, charged) && other in Register(db, user).accounts {
      CollectKeepsSolvent(Register(db, user), Row(db.reservations, user, operation), charged, other);
    }
  }

  lemma ReserveKeepsSolvent(
    db: Db, user: UserId, operation: OperationId, run: Option<RunId>, amount: nat, other: UserId)
    requires UsageInTime(db) && Covered(db, other)
    ensures Covered(Reserve(db, user, operation, run, amount).0, other)
  {
    hide PlanAvailable, Available, UsageInTime;
    var d := Register(db, user);
    RegisterKeepsSolvent(db, other, user);
    assert UsageInTime(d) by {
      SameUsageInTime(db, d);
    }
    AvailableIs(d, user);
    if Reserve(db, user, operation, run, amount).1.Granted? {
      SamePlan(d, Hold(d, user, operation, run, amount), other);
    }
  }

  /** What may be reserved is what the plan and the top-up leave uncovered. */
  lemma AvailableIs(d: Db, user: UserId)
    requires UsageInTime(d) && user in d.accounts
    ensures Available(d, user) == Max(0, PlanAvailable(d, user) + d.accounts[user].topUp - d.accounts[user].reserved)
  {
    hide SpentToday, SpentThisWeek;
    SpentIsNonNegative(d, user);
  }

  lemma SpentIsNonNegative(d: Db, user: UserId)
    requires UsageInTime(d)
    ensures SpentToday(d, user) >= 0 && SpentThisWeek(d, user) >= 0
  {
    SumIsNonNegative(d.usage, PlanSpentOn(user, DayOf(d.now)));
    SumIsNonNegative(d.usage, PlanSpentIn(user, WeekOf(DayOf(d.now))));
  }

  lemma SamePlan(before: Db, after: Db, user: UserId)
    requires after.usage == before.usage && after.now == before.now
    requires after.policy == before.policy && after.enrollments == before.enrollments
    ensures PlanAvailable(after, user) == PlanAvailable(before, user)
  {
  }

  lemma TopUpKeepsSolvent(db: Db, user: UserId, amount: nat, key: string, other: UserId)
    requires Covered(db, other)
    ensures Covered(TopUp(db, user, amount, key), other)
  {
    RegisterKeepsSolvent(db, other, user);
  }

  /** A new day, and a new week, start with nothing spent. */
  lemma LaterSpendsLess(db: Db, now: nat, user: UserId)
    requires UsageInTime(db) && db.now <= now
    ensures SpentToday(db.(now := now), user) == (if DayOf(now) == DayOf(db.now) then SpentToday(db, user) else 0)
    ensures SpentThisWeek(db.(now := now), user)
         == (if WeekOf(DayOf(now)) == WeekOf(DayOf(db.now)) then SpentThisWeek(db, user) else 0)
    ensures SpentToday(db.(now := now), user) <= SpentToday(db, user)
    ensures SpentThisWeek(db.(now := now), user) <= SpentThisWeek(db, user)
  {
    hide WeekOf, DayOf;
    DaysFollowClock(db.now, now);
    WeeksFollowDays(DayOf(db.now), DayOf(now));
    SumIsNonNegative(db.usage, PlanSpentOn(user, DayOf(db.now)));
    SumIsNonNegative(db.usage, PlanSpentIn(user, WeekOf(DayOf(db.now))));
    if DayOf(db.now) < DayOf(now) {
      SumIsZero(db.usage, PlanSpentOn(user, DayOf(now)));
    }
    if WeekOf(DayOf(db.now)) < WeekOf(DayOf(now)) {
      forall k | 0 <= k < |db.usage| ensures PlanSpentIn(user, WeekOf(DayOf(now)))(db.usage[k]) == 0 {
        WeeksFollowDays(db.usage[k].day, DayOf(db.now));
      }
      SumIsZero(db.usage, PlanSpentIn(user, WeekOf(DayOf(now))));
    }
  }

  lemma TickKeepsSolvent(db: Db, later: nat, user: UserId)
    requires UsageInTime(db) && Covered(db, user)
    requires PlanActive(db, user) ==> PlanActive(Next(db, Tick(later)), user)
    ensures Covered(Next(db, Tick(later)), user)
  {
    hide SpentToday, SpentThisWeek;
    LaterSpendsLess(db, Max(db.now, later), user);
  }

  /** The step neither ends the user's plan nor lowers an allowance. */
  predicate KeepsPlan(db: Db, step: Step, user: UserId) {
    match step
    case Tick(_) => PlanActive(db, user) ==> PlanActive(Next(db, step), user)
    case SetPolicy(policy) => db.policy.daily <= policy.daily && db.policy.weekly <= policy.weekly
    case Assign(_, days) => days > 0
    case _ => true
  }

  lemma {:induction false} RepairKeepsBooks(db: Db, order: seq<RunId>)
    requires Books(db) && SettleRuns(db, order).Committed?
    ensures Books(SettleRuns(db, order).db)
  {
    hide Books, Settle;
    if order != [] {
      RepairKeepsBooks(db, order[..|order| - 1]);
      var before, run := SettleRuns(db, order[..|order| - 1]).db, order[|order| - 1];
      if run in before.runs {
        SettleKeepsBooks(before, before.runs[run].user, RunOperation(run), before.runs[run].charged);
      }
    }
  }

  lemma {:induction false} RepairKeepsSolvent(db: Db, order: seq<RunId>, user: UserId)
    requires Books(db) && Covered(db, user) && SettleRuns(db, order).Committed?
    ensures Covered(SettleRuns(db, order).db, user)
  {
    hide Settle, Covered, Books;
    if order != [] {
      RepairKeepsSolvent(db, order[..|order| - 1], user);
      RepairKeepsBooks(db, order[..|order| - 1]);
      var before, run := SettleRuns(db, order[..|order| - 1]).db, order[|order| - 1];
      if run in before.runs {
        SettleKeepsSolvent(before, before.runs[run].user, RunOperation(run), before.runs[run].charged, user);
      }
    }
  }

  lemma StepKeepsSolvent(db: Db, step: Step, user: UserId)
    requires Inv(db) && Covered(db, user) && KeepsPlan(db, step, user)
    ensures Covered(Next(db, step), user)
  {
    hide Conserved, Known, OncePerOperation, KeysExplained, RunningTotals, RunsMatch, UsageInTime;
    hide Covered, Settle, Reserve, TopUp, SettleRuns;
    match step
    case Balance(other) => RegisterKeepsSolvent(db, user, other);
    case TopUpCredits(other, amount, key) => TopUpKeepsSolvent(db, other, amount, key, user);
    case BeginRun(other, run, amount) =>
      if run !in db.runs {
        var created := db.(runs := db.runs[run := Run(other, Live, 0)]);
        SameMoneySolvent(db, created, user);
        SameUsageInTime(db, created);
        ReserveKeepsSolvent(created, other, RunOperation(run), Some(run), amount, user);
      }
    case ReserveOperation(other, id, amount) => ReserveKeepsSolvent(db, other, NamedOperation(id), None, amount, user);
    case SettleOperation(other, id, charged) =>
      if Settle(db, other, NamedOperation(id), charged).Committed? {
        SettleKeepsSolvent(db, other, NamedOperation(id), charged, user);
      }
    case SettleRun(other, run, charged) =>
      if Settle(db, other, RunOperation(run), charged).Committed? {
        SettleKeepsSolvent(db, other, RunOperation(run), charged, user);
      }
    case EndRun(run, charged) => EndRunKeepsSolvent(db, run, charged, user);
    case StreamRun(run) => SameMoneySolvent(db, Next(db, step), user);
    case Repair(order) =>
      if SettleRuns(db, order).Committed? {
        RepairKeepsSolvent(db, order, user);
      }
    case Assign(other, days) => AssignKeepsSolvent(db, other, days, user);
    case SetPolicy(policy) => HigherPolicyKeepsSolvent(db, policy, user);
    case Tick(later) => TickKeepsSolvent(db, later, user);
  }

  lemma SameMoneySolvent(before: Db, after: Db, user: UserId)
    requires Covered(before, user) && after.(runs := before.runs) == before
    ensures Covered(after, user)
  {
  }

  lemma EndRunKeepsSolvent(db: Db, run: RunId, charged: int, user: UserId)
    requires Inv(db) && Covered(db, user)
    ensures Covered(Next(db, EndRun(run, charged)), user)
  {
    hide Conserved, Known, OncePerOperation, KeysExplained, RunningTotals, RunsMatch, UsageInTime, Settle;
    if run in db.runs && FinishRun(db, run, charged).Committed? {
      var owner := db.runs[run].user;
      var over := db.(runs := db.runs[run := Run(owner, Terminal, charged)]);
      FinishedRunIsSettled(db, run, charged);
      SameMoneySolvent(db, over, user);
      SettleKeepsSolvent(over, owner, RunOperation(run), charged, user);
    }
  }

  lemma AssignKeepsSolvent(db: Db, other: UserId, days: nat, user: UserId)
    requires Covered(db, user) && days > 0
    ensures Covered(AssignPlan(db, other, days), user)
  {
  }

  lemma HigherPolicyKeepsSolvent(db: Db, policy: Policy, user: UserId)
    requires Covered(db, user) && db.policy.daily <= policy.daily && db.policy.weekly <= policy.weekly
    ensures Covered(db.(policy := policy), user)
  {
  }

  /** Solvency over whole runs: from the moment the account exists, as long as
      no step ends the plan or lowers an allowance. */
  lemma {:induction false} SolventThroughout(now: nat, policy: Policy, steps: seq<Step>, user: UserId)
    requires forall k :: 0 <= k < |steps| ==> KeepsPlan(After(Fresh(now, policy), steps[..k]), steps[k], user)
    ensures Covered(After(Fresh(now, policy), steps), user)
  {
    hide Next, Solvent, KeepsPlan, Inv;
    if steps != [] {
      var last := |steps| - 1;
      var before := After(Fresh(now, policy), steps[..last]);
      forall k | 0 <= k < last
        ensures KeepsPlan(After(Fresh(now, policy), steps[..last][..k]), steps[..last][k], user)
      {
        assert steps[..last][..k] == steps[..k] && steps[..last][k] == steps[k];
      }
      SolventThroughout(now, policy, steps[..last], user);
      RunKeepsInv(now, policy, steps[..last]);
      assert KeepsPlan(before, steps[last], user);
      StepKeepsSolvent(before, steps[last], user);
    }
  }

  /** When a plan ends, what is reserved must be covered by top-up alone. */
  lemma ExpiryIsExact(db: Db, later: nat, user: UserId)
    requires user in db.accounts && !PlanActive(Next(db, Tick(later)), user)
    ensures Solvent(Next(db, Tick(later)), user) <==> db.accounts[user].reserved <= db.accounts[user].topUp
  {
  }

  /** A new reservation is granted exactly when the user is still solvent with it. */
  lemma GrantedIffStillSolvent(db: Db, user: UserId, operation: OperationId, run: Option<RunId>, amount: nat)
    requires UsageInTime(db) && !OperationTaken(db, operation) && !KeyTaken(db, ReserveKey(operation))
    requires amount > 0 || Covered(db, user)
    ensures Reserve(db, user, operation, run, amount).1.Granted?
       <==> Solvent(Hold(Register(db, user), user, operation, run, amount), user)
  {
    hide PlanAvailable, Available;
    var d := Register(db, user);
    SameUsageInTime(db, d);
    AvailableIs(d, user);
    SamePlan(d, Hold(d, user, operation, run, amount), user);
    RegisterKeepsSolventIf(db, user);
  }

  lemma RegisterKeepsSolventIf(db: Db, user: UserId)
    requires UsageInTime(db)
    ensures Covered(db, user) ==> Solvent(Register(db, user), user)
  {
    if Covered(db, user) {
      RegisterKeepsSolvent(db, user, user);
    }
  }

  /** A settlement collects its whole charge exactly when plan and top-up cover
      it, and top-up pays only what the plan does not. */
  lemma ChargeIsCollectedIff(d: Db, user: UserId, amount: nat, charged: int)
    requires user in d.accounts && d.accounts[user].topUp >= 0
    ensures var bill := BillFor(d, user, amount, charged);
            && (bill.plan + bill.topUp == bill.actual
                <==> bill.actual <= PlanAvailable(d, user) + d.accounts[user].topUp)
            && (bill.topUp > 0 ==> bill.plan == PlanAvailable(d, user))
            && (bill.plan + bill.topUp < bill.actual ==> bill.topUp == d.accounts[user].topUp)
  {
  }

  /** While a user is solvent, every settlement collects its whole charge. */
  lemma SolventPaysInFull(db: Db, k: nat, charged: int)
    requires Inv(db) && k < |db.reservations| && db.reservations[k].status.Active?
    requires Solvent(db, db.reservations[k].user)
    ensures var r := db.reservations[k];
            var bill := BillFor(db, r.user, r.amount, charged);
            bill.plan + bill.topUp == bill.actual == Max(0, Min(r.amount, charged))
  {
    hide PlanAvailable, OncePerOperation, KeysExplained, RunningTotals, RunsMatch, UsageInTime;
    HeldCovers(db, k);
    ConservedFor(db, db.reservations[k].user);
    ChargeIsCollectedIff(db, db.reservations[k].user, db.reservations[k].amount, charged);
  }

  // --- quotas -------------------------------------------------------------------------------

  /** No user has spent more of the plan on any day or in any week than the
      policy allows. */
  ghost predicate WithinPolicy(db: Db) {
    && (forall user, day: int :: Sum(db.usage, PlanSpentOn(user, day)) <= db.policy.daily)
    && (forall user, week: int :: Sum(db.usage, PlanSpentIn(user, week)) <= db.policy.weekly)
  }

  lemma CollectStaysWithin(d: Db, k: nat, charged: int)
    requires WithinPolicy(d) && k < |d.reservations| && d.reservations[k].user in d.accounts
    requires Settles(d, k, BillFor(d, d.reservations[k].user, d.reservations[k].amount, charged))
    ensures WithinPolicy(Collect(d, k, BillFor(d, d.reservations[k].user, d.reservations[k].amount, charged)))
  {
    hide SettleConflicts;
    var bill := BillFor(d, d.reservations[k].user, d.reservations[k].amount, charged);
    var after := Collect(d, k, bill);
    var row := after.usage[|d.usage|];
    forall user, day: int ensures Sum(after.usage, PlanSpentOn(user, day)) <= d.policy.daily {
      SumAppend(d.usage, row, PlanSpentOn(user, day));
      assert Sum(d.usage, PlanSpentOn(user, day)) <= d.policy.daily;
    }
    forall user, week: int ensures Sum(after.usage, PlanSpentIn(user, week)) <= d.policy.weekly {
      SumAppend(d.usage, row, PlanSpentIn(user, week));
      assert Sum(d.usage, PlanSpentIn(user, week)) <= d.policy.weekly;
    }
  }

  lemma SettleStaysWithin(db: Db, user: UserId, operation: OperationId, charged: int)
    requires Books(db) && WithinPolicy(db) && Settle(db, user, operation, charged).Committed?
    ensures WithinPolicy(Settle(db, user, operation, charged).db)
  {
    hide Books, Settle, Settles, BillFor, WithinPolicy;
    SettleIsCollect(db, user, operation, charged);
    SamePolicyWithin(db, Register(db, user));
    if Collects(db, user, operation, charged) {
      CollectStaysWithin(Register(db, user), Row(db.reservations, user, operation), charged);
    }
  }

  lemma SamePolicyWithin(before: Db, after: Db)
    requires WithinPolicy(before) && after.usage == before.usage
    requires before.policy.daily <= after.policy.daily && before.policy.weekly <= after.policy.weekly
    ensures WithinPolicy(after)
  {
    forall user, day: int ensures Sum(after.usage, PlanSpentOn(user, day)) <= after.policy.daily {
      assert Sum(before.usage, PlanSpentOn(user, day)) <= before.policy.daily;
    }
    forall user, week: int ensures Sum(after.usage, PlanSpentIn(user, week)) <= after.policy.weekly {
      assert Sum(before.usage, PlanSpentIn(user, week)) <= before.policy.weekly;
    }
  }

  lemma {:induction false} RepairStaysWithin(db: Db, order: seq<RunId>)
    requires Inv(db) && WithinPolicy(db) && SettleRuns(db, order).Committed?
    ensures WithinPolicy(SettleRuns(db, order).db)
  {
    hide Settle, WithinPolicy, Conserved, Known, OncePerOperation, UsageInTime, KeysExplained, RunningTotals, RunsMatch;
    if order != [] {
      RepairStaysWithin(db, order[..|order| - 1]);
      RepairKeepsInv(db, order[..|order| - 1]);
      var before, run := SettleRuns(db, order[..|order| - 1]).db, order[|order| - 1];
      if run in before.runs {
        SettleStaysWithin(before, before.runs[run].user, RunOperation(run), before.runs[run].charged);
      }
    }
  }

  lemma StepStaysWithin(db: Db, step: Step)
    requires Inv(db) && WithinPolicy(db)
    requires step.SetPolicy? ==> db.policy.daily <= step.policy.daily && db.policy.weekly <= step.policy.weekly
    ensures WithinPolicy(Next(db, step))
  {
    hide Conserved, Known, OncePerOperation, KeysExplained, RunningTotals, RunsMatch, UsageInTime;
    hide WithinPolicy, Settle, SettleRuns;
    match step
    case SettleOperation(user, id, charged) =>
      if Settle(db, user, NamedOperation(id), charged).Committed? {
        SettleStaysWithin(db, user, NamedOperation(id), charged);
      }
    case SettleRun(user, run, charged) =>
      if Settle(db, user, RunOperation(run), charged).Committed? {
        SettleStaysWithin(db, user, RunOperation(run), charged);
      }
    case EndRun(run, charged) =>
      if run in db.runs && FinishRun(db, run, charged).Committed? {
        var owner := db.runs[run].user;
        var over := db.(runs := db.runs[run := Run(owner, Terminal, charged)]);
        FinishedRunIsSettled(db, run, charged);
        SamePolicyWithin(db, over);
        SettleStaysWithin(over, owner, RunOperation(run), charged);
      }
    case Repair(order) =>
      if SettleRuns(db, order).Committed? {
        RepairStaysWithin(db, order);
      }
    case _ => SamePolicyWithin(db, Next(db, step));
  }

  /** Under a policy that is never lowered, quotas hold in every run. */
  lemma {:induction false} QuotasHold(now: nat, policy: Policy, steps: seq<Step>)
    requires forall k :: 0 <= k < |steps| && steps[k].SetPolicy? ==>
               var before := After(Fresh(now, policy), steps[..k]).policy;
               before.daily <= steps[k].policy.daily && before.weekly <= steps[k].policy.weekly
    ensures WithinPolicy(After(Fresh(now, policy), steps))
  {
    hide Next, Inv;
    if steps != [] {
      var last := |steps| - 1;
      forall k | 0 <= k < last && steps[..last][k].SetPolicy?
        ensures var before := After(Fresh(now, policy), steps[..last][..k]).policy;
                before.daily <= steps[..last][k].policy.daily && before.weekly <= steps[..last][k].policy.weekly
      {
        assert steps[..last][..k] == steps[..k] && steps[..last][k] == steps[k];
      }
      QuotasHold(now, policy, steps[..last]);
      RunKeepsInv(now, policy, steps[..last]);
      StepStaysWithin(After(Fresh(now, policy), steps[..last]), steps[last]);
    }
  }

  // --- at most once -------------------------------------------------------------------------

  /** The rows of a table with one operation. */
  function UsageOf(operation: OperationId): Usage -> int {
    (u: Usage) => if u.operation == operation then 1 else 0
  }

  lemma {:induction false} CountsOnce(usage: seq<Usage>, operation: OperationId)
    requires forall i, j :: 0 <= i < j < |usage| ==> usage[i].operation != usage[j].operation
    ensures 0 <= Sum(usage, UsageOf(operation)) <= 1
    ensures Sum(usage, UsageOf(operation)) == 1 <==> exists k :: 0 <= k < |usage| && usage[k].operation == operation
  {
    if usage != [] {
      var last := |usage| - 1;
      CountsOnce(usage[..last], operation);
      assert forall k :: 0 <= k < last ==> usage[..last][k] == usage[k];
      if usage[last].operation == operation {
        assert !exists k :: 0 <= k < last && usage[..last][k].operation == operation;
      }
    }
  }

  /** In every run an operation is charged exactly once if its reservation was
      settled, and never otherwise. */
  lemma ChargedExactlyOnce(now: nat, policy: Policy, steps: seq<Step>, k: nat)
    requires k < |After(Fresh(now, policy), steps).reservations|
    ensures var db := After(Fresh(now, policy), steps);
            var r := db.reservations[k];
            Sum(db.usage, UsageOf(r.operation)) == if r.status.Settled? then 1 else 0
  {
    hide After, Conserved, Known, UsageInTime, KeysExplained, RunningTotals, RunsMatch;
    RunKeepsInv(now, policy, steps);
    var db := After(Fresh(now, policy), steps);
    CountsOnce(db.usage, db.reservations[k].operation);
    SettledIffCharged(db, k);
  }

  lemma SettledIffCharged(db: Db, k: nat)
    requires OncePerOperation(db) && k < |db.reservations|
    ensures db.reservations[k].status.Settled? <==> UsageTaken(db, db.reservations[k].operation)
  {
  }

  /** Settling again, for whatever charge, changes nothing. */
  lemma SettlingTwiceIsOnce(db: Db, user: UserId, operation: OperationId, charged: int, again: int)
    requires Inv(db) && Settle(db, user, operation, charged).Committed?
    ensures var after := Settle(db, user, operation, charged).db;
            Settle(after, user, operation, again) == Committed(after)
  {
    hide Conserved, Known, OncePerOperation, UsageInTime, KeysExplained, RunningTotals, RunsMatch, BillFor, Settles;
    SettleIsCollect(db, user, operation, charged);
    var d, k := Register(db, user), Row(db.reservations, user, operation);
    var after := Settle(db, user, operation, charged).db;
    SameRow(db.reservations, after.reservations, user, operation);
  }

  /** Changing the status of rows does not change which row is found. */
  lemma {:induction false} SameRow(before: seq<Reservation>, after: seq<Reservation>, user: UserId,
      operation: OperationId)
    requires |before| == |after|
    requires forall k :: 0 <= k < |before| ==> after[k].(status := before[k].status) == before[k]
    ensures Row(after, user, operation) == Row(before, user, operation)
  {
    if before != [] {
      assert after[0].(status := before[0].status) == before[0];
      SameRow(before[1..], after[1..], user, operation);
    }
  }

  /** A top-up under a key that was used before changes nothing but, perhaps,
      the registration of the user. */
  lemma ToppingUpTwiceIsOnce(db: Db, user: UserId, amount: nat, key: string, other: UserId, again: nat)
    ensures TopUp(TopUp(db, user, amount, key), other, again, key) == Register(TopUp(db, user, amount, key), other)
  {
    var d, after := Register(db, user), TopUp(db, user, amount, key);
    if !KeyTaken(d, key) {
      assert after.ledger[|d.ledger|].key == key;
    }
    assert KeyTaken(after, key);
  }

  // --- when a settlement fails --------------------------------------------------------------

  /** An administrator used this text as the key of a top-up. */
  predicate ToppedUpUnder(db: Db, key: string) {
    exists k :: 0 <= k < |db.ledger| && db.ledger[k].kind.TopUpEntry? && db.ledger[k].key == key
  }

  /** An active reservation cannot be settled exactly when a top-up took one of
      the ledger keys its settlement needs. */
  lemma SettlementFailsIff(db: Db, k: nat, charged: int)
    requires Inv(db) && k < |db.reservations| && db.reservations[k].status.Active?
    requires db.reservations[k].user in db.enrollments
    ensures var r := db.reservations[k];
            Settle(db, r.user, r.operation, charged).Aborted? <==>
              || ToppedUpUnder(db, SettleKey(r.operation))
              || (Max(0, Min(r.amount, charged)) < r.amount && ToppedUpUnder(db, ReleaseKey(r.operation)))
  {
    hide Conserved, UsageInTime, RunningTotals, RunsMatch, KeysExplained, KeyTaken, ToppedUpUnder, PlanAvailable;
    var r := db.reservations[k];
    OnlyRow(db, k);
    assert Register(db, r.user) == db;
    assert !UsageTaken(db, r.operation) by {
      SettledIffCharged(db, k);
    }
    KeyIsTopUps(db, r.operation, SettleKey(r.operation));
    KeyIsTopUps(db, r.operation, ReleaseKey(r.operation));
  }

  lemma OnlyRow(db: Db, k: nat)
    requires OncePerOperation(db) && k < |db.reservations|
    ensures Row(db.reservations, db.reservations[k].user, db.reservations[k].operation) == k
  {
    var j := Row(db.reservations, db.reservations[k].user, db.reservations[k].operation);
    assert j <= k;
  }

  lemma KeyIsTopUps(db: Db, operation: OperationId, key: string)
    requires KeysExplained(db) && !ReservationOf(db, operation, Settled)
    requires key == SettleKey(operation) || key == ReleaseKey(operation)
    ensures KeyTaken(db, key) <==> ToppedUpUnder(db, key)
  {
    if KeyTaken(db, key) {
      var k :| 0 <= k < |db.ledger| && db.ledger[k].key == key;
      assert KeyExplained(db, db.ledger[k]);
      if !db.ledger[k].kind.TopUpEntry? {
        var other :| key == ReserveKey(other)
          || (ReservationOf(db, other, Settled) && (key == SettleKey(other) || key == ReleaseKey(other)));
        KeysDiffer(operation, other);
        KeysDiffer(other, operation);
      }
    }
  }

  // --- the repair after a crash -------------------------------------------------------------

  /** Reservations for runs bear the run's name and user. */
  ghost predicate RunsNamed(db: Db) {
    forall k :: 0 <= k < |db.reservations| && db.reservations[k].run.Some? ==>
      var r := db.reservations[k];
      r.operation == RunOperation(r.run.value) && r.run.value in db.runs && db.runs[r.run.value].user == r.user
  }

  /** Each settlement of the repair unstrands its run and strands none. */
  lemma SettleUnstrands(db: Db, run: RunId, charged: int)
    requires Books(db) && RunsNamed(db) && run in db.runs
    requires Settle(db, db.runs[run].user, RunOperation(run), charged).Committed?
    ensures var after := Settle(db, db.runs[run].user, RunOperation(run), charged).db;
            && RunsNamed(after) && after.runs == db.runs && !Stranded(after, run)
            && forall other :: Stranded(after, other) ==> Stranded(db, other)
  {
    hide Conserved, Known, UsageInTime, KeysExplained, RunningTotals, Settle, BillFor, Settles;
    var user, operation := db.runs[run].user, RunOperation(run);
    SettleIsCollect(db, user, operation, charged);
    var after := Settle(db, user, operation, charged).db;
    var k := Row(db.reservations, user, operation);
    forall i | 0 <= i < |after.reservations|
      ensures after.reservations[i].(status := db.reservations[i].status) == db.reservations[i]
      ensures after.reservations[i].status.Active? ==> db.reservations[i].status.Active? && i != k
    {
    }
    forall i | 0 <= i < |db.reservations| && db.reservations[i].run == Some(run) ensures i == k {
      OnlyRow(db, i);
    }
    forall other | Stranded(after, other) ensures Stranded(db, other) {
      var i :| 0 <= i < |after.reservations|
               && after.reservations[i].run == Some(other) && after.reservations[i].status.Active?;
      assert db.reservations[i].run == Some(other) && db.reservations[i].status.Active?;
    }
  }

  /** A repair that commits leaves none of the listed runs with credits held;
      listing every stranded run, it strands nobody. */
  lemma {:induction false} RepairSettlesAll(db: Db, order: seq<RunId>)
    requires Books(db) && RunsNamed(db) && SettleRuns(db, order).Committed?
    ensures var after := SettleRuns(db, order).db;
            && Books(after) && RunsNamed(after) && after.runs == db.runs
            && (forall run :: Stranded(after, run) ==> Stranded(db, run) && run !in order)
  {
    hide Settle, Conserved, Known, OncePerOperation, UsageInTime, KeysExplained, RunningTotals, RunsNamed, Stranded;
    if order != [] {
      var last := |order| - 1;
      RepairSettlesAll(db, order[..last]);
      var before, run := SettleRuns(db, order[..last]).db, order[last];
      assert order == order[..last] + [run];
      if run in before.runs {
        SettleKeepsBooks(before, before.runs[run].user, RunOperation(run), before.runs[run].charged);
        SettleUnstrands(before, run, before.runs[run].charged);
      } else {
        UnknownIsNotStranded(before, run);
      }
    }
  }

  lemma UnknownIsNotStranded(db: Db, run: RunId)
    requires run !in db.runs
    ensures !Stranded(db, run)
  {
  }

  /** Because a run ends together with its settlement, no run of this code is
      ever stranded; the repair is for what an older state left behind. */
  lemma NobodyIsStranded(now: nat, policy: Policy, steps: seq<Step>, run: RunId)
    ensures !Stranded(After(Fresh(now, policy), steps), run)
  {
    hide After, Conserved, Known, OncePerOperation, UsageInTime, KeysExplained, RunningTotals;
    RunKeepsInv(now, policy, steps);
  }

  // --- a run in which a settlement collects too little --------------------------------------

  /** The tables after the first run of the first user has begun. */
  function Begun(now: nat, policy: Policy, user: UserId, run: RunId, amount: nat): Db {
    var operation := RunOperation(run);
    Db(now, policy, map[user := Account(0, amount)],
       map[user := Enrollment(now, now + policy.planDays * DAY_SECONDS)],
       [Reservation(operation, user, Some(run), amount, Active)], [],
       [Entry(user, ReserveEntry, 0, 0, ReserveKey(operation))], map[run := Run(user, Live, 0)])
  }

  lemma FirstRunBegins(now: nat, policy: Policy, user: UserId, run: RunId, amount: nat)
    requires amount <= Min(policy.daily, policy.weekly) && policy.planDays > 0
    ensures StartRun(Fresh(now, policy), user, run, amount) == (Begun(now, policy, user, run, amount), Granted)
  {
    var created := Fresh(now, policy).(runs := map[run := Run(user, Live, 0)]);
    var d := Register(created, user);
    assert PlanActive(d, user) && Available(d, user) == Min(policy.daily, policy.weekly);
    assert !OperationTaken(d, RunOperation(run)) && !KeyTaken(d, ReserveKey(RunOperation(run)));
    var held, begun := Hold(d, user, RunOperation(run), Some(run), amount), Begun(now, policy, user, run, amount);
    assert held.accounts == begun.accounts && held.enrollments == begun.enrollments && held.runs == begun.runs;
    assert held.reservations == begun.reservations && held.ledger == begun.ledger && held.usage == begun.usage;
  }

  /** What the settlement of this run's whole reservation collects. */
  lemma FirstRunEnds(d: Db, now: nat, policy: Policy, user: UserId, run: RunId, amount: nat)
    requires amount > 0 && now <= d.now
    requires d == Begun(now, policy, user, run, amount).(now := d.now, policy := d.policy)
    ensures var ended := FinishRun(d, run, amount);
            && ended.Committed? && |ended.db.usage| == 1 && ended.db.usage[0].user == user
            && ended.db.usage[0].charged == Min(amount, PlanAvailable(d, user))
  {
    hide PlanAvailable;
    var over := d.(runs := d.runs[run := Run(user, Terminal, amount)]);
    var operation := RunOperation(run);
    KeysDiffer(operation, operation);
    assert Register(over, user) == over;
    assert over.reservations[0].operation == operation && over.reservations[0].user == user;
    assert Row(over.reservations, user, operation) == 0;
    assert PlanAvailable(over, user) == PlanAvailable(d, user) by { SamePlanNow(d, over, user); }
    assert !SettleConflicts(over, over.reservations[0], BillFor(over, user, amount, amount));
  }

  lemma SamePlanNow(d: Db, over: Db, user: UserId)
    requires over == d.(runs := over.runs)
    ensures PlanAvailable(over, user) == PlanAvailable(d, user)
  {
  }

  /** A run that was granted, and is charged what it reserved: if the plan has
      ended meanwhile, nothing of that is collected; if the allowances have been
      lowered, no more than they are now. */
  lemma LateChargeIsLost(now: nat, policy: Policy, user: UserId, run: RunId, amount: nat, middle: Step)
    requires 0 < amount <= Min(policy.daily, policy.weekly) && policy.planDays > 0
    requires middle.SetPolicy? || (middle.Tick? && now + policy.planDays * DAY_SECONDS <= middle.later)
    ensures var end := After(Fresh(now, policy), [BeginRun(user, run, amount), middle, EndRun(run, amount)]);
            && |end.usage| == 1 && end.usage[0].user == user
            && end.usage[0].charged
               == if middle.Tick? then 0 else Min(amount, Min(middle.policy.daily, middle.policy.weekly))
  {
    hide FinishRun, StartRun;
    var begin, finish := BeginRun(user, run, amount), EndRun(run, amount);
    var begun := Begun(now, policy, user, run, amount);
    FirstRunBegins(now, policy, user, run, amount);
    assert [begin, middle, finish][..2] == [begin, middle] && [begin, middle][..1] == [begin] && [begin][..0] == [];
    assert After(Fresh(now, policy), [begin]) == begun;
    var between := Next(begun, middle);
    assert After(Fresh(now, policy), [begin, middle]) == between;
    FirstRunEnds(between, now, policy, user, run, amount);
    assert SpentToday(between, user) == 0 && SpentThisWeek(between, user) == 0;
  }
}
