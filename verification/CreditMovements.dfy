/** What each transaction of the billing code moves, said of the tables before
    and after it, and what users have paid in over whole runs. */
module CreditMovements {
  import opened Basics
  import opened CreditLedger
  import opened CreditProtocol
  import opened CreditSafety
  import opened CreditTables

  // --- one transaction ----------------------------------------------------------------------

  /** The user's account, or the empty one of a user who has none. */
  function AccountOf(db: Db, user: UserId): Account {
    if user in db.accounts then db.accounts[user] else Account(0, 0)
  }

  /** A user without a plan gets the default one from now on. */
  ghost predicate PlanIsThere(before: Db, after: Db, user: UserId) {
    after.enrollments
    == if user in before.enrollments then before.enrollments
       else before.enrollments[user := Enrollment(before.now, before.now + before.policy.planDays * 86_400)]
  }

  /** Nothing happened but, perhaps, the registration of the user. */
  ghost predicate OnlyRegistered(before: Db, after: Db, user: UserId) {
    && PlanIsThere(before, after, user)
    && after.accounts == before.accounts[user := AccountOf(before, user)]
    && after == before.(accounts := after.accounts, enrollments := after.enrollments)
  }

  /** The user has this much more top-up credit, and one ledger row says so. */
  ghost predicate ToppedUp(before: Db, after: Db, user: UserId, amount: nat, key: string) {
    var had := AccountOf(before, user);
    && PlanIsThere(before, after, user)
    && after.accounts == before.accounts[user := Account(had.topUp + amount, had.reserved)]
    && after.ledger == before.ledger + [Entry(user, TopUpEntry, amount, had.topUp + amount, key)]
    && after == before.(accounts := after.accounts, enrollments := after.enrollments, ledger := after.ledger)
  }

  lemma RegisterMoves(db: Db, user: UserId)
    ensures OnlyRegistered(db, Register(db, user), user)
  {
    assert user in db.accounts ==> db.accounts[user := db.accounts[user]] == db.accounts;
  }

  lemma TopUpMoves(db: Db, user: UserId, amount: nat, key: string)
    ensures var after := TopUp(db, user, amount, key);
            if exists k :: 0 <= k < |db.ledger| && db.ledger[k].key == key then OnlyRegistered(db, after, user)
            else ToppedUp(db, after, user, amount, key)
  {
    RegisterMoves(db, user);
    var d, after := Register(db, user), TopUp(db, user, amount, key);
    if !KeyTaken(d, key) {
      var had := AccountOf(db, user);
      assert after.accounts == db.accounts[user := Account(had.topUp + amount, had.reserved)];
    }
  }

  /** The amount is held for this operation, and nothing is spent. */
  ghost predicate HeldFor(before: Db, after: Db, user: UserId, operation: OperationId, run: Option<RunId>,
      amount: nat)
  {
    var had := AccountOf(before, user);
    && PlanIsThere(before, after, user)
    && after.accounts == before.accounts[user := Account(had.topUp, had.reserved + amount)]
    && after.reservations == before.reservations + [Reservation(operation, user, run, amount, Active)]
    && after.ledger == before.ledger + [Entry(user, ReserveEntry, 0, had.topUp, operation + ":reserve")]
    && after == before.(accounts := after.accounts, enrollments := after.enrollments, ledger := after.ledger,
                        reservations := after.reservations)
  }

  /** Which answer a request for a reservation gets, and what it does. */
  lemma ReserveMoves(db: Db, user: UserId, operation: OperationId, run: Option<RunId>, amount: nat)
    requires UsageInTime(db)
    ensures var (after, reply) := Reserve(db, user, operation, run, amount);
            var known := exists k :: 0 <= k < |db.reservations| && db.reservations[k].operation == operation;
            var keyed := exists k :: 0 <= k < |db.ledger| && db.ledger[k].key == operation + ":reserve";
            var had := AccountOf(db, user);
            var enough := amount <= Max(0, PlanAvailable(Register(db, user), user) + had.topUp - had.reserved);
            && reply == (if known then Existing else if !enough then Refused else if keyed then Conflict else Granted)
            && match reply
               case Granted => HeldFor(db, after, user, operation, run, amount)
               case Conflict => after == db
               case _ => OnlyRegistered(db, after, user)
  {
    hide PlanAvailable, Available, UsageInTime;
    RegisterMoves(db, user);
    var d := Register(db, user);
    SameUsageInTime(db, d);
    AvailableIs(d, user);
  }

  /** Reservation k is settled: it is charged what was asked, between zero and
      what was reserved, as far as plan and top-up go, the plan first. */
  ghost predicate SettledFor(before: Db, after: Db, k: nat, charged: int)
    requires k < |before.reservations| && before.reservations[k].user in before.accounts
  {
    var r := before.reservations[k];
    var had, plan := before.accounts[r.user], PlanAvailable(before, r.user);
    var asked := Max(0, Min(r.amount, charged));
    var paid := Min(asked, plan + had.topUp);
    var byPlan := Min(asked, plan);
    var left := Account(had.topUp - (paid - byPlan), had.reserved - r.amount);
    && after.usage == before.usage + [Usage(r.operation, r.user, DayOf(before.now), WeekOf(DayOf(before.now)),
                                            paid, byPlan, paid - byPlan)]
    && after.accounts == before.accounts[r.user := left]
    && after.reservations == before.reservations[k := r.(status := Settled)]
    && after.ledger == before.ledger
                       + [Entry(r.user, SettleEntry, byPlan - paid, left.topUp, r.operation + ":settle")]
                       + (if asked < r.amount
                          then [Entry(r.user, ReleaseEntry, 0, left.topUp, r.operation + ":release")] else [])
    && after == before.(accounts := after.accounts, reservations := after.reservations, usage := after.usage,
                        ledger := after.ledger)
  }

  lemma CollectMoves(d: Db, k: nat, charged: int)
    requires Books(d) && k < |d.reservations| && d.reservations[k].user in d.accounts
    requires Settles(d, k, BillFor(d, d.reservations[k].user, d.reservations[k].amount, charged))
    ensures SettledFor(
              d, Collect(d, k, BillFor(d, d.reservations[k].user, d.reservations[k].amount, charged)), k, charged)
  {
    hide Conserved, Known, OncePerOperation, UsageInTime, KeysExplained, RunningTotals, PlanAvailable, SettleConflicts;
    HeldCovers(d, k);
  }

  /** After it, plan and top-up offer exactly as much less as was recorded as
      charged, and those of all others offer what they did. */
  lemma SettledFunds(before: Db, after: Db, k: nat, charged: int, user: UserId)
    requires k < |before.reservations| && before.reservations[k].user in before.accounts
    requires before.accounts[before.reservations[k].user].topUp >= 0
    requires SettledFor(before, after, k, charged) && user in before.accounts
    ensures user in after.accounts
    ensures PlanAvailable(after, user) + after.accounts[user].topUp
         == PlanAvailable(before, user) + before.accounts[user].topUp
            - if user == before.reservations[k].user then after.usage[|before.usage|].charged else 0
  {
    hide PlanAvailable;
    PlanFollowsUsage(before, after, after.usage[|before.usage|], user);
  }

  /** What a settlement that commits does. */
  lemma SettleMoves(db: Db, user: UserId, operation: OperationId, charged: int)
    requires Books(db) && Settle(db, user, operation, charged).Committed?
    ensures var after := Settle(db, user, operation, charged).db;
            var k := Row(db.reservations, user, operation);
            if k < |db.reservations| && db.reservations[k].status.Active?
            then SettledFor(Register(db, user), after, k, charged)
            else OnlyRegistered(db, after, user)
  {
    hide Books, Settle, Settles, Collect, BillFor, SettledFor;
    RegisterMoves(db, user);
    RegisterKeepsBooks(db, user);
    SettleIsCollect(db, user, operation, charged);
    if Collects(db, user, operation, charged) {
      CollectMoves(Register(db, user), Row(db.reservations, user, operation), charged);
    }
  }

  /** The end of a run is recorded together with its settlement. */
  lemma FinishMoves(db: Db, run: RunId, charged: int)
    requires Inv(db) && run in db.runs && FinishRun(db, run, charged).Committed?
    ensures var after := FinishRun(db, run, charged).db;
            var user := db.runs[run].user;
            var over := db.(runs := db.runs[run := Run(user, Terminal, charged)]);
            var k := Row(db.reservations, user, "run:" + run);
            && after.runs == over.runs
            && if k < |db.reservations| && db.reservations[k].status.Active?
               then SettledFor(Register(over, user), after, k, charged)
               else OnlyRegistered(over, after, user)
  {
    hide Inv, Settle, Books, SettledFor;
    FinishedRunIsSettled(db, run, charged);
    var user := db.runs[run].user;
    var over := db.(runs := db.runs[run := Run(user, Terminal, charged)]);
    SettleMoves(over, user, RunOperation(run), charged);
    SettleLeavesRuns(over, user, RunOperation(run), charged);
  }

  lemma SettleLeavesRuns(db: Db, user: UserId, operation: OperationId, charged: int)
    ensures Outcome(db, Settle(db, user, operation, charged)).runs == db.runs
  {
  }

  /** A run begins together with its reservation, or not at all. */
  lemma StartMoves(db: Db, user: UserId, run: RunId, amount: nat)
    requires UsageInTime(db)
    ensures var (after, reply) := StartRun(db, user, run, amount);
            var created := db.(runs := db.runs[run := Run(user, Live, 0)]);
            match reply
            case Granted => run !in db.runs && HeldFor(created, after, user, "run:" + run, Some(run), amount)
            case Existing => run !in db.runs && OnlyRegistered(created, after, user)
            case _ => after == db
    ensures run in db.runs ==> StartRun(db, user, run, amount).1.Conflict?
  {
    hide UsageInTime, HeldFor, OnlyRegistered, Reserve;
    var created := db.(runs := db.runs[run := Run(user, Live, 0)]);
    SameUsageInTime(db, created);
    ReserveMoves(created, user, RunOperation(run), Some(run), amount);
  }

  /** A plan that is assigned counts for exactly its days, and a default plan
      for those of the policy. */
  lemma PlanLastsItsDays(db: Db, user: UserId, days: nat, later: nat)
    requires db.now <= later
    ensures PlanActive(AssignPlan(db, user, days).(now := later), user) <==> later < db.now + days * 86_400
    ensures user !in db.enrollments ==>
              (PlanActive(Register(db, user).(now := later), user) <==> later < db.now + db.policy.planDays * 86_400)
    ensures user in db.enrollments ==>
              PlanActive(Register(db, user).(now := later), user) == PlanActive(db.(now := later), user)
    ensures var after := AssignPlan(db, user, days);
            && after.accounts == db.accounts[user := AccountOf(db, user)]
            && after == db.(accounts := after.accounts, enrollments := after.enrollments)
            && forall other :: other in db.enrollments && other != user ==>
                 other in after.enrollments && after.enrollments[other] == db.enrollments[other]
  {
    assert user in db.accounts ==> db.accounts[user := db.accounts[user]] == db.accounts;
  }

  // --- whole runs ---------------------------------------------------------------------------

  /** What this step pays in for a user: a top-up counts if its key is new. */
  function PaidIn(db: Db, step: Step, user: UserId): nat {
    match step
    case TopUpCredits(payer, amount, key) =>
      if payer == user && forall k :: 0 <= k < |db.ledger| ==> db.ledger[k].key != key then amount else 0
    case _ => 0
  }

  function AllPaidIn(now: nat, policy: Policy, steps: seq<Step>, user: UserId): nat {
    if steps == [] then 0
    else
      var last := |steps| - 1;
      AllPaidIn(now, policy, steps[..last], user) + PaidIn(After(Fresh(now, policy), steps[..last]), steps[last], user)
  }

  lemma RegisterPaysNothing(db: Db, user: UserId, other: UserId)
    ensures Sum(Register(db, other).ledger, ToppedUpBy(user)) == Sum(db.ledger, ToppedUpBy(user))
  {
  }

  lemma HoldPaysNothing(db: Db, user: UserId, operation: OperationId, run: Option<RunId>, amount: nat, other: UserId)
    ensures Sum(Reserve(db, user, operation, run, amount).0.ledger, ToppedUpBy(other))
         == Sum(db.ledger, ToppedUpBy(other))
  {
    hide Available;
    var d := Register(db, user);
    var entry := Entry(user, ReserveEntry, 0, d.accounts[user].topUp, ReserveKey(operation));
    SumAppend(db.ledger, entry, ToppedUpBy(other));
  }

  lemma SettlePaysNothing(db: Db, user: UserId, operation: OperationId, charged: int, other: UserId)
    requires Books(db)
    ensures Sum(Outcome(db, Settle(db, user, operation, charged)).ledger, ToppedUpBy(other))
         == Sum(db.ledger, ToppedUpBy(other))
  {
    hide Books, Settle, Settles, Collect, BillFor;
    RegisterKeepsBooks(db, user);
    SettleIsCollect(db, user, operation, charged);
    if Collects(db, user, operation, charged) {
      var d, k := Register(db, user), Row(db.reservations, user, operation);
      var bill := BillFor(d, user, d.reservations[k].amount, charged);
      CollectSums(d, k, bill, ToppedUpBy(other));
    }
  }

  lemma {:induction false} RepairPaysNothing(db: Db, order: seq<RunId>, user: UserId)
    requires Books(db)
    ensures Sum(Outcome(db, SettleRuns(db, order)).ledger, ToppedUpBy(user)) == Sum(db.ledger, ToppedUpBy(user))
  {
    hide Books, Settle;
    if order != [] && SettleRuns(db, order).Committed? {
      var front := order[..|order| - 1];
      RepairPaysNothing(db, front, user);
      RepairKeepsBooks(db, front);
      var before, run := SettleRuns(db, front).db, order[|order| - 1];
      if run in before.runs {
        SettlePaysNothing(before, before.runs[run].user, RunOperation(run), before.runs[run].charged, user);
      }
    }
  }

  lemma FinishPaysNothing(db: Db, run: RunId, charged: int, user: UserId)
    requires Inv(db)
    ensures Sum(Outcome(db, FinishRun(db, run, charged)).ledger, ToppedUpBy(user)) == Sum(db.ledger, ToppedUpBy(user))
  {
    hide Inv, Settle, Books;
    if run in db.runs {
      FinishedRunIsSettled(db, run, charged);
      var owner := db.runs[run].user;
      var over := db.(runs := db.runs[run := Run(owner, Terminal, charged)]);
      SettlePaysNothing(over, owner, RunOperation(run), charged, user);
    }
  }

  lemma StepPaysIn(db: Db, step: Step, user: UserId)
    requires Inv(db)
    ensures Sum(Next(db, step).ledger, ToppedUpBy(user)) == Sum(db.ledger, ToppedUpBy(user)) + PaidIn(db, step, user)
  {
    hide Conserved, Known, OncePerOperation, UsageInTime, KeysExplained, RunningTotals, RunsMatch;
    hide Reserve, Settle, SettleRuns, FinishRun, TopUp;
    match step
    case TopUpCredits(payer, amount, key) =>
      TopUpMoves(db, payer, amount, key);
      SumAppend(db.ledger, Entry(payer, TopUpEntry, amount, AccountOf(db, payer).topUp + amount, key),
          ToppedUpBy(user));
    case BeginRun(other, run, amount) =>
      HoldPaysNothing(db.(runs := db.runs[run := Run(other, Live, 0)]), other, RunOperation(run), Some(run), amount,
          user);
    case ReserveOperation(other, id, amount) => HoldPaysNothing(db, other, NamedOperation(id), None, amount, user);
    case SettleOperation(other, id, charged) => SettlePaysNothing(db, other, NamedOperation(id), charged, user);
    case SettleRun(other, run, charged) => SettlePaysNothing(db, other, RunOperation(run), charged, user);
    case EndRun(run, charged) => FinishPaysNothing(db, run, charged, user);
    case Repair(order) => RepairPaysNothing(db, order, user);
    case _ =>
  }

  lemma {:induction false} LedgerRecordsPayments(now: nat, policy: Policy, steps: seq<Step>, user: UserId)
    ensures Sum(After(Fresh(now, policy), steps).ledger, ToppedUpBy(user)) == AllPaidIn(now, policy, steps, user)
  {
    hide Next, Inv, PaidIn;
    if steps != [] {
      var front := steps[..|steps| - 1];
      LedgerRecordsPayments(now, policy, front, user);
      RunKeepsInv(now, policy, front);
      StepPaysIn(After(Fresh(now, policy), front), steps[|steps| - 1], user);
    }
  }

  /** In every run, what a user has left of top-ups and what of them was used up
      are together what was paid in under new keys. */
  lemma TopUpsAreWhatWasPaidIn(now: nat, policy: Policy, steps: seq<Step>, user: UserId)
    ensures var db := After(Fresh(now, policy), steps);
            && AccountOf(db, user).topUp + Sum(db.usage, TopUpSpentBy(user)) == AllPaidIn(now, policy, steps, user)
            && AccountOf(db, user).topUp >= 0
  {
    hide After, AllPaidIn, OncePerOperation, UsageInTime, KeysExplained, RunningTotals, RunsMatch;
    RunKeepsInv(now, policy, steps);
    LedgerRecordsPayments(now, policy, steps, user);
    var db := After(Fresh(now, policy), steps);
    if user in db.accounts {
      ConservedFor(db, user);
    } else {
      StrangersOweNothing(db, user);
    }
  }

  // --- what a repair charges ----------------------------------------------------------------

  /** A run that the repair has not come to keeps its reservation. */
  lemma {:induction false} RepairLeavesOthers(db: Db, order: seq<RunId>, k: nat)
    requires Books(db) && RunsNamed(db) && SettleRuns(db, order).Committed?
    requires k < |db.reservations| && db.reservations[k].run.Some? && db.reservations[k].run.value !in order
    ensures var after := SettleRuns(db, order).db;
            && |after.reservations| == |db.reservations| && after.reservations[k] == db.reservations[k]
            && after.runs == db.runs && Books(after) && RunsNamed(after)
  {
    hide Books, Settle, RunsNamed, SettledFor;
    RepairSettlesAll(db, order);
    if order != [] {
      var last := |order| - 1;
      RepairLeavesOthers(db, order[..last], k);
      var before, run := SettleRuns(db, order[..last]).db, order[last];
      if run in before.runs {
        var user := before.runs[run].user;
        SettleMoves(before, user, RunOperation(run), before.runs[run].charged);
        SettledRow(before, SettleRuns(db, order).db, user, RunOperation(run), before.runs[run].charged);
        OtherRunOtherRow(before, k, run);
      }
    }
  }

  lemma SettledRow(before: Db, after: Db, user: UserId, operation: OperationId, charged: int)
    requires Books(before) && Settle(before, user, operation, charged) == Committed(after)
    ensures var k := Row(before.reservations, user, operation);
            && |after.reservations| == |before.reservations|
            && (forall i :: 0 <= i < |before.reservations| && i != k ==>
                after.reservations[i] == before.reservations[i])
            && |before.usage| <= |after.usage|
            && (forall i :: 0 <= i < |before.usage| ==> after.usage[i] == before.usage[i])
  {
    hide Books, Settle;
    SettleMoves(before, user, operation, charged);
  }

  lemma OtherRunOtherRow(db: Db, k: nat, run: RunId)
    requires RunsNamed(db) && k < |db.reservations| && db.reservations[k].run.Some?
    requires db.reservations[k].run.value != run
    requires run in db.runs
    ensures Row(db.reservations, db.runs[run].user, RunOperation(run)) != k
  {
    RunOperationsDiffer(db.reservations[k].run.value, run);
  }

  lemma RunOperationsDiffer(one: RunId, other: RunId)
    ensures RunOperation(one) == RunOperation(other) ==> one == other
  {
    assert RunOperation(one)[4..] == one && RunOperation(other)[4..] == other;
  }

  /** The usage records this charge for the operation. */
  ghost predicate Charged(db: Db, operation: OperationId, amount: int) {
    exists j :: 0 <= j < |db.usage| && db.usage[j].operation == operation && db.usage[j].charged == amount
  }

  /** Whoever is solvent pays the repair exactly what the run had recorded, cut
      to what was reserved for it. */
  lemma {:induction false} RepairCharges(db: Db, order: seq<RunId>, k: nat)
    requires Books(db) && RunsNamed(db) && SettleRuns(db, order).Committed?
    requires k < |db.reservations| && db.reservations[k].status.Active?
    requires db.reservations[k].run.Some? && db.reservations[k].run.value in order
    requires Covered(db, db.reservations[k].user)
    ensures var r := db.reservations[k];
            r.run.value in db.runs
            && Charged(SettleRuns(db, order).db, r.operation, Max(0, Min(r.amount, db.runs[r.run.value].charged)))
  {
    hide Books, Settle, RunsNamed, Charged, SettledFor, Covered;
    var r, last := db.reservations[k], |order| - 1;
    var before, run := SettleRuns(db, order[..last]).db, order[last];
    assert order == order[..last] + [run];
    RepairSettlesAll(db, order[..last]);
    if r.run.value in order[..last] {
      RepairCharges(db, order[..last], k);
      if run in before.runs {
        SettledRow(before, SettleRuns(db, order).db, before.runs[run].user, RunOperation(run),
            before.runs[run].charged);
        ChargeStays(before, SettleRuns(db, order).db, r.operation, Max(0, Min(r.amount, db.runs[r.run.value].charged)));
      }
    } else {
      RepairLeavesOthers(db, order[..last], k);
      RepairKeepsSolvent(db, order[..last], r.user);
      LastRunCharged(before, k);
    }
  }

  lemma ChargeStays(before: Db, after: Db, operation: OperationId, amount: int)
    requires Charged(before, operation, amount) && |before.usage| <= |after.usage|
    requires forall i :: 0 <= i < |before.usage| ==> after.usage[i] == before.usage[i]
    ensures Charged(after, operation, amount)
  {
    var j :| 0 <= j < |before.usage| && before.usage[j].operation == operation && before.usage[j].charged == amount;
    assert after.usage[j] == before.usage[j];
  }

  lemma LastRunCharged(db: Db, k: nat)
    requires Books(db) && RunsNamed(db) && k < |db.reservations| && db.reservations[k].status.Active?
    requires db.reservations[k].run.Some? && Covered(db, db.reservations[k].user)
    ensures var r := db.reservations[k];
            && r.run.value in db.runs && r.user == db.runs[r.run.value].user
            && var done := Settle(db, r.user, RunOperation(r.run.value), db.runs[r.run.value].charged);
               done.Committed? ==> Charged(done.db, r.operation, Max(0, Min(r.amount, db.runs[r.run.value].charged)))
  {
    hide Conserved, UsageInTime, KeysExplained, RunningTotals, Settle, SettledFor, Charged, PlanAvailable;
    var r := db.reservations[k];
    var charged := db.runs[r.run.value].charged;
    OnlyRow(db, k);
    if Settle(db, r.user, r.operation, charged).Committed? {
      SettleMoves(db, r.user, r.operation, charged);
      HeldCovers(db, k);
      RegisterKeepsSolvent(db, r.user, r.user);
      SolventIsCharged(Register(db, r.user), Settle(db, r.user, r.operation, charged).db, k, charged);
    }
  }

  lemma SolventIsCharged(before: Db, after: Db, k: nat, charged: int)
    requires k < |before.reservations| && before.reservations[k].user in before.accounts
    requires SettledFor(before, after, k, charged) && Solvent(before, before.reservations[k].user)
    requires before.reservations[k].amount <= before.accounts[before.reservations[k].user].reserved
    ensures Charged(after, before.reservations[k].operation, Max(0, Min(before.reservations[k].amount, charged)))
  {
    hide PlanAvailable;
    assert after.usage[|before.usage|].operation == before.reservations[k].operation;
  }
}
