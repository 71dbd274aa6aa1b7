/** The billing transactions as they are carried out on the tables, statement by
    statement; a violated constraint rolls everything back. */
module CreditDatabase {
  import opened Basics
  import opened CreditLedger
  import opened CreditMovements
  import opened CreditProtocol
  import opened CreditSafety
  import opened CreditTables

  /** The runs that are over and still hold credits, as the repair lists them. */
  function StrandedRuns(db: Db, count: nat): (order: seq<RunId>)
    requires count <= |db.reservations|
    ensures forall run :: run in order <==>
              run in db.runs && db.runs[run].status.Terminal?
              && exists k :: 0 <= k < count && db.reservations[k].run == Some(run) && db.reservations[k].status.Active?
  {
    if count == 0 then []
    else
      var r := db.reservations[count - 1];
      StrandedRuns(db, count - 1)
      + if r.status.Active? && r.run.Some? && r.run.value in db.runs && db.runs[r.run.value].status.Terminal?
        then [r.run.value] else []
  }

  class BillingTables {
    var now: nat
    var policy: Policy
    var accounts: map<UserId, Account>
    var enrollments: map<UserId, Enrollment>
    var reservations: seq<Reservation>
    var usage: seq<Usage>
    var ledger: seq<Entry>
    var runs: map<RunId, Run>

    function Contents(): Db
      reads this
    {
      Db(now, policy, accounts, enrollments, reservations, usage, ledger, runs)
    }

    constructor (now: nat, policy: Policy)
      ensures Contents() == Fresh(now, policy)
    {
      this.now, this.policy, accounts, enrollments := now, policy, map[], map[];
      reservations, usage, ledger, runs := [], [], [], map[];
    }

    method Rollback(db: Db)
      modifies this
      ensures Contents() == db
    {
      now, policy, accounts, enrollments := db.now, db.policy, db.accounts, db.enrollments;
      reservations, usage, ledger, runs := db.reservations, db.usage, db.ledger, db.runs;
    }

    /** The key column is unique. */
    method InsertLedger(entry: Entry) returns (conflict: bool)
      modifies this`ledger
      ensures conflict == KeyTaken(old(Contents()), entry.key)
      ensures ledger == if conflict then old(ledger) else old(ledger) + [entry]
    {
      conflict := KeyTaken(Contents(), entry.key);
      if !conflict {
        ledger := ledger + [entry];
      }
    }

    method EnsureBillingState(user: UserId)
      modifies this`accounts, this`enrollments
      ensures Contents() == Register(old(Contents()), user)
    {
      if user !in accounts {
        accounts := accounts[user := Account(0, 0)];
      }
      if user !in enrollments {
        enrollments := enrollments[user := Enrollment(now, now + policy.planDays * DAY_SECONDS)];
      }
    }

    method GetAiCreditBalance(user: UserId) returns (available: int)
      modifies this`accounts, this`enrollments
      ensures Contents() == Register(old(Contents()), user)
      ensures available == Available(Contents(), user)
    {
      EnsureBillingState(user);
      var account, enrollment := accounts[user], enrollments[user];
      var active := enrollment.startsAt <= now < enrollment.endsAt;
      var day := DayOf(now);
      var daily, weekly := Sum(usage, PlanSpentOn(user, day)), Sum(usage, PlanSpentIn(user, WeekOf(day)));
      var dailyRemaining := Max(0, (if active then policy.daily else 0) - daily);
      var weeklyRemaining := Max(0, (if active then policy.weekly else 0) - weekly);
      available := Max(0, Min(dailyRemaining, weeklyRemaining) + account.topUp - account.reserved);
    }

    method TopUpAiCredits(user: UserId, amount: nat, key: string)
      modifies this
      ensures Contents() == TopUp(old(Contents()), user, amount, key)
      ensures if exists k :: 0 <= k < |old(ledger)| && old(ledger)[k].key == key
              then OnlyRegistered(old(Contents()), Contents(), user)
              else ToppedUp(old(Contents()), Contents(), user, amount, key)
    {
      TopUpMoves(Contents(), user, amount, key);
      EnsureBillingState(user);
      if KeyTaken(Contents(), key) {
        return;
      }
      accounts := accounts[user := accounts[user].(topUp := accounts[user].topUp + amount)];
      var conflict := InsertLedger(Entry(user, TopUpEntry, amount, accounts[user].topUp, key));
    }

    method ReserveCredits(user: UserId, operation: OperationId, run: Option<RunId>, amount: nat) returns (reply: Reply)
      modifies this
      ensures (Contents(), reply) == Reserve(old(Contents()), user, operation, run, amount)
    {
      var begin := Contents();
      EnsureBillingState(user);
      if OperationTaken(Contents(), operation) {
        return Existing;
      }
      var available := GetAiCreditBalance(user);
      if available < amount {
        return Refused;
      }
      reservations := reservations + [Reservation(operation, user, run, amount, Active)];
      accounts := accounts[user := accounts[user].(reserved := accounts[user].reserved + amount)];
      var conflict := InsertLedger(Entry(user, ReserveEntry, 0, accounts[user].topUp, ReserveKey(operation)));
      if conflict {
        Rollback(begin);
        return Conflict;
      }
      reply := Granted;
    }

    /** How much of a charge falls on the plan and how much on the top-up. */
    method SplitCharge(user: UserId, amount: nat, charged: int) returns (bill: Bill)
      requires user in accounts && user in enrollments
      ensures bill == BillFor(Contents(), user, amount, charged)
    {
      var actual := Max(0, Min(amount, charged));
      var day := DayOf(now);
      var daily, weekly := Sum(usage, PlanSpentOn(user, day)), Sum(usage, PlanSpentIn(user, WeekOf(day)));
      var active := enrollments[user].startsAt <= now < enrollments[user].endsAt;
      var planAvailable := if active then Max(0, Min(policy.daily - daily, policy.weekly - weekly)) else 0;
      var planCharge := Min(actual, planAvailable);
      var topUpCharge := actual - planCharge;
      bill := Bill(actual, planCharge, Min(topUpCharge, accounts[user].topUp));
    }

    /** The rows a settlement inserts. */
    method InsertSettlement(r: Reservation, bill: Bill, topUpAfter: int) returns (conflict: bool)
      modifies this`usage, this`ledger
      ensures conflict == SettleConflicts(old(Contents()), r, bill)
      ensures !conflict ==>
                && usage == old(usage) + [Usage(r.operation, r.user, DayOf(now), WeekOf(DayOf(now)),
                                                bill.plan + bill.topUp, bill.plan, bill.topUp)]
                && ledger == old(ledger)
                             + [Entry(r.user, SettleEntry, -bill.topUp, topUpAfter, SettleKey(r.operation))]
                             + if bill.actual < r.amount
                               then [Entry(r.user, ReleaseEntry, 0, topUpAfter, ReleaseKey(r.operation))] else []
    {
      hide UsageTaken, KeyTaken, DayOf, WeekOf;
      ghost var d := Contents();
      conflict := UsageTaken(Contents(), r.operation);
      if conflict {
        return;
      }
      var day := DayOf(now);
      usage := usage + [Usage(r.operation, r.user, day, WeekOf(day), bill.plan + bill.topUp, bill.plan, bill.topUp)];
      SameLedger(d, Contents());
      conflict := InsertLedger(Entry(r.user, SettleEntry, -bill.topUp, topUpAfter, SettleKey(r.operation)));
      if !conflict && bill.actual < r.amount {
        KeysDiffer(r.operation, r.operation);
        ReleaseKeyStaysFree(d, Contents(), r.operation);
        conflict := InsertLedger(Entry(r.user, ReleaseEntry, 0, topUpAfter, ReleaseKey(r.operation)));
      }
    }

    /** Pays for an operation out of the plan and the top-up, and takes its
        reservation back. */
    method SettleCredits(user: UserId, operation: OperationId, charged: int) returns (aborted: bool)
      modifies this
      ensures aborted == Settle(old(Contents()), user, operation, charged).Aborted?
      ensures Contents() == Outcome(old(Contents()), Settle(old(Contents()), user, operation, charged))
    {
      hide SettleConflicts, BillFor, Collect;
      var begin := Contents();
      EnsureBillingState(user);
      var k := Row(reservations, user, operation);
      if k == |reservations| || !reservations[k].status.Active? {
        return false;
      }
      var bill := SplitCharge(user, reservations[k].amount, charged);
      aborted := CollectReservation(k, bill);
      if aborted {
        Rollback(begin);
      }
    }

    /** The updates of a settlement; a conflict leaves them half done. */
    method CollectReservation(k: nat, bill: Bill) returns (conflict: bool)
      requires k < |reservations| && reservations[k].user in accounts
      modifies this
      ensures conflict == SettleConflicts(old(Contents()), old(reservations)[k], bill)
      ensures !conflict ==> Contents() == Collect(old(Contents()), k, bill)
    {
      hide SettleConflicts, DayOf, WeekOf;
      ghost var d := Contents();
      var r := reservations[k];
      var account := accounts[r.user];
      var topUpAfter := account.topUp - bill.topUp;
      accounts := accounts[r.user := Account(topUpAfter, Max(0, account.reserved - r.amount))];
      reservations := reservations[k := r.(status := Settled)];
      SameConflicts(d, Contents(), r, bill);
      conflict := InsertSettlement(r, bill, topUpAfter);
    }

    method FinishAndSettleAiRun(run: RunId, charged: int) returns (aborted: bool)
      modifies this
      ensures aborted == FinishRun(old(Contents()), run, charged).Aborted?
      ensures Contents() == Outcome(old(Contents()), FinishRun(old(Contents()), run, charged))
    {
      if run !in runs {
        return false;
      }
      var begin := Contents();
      var user := runs[run].user;
      runs := runs[run := Run(user, Terminal, charged)];
      aborted := SettleCredits(user, RunOperation(run), charged);
      if aborted {
        Rollback(begin);
      }
    }

    /** Settles every run that is over and still holds credits, or none. */
    method SettleTerminalAiReservations() returns (repaired: Option<nat>)
      modifies this
      ensures var order := StrandedRuns(old(Contents()), |old(reservations)|);
              && Contents() == Outcome(old(Contents()), SettleRuns(old(Contents()), order))
              && repaired == if SettleRuns(old(Contents()), order).Committed? then Some(|order|) else None
      ensures repaired.Some? && Books(old(Contents())) && RunsNamed(old(Contents())) ==>
                forall run :: !Stranded(Contents(), run)
    {
      hide Settle, Books, RunsNamed, Stranded;
      var begin := Contents();
      var order := StrandedRuns(begin, |reservations|);
      for i := 0 to |order|
        invariant SettleRuns(begin, order[..i]) == Committed(Contents()) && runs == begin.runs
      {
        assert order[..i + 1][..i] == order[..i];
        var row := runs[order[i]];
        SettleLeavesRuns(Contents(), row.user, RunOperation(order[i]), row.charged);
        var aborted := SettleCredits(row.user, RunOperation(order[i]), row.charged);
        if aborted {
          AbortStays(begin, order, i + 1);
          Rollback(begin);
          return None;
        }
      }
      assert order[..|order|] == order;
      if Books(begin) && RunsNamed(begin) {
        NobodyLeftStranded(begin);
      }
      repaired := Some(|order|);
    }

    method AssignAiPlan(user: UserId, days: nat)
      modifies this`accounts, this`enrollments
      ensures Contents() == AssignPlan(old(Contents()), user, days)
    {
      if user !in accounts {
        accounts := accounts[user := Account(0, 0)];
      }
      enrollments := enrollments[user := Enrollment(now, now + days * DAY_SECONDS)];
    }

    method UpdateAiBillingPolicy(next: Policy)
      modifies this`policy
      ensures Contents() == old(Contents()).(policy := next)
    {
      policy := next;
    }
  }

  lemma SameLedger(one: Db, other: Db)
    ensures one.ledger == other.ledger ==> forall key :: KeyTaken(one, key) <==> KeyTaken(other, key)
    ensures one.usage == other.usage ==>
              forall operation :: UsageTaken(one, operation) <==> UsageTaken(other, operation)
  {
  }

  lemma SameConflicts(one: Db, other: Db, r: Reservation, bill: Bill)
    requires one.ledger == other.ledger && one.usage == other.usage
    ensures SettleConflicts(one, r, bill) == SettleConflicts(other, r, bill)
  {
    SameLedger(one, other);
  }

  lemma NobodyLeftStranded(db: Db)
    requires Books(db) && RunsNamed(db)
    requires SettleRuns(db, StrandedRuns(db, |db.reservations|)).Committed?
    ensures forall run :: !Stranded(SettleRuns(db, StrandedRuns(db, |db.reservations|)).db, run)
  {
    hide Books, RunsNamed, Stranded, SettleRuns;
    RepairSettlesAll(db, StrandedRuns(db, |db.reservations|));
    EveryStrandedIsListed(db);
  }

  lemma ReleaseKeyStaysFree(d: Db, after: Db, operation: OperationId)
    requires |after.ledger| == |d.ledger| + 1 && after.ledger[..|d.ledger|] == d.ledger
    requires after.ledger[|d.ledger|].key == SettleKey(operation) && SettleKey(operation) != ReleaseKey(operation)
    ensures KeyTaken(after, ReleaseKey(operation)) <==> KeyTaken(d, ReleaseKey(operation))
  {
    assert forall k :: 0 <= k < |d.ledger| ==> after.ledger[..|d.ledger|][k] == after.ledger[k];
  }

  lemma {:induction false} AbortStays(db: Db, order: seq<RunId>, count: nat)
    requires count <= |order| && SettleRuns(db, order[..count]).Aborted?
    ensures SettleRuns(db, order).Aborted?
    decreases |order|
  {
    if count < |order| {
      assert order[..|order| - 1][..count] == order[..count];
      AbortStays(db, order[..|order| - 1], count);
    } else {
      assert order[..count] == order;
    }
  }

  lemma EveryStrandedIsListed(db: Db)
    ensures forall run :: Stranded(db, run) ==> run in StrandedRuns(db, |db.reservations|)
  {
  }
}
