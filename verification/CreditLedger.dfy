/** What each transaction of the billing code does to the tables, as functions
    on values. A transaction that violates a constraint of the schema changes
    nothing. */
module CreditLedger {
  import opened Basics
  import opened CreditTables

  datatype Transaction = Committed(db: Db) | Aborted

  /** Creates the account and the default plan of a user who has none. */
  function Register(db: Db, user: UserId): (after: Db)
    ensures user in after.accounts && user in after.enrollments
  {
    db.(accounts := if user in db.accounts then db.accounts else db.accounts[user := Account(0, 0)],
        enrollments :=
          if user in db.enrollments then db.enrollments
          else db.enrollments[user := Enrollment(db.now, db.now + db.policy.planDays * DAY_SECONDS)])
  }

  predicate PlanActive(db: Db, user: UserId) {
    user in db.enrollments && db.enrollments[user].startsAt <= db.now < db.enrollments[user].endsAt
  }

  function SpentToday(db: Db, user: UserId): int { Sum(db.usage, PlanSpentOn(user, DayOf(db.now))) }

  function SpentThisWeek(db: Db, user: UserId): int { Sum(db.usage, PlanSpentIn(user, WeekOf(DayOf(db.now)))) }

  function PlanAvailable(db: Db, user: UserId): (available: int)
    ensures available >= 0
  {
    if PlanActive(db, user)
    then Max(0, Min(db.policy.daily - SpentToday(db, user), db.policy.weekly - SpentThisWeek(db, user)))
    else 0
  }

  /** The balance's `available`, in micros. */
  function Available(db: Db, user: UserId): int
    requires user in db.accounts
  {
    var dailyAllowance := if PlanActive(db, user) then db.policy.daily else 0;
    var weeklyAllowance := if PlanActive(db, user) then db.policy.weekly else 0;
    var dailyRemaining := Max(0, dailyAllowance - SpentToday(db, user));
    var weeklyRemaining := Max(0, weeklyAllowance - SpentThisWeek(db, user));
    Max(0, Min(dailyRemaining, weeklyRemaining) + db.accounts[user].topUp - db.accounts[user].reserved)
  }

  predicate KeyTaken(db: Db, key: string) { exists k :: 0 <= k < |db.ledger| && db.ledger[k].key == key }

  predicate OperationTaken(db: Db, operation: OperationId) {
    exists k :: 0 <= k < |db.reservations| && db.reservations[k].operation == operation
  }

  predicate UsageTaken(db: Db, operation: OperationId) {
    exists k :: 0 <= k < |db.usage| && db.usage[k].operation == operation
  }

  function TopUp(db: Db, user: UserId, amount: nat, key: string): Db {
    var d := Register(db, user);
    if KeyTaken(d, key) then d
    else
      var after := d.accounts[user].topUp + amount;
      d.(accounts := d.accounts[user := d.accounts[user].(topUp := after)],
         ledger := d.ledger + [Entry(user, TopUpEntry, amount, after, key)])
  }

  datatype Reply = Granted | Existing | Refused | Conflict

  function Hold(d: Db, user: UserId, operation: OperationId, run: Option<RunId>, amount: nat): Db
    requires user in d.accounts
  {
    var account := d.accounts[user];
    d.(reservations := d.reservations + [Reservation(operation, user, run, amount, Active)],
       accounts := d.accounts[user := account.(reserved := account.reserved + amount)],
       ledger := d.ledger + [Entry(user, ReserveEntry, 0, account.topUp, ReserveKey(operation))])
  }

  function Reserve(db: Db, user: UserId, operation: OperationId, run: Option<RunId>, amount: nat): (Db, Reply) {
    var d := Register(db, user);
    if OperationTaken(d, operation) then (d, Existing)
    else if Available(d, user) < amount then (d, Refused)
    else if KeyTaken(d, ReserveKey(operation)) then (db, Conflict)
    else (Hold(d, user, operation, run, amount), Granted)
  }

  /** How a settlement is paid. */
  datatype Bill = Bill(actual: int, plan: int, topUp: int)

  function BillFor(d: Db, user: UserId, amount: nat, charged: int): Bill
    requires user in d.accounts
  {
    var actual := Max(0, Min(amount, charged));
    var plan := Min(actual, PlanAvailable(d, user));
    Bill(actual, plan, Min(actual - plan, d.accounts[user].topUp))
  }

  predicate SettleConflicts(d: Db, reservation: Reservation, bill: Bill) {
    || UsageTaken(d, reservation.operation)
    || KeyTaken(d, SettleKey(reservation.operation))
    || (bill.actual < reservation.amount && KeyTaken(d, ReleaseKey(reservation.operation)))
  }

  function Collect(d: Db, k: nat, bill: Bill): Db
    requires k < |d.reservations| && d.reservations[k].user in d.accounts
  {
    var r := d.reservations[k];
    var account := d.accounts[r.user];
    var after := account.topUp - bill.topUp;
    d.(accounts := d.accounts[r.user := Account(after, Max(0, account.reserved - r.amount))],
       reservations := d.reservations[k := r.(status := Settled)],
       usage := d.usage + [Usage(r.operation, r.user, DayOf(d.now), WeekOf(DayOf(d.now)),
                                 bill.plan + bill.topUp, bill.plan, bill.topUp)],
       ledger := d.ledger
                 + [Entry(r.user, SettleEntry, -bill.topUp, after, SettleKey(r.operation))]
                 + if bill.actual < r.amount
                   then [Entry(r.user, ReleaseEntry, 0, after, ReleaseKey(r.operation))] else [])
  }

  /** The row of an operation and user, or the number of rows. */
  function Row(rows: seq<Reservation>, user: UserId, operation: OperationId): (k: nat)
    ensures k <= |rows|
    ensures k < |rows| ==> rows[k].operation == operation && rows[k].user == user
    ensures forall j :: 0 <= j < k ==> rows[j].operation != operation || rows[j].user != user
  {
    if rows == [] then 0
    else if rows[0].operation == operation && rows[0].user == user then 0
    else
      assert forall j :: 1 <= j < |rows| ==> rows[j] == rows[1..][j - 1];
      1 + Row(rows[1..], user, operation)
  }

  function Settle(db: Db, user: UserId, operation: OperationId, charged: int): Transaction {
    var d := Register(db, user);
    var k := Row(d.reservations, user, operation);
    if k == |d.reservations| || !d.reservations[k].status.Active? then Committed(d)
    else
      var bill := BillFor(d, user, d.reservations[k].amount, charged);
      if SettleConflicts(d, d.reservations[k], bill) then Aborted else Committed(Collect(d, k, bill))
  }

  /** A run is created together with its reservation, or not at all. */
  function StartRun(db: Db, user: UserId, run: RunId, amount: nat): (Db, Reply) {
    if run in db.runs then (db, Conflict)
    else
      var created := db.(runs := db.runs[run := Run(user, Live, 0)]);
      var (after, reply) := Reserve(created, user, RunOperation(run), Some(run), amount);
      if reply.Granted? || reply.Existing? then (after, reply) else (db, reply)
  }

  /** A run ends together with its settlement. */
  function FinishRun(db: Db, run: RunId, charged: int): Transaction {
    if run !in db.runs then Committed(db)
    else
      var user := db.runs[run].user;
      Settle(db.(runs := db.runs[run := Run(user, Terminal, charged)]), user, RunOperation(run), charged)
  }

  /** This run is over and still holds credits. */
  predicate Stranded(db: Db, run: RunId) {
    && run in db.runs && db.runs[run].status.Terminal?
    && exists k :: 0 <= k < |db.reservations|
                  && db.reservations[k].run == Some(run) && db.reservations[k].status.Active?
  }

  function SettleRuns(db: Db, order: seq<RunId>): Transaction {
    if order == [] then Committed(db)
    else
      var before := SettleRuns(db, order[..|order| - 1]);
      var run := order[|order| - 1];
      if before.Aborted? || run !in before.db.runs then before
      else Settle(before.db, before.db.runs[run].user, RunOperation(run), before.db.runs[run].charged)
  }

  function AssignPlan(db: Db, user: UserId, days: nat): Db {
    db.(accounts := if user in db.accounts then db.accounts else db.accounts[user := Account(0, 0)],
        enrollments := db.enrollments[user := Enrollment(db.now, db.now + days * DAY_SECONDS)])
  }

  // --- the invariant ------------------------------------------------------------------------

  predicate AccountAdds(db: Db, user: UserId)
    requires user in db.accounts
  {
    var account := db.accounts[user];
    && account.topUp >= 0
    && account.reserved == Sum(db.reservations, HeldBy(user))
    && account.topUp == Sum(db.ledger, DeltaOf(user))
    && account.topUp == Sum(db.ledger, ToppedUpBy(user)) - Sum(db.usage, TopUpSpentBy(user))
  }

  /** The conservation laws. */
  ghost predicate Conserved(db: Db) {
    forall user :: user in db.accounts ==> AccountAdds(db, user)
  }

  ghost predicate Known(db: Db) {
    && (forall k :: 0 <= k < |db.reservations| ==> db.reservations[k].user in db.accounts)
    && (forall k :: 0 <= k < |db.usage| ==> db.usage[k].user in db.accounts)
    && (forall k :: 0 <= k < |db.ledger| ==> db.ledger[k].user in db.accounts)
  }

  predicate ReservationOf(db: Db, operation: OperationId, status: ReservationStatus) {
    exists k :: 0 <= k < |db.reservations|
               && db.reservations[k].operation == operation && db.reservations[k].status == status
  }

  /** Operations are reserved once and settled once. */
  ghost predicate OncePerOperation(db: Db) {
    && (forall i, j :: 0 <= i < j < |db.reservations| ==> db.reservations[i].operation != db.reservations[j].operation)
    && (forall i, j :: 0 <= i < j < |db.usage| ==> db.usage[i].operation != db.usage[j].operation)
    && (forall k :: 0 <= k < |db.usage| ==> ReservationOf(db, db.usage[k].operation, Settled))
    && (forall k :: 0 <= k < |db.reservations| && db.reservations[k].status.Settled? ==>
          UsageTaken(db, db.reservations[k].operation))
  }

  /** Rows of usage are well formed and lie in the past. */
  ghost predicate UsageInTime(db: Db) {
    forall k :: 0 <= k < |db.usage| ==>
      var u := db.usage[k];
      && 0 <= u.plan && 0 <= u.topUp && u.charged == u.plan + u.topUp
      && u.day <= DayOf(db.now) && u.week == WeekOf(u.day)
  }

  /** Keys are unique, and every key but a top-up's names what it records. */
  ghost predicate KeysExplained(db: Db) {
    && (forall i, j :: 0 <= i < j < |db.ledger| ==> db.ledger[i].key != db.ledger[j].key)
    && (forall k :: 0 <= k < |db.ledger| ==> KeyExplained(db, db.ledger[k]))
  }

  ghost predicate KeyExplained(db: Db, entry: Entry) {
    match entry.kind
    case TopUpEntry => true
    case ReserveEntry => exists operation :: OperationTaken(db, operation) && entry.key == ReserveKey(operation)
    case SettleEntry => exists operation :: ReservationOf(db, operation, Settled) && entry.key == SettleKey(operation)
    case ReleaseEntry => exists operation :: ReservationOf(db, operation, Settled) && entry.key == ReleaseKey(operation)
  }

  /** Every entry records the user's top-up credit after it. */
  ghost predicate RunningTotals(ledger: seq<Entry>) {
    forall k :: 0 <= k < |ledger| ==>
      ledger[k].topUpAfter == Sum(ledger[..k + 1], DeltaOf(ledger[k].user)) && ledger[k].topUpAfter >= 0
  }

  /** A reservation for a run belongs to the run's user, and a run that is over
      holds nothing. */
  ghost predicate RunsMatch(db: Db) {
    forall k :: 0 <= k < |db.reservations| && db.reservations[k].run.Some? ==> RunMatches(db, db.reservations[k])
  }

  predicate RunMatches(db: Db, r: Reservation)
    requires r.run.Some?
  {
    && r.operation == RunOperation(r.run.value)
    && r.run.value in db.runs && db.runs[r.run.value].user == r.user
    && (db.runs[r.run.value].status.Terminal? ==> r.status.Settled?)
  }

  ghost predicate Inv(db: Db) {
    && Conserved(db) && Known(db) && OncePerOperation(db) && UsageInTime(db)
    && KeysExplained(db) && RunningTotals(db.ledger) && RunsMatch(db)
  }
}
