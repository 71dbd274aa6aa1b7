/** Conservation: what every transaction of the billing code keeps. */
module CreditSafety {
  import opened Basics
  import opened CreditTables
  import opened CreditLedger

  // --- registering --------------------------------------------------------------------------

  lemma StrangersOweNothing(db: Db, user: UserId)
    requires Known(db) && user !in db.accounts
    ensures Sum(db.reservations, HeldBy(user)) == 0
    ensures Sum(db.ledger, DeltaOf(user)) == 0 && Sum(db.ledger, ToppedUpBy(user)) == 0
    ensures Sum(db.usage, TopUpSpentBy(user)) == 0
  {
    SumIsZero(db.reservations, HeldBy(user));
    SumIsZero(db.ledger, DeltaOf(user));
    SumIsZero(db.ledger, ToppedUpBy(user));
    SumIsZero(db.usage, TopUpSpentBy(user));
  }

  /** Nothing was reserved, settled or entered. */
  predicate SameRows(before: Db, after: Db) {
    && after.reservations == before.reservations && after.usage == before.usage && after.ledger == before.ledger
    && DayOf(before.now) <= DayOf(after.now)
  }

  lemma MoreAccountsKeepInv(before: Db, after: Db, user: UserId)
    requires Inv(before) && SameRows(before, after) && after.runs == before.runs
    requires after.accounts
          == if user in before.accounts then before.accounts else before.accounts[user := Account(0, 0)]
    ensures Inv(after)
  {
    hide AccountAdds, KeyExplained, ReservationOf, RunMatches, RunningTotals, KeysExplained;
    NewAccountAdds(before, after, user);
    SameRowsSameKeys(before, after);
    SameReservations(before, after);
  }

  lemma SameReservations(before: Db, after: Db)
    requires OncePerOperation(before) && RunsMatch(before) && SameRows(before, after) && after.runs == before.runs
    ensures OncePerOperation(after) && RunsMatch(after)
  {
  }

  lemma NewAccountAdds(before: Db, after: Db, user: UserId)
    requires Conserved(before) && Known(before) && SameRows(before, after)
    requires after.accounts
          == if user in before.accounts then before.accounts else before.accounts[user := Account(0, 0)]
    ensures Conserved(after)
  {
    if user !in before.accounts {
      StrangersOweNothing(before, user);
    }
    forall other | other in after.accounts ensures AccountAdds(after, other) {
      if other in before.accounts {
        assert AccountAdds(before, other);
      }
    }
  }

  lemma SameRowsSameKeys(before: Db, after: Db)
    requires KeysExplained(before) && SameRows(before, after)
    ensures KeysExplained(after)
  {
    forall k | 0 <= k < |after.ledger| ensures KeyExplained(after, after.ledger[k]) {
      ExplanationStays(before, after, after.ledger[k]);
    }
  }

  lemma ExplanationStays(before: Db, after: Db, entry: Entry)
    requires KeyExplained(before, entry)
    requires forall operation :: OperationTaken(before, operation) ==> OperationTaken(after, operation)
    requires forall operation :: ReservationOf(before, operation, Settled) ==> ReservationOf(after, operation, Settled)
    ensures KeyExplained(after, entry)
  {
  }

  lemma RegisterKeepsInv(db: Db, user: UserId)
    requires Inv(db)
    ensures Inv(Register(db, user))
  {
    MoreAccountsKeepInv(db, Register(db, user), user);
  }

  // --- appending to the ledger --------------------------------------------------------------

  lemma TotalsAppend(ledger: seq<Entry>, entry: Entry)
    requires RunningTotals(ledger)
    requires entry.topUpAfter == Sum(ledger, DeltaOf(entry.user)) + entry.delta && entry.topUpAfter >= 0
    ensures RunningTotals(ledger + [entry])
  {
    var more := ledger + [entry];
    forall k | 0 <= k < |more|
      ensures more[k].topUpAfter == Sum(more[..k + 1], DeltaOf(more[k].user)) && more[k].topUpAfter >= 0
    {
      if k < |ledger| {
        assert more[..k + 1] == ledger[..k + 1];
      } else {
        assert more[..k + 1] == more;
        SumAppend(ledger, entry, DeltaOf(entry.user));
      }
    }
  }

  lemma KeyAppends(db: Db, after: Db, entry: Entry)
    requires KeysExplained(db) && !KeyTaken(db, entry.key)
    requires after.ledger == db.ledger + [entry] && KeyExplained(after, entry)
    requires forall operation :: OperationTaken(db, operation) ==> OperationTaken(after, operation)
    requires forall operation :: ReservationOf(db, operation, Settled) ==> ReservationOf(after, operation, Settled)
    ensures KeysExplained(after)
  {
    forall k | 0 <= k < |after.ledger| ensures KeyExplained(after, after.ledger[k]) {
      if k < |db.ledger| {
        ExplanationStays(db, after, db.ledger[k]);
      }
    }
    forall i, j | 0 <= i < j < |after.ledger| ensures after.ledger[i].key != after.ledger[j].key {
      assert i < |db.ledger| && after.ledger[i] == db.ledger[i];
    }
  }

  // --- topping up ---------------------------------------------------------------------------

  lemma TopUpConserves(d: Db, user: UserId, amount: nat, key: string)
    requires Conserved(d) && user in d.accounts && user in d.enrollments && !KeyTaken(d, key)
    ensures Conserved(TopUp(d, user, amount, key))
  {
    var after := TopUp(d, user, amount, key);
    var entry := after.ledger[|d.ledger|];
    forall other | other in after.accounts ensures AccountAdds(after, other) {
      assert AccountAdds(d, other);
      SumAppend(d.ledger, entry, DeltaOf(other));
      SumAppend(d.ledger, entry, ToppedUpBy(other));
    }
  }

  lemma TopUpRegistersFirst(db: Db, user: UserId, amount: nat, key: string)
    ensures TopUp(db, user, amount, key) == TopUp(Register(db, user), user, amount, key)
  {
    assert Register(Register(db, user), user) == Register(db, user);
  }

  lemma TopUpKeepsInv(db: Db, user: UserId, amount: nat, key: string)
    requires Inv(db)
    ensures Inv(TopUp(db, user, amount, key))
  {
    hide Conserved, AccountAdds, KeyExplained, RunningTotals, KeysExplained, KeyTaken, UsageInTime;
    var d, after := Register(db, user), TopUp(db, user, amount, key);
    RegisterKeepsInv(db, user);
    TopUpRegistersFirst(db, user, amount, key);
    if !KeyTaken(d, key) {
      var entry := after.ledger[|d.ledger|];
      AccountFollowsLedger(d, user);
      TotalsAppend(d.ledger, entry);
      assert KeyExplained(after, entry) by {
        TopUpsNeedNoReason(after, entry);
      }
      KeyAppends(d, after, entry);
      TopUpConserves(d, user, amount, key);
      SameUsageInTime(d, after);
    }
  }

  lemma AccountFollowsLedger(db: Db, user: UserId)
    requires Conserved(db) && user in db.accounts
    ensures db.accounts[user].topUp == Sum(db.ledger, DeltaOf(user)) && db.accounts[user].topUp >= 0
  {
    assert AccountAdds(db, user);
  }

  lemma TopUpsNeedNoReason(db: Db, entry: Entry)
    requires entry.kind.TopUpEntry?
    ensures KeyExplained(db, entry)
  {
  }

  // --- reserving ----------------------------------------------------------------------------

  lemma HoldConserves(d: Db, user: UserId, operation: OperationId, run: Option<RunId>, amount: nat)
    requires Conserved(d) && user in d.accounts
    ensures Conserved(Hold(d, user, operation, run, amount))
  {
    var after := Hold(d, user, operation, run, amount);
    var row, entry := after.reservations[|d.reservations|], after.ledger[|d.ledger|];
    forall other | other in after.accounts ensures AccountAdds(after, other) {
      assert AccountAdds(d, other);
      SumAppend(d.reservations, row, HeldBy(other));
      SumAppend(d.ledger, entry, DeltaOf(other));
      SumAppend(d.ledger, entry, ToppedUpBy(other));
    }
  }

  lemma HoldAddsRows(d: Db, user: UserId, operation: OperationId, run: Option<RunId>, amount: nat)
    requires user in d.accounts
    ensures var after := Hold(d, user, operation, run, amount);
            && OperationTaken(after, operation)
            && (forall other :: OperationTaken(d, other) ==> OperationTaken(after, other))
            && (forall other, status :: ReservationOf(d, other, status) ==> ReservationOf(after, other, status))
  {
    var after := Hold(d, user, operation, run, amount);
    assert after.reservations[|d.reservations|].operation == operation;
    forall other | OperationTaken(d, other) ensures OperationTaken(after, other) {
      var k :| 0 <= k < |d.reservations| && d.reservations[k].operation == other;
      assert after.reservations[k] == d.reservations[k];
    }
    forall other, status | ReservationOf(d, other, status) ensures ReservationOf(after, other, status) {
      var k :| 0 <= k < |d.reservations| && d.reservations[k].operation == other && d.reservations[k].status == status;
      assert after.reservations[k] == d.reservations[k];
    }
  }

  lemma HoldKeepsInv(d: Db, user: UserId, operation: OperationId, run: Option<RunId>, amount: nat)
    requires Inv(d) && user in d.accounts && !OperationTaken(d, operation) && !KeyTaken(d, ReserveKey(operation))
    requires run.Some? ==> RunMatches(d, Reservation(operation, user, run, amount, Active))
    ensures Inv(Hold(d, user, operation, run, amount))
  {
    hide Conserved, OperationTaken, ReservationOf, KeysExplained, UsageInTime;
    var after := Hold(d, user, operation, run, amount);
    var entry := after.ledger[|d.ledger|];
    HoldConserves(d, user, operation, run, amount);
    HoldAddsRows(d, user, operation, run, amount);
    assert AccountAdds(d, user) by {
      ConservedFor(d, user);
    }
    TotalsAppend(d.ledger, entry);
    KeyAppends(d, after, entry);
    OperationsStayDistinct(d, after, operation);
    SameUsageInTime(d, after);
  }

  lemma ConservedFor(db: Db, user: UserId)
    requires Conserved(db) && user in db.accounts
    ensures AccountAdds(db, user)
  {
  }

  lemma SameUsageInTime(before: Db, after: Db)
    requires UsageInTime(before) && after.usage == before.usage && DayOf(before.now) <= DayOf(after.now)
    ensures UsageInTime(after)
  {
  }

  lemma OperationsStayDistinct(before: Db, after: Db, operation: OperationId)
    requires OncePerOperation(before) && !OperationTaken(before, operation) && after.usage == before.usage
    requires |after.reservations| == |before.reservations| + 1
    requires after.reservations[..|before.reservations|] == before.reservations
    requires after.reservations[|before.reservations|].operation == operation
    requires after.reservations[|before.reservations|].status.Active?
    requires forall other, status :: ReservationOf(before, other, status) ==> ReservationOf(after, other, status)
    ensures OncePerOperation(after)
  {
    forall k | 0 <= k < |before.reservations| ensures after.reservations[k] == before.reservations[k] {
      assert after.reservations[..|before.reservations|][k] == before.reservations[k];
    }
    forall k | 0 <= k < |after.reservations| && after.reservations[k].status.Settled?
      ensures UsageTaken(after, after.reservations[k].operation)
    {
      assert UsageTaken(before, before.reservations[k].operation);
    }
  }

  lemma ReserveKeepsInv(db: Db, user: UserId, operation: OperationId, run: Option<RunId>, amount: nat)
    requires Inv(db)
    requires run.Some? ==> RunMatches(db, Reservation(operation, user, run, amount, Active))
    ensures Inv(Reserve(db, user, operation, run, amount).0)
  {
    hide Inv;
    RegisterKeepsInv(db, user);
    var d := Register(db, user);
    if Reserve(db, user, operation, run, amount).1.Granted? {
      HoldKeepsInv(d, user, operation, run, amount);
    }
  }

  // --- settling -----------------------------------------------------------------------------

  lemma BillIsFair(d: Db, user: UserId, amount: nat, charged: int)
    requires user in d.accounts && d.accounts[user].topUp >= 0
    ensures var bill := BillFor(d, user, amount, charged);
            && 0 <= bill.plan <= bill.actual <= amount
            && 0 <= bill.topUp <= bill.actual - bill.plan && bill.topUp <= d.accounts[user].topUp
  {
  }

  /** An account holds at least every one of its active reservations, so taking
      one back never falls below zero. */
  lemma HeldCovers(db: Db, k: nat)
    requires Conserved(db) && Known(db) && k < |db.reservations| && db.reservations[k].status.Active?
    ensures db.reservations[k].amount <= db.accounts[db.reservations[k].user].reserved
  {
    var user := db.reservations[k].user;
    assert AccountAdds(db, user);
    SumCovers(db.reservations, k, HeldBy(user));
  }

  /** The bill that settles a reservation. */
  predicate Settles(d: Db, k: nat, bill: Bill) {
    && k < |d.reservations| && d.reservations[k].status.Active? && d.reservations[k].user in d.accounts
    && 0 <= bill.plan <= bill.actual <= d.reservations[k].amount
    && 0 <= bill.topUp <= bill.actual - bill.plan && bill.topUp <= d.accounts[d.reservations[k].user].topUp
    && !SettleConflicts(d, d.reservations[k], bill)
  }

  function SettleRow(d: Db, k: nat, bill: Bill): Entry
    requires Settles(d, k, bill)
  {
    var r := d.reservations[k];
    Entry(r.user, SettleEntry, -bill.topUp, d.accounts[r.user].topUp - bill.topUp, SettleKey(r.operation))
  }

  function ReleaseRow(d: Db, k: nat, bill: Bill): Entry
    requires Settles(d, k, bill)
  {
    var r := d.reservations[k];
    Entry(r.user, ReleaseEntry, 0, d.accounts[r.user].topUp - bill.topUp, ReleaseKey(r.operation))
  }

  lemma CollectLedger(d: Db, k: nat, bill: Bill)
    requires Settles(d, k, bill)
    ensures Collect(d, k, bill).ledger
         == if bill.actual < d.reservations[k].amount then d.ledger + [SettleRow(d, k, bill)] + [ReleaseRow(d, k, bill)]
            else d.ledger + [SettleRow(d, k, bill)]
  {
    assert d.ledger + [SettleRow(d, k, bill)] + [] == d.ledger + [SettleRow(d, k, bill)];
  }

  /** What a settlement adds to the ledger sums of any user. */
  lemma CollectSums(d: Db, k: nat, bill: Bill, amount: Entry -> int)
    requires Settles(d, k, bill) && amount(ReleaseRow(d, k, bill)) == 0
    ensures Sum(Collect(d, k, bill).ledger, amount) == Sum(d.ledger, amount) + amount(SettleRow(d, k, bill))
  {
    CollectLedger(d, k, bill);
    SumAppend(d.ledger, SettleRow(d, k, bill), amount);
    SumAppend(d.ledger + [SettleRow(d, k, bill)], ReleaseRow(d, k, bill), amount);
  }

  lemma CollectConserves(d: Db, k: nat, bill: Bill)
    requires Conserved(d) && Known(d) && Settles(d, k, bill)
    ensures Conserved(Collect(d, k, bill))
  {
    HeldCovers(d, k);
    forall other | other in Collect(d, k, bill).accounts ensures AccountAdds(Collect(d, k, bill), other) {
      ConservedFor(d, other);
      CollectAdds(d, k, bill, other);
    }
  }

  lemma CollectAdds(d: Db, k: nat, bill: Bill, user: UserId)
    requires Settles(d, k, bill) && user in d.accounts && AccountAdds(d, user)
    requires d.reservations[k].amount <= d.accounts[d.reservations[k].user].reserved
    ensures AccountAdds(Collect(d, k, bill), user)
  {
    hide SettleConflicts;
    var r, after := d.reservations[k], Collect(d, k, bill);
    SumUpdate(d.reservations, k, r.(status := Settled), HeldBy(user));
    SumAppend(d.usage, after.usage[|d.usage|], TopUpSpentBy(user));
    CollectSums(d, k, bill, DeltaOf(user));
    CollectSums(d, k, bill, ToppedUpBy(user));
  }

  lemma CollectMovesRows(d: Db, k: nat, bill: Bill)
    requires Settles(d, k, bill)
    ensures var after := Collect(d, k, bill);
            && (forall other :: OperationTaken(d, other) ==> OperationTaken(after, other))
            && (forall other :: ReservationOf(d, other, Settled) ==> ReservationOf(after, other, Settled))
            && ReservationOf(after, d.reservations[k].operation, Settled)
  {
    var after := Collect(d, k, bill);
    assert after.reservations[k].operation == d.reservations[k].operation;
    forall other | OperationTaken(d, other) ensures OperationTaken(after, other) {
      var i :| 0 <= i < |d.reservations| && d.reservations[i].operation == other;
      assert after.reservations[i].operation == other;
    }
    forall other | ReservationOf(d, other, Settled) ensures ReservationOf(after, other, Settled) {
      var i :| 0 <= i < |d.reservations| && d.reservations[i].operation == other && d.reservations[i].status == Settled;
      assert after.reservations[i] == d.reservations[i];
    }
  }

  lemma CollectSettlesOnce(d: Db, k: nat, bill: Bill)
    requires OncePerOperation(d) && Settles(d, k, bill)
    ensures OncePerOperation(Collect(d, k, bill))
  {
    var after := Collect(d, k, bill);
    CollectMovesRows(d, k, bill);
    assert after.usage[|d.usage|].operation == d.reservations[k].operation;
    forall i | 0 <= i < |after.reservations| && after.reservations[i].status.Settled?
      ensures UsageTaken(after, after.reservations[i].operation)
    {
      if i != k {
        assert UsageTaken(d, d.reservations[i].operation);
        var u :| 0 <= u < |d.usage| && d.usage[u].operation == d.reservations[i].operation;
        assert after.usage[u] == d.usage[u];
      }
    }
    forall i | 0 <= i < |after.usage| ensures ReservationOf(after, after.usage[i].operation, Settled) {
      if i < |d.usage| {
        assert after.usage[i] == d.usage[i];
      }
    }
  }

  lemma CollectExplainsKeys(d: Db, k: nat, bill: Bill)
    requires KeysExplained(d) && Settles(d, k, bill)
    ensures KeysExplained(Collect(d, k, bill))
  {
    hide OperationTaken, ReservationOf, KeysExplained;
    var operation, after := d.reservations[k].operation, Collect(d, k, bill);
    CollectLedger(d, k, bill);
    CollectMovesRows(d, k, bill);
    var settled := after.(ledger := d.ledger + [SettleRow(d, k, bill)]);
    SameReservationsSameOperations(settled, after);
    KeyAppends(d, settled, SettleRow(d, k, bill));
    if bill.actual < d.reservations[k].amount {
      KeysDiffer(operation, operation);
      assert !KeyTaken(settled, ReleaseKey(operation)) by {
        NotTakenByAppend(d, settled, SettleRow(d, k, bill), ReleaseKey(operation));
      }
      KeyAppends(settled, after, ReleaseRow(d, k, bill));
    }
  }

  lemma SameReservationsSameOperations(one: Db, other: Db)
    requires one.reservations == other.reservations
    ensures forall operation :: OperationTaken(one, operation) <==> OperationTaken(other, operation)
    ensures forall operation, status ::
              ReservationOf(one, operation, status) <==> ReservationOf(other, operation, status)
  {
  }

  lemma NotTakenByAppend(d: Db, after: Db, entry: Entry, key: string)
    requires !KeyTaken(d, key) && entry.key != key && after.ledger == d.ledger + [entry]
    ensures !KeyTaken(after, key)
  {
    forall k | 0 <= k < |after.ledger| ensures after.ledger[k].key != key {
      if k < |d.ledger| {
        assert d.ledger[k].key != key;
      }
    }
  }

  lemma CollectTotals(d: Db, k: nat, bill: Bill)
    requires RunningTotals(d.ledger) && Conserved(d) && Settles(d, k, bill)
    ensures RunningTotals(Collect(d, k, bill).ledger)
  {
    var user := d.reservations[k].user;
    CollectLedger(d, k, bill);
    ConservedFor(d, user);
    TotalsAppend(d.ledger, SettleRow(d, k, bill));
    SumAppend(d.ledger, SettleRow(d, k, bill), DeltaOf(user));
    if bill.actual < d.reservations[k].amount {
      TotalsAppend(d.ledger + [SettleRow(d, k, bill)], ReleaseRow(d, k, bill));
    }
  }

  /** The runs' part of the invariant, with one run left out. */
  ghost predicate OtherRunsMatch(db: Db, k: nat) {
    && (forall i :: 0 <= i < |db.reservations| && db.reservations[i].run.Some? && i != k ==>
        RunMatches(db, db.reservations[i]))
    && (k < |db.reservations| && db.reservations[k].run.Some? ==>
        RunMatches(db, db.reservations[k].(status := Settled)))
  }

  lemma CollectMatchesRuns(d: Db, k: nat, bill: Bill)
    requires OtherRunsMatch(d, k) && Settles(d, k, bill)
    ensures RunsMatch(Collect(d, k, bill))
  {
    var after := Collect(d, k, bill);
    forall i | 0 <= i < |after.reservations| && after.reservations[i].run.Some?
      ensures RunMatches(after, after.reservations[i])
    {
      if i != k {
        assert after.reservations[i] == d.reservations[i];
      }
    }
  }

  lemma CollectKnowsUsers(d: Db, k: nat, bill: Bill)
    requires Known(d) && UsageInTime(d) && Settles(d, k, bill)
    ensures Known(Collect(d, k, bill)) && UsageInTime(Collect(d, k, bill))
  {
  }

  /** Everything but the match of runs. */
  ghost predicate Books(db: Db) {
    && Conserved(db) && Known(db) && OncePerOperation(db) && UsageInTime(db) && KeysExplained(db)
    && RunningTotals(db.ledger)
  }

  lemma CollectKeepsBooks(d: Db, k: nat, bill: Bill)
    requires Books(d) && Settles(d, k, bill)
    ensures Books(Collect(d, k, bill))
  {
    hide Conserved, Known, OncePerOperation, UsageInTime, KeysExplained, RunningTotals, Settles, Collect;
    CollectConserves(d, k, bill);
    CollectKnowsUsers(d, k, bill);
    CollectSettlesOnce(d, k, bill);
    CollectExplainsKeys(d, k, bill);
    CollectTotals(d, k, bill);
  }

  lemma RegisterKeepsBooks(db: Db, user: UserId)
    requires Books(db)
    ensures Books(Register(db, user))
  {
    hide AccountAdds, KeyExplained, RunningTotals, KeysExplained, OncePerOperation;
    NewAccountAdds(db, Register(db, user), user);
    SameRowsSameKeys(db, Register(db, user));
    SameReservationsOnce(db, Register(db, user));
  }

  /** The settlement found an active reservation and no conflict. */
  predicate Collects(db: Db, user: UserId, operation: OperationId, charged: int) {
    var k := Row(db.reservations, user, operation);
    && k < |db.reservations| && db.reservations[k].status.Active?
    && Settle(db, user, operation, charged).Committed?
  }

  lemma SettleIsCollect(db: Db, user: UserId, operation: OperationId, charged: int)
    requires Books(db)
    ensures var d := Register(db, user);
            var k := Row(db.reservations, user, operation);
            if Collects(db, user, operation, charged) then
              var bill := BillFor(d, user, d.reservations[k].amount, charged);
              Settles(d, k, bill) && Settle(db, user, operation, charged) == Committed(Collect(d, k, bill))
            else
              Settle(db, user, operation, charged).Committed? ==>
                && Settle(db, user, operation, charged).db == d
                && (k == |db.reservations| || db.reservations[k].status.Settled?)
  {
    hide Conserved, Known, OncePerOperation, UsageInTime, KeysExplained, RunningTotals, SettleConflicts, Collect,
      PlanAvailable;
    RegisterKeepsBooks(db, user);
    var d := Register(db, user);
    ConservedFor(d, user);
    if Collects(db, user, operation, charged) {
      BillIsFair(d, user, d.reservations[Row(db.reservations, user, operation)].amount, charged);
    }
  }

  lemma SettleKeepsBooks(db: Db, user: UserId, operation: OperationId, charged: int)
    requires Books(db) && Settle(db, user, operation, charged).Committed?
    ensures Books(Settle(db, user, operation, charged).db)
  {
    hide Books, Settle, Collect, Settles;
    RegisterKeepsBooks(db, user);
    SettleIsCollect(db, user, operation, charged);
    if Collects(db, user, operation, charged) {
      var d, k := Register(db, user), Row(db.reservations, user, operation);
      CollectKeepsBooks(d, k, BillFor(d, user, d.reservations[k].amount, charged));
    }
  }

  lemma SettleMatchesRuns(db: Db, user: UserId, operation: OperationId, charged: int)
    requires Books(db) && Settle(db, user, operation, charged).Committed?
    requires OtherRunsMatch(db, Row(db.reservations, user, operation))
    ensures RunsMatch(Settle(db, user, operation, charged).db)
  {
    hide Books, Settle, Collect, Settles;
    SettleIsCollect(db, user, operation, charged);
    var d, k := Register(db, user), Row(db.reservations, user, operation);
    if Collects(db, user, operation, charged) {
      CollectMatchesRuns(d, k, BillFor(d, user, d.reservations[k].amount, charged));
    } else if k < |db.reservations| {
      assert db.reservations[k].(status := Settled) == db.reservations[k];
    }
  }

  lemma MatchingRunsMatch(db: Db, k: nat)
    requires RunsMatch(db)
    ensures OtherRunsMatch(db, k)
  {
  }

  lemma SettleKeepsInv(db: Db, user: UserId, operation: OperationId, charged: int)
    requires Inv(db) && Settle(db, user, operation, charged).Committed?
    ensures Inv(Settle(db, user, operation, charged).db)
  {
    hide Settle;
    SettleKeepsBooks(db, user, operation, charged);
    MatchingRunsMatch(db, Row(db.reservations, user, operation));
    SettleMatchesRuns(db, user, operation, charged);
  }

  /** The run that ends takes its reservation along. */
  lemma FinishedRunIsSettled(db: Db, run: RunId, charged: int)
    requires Inv(db) && run in db.runs
    ensures var user := db.runs[run].user;
            var over := db.(runs := db.runs[run := Run(user, Terminal, charged)]);
            Books(over) && OtherRunsMatch(over, Row(over.reservations, user, RunOperation(run)))
  {
    hide AccountAdds, KeyExplained, RunningTotals, KeysExplained, Conserved;
    var user := db.runs[run].user;
    var over := db.(runs := db.runs[run := Run(user, Terminal, charged)]);
    SameRowsSameKeys(db, over);
    SameReservationsOnce(db, over);
    SameSums(db, over);
    var k := Row(over.reservations, user, RunOperation(run));
    forall i | 0 <= i < |over.reservations| && over.reservations[i].run.Some?
      ensures i != k ==> RunMatches(over, over.reservations[i])
      ensures i == k ==> RunMatches(over, over.reservations[i].(status := Settled))
    {
      assert RunMatches(db, db.reservations[i]);
      if over.reservations[i].run.value == run && i != k {
        assert false;
      }
    }
  }

  lemma SameSums(before: Db, after: Db)
    requires Conserved(before) && SameRows(before, after) && after.accounts == before.accounts
    ensures Conserved(after)
  {
    forall user | user in after.accounts ensures AccountAdds(after, user) {
      assert AccountAdds(before, user);
    }
  }

  lemma SameReservationsOnce(before: Db, after: Db)
    requires OncePerOperation(before) && SameRows(before, after)
    ensures OncePerOperation(after)
  {
  }

  lemma FinishRunKeepsInv(db: Db, run: RunId, charged: int)
    requires Inv(db) && FinishRun(db, run, charged).Committed?
    ensures Inv(FinishRun(db, run, charged).db)
  {
    hide Inv, Settle;
    if run in db.runs {
      var user := db.runs[run].user;
      var over := db.(runs := db.runs[run := Run(user, Terminal, charged)]);
      FinishedRunIsSettled(db, run, charged);
      SettleKeepsBooks(over, user, RunOperation(run), charged);
      SettleMatchesRuns(over, user, RunOperation(run), charged);
      BooksAndRuns(FinishRun(db, run, charged).db);
    }
  }

  lemma BooksAndRuns(db: Db)
    ensures Inv(db) <==> Books(db) && RunsMatch(db)
  {
  }

  lemma StartRunKeepsInv(db: Db, user: UserId, run: RunId, amount: nat)
    requires Inv(db)
    ensures Inv(StartRun(db, user, run, amount).0)
  {
    if run !in db.runs {
      var created := db.(runs := db.runs[run := Run(user, Live, 0)]);
      assert Inv(created) by {
        NewRunKeepsInv(db, created, run);
      }
      ReserveKeepsInv(created, user, RunOperation(run), Some(run), amount);
    }
  }

  lemma NewRunKeepsInv(db: Db, after: Db, run: RunId)
    requires Inv(db) && (run in db.runs ==> run in after.runs && after.runs[run].user == db.runs[run].user)
    requires run in after.runs && after.runs[run].status.Live? && after == db.(runs := db.runs[run := after.runs[run]])
    ensures Inv(after)
  {
    hide AccountAdds, KeyExplained, RunningTotals, KeysExplained, OncePerOperation;
    SameSums(db, after);
    SameRowsSameKeys(db, after);
    SameReservationsOnce(db, after);
    forall i | 0 <= i < |after.reservations| && after.reservations[i].run.Some?
      ensures RunMatches(after, after.reservations[i])
    {
      assert RunMatches(db, db.reservations[i]);
    }
  }
}
