/** The billing tables, sums over their rows, and the calendar of the quotas. */
module CreditTables {
  import opened Basics

  type UserId = string
  type RunId = string
  type OperationId = string

  datatype Policy = Policy(daily: nat, weekly: nat, planDays: nat)

  datatype Account = Account(topUp: int, reserved: int)

  datatype Enrollment = Enrollment(startsAt: nat, endsAt: nat)

  datatype ReservationStatus = Active | Settled

  datatype Reservation = Reservation(
    operation: OperationId, user: UserId, run: Option<RunId>, amount: nat, status: ReservationStatus)

  datatype Usage = Usage(operation: OperationId, user: UserId, day: int, week: int, charged: int, plan: int, topUp: int)

  datatype Kind = TopUpEntry | ReserveEntry | SettleEntry | ReleaseEntry

  datatype Entry = Entry(user: UserId, kind: Kind, delta: int, topUpAfter: int, key: string)

  datatype RunStatus = Live | Terminal

  datatype Run = Run(user: UserId, status: RunStatus, charged: int)

  /** The rows that concern credits, and the clock in seconds. */
  datatype Db = Db(
    now: nat,
    policy: Policy,
    accounts: map<UserId, Account>,
    enrollments: map<UserId, Enrollment>,
    reservations: seq<Reservation>,
    usage: seq<Usage>,
    ledger: seq<Entry>,
    runs: map<RunId, Run>)

  // --- sums ---------------------------------------------------------------------------------

  function Sum<T>(rows: seq<T>, amount: T -> int): int {
    if rows == [] then 0 else Sum(rows[..|rows| - 1], amount) + amount(rows[|rows| - 1])
  }

  lemma SumAppend<T>(rows: seq<T>, row: T, amount: T -> int)
    ensures Sum(rows + [row], amount) == Sum(rows, amount) + amount(row)
  {
    assert (rows + [row])[..|rows|] == rows;
  }

  lemma {:induction false} SumUpdate<T>(rows: seq<T>, k: nat, row: T, amount: T -> int)
    requires k < |rows|
    ensures Sum(rows[k := row], amount) == Sum(rows, amount) - amount(rows[k]) + amount(row)
  {
    var last := |rows| - 1;
    if k < last {
      SumUpdate(rows[..last], k, row, amount);
      assert rows[k := row][..last] == rows[..last][k := row];
    } else {
      assert rows[k := row][..last] == rows[..last];
    }
  }

  lemma {:induction false} SumIsNonNegative<T>(rows: seq<T>, amount: T -> int)
    requires forall k :: 0 <= k < |rows| ==> amount(rows[k]) >= 0
    ensures Sum(rows, amount) >= 0
  {
    if rows != [] {
      SumIsNonNegative(rows[..|rows| - 1], amount);
    }
  }

  lemma {:induction false} SumCovers<T>(rows: seq<T>, k: nat, amount: T -> int)
    requires k < |rows| && forall i :: 0 <= i < |rows| ==> amount(rows[i]) >= 0
    ensures amount(rows[k]) <= Sum(rows, amount)
  {
    var last := |rows| - 1;
    if k < last {
      SumCovers(rows[..last], k, amount);
    } else {
      SumIsNonNegative(rows[..last], amount);
    }
  }

  lemma {:induction false} SumIsZero<T>(rows: seq<T>, amount: T -> int)
    requires forall k :: 0 <= k < |rows| ==> amount(rows[k]) == 0
    ensures Sum(rows, amount) == 0
  {
    if rows != [] {
      SumIsZero(rows[..|rows| - 1], amount);
    }
  }

  function HeldBy(user: UserId): Reservation -> int {
    (r: Reservation) => if r.user == user && r.status.Active? then r.amount else 0
  }

  function DeltaOf(user: UserId): Entry -> int {
    (e: Entry) => if e.user == user then e.delta else 0
  }

  function ToppedUpBy(user: UserId): Entry -> int {
    (e: Entry) => if e.user == user && e.kind.TopUpEntry? then e.delta else 0
  }

  function TopUpSpentBy(user: UserId): Usage -> int {
    (u: Usage) => if u.user == user then u.topUp else 0
  }

  function PlanSpentOn(user: UserId, day: int): Usage -> int {
    (u: Usage) => if u.user == user && u.day == day then u.plan else 0
  }

  function PlanSpentIn(user: UserId, week: int): Usage -> int {
    (u: Usage) => if u.user == user && u.week == week then u.plan else 0
  }

  // --- the calendar -------------------------------------------------------------------------

  const DAY_SECONDS: nat := 86_400

  /** Days are counted from a Thursday. */
  function DayOf(now: nat): (day: nat)
    ensures day * 86_400 <= now < (day + 1) * 86_400
  {
    now / DAY_SECONDS
  }

  /** Monday is 1 and Sunday is 7. */
  function Weekday(day: int): int {
    var weekday := (day + 4) % 7;
    if weekday == 0 then 7 else weekday
  }

  /** The Monday a day's week is named after. */
  function WeekOf(day: int): int { day - Weekday(day) + 1 }

  /** Two days share a week key exactly when they lie in the same seven days
      that begin on a Monday; one of them is 5 January 1970, day 4. */
  lemma WeekIsMondayToSunday(day: int, other: int)
    ensures Weekday(WeekOf(day)) == 1 && WeekOf(4) == 4
    ensures WeekOf(other) == WeekOf(day) <==> WeekOf(day) <= other < WeekOf(day) + 7
  {
  }

  lemma WeeksFollowDays(day: int, later: int)
    requires day <= later
    ensures WeekOf(day) <= WeekOf(later)
  {
  }

  lemma DaysFollowClock(now: nat, later: nat)
    requires now <= later
    ensures DayOf(now) <= DayOf(later)
  {
  }

  // --- keys ---------------------------------------------------------------------------------

  function RunOperation(run: RunId): OperationId { "run:" + run }

  function NamedOperation(id: string): OperationId { "operation:" + id }

  function ReserveKey(operation: OperationId): string { operation + ":reserve" }

  function SettleKey(operation: OperationId): string { operation + ":settle" }

  function ReleaseKey(operation: OperationId): string { operation + ":release" }

  /** Keys of one kind name their operation, and keys of two kinds never meet. */
  lemma KeysDiffer(one: OperationId, other: OperationId)
    ensures ReserveKey(one) == ReserveKey(other) ==> one == other
    ensures SettleKey(one) == SettleKey(other) ==> one == other
    ensures ReleaseKey(one) == ReleaseKey(other) ==> one == other
    ensures ReserveKey(one) != SettleKey(other) && ReserveKey(one) != ReleaseKey(other)
    ensures SettleKey(one) != ReleaseKey(other)
  {
    var n, m := |one|, |other|;
    if ReserveKey(one) == ReserveKey(other) {
      assert ReserveKey(one)[..n] == one && ReserveKey(other)[..m] == other;
    }
    if SettleKey(one) == SettleKey(other) {
      assert SettleKey(one)[..n] == one && SettleKey(other)[..m] == other;
    }
    if ReleaseKey(one) == ReleaseKey(other) {
      assert ReleaseKey(one)[..n] == one && ReleaseKey(other)[..m] == other;
    }
    assert ReserveKey(one)[n + 7] == 'e' && ReserveKey(one)[n + 6] == 'v' && ReserveKey(one)[n + 4] == 'e';
    assert SettleKey(other)[m + 6] == 'e' && SettleKey(other)[m + 5] == 'l';
    assert SettleKey(one)[n + 6] == 'e' && SettleKey(one)[n + 5] == 'l';
    assert ReleaseKey(other)[m + 7] == 'e' && ReleaseKey(other)[m + 6] == 's';
  }
}
