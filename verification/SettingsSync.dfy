/** One user setting shared by several devices: the latest device time wins on
    the server, and every device keeps the server's version and at most one
    proposal of its own. */
module SettingsSync {
  import opened Basics

  datatype Version = Version(value: string, updatedAt: nat)

  /** A canonical base and at most one local proposal. */
  datatype Assignment = Assignment(base: Version, proposal: Option<Version>)

  datatype Resolved = Resolved(value: string, updatedAt: nat, pending: bool)

  // --- a device -----------------------------------------------------------------------------

  function NextTimestamp(previous: nat, now: nat): nat { Max(now, previous + 1) }

  function Resolve(assignment: Assignment): Resolved {
    if assignment.proposal.Some? && assignment.proposal.value.updatedAt > assignment.base.updatedAt
    then Resolved(assignment.proposal.value.value, assignment.proposal.value.updatedAt, true)
    else Resolved(assignment.base.value, assignment.base.updatedAt, false)
  }

  function Reconcile(current: Option<Assignment>, remote: Version): Assignment {
    if current.None? || current.value.proposal.None? || current.value.proposal.value.updatedAt <= remote.updatedAt
    then Assignment(remote, None)
    else Assignment(remote, current.value.proposal)
  }

  function Propose(current: Option<Assignment>, value: string, now: nat): Assignment {
    var previous :=
      if current.None? then 0
      else
        var proposed := if current.value.proposal.Some? then current.value.proposal.value.updatedAt else 0;
        Max(current.value.base.updatedAt, proposed);
    Assignment(
      if current.Some? then current.value.base else Version(value, 0),
      Some(Version(value, NextTimestamp(previous, now))))
  }

  // --- the server ---------------------------------------------------------------------------

  /** The conditional upsert. */
  function Upsert(row: Option<Version>, version: Version): Option<Version> {
    if row.None? || version.updatedAt >= row.value.updatedAt then Some(version) else row
  }

  function UpsertAll(arrivals: seq<Version>): Option<Version> {
    if arrivals == [] then None else Upsert(UpsertAll(arrivals[..|arrivals| - 1]), arrivals[|arrivals| - 1])
  }

  /** The last arrival among those with the greatest timestamp. */
  ghost predicate LastOfLatest(arrivals: seq<Version>, version: Version) {
    exists k :: IsLastOfLatest(arrivals, k, version)
  }

  ghost predicate IsLastOfLatest(arrivals: seq<Version>, k: int, version: Version) {
    && 0 <= k < |arrivals| && arrivals[k] == version
    && (forall j :: 0 <= j < |arrivals| ==> arrivals[j].updatedAt <= version.updatedAt)
    && (forall j :: k < j < |arrivals| ==> arrivals[j].updatedAt < version.updatedAt)
  }

  /** A version that loses against the latest one changes nothing. */
  lemma LatestStays(arrivals: seq<Version>, version: Version, late: Version)
    requires LastOfLatest(arrivals, version) && late.updatedAt < version.updatedAt
    ensures LastOfLatest(arrivals + [late], version)
  {
    var k :| IsLastOfLatest(arrivals, k, version);
    assert IsLastOfLatest(arrivals + [late], k, version);
  }

  /** A version at least as new as the latest one replaces it. */
  lemma LatestGivesWay(arrivals: seq<Version>, version: Version)
    requires forall j :: 0 <= j < |arrivals| ==> arrivals[j].updatedAt <= version.updatedAt
    ensures LastOfLatest(arrivals + [version], version)
  {
    assert IsLastOfLatest(arrivals + [version], |arrivals|, version);
  }

  lemma {:induction false} ServerKeepsLastOfLatest(arrivals: seq<Version>)
    ensures UpsertAll(arrivals).None? <==> arrivals == []
    ensures arrivals != [] ==> LastOfLatest(arrivals, UpsertAll(arrivals).value)
  {
    if arrivals != [] {
      var front, last := arrivals[..|arrivals| - 1], arrivals[|arrivals| - 1];
      assert arrivals == front + [last];
      ServerKeepsLastOfLatest(front);
      if front == [] || last.updatedAt >= UpsertAll(front).value.updatedAt {
        LatestGivesWay(front, last);
      } else {
        LatestStays(front, UpsertAll(front).value, last);
      }
    }
  }

  // --- all together -------------------------------------------------------------------------

  type Device = nat

  /** `arrivals` are the patches the server has processed; `patches` are under
      way to it; `versions` are all the server ever held and may be under way to
      any device, late and more than once. */
  datatype World = World(
    arrivals: seq<Version>,
    devices: map<Device, Assignment>,
    patches: set<Version>,
    versions: set<Version>)

  const INITIAL: World := World([], map[], {}, {})

  datatype Step =
    | Write(device: Device, value: string, now: nat)
    | Flush(device: Device)
    | Arrive(patch: Version)
    | Learn(device: Device, version: Version)

  function Current(w: World, device: Device): Option<Assignment> {
    if device in w.devices then Some(w.devices[device]) else None
  }

  ghost predicate Next(w: World, step: Step, next: World) {
    match step
    case Write(device, value, now) =>
      next == w.(devices := w.devices[device := Propose(Current(w, device), value, now)])
    case Flush(device) =>
      && device in w.devices && Resolve(w.devices[device]).pending
      && next == w.(patches := w.patches + {w.devices[device].proposal.value})
    case Arrive(patch) =>
      && patch in w.patches
      && next == w.(arrivals := w.arrivals + [patch], versions := w.versions + {UpsertAll(w.arrivals + [patch]).value})
    case Learn(device, version) =>
      && version in w.versions
      && next == w.(devices := w.devices[device := Reconcile(Current(w, device), version)])
  }

  /** A proposal is always newer than the base beside it, and nothing a device
      takes for canonical is newer than the server's row. */
  ghost predicate Inv(w: World) {
    && (forall d :: d in w.devices ==> DeviceSound(w, w.devices[d]))
    && (forall v :: v in w.versions ==>
          UpsertAll(w.arrivals).Some? && v.updatedAt <= UpsertAll(w.arrivals).value.updatedAt)
    && (UpsertAll(w.arrivals).Some? ==> UpsertAll(w.arrivals).value in w.versions)
    && (forall v :: v in w.arrivals ==> v in w.patches)
  }

  ghost predicate DeviceSound(w: World, a: Assignment) {
    && (a.proposal.Some? ==> a.proposal.value.updatedAt > a.base.updatedAt)
    && (a.base in w.versions || (a.base.updatedAt == 0 && a.proposal.Some?))
  }

  lemma UpsertNeverGoesBack(arrivals: seq<Version>, patch: Version)
    ensures UpsertAll(arrivals + [patch]) == Upsert(UpsertAll(arrivals), patch)
    ensures patch.updatedAt <= UpsertAll(arrivals + [patch]).value.updatedAt
    ensures UpsertAll(arrivals).Some? ==>
              UpsertAll(arrivals).value.updatedAt <= UpsertAll(arrivals + [patch]).value.updatedAt
  {
    assert (arrivals + [patch])[..|arrivals|] == arrivals;
  }

  lemma StepKeepsInv(w: World, step: Step, next: World)
    requires Inv(w) && Next(w, step, next)
    ensures Inv(next)
  {
    if step.Arrive? {
      UpsertNeverGoesBack(w.arrivals, step.patch);
    }
  }

  ghost predicate IsRun(worlds: seq<World>, steps: seq<Step>) {
    && |worlds| == |steps| + 1
    && worlds[0] == INITIAL
    && forall i :: 0 <= i < |steps| ==> Next(worlds[i], steps[i], worlds[i + 1])
  }

  lemma {:induction false} RunKeepsInv(worlds: seq<World>, steps: seq<Step>, k: nat)
    requires IsRun(worlds, steps) && k <= |steps|
    ensures Inv(worlds[k])
  {
    hide Inv, Next;
    if k == 0 {
      InitialIsSound();
    } else {
      RunKeepsInv(worlds, steps, k - 1);
      StepKeepsInv(worlds[k - 1], steps[k - 1], worlds[k]);
    }
  }

  lemma InitialIsSound()
    ensures Inv(INITIAL)
  {
  }

  /** The server's timestamp never decreases, and its value is the last arrival
      among those with the greatest timestamp. */
  lemma ServerIsLastOfLatest(worlds: seq<World>, steps: seq<Step>, k: nat)
    requires IsRun(worlds, steps) && k < |steps|
    ensures worlds[k + 1].arrivals != [] ==>
              LastOfLatest(worlds[k + 1].arrivals, UpsertAll(worlds[k + 1].arrivals).value)
    ensures worlds[k].arrivals != [] ==>
              && worlds[k + 1].arrivals != []
              && UpsertAll(worlds[k].arrivals).value.updatedAt <= UpsertAll(worlds[k + 1].arrivals).value.updatedAt
  {
    hide UpsertAll, LastOfLatest;
    ServerKeepsLastOfLatest(worlds[k].arrivals);
    ServerKeepsLastOfLatest(worlds[k + 1].arrivals);
    if steps[k].Arrive? {
      UpsertNeverGoesBack(worlds[k].arrivals, steps[k].patch);
    }
  }

  /** The stored pending flag and the resolved one agree in every run. */
  lemma PendingIsProposal(worlds: seq<World>, steps: seq<Step>, k: nat, device: Device)
    requires IsRun(worlds, steps) && k <= |steps| && device in worlds[k].devices
    ensures worlds[k].devices[device].proposal.Some? <==> Resolve(worlds[k].devices[device]).pending
  {
    hide UpsertAll;
    RunKeepsInv(worlds, steps, k);
  }

  /** What is written is what the device shows from then on, under a timestamp
      newer than everything it holds, and nothing else moves. */
  lemma WriteIsShown(w: World, device: Device, value: string, now: nat, next: World)
    requires Inv(w) && Next(w, Write(device, value, now), next)
    ensures device in next.devices && next.devices.Keys == w.devices.Keys + {device}
    ensures device !in w.devices ==>
              var t := if now > 0 then now else 1;
              && Resolve(next.devices[device]) == Resolved(value, t, true)
              && next.devices[device] == Assignment(Version(value, 0), Some(Version(value, t)))
    ensures device in w.devices ==>
              var mine := w.devices[device];
              var latest := if mine.proposal.Some? then mine.proposal.value.updatedAt else mine.base.updatedAt;
              var t := if now > latest then now else latest + 1;
              && mine.base.updatedAt <= latest
              && Resolve(next.devices[device]) == Resolved(value, t, true)
              && next.devices[device] == Assignment(mine.base, Some(Version(value, t)))
    ensures forall other :: other in w.devices && other != device ==> next.devices[other] == w.devices[other]
    ensures next.arrivals == w.arrivals && next.patches == w.patches && next.versions == w.versions
  {
    hide UpsertAll;
    assert device in w.devices ==> DeviceSound(w, w.devices[device]);
  }

  /** While the device still holds what was written, a flush sends exactly that;
      if it wins, it is what the server then has and, once learned, what the
      device shows without a proposal. If it loses, the server's row stays. */
  lemma WriteReachesServer(w: World, device: Device, value: string, now: nat, written: World, held: World, sent: World,
                           server: World, arrived: World)
    requires Inv(w) && Next(w, Write(device, value, now), written)
    requires device in held.devices && held.devices[device] == written.devices[device]
    requires Next(held, Flush(device), sent)
    requires var t := Resolve(written.devices[device]).updatedAt;
             Inv(server) && Next(server, Arrive(Version(value, t)), arrived)
    ensures var t := Resolve(written.devices[device]).updatedAt;
            var row := UpsertAll(server.arrivals);
            && sent.patches == held.patches + {Version(value, t)}
            && UpsertAll(arrived.arrivals)
               == (if row.None? || t >= row.value.updatedAt then Some(Version(value, t)) else row)
            && Resolve(Reconcile(Some(held.devices[device]), Version(value, t))) == Resolved(value, t, false)
  {
    hide UpsertAll;
    WriteIsShown(w, device, value, now, written);
    UpsertNeverGoesBack(server.arrivals, Version(value, Resolve(written.devices[device]).updatedAt));
  }

  /** News of the server always becomes the base, whatever the device holds; a
      proposal outlives it exactly when it is newer. */
  lemma NewsBecomesBase(w: World, device: Device, version: Version, next: World)
    requires Next(w, Learn(device, version), next)
    ensures device in next.devices && next.devices[device].base == version
    ensures device !in w.devices ==> next.devices[device].proposal.None?
    ensures device in w.devices ==>
              var mine := w.devices[device].proposal;
              next.devices[device].proposal
              == if mine.Some? && mine.value.updatedAt > version.updatedAt then mine else None
    ensures device in w.devices && w.devices[device].proposal.None? ==>
              Resolve(next.devices[device]) == Resolved(version.value, version.updatedAt, false)
    ensures forall other :: other in w.devices && other != device ==>
              other in next.devices && next.devices[other] == w.devices[other]
  {
  }

  /** A proposal only gives way to a newer one of the same device or to a server
      version at least as new. */
  lemma ProposalsAreNotLost(w: World, step: Step, next: World, device: Device)
    requires Inv(w) && Next(w, step, next)
    requires device in w.devices && w.devices[device].proposal.Some?
    requires device !in next.devices || next.devices[device].proposal != w.devices[device].proposal
    ensures var mine := w.devices[device].proposal.value;
            || (step.Write? && step.device == device && next.devices[device].proposal.Some?
                && next.devices[device].proposal.value.updatedAt > mine.updatedAt)
            || (step.Learn? && step.device == device
                && step.version in w.versions && step.version.updatedAt >= mine.updatedAt)
  {
  }

  /** A flush that arrives, with its answer, leaves device and server with one
      value: the device's own if it was newer, and the server's otherwise. */
  lemma FlushSynchronizes(w: World, device: Device)
    requires Inv(w) && device in w.devices && w.devices[device].proposal.Some?
    ensures var mine := w.devices[device].proposal.value;
            var row := UpsertAll(w.arrivals + [mine]).value;
            var after := Resolve(Reconcile(Some(w.devices[device]), row));
            && after == Resolved(row.value, row.updatedAt, false)
            && (row == mine <==> UpsertAll(w.arrivals).None? || mine.updatedAt >= UpsertAll(w.arrivals).value.updatedAt
                                 || mine == UpsertAll(w.arrivals).value)
  {
    hide UpsertAll;
    UpsertNeverGoesBack(w.arrivals, w.devices[device].proposal.value);
  }

  /** News that comes late takes a device back to an older value exactly when it
      has no proposal and the news is older than its base. */
  lemma LateNewsGoesBackIff(w: World, device: Device, news: Version)
    requires Inv(w) && device in w.devices
    ensures Resolve(Reconcile(Some(w.devices[device]), news)).updatedAt < Resolve(w.devices[device]).updatedAt
       <==> w.devices[device].proposal.None? && news.updatedAt < w.devices[device].base.updatedAt
  {
    hide UpsertAll;
    assert DeviceSound(w, w.devices[device]);
  }

  // --- a run in which news comes late -------------------------------------------------------

  /** One device writes twice; the news of the first value is still under way to
      another device when that one has learned the second. */
  function LateWorld(first: Version, second: Version, k: nat): World {
    var one := map[0 := Assignment(Version(first.value, 0), Some(first))];
    var two := map[0 := Assignment(Version(first.value, 0), Some(second))];
    match k
    case 0 => INITIAL
    case 1 => World([], one, {}, {})
    case 2 => World([], one, {first}, {})
    case 3 => World([first], one, {first}, {first})
    case 4 => World([first], two, {first}, {first})
    case 5 => World([first], two, {first, second}, {first})
    case 6 => World([first, second], two, {first, second}, {first, second})
    case 7 => World([first, second], two[1 := Assignment(second, None)], {first, second}, {first, second})
    case _ => World([first, second], two[1 := Assignment(first, None)], {first, second}, {first, second})
  }

  function LateStep(first: Version, second: Version, k: nat): Step {
    match k
    case 0 => Write(0, first.value, first.updatedAt)
    case 1 => Flush(0)
    case 2 => Arrive(first)
    case 3 => Write(0, second.value, second.updatedAt)
    case 4 => Flush(0)
    case 5 => Arrive(second)
    case 6 => Learn(1, second)
    case _ => Learn(1, first)
  }

  lemma LateSteps(first: Version, second: Version, k: nat)
    requires 0 < first.updatedAt < second.updatedAt && k < 8
    ensures Next(LateWorld(first, second, k), LateStep(first, second, k), LateWorld(first, second, k + 1))
  {
    hide UpsertAll;
    LateUpserts(first, second);
    assert [] + [first] == [first] && [first] + [second] == [first, second];
    assert {first} + {second} == {first, second};
  }

  lemma LateUpserts(first: Version, second: Version)
    requires first.updatedAt < second.updatedAt
    ensures UpsertAll([]).None? && UpsertAll([first]) == Some(first) && UpsertAll([first, second]) == Some(second)
  {
    var none: seq<Version> := [];
    assert [first][..0] == none && [first, second][..1] == [first];
  }

  /** For any two values written one after the other, a device that has shown the
      later one can show the earlier one again. */
  lemma LateNewsGoesBack(first: Version, second: Version) returns (worlds: seq<World>, steps: seq<Step>)
    requires 0 < first.updatedAt < second.updatedAt
    ensures IsRun(worlds, steps) && |steps| == 8 && 1 in worlds[7].devices && 1 in worlds[8].devices
    ensures Resolve(worlds[7].devices[1]) == Resolved(second.value, second.updatedAt, false)
    ensures Resolve(worlds[8].devices[1]) == Resolved(first.value, first.updatedAt, false)
    ensures UpsertAll(worlds[8].arrivals) == Some(second)
  {
    hide Next;
    worlds := seq(9, k requires 0 <= k < 9 => LateWorld(first, second, k));
    steps := seq(8, k requires 0 <= k < 8 => LateStep(first, second, k));
    forall k | 0 <= k < |steps| ensures Next(worlds[k], steps[k], worlds[k + 1]) {
      LateSteps(first, second, k);
    }
    LateUpserts(first, second);
  }
}
