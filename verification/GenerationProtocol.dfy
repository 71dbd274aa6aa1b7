/** Replacing, deleting and reading files while an orphan collector runs beside
    them. A state machine over the single transactions of all parties; locks
    are guards, and a collector takes none. */
module GenerationProtocol {
  import opened Basics
  import opened ExtentLayout

  const ORPHAN_GRACE_MS: int := 5 * 60 * 1000

  type FileId = string

  /** A physical id carries the time it was made. */
  datatype Physical = Physical(stamp: nat, serial: nat)

  datatype ExtentKey = ExtentKey(physical: Physical, extent: nat)

  type Payload = seq<seq<byte>>

  /** The holder of a file's exclusive lock: writing a new generation, or
      deleting the extents of one that is not or no longer named. */
  datatype Writer = Staging(physical: Physical, written: nat) | Cleaning(physical: Physical)

  /** The holder of a shared lock, with the extents it has read so far. */
  datatype Reader = Reader(id: FileId, physical: Physical, got: Payload, broken: bool)

  datatype Collector = Armed(cutoff: int) | Deleting(keys: set<ExtentKey>)

  /** `payload` records what each generation was meant to hold. */
  datatype Store = Store(
    now: nat,
    heads: map<FileId, Physical>,
    extents: map<Physical, Generation>,
    writers: map<FileId, Writer>,
    readers: map<nat, Reader>,
    collectors: map<nat, Collector>,
    payload: map<Physical, Payload>)

  datatype Step =
    | Tick(elapsed: nat)
    | BeginReplace(id: FileId, serial: nat, content: Payload)
    | PutTail(id: FileId, length: nat)
    | PutExtent(id: FileId)
    | Publish(id: FileId)
    | GiveUp(id: FileId)
    | DeleteHead(id: FileId)
    | Clean(id: FileId, extents: set<nat>)
    | Unlock(id: FileId)
    | Rewrite(id: FileId, content: Payload)
    | OpenReader(reader: nat, id: FileId)
    | ReadNext(reader: nat)
    | CloseReader(reader: nat)
    | ArmCollector(collector: nat)
    | Scan(collector: nat, keys: set<ExtentKey>)
    | Collect(collector: nat, batch: set<ExtentKey>)
    | Crash

  const EMPTY: Store := Store(0, map[], map[], map[], map[], map[], map[])

  function GenerationOf(extents: map<Physical, Generation>, physical: Physical): Generation {
    if physical in extents then extents[physical] else map[]
  }

  function AsGeneration(content: Payload): Generation {
    map extent: nat | extent < |content| :: content[extent]
  }

  /** No head names this generation. */
  predicate Unnamed(heads: map<FileId, Physical>, physical: Physical) {
    forall id :: id in heads ==> heads[id] != physical
  }

  predicate Unshared(s: Store, id: FileId) {
    id !in s.writers && forall reader :: reader in s.readers ==> s.readers[reader].id != id
  }

  /** The keys a scan may report: nothing names their generation, and it is old. */
  predicate Reclaimable(s: Store, key: ExtentKey, cutoff: int) {
    && Unnamed(s.heads, key.physical)
    && key.extent in GenerationOf(s.extents, key.physical)
    && key.physical.stamp <= cutoff
  }

  predicate Enabled(s: Store, step: Step) {
    match step
    case Tick(_) => true
    case BeginReplace(id, serial, content) => Unshared(s, id) && Physical(s.now, serial) !in s.payload
    case PutTail(id, length) =>
      && id in s.writers && s.writers[id].Staging? && s.writers[id].physical in s.payload
      && s.writers[id].written < |s.payload[s.writers[id].physical]|
      && length <= |s.payload[s.writers[id].physical][s.writers[id].written]|
    case PutExtent(id) =>
      && id in s.writers && s.writers[id].Staging? && s.writers[id].physical in s.payload
      && s.writers[id].written < |s.payload[s.writers[id].physical]|
    case Publish(id) =>
      && id in s.writers && s.writers[id].Staging? && s.writers[id].physical in s.payload
      && s.writers[id].written == |s.payload[s.writers[id].physical]|
    case GiveUp(id) => id in s.writers && s.writers[id].Staging?
    case DeleteHead(id) => Unshared(s, id) && id in s.heads
    case Clean(id, extents) => id in s.writers && s.writers[id].Cleaning?
    case Unlock(id) => id in s.writers && s.writers[id].Cleaning?
    case Rewrite(id, content) => Unshared(s, id) && id in s.heads
    case OpenReader(reader, id) => reader !in s.readers && id !in s.writers && id in s.heads
    case ReadNext(reader) =>
      && reader in s.readers && s.readers[reader].physical in s.payload
      && |s.readers[reader].got| < |s.payload[s.readers[reader].physical]|
    case CloseReader(reader) => reader in s.readers
    case ArmCollector(collector) => collector !in s.collectors
    case Scan(collector, keys) =>
      && collector in s.collectors && s.collectors[collector].Armed?
      && forall key :: key in keys ==> Reclaimable(s, key, s.collectors[collector].cutoff)
    case Collect(collector, batch) =>
      collector in s.collectors && s.collectors[collector].Deleting? && batch <= s.collectors[collector].keys
    case Crash => true
  }

  /** A publish that ends before its generation is old enough to be collected. */
  predicate OnTime(s: Store, step: Step)
    requires Enabled(s, step)
  {
    step.Publish? ==> s.now < s.writers[step.id].physical.stamp + ORPHAN_GRACE_MS
  }

  function Put(s: Store, physical: Physical, extent: nat, value: seq<byte>): Store {
    s.(extents := s.extents[physical := GenerationOf(s.extents, physical)[extent := value]])
  }

  function Without(generation: Generation, extents: set<nat>): Generation {
    map extent | extent in generation && extent !in extents :: generation[extent]
  }

  function ExtentsOf(keys: set<ExtentKey>, physical: Physical): set<nat> {
    set key | key in keys && key.physical == physical :: key.extent
  }

  function Apply(s: Store, step: Step): Store
    requires Enabled(s, step)
  {
    match step
    case Tick(elapsed) => s.(now := s.now + elapsed)
    case BeginReplace(id, serial, content) =>
      var physical := Physical(s.now, serial);
      s.(writers := s.writers[id := Staging(physical, 0)], payload := s.payload[physical := content])
    case PutTail(id, length) =>
      var w := s.writers[id];
      Put(s, w.physical, w.written, s.payload[w.physical][w.written][..length])
    case PutExtent(id) =>
      var w := s.writers[id];
      Put(s, w.physical, w.written, s.payload[w.physical][w.written])
        .(writers := s.writers[id := Staging(w.physical, w.written + 1)])
    case Publish(id) =>
      var w := s.writers[id];
      s.(heads := s.heads[id := w.physical],
         writers := if id in s.heads then s.writers[id := Cleaning(s.heads[id])] else s.writers - {id})
    case GiveUp(id) => s.(writers := s.writers[id := Cleaning(s.writers[id].physical)])
    case DeleteHead(id) => s.(heads := s.heads - {id}, writers := s.writers[id := Cleaning(s.heads[id])])
    case Clean(id, extents) =>
      var physical := s.writers[id].physical;
      s.(extents := s.extents[physical := Without(GenerationOf(s.extents, physical), extents)])
    case Unlock(id) => s.(writers := s.writers - {id})
    case Rewrite(id, content) =>
      s.(extents := s.extents[s.heads[id] := AsGeneration(content)], payload := s.payload[s.heads[id] := content])
    case OpenReader(reader, id) => s.(readers := s.readers[reader := Reader(id, s.heads[id], [], false)])
    case ReadNext(reader) =>
      var r := s.readers[reader];
      var generation := GenerationOf(s.extents, r.physical);
      s.(readers := s.readers[reader :=
           if |r.got| in generation then r.(got := r.got + [generation[|r.got|]]) else r.(broken := true)])
    case CloseReader(reader) => s.(readers := s.readers - {reader})
    case ArmCollector(collector) => s.(collectors := s.collectors[collector := Armed(s.now - ORPHAN_GRACE_MS)])
    case Scan(collector, keys) => s.(collectors := s.collectors[collector := Deleting(keys)])
    case Collect(collector, batch) =>
      s.(extents := map physical | physical in s.extents :: Without(s.extents[physical], ExtentsOf(batch, physical)))
    case Crash => s.(writers := map[], readers := map[], collectors := map[])
  }

  // --- the invariant ------------------------------------------------------------------------

  /** The content every live file stands for. */
  function Live(s: Store): map<FileId, Payload>
    requires forall id :: id in s.heads ==> s.heads[id] in s.payload
  {
    map id | id in s.heads :: s.payload[s.heads[id]]
  }

  ghost predicate HeadWhole(s: Store, id: FileId)
    requires id in s.heads
  {
    s.heads[id] in s.payload && GenerationOf(s.extents, s.heads[id]) == AsGeneration(s.payload[s.heads[id]])
  }

  /** Every live file is whole. */
  ghost predicate HeadsWhole(s: Store) {
    && (forall id :: id in s.heads ==> HeadWhole(s, id))
    && (forall id, other :: id in s.heads && other in s.heads && id != other ==> s.heads[id] != s.heads[other])
  }

  predicate Expired(s: Store, physical: Physical) {
    physical.stamp + ORPHAN_GRACE_MS <= s.now
  }

  /** A staged generation is not live, and as long as it can still be published
      on time the extents written so far are intact. */
  ghost predicate WriterSound(s: Store, id: FileId)
    requires id in s.writers
  {
    var w := s.writers[id];
    && Unnamed(s.heads, w.physical)
    && w.physical in s.payload
    && (w.Staging? ==> w.written <= |s.payload[w.physical]|)
    && (w.Staging? && !Expired(s, w.physical) ==> StagedIntact(s, w.physical, w.written))
  }

  ghost predicate StagedIntact(s: Store, physical: Physical, written: nat)
    requires physical in s.payload && written <= |s.payload[physical]|
  {
    var generation := GenerationOf(s.extents, physical);
    && (forall extent: nat :: extent < written ==>
          extent in generation && generation[extent] == s.payload[physical][extent])
    && (forall extent :: extent in generation ==> extent <= written && extent < |s.payload[physical]|)
  }

  ghost predicate WritersSound(s: Store) {
    && (forall id :: id in s.writers ==> WriterSound(s, id))
    && (forall id, other :: id in s.writers && other in s.writers && id != other ==>
          s.writers[id].physical != s.writers[other].physical)
  }

  /** A reader's generation is pinned, and what it has read is a prefix of it. */
  ghost predicate ReaderSound(s: Store, reader: nat)
    requires reader in s.readers
  {
    var r := s.readers[reader];
    && r.id !in s.writers
    && r.id in s.heads && s.heads[r.id] == r.physical && r.physical in s.payload
    && !r.broken
    && r.got <= s.payload[r.physical]
  }

  ghost predicate ReadersSound(s: Store) {
    forall reader :: reader in s.readers ==> ReaderSound(s, reader)
  }

  /** What a collector is about to delete is old and not live. */
  ghost predicate CollectorSound(s: Store, collector: nat)
    requires collector in s.collectors
  {
    match s.collectors[collector]
    case Armed(cutoff) => cutoff + ORPHAN_GRACE_MS <= s.now
    case Deleting(keys) => forall key :: key in keys ==> Expired(s, key.physical) && Unnamed(s.heads, key.physical)
  }

  ghost predicate CollectorsSound(s: Store) {
    forall collector :: collector in s.collectors ==> CollectorSound(s, collector)
  }

  /** Only recorded generations have extents, and none is dated in the future. */
  ghost predicate Recorded(s: Store) {
    && (forall physical :: physical in s.extents ==> physical in s.payload)
    && (forall physical :: physical in s.payload ==> physical.stamp <= s.now)
  }

  ghost predicate Inv(s: Store) {
    HeadsWhole(s) && WritersSound(s) && ReadersSound(s) && CollectorsSound(s) && Recorded(s)
  }

  lemma EmptyIsSound()
    ensures Inv(EMPTY)
  {
  }

  /** The effect of a step on what the live files stand for. */
  function LiveAfter(s: Store, step: Step): map<FileId, Payload>
    requires Inv(s) && Enabled(s, step)
  {
    match step
    case Publish(id) => Live(s)[id := s.payload[s.writers[id].physical]]
    case DeleteHead(id) => Live(s) - {id}
    case Rewrite(id, content) => Live(s)[id := content]
    case _ => Live(s)
  }

  /** The generations whose extents a step may change. */
  predicate Touches(s: Store, step: Step, physical: Physical)
    requires Enabled(s, step)
  {
    match step
    case PutTail(id, _) => physical == s.writers[id].physical
    case PutExtent(id) => physical == s.writers[id].physical
    case Clean(id, _) => physical == s.writers[id].physical
    case Rewrite(id, _) => physical == s.heads[id]
    case Collect(_, batch) => ExtentsOf(batch, physical) != {}
    case _ => false
  }

  lemma UntouchedGeneration(s: Store, step: Step, physical: Physical)
    requires Enabled(s, step) && !Touches(s, step, physical)
    ensures GenerationOf(Apply(s, step).extents, physical) == GenerationOf(s.extents, physical)
  {
    if step.Collect? {
      UncollectedGeneration(s, step, physical);
    }
  }

  lemma UncollectedGeneration(s: Store, step: Step, physical: Physical)
    requires Enabled(s, step) && step.Collect? && ExtentsOf(step.batch, physical) == {}
    ensures GenerationOf(Apply(s, step).extents, physical) == GenerationOf(s.extents, physical)
  {
    if physical in s.extents {
      assert Without(s.extents[physical], {}) == s.extents[physical];
    }
  }

  /** A collector only touches generations that are old and not live. */
  lemma CollectedIsExpired(s: Store, step: Step, physical: Physical)
    requires CollectorsSound(s) && Enabled(s, step) && step.Collect? && Touches(s, step, physical)
    ensures Expired(s, physical) && Unnamed(s.heads, physical)
  {
    var extent :| extent in ExtentsOf(step.batch, physical);
    assert ExtentKey(physical, extent) in step.batch;
    assert CollectorSound(s, step.collector);
  }

  lemma HeadStaysWhole(s: Store, step: Step, id: FileId)
    requires Inv(s) && Enabled(s, step) && OnTime(s, step)
    requires id in Apply(s, step).heads
    ensures HeadWhole(Apply(s, step), id)
  {
    hide ReadersSound, Recorded, CollectorSound, Apply, Unnamed, AsGeneration, GenerationOf, StagedIntact;
    HeadCameFrom(s, step, id);
    if step.Rewrite? && step.id == id {
      assert step == Rewrite(id, step.content);
      RewrittenIsWhole(s, id, step.content);
    } else if step.Publish? && step.id == id {
      assert WriterSound(s, id) && step == Publish(id);
      UntouchedGeneration(s, step, s.writers[id].physical);
      PayloadStays(s, step, s.writers[id].physical);
      StagedIsWhole(s, s.writers[id].physical);
    } else {
      assert HeadWhole(s, id);
      HeadIsUntouched(s, step, id);
      PayloadStays(s, step, s.heads[id]);
    }
  }

  lemma RewrittenIsWhole(s: Store, id: FileId, content: Payload)
    requires Enabled(s, Rewrite(id, content))
    ensures id in Apply(s, Rewrite(id, content)).heads && HeadWhole(Apply(s, Rewrite(id, content)), id)
  {
  }

  lemma StagedIsWhole(s: Store, physical: Physical)
    requires physical in s.payload && StagedIntact(s, physical, |s.payload[physical]|)
    ensures GenerationOf(s.extents, physical) == AsGeneration(s.payload[physical])
  {
  }

  lemma HeadIsUntouched(s: Store, step: Step, id: FileId)
    requires HeadsWhole(s) && WritersSound(s) && CollectorsSound(s) && Enabled(s, step)
    requires id in s.heads && !(step.Rewrite? && step.id == id)
    ensures GenerationOf(Apply(s, step).extents, s.heads[id]) == GenerationOf(s.extents, s.heads[id])
  {
    if step.Collect? && Touches(s, step, s.heads[id]) {
      CollectedIsExpired(s, step, s.heads[id]);
    }
    UntouchedGeneration(s, step, s.heads[id]);
  }

  lemma HeadsStayDistinct(s: Store, step: Step, id: FileId, other: FileId)
    requires Inv(s) && Enabled(s, step) && OnTime(s, step)
    requires id in Apply(s, step).heads && other in Apply(s, step).heads && id != other
    ensures Apply(s, step).heads[id] != Apply(s, step).heads[other]
  {
    hide ReadersSound, CollectorsSound, Recorded, StagedIntact, HeadWhole, Apply;
    HeadCameFrom(s, step, id);
    HeadCameFrom(s, step, other);
    if step.Publish? {
      assert WriterSound(s, step.id);
    }
  }

  lemma PayloadStays(s: Store, step: Step, physical: Physical)
    requires Enabled(s, step) && physical in s.payload
    requires step.Rewrite? ==> s.heads[step.id] != physical
    ensures physical in Apply(s, step).payload && Apply(s, step).payload[physical] == s.payload[physical]
  {
  }

  lemma LiveFollows(s: Store, step: Step)
    requires Inv(s) && Enabled(s, step) && OnTime(s, step)
    requires HeadsWhole(Apply(s, step))
    ensures Live(Apply(s, step)) == LiveAfter(s, step)
  {
    hide ReadersSound, CollectorsSound, WritersSound, Recorded, AsGeneration, GenerationOf;
    forall id | id in Apply(s, step).heads
      ensures id in LiveAfter(s, step) && Live(Apply(s, step))[id] == LiveAfter(s, step)[id]
    {
      LiveFollowsAt(s, step, id);
    }
    HeadsFollow(s, step);
  }

  lemma HeadsFollow(s: Store, step: Step)
    requires Inv(s) && Enabled(s, step)
    ensures Apply(s, step).heads.Keys == LiveAfter(s, step).Keys
  {
    hide ReadersSound, CollectorsSound, WritersSound, Recorded, AsGeneration, GenerationOf;
  }

  /** Where the head of a file came from. */
  lemma HeadCameFrom(s: Store, step: Step, id: FileId)
    requires Enabled(s, step) && id in Apply(s, step).heads
    ensures if step.Publish? && step.id == id then Apply(s, step).heads[id] == s.writers[id].physical
            else id in s.heads && Apply(s, step).heads[id] == s.heads[id]
    ensures step.Rewrite? ==>
              step.id in s.heads && Apply(s, step).payload == s.payload[s.heads[step.id] := step.content]
    ensures step.DeleteHead? ==> step.id != id
  {
  }

  lemma LiveFollowsAt(s: Store, step: Step, id: FileId)
    requires Inv(s) && Enabled(s, step) && OnTime(s, step)
    requires HeadsWhole(Apply(s, step)) && id in Apply(s, step).heads
    ensures id in LiveAfter(s, step) && Live(Apply(s, step))[id] == LiveAfter(s, step)[id]
  {
    hide ReadersSound, CollectorsSound, Recorded, AsGeneration, GenerationOf, Apply, StagedIntact, Unnamed, OnTime;
    HeadCameFrom(s, step, id);
    if step.Publish? && step.id == id {
      assert WriterSound(s, id);
      PayloadStays(s, step, s.writers[id].physical);
    } else if !(step.Rewrite? && step.id == id) {
      assert HeadWhole(s, id);
      PayloadStays(s, step, s.heads[id]);
    }
  }

  lemma WriterStaysSound(s: Store, step: Step, id: FileId)
    requires Inv(s) && Enabled(s, step) && OnTime(s, step)
    requires id in Apply(s, step).writers
    ensures WriterSound(Apply(s, step), id)
  {
    if id !in s.writers {
      NewWriterIsSound(s, step, id);
    } else if (step.PutTail? || step.PutExtent?) && step.id == id {
      WriterProgresses(s, step, id);
    } else if step.Publish? || step.GiveUp? {
      WriterChangesRole(s, step, id);
    } else {
      OtherWriterStaysSound(s, step, id);
    }
  }

  lemma NewWriterIsSound(s: Store, step: Step, id: FileId)
    requires Inv(s) && Enabled(s, step) && OnTime(s, step)
    requires id in Apply(s, step).writers && id !in s.writers
    ensures WriterSound(Apply(s, step), id)
  {
    hide HeadsWhole, WritersSound, ReadersSound, CollectorsSound, Recorded, WriterSound;
    if step.BeginReplace? {
      assert step == BeginReplace(id, step.serial, step.content);
      BeginnerIsSound(s, id, step.serial, step.content);
    } else {
      assert step == DeleteHead(id);
      DeleterIsSound(s, id);
    }
  }

  lemma BeginnerIsSound(s: Store, id: FileId, serial: nat, content: Payload)
    requires HeadsWhole(s) && Recorded(s) && Enabled(s, BeginReplace(id, serial, content))
    ensures WriterSound(Apply(s, BeginReplace(id, serial, content)), id)
  {
    forall live | live in s.heads ensures s.heads[live] != Physical(s.now, serial) {
      assert HeadWhole(s, live);
    }
    assert Physical(s.now, serial) !in s.extents;
  }

  lemma DeleterIsSound(s: Store, id: FileId)
    requires HeadsWhole(s) && Enabled(s, DeleteHead(id))
    ensures WriterSound(Apply(s, DeleteHead(id)), id)
  {
    assert HeadWhole(s, id);
  }

  lemma WriterProgresses(s: Store, step: Step, id: FileId)
    requires Inv(s) && Enabled(s, step) && (step.PutTail? || step.PutExtent?) && step.id == id
    ensures WriterSound(Apply(s, step), id)
  {
    hide ReadersSound, CollectorsSound, HeadsWhole;
    assert WriterSound(s, id);
  }

  lemma WriterChangesRole(s: Store, step: Step, id: FileId)
    requires Inv(s) && Enabled(s, step) && (step.Publish? || step.GiveUp?)
    requires id in s.writers && id in Apply(s, step).writers
    ensures WriterSound(Apply(s, step), id)
  {
    hide HeadsWhole, WritersSound, ReadersSound, CollectorsSound, Recorded, WriterSound, Apply, Enabled;
    if step.Publish? {
      assert step == Publish(step.id);
      PublishKeepsWriter(s, step.id, id);
    } else {
      assert step == GiveUp(step.id);
      GiveUpKeepsWriter(s, step.id, id);
    }
  }

  lemma PublishKeepsWriter(s: Store, publisher: FileId, id: FileId)
    requires HeadsWhole(s) && WritersSound(s) && Enabled(s, Publish(publisher))
    requires id in s.writers && id in Apply(s, Publish(publisher)).writers
    ensures WriterSound(Apply(s, Publish(publisher)), id)
  {
    assert WriterSound(s, id) && WriterSound(s, publisher);
    if id == publisher {
      assert HeadWhole(s, id);
    }
  }

  lemma GiveUpKeepsWriter(s: Store, loser: FileId, id: FileId)
    requires WritersSound(s) && Enabled(s, GiveUp(loser)) && id in s.writers
    ensures WriterSound(Apply(s, GiveUp(loser)), id)
  {
    assert WriterSound(s, id) && WriterSound(s, loser);
  }

  /** What no other step changes about a writer. */
  lemma WriterCameFrom(s: Store, step: Step, id: FileId)
    requires Enabled(s, step) && id in s.writers && id in Apply(s, step).writers
    requires !step.Publish? && !step.GiveUp? && !((step.PutTail? || step.PutExtent?) && step.id == id)
    requires step.BeginReplace? || step.DeleteHead? ==> step.id != id
    ensures Apply(s, step).writers[id] == s.writers[id]
    ensures Unnamed(s.heads, s.writers[id].physical) ==> Unnamed(Apply(s, step).heads, s.writers[id].physical)
    ensures s.now <= Apply(s, step).now
    ensures step.Rewrite? ==> step.id in s.heads
  {
  }

  /** Another step leaves a writer's generation alone, or collects it when it is old. */
  lemma StagedIsUntouched(s: Store, step: Step, id: FileId)
    requires WritersSound(s) && CollectorsSound(s) && Enabled(s, step) && id in s.writers && s.writers[id].Staging?
    requires !((step.PutTail? || step.PutExtent?) && step.id == id)
    ensures Expired(s, s.writers[id].physical)
         || GenerationOf(Apply(s, step).extents, s.writers[id].physical)
            == GenerationOf(s.extents, s.writers[id].physical)
  {
    hide Apply, StagedIntact;
    var physical := s.writers[id].physical;
    assert WriterSound(s, id);
    if step.Collect? && Touches(s, step, physical) {
      CollectedIsExpired(s, step, physical);
    } else {
      UntouchedGeneration(s, step, physical);
    }
  }

  lemma OtherWriterStaysSound(s: Store, step: Step, id: FileId)
    requires Inv(s) && Enabled(s, step)
    requires id in s.writers && id in Apply(s, step).writers
    requires !step.Publish? && !step.GiveUp? && !((step.PutTail? || step.PutExtent?) && step.id == id)
    ensures WriterSound(Apply(s, step), id)
  {
    hide ReadersSound, CollectorsSound, HeadsWhole, AsGeneration, Recorded, Apply, Unnamed;
    assert WriterSound(s, id);
    WriterCameFrom(s, step, id);
    RewrittenIsNamed(s, step, id);
    PayloadStays(s, step, s.writers[id].physical);
    if s.writers[id].Staging? {
      StagedIsUntouched(s, step, id);
    }
  }

  lemma RewrittenIsNamed(s: Store, step: Step, id: FileId)
    requires Enabled(s, step) && id in s.writers && Unnamed(s.heads, s.writers[id].physical)
    ensures step.Rewrite? ==> s.heads[step.id] != s.writers[id].physical
  {
  }

  /** The generation a writer is about is the one it had, a new one, or the one
      its file's head named. */
  lemma WriterGeneration(s: Store, step: Step, id: FileId)
    requires Enabled(s, step) && id in Apply(s, step).writers
    ensures var physical := Apply(s, step).writers[id].physical;
            || (id in s.writers && !(step.Publish? && step.id == id) && physical == s.writers[id].physical)
            || (step.BeginReplace? && step.id == id && physical !in s.payload)
            || ((step.Publish? || step.DeleteHead?) && step.id == id && id in s.heads && physical == s.heads[id])
  {
    hide Unnamed, Without, ExtentsOf, AsGeneration, GenerationOf;
  }

  lemma WritersStayDistinct(s: Store, step: Step, id: FileId, other: FileId)
    requires Inv(s) && Enabled(s, step) && OnTime(s, step)
    requires id in Apply(s, step).writers && other in Apply(s, step).writers && id != other
    ensures Apply(s, step).writers[id].physical != Apply(s, step).writers[other].physical
  {
    hide HeadsWhole, ReadersSound, CollectorsSound, Recorded, StagedIntact, Apply, Enabled, OnTime;
    WriterGeneration(s, step, id);
    WriterGeneration(s, step, other);
    if id in s.writers {
      assert WriterSound(s, id);
    }
    if other in s.writers {
      assert WriterSound(s, other);
    }
  }

  lemma ReaderStaysSound(s: Store, step: Step, reader: nat)
    requires Inv(s) && Enabled(s, step) && OnTime(s, step)
    requires reader in Apply(s, step).readers
    ensures ReaderSound(Apply(s, step), reader)
  {
    hide CollectorsSound, Unnamed, WritersSound, AsGeneration, GenerationOf;
    if reader !in s.readers {
      assert HeadWhole(s, step.id);
    } else if step == ReadNext(reader) {
      ReaderProgresses(s, reader);
    } else {
      OtherReaderStaysSound(s, step, reader);
    }
  }

  lemma OtherReaderStaysSound(s: Store, step: Step, reader: nat)
    requires Inv(s) && Enabled(s, step) && step != ReadNext(reader)
    requires reader in s.readers && reader in Apply(s, step).readers
    ensures ReaderSound(Apply(s, step), reader)
  {
    hide HeadsWhole, CollectorsSound, WritersSound, Recorded, Apply, Enabled;
    assert ReaderSound(s, reader);
    ReaderCameFrom(s, step, reader);
    PinnedHeadStays(s, step, reader);
    PayloadStays(s, step, s.readers[reader].physical);
  }

  lemma ReaderCameFrom(s: Store, step: Step, reader: nat)
    requires Enabled(s, step) && step != ReadNext(reader)
    requires reader in s.readers && reader in Apply(s, step).readers
    ensures Apply(s, step).readers[reader] == s.readers[reader]
  {
    hide Unnamed, Without, ExtentsOf, AsGeneration, GenerationOf;
  }

  /** While a reader holds its shared lock, no step changes its file. */
  lemma PinnedHeadStays(s: Store, step: Step, reader: nat)
    requires Inv(s) && Enabled(s, step) && reader in s.readers && reader in Apply(s, step).readers
    ensures var r := s.readers[reader];
            && r.id in s.heads && s.heads[r.id] == r.physical && r.physical in s.payload
            && r.id !in Apply(s, step).writers
            && r.id in Apply(s, step).heads && Apply(s, step).heads[r.id] == r.physical
            && (step.Rewrite? ==> s.heads[step.id] != r.physical)
  {
    hide ReadersSound, CollectorsSound, Unnamed, WritersSound, AsGeneration, GenerationOf, Recorded, Apply, Enabled,
      HeadWhole;
    LockExcludes(s, step, reader);
    FileStays(s, step, s.readers[reader].id);
  }

  lemma FileStays(s: Store, step: Step, id: FileId)
    requires Enabled(s, step) && !ChangesFile(step, id)
    ensures id in Apply(s, step).writers ==> id in s.writers
    ensures id in s.heads ==> id in Apply(s, step).heads && Apply(s, step).heads[id] == s.heads[id]
    ensures step.Rewrite? ==> step.id in s.heads && step.id != id
  {
  }

  /** No step that changes a head or takes an exclusive lock is about a file that is being read. */
  predicate ChangesFile(step: Step, id: FileId) {
    match step
    case BeginReplace(other, _, _) => other == id
    case Publish(other) => other == id
    case GiveUp(other) => other == id
    case DeleteHead(other) => other == id
    case Rewrite(other, _) => other == id
    case _ => false
  }

  lemma LockExcludes(s: Store, step: Step, reader: nat)
    requires Inv(s) && Enabled(s, step) && reader in s.readers
    ensures ReaderSound(s, reader) && !ChangesFile(step, s.readers[reader].id)
  {
    hide HeadsWhole, CollectorsSound, Unnamed, WritersSound, AsGeneration, GenerationOf, Recorded;
    assert ReaderSound(s, reader);
  }

  lemma ReaderProgresses(s: Store, reader: nat)
    requires Inv(s) && Enabled(s, ReadNext(reader))
    ensures ReaderSound(Apply(s, ReadNext(reader)), reader)
  {
    hide CollectorsSound, WritersSound;
    assert ReaderSound(s, reader) && HeadWhole(s, s.readers[reader].id);
  }

  lemma CollectorStaysSound(s: Store, step: Step, collector: nat)
    requires Inv(s) && Enabled(s, step) && OnTime(s, step)
    requires collector in Apply(s, step).collectors
    ensures CollectorSound(Apply(s, step), collector)
  {
    hide HeadsWhole, WritersSound, ReadersSound, Recorded, Apply, Unnamed, Enabled, OnTime;
    CollectorCameFrom(s, step, collector);
    if collector in s.collectors {
      assert CollectorSound(s, collector);
      match Apply(s, step).collectors[collector] {
        case Armed(_) =>
        case Deleting(keys) =>
          forall key | key in keys
            ensures Expired(Apply(s, step), key.physical) && Unnamed(Apply(s, step).heads, key.physical)
          {
            ExpiredStepStaysUnnamed(s, step, key.physical);
          }
      }
    }
  }

  /** A collector is as it was, newly armed, or has just scanned. */
  lemma CollectorCameFrom(s: Store, step: Step, collector: nat)
    requires Enabled(s, step) && collector in Apply(s, step).collectors
    ensures s.now <= Apply(s, step).now
    ensures collector !in s.collectors ==>
              Apply(s, step).collectors[collector] == Armed(Apply(s, step).now - ORPHAN_GRACE_MS)
    ensures collector in s.collectors ==>
              || Apply(s, step).collectors[collector] == s.collectors[collector]
              || (s.collectors[collector].Armed? && Apply(s, step).collectors[collector].Deleting?
                  && forall key :: key in Apply(s, step).collectors[collector].keys ==>
                       && Unnamed(s.heads, key.physical)
                       && key.physical.stamp <= s.collectors[collector].cutoff)
  {
    hide Unnamed, Without, ExtentsOf, AsGeneration, GenerationOf;
  }

  lemma StaysRecorded(s: Store, step: Step)
    requires Inv(s) && Enabled(s, step) && OnTime(s, step)
    ensures Recorded(Apply(s, step))
  {
    hide HeadsWhole, WritersSound, ReadersSound, CollectorsSound, Recorded, OnTime, Apply, Enabled;
    forall physical | physical in Apply(s, step).extents ensures physical in Apply(s, step).payload {
      ExtentsStayRecorded(s, step, physical);
    }
    StampsStayPast(s, step);
    RecordedIs(Apply(s, step));
  }

  lemma RecordedIs(s: Store)
    requires forall physical :: physical in s.extents ==> physical in s.payload
    requires forall physical :: physical in s.payload ==> physical.stamp <= s.now
    ensures Recorded(s)
  {
  }

  lemma ExtentsStayRecorded(s: Store, step: Step, physical: Physical)
    requires HeadsWhole(s) && WritersSound(s) && Recorded(s) && Enabled(s, step) && physical in Apply(s, step).extents
    ensures physical in Apply(s, step).payload
  {
    hide Unnamed, Without, ExtentsOf, AsGeneration, GenerationOf, StagedIntact, HeadWhole;
    if step.Clean? {
      assert WriterSound(s, step.id);
    }
  }

  lemma StampsStayPast(s: Store, step: Step)
    requires HeadsWhole(s) && Recorded(s) && Enabled(s, step)
    ensures forall physical :: physical in Apply(s, step).payload ==> physical.stamp <= Apply(s, step).now
  {
    hide Unnamed, Without, ExtentsOf, AsGeneration, GenerationOf;
    if step.Rewrite? {
      assert HeadWhole(s, step.id);
    }
  }

  /** The central step: no matter which party moves, the invariant holds, and
      what the live files stand for changes only at a publish, a deletion or a
      rewrite under the exclusive lock, and then all at once. */
  lemma StepKeepsInv(s: Store, step: Step)
    requires Inv(s) && Enabled(s, step) && OnTime(s, step)
    ensures Inv(Apply(s, step))
    ensures Live(Apply(s, step)) == LiveAfter(s, step)
  {
    hide HeadWhole, WriterSound, ReaderSound, CollectorSound, Recorded, Apply, LiveAfter, Live, Enabled, OnTime;
    forall id | id in Apply(s, step).heads ensures HeadWhole(Apply(s, step), id) {
      HeadStaysWhole(s, step, id);
    }
    forall id, other | id in Apply(s, step).heads && other in Apply(s, step).heads && id != other
      ensures Apply(s, step).heads[id] != Apply(s, step).heads[other]
    {
      HeadsStayDistinct(s, step, id, other);
    }
    forall id | id in Apply(s, step).writers ensures WriterSound(Apply(s, step), id) {
      WriterStaysSound(s, step, id);
    }
    forall id, other | id in Apply(s, step).writers && other in Apply(s, step).writers && id != other
      ensures Apply(s, step).writers[id].physical != Apply(s, step).writers[other].physical
    {
      WritersStayDistinct(s, step, id, other);
    }
    forall reader | reader in Apply(s, step).readers ensures ReaderSound(Apply(s, step), reader) {
      ReaderStaysSound(s, step, reader);
    }
    forall collector | collector in Apply(s, step).collectors ensures CollectorSound(Apply(s, step), collector) {
      CollectorStaysSound(s, step, collector);
    }
    StaysRecorded(s, step);
    LiveFollows(s, step);
  }

  // --- whole runs ---------------------------------------------------------------------------

  predicate Legal(s: Store, steps: seq<Step>)
    decreases |steps|
  {
    steps == [] || (Enabled(s, steps[0]) && Legal(Apply(s, steps[0]), steps[1..]))
  }

  predicate AllOnTime(s: Store, steps: seq<Step>)
    requires Legal(s, steps)
    decreases |steps|
  {
    steps == [] || (OnTime(s, steps[0]) && AllOnTime(Apply(s, steps[0]), steps[1..]))
  }

  function RunAll(s: Store, steps: seq<Step>): Store
    requires Legal(s, steps)
    decreases |steps|
  {
    if steps == [] then s else RunAll(Apply(s, steps[0]), steps[1..])
  }

  lemma {:induction false} RunKeepsInv(s: Store, steps: seq<Step>)
    requires Inv(s) && Legal(s, steps) && AllOnTime(s, steps)
    ensures Inv(RunAll(s, steps))
    decreases |steps|
  {
    hide Inv, Apply, Enabled, OnTime;
    if steps != [] {
      StepKeepsInv(s, steps[0]);
      RunKeepsInv(Apply(s, steps[0]), steps[1..]);
    }
  }

  /** In every run in which each publish takes less than the grace time, every
      live file is whole, and a reader has read a prefix of what its file
      stands for and never misses an extent. */
  lemma ReadersSeeWholeFiles(steps: seq<Step>)
    requires Legal(EMPTY, steps) && AllOnTime(EMPTY, steps)
    ensures var s := RunAll(EMPTY, steps);
            && Inv(s)
            && forall reader :: reader in s.readers ==>
                 var r := s.readers[reader];
                 !r.broken && r.id in s.heads && r.got <= Live(s)[r.id]
  {
    EmptyIsSound();
    RunKeepsInv(EMPTY, steps);
    var s := RunAll(EMPTY, steps);
    forall reader | reader in s.readers
      ensures var r := s.readers[reader]; !r.broken && r.id in s.heads && r.got <= Live(s)[r.id]
    {
      assert ReaderSound(s, reader);
    }
  }

  /** Whatever a collector deletes is not live, and never becomes live. */
  lemma CollectedNeverGoesLive(s: Store, collector: nat, batch: set<ExtentKey>, key: ExtentKey, steps: seq<Step>)
    requires Inv(s) && Enabled(s, Collect(collector, batch)) && key in batch
    requires Legal(s, [Collect(collector, batch)] + steps) && AllOnTime(s, [Collect(collector, batch)] + steps)
    ensures Unnamed(s.heads, key.physical)
    ensures Unnamed(RunAll(s, [Collect(collector, batch)] + steps).heads, key.physical)
  {
    assert CollectorSound(s, collector);
    ExpiredStaysUnnamed(s, [Collect(collector, batch)] + steps, key.physical);
  }

  lemma {:induction false} ExpiredStaysUnnamed(s: Store, steps: seq<Step>, physical: Physical)
    requires Legal(s, steps) && AllOnTime(s, steps)
    requires Expired(s, physical) && Unnamed(s.heads, physical)
    ensures Unnamed(RunAll(s, steps).heads, physical)
    decreases |steps|
  {
    if steps != [] {
      ExpiredStepStaysUnnamed(s, steps[0], physical);
      ExpiredStaysUnnamed(Apply(s, steps[0]), steps[1..], physical);
    }
  }

  lemma ExpiredStepStaysUnnamed(s: Store, step: Step, physical: Physical)
    requires Enabled(s, step) && OnTime(s, step) && Expired(s, physical) && Unnamed(s.heads, physical)
    ensures Expired(Apply(s, step), physical) && Unnamed(Apply(s, step).heads, physical)
  {
  }

  // --- the grace time is exact --------------------------------------------------------------

  predicate CollectorsOnly(steps: seq<Step>) {
    forall k :: 0 <= k < |steps| ==> steps[k].ArmCollector? || steps[k].Scan? || steps[k].Collect?
  }

  /** Whatever collectors do before the publish, and whoever moves after it as
      long as the later publishes are on time, the live files stay whole. */
  ghost predicate PublishIsSafe(s: Store, id: FileId) {
    forall before: seq<Step>, after: seq<Step> ::
      CollectorsOnly(before) && SafeIfOnTime(s, before, id, after) ==>
          HeadsWhole(RunAll(s, before + [Publish(id)] + after))
  }

  /** The run is possible, and what follows the publish is on time. */
  ghost predicate SafeIfOnTime(s: Store, before: seq<Step>, id: FileId, after: seq<Step>) {
    && Legal(s, before + [Publish(id)] + after)
    && Legal(s, before + [Publish(id)]) && Legal(RunAll(s, before + [Publish(id)]), after)
    && AllOnTime(RunAll(s, before + [Publish(id)]), after)
  }

  lemma RunStartsWith(s: Store, step: Step, rest: seq<Step>)
    ensures Legal(s, [step] + rest) <==> Enabled(s, step) && Legal(Apply(s, step), rest)
    ensures Legal(s, [step] + rest) ==> RunAll(s, [step] + rest) == RunAll(Apply(s, step), rest)
  {
    assert ([step] + rest)[1..] == rest;
  }

  lemma {:induction false} RunJoins(s: Store, first: seq<Step>, second: seq<Step>)
    ensures Legal(s, first + second) <==> Legal(s, first) && Legal(RunAll(s, first), second)
    ensures Legal(s, first + second) ==> RunAll(s, first + second) == RunAll(RunAll(s, first), second)
    decreases |first|
  {
    hide Apply, Enabled;
    if first == [] {
      assert first + second == second;
    } else {
      assert first + second == [first[0]] + (first[1..] + second) && first == [first[0]] + first[1..];
      RunStartsWith(s, first[0], first[1..] + second);
      RunStartsWith(s, first[0], first[1..]);
      if Enabled(s, first[0]) {
        RunJoins(Apply(s, first[0]), first[1..], second);
      }
    }
  }

  /** Collectors do not move the clock, and leave writers and heads alone. */
  lemma {:induction false} CollectorsKeepTime(s: Store, steps: seq<Step>)
    requires Inv(s) && Legal(s, steps) && CollectorsOnly(steps)
    ensures var after := RunAll(s, steps); Inv(after) && after.now == s.now && after.writers == s.writers
    decreases |steps|
  {
    hide Inv;
    if steps != [] {
      StepKeepsInv(s, steps[0]);
      CollectorsKeepTime(Apply(s, steps[0]), steps[1..]);
    }
  }

  lemma OnTimeIsSafe(s: Store, id: FileId)
    requires Inv(s) && Enabled(s, Publish(id)) && OnTime(s, Publish(id))
    ensures PublishIsSafe(s, id)
  {
    hide Inv, HeadsWhole, Legal, RunAll, AllOnTime, Enabled, Apply;
    forall before: seq<Step>, after: seq<Step> | CollectorsOnly(before) && SafeIfOnTime(s, before, id, after)
      ensures HeadsWhole(RunAll(s, before + [Publish(id)] + after))
    {
      RunJoins(s, before + [Publish(id)], after);
      RunJoins(s, before, [Publish(id)]);
      CollectorsKeepTime(s, before);
      OneStep(RunAll(s, before), Publish(id));
      StepKeepsInv(RunAll(s, before), Publish(id));
      RunKeepsInv(RunAll(s, before + [Publish(id)]), after);
      InvIsWhole(RunAll(s, before + [Publish(id)] + after));
    }
  }

  lemma OneStep(s: Store, step: Step)
    requires Legal(s, [step])
    ensures Enabled(s, step) && RunAll(s, [step]) == Apply(s, step)
  {
    assert [step][1..] == [];
  }

  lemma InvIsWhole(s: Store)
    requires Inv(s)
    ensures HeadsWhole(s)
  {
  }

  lemma {:induction false} Unused(numbers: set<nat>) returns (free: nat)
    ensures forall n :: n in numbers ==> n < free
  {
    if numbers == {} {
      free := 0;
    } else {
      var n :| n in numbers;
      free := Unused(numbers - {n});
      free := if free <= n then n + 1 else free;
      assert forall other :: other in numbers ==> other == n || other in numbers - {n};
    }
  }

  /** The race: a collector scans just before the publish and deletes just after it. */
  lemma LatePublishLoses(s: Store, id: FileId) returns (before: seq<Step>, after: seq<Step>)
    requires Inv(s) && Enabled(s, Publish(id)) && !OnTime(s, Publish(id)) && s.payload[s.writers[id].physical] != []
    ensures CollectorsOnly(before) && SafeIfOnTime(s, before, id, after)
    ensures !HeadsWhole(RunAll(s, before + [Publish(id)] + after))
  {
    hide HeadsWhole, Apply, Inv, SafeIfOnTime, RunAll, OnTime, AsGeneration, GenerationOf;
    if GenerationOf(s.extents, s.writers[id].physical) == AsGeneration(s.payload[s.writers[id].physical]) {
      before, after := CollectorRaces(s, id);
    } else {
      before, after := [], [];
      BrokenAlready(s, id);
    }
  }

  lemma CollectorRaces(s: Store, id: FileId) returns (before: seq<Step>, after: seq<Step>)
    requires id in s.writers && s.writers[id].physical in s.payload
    requires Inv(s) && Enabled(s, Publish(id)) && !OnTime(s, Publish(id)) && s.payload[s.writers[id].physical] != []
    requires GenerationOf(s.extents, s.writers[id].physical) == AsGeneration(s.payload[s.writers[id].physical])
    ensures CollectorsOnly(before) && SafeIfOnTime(s, before, id, after)
    ensures !HeadsWhole(RunAll(s, before + [Publish(id)] + after))
  {
    hide HeadsWhole, Apply, Inv, SafeIfOnTime, RunAll, OnTime, Enabled, GenerationOf, AsGeneration;
    var collector := Unused(s.collectors.Keys);
    var key := ExtentKey(s.writers[id].physical, 0);
    before, after := [ArmCollector(collector), Scan(collector, {key})], [Collect(collector, {key})];
    var scanned := ScanBeforePublish(s, id, collector);
    var published, collected := PublishThenCollect(s, scanned, id, collector);
    FourSteps(s, scanned, published, collected, before, id, after);
  }

  lemma BrokenAlready(s: Store, id: FileId)
    requires Enabled(s, Publish(id))
    requires GenerationOf(s.extents, s.writers[id].physical) != AsGeneration(s.payload[s.writers[id].physical])
    ensures SafeIfOnTime(s, [], id, []) && !HeadsWhole(RunAll(s, [] + [Publish(id)] + []))
  {
    hide HeadsWhole, Apply;
    SingleStep(s, Publish(id));
    assert [] + [Publish(id)] == [Publish(id)] && [Publish(id)] + [] == [Publish(id)];
    PublishedBroken(s, id);
  }

  lemma FourSteps(
    s: Store, scanned: Store, published: Store, collected: Store, before: seq<Step>, id: FileId, after: seq<Step>)
    requires |before| == 2 && |after| == 1 && !after[0].Publish?
    requires Enabled(s, before[0]) && Enabled(Apply(s, before[0]), before[1])
    requires scanned == Apply(Apply(s, before[0]), before[1]) && Enabled(scanned, Publish(id))
    requires published == Apply(scanned, Publish(id)) && Enabled(published, after[0])
    requires collected == Apply(published, after[0])
    ensures SafeIfOnTime(s, before, id, after) && RunAll(s, before + [Publish(id)] + after) == collected
  {
    hide Enabled, Apply;
    assert before == [before[0], before[1]] && after == [after[0]];
    TwoSteps(s, before[0], before[1]);
    SingleStep(scanned, Publish(id));
    RunJoins(s, before, [Publish(id)]);
    SingleStep(published, after[0]);
    RunJoins(s, before + [Publish(id)], after);
    NotLate(published, after[0]);
  }

  lemma SingleStep(s: Store, step: Step)
    requires Enabled(s, step)
    ensures Legal(s, [step]) && RunAll(s, [step]) == Apply(s, step)
  {
    assert [step][1..] == [];
  }

  lemma TwoSteps(s: Store, first: Step, second: Step)
    requires Enabled(s, first) && Enabled(Apply(s, first), second)
    ensures Legal(s, [first, second]) && RunAll(s, [first, second]) == Apply(Apply(s, first), second)
  {
    assert [first, second] == [first] + [second];
    RunStartsWith(s, first, [second]);
    SingleStep(Apply(s, first), second);
  }

  lemma NotLate(s: Store, step: Step)
    requires Enabled(s, step) && !step.Publish?
    ensures Legal(s, [step]) && AllOnTime(s, [step])
  {
    assert [step][1..] == [];
  }

  lemma ScanBeforePublish(s: Store, id: FileId, collector: nat) returns (scanned: Store)
    requires Inv(s) && Enabled(s, Publish(id)) && !OnTime(s, Publish(id)) && s.payload[s.writers[id].physical] != []
    requires GenerationOf(s.extents, s.writers[id].physical) == AsGeneration(s.payload[s.writers[id].physical])
    requires collector !in s.collectors
    ensures var key := ExtentKey(s.writers[id].physical, 0);
            && Enabled(s, ArmCollector(collector))
            && Enabled(Apply(s, ArmCollector(collector)), Scan(collector, {key}))
            && scanned == Apply(Apply(s, ArmCollector(collector)), Scan(collector, {key}))
            && scanned == s.(collectors := s.collectors[collector := Deleting({key})])
  {
    hide HeadsWhole, ReadersSound, CollectorsSound, Recorded, StagedIntact;
    var key := ExtentKey(s.writers[id].physical, 0);
    assert WriterSound(s, id) && 0 in AsGeneration(s.payload[s.writers[id].physical]);
    var armed := Apply(s, ArmCollector(collector));
    assert Reclaimable(armed, key, s.now - ORPHAN_GRACE_MS);
    scanned := Apply(armed, Scan(collector, {key}));
    assert scanned.collectors == s.collectors[collector := Deleting({key})];
  }

  lemma PublishThenCollect(s: Store, scanned: Store, id: FileId, collector: nat)
    returns (published: Store, collected: Store)
    requires Enabled(s, Publish(id)) && s.payload[s.writers[id].physical] != []
    requires scanned == s.(collectors := s.collectors[collector := Deleting({ExtentKey(s.writers[id].physical, 0)})])
    ensures var key := ExtentKey(s.writers[id].physical, 0);
            && Enabled(scanned, Publish(id)) && published == Apply(scanned, Publish(id))
            && Enabled(published, Collect(collector, {key})) && collected == Apply(published, Collect(collector, {key}))
            && !HeadsWhole(collected)
  {
    var physical := s.writers[id].physical;
    var key := ExtentKey(physical, 0);
    published := Apply(scanned, Publish(id));
    collected := Apply(published, Collect(collector, {key}));
    assert key in {key} && 0 in ExtentsOf({key}, physical);
    assert 0 !in GenerationOf(collected.extents, physical) && 0 in AsGeneration(s.payload[physical]);
    assert !HeadWhole(collected, id);
  }

  lemma PublishedBroken(s: Store, id: FileId)
    requires Enabled(s, Publish(id))
    requires GenerationOf(s.extents, s.writers[id].physical) != AsGeneration(s.payload[s.writers[id].physical])
    ensures !HeadsWhole(Apply(s, Publish(id))) && AllOnTime(Apply(s, Publish(id)), [])
  {
    assert !HeadWhole(Apply(s, Publish(id)), id);
  }

  /** The grace time is exact: in whatever state a file with extents is about to
      be published, publishing it is safe if and only if that is on time. */
  lemma GraceTimeIsExact(s: Store, id: FileId)
    requires Inv(s) && Enabled(s, Publish(id)) && s.payload[s.writers[id].physical] != []
    ensures OnTime(s, Publish(id)) <==> PublishIsSafe(s, id)
  {
    hide Inv, HeadsWhole, Enabled, Legal, RunAll;
    if OnTime(s, Publish(id)) {
      OnTimeIsSafe(s, id);
    } else {
      var before, after := LatePublishLoses(s, id);
    }
  }

  /** Such a state is reached by a replacement that takes that long. */
  lemma SlowReplacement(id: FileId, chunk: seq<byte>, elapsed: nat)
    ensures var steps := [BeginReplace(id, 0, [chunk]), PutExtent(id), Tick(elapsed)];
            && Legal(EMPTY, steps) && AllOnTime(EMPTY, steps)
            && var s := RunAll(EMPTY, steps);
               && Inv(s) && Enabled(s, Publish(id)) && s.payload[s.writers[id].physical] != []
               && (OnTime(s, Publish(id)) <==> elapsed < ORPHAN_GRACE_MS)
  {
    hide Inv;
    var begin, put, tick := BeginReplace(id, 0, [chunk]), PutExtent(id), Tick(elapsed);
    EmptyIsSound();
    var begun := Apply(EMPTY, begin);
    var whole := Apply(begun, put);
    var steps := [begin, put, tick];
    TwoSteps(EMPTY, begin, put);
    NotLate(whole, tick);
    SingleStep(whole, tick);
    assert steps == [begin] + ([put] + [tick]) && steps[1..] == [put] + [tick] && ([put] + [tick])[1..] == [tick];
    RunStartsWith(begun, put, [tick]);
    RunStartsWith(EMPTY, begin, [put] + [tick]);
    RunKeepsInv(EMPTY, steps);
  }
}
