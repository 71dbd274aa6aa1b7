/** The two object stores as one value, what they mean, and the invariant they
    keep between any two transactions. */
module DiskModel {
  import opened Basics
  import opened ExtentLayout

  type FileId = string

  /** The extent store, keyed by physical id and then by extent number. */
  type ExtentStore = map<PhysicalId, Generation>

  /** `issued` bounds every physical id handed out so far; `published` records
      the bytes each generation was published with. */
  datatype Disk = Disk(
    extents: ExtentStore,
    heads: map<FileId, Head>,
    issued: nat,
    published: map<PhysicalId, seq<byte>>)

  function GenerationOf(extents: ExtentStore, physical: PhysicalId): Generation {
    if physical in extents then extents[physical] else map[]
  }

  function FileContent(disk: Disk, id: FileId): seq<byte>
    requires id in disk.heads
  {
    Content(GenerationOf(disk.extents, disk.heads[id].physical), disk.heads[id])
  }

  /** The abstract store: a map from file id to bytes. */
  function View(disk: Disk): map<FileId, seq<byte>> {
    map id | id in disk.heads :: FileContent(disk, id)
  }

  /** One file is consistent, its physical id was handed out, and a checksum is
      only claimed for the bytes the generation was published with. */
  ghost predicate FileConsistent(disk: Disk, id: FileId)
    requires id in disk.heads
  {
    var head := disk.heads[id];
    && HeadConsistent(GenerationOf(disk.extents, head.physical), head)
    && head.physical < disk.issued
    && (head.checksum.Some? ==>
          head.physical in disk.published && disk.published[head.physical] == FileContent(disk, id))
  }

  ghost predicate Consistent(disk: Disk) {
    && (forall id :: id in disk.heads ==> FileConsistent(disk, id))
    && (forall id, other :: id in disk.heads && other in disk.heads && id != other ==>
          disk.heads[id].physical != disk.heads[other].physical)
    && (forall physical :: physical in disk.extents || physical in disk.published ==> physical < disk.issued)
  }

  ghost predicate SameHeadsExcept(before: map<FileId, Head>, after: map<FileId, Head>, id: FileId) {
    forall other :: other != id ==>
      (other in before <==> other in after) && (other in before ==> before[other] == after[other])
  }

  /** `after` differs from `before` at most in one file: its head, and the
      extents of generations no other file uses. */
  ghost predicate OneFileStep(before: Disk, after: Disk, id: FileId) {
    && before.issued <= after.issued
    && before.published == after.published
    && SameHeadsExcept(before.heads, after.heads, id)
    && (forall other :: other in before.heads && other != id ==>
          GenerationOf(after.extents, before.heads[other].physical)
          == GenerationOf(before.extents, before.heads[other].physical))
    && (forall physical :: physical in after.extents ==> physical < after.issued)
  }

  /** One file moves on; every other file keeps its head and its bytes. */
  lemma OneFileMovesOn(before: Disk, after: Disk, id: FileId)
    requires Consistent(before) && OneFileStep(before, after, id)
    requires id in after.heads && FileConsistent(after, id)
    requires forall other :: other in before.heads && other != id ==>
               before.heads[other].physical != after.heads[id].physical
    ensures Consistent(after)
    ensures View(after) == View(before)[id := FileContent(after, id)]
  {
    OthersStay(before, after, id);
    ViewFollows(before, after, id);
  }

  lemma OneFileGoes(before: Disk, after: Disk, id: FileId)
    requires Consistent(before) && OneFileStep(before, after, id)
    requires id !in after.heads
    ensures Consistent(after)
    ensures View(after) == View(before) - {id}
  {
    OthersStay(before, after, id);
    ViewFollows(before, after, id);
  }

  lemma ViewFollows(before: Disk, after: Disk, id: FileId)
    requires SameHeadsExcept(before.heads, after.heads, id)
    requires forall other :: other in after.heads && other != id ==>
               && other in before.heads
               && FileContent(after, other) == FileContent(before, other)
    ensures View(after) == if id in after.heads then View(before)[id := FileContent(after, id)] else View(before) - {id}
  {
    MapsFollow(View(before), View(after), id);
  }

  lemma MapsFollow<K, V>(before: map<K, V>, after: map<K, V>, key: K)
    requires forall other :: other != key ==>
               (other in before <==> other in after) && (other in after ==> after[other] == before[other])
    ensures after == if key in after then before[key := after[key]] else before - {key}
  {
    if key in after {
      assert after.Keys == before[key := after[key]].Keys;
    } else {
      assert after.Keys == (before - {key}).Keys;
    }
  }

  lemma OthersStay(before: Disk, after: Disk, id: FileId)
    requires Consistent(before) && OneFileStep(before, after, id)
    ensures forall other :: other in after.heads && other != id ==>
              && other in before.heads
              && FileConsistent(after, other)
              && FileContent(after, other) == FileContent(before, other)
  {
    forall other | other in after.heads && other != id
      ensures && other in before.heads
              && FileConsistent(after, other)
              && FileContent(after, other) == FileContent(before, other)
    {
      assert other in before.heads && after.heads[other] == before.heads[other];
    }
  }

  /** Extents of a generation that no head names are invisible. */
  lemma UnnamedGenerationIsInvisible(before: Disk, after: Disk)
    requires Consistent(before)
    requires before.heads == after.heads && before.issued <= after.issued && before.published == after.published
    requires forall id :: id in before.heads ==>
               GenerationOf(after.extents, before.heads[id].physical)
               == GenerationOf(before.extents, before.heads[id].physical)
    requires forall physical :: physical in after.extents ==> physical < after.issued
    ensures Consistent(after) && View(after) == View(before)
  {
    forall id | id in before.heads
      ensures FileConsistent(after, id) && FileContent(after, id) == FileContent(before, id)
    {
    }
  }

  /** No head names this generation. */
  ghost predicate Unnamed(heads: map<FileId, Head>, issued: nat, physical: PhysicalId) {
    physical < issued && forall id :: id in heads ==> heads[id].physical != physical
  }

  lemma UnnamedPut(before: Disk, physical: PhysicalId, generation: Generation)
    requires Consistent(before) && Unnamed(before.heads, before.issued, physical)
    ensures Consistent(WithGeneration(before, physical, generation))
    ensures View(WithGeneration(before, physical, generation)) == View(before)
  {
    UnnamedGenerationIsInvisible(before, WithGeneration(before, physical, generation));
  }

  // --- single transactions ------------------------------------------------------------------

  /** The store after the extents of one file's own generation changed. */
  function WithGeneration(disk: Disk, physical: PhysicalId, generation: Generation): Disk {
    disk.(extents := disk.extents[physical := generation])
  }

  /** A step of replaying a journal keeps the whole store as long as the head
      stays consistent and the file means the same bytes. */
  lemma ReplayStep(before: Disk, id: FileId, generation: Generation)
    requires Consistent(before) && id in before.heads && before.heads[id].checksum.None?
    requires HeadConsistent(generation, before.heads[id])
    requires Content(generation, before.heads[id]) == FileContent(before, id)
    ensures var after := WithGeneration(before, before.heads[id].physical, generation);
            Consistent(after) && View(after) == View(before)
  {
    var after := WithGeneration(before, before.heads[id].physical, generation);
    OneFileMovesOn(before, after, id);
  }

  /** Closing the journal: the head becomes complete at the target size. */
  lemma CloseJournal(before: Disk, id: FileId)
    requires Consistent(before) && id in before.heads && before.heads[id].state.Mutating?
    requires CompleteExtents(GenerationOf(before.extents, before.heads[id].physical), EffectiveSize(before.heads[id]))
    ensures var head := before.heads[id];
            var after := before.(heads := before.heads[id := CompleteHead(head.physical, EffectiveSize(head), None)]);
            Consistent(after) && View(after) == View(before)
  {
    var head := before.heads[id];
    var after := before.(heads := before.heads[id := CompleteHead(head.physical, EffectiveSize(head), None)]);
    OneFileMovesOn(before, after, id);
  }

  /** Opening the journal: the one step of a size change that is visible. */
  lemma OpenJournal(before: Disk, id: FileId, operation: Operation, target: nat)
    requires Consistent(before) && id in before.heads && before.heads[id].state.Complete?
    requires if operation.Grow? then before.heads[id].size <= target else target <= before.heads[id].size
    ensures var after := before.(heads := before.heads[id := JournalHead(before.heads[id], operation, target)]);
            Consistent(after) && View(after) == View(before)[id := Resized(FileContent(before, id), target)]
  {
    var head := before.heads[id];
    var after := before.(heads := before.heads[id := JournalHead(head, operation, target)]);
    JournalIsConsistent(GenerationOf(before.extents, head.physical), head, operation, target);
    Rescaled(GenerationOf(before.extents, head.physical), head.size, target);
    OneFileMovesOn(before, after, id);
  }

  lemma NewFile(before: Disk, id: FileId, physical: PhysicalId)
    requires Consistent(before) && id !in before.heads
    requires Unnamed(before.heads, before.issued, physical) && GenerationOf(before.extents, physical) == map[]
    ensures var after := before.(heads := before.heads[id := CompleteHead(physical, 0, None)]);
            Consistent(after) && View(after) == View(before)[id := []]
  {
    var after := before.(heads := before.heads[id := CompleteHead(physical, 0, None)]);
    OneFileMovesOn(before, after, id);
  }

  lemma ForgetChecksum(before: Disk, id: FileId)
    requires Consistent(before) && id in before.heads && before.heads[id].state.Complete?
    ensures var after := before.(heads := before.heads[id := before.heads[id].(checksum := None)]);
            Consistent(after) && View(after) == View(before)
  {
    var after := before.(heads := before.heads[id := before.heads[id].(checksum := None)]);
    OneFileMovesOn(before, after, id);
  }

  lemma WriteStep(before: Disk, id: FileId, offset: nat, piece: seq<byte>)
    requires Consistent(before) && id in before.heads
    requires before.heads[id].state.Complete? && before.heads[id].checksum.None?
    requires offset + |piece| <= before.heads[id].size
    requires var generation := GenerationOf(before.extents, before.heads[id].physical);
             var extent := offset / EXTENT_SIZE;
             extent in generation && offset % EXTENT_SIZE + |piece| <= |generation[extent]|
    ensures var head := before.heads[id];
            var generation := GenerationOf(before.extents, head.physical);
            var extent := offset / EXTENT_SIZE;
            var written := generation[extent := Splice(generation[extent], offset % EXTENT_SIZE, piece)];
            var after := WithGeneration(before, head.physical, written);
            Consistent(after) && View(after) == View(before)[id := Splice(FileContent(before, id), offset, piece)]
  {
    var head := before.heads[id];
    var generation := GenerationOf(before.extents, head.physical);
    var extent := offset / EXTENT_SIZE;
    var written := generation[extent := Splice(generation[extent], offset % EXTENT_SIZE, piece)];
    var after := WithGeneration(before, head.physical, written);
    Overwritten(generation, head.size, offset, piece);
    OneFileMovesOn(before, after, id);
  }

  /** Publishing a fully written generation under a fresh id replaces the file
      in one step, and records the bytes its checksum stands for. */
  lemma PublishStep(before: Disk, id: FileId, physical: PhysicalId, size: nat, checksum: Option<string>)
    requires Consistent(before) && physical < before.issued
    requires forall other :: other in before.heads ==> before.heads[other].physical != physical
    requires CompleteExtents(GenerationOf(before.extents, physical), size)
    ensures var bytes := Bytes(GenerationOf(before.extents, physical), size);
            var after := before.(
              heads := before.heads[id := CompleteHead(physical, size, checksum)],
              published := before.published[physical := bytes]);
            Consistent(after) && View(after) == View(before)[id := bytes]
  {
    var bytes := Bytes(GenerationOf(before.extents, physical), size);
    var recorded := before.(published := before.published[physical := bytes]);
    var after := recorded.(heads := before.heads[id := CompleteHead(physical, size, checksum)]);
    assert Consistent(recorded) && View(recorded) == View(before) by {
      forall other | other in before.heads ensures FileConsistent(recorded, other) {
        assert FileConsistent(before, other);
      }
    }
    OneFileMovesOn(recorded, after, id);
  }
}
