/** The part of a read that runs under the shared lock. Recovery runs before it
    under a lock of its own, so the head it finds may carry a journal again. */
module SharedReads {
  import opened Basics

  import opened DiskModel
  import opened ExtentLayout
  import opened FileStore

  predicate ByteStored(generation: Generation, offset: nat) {
    offset / EXTENT_SIZE in generation && offset % EXTENT_SIZE < |generation[offset / EXTENT_SIZE]|
  }

  /** Every byte the head's size promises is stored. */
  ghost predicate Readable(generation: Generation, head: Head) {
    forall offset: nat :: offset < head.size ==> ByteStored(generation, offset)
  }

  /** All of a file can be read under the shared lock unless a shrink was cut
      short after it had begun to take bytes away. */
  lemma ReadableIff(generation: Generation, head: Head)
    requires HeadConsistent(generation, head)
    ensures Readable(generation, head)
       <==> head.state.Complete? || head.operation == Some(Operation.Grow) || CompleteExtents(generation, head.size)
  {
    hide ExtentLength, ExtentCount;
    if head.state.Complete? || CompleteExtents(generation, head.size) {
      forall offset: nat | offset < head.size ensures ByteStored(generation, offset) {
        StoredByte(generation, head.size, offset);
      }
    } else if head.operation.value.Grow? {
      forall offset: nat | offset < head.size ensures ByteStored(generation, offset) {
        Located(head.size, offset);
        LongerFilesHaveLongerExtents(head.size, head.targetSize.value, offset / EXTENT_SIZE);
      }
    } else if Readable(generation, head) {
      forall extent: nat | extent < ExtentCount(head.size)
        ensures extent in generation && |generation[extent]| == ExtentLength(head.size, extent)
      {
        LastByteOf(head.size, extent);
        LongerFilesHaveLongerExtents(head.targetSize.value, head.size, extent);
        assert ByteStored(generation, extent * EXTENT_SIZE + ExtentLength(head.size, extent) - 1);
      }
      assert false;
    }
  }

  lemma LongerFilesHaveLongerExtents(size: nat, larger: nat, extent: nat)
    requires size <= larger
    ensures ExtentLength(size, extent) <= ExtentLength(larger, extent)
  {
  }

  lemma LastByteOf(size: nat, extent: nat)
    requires extent < ExtentCount(size)
    ensures 0 < ExtentLength(size, extent) <= EXTENT_SIZE
    ensures var last := extent * EXTENT_SIZE + ExtentLength(size, extent) - 1;
            last < size && last / EXTENT_SIZE == extent && last % EXTENT_SIZE == ExtentLength(size, extent) - 1
  {
    SameOffset(extent * EXTENT_SIZE, ExtentLength(size, extent) - 1);
  }

  /** A stored byte below the effective size is the byte of the file, journal or not. */
  lemma StoredIsContent(generation: Generation, head: Head, offset: nat)
    requires ByteStored(generation, offset) && offset < EffectiveSize(head)
    ensures Content(generation, head)[offset] == generation[offset / EXTENT_SIZE][offset % EXTENT_SIZE]
  {
    ByteOf(generation, EffectiveSize(head), offset);
  }

  /** The byte stored at an offset. */
  predicate StoredAs(generation: Generation, offset: nat, value: byte) {
    ByteStored(generation, offset) && value == generation[offset / EXTENT_SIZE][offset % EXTENT_SIZE]
  }

  lemma ExtentsAreBounded(generation: Generation, head: Head)
    requires HeadConsistent(generation, head)
    ensures forall extent :: extent in generation ==> |generation[extent]| <= EXTENT_SIZE
  {
  }

  /** `NoProgress` is a loop of the source that never ends. */
  datatype SharedRead = Read(value: seq<byte>) | NoFile | PastTheEnd | MissingExtent | NoProgress

  method ReadShared(store: ExtentFileStore, id: FileId, offset: nat, length: nat) returns (r: SharedRead)
    requires store.Valid()
    ensures r.NoFile? <==> id !in store.heads
    ensures r.PastTheEnd? <==> id in store.heads && store.heads[id].size < offset + length
    ensures r.MissingExtent? || r.NoProgress? ==>
              && id in store.heads && store.heads[id].state.Mutating?
              && store.heads[id].operation == Some(Operation.Shrink)
              && !CompleteExtents(GenerationOf(store.extents, store.heads[id].physical), store.heads[id].size)
    ensures r.Read? ==>
              && id in store.heads && |r.value| == length
              && forall k: nat :: k < length && offset + k < |store.BytesOf(id)| ==>
                  r.value[k] == store.BytesOf(id)[offset + k]
  {
    hide Consistent, HeadConsistent, CompleteExtents, Content, Bytes;
    if id !in store.heads {
      return NoFile;
    }
    var head := store.heads[id];
    if offset + length > head.size {
      return PastTheEnd;
    }
    var generation := GenerationOf(store.extents, head.physical);
    HeadIsConsistent(store.Snapshot(), id);
    ReadableIff(generation, head);
    ExtentsAreBounded(generation, head);
    var output := [];
    while |output| < length
      invariant |output| <= length
      invariant forall k: nat :: k < |output| ==> StoredAs(generation, offset + k, output[k])
    {
      var absolute := offset + |output|;
      var extent, within := absolute / EXTENT_SIZE, absolute % EXTENT_SIZE;
      if extent !in generation {
        assert !ByteStored(generation, absolute);
        return MissingExtent;
      }
      var amount := Min(length - |output|, |generation[extent]| - within);
      if amount <= 0 {
        assert !ByteStored(generation, absolute);
        return NoProgress;
      }
      ghost var before := output;
      output := output + generation[extent][within..within + amount];
      forall k: nat | k < |output| ensures StoredAs(generation, offset + k, output[k]) {
        if |before| <= k {
          StaysInExtent(generation, absolute, k - |before|);
          assert offset + k == absolute + (k - |before|);
        } else {
          assert StoredAs(generation, offset + k, before[k]);
        }
      }
    }
    r := Read(output);
    forall k: nat | k < length && offset + k < |store.BytesOf(id)| ensures output[k] == store.BytesOf(id)[offset + k] {
      EffectiveIsLength(store.Snapshot(), id);
      assert StoredAs(generation, offset + k, output[k]);
      StoredIsContent(generation, head, offset + k);
    }
  }

  lemma HeadIsConsistent(disk: Disk, id: FileId)
    requires Consistent(disk) && id in disk.heads
    ensures HeadConsistent(GenerationOf(disk.extents, disk.heads[id].physical), disk.heads[id])
  {
    assert FileConsistent(disk, id);
  }

  lemma EffectiveIsLength(disk: Disk, id: FileId)
    requires id in disk.heads
    ensures |FileContent(disk, id)| == EffectiveSize(disk.heads[id])
  {
  }

  lemma StaysInExtent(generation: Generation, offset: nat, k: nat)
    requires offset / EXTENT_SIZE in generation && offset % EXTENT_SIZE + k < |generation[offset / EXTENT_SIZE]|
    requires offset % EXTENT_SIZE + k < EXTENT_SIZE
    ensures ByteStored(generation, offset + k)
    ensures (offset + k) / EXTENT_SIZE == offset / EXTENT_SIZE && (offset + k) % EXTENT_SIZE == offset % EXTENT_SIZE + k
  {
    SameOffset(offset, k);
  }

  /** A shrink from two bytes to one that was cut short once the boundary extent
      was rewritten: consistent, and recovery would finish it, but the second
      byte that the head still promises is gone. */
  lemma HalfShrunkIsUnreadable()
    ensures var generation := map[0 := [7]];
            var head := JournalHead(CompleteHead(0, 2, None), Operation.Shrink, 1);
            HeadConsistent(generation, head) && !Readable(generation, head)
  {
    var generation: Generation := map[0 := [7]];
    var head := JournalHead(CompleteHead(0, 2, None), Operation.Shrink, 1);
    assert ExtentCount(1) == 1 && ExtentCount(2) == 1;
    assert !ByteStored(generation, 1);
  }

  /** A generation is complete for one size only. */
  lemma CompleteForOneSize(generation: Generation, size: nat, target: nat)
    requires CompleteExtents(generation, target) && target < size
    ensures !CompleteExtents(generation, size)
  {
    var last := ExtentCount(size) - 1;
    assert ExtentLength(size, last) == size - last * EXTENT_SIZE;
    assert ExtentLength(target, last) < ExtentLength(size, last);
  }

  /** Such a state is left by a shrink whose last transaction does not commit:
      all others of it are these, for any file and any smaller size. */
  method ShrinkWithoutClosing(store: ExtentFileStore, id: FileId, target: nat) returns (tx: Transaction)
    requires store.Valid() && id in store.heads && store.heads[id].state.Complete? && target < store.heads[id].size
    modifies store`script, store`extents, store`heads
    ensures store.Valid()
    ensures tx.Committed? ==>
              && store.Files() == old(store.Files()[id := Resized(store.BytesOf(id), target)])
              && id in store.heads && !Readable(GenerationOf(store.extents, store.heads[id].physical), store.heads[id])
  {
    ghost var before := store.Snapshot();
    tx := store.PutHead(id, JournalHead(store.heads[id], Operation.Shrink, target));
    if tx.Committed? {
      OpenJournal(before, id, Operation.Shrink, target);
      tx := store.ApplyShrink(id, target);
      if tx.Committed? {
        var generation := GenerationOf(store.extents, store.heads[id].physical);
        HeadIsConsistent(store.Snapshot(), id);
        ReadableIff(generation, store.heads[id]);
        CompleteForOneSize(generation, store.heads[id].size, target);
      }
    }
  }
}
