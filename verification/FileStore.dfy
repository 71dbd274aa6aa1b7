/** The extent-backed file store. Every method below issues the transactions of
    the source one by one; `script` says how each of them ends, so that a
    contract holds for every crash point and every failing transaction. */
module FileStore {
  import opened Basics
  import opened ExtentLayout
  import opened DiskModel

  datatype FileError =
    | NoSuchFile
    | CannotShrink
    | CannotGrow
    | PastEnd
    | SourceExceeded
    | SourceTooShort
    | SourceFailed
    | StorageAborted

  /** `Crashed` means that the browser died inside the call. */
  datatype Outcome<+T> = Done(value: T) | Failed(error: FileError) | Crashed

  datatype Transaction = Committed | Aborted | Died

  /** A transaction may only abort if the script says so, and the browser only
      dies at the end of it. */
  predicate EndsAs(before: seq<bool>, after: seq<bool>, tx: Transaction) {
    && (false in after ==> false in before)
    && (tx.Aborted? ==> false in before)
    && (tx.Died? ==> after == [])
  }

  /** A call fails only for one of the given reasons, or because the script
      made one of its transactions abort. */
  predicate Explained<T>(before: seq<bool>, after: seq<bool>, r: Outcome<T>, reasons: set<FileError>) {
    && (false in after ==> false in before)
    && (r.Failed? ==> if r.error == StorageAborted then false in before else r.error in reasons)
    && (r.Crashed? ==> after == [])
  }

  function Stopped<T>(tx: Transaction): Outcome<T>
    requires !tx.Committed?
  {
    if tx.Died? then Crashed else Failed(StorageAborted)
  }

  const STREAM_CHUNK_SIZE: int := 256 * 1024

  function Flatten(chunks: seq<seq<byte>>): seq<byte> {
    if chunks == [] then [] else Flatten(chunks[..|chunks| - 1]) + chunks[|chunks| - 1]
  }

  lemma FlattenNone()
    ensures Flatten([]) == []
  {
  }

  lemma FlattenAppend(chunks: seq<seq<byte>>, chunk: seq<byte>)
    ensures Flatten(chunks + [chunk]) == Flatten(chunks) + chunk
  {
    assert (chunks + [chunk])[..|chunks|] == chunks;
  }

  /** The file is there as before, and its head names the same generation. */
  predicate SameGeneration(before: map<FileId, Head>, after: map<FileId, Head>, id: FileId) {
    (id in before <==> id in after) && (id in before ==> after[id].physical == before[id].physical)
  }

  /** No generation but this one has changed. */
  ghost predicate OnlyTouches(before: map<PhysicalId, Generation>, after: map<PhysicalId, Generation>,
      physical: PhysicalId)
  {
    forall other :: other != physical ==> GenerationOf(after, other) == GenerationOf(before, other)
  }

  lemma SameSize(bytes: seq<byte>)
    ensures Resized(bytes, |bytes|) == bytes
  {
  }

  lemma CutIsResized(bytes: seq<byte>, size: nat)
    requires size <= |bytes|
    ensures Resized(bytes, size) == bytes[..size]
  {
  }

  lemma UpdateTwice<K, V>(m: map<K, V>, key: K, first: V, second: V)
    ensures m[key := first][key := second] == m[key := second]
  {
  }

  class ExtentFileStore {
    var extents: ExtentStore
    var heads: map<FileId, Head>
    /** Physical ids below this one have been handed out. */
    var issued: nat
    /** How the coming transactions end: true commits, false aborts, and
        nothing more commits once the script is empty. */
    var script: seq<bool>
    ghost var published: map<PhysicalId, seq<byte>>

    ghost function Snapshot(): Disk
      reads this
    {
      Disk(extents, heads, issued, published)
    }

    ghost predicate Valid()
      reads this
    {
      Consistent(Snapshot())
    }

    /** The abstract store. */
    ghost function Files(): map<FileId, seq<byte>>
      reads this
    {
      View(Snapshot())
    }

    ghost function BytesOf(id: FileId): seq<byte>
      reads this
    {
      if id in heads then FileContent(Snapshot(), id) else []
    }

    lemma BytesOfFile(id: FileId)
      requires id in heads
      ensures id in Files() && BytesOf(id) == Files()[id] && |BytesOf(id)| == EffectiveSize(heads[id])
    {
    }

    function ReadHead(id: FileId): Option<Head>
      reads this
    {
      if id in heads then Some(heads[id]) else None
    }

    constructor ()
      ensures Valid() && Files() == map[]
    {
      extents, heads, issued, script, published := map[], map[], 0, [], map[];
    }

    /** The browser starts again; nothing in the object stores changes. */
    method Restart(nextScript: seq<bool>)
      modifies this`script
      ensures script == nextScript
    {
      script := nextScript;
    }

    // --- one transaction each -----------------------------------------------------------------

    method Begin() returns (tx: Transaction)
      modifies this`script
      ensures tx.Died? <==> old(script) == []
      ensures !tx.Died? ==> script == old(script)[1..] && (tx.Committed? <==> old(script)[0])
      ensures EndsAs(old(script), script, tx)
    {
      if script == [] {
        return Died;
      }
      tx := if script[0] then Committed else Aborted;
      script := script[1..];
    }

    method PutHead(id: FileId, head: Head) returns (tx: Transaction)
      modifies this`script, this`heads
      ensures heads == if tx.Committed? then old(heads)[id := head] else old(heads)
      ensures EndsAs(old(script), script, tx)
    {
      tx := Begin();
      if tx.Committed? {
        heads := heads[id := head];
      }
    }

    method RemoveHead(id: FileId) returns (tx: Transaction)
      modifies this`script, this`heads
      ensures heads == if tx.Committed? then old(heads) - {id} else old(heads)
      ensures EndsAs(old(script), script, tx)
    {
      tx := Begin();
      if tx.Committed? {
        heads := heads - {id};
      }
    }

    method PutPhysicalExtent(physical: PhysicalId, extent: nat, value: seq<byte>) returns (tx: Transaction)
      requires 0 < |value| <= EXTENT_SIZE
      modifies this`script, this`extents
      ensures extents == if tx.Committed?
                         then old(extents)[physical := GenerationOf(old(extents), physical)[extent := value]]
                         else old(extents)
      ensures EndsAs(old(script), script, tx)
    {
      tx := Begin();
      if tx.Committed? {
        extents := extents[physical := GenerationOf(extents, physical)[extent := value]];
      }
    }

    method DeleteExtents(physical: PhysicalId, start: nat, end: nat) returns (tx: Transaction)
      requires start <= end <= start + MAX_EXTENTS_PER_TRANSACTION
      modifies this`script, this`extents
      ensures extents == if tx.Committed?
                         then old(extents)[physical := WithoutRange(GenerationOf(old(extents), physical), start, end)]
                         else old(extents)
      ensures EndsAs(old(script), script, tx)
    {
      tx := Begin();
      if tx.Committed? {
        extents := extents[physical := WithoutRange(GenerationOf(extents, physical), start, end)];
      }
    }

    method NextPhysicalId() returns (physical: PhysicalId)
      requires Valid()
      modifies this`issued
      ensures Valid() && Files() == old(Files())
      ensures physical == old(issued) && issued == old(issued) + 1
      ensures Unnamed(heads, issued, physical) && GenerationOf(extents, physical) == map[] && physical !in published
    {
      hide Consistent, View, Unnamed;
      physical := issued;
      NextIdIsUnnamed(Snapshot());
      issued := issued + 1;
    }

    // --- recovery and size changes ------------------------------------------------------------

    /** Removes a generation that no head names, in bounded transactions. */
    method DeletePhysical(physical: PhysicalId, count: nat) returns (tx: Transaction)
      requires Valid() && Unnamed(heads, issued, physical)
      modifies this`script, this`extents
      ensures Valid() && Files() == old(Files())
      ensures forall extent :: extent in GenerationOf(extents, physical) ==>
          extent in GenerationOf(old(extents), physical)
      ensures tx.Committed? ==> forall extent :: extent in GenerationOf(extents, physical) ==> count <= extent
      ensures forall other :: other != physical ==> GenerationOf(extents, other) == GenerationOf(old(extents), other)
      ensures EndsAs(old(script), script, tx)
    {
      var start := 0;
      while start < count
        invariant Valid() && Files() == old(Files())
        invariant forall extent :: extent in GenerationOf(extents, physical) ==>
                    extent in GenerationOf(old(extents), physical) && (start <= extent || count <= extent)
        invariant forall other :: other != physical ==>
                    GenerationOf(extents, other) == GenerationOf(old(extents), other)
        invariant false in script ==> false in old(script)
      {
        var end := Min(count, start + MAX_EXTENTS_PER_TRANSACTION);
        UnnamedPut(Snapshot(), physical, WithoutRange(GenerationOf(extents, physical), start, end));
        tx := DeleteExtents(physical, start, end);
        if !tx.Committed? {
          return;
        }
        start := start + MAX_EXTENTS_PER_TRANSACTION;
      }
      tx := Committed;
    }

    method ApplyGrow(id: FileId, target: nat) returns (tx: Transaction)
      requires Valid() && id in heads && Journalled(heads[id], Operation.Grow, target)
      modifies this`script, this`extents
      ensures Valid() && Files() == old(Files())
      ensures tx.Committed? ==> CompleteExtents(GenerationOf(extents, heads[id].physical), target)
      ensures EndsAs(old(script), script, tx)
    {
      var extent := 0;
      while extent < ExtentCount(target)
        invariant extent <= ExtentCount(target)
        invariant Valid() && Files() == old(Files())
        invariant forall done: nat :: done < extent ==> IsGrown(GenerationOf(extents, heads[id].physical), target, done)
        invariant false in script ==> false in old(script)
      {
        tx := GrowExtent(id, target, extent);
        if !tx.Committed? {
          return;
        }
        extent := extent + 1;
      }
      GrownIsComplete(GenerationOf(extents, heads[id].physical), heads[id], target);
      tx := Committed;
    }

    method GrowExtent(id: FileId, target: nat, extent: nat) returns (tx: Transaction)
      requires Valid() && id in heads && Journalled(heads[id], Operation.Grow, target) && extent < ExtentCount(target)
      modifies this`script, this`extents
      ensures Valid() && Files() == old(Files())
      ensures tx.Committed? ==> IsGrown(GenerationOf(extents, heads[id].physical), target, extent)
      ensures forall other ::
                other != extent && IsGrown(GenerationOf(old(extents), heads[id].physical), target, other) ==>
                IsGrown(GenerationOf(extents, heads[id].physical), target, other)
      ensures EndsAs(old(script), script, tx)
    {
      hide Consistent, View, HeadConsistent, Content, Resized;
      JournalIsReplayable(Snapshot(), id);
      var physical := heads[id].physical;
      var required := ExtentLength(target, extent);
      var generation := GenerationOf(extents, physical);
      var current := Stored(generation, extent);
      if extent in generation && |current| == required {
        return Committed;
      }
      Padded(generation, heads[id], target, extent);
      // The source's "oversized extent" throw is unreachable.
      assert |current| <= required;
      ghost var before := Snapshot();
      tx := PutPhysicalExtent(physical, extent, Resized(current, required));
      if tx.Committed? {
        ReplayStep(before, id, GenerationOf(extents, physical));
      }
    }

    method ApplyShrink(id: FileId, target: nat) returns (tx: Transaction)
      requires Valid() && id in heads && Journalled(heads[id], Operation.Shrink, target)
      modifies this`script, this`extents
      ensures Valid() && Files() == old(Files())
      ensures tx.Committed? ==> CompleteExtents(GenerationOf(extents, heads[id].physical), target)
      ensures EndsAs(old(script), script, tx)
    {
      tx := CutBoundary(id, target);
      if tx.Committed? {
        tx := DropTail(id, target);
      }
    }

    method CutBoundary(id: FileId, target: nat) returns (tx: Transaction)
      requires Valid() && id in heads && Journalled(heads[id], Operation.Shrink, target)
      modifies this`script, this`extents
      ensures Valid() && Files() == old(Files())
      ensures tx.Committed? ==> BoundaryIsCut(GenerationOf(extents, heads[id].physical), target)
      ensures EndsAs(old(script), script, tx)
    {
      var physical := heads[id].physical;
      tx := Committed;
      if ExtentCount(target) > 0 {
        var last := ExtentCount(target) - 1;
        var required := ExtentLength(target, last);
        var generation := GenerationOf(extents, physical);
        Cut(generation, heads[id], target, last);
        // The source's "missing boundary extent" throw is unreachable.
        assert last in generation && required <= |generation[last]|;
        if |generation[last]| != required {
          ghost var before := Snapshot();
          tx := PutPhysicalExtent(physical, last, generation[last][..required]);
          if tx.Committed? {
            ReplayStep(before, id, GenerationOf(extents, physical));
          }
        }
      }
    }

    method DropTail(id: FileId, target: nat) returns (tx: Transaction)
      requires Valid() && id in heads && Journalled(heads[id], Operation.Shrink, target)
      requires BoundaryIsCut(GenerationOf(extents, heads[id].physical), target)
      modifies this`script, this`extents
      ensures Valid() && Files() == old(Files())
      ensures tx.Committed? ==> CompleteExtents(GenerationOf(extents, heads[id].physical), target)
      ensures EndsAs(old(script), script, tx)
    {
      var head := heads[id];
      var start := ExtentCount(target);
      while start < ExtentCount(head.size)
        invariant Valid() && Files() == old(Files())
        invariant ExtentCount(target) <= start
        invariant BoundaryIsCut(GenerationOf(extents, head.physical), target)
        invariant forall extent :: extent in GenerationOf(extents, head.physical) ==>
                    extent < ExtentCount(target) || start <= extent
        invariant false in script ==> false in old(script)
      {
        var end := Min(ExtentCount(head.size), start + MAX_EXTENTS_PER_TRANSACTION);
        ghost var before := Snapshot();
        Dropped(GenerationOf(extents, head.physical), head, target, start, end);
        tx := DeleteExtents(head.physical, start, end);
        if !tx.Committed? {
          return;
        }
        ReplayStep(before, id, GenerationOf(extents, head.physical));
        start := start + MAX_EXTENTS_PER_TRANSACTION;
      }
      DroppedTailIsComplete(GenerationOf(extents, head.physical), head, target);
      tx := Committed;
    }

    /** Replays the journal of a file, if it has one. However often it is cut
        short, no file changes; when it completes, the head is complete. */
    method RecoverHead(id: FileId) returns (r: Outcome<Option<Head>>)
      requires Valid()
      modifies this`script, this`extents, this`heads
      ensures Valid() && Files() == old(Files())
      ensures SameHeadsExcept(old(heads), heads, id) && SameGeneration(old(heads), heads, id)
      ensures Explained(old(script), script, r, {})
      ensures r.Done? ==> r.value == ReadHead(id)
      ensures r.Done? && id in heads ==> heads[id].state.Complete?
      ensures id !in old(heads) || old(heads[id].state.Complete?) ==>
                r.Done? && heads == old(heads) && extents == old(extents)
    {
      if id !in heads || heads[id].state.Complete? {
        return Done(ReadHead(id));
      }
      var head := heads[id];
      // The source's "invalid journal" throw is unreachable.
      assert head.operation.Some? && head.targetSize.Some?;
      var target := head.targetSize.value;
      var tx;
      if head.operation.value.Grow? {
        tx := ApplyGrow(id, target);
      } else {
        tx := ApplyShrink(id, target);
      }
      if !tx.Committed? {
        return Stopped(tx);
      }
      ghost var before := Snapshot();
      tx := PutHead(id, CompleteHead(head.physical, target, None));
      if !tx.Committed? {
        return Stopped(tx);
      }
      CloseJournal(before, id);
      return Done(ReadHead(id));
    }

    /** Recovery when its result is not needed. */
    method EnsureComplete(id: FileId) returns (r: Outcome<()>)
      requires Valid()
      modifies this`script, this`extents, this`heads
      ensures Valid() && Files() == old(Files())
      ensures SameHeadsExcept(old(heads), heads, id) && SameGeneration(old(heads), heads, id)
      ensures Explained(old(script), script, r, {})
      ensures r.Done? && id in heads ==> heads[id].state.Complete?
      ensures BytesOf(id) == old(BytesOf(id)) && (id in heads <==> id in old(heads))
    {
      var recovered := RecoverHead(id);
      assert id in heads <==> id in Files();
      match recovered {
        case Done(_) => r := Done(());
        case Failed(error) => r := Failed(error);
        case Crashed => r := Crashed;
      }
    }

    method MutateSize(id: FileId, operation: Operation, target: nat) returns (r: Outcome<()>)
      requires Valid() && id in heads && heads[id].state.Complete?
      requires if operation.Grow? then heads[id].size <= target else target <= heads[id].size
      modifies this`script, this`extents, this`heads
      ensures Valid()
      ensures Explained(old(script), script, r, {})
      ensures Files() == old(Files()) || Files() == old(Files()[id := Resized(BytesOf(id), target)])
      ensures r.Done? ==> Files() == old(Files()[id := Resized(BytesOf(id), target)])
    {
      ghost var before := Snapshot();
      var tx := PutHead(id, JournalHead(heads[id], operation, target));
      if !tx.Committed? {
        return Stopped(tx);
      }
      OpenJournal(before, id, operation, target);
      r := EnsureComplete(id);
    }

    // --- the operations on one logical file ---------------------------------------------------

    /** Grows a file, creating it if needed. Whatever the script, the file is
        unchanged, padded to the new size, or, if it is new, still empty. */
    method Grow(id: FileId, size: nat) returns (r: Outcome<()>)
      requires Valid()
      modifies this`script, this`extents, this`heads, this`issued
      ensures Valid()
      ensures Explained(old(script), script, r, {CannotShrink})
      ensures r.Done? ==> Files() == old(Files()[id := Resized(BytesOf(id), size)])
      ensures r == Failed(CannotShrink) ==> size < old(|BytesOf(id)|)
      ensures size < old(|BytesOf(id)|) ==> !r.Done? && Files() == old(Files())
      ensures || Files() == old(Files())
              || Files() == old(Files()[id := Resized(BytesOf(id), size)])
              || (id !in old(heads) && Files() == old(Files()[id := []]))
    {
      hide Consistent, FileContent, Resized;
      if id in heads {
        BytesOfFile(id);
      }
      r := EnsureComplete(id);
      if !r.Done? {
        return;
      }
      if id in heads {
        BytesOfFile(id);
        SameSize(BytesOf(id));
      }
      var oldSize := if id in heads then heads[id].size else 0;
      if size < oldSize {
        return Failed(CannotShrink);
      }
      if id in heads && size == oldSize {
        return;
      }
      r := GrowComplete(id, size);
    }

    method GrowComplete(id: FileId, size: nat) returns (r: Outcome<()>)
      requires Valid()
      requires id in heads ==> heads[id].state.Complete? && heads[id].size <= size
      modifies this`script, this`extents, this`heads, this`issued
      ensures Valid()
      ensures Explained(old(script), script, r, {})
      ensures r.Done? ==> Files() == old(Files()[id := Resized(BytesOf(id), size)])
      ensures || Files() == old(Files())
              || Files() == old(Files()[id := Resized(BytesOf(id), size)])
              || (id !in old(heads) && Files() == old(Files()[id := []]))
    {
      if id in heads {
        r := MutateSize(id, Operation.Grow, size);
        return;
      }
      ghost var files := Files();
      r := CreateEmpty(id);
      if r.Done? {
        assert BytesOf(id) == [] && Files() == files[id := []];
        UpdateTwice(files, id, [], Resized([], size));
        r := MutateSize(id, Operation.Grow, size);
      }
    }

    method CreateEmpty(id: FileId) returns (r: Outcome<()>)
      requires Valid() && id !in heads
      modifies this`script, this`heads, this`issued
      ensures Valid()
      ensures Explained(old(script), script, r, {})
      ensures Files() == if r.Done? then old(Files())[id := []] else old(Files())
      ensures r.Done? ==> id in heads && heads[id].state.Complete? && heads[id].size == 0
    {
      var physical := NextPhysicalId();
      ghost var before := Snapshot();
      var tx := PutHead(id, CompleteHead(physical, 0, None));
      if !tx.Committed? {
        return Stopped(tx);
      }
      NewFile(before, id, physical);
      return Done(());
    }

    /** Cuts a file. Whatever the script, the file is unchanged or cut to the target. */
    method Shrink(id: FileId, size: nat) returns (r: Outcome<()>)
      requires Valid()
      modifies this`script, this`extents, this`heads
      ensures Valid()
      ensures Explained(old(script), script, r, {NoSuchFile, CannotGrow})
      ensures r.Done? ==>
                id in old(heads) && size <= old(|BytesOf(id)|) && Files() == old(Files()[id := BytesOf(id)[..size]])
      ensures r == Failed(NoSuchFile) ==> id !in old(heads)
      ensures r == Failed(CannotGrow) ==> id in old(heads) && old(|BytesOf(id)|) < size
      ensures id !in old(heads) || old(|BytesOf(id)|) < size ==> Files() == old(Files())
      ensures id in old(heads) && size <= old(|BytesOf(id)|) ==>
                Files() == old(Files()) || Files() == old(Files()[id := BytesOf(id)[..size]])
    {
      hide Consistent, FileContent, Resized;
      if id in heads {
        BytesOfFile(id);
      }
      r := EnsureComplete(id);
      if !r.Done? {
        return;
      }
      if id !in heads {
        return Failed(NoSuchFile);
      }
      BytesOfFile(id);
      if size <= |BytesOf(id)| {
        CutIsResized(BytesOf(id), size);
      }
      if heads[id].size < size {
        return Failed(CannotGrow);
      }
      if heads[id].size == size {
        SameSize(BytesOf(id));
        return;
      }
      r := MutateSize(id, Operation.Shrink, size);
    }

    /** Overwrites a range inside a file. Whatever the script, exactly the first
        `written` bytes of the range are new and nothing else changed. */
    method Write(id: FileId, offset: nat, data: seq<byte>) returns (r: Outcome<()>, ghost written: nat)
      requires Valid()
      modifies this`script, this`extents, this`heads
      ensures Valid()
      ensures Explained(old(script), script, r, {NoSuchFile, CannotGrow})
      ensures r == Failed(NoSuchFile) ==> id !in old(heads)
      ensures r == Failed(CannotGrow) ==> id in old(heads) && old(|BytesOf(id)|) < offset + |data|
      ensures r.Done? ==> id in old(heads) && offset + |data| <= old(|BytesOf(id)|) && written == |data|
      ensures written <= |data|
      ensures if id in old(heads) && offset + |data| <= old(|BytesOf(id)|)
              then Files() == old(Files())[id := Splice(old(BytesOf(id)), offset, data[..written])]
              else Files() == old(Files())
    {
      written := 0;
      r := EnsureComplete(id);
      if id in heads && offset + |data| <= |BytesOf(id)| {
        NothingWritten(Files(), id, offset, data);
      }
      if !r.Done? {
        return;
      }
      if id !in heads {
        return Failed(NoSuchFile), 0;
      }
      if offset + |data| > heads[id].size {
        return Failed(CannotGrow), 0;
      }
      if data == [] {
        return;
      }
      // The checksum is given up before the first extent changes.
      r := DropChecksum(id);
      if r.Done? {
        r, written := WriteExtents(id, offset, data);
      }
    }

    method DropChecksum(id: FileId) returns (r: Outcome<()>)
      requires Valid() && id in heads && heads[id].state.Complete?
      modifies this`script, this`heads
      ensures Valid() && Files() == old(Files())
      ensures SameHeadsExcept(old(heads), heads, id)
      ensures Explained(old(script), script, r, {})
      ensures id in heads && heads[id].state.Complete? && heads[id].size == old(heads[id].size)
      ensures r.Done? ==> heads[id].checksum.None?
    {
      if heads[id].checksum.Some? {
        ghost var before := Snapshot();
        var tx := PutHead(id, heads[id].(checksum := None));
        if !tx.Committed? {
          return Stopped(tx);
        }
        ForgetChecksum(before, id);
      }
      r := Done(());
    }

    method WriteExtents(id: FileId, offset: nat, data: seq<byte>) returns (r: Outcome<()>, ghost written: nat)
      requires Valid() && id in heads && heads[id].state.Complete? && heads[id].checksum.None?
      requires offset + |data| <= heads[id].size
      modifies this`script, this`extents
      ensures Valid()
      ensures Explained(old(script), script, r, {})
      ensures written <= |data| && (r.Done? ==> written == |data|)
      ensures Files() == old(Files())[id := Splice(old(BytesOf(id)), offset, data[..written])]
    {
      hide Files, BytesOf, Valid;
      BytesOfFile(id);
      ghost var files := Files();
      ghost var content := BytesOf(id);
      NothingWritten(files, id, offset, data);
      var consumed := 0;
      while consumed < |data|
        invariant consumed <= |data|
        invariant Valid()
        invariant Files() == files[id := Splice(content, offset, data[..consumed])]
        invariant false in script ==> false in old(script)
      {
        var tx, amount := WriteNext(id, offset, data, consumed, files, content);
        if !tx.Committed? {
          return Stopped(tx), consumed;
        }
        consumed := consumed + amount;
      }
      return Done(()), consumed;
    }

    /** One turn of the loop, stated against the file before the whole write. */
    method WriteNext(
      id: FileId, offset: nat, data: seq<byte>, consumed: nat, ghost files: map<FileId, seq<byte>>,
      ghost content: seq<byte>)
      returns (tx: Transaction, amount: nat)
      requires Valid() && id in heads && heads[id].state.Complete? && heads[id].checksum.None?
      requires |content| == heads[id].size && offset + |data| <= |content| && consumed < |data|
      requires Files() == files[id := Splice(content, offset, data[..consumed])]
      modifies this`script, this`extents
      ensures Valid()
      ensures EndsAs(old(script), script, tx)
      ensures 0 < amount <= |data| - consumed
      ensures tx.Committed? ==> Files() == files[id := Splice(content, offset, data[..consumed + amount])]
      ensures !tx.Committed? ==> Files() == old(Files())
    {
      hide Files, BytesOf, Valid;
      BytesOfFile(id);
      tx, amount := WritePiece(id, offset + consumed, data[consumed..]);
      WriteContinues(files, id, content, offset, data, consumed, amount);
    }

    /** Rewrites one extent: the part of the data that falls into it. */
    method WritePiece(id: FileId, offset: nat, data: seq<byte>) returns (tx: Transaction, amount: nat)
      requires Valid() && id in heads && heads[id].state.Complete? && heads[id].checksum.None?
      requires offset + |data| <= heads[id].size && data != []
      modifies this`script, this`extents
      ensures Valid()
      ensures EndsAs(old(script), script, tx)
      ensures 0 < amount <= |data|
      ensures tx.Committed? ==> Files() == old(Files())[id := Splice(old(BytesOf(id)), offset, data[..amount])]
      ensures !tx.Committed? ==> Files() == old(Files())
    {
      var physical, extent, within := heads[id].physical, offset / EXTENT_SIZE, offset % EXTENT_SIZE;
      var generation := GenerationOf(extents, physical);
      StoredByte(generation, heads[id].size, offset);
      // The source's "missing extent" throw is unreachable.
      assert extent in generation;
      amount := Min(|data|, |generation[extent]| - within);
      ghost var before := Snapshot();
      tx := PutPhysicalExtent(physical, extent, Splice(generation[extent], within, data[..amount]));
      if tx.Committed? {
        WriteStep(before, id, offset, data[..amount]);
      }
    }

    /** Removes a file in one step and returns the size it had. */
    method Delete(id: FileId) returns (r: Outcome<nat>)
      requires Valid()
      modifies this`script, this`extents, this`heads
      ensures Valid()
      ensures Explained(old(script), script, r, {})
      ensures Files() == old(Files()) || Files() == old(Files()) - {id}
      ensures r.Done? ==> Files() == old(Files()) - {id} && r.value == old(|BytesOf(id)|)
      ensures r.Done? && id in old(heads) ==> GenerationOf(extents, old(heads[id].physical)) == map[]
    {
      var recovered := EnsureComplete(id);
      if !recovered.Done? {
        return if recovered.Crashed? then Crashed else Failed(StorageAborted);
      }
      if id !in heads {
        assert Files() - {id} == Files();
        return Done(0);
      }
      var size := heads[id].size;
      var tx := DeleteComplete(id);
      return if tx.Committed? then Done(size) else Stopped(tx);
    }

    /** Drops the head first, and then the extents that nothing names any more. */
    method DeleteComplete(id: FileId) returns (tx: Transaction)
      requires Valid() && id in heads && heads[id].state.Complete?
      modifies this`script, this`extents, this`heads
      ensures Valid()
      ensures EndsAs(old(script), script, tx)
      ensures Files() == old(Files()) || Files() == old(Files()) - {id}
      ensures tx.Committed? ==>
                Files() == old(Files()) - {id} && GenerationOf(extents, old(heads[id].physical)) == map[]
    {
      var head := heads[id];
      ghost var before := Snapshot();
      tx := RemoveHead(id);
      if tx.Committed? {
        OneFileGoes(before, Snapshot(), id);
        tx := DeletePhysical(head.physical, ExtentCount(head.size));
      }
    }

    // --- reading --------------------------------------------------------------------------

    /** Collects a range of a complete file extent by extent. */
    method ReadUnlocked(head: Head, offset: nat, length: nat) returns (output: seq<byte>)
      requires head.state.Complete? && CompleteExtents(GenerationOf(extents, head.physical), head.size)
      requires offset + length <= head.size
      ensures output == Content(GenerationOf(extents, head.physical), head)[offset..offset + length]
    {
      hide Content, CompleteExtents, Bytes;
      var generation := GenerationOf(extents, head.physical);
      ghost var content := Content(generation, head);
      ContentIsBytes(generation, head);
      output := [];
      while |output| < length
        invariant |output| <= length
        invariant output == content[offset..offset + |output|]
      {
        var absolute := offset + |output|;
        var extent, within := absolute / EXTENT_SIZE, absolute % EXTENT_SIZE;
        StoredByte(generation, head.size, absolute);
        // The source's "missing extent" throw is unreachable.
        assert extent in generation;
        var amount := Min(length - |output|, |generation[extent]| - within);
        StoredRange(generation, head.size, absolute, amount);
        SlicesJoin(content, offset, absolute, absolute + amount);
        output := output + generation[extent][within..within + amount];
      }
    }

    method Read(id: FileId, offset: nat, length: nat) returns (r: Outcome<seq<byte>>)
      requires Valid()
      modifies this`script, this`extents, this`heads
      ensures Valid() && Files() == old(Files())
      ensures Explained(old(script), script, r, {NoSuchFile, PastEnd})
      ensures r == Failed(NoSuchFile) ==> id !in old(heads)
      ensures r == Failed(PastEnd) ==> id in old(heads) && old(|BytesOf(id)|) < offset + length
      ensures r.Done? ==>
                && id in old(heads)
                && offset + length <= old(|BytesOf(id)|)
                && r.value == old(BytesOf(id))[offset..offset + length]
    {
      var ready := EnsureComplete(id);
      if !ready.Done? {
        return if ready.Crashed? then Crashed else Failed(StorageAborted);
      }
      if id !in heads {
        return Failed(NoSuchFile);
      }
      if offset + length > heads[id].size {
        return Failed(PastEnd);
      }
      var output := ReadUnlocked(heads[id], offset, length);
      r := Done(output);
    }

    /** The chunks a stream delivers when it is read to its end: together the
        requested range, each of them small and none of them empty. */
    method Stream(id: FileId, offset: nat, length: Option<nat>) returns (r: Outcome<seq<seq<byte>>>)
      requires Valid()
      modifies this`script, this`extents, this`heads
      ensures Valid() && Files() == old(Files())
      ensures Explained(old(script), script, r, {NoSuchFile, PastEnd})
      ensures r == Failed(NoSuchFile) ==> id !in old(heads)
      ensures r == Failed(PastEnd) ==> id in old(heads) && old(|BytesOf(id)|) < offset
      ensures r.Done? ==>
                && id in old(heads)
                && offset <= old(|BytesOf(id)|)
                && var bytes := old(BytesOf(id));
                   var n := if length.Some? then Min(length.value, |bytes| - offset) else |bytes| - offset;
                   Flatten(r.value) == bytes[offset..offset + n] && |Flatten(r.value)| == n
      ensures r.Done? ==> forall k :: 0 <= k < |r.value| ==> 0 < |r.value[k]| <= STREAM_CHUNK_SIZE
    {
      var ready := EnsureComplete(id);
      if !ready.Done? {
        return if ready.Crashed? then Crashed else Failed(StorageAborted);
      }
      if id !in heads {
        return Failed(NoSuchFile);
      }
      if offset > heads[id].size {
        return Failed(PastEnd);
      }
      var chunks := StreamUnlocked(heads[id], offset, length);
      r := Done(chunks);
    }

    method StreamUnlocked(head: Head, offset: nat, length: Option<nat>) returns (chunks: seq<seq<byte>>)
      requires head.state.Complete? && CompleteExtents(GenerationOf(extents, head.physical), head.size)
      requires offset <= head.size
      ensures var content := Content(GenerationOf(extents, head.physical), head);
              var n := if length.Some? then Min(length.value, head.size - offset) else head.size - offset;
              |content| == head.size && Flatten(chunks) == content[offset..offset + n]
      ensures forall k :: 0 <= k < |chunks| ==> 0 < |chunks[k]| <= STREAM_CHUNK_SIZE
    {
      hide Content, Flatten, CompleteExtents;
      FlattenNone();
      ContentIsBytes(GenerationOf(extents, head.physical), head);
      ghost var content := Content(GenerationOf(extents, head.physical), head);
      var position := offset;
      var remaining := if length.Some? then Min(length.value, head.size - offset) else head.size - offset;
      ghost var end := position + remaining;
      chunks := [];
      while remaining > 0
        invariant offset <= position && 0 <= remaining && position + remaining == end <= head.size
        invariant Flatten(chunks) == content[offset..position]
        invariant forall k :: 0 <= k < |chunks| ==> 0 < |chunks[k]| <= STREAM_CHUNK_SIZE
      {
        var amount := Min(STREAM_CHUNK_SIZE, remaining);
        var chunk := ReadUnlocked(head, position, amount);
        FlattenAppend(chunks, chunk);
        SlicesJoin(content, offset, position, position + amount);
        chunks := chunks + [chunk];
        position := position + amount;
        remaining := remaining - amount;
      }
    }

    // --- replacing a whole file ---------------------------------------------------------------

    /** Replaces a file by what the source delivers. The new generation is
        written under a fresh physical id and becomes visible in one step; a
        source of any other length than announced leaves the old file in place
        and nothing of the new generation. */
    method Replace(id: FileId, expectedSize: nat, chunks: seq<seq<byte>>, broken: bool, checksum: Option<string>)
      returns (r: Outcome<()>)
      requires Valid()
      modifies this
      ensures Valid()
      ensures Explained(old(script), script, r, {SourceExceeded, SourceTooShort, SourceFailed})
      ensures forall physical :: physical in old(published) ==>
                physical in published && published[physical] == old(published)[physical]
      ensures || Files() == old(Files())
              || (!broken && |Flatten(chunks)| == expectedSize && Files() == old(Files())[id := Flatten(chunks)])
      ensures r.Done? ==>
                && !broken && |Flatten(chunks)| == expectedSize
                && Files() == old(Files())[id := Flatten(chunks)]
                && id in heads && heads[id].checksum == checksum
      ensures r.Done? && id in old(heads) ==> GenerationOf(extents, old(heads[id].physical)) == map[]
      ensures r.Failed? && r.error != StorageAborted ==>
                Files() == old(Files()) && GenerationOf(extents, old(issued)) == map[]
      ensures r == Failed(SourceFailed) ==> broken
      ensures r == Failed(SourceTooShort) ==> !broken && |Flatten(chunks)| < expectedSize
      ensures r == Failed(SourceExceeded) ==> expectedSize < |Flatten(chunks)|
    {
      hide Consistent, View, SameHeadsExcept, Unnamed;
      r := EnsureComplete(id);
      if !r.Done? {
        return;
      }
      var previous := ReadHead(id);
      ghost var before := Snapshot();
      HeadIsBounded(before, id);
      var physical := NextPhysicalId();
      if previous.Some? {
        UnnamedIsAnother(heads, issued, physical, id);
      }
      r := Stage(id, physical, expectedSize, chunks, broken, checksum);
      if r.Failed? {
        var tx := DeletePhysical(physical, ExtentCount(expectedSize));
        NothingLeft(GenerationOf(extents, physical), ExtentCount(expectedSize), tx.Committed?);
        return if tx.Committed? then r else Stopped(tx);
      }
      if r.Done? && previous.Some? {
        PreviousIsUnnamed(before, Snapshot(), id);
        ghost var staged := GenerationOf(extents, previous.value.physical);
        assert staged == GenerationOf(before.extents, previous.value.physical);
        var tx := DeletePhysical(previous.value.physical, ExtentCount(previous.value.size));
        NothingLeft(GenerationOf(extents, previous.value.physical), ExtentCount(previous.value.size), tx.Committed?);
        return if tx.Committed? then r else Stopped(tx);
      }
    }

    /** Writes the new generation and publishes it. */
    method Stage(
      id: FileId, physical: PhysicalId, expectedSize: nat, chunks: seq<seq<byte>>, broken: bool,
      checksum: Option<string>)
      returns (r: Outcome<()>)
      requires Valid() && Unnamed(heads, issued, physical) && GenerationOf(extents, physical) == map[]
      requires physical !in published
      modifies this`script, this`extents, this`heads, this`published
      ensures Valid()
      ensures Explained(old(script), script, r, {SourceExceeded, SourceTooShort, SourceFailed})
      ensures forall other :: other in old(published) ==>
                other in published && published[other] == old(published)[other]
      ensures SameHeadsExcept(old(heads), heads, id) && OnlyTouches(old(extents), extents, physical)
      ensures !r.Done? ==>
                && Files() == old(Files()) && heads == old(heads)
                && forall extent :: extent in GenerationOf(extents, physical) ==> extent < ExtentCount(expectedSize)
      ensures r.Done? ==>
                && !broken && |Flatten(chunks)| == expectedSize
                && Files() == old(Files())[id := Flatten(chunks)]
                && id in heads && heads[id].physical == physical && heads[id].checksum == checksum
      ensures r == Failed(SourceFailed) ==> broken
      ensures r == Failed(SourceTooShort) ==> !broken && |Flatten(chunks)| < expectedSize
      ensures r == Failed(SourceExceeded) ==> expectedSize < |Flatten(chunks)|
    {
      hide Consistent, View, Flatten;
      var writer := new GenerationWriter(physical, expectedSize);
      r := writer.Fill(this, chunks, broken);
      if !r.Done? {
        return;
      }
      ghost var before := Snapshot();
      var tx := PutHead(id, CompleteHead(physical, expectedSize, checksum));
      if !tx.Committed? {
        return Stopped(tx);
      }
      published := published[physical := Flatten(chunks)];
      PublishStep(before, id, physical, expectedSize, checksum);
    }
  }

  /** Cuts the bytes it is given into extents of a generation that no head
      names yet. */
  class GenerationWriter {
    const physical: PhysicalId
    const expectedSize: nat
    var extent: nat
    var total: nat
    var tail: seq<byte>
    ghost var received: seq<byte>

    constructor (physical: PhysicalId, expectedSize: nat)
      ensures this.physical == physical && this.expectedSize == expectedSize
      ensures extent == 0 && total == 0 && tail == [] && received == []
    {
      this.physical, this.expectedSize := physical, expectedSize;
      extent, total, tail, received := 0, 0, [], [];
    }

    ghost predicate Staged(store: ExtentFileStore)
      reads this, store
    {
      && store.Valid()
      && Unnamed(store.heads, store.issued, physical)
      && total == |received| <= expectedSize
      && StagedExtents(GenerationOf(store.extents, physical), received, extent, tail)
    }

    ghost predicate Bounded(store: ExtentFileStore)
      reads store
    {
      forall number :: number in GenerationOf(store.extents, physical) ==> number < ExtentCount(expectedSize)
    }

    /** One turn of the write loop: at most the rest of the current extent. */
    method WritePiece(store: ExtentFileStore, piece: seq<byte>) returns (r: Outcome<()>)
      requires Staged(store) && 0 < |piece| <= EXTENT_SIZE - |tail|
      modifies this, store`script, store`extents
      ensures store.Valid() && store.Files() == old(store.Files())
      ensures OnlyTouches(old(store.extents), store.extents, physical)
      ensures Unnamed(store.heads, store.issued, physical) && Bounded(store)
      ensures Explained(old(store.script), store.script, r, {SourceExceeded})
      ensures r.Done? ==> Staged(store) && received == old(received) + piece
      ensures r == Failed(SourceExceeded) ==> expectedSize < |old(received)| + |piece|
    {
      hide Consistent, View, StagedExtents, CompleteExtents, Unnamed;
      StagedIsBounded(store);
      var next := tail + piece;
      total := total + |piece|;
      if total > expectedSize {
        return Failed(SourceExceeded);
      }
      StagedMore(GenerationOf(store.extents, physical), received, extent, tail, piece);
      UnnamedPut(store.Snapshot(), physical, GenerationOf(store.extents, physical)[extent := next]);
      var tx := store.PutPhysicalExtent(physical, extent, next);
      if !tx.Committed? {
        return Stopped(tx);
      }
      tail := next;
      received := received + piece;
      if |tail| == EXTENT_SIZE {
        extent := extent + 1;
        tail := [];
      }
      StagedIsBounded(store);
      return Done(());
    }

    method Write(store: ExtentFileStore, source: seq<byte>) returns (r: Outcome<()>)
      requires Staged(store)
      modifies this, store`script, store`extents
      ensures store.Valid() && store.Files() == old(store.Files())
      ensures OnlyTouches(old(store.extents), store.extents, physical)
      ensures Unnamed(store.heads, store.issued, physical) && Bounded(store)
      ensures Explained(old(store.script), store.script, r, {SourceExceeded})
      ensures r.Done? ==> Staged(store) && received == old(received) + source
      ensures r == Failed(SourceExceeded) ==> expectedSize < |old(received)| + |source|
    {
      hide Consistent, View, StagedExtents, Unnamed;
      var read := 0;
      StagedIsBounded(store);
      while read < |source|
        invariant read <= |source|
        invariant Staged(store) && Bounded(store) && received == old(received) + source[..read]
        invariant store.Files() == old(store.Files()) && OnlyTouches(old(store.extents), store.extents, physical)
        invariant false in store.script ==> false in old(store.script)
      {
        StagedIsBounded(store);
        var amount := Min(|source| - read, EXTENT_SIZE - |tail|);
        r := WritePiece(store, source[read..read + amount]);
        if !r.Done? {
          return;
        }
        assert source[..read] + source[read..read + amount] == source[..read + amount];
        read := read + amount;
      }
      assert source[..read] == source;
      return Done(());
    }

    lemma StagedIsBounded(store: ExtentFileStore)
      requires Staged(store)
      ensures Bounded(store) && |tail| < EXTENT_SIZE
    {
      CountIsMonotone(|received|, expectedSize);
    }

    /** Writes everything the source delivers and checks its length. */
    method Fill(store: ExtentFileStore, chunks: seq<seq<byte>>, broken: bool) returns (r: Outcome<()>)
      requires Staged(store) && received == []
      modifies this, store`script, store`extents
      ensures store.Valid() && store.Files() == old(store.Files())
      ensures OnlyTouches(old(store.extents), store.extents, physical)
      ensures Unnamed(store.heads, store.issued, physical) && Bounded(store)
      ensures Explained(old(store.script), store.script, r, {SourceExceeded, SourceTooShort, SourceFailed})
      ensures r.Done? ==> Staged(store) && received == Flatten(chunks) && !broken && |received| == expectedSize
      ensures r == Failed(SourceFailed) ==> broken
      ensures r == Failed(SourceTooShort) ==> !broken && |Flatten(chunks)| < expectedSize
      ensures r == Failed(SourceExceeded) ==> expectedSize < |Flatten(chunks)|
    {
      hide Consistent, View, StagedExtents, Unnamed, Flatten;
      FlattenNone();
      StagedIsBounded(store);
      var next := 0;
      while next < |chunks|
        invariant next <= |chunks|
        invariant Staged(store) && Bounded(store) && received == Flatten(chunks[..next])
        invariant store.Files() == old(store.Files()) && OnlyTouches(old(store.extents), store.extents, physical)
        invariant false in store.script ==> false in old(store.script)
      {
        FlattenAppend(chunks[..next], chunks[next]);
        assert chunks[..next + 1] == chunks[..next] + [chunks[next]];
        r := Write(store, chunks[next]);
        if !r.Done? {
          FlattenGrows(chunks, next + 1);
          return;
        }
        next := next + 1;
      }
      assert chunks[..next] == chunks;
      if broken {
        return Failed(SourceFailed);
      }
      return if total != expectedSize then Failed(SourceTooShort) else Done(());
    }
  }

  lemma {:induction false} FlattenGrows(chunks: seq<seq<byte>>, count: nat)
    requires count <= |chunks|
    ensures |Flatten(chunks[..count])| <= |Flatten(chunks)|
  {
    if count < |chunks| {
      FlattenGrows(chunks[..|chunks| - 1], count);
      assert chunks[..|chunks| - 1][..count] == chunks[..count];
    } else {
      assert chunks[..count] == chunks;
    }
  }

  lemma NothingLeft(generation: Generation, count: nat, removed: bool)
    requires removed ==> forall extent :: extent in generation ==> extent < count && count <= extent
    ensures removed ==> generation == map[]
  {
    if removed {
      forall extent ensures extent !in generation {
      }
    }
  }

  /** A complete file has no extents past its size. */
  lemma HeadIsBounded(disk: Disk, id: FileId)
    requires Consistent(disk)
    ensures id in disk.heads && disk.heads[id].state.Complete? ==>
              forall extent :: extent in GenerationOf(disk.extents, disk.heads[id].physical) ==>
                extent < ExtentCount(disk.heads[id].size)
  {
    if id in disk.heads {
      assert FileConsistent(disk, id);
    }
  }

  /** Once a file names another generation, nothing names its previous one. */
  lemma PreviousIsUnnamed(before: Disk, after: Disk, id: FileId)
    requires Consistent(before) && id in before.heads && id in after.heads
    requires SameHeadsExcept(before.heads, after.heads, id) && before.issued <= after.issued
    requires after.heads[id].physical != before.heads[id].physical
    ensures Unnamed(after.heads, after.issued, before.heads[id].physical)
  {
  }

  lemma UnnamedIsAnother(heads: map<FileId, Head>, issued: nat, physical: PhysicalId, id: FileId)
    requires Unnamed(heads, issued, physical) && id in heads
    ensures heads[id].physical != physical
  {
  }

  lemma NextIdIsUnnamed(disk: Disk)
    requires Consistent(disk)
    ensures var after := disk.(issued := disk.issued + 1); Consistent(after) && View(after) == View(disk)
    ensures Unnamed(disk.heads, disk.issued + 1, disk.issued)
    ensures GenerationOf(disk.extents, disk.issued) == map[] && disk.issued !in disk.published
  {
    UnnamedGenerationIsInvisible(disk, disk.(issued := disk.issued + 1));
    assert forall id :: id in disk.heads ==> FileConsistent(disk, id);
  }

  lemma JournalIsReplayable(disk: Disk, id: FileId)
    requires Consistent(disk) && id in disk.heads && disk.heads[id].state.Mutating?
    ensures disk.heads[id].checksum.None?
    ensures HeadConsistent(GenerationOf(disk.extents, disk.heads[id].physical), disk.heads[id])
    ensures Content(GenerationOf(disk.extents, disk.heads[id].physical), disk.heads[id]) == FileContent(disk, id)
  {
    assert FileConsistent(disk, id);
  }

  lemma ContentIsBytes(generation: Generation, head: Head)
    requires head.state.Complete?
    ensures Content(generation, head) == Bytes(generation, head.size) && |Content(generation, head)| == head.size
  {
  }

  lemma SlicesJoin(content: seq<byte>, start: nat, middle: nat, end: nat)
    requires start <= middle <= end <= |content|
    ensures content[start..middle] + content[middle..end] == content[start..end]
  {
  }

  lemma WriteContinues(
    files: map<FileId, seq<byte>>, id: FileId, content: seq<byte>, offset: nat, data: seq<byte>, first: nat,
    amount: nat)
    requires offset + |data| <= |content| && first + amount <= |data|
    ensures var before := Splice(content, offset, data[..first]);
            files[id := before][id := Splice(before, offset + first, data[first..][..amount])]
            == files[id := Splice(content, offset, data[..first + amount])]
  {
    assert data[first..][..amount] == data[first..first + amount];
    SpliceContinues(content, offset, data, first, first + amount);
  }

  /** A write of no bytes. */
  lemma NothingWritten(files: map<FileId, seq<byte>>, id: FileId, offset: nat, data: seq<byte>)
    requires id in files && offset + |data| <= |files[id]|
    ensures Splice(files[id], offset, data[..0]) == files[id]
    ensures files[id := Splice(files[id], offset, data[..0])] == files
  {
  }
}
