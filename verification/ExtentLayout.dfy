/** How one logical file is laid out in fixed-size extents, and what bytes a
    set of stored extents means. Everything here is about one generation of one
    file; the object stores are in Disk.dfy and FileStore.dfy. */
module ExtentLayout {
  import opened Basics

  type byte = x: int | 0 <= x < 256

  const EXTENT_SIZE: int := 4 * 1024 * 1024
  const MAX_EXTENTS_PER_TRANSACTION: int := 4

  /** A physical generation. The random part of the source's identifier is
      modelled by its uniqueness only. */
  type PhysicalId = nat

  /** The extents stored under one physical id, by extent number. */
  type Generation = map<nat, seq<byte>>

  datatype Operation = Grow | Shrink

  datatype State = Complete | Mutating

  datatype Head = Head(
    physical: PhysicalId,
    size: nat,
    state: State,
    checksum: Option<string>,
    operation: Option<Operation>,
    targetSize: Option<nat>)

  function CompleteHead(physical: PhysicalId, size: nat, checksum: Option<string>): Head {
    Head(physical, size, Complete, checksum, None, None)
  }

  function JournalHead(head: Head, operation: Operation, target: nat): Head {
    head.(state := Mutating, operation := Some(operation), targetSize := Some(target), checksum := None)
  }

  /** Number of extents of a file of the given size. */
  function ExtentCount(size: nat): (count: nat)
    ensures size <= count * EXTENT_SIZE && (count > 0 ==> (count - 1) * EXTENT_SIZE < size)
  {
    if size == 0 then 0 else (size + EXTENT_SIZE - 1) / EXTENT_SIZE
  }

  function ExtentLength(size: nat, extent: nat): nat {
    Min(EXTENT_SIZE, Max(0, size - extent * EXTENT_SIZE))
  }

  /** The size a file has once its journal, if any, has been replayed. */
  function EffectiveSize(head: Head): nat {
    if head.state.Mutating? && head.targetSize.Some? then head.targetSize.value else head.size
  }

  function Zeros(n: nat): (z: seq<byte>)
    ensures |z| == n && forall k :: 0 <= k < n ==> z[k] == 0
  {
    seq(n, k => 0)
  }

  /** Bytes cut or padded with zeros to a size. */
  function Resized(content: seq<byte>, size: nat): (resized: seq<byte>)
    ensures |resized| == size
    ensures forall k :: 0 <= k < size ==> resized[k] == if k < |content| then content[k] else 0
  {
    if size <= |content| then content[..size] else content + Zeros(size - |content|)
  }

  function Stored(generation: Generation, extent: nat): seq<byte> {
    if extent in generation then generation[extent] else []
  }

  /** What one extent contributes to a file of the given size; bytes that are
      not stored read as zero. */
  function Piece(generation: Generation, size: nat, extent: nat): seq<byte> {
    Resized(Stored(generation, extent), ExtentLength(size, extent))
  }

  /** The bytes of the first extents of a file. */
  function Pieces(generation: Generation, size: nat, count: nat): (bytes: seq<byte>)
    requires count <= ExtentCount(size)
    ensures |bytes| == Min(size, count * EXTENT_SIZE)
  {
    if count == 0 then [] else Pieces(generation, size, count - 1) + Piece(generation, size, count - 1)
  }

  function Bytes(generation: Generation, size: nat): (bytes: seq<byte>)
    ensures |bytes| == size
  {
    Pieces(generation, size, ExtentCount(size))
  }

  /** What a head means at any crash point. */
  function Content(generation: Generation, head: Head): (content: seq<byte>)
    ensures |content| == EffectiveSize(head)
  {
    Bytes(generation, EffectiveSize(head))
  }

  /** Exactly the extents of a file of this size, none missing, none past the end. */
  ghost predicate CompleteExtents(generation: Generation, size: nat) {
    && (forall extent :: extent in generation ==>
          extent < ExtentCount(size) && |generation[extent]| == ExtentLength(size, extent))
    && (forall extent: nat :: extent < ExtentCount(size) ==> extent in generation)
  }

  /** Every extent has its old or its new length, and no old extent is missing. */
  ghost predicate GrowingExtents(generation: Generation, size: nat, target: nat) {
    && (forall extent :: extent in generation ==>
          && extent < ExtentCount(target)
          && (|generation[extent]| == ExtentLength(size, extent)
              || |generation[extent]| == ExtentLength(target, extent)))
    && (forall extent: nat :: extent < ExtentCount(size) ==> extent in generation)
  }

  /** The kept extents are there, the boundary extent may already be cut, and
      some of the extents past the target may already be gone. */
  ghost predicate ShrinkingExtents(generation: Generation, size: nat, target: nat) {
    && (forall extent :: extent in generation ==>
          && extent < ExtentCount(size)
          && (|generation[extent]| == ExtentLength(size, extent)
              || (extent + 1 == ExtentCount(target) && |generation[extent]| == ExtentLength(target, extent))))
    && (forall extent: nat :: extent < ExtentCount(target) ==> extent in generation)
  }

  /** What holds between a head and its extents at every crash point. */
  ghost predicate HeadConsistent(generation: Generation, head: Head) {
    match head.state
    case Complete =>
      CompleteExtents(generation, head.size)
    case Mutating =>
      && head.operation.Some? && head.targetSize.Some? && head.checksum.None?
      && match head.operation.value
         case Grow =>
           head.size <= head.targetSize.value && GrowingExtents(generation, head.size, head.targetSize.value)
         case Shrink =>
           head.targetSize.value <= head.size && ShrinkingExtents(generation, head.size, head.targetSize.value)
  }

  ghost predicate Journalled(head: Head, operation: Operation, target: nat) {
    head.state.Mutating? && head.operation == Some(operation) && head.targetSize == Some(target)
  }

  // --- where a byte is stored ---------------------------------------------------------------

  lemma {:induction false} SamePieces(before: Generation, after: Generation, size: nat, count: nat)
    requires count <= ExtentCount(size)
    requires forall extent: nat :: extent < count ==> Piece(before, size, extent) == Piece(after, size, extent)
    ensures Pieces(before, size, count) == Pieces(after, size, count)
  {
    if count > 0 {
      SamePieces(before, after, size, count - 1);
    }
  }

  lemma {:induction false} ByteOfPieces(generation: Generation, size: nat, count: nat, extent: nat, within: nat)
    requires count <= ExtentCount(size) && extent < count && within < ExtentLength(size, extent)
    ensures extent * EXTENT_SIZE + within < |Pieces(generation, size, count)|
    ensures Pieces(generation, size, count)[extent * EXTENT_SIZE + within] == Piece(generation, size, extent)[within]
  {
    if extent < count - 1 {
      ByteOfPieces(generation, size, count - 1, extent, within);
    }
  }

  lemma Located(size: nat, offset: nat)
    requires offset < size
    ensures offset / EXTENT_SIZE < ExtentCount(size)
    ensures offset % EXTENT_SIZE < ExtentLength(size, offset / EXTENT_SIZE)
    ensures (offset / EXTENT_SIZE) * EXTENT_SIZE + offset % EXTENT_SIZE == offset
  {
  }

  lemma ByteOf(generation: Generation, size: nat, offset: nat)
    requires offset < size
    ensures var extent, within := offset / EXTENT_SIZE, offset % EXTENT_SIZE;
            && extent < ExtentCount(size)
            && within < ExtentLength(size, extent)
            && Bytes(generation, size)[offset] == Piece(generation, size, extent)[within]
  {
    Located(size, offset);
    ByteOfPieces(generation, size, ExtentCount(size), offset / EXTENT_SIZE, offset % EXTENT_SIZE);
  }

  /** In a complete file a byte is found in the extent that covers its offset. */
  lemma StoredByte(generation: Generation, size: nat, offset: nat)
    requires CompleteExtents(generation, size) && offset < size
    ensures var extent, within := offset / EXTENT_SIZE, offset % EXTENT_SIZE;
            && extent in generation
            && within < |generation[extent]| == ExtentLength(size, extent)
            && Bytes(generation, size)[offset] == generation[extent][within]
  {
    ByteOf(generation, size, offset);
  }

  /** A range that does not leave its extent is found there as it is. */
  lemma StoredRange(generation: Generation, size: nat, offset: nat, amount: nat)
    requires CompleteExtents(generation, size) && offset + amount <= size
    requires var extent := offset / EXTENT_SIZE;
             extent in generation && offset % EXTENT_SIZE + amount <= |generation[extent]|
    ensures var within := offset % EXTENT_SIZE;
            Bytes(generation, size)[offset..offset + amount]
            == generation[offset / EXTENT_SIZE][within..within + amount]
  {
    var extent, within := offset / EXTENT_SIZE, offset % EXTENT_SIZE;
    var found, stored := Bytes(generation, size)[offset..offset + amount], generation[extent][within..within + amount];
    forall k: nat | k < amount ensures found[k] == stored[k] {
      SameOffset(offset, k);
      StoredByte(generation, size, offset + k);
    }
  }

  lemma SameOffset(offset: nat, k: nat)
    requires offset % EXTENT_SIZE + k < EXTENT_SIZE
    ensures (offset + k) / EXTENT_SIZE == offset / EXTENT_SIZE
    ensures (offset + k) % EXTENT_SIZE == offset % EXTENT_SIZE + k
  {
  }

  /** What a generation under construction holds: the bytes received so far,
      complete, with the last extent kept in memory as the tail. */
  ghost predicate StagedExtents(generation: Generation, received: seq<byte>, extent: nat, tail: seq<byte>) {
    && CompleteExtents(generation, |received|)
    && Bytes(generation, |received|) == received
    && extent == |received| / EXTENT_SIZE
    && tail == received[extent * EXTENT_SIZE..]
  }

  lemma StagedMore(generation: Generation, received: seq<byte>, extent: nat, tail: seq<byte>, piece: seq<byte>)
    requires StagedExtents(generation, received, extent, tail)
    requires 0 < |piece| && |tail| + |piece| <= EXTENT_SIZE
    ensures var full := |tail| + |piece| == EXTENT_SIZE;
            StagedExtents(
              generation[extent := tail + piece],
              received + piece,
              if full then extent + 1 else extent,
              if full then [] else tail + piece)
  {
    hide CompleteExtents, Bytes, ExtentLength, ExtentCount;
    var after, more := generation[extent := tail + piece], received + piece;
    StagedLengths(generation, |received|, extent, tail + piece, |more|);
    forall k: nat | k < |more| ensures Bytes(after, |more|)[k] == more[k] {
      StagedByte(generation, received, extent, tail, piece, k);
    }
    StagedTail(received, extent, tail, piece);
  }

  lemma StagedTail(received: seq<byte>, extent: nat, tail: seq<byte>, piece: seq<byte>)
    requires extent == |received| / EXTENT_SIZE && tail == received[extent * EXTENT_SIZE..]
    requires 0 < |piece| && |tail| + |piece| <= EXTENT_SIZE
    ensures var more := received + piece;
            if |tail| + |piece| == EXTENT_SIZE
            then extent + 1 == |more| / EXTENT_SIZE && more[(extent + 1) * EXTENT_SIZE..] == []
            else extent == |more| / EXTENT_SIZE && more[extent * EXTENT_SIZE..] == tail + piece
  {
    assert |received| == extent * EXTENT_SIZE + |tail|;
  }

  lemma StagedByte(generation: Generation, received: seq<byte>, extent: nat, tail: seq<byte>, piece: seq<byte>, k: nat)
    requires StagedExtents(generation, received, extent, tail)
    requires |tail| + |piece| <= EXTENT_SIZE && k < |received| + |piece|
    requires CompleteExtents(generation[extent := tail + piece], |received| + |piece|)
    ensures Bytes(generation[extent := tail + piece], |received| + |piece|)[k] == (received + piece)[k]
  {
    hide CompleteExtents, Bytes, ExtentLength, ExtentCount;
    StoredByte(generation[extent := tail + piece], |received| + |piece|, k);
    assert k == (k / EXTENT_SIZE) * EXTENT_SIZE + k % EXTENT_SIZE;
    if k < extent * EXTENT_SIZE {
      StoredByte(generation, |received|, k);
      assert k / EXTENT_SIZE < extent;
    } else {
      assert k / EXTENT_SIZE == extent;
    }
  }

  lemma StagedLengths(generation: Generation, size: nat, extent: nat, value: seq<byte>, more: nat)
    requires CompleteExtents(generation, size) && extent == size / EXTENT_SIZE
    requires size < more == extent * EXTENT_SIZE + |value| && |value| <= EXTENT_SIZE
    ensures CompleteExtents(generation[extent := value], more)
  {
    forall other: nat | other < ExtentCount(more)
      ensures other in generation[extent := value]
      ensures |generation[extent := value][other]| == ExtentLength(more, other)
    {
      if other < extent {
        assert other * EXTENT_SIZE + EXTENT_SIZE <= size;
      }
    }
  }

  lemma CountIsMonotone(small: nat, large: nat)
    requires small <= large
    ensures ExtentCount(small) <= ExtentCount(large)
  {
  }

  // --- what a size change does --------------------------------------------------------------

  lemma JournalIsConsistent(generation: Generation, head: Head, operation: Operation, target: nat)
    requires head.state.Complete? && HeadConsistent(generation, head)
    requires if operation.Grow? then head.size <= target else target <= head.size
    ensures HeadConsistent(generation, JournalHead(head, operation, target))
  {
    CountIsMonotone(Min(target, head.size), Max(target, head.size));
  }

  /** Bytes of a complete generation read under another size. */
  lemma Rescaled(generation: Generation, size: nat, target: nat)
    requires CompleteExtents(generation, size)
    ensures Bytes(generation, target) == Resized(Bytes(generation, size), target)
  {
    forall offset: nat | offset < target
      ensures Bytes(generation, target)[offset] == Resized(Bytes(generation, size), target)[offset]
    {
      ByteOf(generation, target, offset);
      if offset < size {
        ByteOf(generation, size, offset);
      } else {
        PastTheEnd(generation, size, offset);
      }
    }
  }

  lemma PastTheEnd(generation: Generation, size: nat, offset: nat)
    requires CompleteExtents(generation, size) && size <= offset
    ensures |Stored(generation, offset / EXTENT_SIZE)| <= offset % EXTENT_SIZE
  {
    if offset / EXTENT_SIZE in generation {
      assert ExtentLength(size, offset / EXTENT_SIZE) <= offset % EXTENT_SIZE;
    }
  }

  /** Padding an extent with zeros changes no byte and keeps a growing file growing. */
  lemma Padded(generation: Generation, head: Head, target: nat, extent: nat)
    requires Journalled(head, Grow, target) && HeadConsistent(generation, head) && extent < ExtentCount(target)
    ensures |Stored(generation, extent)| <= ExtentLength(target, extent)
    ensures var padded := generation[extent := Resized(Stored(generation, extent), ExtentLength(target, extent))];
            HeadConsistent(padded, head) && Content(padded, head) == Content(generation, head)
  {
    var padded := generation[extent := Resized(Stored(generation, extent), ExtentLength(target, extent))];
    SamePieces(generation, padded, target, ExtentCount(target));
  }

  ghost predicate IsGrown(generation: Generation, target: nat, extent: nat) {
    extent in generation && |generation[extent]| == ExtentLength(target, extent)
  }

  lemma GrownIsComplete(generation: Generation, head: Head, target: nat)
    requires Journalled(head, Grow, target) && HeadConsistent(generation, head)
    requires forall extent: nat :: extent < ExtentCount(target) ==> IsGrown(generation, target, extent)
    ensures CompleteExtents(generation, target)
  {
    forall extent: nat | extent < ExtentCount(target)
      ensures extent in generation && |generation[extent]| == ExtentLength(target, extent)
    {
      assert IsGrown(generation, target, extent);
    }
  }

  /** Cutting the boundary extent changes no byte before the target. */
  lemma Cut(generation: Generation, head: Head, target: nat, extent: nat)
    requires Journalled(head, Shrink, target) && HeadConsistent(generation, head) && extent + 1 == ExtentCount(target)
    ensures extent in generation && ExtentLength(target, extent) <= |generation[extent]|
    ensures var shorter := generation[extent := generation[extent][..ExtentLength(target, extent)]];
            HeadConsistent(shorter, head) && Content(shorter, head) == Content(generation, head)
  {
    CountIsMonotone(target, head.size);
    var shorter := generation[extent := generation[extent][..ExtentLength(target, extent)]];
    SamePieces(generation, shorter, target, ExtentCount(target));
  }

  /** Deleting extents past the target changes no byte before it. */
  lemma Dropped(generation: Generation, head: Head, target: nat, start: nat, end: nat)
    requires Journalled(head, Shrink, target) && HeadConsistent(generation, head) && ExtentCount(target) <= start
    ensures var fewer := WithoutRange(generation, start, end);
            HeadConsistent(fewer, head) && Content(fewer, head) == Content(generation, head)
  {
    SamePieces(generation, WithoutRange(generation, start, end), target, ExtentCount(target));
  }

  function WithoutRange(generation: Generation, start: nat, end: nat): Generation {
    map extent | extent in generation && !(start <= extent < end) :: generation[extent]
  }

  ghost predicate BoundaryIsCut(generation: Generation, target: nat) {
    ExtentCount(target) > 0 ==>
      var extent := ExtentCount(target) - 1;
      extent in generation && |generation[extent]| == ExtentLength(target, extent)
  }

  lemma DroppedTailIsComplete(generation: Generation, head: Head, target: nat)
    requires Journalled(head, Shrink, target) && HeadConsistent(generation, head)
    requires BoundaryIsCut(generation, target)
    requires forall extent :: extent in generation ==> extent < ExtentCount(target) || ExtentCount(head.size) <= extent
    ensures CompleteExtents(generation, target)
  {
    CountIsMonotone(target, head.size);
    forall extent | extent in generation && extent + 1 < ExtentCount(target)
      ensures ExtentLength(target, extent) == ExtentLength(head.size, extent)
    {
      FullExtent(target, head.size, extent);
    }
  }

  lemma FullExtent(small: nat, large: nat, extent: nat)
    requires small <= large && extent + 1 < ExtentCount(small)
    ensures ExtentLength(small, extent) == ExtentLength(large, extent)
  {
  }

  // --- what a write does --------------------------------------------------------------------

  function Splice(content: seq<byte>, offset: nat, data: seq<byte>): (spliced: seq<byte>)
    requires offset + |data| <= |content|
    ensures |spliced| == |content|
  {
    content[..offset] + data + content[offset + |data|..]
  }

  lemma SplicedByte(content: seq<byte>, offset: nat, data: seq<byte>, k: nat)
    requires offset + |data| <= |content| && k < |content|
    ensures Splice(content, offset, data)[k] == if offset <= k < offset + |data| then data[k - offset] else content[k]
  {
  }

  /** Overwriting part of one extent splices the file. */
  lemma Overwritten(generation: Generation, size: nat, offset: nat, piece: seq<byte>)
    requires CompleteExtents(generation, size) && offset + |piece| <= size
    requires var extent := offset / EXTENT_SIZE;
             extent in generation && offset % EXTENT_SIZE + |piece| <= |generation[extent]|
    ensures var extent := offset / EXTENT_SIZE;
            var after := generation[extent := Splice(generation[extent], offset % EXTENT_SIZE, piece)];
            CompleteExtents(after, size) && Bytes(after, size) == Splice(Bytes(generation, size), offset, piece)
  {
    var extent := offset / EXTENT_SIZE;
    var after := generation[extent := Splice(generation[extent], offset % EXTENT_SIZE, piece)];
    forall k: nat | k < size
      ensures Bytes(after, size)[k] == Splice(Bytes(generation, size), offset, piece)[k]
    {
      StoredByte(generation, size, k);
      StoredByte(after, size, k);
      SameExtent(offset, k);
      SplicedByte(Bytes(generation, size), offset, piece, k);
      if k / EXTENT_SIZE == extent {
        SplicedByte(generation[extent], offset % EXTENT_SIZE, piece, k % EXTENT_SIZE);
      }
    }
  }

  lemma SameExtent(offset: nat, k: nat)
    ensures if k / EXTENT_SIZE == offset / EXTENT_SIZE
            then k - offset == k % EXTENT_SIZE - offset % EXTENT_SIZE
            else k < offset || EXTENT_SIZE - offset % EXTENT_SIZE <= k - offset
  {
  }

  lemma SpliceContinues(content: seq<byte>, offset: nat, data: seq<byte>, first: nat, second: nat)
    requires offset + |data| <= |content| && first <= second <= |data|
    ensures Splice(Splice(content, offset, data[..first]), offset + first, data[first..second])
         == Splice(content, offset, data[..second])
  {
  }
}
