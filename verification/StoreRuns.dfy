/** Whole runs of the file store: any calls in any order, any of them cut short
    or aborted at any transaction, and restarts in between. */
module StoreRuns {
  import opened Basics
  import opened DiskModel
  import opened ExtentLayout
  import opened FileStore

  type Files = map<FileId, seq<byte>>

  datatype Call =
    | Grow(id: FileId, size: nat)
    | Shrink(id: FileId, size: nat)
    | Write(id: FileId, offset: nat, data: seq<byte>)
    | Delete(id: FileId)
    | Replace(id: FileId, expectedSize: nat, chunks: seq<seq<byte>>, broken: bool, checksum: Option<string>)
    | Read(id: FileId, offset: nat, length: nat)
    | Stream(id: FileId, offset: nat, limit: Option<nat>)
    | Recover(id: FileId)
    | Restart(script: seq<bool>)

  function BytesIn(files: Files, id: FileId): seq<byte> {
    if id in files then files[id] else []
  }

  /** What the files may be after a call: what they were, what the call is for,
      or, where a call is not atomic, a named state in between. A call that
      reports success has had its full effect. */
  ghost predicate Allowed(before: Files, call: Call, done: bool, after: Files) {
    match call
    case Grow(id, size) =>
      var grown := before[id := Resized(BytesIn(before, id), size)];
      if size < |BytesIn(before, id)| then !done && after == before
      else after == grown || (!done && (after == before || (id !in before && after == before[id := []])))
    case Shrink(id, size) =>
      if id !in before || |before[id]| < size then !done && after == before
      else after == before[id := before[id][..size]] || (!done && after == before)
    case Write(id, offset, data) =>
      if id !in before || |before[id]| < offset + |data| then !done && after == before
      else exists written: nat :: written <= |data| && (done ==> written == |data|)
             && after == before[id := Splice(before[id], offset, data[..written])]
    case Delete(id) => after == before - {id} || (!done && after == before)
    case Replace(id, expectedSize, chunks, broken, _) =>
      || (!broken && |Flatten(chunks)| == expectedSize && after == before[id := Flatten(chunks)])
      || (!done && after == before)
    case Read(_, _, _) => after == before
    case Stream(_, _, _) => after == before
    case Recover(_) => after == before
    case Restart(_) => after == before
  }

  method Perform(store: ExtentFileStore, call: Call) returns (done: bool)
    requires store.Valid()
    modifies store
    ensures store.Valid()
    ensures Allowed(old(store.Files()), call, done, store.Files())
  {
    hide Consistent, FileContent, Splice, Resized, Flatten;
    match call {
      case Grow(id, size) =>
        var r := store.Grow(id, size);
        done := r.Done?;
      case Shrink(id, size) =>
        var r := store.Shrink(id, size);
        done := r.Done?;
      case Write(id, offset, data) =>
        var r, written := store.Write(id, offset, data);
        done := r.Done?;
      case Delete(id) =>
        var r := store.Delete(id);
        done := r.Done?;
      case Replace(id, expectedSize, chunks, broken, checksum) =>
        var r := store.Replace(id, expectedSize, chunks, broken, checksum);
        done := r.Done?;
      case Read(id, offset, length) =>
        var r := store.Read(id, offset, length);
        done := r.Done?;
      case Stream(id, offset, limit) =>
        var r := store.Stream(id, offset, limit);
        done := r.Done?;
      case Recover(id) =>
        var r := store.RecoverHead(id);
        done := r.Done?;
      case Restart(script) =>
        store.Restart(script);
        done := true;
    }
  }

  /** A run of the abstract store. */
  ghost predicate IsTrace(trace: seq<Files>, calls: seq<Call>, done: seq<bool>) {
    && |trace| == |calls| + 1 == |done| + 1
    && forall k :: 0 <= k < |calls| ==> Allowed(trace[k], calls[k], done[k], trace[k + 1])
  }

  /** Every run of the extent store is a run of a map from ids to bytes. */
  method PerformAll(store: ExtentFileStore, calls: seq<Call>) returns (done: seq<bool>, ghost trace: seq<Files>)
    requires store.Valid()
    modifies store
    ensures store.Valid()
    ensures IsTrace(trace, calls, done)
    ensures trace[0] == old(store.Files()) && trace[|calls|] == store.Files()
  {
    hide Allowed;
    done, trace := [], [store.Files()];
    for k := 0 to |calls|
      invariant store.Valid()
      invariant |done| == k && IsTrace(trace, calls[..k], done)
      invariant trace[0] == old(store.Files()) && trace[k] == store.Files()
    {
      var finished := Perform(store, calls[k]);
      done := done + [finished];
      trace := trace + [store.Files()];
    }
    assert calls[..|calls|] == calls;
  }

  /** A size change, then any number of restarts, each of which may be cut short
      in recovery again. */
  method ResizeAcrossCrashes(store: ExtentFileStore, id: FileId, operation: Operation, size: nat,
      restarts: seq<seq<bool>>)
    returns (complete: bool)
    requires store.Valid()
    modifies store
    ensures store.Valid()
    ensures var call := if operation.Grow? then Call.Grow(id, size) else Call.Shrink(id, size);
            exists done :: Allowed(old(store.Files()), call, done, store.Files())
    ensures complete && id in store.heads ==>
              && store.heads[id].state.Complete? && store.heads[id].size == |store.BytesOf(id)|
              && CompleteExtents(GenerationOf(store.extents, store.heads[id].physical), |store.BytesOf(id)|)
  {
    hide Consistent, FileContent, Resized;
    var call := if operation.Grow? then Call.Grow(id, size) else Call.Shrink(id, size);
    var done := Perform(store, call);
    ghost var files := store.Files();
    var r := store.RecoverHead(id);
    for k := 0 to |restarts|
      invariant store.Valid() && store.Files() == files
      invariant r.Done? && id in store.heads ==> store.heads[id].state.Complete?
    {
      store.Restart(restarts[k]);
      r := store.RecoverHead(id);
    }
    complete := r.Done?;
    if complete && id in store.heads {
      CompleteMeansCut(store.Snapshot(), id);
    }
  }

  /** A complete head has exactly the extents of its size. */
  lemma CompleteMeansCut(disk: Disk, id: FileId)
    requires Consistent(disk) && id in disk.heads && disk.heads[id].state.Complete?
    ensures disk.heads[id].size == |FileContent(disk, id)|
    ensures CompleteExtents(GenerationOf(disk.extents, disk.heads[id].physical), |FileContent(disk, id)|)
  {
    assert FileConsistent(disk, id);
  }
}
