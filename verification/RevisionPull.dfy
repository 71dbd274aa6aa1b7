/** Pulling the changed rows of a revision range page by page from a server that
    moves on between the pages, and committing them to the cached window. */
module RevisionPull {
  import opened Basics
  import opened PostCollisions
  import opened PostModel
  import opened PostRepository
  import opened PostWindow
  import opened WindowInvariant
  import opened WindowMisfits
  import opened WindowProtocol
  import opened WindowRuns
  import opened WindowSteps

  const REVISION_PAGE_SIZE: nat := 200

  datatype PullError = InvalidPageSize | PageDidNotAdvance | Unreachable | RevisionCollision

  datatype Result<+T> = Ok(value: T) | Err(error: PullError)

  // --- what a range contains while the server moves -----------------------------------------

  /** Every row was current in the range when the pull began; every row that is
      still current in the range is there, once, in ascending order. */
  ghost predicate Complete(start: Log, end: Log, after: nat, through: nat, rows: seq<Post>)
    requires through <= |start| && through <= |end|
  {
    && AllGenuine(start, rows) && Distinct(rows)
    && (forall r: nat :: r in ChangedRevisions(end, after, through) ==> Has(rows, r))
    && (forall row :: row in rows ==> row.revision in ChangedRevisions(start, after, through))
    && (forall j, k :: 0 <= j < k < |rows| ==> rows[j].revision < rows[k].revision)
  }

  /** The rows up to the cursor are in, and nothing else. */
  ghost predicate CompleteTo(start: Log, end: Log, after: nat, cursor: nat, rows: seq<Post>) {
    && (forall r: nat :: after < r <= cursor && Current(end, r) ==> Has(rows, r))
    && (forall row :: row in rows ==>
          Genuine(start, row) && after < row.revision <= cursor && Current(start, row.revision))
    && (forall j, k :: 0 <= j < k < |rows| ==> rows[j].revision < rows[k].revision)
  }

  lemma CompleteAtEnd(start: Log, end: Log, after: nat, through: nat, rows: seq<Post>)
    requires through <= |start| && start <= end && CompleteTo(start, end, after, through, rows)
    ensures Complete(start, end, after, through, rows)
  {
    hide Genuine, Current, Has;
    ChangedRevisionsAreExact(end, after, through);
    ChangedRevisionsAreExact(start, after, through);
    forall j, k | 0 <= j < k < |rows| ensures rows[j].id != rows[k].id {
      assert rows[j] in rows && rows[k] in rows;
      if rows[j].id == rows[k].id {
        SamePresent(start, start, rows[j], rows[k]);
      }
    }
  }

  lemma CompleteStays(start: Log, before: Log, end: Log, after: nat, cursor: nat, rows: seq<Post>)
    requires before <= end && cursor <= |before| && CompleteTo(start, before, after, cursor, rows)
    ensures CompleteTo(start, end, after, cursor, rows)
  {
    forall r: nat | after < r <= cursor && Current(end, r) ensures Has(rows, r) {
      CurrentWas(before, end, r);
    }
  }

  lemma CompleteGrows(start: Log, end: Log, pull: Pull, page: seq<Post>, users: Users, limit: nat)
    requires pull.Collecting? && pull.through <= |start| && start <= end && 1 <= limit
    requires pull.after <= pull.cursor <= pull.through
    requires CompleteTo(start, end, pull.after, pull.cursor, pull.rows)
    requires Renders(end, PageRevisions(end, pull, limit), page)
    ensures var named := AllMaterialized(page, users);
            CompleteTo(start, end, pull.after, WithPage(pull, named, limit).cursor, pull.rows + named)
  {
    hide Current, ChangedRevisions, Genuine, Has, Renders, PageRevisions;
    var named := AllMaterialized(page, users);
    NamedPage(end, pull, page, users, limit);
    var cursor, both := WithPage(pull, named, limit).cursor, pull.rows + named;
    forall row | row in named ensures Current(start, row.revision) && Genuine(start, row) {
      CurrentWas(start, end, row.revision);
      GenuineWas(start, end, row);
    }
    forall r: nat | pull.after < r <= cursor && Current(end, r) ensures Has(both, r) {
      HasEither(pull.rows, named, r);
    }
    forall row | row in both
      ensures Genuine(start, row) && pull.after < row.revision <= cursor && Current(start, row.revision)
    {
    }
    forall j, k | 0 <= j < k < |both| ensures both[j].revision < both[k].revision {
      if j < |pull.rows| <= k {
        assert both[j] in pull.rows && both[k] in named;
      }
    }
  }

  lemma GenuineWas(before: Log, after: Log, row: Post)
    requires before <= after && Genuine(after, row) && row.revision <= |before|
    ensures Genuine(before, row)
  {
  }

  // --- the server ---------------------------------------------------------------------------

  /** The rows of these revisions as a list shows them. */
  function ListedRows(log: Log, revisions: seq<nat>): (rows: seq<Post>)
    requires forall k :: 0 <= k < |revisions| ==> IsRevision(log, revisions[k])
    ensures Renders(log, revisions, rows) && Raw(rows)
  {
    seq(|revisions|, k requires 0 <= k < |revisions| => ListedRow(log, revisions[k]))
  }

  /** A server that other people write to while it answers. `traffic` says for
      each coming request whether it is answered and how many changes come first. */
  class Server {
    var log: Log
    var upcoming: Log
    var traffic: seq<Option<nat>>
    const users: Users

    ghost predicate Valid()
      reads this
    {
      WellFormed(log + upcoming)
    }

    /** One request arrives. */
    method Receive() returns (answered: bool)
      requires Valid()
      modifies this
      ensures Valid() && Grows(old(log), log)
    {
      answered := true;
      if traffic != [] {
        var arrival := traffic[0];
        traffic := traffic[1..];
        if arrival.None? {
          answered := false;
        } else {
          var count := Min(arrival.value, |upcoming|);
          ghost var all := log + upcoming;
          assert upcoming == upcoming[..count] + upcoming[count..];
          log, upcoming := log + upcoming[..count], upcoming[count..];
          assert log + upcoming == all;
        }
      }
      PrefixIsWellFormed(log + upcoming, |log|);
      PrefixIsWellFormed(log + upcoming, |old(log)|);
      assert (log + upcoming)[..|log|] == log && (log + upcoming)[..|old(log)|] == old(log);
    }

    /** The revision of the conversation and the sum over its posts. */
    method Revisions() returns (answer: Option<(nat, nat)>)
      requires Valid()
      modifies this
      ensures Valid() && Grows(old(log), log)
      ensures answer.Some? ==> answer.value == (|log|, RevisionSum(log))
    {
      var answered := Receive();
      answer := if answered then Some((|log|, RevisionSum(log))) else None;
    }

    method ChangedPosts(cursor: nat, through: nat, limit: nat) returns (answer: Option<seq<Post>>)
      requires Valid() && through <= |log|
      modifies this
      ensures Valid() && Grows(old(log), log)
      ensures answer.Some? ==>
                var all := ChangedRevisions(log, cursor, through);
                answer.value == ListedRows(log, all[..Min(limit, |all|)])
    {
      var answered := Receive();
      if !answered {
        return None;
      }
      var all := ChangedRevisions(log, cursor, through);
      return Some(ListedRows(log, all[..Min(limit, |all|)]));
    }
  }

  lemma PrefixIsWellFormed(log: Log, count: nat)
    requires WellFormed(log) && count <= |log|
    ensures WellFormed(log[..count])
  {
    var prefix := log[..count];
    assert forall k :: 0 <= k < count ==> prefix[k] == log[k];
    forall i, j | 0 <= i < j < |prefix| && prefix[i].sequence > prefix[j].sequence
      ensures exists k :: 0 <= k < j && prefix[k].id == prefix[j].id
    {
      var k :| 0 <= k < j && log[k].id == log[j].id;
      assert prefix[k].id == prefix[j].id;
    }
  }

  // --- the pull -----------------------------------------------------------------------------

  lemma ServerKeepsInv(before: Log, after: Log, cache: Cache, pull: Pull)
    requires Inv(World(before, cache, Some(pull))) && Grows(before, after)
    ensures Inv(World(after, cache, Some(pull)))
  {
    hide Sound, PullSound;
    SoundIsWellFormed(before, cache);
    ServerKeepsSound(before, after, cache);
    ServerKeepsPull(before, after, cache, pull);
  }

  lemma TrimKeepsInv(log: Log, before: Cache, after: Cache, pull: Pull)
    requires Inv(World(log, before, Some(pull))) && Trimmed(before, after)
    ensures Inv(World(log, after, Some(pull)))
  {
    hide Sound, PullSound, EvictedTo;
    if after != before {
      var doomed :| EvictedTo(before, doomed, after);
      EvictKeepsSound(log, before, doomed, after);
      CarefulKeepsPull(log, before, after, pull);
    }
  }

  /** A page is overlaid on the window and joins the rows of the pull. */
  lemma PageKeepsInv(log: Log, before: Cache, pull: Pull, limit: nat, page: seq<Post>, users: Users, after: Cache)
    requires Inv(World(log, before, Some(pull))) && pull.Collecting? && !pull.done && 1 <= limit
    requires pull.through <= |log|
    requires Renders(log, PageRevisions(log, pull, limit), page)
    requires Trimmed(PostWindow.SavePosts(before, page, OVERLAY), after)
    ensures Inv(World(log, after, Some(WithPage(pull, AllMaterialized(page, users), limit))))
  {
    hide Sound, PullSound, Trimmed, Renders;
    var w := World(log, before, Some(pull));
    var more := WithPage(pull, AllMaterialized(page, users), limit);
    var next := World(log, PostWindow.SavePosts(before, page, OVERLAY), Some(more));
    PageContinuesPull(w, limit, page, users, next);
    TrimKeepsInv(log, next.cache, after, more);
  }

  lemma PageIsGenuine(log: Log, pull: Pull, limit: nat, page: seq<Post>)
    requires pull.Collecting? && pull.through <= |log| && 1 <= limit
    requires Renders(log, PageRevisions(log, pull, limit), page)
    ensures AllGenuine(log, page)
  {
  }

  lemma InvIsGenuine(log: Log, cache: Cache, pull: Pull)
    requires Inv(World(log, cache, Some(pull)))
    ensures WellFormed(log) && PostsGenuine(log, cache.posts) && pull.through <= |log| && Sound(log, cache)
    ensures pull.Collecting? ==> AllGenuine(log, pull.rows)
  {
    hide WellFormed, ExactUpTo, NothingPast, ReachesOldest, SumSound, Spanned, PostsGenuine, AllGenuine;
  }

  method MaxRevision(page: seq<Post>) returns (revision: nat)
    requires page != []
    ensures forall row :: row in page ==> row.revision <= revision
    ensures exists row :: row in page && row.revision == revision
  {
    revision := page[0].revision;
    for i := 1 to |page|
      invariant forall row :: row in page[..i] ==> row.revision <= revision
      invariant exists row :: row in page && row.revision == revision
    {
      assert page[..i + 1] == page[..i] + [page[i]];
      if page[i].revision > revision {
        revision := page[i].revision;
      }
    }
    assert page[..|page|] == page;
  }

  /** All names have been put in. */
  predicate Named(rows: seq<Post>) {
    forall row :: row in rows ==> row.content.names.Some?
  }

  /** The pages of a range. Each is saved as it came, an aborted save of a page
      is passed over, and its rows are returned with names in them. */
  method CollectRevisionRange(
    server: Server, cache: ConversationCache, after: nat, through: nat, pageSize: int, retention: Retention,
    ghost sum: Option<nat>)
    returns (result: Result<seq<Post>>)
    requires server.Valid()
    requires Inv(World(
                 server.log, cache.Contents(), Some(Collecting(through, sum, after, after, [], through <= after))))
    modifies server, cache
    ensures server.Valid() && Grows(old(server.log), server.log)
    ensures pageSize < 1 <==> result == Err(InvalidPageSize)
    ensures result.Err? ==> result.error.InvalidPageSize? || result.error.Unreachable?
    ensures through <= after && result.Ok? ==> result.value == []
    ensures through <= |old(server.log)|
    ensures result.Ok? ==> Complete(old(server.log), server.log, after, through, result.value) && Named(result.value)
    ensures Sound(server.log, cache.Contents())
    ensures result.Ok? ==>
              Inv(World(server.log, cache.Contents(),
                        Some(Collecting(through, sum, after, Max(after, through), result.value, true))))
  {
    hide Inv, Sound, Complete, CompleteTo, PageRevisions, WellFormed, PostsGenuine, AllGenuine, Trimmed,
      ChangedRevisions, Renders, Genuine, SaveThrows, Named;
    ghost var pull := Collecting(through, sum, after, after, [], through <= after);
    InvIsGenuine(server.log, cache.Contents(), pull);
    NothingNamed();
    if pageSize < 1 {
      return Err(InvalidPageSize);
    }
    if through <= after {
      NothingInRange(server.log, after, through);
      return Ok([]);
    }
    var rows, cursor := [], after;
    ghost var start := server.log;
    NothingCollected(start, after);
    while true
      invariant server.Valid() && Grows(start, server.log)
      invariant pull == Collecting(through, sum, after, cursor, rows, false)
      invariant after <= cursor <= through <= |start|
      invariant Inv(World(server.log, cache.Contents(), Some(pull)))
      invariant CompleteTo(start, server.log, after, cursor, rows) && Named(rows)
      decreases through - cursor
    {
      ghost var was, window := server.log, cache.Contents();
      var answer := server.ChangedPosts(cursor, through, pageSize);
      ServerKeepsInv(was, server.log, window, pull);
      InvIsGenuine(server.log, window, pull);
      CompleteStays(start, was, server.log, after, cursor, rows);
      if answer.None? {
        return Err(Unreachable);
      }
      var page := answer.value;
      PageIs(server.log, pull, pageSize, page);
      PageIsGenuine(server.log, pull, pageSize, page);
      NothingToSave(window, OVERLAY);
      AlreadyTrimmed(window);
      if page != [] {
        var _ := cache.SavePosts(page, OVERLAY, retention, server.log);
      }
      var named := AllMaterialized(page, server.users);
      PageKeepsInv(server.log, window, pull, pageSize, page, server.users, cache.Contents());
      CompleteGrows(start, server.log, pull, page, server.users, pageSize);
      PageAscends(server.log, pull, page, server.users, pageSize);
      MoreNamed(rows, page, server.users);
      pull := WithPage(pull, named, pageSize);
      InvIsGenuine(server.log, cache.Contents(), pull);
      rows := rows + named;
      if |page| < pageSize {
        CompleteAtEnd(start, server.log, after, through, rows);
        return Ok(rows);
      }
      var nextCursor := MaxRevision(page);
      if nextCursor <= cursor {
        assert false;
      }
      cursor := nextCursor;
    }
  }

  lemma NothingNamed()
    ensures Named([])
  {
  }

  lemma MoreNamed(rows: seq<Post>, page: seq<Post>, users: Users)
    requires Named(rows)
    ensures Named(rows + AllMaterialized(page, users))
  {
    var named := AllMaterialized(page, users);
    forall row | row in named ensures row.content.names.Some? {
      var k :| 0 <= k < |page| && named[k] == row;
    }
  }

  lemma NothingInRange(log: Log, after: nat, through: nat)
    requires through <= after && through <= |log|
    ensures Complete(log, log, after, through, [])
  {
  }

  lemma NothingCollected(log: Log, after: nat)
    ensures CompleteTo(log, log, after, after, [])
  {
  }

  lemma AlreadyTrimmed(cache: Cache)
    ensures Trimmed(cache, cache)
  {
  }

  lemma PageIs(log: Log, pull: Pull, limit: nat, page: seq<Post>)
    requires pull.Collecting? && pull.through <= |log|
    requires var all := ChangedRevisions(log, pull.cursor, pull.through);
             page == ListedRows(log, all[..Min(limit, |all|)])
    ensures Renders(log, PageRevisions(log, pull, limit), page)
  {
  }

  /** The greatest revision of a full page is its last one, and lies in the range. */
  lemma PageAscends(log: Log, pull: Pull, page: seq<Post>, users: Users, limit: nat)
    requires pull.Collecting? && pull.through <= |log| && 1 <= limit
    requires Renders(log, PageRevisions(log, pull, limit), page)
    ensures |page| <= limit
    ensures |page| == limit ==>
              && pull.cursor < page[|page| - 1].revision <= pull.through
              && WithPage(pull, AllMaterialized(page, users), limit).cursor == page[|page| - 1].revision
              && page[|page| - 1] in page
              && forall row :: row in page ==> row.revision <= page[|page| - 1].revision
  {
    hide Renders, PageRevisions, Has;
    PageIsExact(log, pull, limit, page);
    if |page| == limit {
      assert page[|page| - 1] in page;
    }
  }

  // --- the commit ---------------------------------------------------------------------------

  /** The transactions of a commit, with the trims between them, publish a
      revision the window then really has. */
  lemma CommitKeepsSound(log: Log, window: Cache, pull: Pull, saved: Cache, extended: Cache)
    requires Inv(World(log, window, Some(pull))) && pull.Collecting? && pull.done && window.coverage.Some?
    requires !SaveThrows(window, pull.rows, OVERLAY)
    requires Trimmed(PostWindow.SavePosts(window, pull.rows, OVERLAY), saved)
    requires !SaveThrows(saved, Appended(window.coverage, pull.rows), APPEND_OPTIONS)
    requires Trimmed(PostWindow.SavePosts(saved, Appended(window.coverage, pull.rows), APPEND_OPTIONS), extended)
    ensures Sound(log, AdvancePostRevision(extended, pull.through, pull.sum))
  {
    hide Sound, PullSound, Trimmed, PostWindow.SavePosts, AdvancePostRevision, SaveThrows, Fits;
    var w0 := World(log, window, Some(pull));
    var saving := CommitOf(pull, window.coverage);
    var w1 := World(log, window, Some(saving));
    CommitBegins(w0, w1);
    var appending := Appending(pull.through, pull.sum, saving.appended, saving.edge);
    var w2 := World(log, PostWindow.SavePosts(window, pull.rows, OVERLAY), Some(appending));
    RowsAreSaved(w1, w2);
    TrimKeepsInv(log, w2.cache, saved, appending);
    var w3 := World(log, saved, Some(appending));
    var advancing := Advancing(pull.through, pull.sum);
    var w4 := World(log, PostWindow.SavePosts(saved, saving.appended, APPEND_OPTIONS), Some(advancing));
    RowsAreAppended(w3, w4);
    TrimKeepsInv(log, w4.cache, extended, advancing);
    var w5 := World(log, extended, Some(advancing));
    RevisionIsPublished(w5, World(log, AdvancePostRevision(extended, pull.through, pull.sum), None));
  }

  /** Rows past the window meet no stored row, so a commit is aborted only by a
      row that collides with the window as the commit finds it. */
  lemma CommitThrowsIff(log: Log, window: Cache, rows: seq<Post>, saved: Cache)
    requires Sound(log, window) && window.coverage.Some? && AllGenuine(log, rows) && Distinct(rows)
    requires Trimmed(PostWindow.SavePosts(window, rows, OVERLAY), saved)
    ensures SaveThrows(window, rows, OVERLAY) <==> SomeCollides(window.posts, rows)
    ensures !SaveThrows(saved, Appended(window.coverage, rows), APPEND_OPTIONS)
  {
    hide Sound, SaveThrows, PostWindow.SavePosts, EvictedTo, WellFormed, Genuine, Spanned, PostsGenuine;
    SoundParts(log, window);
    forall row | row in rows ensures row.sequence > 0 {
      GenuineIsSequenced(log, row);
    }
    SaveThrowsIff(window, rows, OVERLAY);
    var appended := Appended(window.coverage, rows);
    AppendedIsDistinct(window.coverage, rows);
    OverlaySave(log, window, rows, OVERLAY);
    forall row | row in appended ensures !Collides(saved.posts, row) {
      NotStoredPast(log, PostWindow.SavePosts(window, rows, OVERLAY), saved, row);
    }
    SaveThrowsIff(saved, appended, APPEND_OPTIONS);
  }

  lemma NotStoredPast(log: Log, before: Cache, saved: Cache, row: Post)
    requires WellFormed(log) && PostsGenuine(log, before.posts) && Spanned(before) && Trimmed(before, saved)
    requires Genuine(log, row) && before.coverage.Some? && before.coverage.value.newest.order < row.sequence
    ensures row.id !in saved.posts
  {
    if row.id in before.posts {
      SameSequence(log, row, before.posts[row.id]);
    }
  }

  datatype Outcome = UpToDate | Committed | Failed(error: PullError)

  /** The window and the rows with which a round came to its commit. */
  datatype Commit = Commit(window: Cache, rows: seq<Post>)

  /** One round for one conversation: skipped when the sums agree, otherwise the
      range is collected and committed. The commit is aborted exactly when a
      changed row meets a stored row of its revision that shows something else. */
  method SyncConversationPostRevisions(server: Server, cache: ConversationCache, retention: Retention)
    returns (outcome: Outcome, ghost through: nat, ghost commit: Option<Commit>)
    requires server.Valid() && Sound(server.log, cache.Contents())
    modifies server, cache
    ensures server.Valid() && Grows(old(server.log), server.log)
    ensures Sound(server.log, cache.Contents())
    ensures outcome.Failed? ==> outcome.error.Unreachable? || outcome.error.RevisionCollision?
    ensures commit.Some? <==> outcome.Committed? || outcome == Failed(RevisionCollision)
    ensures commit.Some? ==>
              && Named(commit.value.rows) && AllGenuine(server.log, commit.value.rows)
              && (outcome == Failed(RevisionCollision)
                  <==> commit.value.window.coverage.Some? && SomeCollides(commit.value.window.posts, commit.value.rows))
    ensures outcome == Failed(RevisionCollision) ==> cache.Contents() == commit.value.window
    ensures |old(server.log)| <= through <= |server.log|
    ensures !outcome.Failed? && cache.coverage.Some? ==> through <= Known(cache.Contents())
    ensures !outcome.Failed? && cache.coverage.Some? && through == |server.log| ==> Equals(server.log, cache.Contents())
  {
    hide Sound, PullSound, Trimmed, WellFormed, AllGenuine, PostsGenuine, Equals, RevisionSum, Complete,
      PostWindow.SavePosts, SaveThrows, SomeCollides, Named, PulledRows, Appended;
    ghost var start := server.log;
    commit := None;
    var answer := server.Revisions();
    ServerKeepsSound(start, server.log, cache.Contents());
    through := |server.log|;
    if answer.None? {
      return Failed(Unreachable), through, None;
    }
    var (revision, revisionSum) := answer.value;
    var known := if cache.coverage.Some? then cache.coverage.value.knownRevision else 0;
    assert server.log[..revision] == server.log;
    if cache.coverage.Some? && cache.coverage.value.revisionSum == revisionSum {
      SkippedPullLosesNothing(server.log, cache.Contents(), revision);
      return UpToDate, through, None;
    }
    PullBegins(server.log, cache.Contents());
    var rows := CollectRevisionRange(server, cache, known, revision, REVISION_PAGE_SIZE, retention, Some(revisionSum));
    if rows.Err? {
      return Failed(rows.error), through, None;
    }
    ghost var window := cache.Contents();
    ghost var pull := Collecting(revision, Some(revisionSum), known, Max(known, revision), rows.value, true);
    InvIsGenuine(server.log, window, pull);
    RowsAreDistinct(server.log, window, pull);
    var thrown, saved, extended :=
      cache.ReconcilePostRevisions(rows.value, revision, Some(revisionSum), retention, server.log);
    commit := Some(Commit(window, rows.value));
    if window.coverage.Some? {
      CommitThrowsIff(server.log, window, rows.value, saved);
      if !thrown {
        CommitKeepsSound(server.log, window, pull, saved, extended);
      }
    }
    if thrown {
      return Failed(RevisionCollision), through, commit;
    }
    outcome := Committed;
    if cache.coverage.Some? && through == |server.log| {
      KnownIsSound(server.log, cache.Contents());
      UpToDateWindowEquals(server.log, cache.Contents());
    }
  }

  lemma RowsAreDistinct(log: Log, cache: Cache, pull: Pull)
    requires PullSound(log, cache, pull) && pull.Collecting?
    ensures Distinct(pull.rows)
  {
  }

  lemma PullBegins(log: Log, cache: Cache)
    requires Sound(log, cache)
    ensures Inv(World(log, cache, Some(Collecting(
                |log|, Some(RevisionSum(log)), Known(cache), Known(cache), [], |log| <= Known(cache)))))
  {
    hide Sound;
    SoundIsWellFormed(log, cache);
    assert log[..|log|] == log;
    var snapped := World(log, cache, Some(Snapped(|log|, Some(RevisionSum(log)))));
    var begun := World(log, cache, Some(Collecting(
      |log|, Some(RevisionSum(log)), Known(cache), Known(cache), [], |log| <= Known(cache))));
    KnownReadFits(snapped, Known(cache));
    ReadKeepsInvIff(snapped, Known(cache), begun);
  }
}
