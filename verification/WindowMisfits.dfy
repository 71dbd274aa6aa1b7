/** The steps that disturb a pull really break the window: what a commit leaves
    out stays out, and from every step that does not fit some run ends with a
    window that claims a revision it does not hold. */
module WindowMisfits {
  import opened Basics
  import opened PostModel
  import opened PostCollisions
  import opened PostWindow
  import opened WindowInvariant
  import opened WindowProtocol
  import opened WindowRuns
  import opened WindowSteps

  // --- what a save does not bring -----------------------------------------------------------

  /** A stored row was stored before or is among the rows that were saved. */
  lemma {:induction false} StoredComesFrom(
    posts: Posts, coverage: Option<Coverage>, extend: bool, incoming: seq<Post>, count: nat, id: PostId)
    requires count <= |incoming| && SaveFirst(posts, coverage, extend, incoming, count).Saving?
    requires id in SaveFirst(posts, coverage, extend, incoming, count).posts
    ensures var row := SaveFirst(posts, coverage, extend, incoming, count).posts[id];
            Previous(posts, id) == Some(row) || (row in incoming && row.id == id)
  {
    if count > 0 {
      var before := SaveFirst(posts, coverage, extend, incoming, count - 1);
      assert SaveFirst(posts, coverage, extend, incoming, count)
          == SaveOne(before, coverage, extend, incoming[count - 1]);
      assert incoming[count - 1] in incoming;
      if id in before.posts {
        StoredComesFrom(posts, coverage, extend, incoming, count - 1, id);
      }
    }
  }

  lemma SavedComesFrom(cache: Cache, incoming: seq<Post>, options: SaveOptions, id: PostId)
    requires id in SavePosts(cache, incoming, options).posts
    ensures var row := SavePosts(cache, incoming, options).posts[id];
            Previous(cache.posts, id) == Some(row) || (row in incoming && row.id == id)
  {
    hide ShouldExtendPostCoverage;
    if incoming != [] && !SaveThrows(cache, incoming, options) {
      StoredComesFrom(
        cache.posts, cache.coverage, ShouldExtendPostCoverage(cache.coverage, options, incoming), incoming, |incoming|,
        id);
    }
  }

  /** A present version inside or past the window that is not stored. */
  ghost predicate Lagging(log: Log, cache: Cache, r: nat) {
    && cache.coverage.Some? && Current(log, r)
    && cache.coverage.value.oldest.order <= Version(log, r).sequence && !Exact(log, cache.posts, r)
  }

  /** What is true of the stored rows, whatever the window claims. */
  ghost predicate Regular(log: Log, cache: Cache) {
    && WellFormed(log) && PostsGenuine(log, cache.posts) && Spanned(cache)
    && (cache.coverage.Some? ==> cache.coverage.value.reachedNewest)
  }

  lemma NotExactAfter(log: Log, cache: Cache, rows: seq<Post>, options: SaveOptions, r: nat)
    requires IsRevision(log, r) && !Exact(log, cache.posts, r) && !Has(rows, r)
    ensures !Exact(log, SavePosts(cache, rows, options).posts, r)
  {
    hide SavePosts;
    var id := Version(log, r).id;
    if Exact(log, SavePosts(cache, rows, options).posts, r) {
      SavedComesFrom(cache, rows, options, id);
    }
  }

  lemma OverlayLags(log: Log, cache: Cache, rows: seq<Post>, r: nat)
    requires Regular(log, cache) && AllGenuine(log, rows) && Lagging(log, cache, r)
    requires !Has(rows, r) || Past(log, cache, r)
    ensures var after := SavePosts(cache, rows, OVERLAY); Regular(log, after) && Lagging(log, after, r)
  {
    hide SavePosts, Has, SaveThrows;
    OverlaySave(log, cache, rows, OVERLAY);
    if !Has(rows, r) {
      NotExactAfter(log, cache, rows, OVERLAY, r);
    } else {
      PastIsNotStored(log, SavePosts(cache, rows, OVERLAY), r);
    }
  }

  lemma PastIsNotStored(log: Log, cache: Cache, r: nat)
    requires PostsGenuine(log, cache.posts) && Spanned(cache) && Past(log, cache, r)
    ensures !Exact(log, cache.posts, r)
  {
  }

  lemma AppendLags(log: Log, cache: Cache, rows: seq<Post>, options: SaveOptions, r: nat)
    requires Regular(log, cache) && AllGenuine(log, rows) && Lagging(log, cache, r) && !Has(rows, r)
    requires rows != [] ==> ShouldExtendPostCoverage(cache.coverage, options, rows)
    ensures var after := SavePosts(cache, rows, options);
            && Regular(log, after) && Lagging(log, after, r) && Known(after) == Known(cache)
            && (!SaveThrows(cache, rows, options) ==>
                  forall row :: row in rows ==> Inside(after.coverage, row.sequence))
  {
    hide SavePosts, Has, SaveThrows, ShouldExtendPostCoverage, PostsGenuine, Spanned, WellFormed;
    NotExactAfter(log, cache, rows, options, r);
    if rows == [] {
      NothingToSave(cache, options);
    } else if SaveThrows(cache, rows, options) {
      ThrownChangesNothing(cache, rows, options);
    } else {
      ExtendingSave(log, cache, rows, options);
    }
  }

  lemma AdvanceLags(log: Log, cache: Cache, revision: nat, sum: Option<nat>, r: nat)
    requires Regular(log, cache) && Lagging(log, cache, r)
    ensures var after := AdvancePostRevision(cache, revision, sum);
            Regular(log, after) && Lagging(log, after, r) && Known(after) == Max(Known(cache), revision)
  {
    hide PostsGenuine, WellFormed;
  }

  /** A window that lags behind up to its known revision does not agree with the server. */
  lemma LaggingDisagrees(log: Log, cache: Cache, r: nat)
    requires Lagging(log, cache, r) && r <= Known(cache)
    ensures !AgreesUpTo(log, cache, Known(cache))
    ensures !Past(log, cache, r) ==> InWindow(log, cache, r) && !Agrees(log, cache)
  {
    assert InWindow(log, cache, r) || Past(log, cache, r);
  }

  // --- when a commit keeps the agreement ----------------------------------------------------

  /** The transactions of a commit. */
  function Committed(cache: Cache, rows: seq<Post>, through: nat, sum: Option<nat>): Cache {
    var saved := SavePosts(cache, rows, OVERLAY);
    AdvancePostRevision(SavePosts(saved, Appended(cache.coverage, rows), APPEND_OPTIONS), through, sum)
  }

  predicate CommitThrows(cache: Cache, rows: seq<Post>) {
    || SaveThrows(cache, rows, OVERLAY)
    || SaveThrows(SavePosts(cache, rows, OVERLAY), Appended(cache.coverage, rows), APPEND_OPTIONS)
  }

  /** The rows of a pull that began after some revision, all of them. */
  ghost predicate PulledFrom(log: Log, after: nat, through: nat, rows: seq<Post>)
    requires through <= |log|
  {
    && PulledRows(log, through, rows) && Collected(log, after, through, rows)
    && forall row :: row in rows ==> after < row.revision
  }

  /** Wherever a pull began, its commit leaves the window in agreement with the
      server if and only if nothing was left out between the known revision and
      the beginning of the pull. */
  lemma CommitAgreesIff(log: Log, cache: Cache, after: nat, through: nat, sum: Option<nat>, rows: seq<Post>)
    requires Sound(log, cache) && cache.coverage.Some? && through <= |log|
    requires PulledFrom(log, after, through, rows) && !CommitThrows(cache, rows)
    ensures var end := Committed(cache, rows, through, sum);
            AgreesUpTo(log, end, Known(end)) <==> NothingLeftOut(log, cache, Min(after, through))
  {
    hide Sound, AgreesUpTo, SavePosts, SaveThrows, PulledRows, Collected, NothingLeftOut, AdvancePostRevision, Has;
    if NothingLeftOut(log, cache, Min(after, through)) {
      CommitAgrees(log, cache, after, through, sum, rows);
    } else {
      CommitDisagrees(log, cache, after, through, sum, rows);
    }
  }

  lemma CommitAgrees(log: Log, cache: Cache, after: nat, through: nat, sum: Option<nat>, rows: seq<Post>)
    requires Sound(log, cache) && cache.coverage.Some? && through <= |log|
    requires PulledFrom(log, after, through, rows) && !CommitThrows(cache, rows)
    requires NothingLeftOut(log, cache, Min(after, through))
    ensures var end := Committed(cache, rows, through, sum); AgreesUpTo(log, end, Known(end))
  {
    hide Sound, SavePosts, SaveThrows, PulledRows, Has, PullSound, AgreesUpTo, AdvancePostRevision;
    var pull := Collecting(through, None, Min(after, through), through, rows, true);
    PullIsSound(log, cache, after, through, rows);
    var w0 := World(log, cache, Some(pull));
    var w1 := World(log, cache, Some(CommitOf(pull, cache.coverage)));
    StepKeepsInv(w0, PullReadCoverage, w1);
    var saved := SavePosts(cache, rows, OVERLAY);
    var appended := Appended(cache.coverage, rows);
    var w2 := World(log, saved, Some(Appending(through, None, appended, cache.coverage.value.newest.order)));
    StepKeepsInv(w1, PullSaveRows, w2);
    var w3 := World(log, SavePosts(saved, appended, APPEND_OPTIONS), Some(Advancing(through, None)));
    StepKeepsInv(w2, PullAppend, w3);
    AdvancedAgrees(log, w3.cache, through, sum);
  }

  lemma PullIsSound(log: Log, cache: Cache, after: nat, through: nat, rows: seq<Post>)
    requires Sound(log, cache) && through <= |log| && PulledFrom(log, after, through, rows)
    requires NothingLeftOut(log, cache, Min(after, through))
    ensures PullSound(log, cache, Collecting(through, None, Min(after, through), through, rows, true))
  {
    hide Sound, Has;
    KnownIsSound(log, cache);
    assert AgreesUpTo(log, cache, Min(after, through));
  }

  lemma AdvancedAgrees(log: Log, cache: Cache, through: nat, sum: Option<nat>)
    requires Sound(log, cache) && PullSound(log, cache, Advancing(through, None))
    ensures var end := AdvancePostRevision(cache, through, sum); AgreesUpTo(log, end, Known(end))
  {
    hide Sound;
    KnownIsSound(log, cache);
    var end := AdvancePostRevision(cache, through, sum);
    assert forall r: nat :: InWindow(log, end, r) <==> InWindow(log, cache, r);
    assert forall r: nat :: Past(log, end, r) <==> Past(log, cache, r);
  }

  lemma CommitDisagrees(log: Log, cache: Cache, after: nat, through: nat, sum: Option<nat>, rows: seq<Post>)
    requires Sound(log, cache) && cache.coverage.Some? && through <= |log|
    requires PulledFrom(log, after, through, rows) && !CommitThrows(cache, rows)
    requires !NothingLeftOut(log, cache, Min(after, through))
    ensures var end := Committed(cache, rows, through, sum); !AgreesUpTo(log, end, Known(end))
  {
    hide SavePosts, SaveThrows, Regular, AgreesUpTo, AdvancePostRevision;
    var r :| Known(cache) < r <= Min(after, through) && Current(log, r)
             && ((InWindow(log, cache, r) && !Exact(log, cache.posts, r)) || Past(log, cache, r));
    SoundIsRegular(log, cache, r);
    var saved, appended := SavePosts(cache, rows, OVERLAY), Appended(cache.coverage, rows);
    OverlayLags(log, cache, rows, r);
    AppendLags(log, saved, appended, APPEND_OPTIONS, r);
    AdvanceLags(log, SavePosts(saved, appended, APPEND_OPTIONS), through, sum, r);
    LaggingDisagrees(log, Committed(cache, rows, through, sum), r);
  }

  lemma SoundIsRegular(log: Log, cache: Cache, r: nat)
    requires Sound(log, cache)
    ensures Regular(log, cache)
    ensures InWindow(log, cache, r) && !Exact(log, cache.posts, r) ==> Lagging(log, cache, r)
    ensures Past(log, cache, r) ==> Lagging(log, cache, r)
  {
    hide ExactUpTo, NothingPast, ReachesOldest, SumSound, WellFormed;
    if Past(log, cache, r) {
      PastIsNotStored(log, cache, r);
    }
  }
}
