/** A page that publishes a revision along with its rows, although it brings only
    some of what changed: when that is right, and that otherwise some run ends
    with a window that disagrees with the server. */
module WindowPublishes {
  import opened Basics
  import opened PostModel
  import opened PostCollisions
  import opened PostWindow
  import opened WindowBreaks
  import opened WindowInvariant
  import opened WindowMisfits
  import opened WindowProtocol
  import opened WindowRuns
  import opened WindowSteps

  /** A root page that starts or replaces the window may publish any revision of
      the server, unless a commit for less is under way. */
  lemma NewWindowMayPublish(w: World, limit: nat, incoming: seq<Post>, next: World, revision: nat)
    requires Inv(w) && Next(w, Page(Root, limit, incoming), next) && incoming != [] && revision <= |w.log|
    requires w.cache.coverage.None? || !Overlaps(w.cache.posts, incoming)
    requires !SaveThrows(EMPTY_CACHE, incoming, PageOptions(Root, |incoming| < limit))
    requires w.pull.Some? && (w.pull.value.Overlaying? || w.pull.value.Appending?) ==> revision <= w.pull.value.through
    ensures PublishFits(next, revision)
  {
    hide IsPage, SavePosts, SaveThrows, Has, WellFormed, PostsGenuine, Spanned;
    SoundParts(w.log, w.cache);
    if w.cache.coverage.None? {
      NoCoverageNoPosts(w.log, w.cache);
    }
    RootStartsWindow(w.log, limit, incoming, |incoming| < limit);
    PublishedWindow(next.log, next.cache, revision);
  }

  /** The window of one new post, a known revision before it that is not stored,
      and rows still to append that reach back before that revision's post. */
  ghost predicate Overreaches(w: World, post: Post, r: nat, row: Post, appended: seq<Post>) {
    && Regular(w.log, w.cache) && w.cache.coverage.Some? && w.cache.coverage.value.newest.order == post.sequence
    && (forall id :: id in w.cache.posts ==> id == post.id)
    && Current(w.log, r) && r <= Known(w.cache) && Version(w.log, r).sequence < post.sequence
    && Version(w.log, r).id != post.id
    && w.pull.Some? && w.pull.value.through <= |w.log| && PulledRows(w.log, w.pull.value.through, appended)
    && w.pull.value.through < r && row in appended && row.sequence <= Version(w.log, r).sequence
    && forall other :: other in appended ==> other.id != post.id
  }

  lemma NoneCollidesWith(log: Log, cache: Cache, rows: seq<Post>, options: SaveOptions)
    requires WellFormed(log) && AllGenuine(log, rows) && Distinct(rows)
    requires forall row :: row in rows ==> row.id !in cache.posts
    ensures !SaveThrows(cache, rows, options)
  {
    hide SaveThrows, WellFormed;
    forall row | row in rows ensures row.sequence > 0 {
      GenuineIsSequenced(log, row);
    }
    SaveThrowsIff(cache, rows, options);
  }

  lemma BreakByAppending(w: World, post: Post, r: nat, row: Post) returns (worlds: seq<World>, steps: seq<Step>)
    requires w.pull.Some? && w.pull.value.Appending? && Overreaches(w, post, r, row, w.pull.value.appended)
    ensures Breaks(w, worlds, steps)
  {
    hide WellFormed, Genuine, SavePosts, SaveThrows, Breaks, Fits, Agrees, PostsGenuine, Spanned, AllGenuine, Has;
    var pull := w.pull.value;
    var advancing := Advancing(pull.through, pull.sum);
    var next := World(w.log, SavePosts(w.cache, pull.appended, APPEND_OPTIONS), Some(advancing));
    NoneCollidesWith(w.log, w.cache, pull.appended, APPEND_OPTIONS);
    ExtendingSave(w.log, w.cache, pull.appended, APPEND_OPTIONS);
    NotPulled(w.log, pull.through, pull.appended, r);
    NotExactAfter(w.log, w.cache, pull.appended, APPEND_OPTIONS, r);
    assert Inside(next.cache.coverage, row.sequence);
    LaggingDisagrees(w.log, next.cache, r);
    BrokenNow(next);
    PullStepFits(w, PullAppend);
    StepThenBreak(w, PullAppend, next, [next], []);
    worlds, steps := [w] + [next], [PullAppend] + [];
  }

  lemma NotPulled(log: Log, through: nat, rows: seq<Post>, r: nat)
    requires through <= |log| && PulledRows(log, through, rows) && through < r
    ensures !Has(rows, r)
  {
  }

  lemma BreakByOverlaying(w: World, post: Post, r: nat, row: Post) returns (worlds: seq<World>, steps: seq<Step>)
    requires w.pull.Some? && w.pull.value.Overlaying? && Overreaches(w, post, r, row, w.pull.value.rows)
    requires Overreaches(w, post, r, row, w.pull.value.appended)
    requires w.cache.coverage.value.oldest.order == post.sequence
    ensures Breaks(w, worlds, steps)
  {
    hide WellFormed, Genuine, SavePosts, SaveThrows, Breaks, Fits, Agrees, AllGenuine, Has, PulledRows;
    var pull := w.pull.value;
    RowsAreGenuine(w.log, pull.through, pull.rows);
    PulledAreDistinct(w.log, pull.through, pull.rows);
    NoneCollidesWith(w.log, w.cache, pull.rows, OVERLAY);
    OverlaySave(w.log, w.cache, pull.rows, OVERLAY);
    var saved := SavePosts(w.cache, pull.rows, OVERLAY);
    OnlyInside(w.log, w.cache, saved, post);
    var next := World(w.log, saved, Some(Appending(pull.through, pull.sum, pull.appended, pull.edge)));
    worlds, steps := BreakByAppending(next, post, r, row);
    PullStepFits(w, PullSaveRows);
    StepThenBreak(w, PullSaveRows, next, worlds, steps);
    worlds, steps := [w] + worlds, [PullSaveRows] + steps;
  }

  lemma PulledAreDistinct(log: Log, through: nat, rows: seq<Post>)
    requires through <= |log| && PulledRows(log, through, rows)
    ensures Distinct(rows)
  {
  }

  /** What is stored in a window of one place is of one post. */
  lemma OnlyInside(log: Log, before: Cache, after: Cache, post: Post)
    requires Regular(log, before) && PostsGenuine(log, after.posts) && Spanned(after)
    requires after.coverage == before.coverage
    requires after.coverage.Some? && forall id :: id in before.posts ==> id == post.id
    requires after.coverage.value.oldest.order == after.coverage.value.newest.order == post.sequence
    ensures forall id :: id in after.posts ==> id == post.id
  {
    hide WellFormed, Genuine;
    var newest := before.coverage.value.newest.id;
    forall id | id in after.posts ensures id == post.id {
      SameSequence(log, after.posts[id], before.posts[newest]);
    }
  }

  /** A new post arrives, and all others are evicted. */
  lemma ShrinkToNewest(w: World) returns (post: Post, changed: World, shown: World, evicted: World, doomed: set<PostId>)
    requires Regular(w.log, w.cache) && w.cache.coverage.Some?
    ensures changed == World(w.log + [Fresh(w.log)], w.cache, w.pull)
    ensures Next(w, Change(Fresh(w.log)), changed) && Fits(w, Change(Fresh(w.log)))
    ensures Next(changed, Event(post, true), shown) && Fits(changed, Event(post, true))
    ensures Next(shown, Evict(doomed), evicted) && Fits(shown, Evict(doomed))
    ensures evicted.log == changed.log && evicted.pull == w.pull && Known(evicted.cache) == Known(w.cache)
    ensures Regular(evicted.log, evicted.cache) && evicted.cache.coverage.Some?
    ensures var c := evicted.cache.coverage.value; c.oldest.order == c.newest.order == post.sequence
    ensures forall id :: id in evicted.cache.posts ==> id == post.id
    ensures post.id == Fresh(w.log).id && post.sequence == Fresh(w.log).sequence
  {
    hide SavePosts, SaveThrows, WellFormed, PostsGenuine, Spanned, Fits;
    FreshStep(w);
    changed := World(w.log + [Fresh(w.log)], w.cache, w.pull);
    post := FullRow(changed.log, |changed.log|);
    FreshIsNew(w.log);
    GrownIsRegular(w.log, w.cache, Fresh(w.log));
    NewestIsStored(w.log, w.cache);
    assert Version(changed.log, |changed.log|) == Fresh(w.log);
    LiveStep(changed, post);
    shown := World(changed.log, SavePosts(w.cache, [post], EventOptions(true)), w.pull);
    NewPostTaken(changed, post);
    doomed := shown.cache.posts.Keys - {post.id};
    evicted := World(shown.log, OnlyNewest(shown.cache, post), w.pull);
    EvictOthers(shown, post);
    EvictFits(shown, doomed);
  }

  lemma EvictFits(w: World, doomed: set<PostId>)
    ensures Fits(w, Evict(doomed))
  {
  }

  lemma NewPostTaken(w: World, post: Post)
    requires Regular(w.log, w.cache) && w.cache.coverage.Some? && Genuine(w.log, post) && post.id !in w.cache.posts
    requires w.cache.coverage.value.newest.order < post.sequence
    ensures var after := SavePosts(w.cache, [post], EventOptions(true));
            && Regular(w.log, after) && after.coverage.Some? && Known(after) == Known(w.cache)
            && after.coverage.value.newest.order == post.sequence && post.id in after.posts
            && after.posts[post.id].sequence == post.sequence
  {
    hide SavePosts, SaveThrows, WellFormed, PostsGenuine;
    var options := EventOptions(true);
    GenuineIsSequenced(w.log, post);
    assert ShouldExtendPostCoverage(w.cache.coverage, options, [post]);
    SaveThrowsIff(w.cache, [post], options);
    ExtendingSave(w.log, w.cache, [post], options);
    var after := SavePosts(w.cache, [post], options);
    assert post in [post] && Inside(after.coverage, post.sequence);
    assert after.coverage.value.newest.order == post.sequence;
    var newest := after.coverage.value.newest.id;
    StoredIsGenuine(w.log, after.posts, newest);
    SameSequence(w.log, after.posts[newest], post);
  }

  lemma StoredIsGenuine(log: Log, posts: Posts, id: PostId)
    requires PostsGenuine(log, posts) && id in posts
    ensures posts[id].id == id && Genuine(log, posts[id])
  {
  }

  /** The cache after all rows but this newest one were evicted. */
  function OnlyNewest(cache: Cache, post: Post): Cache
    requires cache.coverage.Some? && post.id in cache.posts
  {
    var c := cache.coverage.value;
    var end := Boundary(post.id, cache.posts[post.id].sequence);
    Cache(map[post.id := cache.posts[post.id]], Some(c.(oldest := end, newest := end, reachedOldest := false)))
  }

  lemma EvictOthers(w: World, post: Post)
    requires Regular(w.log, w.cache) && w.cache.coverage.Some? && post.id in w.cache.posts
    requires w.cache.posts[post.id].sequence == post.sequence == w.cache.coverage.value.newest.order
    ensures var after := OnlyNewest(w.cache, post);
            && Next(w, Evict(w.cache.posts.Keys - {post.id}), World(w.log, after, w.pull))
            && Regular(w.log, after) && Known(after) == Known(w.cache)
  {
    hide WellFormed, Genuine;
    var doomed, after := w.cache.posts.Keys - {post.id}, OnlyNewest(w.cache, post);
    assert after.posts == w.cache.posts - doomed;
    forall gone | gone in doomed ensures w.cache.posts[gone].sequence < w.cache.posts[post.id].sequence {
      SameSequence(w.log, w.cache.posts[gone], w.cache.posts[post.id]);
    }
    assert IsPrefix(w.cache.posts, doomed);
    assert post.id in after.posts && forall id :: id in after.posts ==> id == post.id;
    assert IsLowest(after.posts, post.id) && IsHighest(after.posts, post.id);
    assert EvictedTo(w.cache, doomed, after);
  }

  /** A commit that would append rows before a revision that is already known. */
  lemma BreakByCommit(w: World, before: Cache, r: nat, row: Post) returns (worlds: seq<World>, steps: seq<Step>)
    requires Regular(w.log, w.cache) && w.cache.coverage.Some? && w.pull.Some? && PullSound(w.log, before, w.pull.value)
    requires w.pull.value.Overlaying? || w.pull.value.Appending?
    requires Current(w.log, r) && w.pull.value.through < r <= Known(w.cache) && row in w.pull.value.appended
    requires row.sequence <= Version(w.log, r).sequence
    ensures Breaks(w, worlds, steps)
  {
    hide Breaks, Next, Fits, Regular, PullSound, PulledRows, WellFormed;
    var post, changed, shown, evicted, doomed := ShrinkToNewest(w);
    RegularIsWellFormed(w.log, w.cache);
    FreshIsNewFor(w.log, r);
    StaysCurrent(w.log, Fresh(w.log), r);
    ServerKeepsPulled(w.log, evicted.log, before, w.pull.value);
    PullIsOlder(w.log, before, w.pull.value, post);
    if w.pull.value.Appending? {
      worlds, steps := BreakByAppending(evicted, post, r, row);
    } else {
      PulledHolds(w.log, before, w.pull.value, row);
      worlds, steps := BreakByOverlaying(evicted, post, r, row);
    }
    StepThenBreak(shown, Evict(doomed), evicted, worlds, steps);
    worlds, steps := [shown] + worlds, [Evict(doomed)] + steps;
    StepThenBreak(changed, Event(post, true), shown, worlds, steps);
    worlds, steps := [changed] + worlds, [Event(post, true)] + steps;
    StepThenBreak(w, Change(Fresh(w.log)), changed, worlds, steps);
    worlds, steps := [w] + worlds, [Change(Fresh(w.log))] + steps;
  }

  lemma RegularIsWellFormed(log: Log, cache: Cache)
    requires Regular(log, cache)
    ensures WellFormed(log)
  {
  }

  lemma FreshIsNewFor(log: Log, r: nat)
    requires WellFormed(log) && IsRevision(log, r)
    ensures Version(log, r).id != Fresh(log).id && Version(log, r).sequence < Fresh(log).sequence
  {
    hide WellFormed;
    FreshIsNew(log);
  }

  /** The rows of a pull are of posts that were there before. */
  lemma PullIsOlder(log: Log, cache: Cache, pull: Pull, post: Post)
    requires WellFormed(log) && PullSound(log, cache, pull) && post.id == Fresh(log).id
    ensures pull.Overlaying? ==> forall row :: row in pull.rows ==> row.id != post.id
    ensures pull.Overlaying? || pull.Appending? ==> forall row :: row in pull.appended ==> row.id != post.id
  {
    hide WellFormed, Has;
    FreshIsNew(log);
    if pull.Overlaying? {
      forall row | row in pull.rows ensures row.id != post.id {
        assert Genuine(log, row);
      }
    }
    if pull.Appending? {
      forall row | row in pull.appended ensures row.id != post.id {
        assert Genuine(log, row);
      }
    }
  }

  lemma PulledHolds(log: Log, cache: Cache, pull: Pull, row: Post)
    requires PullSound(log, cache, pull) && pull.Overlaying? && row in pull.appended
    ensures row in pull.rows
  {
  }

  lemma PublishBreaks(w: World, revision: nat, next: World) returns (worlds: seq<World>, steps: seq<Step>)
    requires Inv(w) && Next(w, PagePublish(revision), next) && !PublishFits(w, revision)
    ensures Breaks(next, worlds, steps)
  {
    hide Breaks, Sound, Fits, Regular, Lagging, PullSound;
    PublishedWindow(w.log, w.cache, revision);
    SoundIsRegular(w.log, w.cache, 0);
    if !NothingLeftOut(w.log, w.cache, revision) {
      var r := LeftOut(w.log, w.cache, revision);
      AdvanceLags(w.log, w.cache, revision, None, r);
      worlds, steps := BreakWhenKnown(next, r);
    } else {
      var r, row := KnownPastAppended(w, revision);
      PublishedIsRegular(w.log, w.cache, revision);
      worlds, steps := BreakByCommit(next, w.cache, r, row);
    }
  }

  lemma KnownPastAppended(w: World, revision: nat) returns (r: nat, row: Post)
    requires NothingLeftOut(w.log, w.cache, revision) && !PublishFits(w, revision)
    ensures w.pull.Some? && (w.pull.value.Overlaying? || w.pull.value.Appending?)
    ensures var known := Known(AdvancePostRevision(w.cache, revision, None));
            Current(w.log, r) && w.pull.value.through < r <= known
    ensures row in w.pull.value.appended && row.sequence <= Version(w.log, r).sequence
  {
    hide NothingLeftOut, AdvancePostRevision;
    var published := AdvancePostRevision(w.cache, revision, None);
    r, row :| Current(w.log, r) && w.pull.value.through < r <= Known(published) && row in w.pull.value.appended
              && row.sequence <= Version(w.log, r).sequence;
  }

  lemma PublishedIsRegular(log: Log, cache: Cache, revision: nat)
    requires Regular(log, cache)
    ensures Regular(log, AdvancePostRevision(cache, revision, None))
  {
    hide WellFormed, PostsGenuine;
  }

  /** A page may publish a revision if and only if nothing the window needs was
      left out up to it, and a commit under way appends nothing before what the
      window then knows: otherwise some run ends with a window that disagrees
      with the server. */
  lemma PublishIsSafeIff(w: World, revision: nat, next: World)
    requires Inv(w) && Next(w, PagePublish(revision), next)
    ensures PublishFits(w, revision) <==> StaysRight(next)
  {
    hide Inv, PublishFits, Next, Fits, Agrees;
    if PublishFits(w, revision) {
      PublishKeepsInvIff(w, revision, next);
      forall worlds: seq<World>, steps: seq<Step> |
        IsPath(worlds, steps) && worlds[0] == next && Undisturbed(worlds, steps)
        ensures Agrees(worlds[|steps|].log, worlds[|steps|].cache)
      {
        PathKeepsInv(worlds, steps, |steps|);
        InvAgrees(worlds[|steps|]);
      }
    } else {
      var worlds, steps := PublishBreaks(w, revision, next);
      assert IsPath(worlds, steps);
    }
  }
}
