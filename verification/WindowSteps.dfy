/** The single transactions on a conversation's window, each against a server
    that is fixed while it runs: what they keep, and how the window moves. */
module WindowSteps {
  import opened Basics
  import opened PostModel
  import opened PostCollisions
  import opened PostWindow
  import opened WindowInvariant

  /** A step that lets nothing into the window unless it is exact, and leaves
      nothing past the window that was not past it before. */
  ghost predicate Careful(log: Log, before: Cache, after: Cache) {
    && Known(after) <= Known(before)
    && (forall r: nat :: InWindow(log, after, r) ==>
          || Exact(log, after.posts, r)
          || (InWindow(log, before, r) && !Exact(log, before.posts, r)))
    && (forall r: nat :: Past(log, after, r) ==> Past(log, before, r))
  }

  lemma Unchanged(log: Log, cache: Cache)
    requires Sound(log, cache)
    ensures Careful(log, cache, cache)
  {
  }

  // --- a save that does not extend the coverage ---------------------------------------------

  lemma OverlayKeepsSound(log: Log, cache: Cache, rows: seq<Post>, options: SaveOptions)
    requires Sound(log, cache) && AllGenuine(log, rows)
    requires !ShouldExtendPostCoverage(cache.coverage, options, rows)
    ensures var after := SavePosts(cache, rows, options);
            && Sound(log, after) && Careful(log, cache, after) && after.coverage == cache.coverage
            && (!SaveThrows(cache, rows, options) ==>
                  forall r: nat :: InWindow(log, cache, r) && Has(rows, r) ==> Exact(log, after.posts, r))
  {
    hide PostsGenuine, Spanned, SavePosts, ShouldExtendPostCoverage, SaveThrows, Has;
    OverlaySave(log, cache, rows, options);
    var after := SavePosts(cache, rows, options);
    assert forall r: nat :: Past(log, after, r) ==> Past(log, cache, r);
    assert forall r: nat :: InWindow(log, after, r) ==> InWindow(log, cache, r);
  }

  // --- pages --------------------------------------------------------------------------------

  predicate InRange(request: Request, cursor: nat, sequence: nat) {
    match request
    case Root => true
    case Before(_) => sequence < cursor
    case After(_) => cursor < sequence
  }

  /** The order in which a page is filled. */
  predicate Sooner(request: Request, first: nat, second: nat) {
    if request.After? then first < second else first > second
  }

  /** What the server answers: the posts next to the cursor, without gaps, and
      all of them if there are fewer than the limit. */
  ghost predicate IsPage(log: Log, request: Request, cursor: nat, limit: nat, incoming: seq<Post>) {
    && 1 <= limit && |incoming| <= limit
    && (forall row :: row in incoming ==>
          Genuine(log, row) && Current(log, row.revision) && InRange(request, cursor, row.sequence))
    && (forall row, r: nat ::
          (row in incoming && Current(log, r) && InRange(request, cursor, Version(log, r).sequence)
           && Sooner(request, Version(log, r).sequence, row.sequence))
          ==> Has(incoming, r))
    && (|incoming| < limit ==>
          forall r: nat :: Current(log, r) && InRange(request, cursor, Version(log, r).sequence) ==> Has(incoming, r))
  }

  function CursorSequence(cache: Cache, request: Request): nat {
    if !request.Root? && request.cursor in cache.posts then cache.posts[request.cursor].sequence else 0
  }

  /** A page of the server as it is now, for a cursor the cache may know. */
  ghost predicate Answers(log: Log, cache: Cache, request: Request, limit: nat, incoming: seq<Post>) {
    || PageConnection(cache, request, incoming).Ignore?
    || IsPage(log, request, CursorSequence(cache, request), limit, incoming)
  }

  /** Two present versions with one sequence are the same version. */
  lemma SequenceIdentifies(log: Log, first: nat, second: nat)
    requires WellFormed(log) && Current(log, first) && Current(log, second)
    requires Version(log, first).sequence == Version(log, second).sequence
    ensures first == second
  {
    assert Version(log, first).id == Version(log, second).id;
    CurrentIsUnique(log, first, second);
  }

  /** The row of a page at a present version's place is of that version. */
  lemma SamePlace(log: Log, rows: seq<Post>, row: Post, r: nat)
    requires WellFormed(log) && row in rows && Genuine(log, row) && Current(log, row.revision) && Current(log, r)
    requires row.sequence == Version(log, r).sequence
    ensures Has(rows, r)
  {
    SequenceIdentifies(log, row.revision, r);
  }

  lemma RootHasNoGap(log: Log, limit: nat, incoming: seq<Post>, after: Cache, r: nat)
    requires WellFormed(log) && IsPage(log, Root, 0, limit, incoming)
    requires after.coverage.Some?
    requires exists row :: row in incoming && row.sequence == after.coverage.value.oldest.order
    requires InWindow(log, after, r)
    ensures Has(incoming, r)
  {
    var row :| row in incoming && row.sequence == after.coverage.value.oldest.order;
    if row.sequence == Version(log, r).sequence {
      SamePlace(log, incoming, row, r);
    } else {
      assert Sooner(Root, Version(log, r).sequence, row.sequence);
    }
  }

  lemma RootReachesTop(log: Log, limit: nat, incoming: seq<Post>, after: Cache)
    requires IsPage(log, Root, 0, limit, incoming) && incoming != []
    requires after.coverage.Some? && forall row :: row in incoming ==> Inside(after.coverage, row.sequence)
    ensures forall r: nat :: !Past(log, after, r)
  {
    forall r: nat | Current(log, r) ensures Version(log, r).sequence <= after.coverage.value.newest.order {
      if Version(log, r).sequence > incoming[0].sequence {
        assert Sooner(Root, Version(log, r).sequence, incoming[0].sequence);
        var row :| row in incoming && row.revision == r;
      }
    }
  }

  /** A root page starts a new window. */
  lemma RootStartsWindow(log: Log, limit: nat, incoming: seq<Post>, exhausted: bool)
    requires WellFormed(log) && IsPage(log, Root, 0, limit, incoming) && incoming != []
    requires !SaveThrows(EMPTY_CACHE, incoming, PageOptions(Root, exhausted))
    ensures var after := SavePosts(EMPTY_CACHE, incoming, PageOptions(Root, exhausted));
            && Sound(log, after) && Known(after) == 0
            && (forall r: nat :: !Past(log, after, r))
            && (forall r: nat :: InWindow(log, after, r) ==> Exact(log, after.posts, r))
  {
    var options := PageOptions(Root, exhausted);
    var after := SavePosts(EMPTY_CACHE, incoming, options);
    hide SavePosts, SaveThrows, Has, WellFormed, PostsGenuine, Spanned, IsPage;
    EmptyIsSound(log);
    PageIsGenuine(log, Root, 0, limit, incoming);
    SoundParts(log, EMPTY_CACHE);
    ExtendingSave(log, EMPTY_CACHE, incoming, options);
    RootReachesTop(log, limit, incoming, after);
    forall r: nat | InWindow(log, after, r) ensures Exact(log, after.posts, r) {
      RootHasNoGap(log, limit, incoming, after, r);
    }
  }

  lemma PageIsGenuine(log: Log, request: Request, cursor: nat, limit: nat, incoming: seq<Post>)
    requires IsPage(log, request, cursor, limit, incoming)
    ensures AllGenuine(log, incoming)
  {
  }

  lemma SoundParts(log: Log, cache: Cache)
    requires Sound(log, cache)
    ensures WellFormed(log) && PostsGenuine(log, cache.posts) && Spanned(cache)
  {
  }

  // --- extending the window -----------------------------------------------------------------

  /** An extending save keeps the claims if everything the window newly spans
      is among its rows or was changed after the known revision. */
  lemma ExtendKeepsSound(log: Log, cache: Cache, rows: seq<Post>, options: SaveOptions)
    requires Sound(log, cache) && AllGenuine(log, rows) && rows != []
    requires ShouldExtendPostCoverage(cache.coverage, options, rows) && !SaveThrows(cache, rows, options)
    requires cache.coverage.None? ==> options.reachedNewest && !options.reachedOldest
    requires var after := SavePosts(cache, rows, options);
             && (forall r: nat :: InWindow(log, after, r) && !Inside(cache.coverage, Version(log, r).sequence) ==>
                   Has(rows, r) || Known(cache) < r)
             && (options.reachedOldest ==> ReachesOldest(log, after))
    ensures var after := SavePosts(cache, rows, options);
            && Sound(log, after) && after.coverage.Some? && Known(after) == Known(cache)
            && (forall r: nat :: Past(log, after, r) && cache.coverage.Some? ==> Past(log, cache, r))
            && (forall r: nat :: InWindow(log, after, r) && (Has(rows, r) || Exact(log, cache.posts, r)) ==>
                  Exact(log, after.posts, r))
  {
    hide PostsGenuine, Spanned, SavePosts, ShouldExtendPostCoverage, SaveThrows, Has;
    ExtendingSave(log, cache, rows, options);
    var after := SavePosts(cache, rows, options);
    forall r: nat | InWindow(log, after, r) && (Has(rows, r) || Exact(log, cache.posts, r))
      ensures Exact(log, after.posts, r)
    {
    }
    ExtendedExactUpTo(log, cache, rows, after);
    assert cache.coverage.Some? ==> forall r: nat :: Past(log, after, r) ==> Past(log, cache, r);
  }

  lemma ExtendedExactUpTo(log: Log, cache: Cache, rows: seq<Post>, after: Cache)
    requires ExactUpTo(log, cache, Known(cache))
    requires ExactAfter(log, cache.posts, rows, cache.coverage, true, after.posts)
    requires Known(after) == Known(cache)
    requires forall r: nat :: InWindow(log, after, r) && !Inside(cache.coverage, Version(log, r).sequence) ==>
               Has(rows, r) || Known(cache) < r
    ensures ExactUpTo(log, after, Known(after))
  {
    hide Has;
    forall r: nat | InWindow(log, after, r) && r <= Known(cache) ensures Exact(log, after.posts, r) {
      if Inside(cache.coverage, Version(log, r).sequence) {
        assert InWindow(log, cache, r);
      }
    }
  }

  /** A page that continues the window leaves no gap. */
  lemma PageHasNoGap(log: Log, cache: Cache, request: Request, limit: nat, incoming: seq<Post>, after: Cache, r: nat)
    requires Sound(log, cache) && cache.coverage.Some? && PageConnection(cache, request, incoming).Apply?
    requires IsPage(log, request, CursorSequence(cache, request), limit, incoming)
    requires Extended(cache, incoming, PageOptions(request, |incoming| < limit), after)
    requires InWindow(log, after, r) && !Inside(cache.coverage, Version(log, r).sequence)
    ensures Has(incoming, r)
  {
    hide ExactUpTo, NothingPast, ReachesOldest, SumSound, PostsGenuine, Spanned, Has;
    var sequence := Version(log, r).sequence;
    var was, now := cache.coverage.value, after.coverage.value;
    var anchor := Anchor(log, cache, request, limit, incoming);
    var edge;
    if sequence < was.oldest.order {
      edge :| edge in incoming && edge.sequence == now.oldest.order;
    } else if request.Root? {
      edge :| edge in incoming && edge.sequence == anchor;
    } else {
      edge :| edge in incoming && edge.sequence == now.newest.order;
    }
    if edge.sequence == sequence {
      SamePlace(log, incoming, edge, r);
    } else {
      assert Sooner(request, sequence, edge.sequence);
    }
  }

  /** A sequence inside the window that the page connects to. */
  lemma Anchor(log: Log, cache: Cache, request: Request, limit: nat, incoming: seq<Post>) returns (anchor: nat)
    requires Sound(log, cache) && cache.coverage.Some? && PageConnection(cache, request, incoming).Apply?
    requires IsPage(log, request, CursorSequence(cache, request), limit, incoming)
    ensures Inside(cache.coverage, anchor)
    ensures request.Root? ==> exists row :: row in incoming && row.sequence == anchor
    ensures !request.Root? ==> anchor == CursorSequence(cache, request)
  {
    if request.Root? {
      var k :| 0 <= k < |incoming| && incoming[k].id in cache.posts;
      SameSequence(log, incoming[k], cache.posts[incoming[k].id]);
      assert incoming[k] in incoming;
      anchor := incoming[k].sequence;
    } else {
      anchor := CursorSequence(cache, request);
    }
  }

  lemma ContinuedPageKeepsSound(log: Log, cache: Cache, request: Request, limit: nat, incoming: seq<Post>)
    requires Sound(log, cache) && cache.coverage.Some? && PageConnection(cache, request, incoming).Apply?
    requires IsPage(log, request, CursorSequence(cache, request), limit, incoming) && incoming != []
    requires !SaveThrows(cache, incoming, PageOptions(request, |incoming| < limit))
    ensures var after := SavePosts(cache, incoming, PageOptions(request, |incoming| < limit));
            Sound(log, after) && Careful(log, cache, after)
  {
    hide PostsGenuine, Spanned, SavePosts, SumSound, PageConnection, SaveThrows, Has;
    var options := PageOptions(request, |incoming| < limit);
    var after := SavePosts(cache, incoming, options);
    assert AllGenuine(log, incoming);
    ExtendingSave(log, cache, incoming, options);
    forall r: nat | InWindow(log, after, r) && !Inside(cache.coverage, Version(log, r).sequence)
      ensures Has(incoming, r)
    {
      PageHasNoGap(log, cache, request, limit, incoming, after, r);
    }
    if options.reachedOldest {
      ExhaustedReachesOldest(log, cache, request, limit, incoming, after);
    }
    ExtendKeepsSound(log, cache, incoming, options);
    forall r: nat | InWindow(log, after, r)
      ensures Exact(log, after.posts, r) || (InWindow(log, cache, r) && !Exact(log, cache.posts, r))
    {
    }
  }

  /** A page before the cursor that the server could not fill ends at its oldest post. */
  lemma ExhaustedReachesOldest(log: Log, cache: Cache, request: Request, limit: nat, incoming: seq<Post>, after: Cache)
    requires Sound(log, cache) && cache.coverage.Some? && PageConnection(cache, request, incoming).Apply?
    requires IsPage(log, request, CursorSequence(cache, request), limit, incoming)
    requires request.Before? && |incoming| < limit
    requires after.coverage.Some? && after.coverage.value.oldest.order <= cache.coverage.value.oldest.order
    requires forall row :: row in incoming ==> Inside(after.coverage, row.sequence)
    ensures ReachesOldest(log, after)
  {
    hide ExactUpTo, NothingPast, SumSound, PostsGenuine, ReachesOldest;
    forall r: nat | Current(log, r) ensures after.coverage.value.oldest.order <= Version(log, r).sequence {
      if InRange(request, CursorSequence(cache, request), Version(log, r).sequence) {
        assert Has(incoming, r);
        var row :| row in incoming && row.revision == r;
      }
    }
    OldestReached(log, after);
  }

  lemma OldestReached(log: Log, cache: Cache)
    requires cache.coverage.Some?
    requires forall r: nat :: Current(log, r) ==> cache.coverage.value.oldest.order <= Version(log, r).sequence
    ensures ReachesOldest(log, cache)
  {
  }

  /** Whatever page of the present server arrives, for whatever cursor. */
  lemma PageKeepsSound(log: Log, cache: Cache, request: Request, limit: nat, incoming: seq<Post>)
    requires Sound(log, cache) && Answers(log, cache, request, limit, incoming)
    ensures var after := ReconcilePostPage(cache, request, incoming, |incoming| < limit);
            Sound(log, after) && Careful(log, cache, after)
  {
    hide PostsGenuine, ExactUpTo, SumSound, IsPage;
    var connection := PageConnection(cache, request, incoming);
    var after := ReconcilePostPage(cache, request, incoming, |incoming| < limit);
    if connection.Ignore? {
      Unchanged(log, cache);
    } else if incoming == [] {
      EmptyPageKeepsSound(log, cache, request, limit);
    } else if after == cache {
      Unchanged(log, cache);
    } else if after == EMPTY_CACHE {
      ClearKeepsSound(log, cache);
    } else if connection.Apply? && cache.coverage.Some? {
      ContinuedPageKeepsSound(log, cache, request, limit, incoming);
    } else {
      RootStartsWindow(log, limit, incoming, |incoming| < limit);
    }
  }

  lemma EmptyPageKeepsSound(log: Log, cache: Cache, request: Request, limit: nat)
    requires Sound(log, cache) && !PageConnection(cache, request, []).Ignore?
    requires IsPage(log, request, CursorSequence(cache, request), limit, [])
    ensures var after := ReconcilePostPage(cache, request, [], 0 < limit);
            Sound(log, after) && Careful(log, cache, after)
  {
    var after := ReconcilePostPage(cache, request, [], 0 < limit);
    if PageConnection(cache, request, []).Apply? && cache.coverage.Some? {
      assert request.Before? ==> ReachesOldest(log, after) by {
        if request.Before? {
          ExhaustedReachesOldest(log, cache, request, limit, [], after);
        }
      }
      assert forall r: nat :: Past(log, after, r) ==> Past(log, cache, r);
      assert forall r: nat :: InWindow(log, after, r) ==> InWindow(log, cache, r);
    }
  }

  /** A last page before a stored post, even an empty one, proves that the
      window has reached the conversation's oldest post, unless its save is aborted. */
  lemma BeforePageReachesOldest(log: Log, cache: Cache, cursor: PostId, limit: nat, incoming: seq<Post>)
    requires Sound(log, cache) && cache.coverage.Some? && cursor in cache.posts
    requires IsPage(log, Before(cursor), cache.posts[cursor].sequence, limit, incoming) && |incoming| < limit
    ensures var after := ReconcilePostPage(cache, Before(cursor), incoming, true);
            && after.coverage.Some?
            && (after.coverage.value.reachedOldest
                <==> cache.coverage.value.reachedOldest
                     || !SaveThrows(cache, incoming, PageOptions(Before(cursor), true)))
  {
    hide Sound, SavePosts, SaveFirst;
    var options := PageOptions(Before(cursor), true);
    if incoming == [] {
      NothingThrows(cache, options);
    } else if SaveThrows(cache, incoming, options) {
      ThrownChangesNothing(cache, incoming, options);
    } else {
      PageIsWritten(log, cache, cursor, limit, incoming);
      WrittenSetsFlags(cache, incoming, options);
    }
  }

  lemma NothingToSave(cache: Cache, options: SaveOptions)
    ensures SavePosts(cache, [], options) == cache
  {
  }

  lemma NothingThrows(cache: Cache, options: SaveOptions)
    ensures !SaveThrows(cache, [], options)
  {
  }

  lemma ThrownChangesNothing(cache: Cache, incoming: seq<Post>, options: SaveOptions)
    requires SaveThrows(cache, incoming, options)
    ensures SavePosts(cache, incoming, options) == cache
  {
  }

  lemma PageIsWritten(log: Log, cache: Cache, cursor: PostId, limit: nat, incoming: seq<Post>)
    requires Sound(log, cache) && cursor in cache.posts && incoming != []
    requires IsPage(log, Before(cursor), cache.posts[cursor].sequence, limit, incoming)
    requires !SaveThrows(cache, incoming, PageOptions(Before(cursor), true))
    ensures var saving := SaveFirst(cache.posts, cache.coverage, true, incoming, |incoming|);
            saving.Saving? && saving.written != []
  {
    hide ExactUpTo, NothingPast, ReachesOldest, SumSound, Spanned, SaveFirst, WellFormed;
    var first := incoming[0];
    assert first in incoming && Current(log, first.revision);
    if first.id in cache.posts {
      CurrentIsNewest(log, first.revision, cache.posts[first.id]);
    }
    FirstIsWritten(cache, incoming);
  }

  lemma FirstIsWritten(cache: Cache, incoming: seq<Post>)
    requires incoming != [] && (incoming[0].id in cache.posts ==>
                                  cache.posts[incoming[0].id].revision <= incoming[0].revision)
    requires SaveFirst(cache.posts, cache.coverage, true, incoming, |incoming|).Saving?
    ensures SaveFirst(cache.posts, cache.coverage, true, incoming, |incoming|).written != []
  {
    var begun := SaveFirst(cache.posts, cache.coverage, true, incoming, 0);
    assert SaveFirst(cache.posts, cache.coverage, true, incoming, 1)
        == SaveOne(begun, cache.coverage, true, incoming[0]);
    if SaveFirst(cache.posts, cache.coverage, true, incoming, 1).Thrown? {
      ThrownStays(cache.posts, cache.coverage, true, incoming, 1, |incoming|);
    }
    WrittenStaysWritten(cache.posts, cache.coverage, true, incoming, 1, |incoming|);
  }

  lemma {:induction false} WrittenStaysWritten(
    posts: Posts, coverage: Option<Coverage>, extend: bool, incoming: seq<Post>, from: nat, count: nat)
    requires from <= count <= |incoming|
    requires var begun := SaveFirst(posts, coverage, extend, incoming, from); begun.Saving? ==> begun.written != []
    ensures var saving := SaveFirst(posts, coverage, extend, incoming, count); saving.Saving? ==> saving.written != []
    decreases count
  {
    if from < count {
      WrittenStaysWritten(posts, coverage, extend, incoming, from, count - 1);
    }
  }

  lemma WrittenSetsFlags(cache: Cache, incoming: seq<Post>, options: SaveOptions)
    requires incoming != [] && ShouldExtendPostCoverage(cache.coverage, options, incoming)
    requires var saving := SaveFirst(cache.posts, cache.coverage, true, incoming, |incoming|);
             saving.Saving? && saving.written != []
    ensures var after := SavePosts(cache, incoming, options).coverage;
            && after.Some?
            && (options.reachedOldest ==> after.value.reachedOldest)
            && (options.reachedNewest ==> after.value.reachedNewest)
  {
  }

  // --- evicting -----------------------------------------------------------------------------

  lemma EvictKeepsSound(log: Log, cache: Cache, doomed: set<PostId>, after: Cache)
    requires Sound(log, cache) && EvictedTo(cache, doomed, after)
    ensures Sound(log, after) && Careful(log, cache, after)
  {
    if after.coverage.Some? {
      EvictedWindow(log, cache, doomed, after);
      forall r: nat | InWindow(log, after, r) && Exact(log, cache.posts, r) ensures Exact(log, after.posts, r) {
        RetainedIsExact(log, cache, doomed, after, r);
      }
      assert forall r: nat :: InWindow(log, after, r) ==> InWindow(log, cache, r);
      assert forall r: nat :: Past(log, after, r) ==> Past(log, cache, r);
    }
  }

  /** A legal prefix eviction cuts the window at its old end and keeps its new end. */
  lemma EvictedWindow(log: Log, cache: Cache, doomed: set<PostId>, after: Cache)
    requires Sound(log, cache) && EvictedTo(cache, doomed, after) && after.coverage.Some?
    ensures cache.coverage.Some? && Spanned(after) && PostsGenuine(log, after.posts)
    ensures after.coverage.value.newest.order == cache.coverage.value.newest.order
    ensures cache.coverage.value.oldest.order <= after.coverage.value.oldest.order
  {
    hide ExactUpTo, NothingPast, ReachesOldest, SumSound, WellFormed;
    var newest := cache.coverage.value.newest.id;
    assert newest !in doomed;
    assert newest in after.posts;
    assert after.coverage.value.oldest.id in cache.posts;
  }

  lemma RetainedIsExact(log: Log, cache: Cache, doomed: set<PostId>, after: Cache, revision: nat)
    requires Sound(log, cache) && EvictedTo(cache, doomed, after) && after.coverage.Some?
    requires InWindow(log, after, revision) && Exact(log, cache.posts, revision)
    ensures Exact(log, after.posts, revision)
  {
    hide ExactUpTo, NothingPast, ReachesOldest, SumSound, WellFormed, Spanned;
    var id := Version(log, revision).id;
    assert id !in doomed;
  }

  lemma ClearKeepsSound(log: Log, cache: Cache)
    requires WellFormed(log)
    ensures Sound(log, EMPTY_CACHE) && Careful(log, cache, EMPTY_CACHE)
  {
  }

  // --- live events --------------------------------------------------------------------------

  const LIVE_OPTIONS: SaveOptions := SaveOptions(false, true, false, true)

  /** A live post past the newest end: what enters the window was past it before. */
  ghost predicate Live(log: Log, before: Cache, after: Cache) {
    && before.coverage.Some? && after.coverage.Some? && Known(after) <= Known(before)
    && before.coverage.value.newest.order <= after.coverage.value.newest.order
    && (forall r: nat :: InWindow(log, after, r) ==>
          || Exact(log, after.posts, r)
          || (InWindow(log, before, r) && !Exact(log, before.posts, r))
          || Past(log, before, r))
    && (forall r: nat :: Past(log, after, r) ==> Past(log, before, r))
  }

  /** Extending the window by one live post, of whatever age the event is. */
  lemma LiveAppendKeepsSound(log: Log, cache: Cache, post: Post)
    requires Sound(log, cache) && cache.coverage.Some? && Genuine(log, post)
    requires ShouldExtendPostCoverage(cache.coverage, LIVE_OPTIONS, [post])
    ensures var after := SavePosts(cache, [post], LIVE_OPTIONS);
            Sound(log, after) && Live(log, cache, after)
  {
    hide PostsGenuine, Spanned, SavePosts, SumSound, ReachesOldest;
    var after := SavePosts(cache, [post], LIVE_OPTIONS);
    assert [post][0].sequence > cache.coverage.value.newest.order;
    if SaveThrows(cache, [post], LIVE_OPTIONS) {
      ThrownChangesNothing(cache, [post], LIVE_OPTIONS);
      return;
    }
    ExtendingSave(log, cache, [post], LIVE_OPTIONS);
    assert forall row :: row in [post] ==> row == post;
    EndsInOrder(cache);
    forall r: nat | InWindow(log, after, r) && !Inside(cache.coverage, Version(log, r).sequence)
      ensures Past(log, cache, r)
    {
      assert after.coverage.value.oldest.order == cache.coverage.value.oldest.order;
    }
    ExtendKeepsSound(log, cache, [post], LIVE_OPTIONS);
  }

  lemma EndsInOrder(cache: Cache)
    requires Spanned(cache) && cache.coverage.Some?
    ensures cache.coverage.value.oldest.order <= cache.coverage.value.newest.order
  {
  }

  /** Without a window, a live post starts one that claims nothing yet. */
  lemma LiveCreateKeepsSound(log: Log, cache: Cache, post: Post)
    requires Sound(log, cache) && cache.coverage.None? && Genuine(log, post)
    ensures Sound(log, SavePosts(cache, [post], LIVE_OPTIONS))
  {
    hide PostsGenuine, SavePosts, SaveThrows, SumSound, ReachesOldest;
    GenuineIsSequenced(log, post);
    SaveThrowsIff(cache, [post], LIVE_OPTIONS);
    ExtendingSave(log, cache, [post], LIVE_OPTIONS);
    ExtendKeepsSound(log, cache, [post], LIVE_OPTIONS);
  }

  // --- the server moves ---------------------------------------------------------------------

  lemma ServerKeepsExact(before: Log, after: Log, cache: Cache, through: nat)
    requires before <= after && through <= |before| && ExactUpTo(before, cache, through)
    ensures ExactUpTo(after, cache, through)
  {
    forall r: nat | InWindow(after, cache, r) && r <= through ensures Exact(after, cache.posts, r) {
      CurrentWas(before, after, r);
      assert InWindow(before, cache, r);
    }
  }

  lemma ServerKeepsPast(before: Log, after: Log, cache: Cache, through: nat)
    requires before <= after && through <= |before| && NothingPast(before, cache, through)
    ensures NothingPast(after, cache, through)
  {
    forall r: nat | Past(after, cache, r) && r <= through ensures false {
      CurrentWas(before, after, r);
      assert Past(before, cache, r);
    }
  }

  lemma ServerKeepsSound(before: Log, after: Log, cache: Cache)
    requires Sound(before, cache) && Grows(before, after)
    ensures Sound(after, cache)
  {
    hide Spanned, ExactUpTo, NothingPast, ReachesOldest, SumSound, WellFormed, PostsGenuine;
    ServerKeepsGenuine(before, after, cache.posts);
    ServerKeepsExact(before, after, cache, Known(cache));
    ServerKeepsPast(before, after, cache, Known(cache));
    ServerKeepsOldest(before, after, cache);
    ServerKeepsSum(before, after, cache);
  }

  lemma ServerKeepsGenuine(before: Log, after: Log, posts: Posts)
    requires before <= after && PostsGenuine(before, posts)
    ensures PostsGenuine(after, posts)
  {
    forall id | id in posts ensures Genuine(after, posts[id]) {
      assert Genuine(before, posts[id]);
    }
  }

  lemma ServerKeepsSum(before: Log, after: Log, cache: Cache)
    requires before <= after && SumSound(before, cache)
    ensures SumSound(after, cache)
  {
    if cache.coverage.Some? && cache.coverage.value.revisionSum != 0 {
      var known: nat :|
        known <= Known(cache) && known <= |before| && SumOf(before, known) == cache.coverage.value.revisionSum;
      assert before[..known] == after[..known];
      assert SumOf(after, known) == cache.coverage.value.revisionSum;
    }
  }

  /** New posts are newer than all others. */
  lemma ServerKeepsOldest(before: Log, after: Log, cache: Cache)
    requires Sound(before, cache) && Grows(before, after)
    ensures ReachesOldest(after, cache)
  {
    hide ExactUpTo, NothingPast, SumSound, WellFormed;
    if cache.coverage.Some? && cache.coverage.value.reachedOldest {
      var oldest := cache.posts[cache.coverage.value.oldest.id];
      forall r: nat | Current(after, r) ensures oldest.sequence <= Version(after, r).sequence {
        if Version(after, r).sequence < oldest.sequence {
          var first := FirstVersion(before, after, r, oldest.revision);
          var latest := LatestVersion(before, first);
        }
      }
    }
  }

  /** A post older than a known one is itself known. */
  lemma FirstVersion(before: Log, after: Log, revision: nat, known: nat) returns (first: nat)
    requires Grows(before, after) && IsRevision(after, revision) && IsRevision(before, known)
    requires Version(after, revision).sequence < Version(before, known).sequence
    ensures IsRevision(before, first) && Version(before, first).sequence == Version(after, revision).sequence
    decreases revision
  {
    if revision <= |before| {
      first := revision;
    } else {
      assert after[known - 1].sequence > after[revision - 1].sequence;
      var k :| 0 <= k < revision - 1 && after[k].id == after[revision - 1].id;
      first := FirstVersion(before, after, k + 1, known);
    }
  }

  /** Every post has a present version. */
  lemma LatestVersion(log: Log, revision: nat) returns (latest: nat)
    requires WellFormed(log) && IsRevision(log, revision)
    ensures Current(log, latest)
    ensures Version(log, latest).id == Version(log, revision).id
    ensures Version(log, latest).sequence == Version(log, revision).sequence
    decreases |log| - revision
  {
    if Current(log, revision) {
      latest := revision;
    } else {
      var later :| revision <= later < |log| && log[later].id == log[revision - 1].id;
      latest := LatestVersion(log, later + 1);
    }
  }

  // --- publishing a revision ----------------------------------------------------------------

  lemma AdvanceKeepsSound(log: Log, cache: Cache, revision: nat, sum: Option<nat>)
    requires Sound(log, cache) && revision <= |log| && (sum.Some? ==> sum.value == SumOf(log, revision))
    requires ExactUpTo(log, cache, revision) && NothingPast(log, cache, revision)
    ensures Sound(log, AdvancePostRevision(cache, revision, sum))
  {
    hide PostsGenuine, WellFormed, SumSound;
    var after := AdvancePostRevision(cache, revision, sum);
    if cache.coverage.Some? {
      assert forall r: nat :: InWindow(log, after, r) ==> InWindow(log, cache, r);
      assert forall r: nat :: Past(log, after, r) ==> Past(log, cache, r);
      AdvanceKeepsSum(log, cache, revision, sum);
    }
  }

  lemma AdvanceKeepsSum(log: Log, cache: Cache, revision: nat, sum: Option<nat>)
    requires SumSound(log, cache) && revision <= |log| && (sum.Some? ==> sum.value == SumOf(log, revision))
    ensures SumSound(log, AdvancePostRevision(cache, revision, sum))
  {
    hide SumOf;
    var after := AdvancePostRevision(cache, revision, sum);
    if after.coverage.Some? && after.coverage.value.revisionSum != 0 {
      if sum.Some? {
        assert SumOf(log, revision) == after.coverage.value.revisionSum;
      } else {
        var known: nat :|
          known <= Known(cache) && known <= |log| && SumOf(log, known) == cache.coverage.value.revisionSum;
        assert SumOf(log, known) == after.coverage.value.revisionSum && known <= Known(after);
      }
    }
  }
}
