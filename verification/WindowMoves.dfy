/** What a page or a live event does to a conversation's window: which rows,
    ends, flags and revisions are there afterwards. */
module WindowMoves {
  import opened Basics
  import opened PostCollisions
  import opened PostModel
  import opened PostWindow
  import opened WindowInvariant
  import opened WindowSteps

  // --- saving the rows of a page ------------------------------------------------------------

  /** Every row is stored, or a newer version of it. */
  ghost predicate RowsStored(rows: seq<Post>, posts: Posts) {
    forall row :: row in rows ==> row.id in posts && row.revision <= posts[row.id].revision
  }

  /** Whatever is stored was stored before or is a row of the page. */
  ghost predicate FromPage(before: Posts, rows: seq<Post>, after: Posts) {
    forall id :: id in after ==>
      (id in before && after[id] == before[id]) || (after[id] in rows && after[id].id == id)
  }

  /** Not every row is older than what is stored of its post. */
  ghost predicate News(posts: Posts, rows: seq<Post>) {
    exists row :: row in rows && (row.id !in posts || posts[row.id].revision <= row.revision)
  }

  lemma {:induction false} SavedRows(posts: Posts, coverage: Option<Coverage>, incoming: seq<Post>, count: nat)
    requires count <= |incoming| && SaveFirst(posts, coverage, true, incoming, count).Saving?
    ensures var saving := SaveFirst(posts, coverage, true, incoming, count);
            && NoneLost(posts, saving.posts) && RowsStored(incoming[..count], saving.posts)
            && FromPage(posts, incoming[..count], saving.posts)
            && (saving.written == [] ==> saving.posts == posts)
            && (saving.written != [] <==> News(posts, incoming[..count]))
  {
    if count > 0 {
      var before := SaveFirst(posts, coverage, true, incoming, count - 1);
      SavedRows(posts, coverage, incoming, count - 1);
      assert incoming[..count] == incoming[..count - 1] + [incoming[count - 1]];
      SavedRow(posts, coverage, incoming[..count - 1], before, incoming[count - 1]);
    }
  }

  lemma SavedRow(posts: Posts, coverage: Option<Coverage>, rows: seq<Post>, saving: Saving, row: Post)
    requires saving.Saving? && SaveOne(saving, coverage, true, row).Saving?
    requires NoneLost(posts, saving.posts) && RowsStored(rows, saving.posts) && FromPage(posts, rows, saving.posts)
    requires saving.written == [] ==> saving.posts == posts
    requires saving.written != [] <==> News(posts, rows)
    ensures var after := SaveOne(saving, coverage, true, row);
            && NoneLost(posts, after.posts) && RowsStored(rows + [row], after.posts)
            && FromPage(posts, rows + [row], after.posts)
            && (after.written == [] ==> after.posts == posts)
            && (after.written != [] <==> News(posts, rows + [row]))
  {
    hide News, Inside;
    assert row in rows + [row];
    MoreNews(posts, rows, row);
  }

  lemma MoreNews(posts: Posts, rows: seq<Post>, row: Post)
    ensures News(posts, rows + [row])
       <==> News(posts, rows) || row.id !in posts || posts[row.id].revision <= row.revision
  {
    assert row in rows + [row];
    if News(posts, rows) {
      var news :| news in rows && (news.id !in posts || posts[news.id].revision <= news.revision);
      assert news in rows + [row];
    }
  }

  // --- pages --------------------------------------------------------------------------------

  /** The page was added to the window. */
  ghost predicate PageAdded(before: Cache, rows: seq<Post>, request: Request, exhausted: bool, after: Cache)
    requires before.coverage.Some?
  {
    && NoneLost(before.posts, after.posts) && RowsStored(rows, after.posts)
    && FromPage(before.posts, rows, after.posts)
    && after.coverage.Some?
    && (forall row :: row in rows ==> Inside(after.coverage, row.sequence))
    && var c, n := before.coverage.value, after.coverage.value;
       && n.oldest.order <= c.oldest.order && c.newest.order <= n.newest.order
       && (n.oldest.order == c.oldest.order || exists row :: row in rows && row.sequence == n.oldest.order)
       && (n.newest.order == c.newest.order || exists row :: row in rows && row.sequence == n.newest.order)
       && n.knownRevision == c.knownRevision && n.revisionSum == c.revisionSum
       && var tells := rows == [] || News(before.posts, rows);
          && n.reachedOldest == (c.reachedOldest || (tells && request.Before? && exhausted))
          && n.reachedNewest == (c.reachedNewest || (tells && (request.Root? || (request.After? && exhausted))))
  }

  /** The window is this latest page and nothing else. */
  ghost predicate PageAlone(rows: seq<Post>, after: Cache) {
    if rows == [] then after == EMPTY_CACHE
    else
      && RowsStored(rows, after.posts) && FromPage(map[], rows, after.posts)
      && after.coverage.Some?
      && (forall row :: row in rows ==> Inside(after.coverage, row.sequence))
      && var n := after.coverage.value;
         && (exists row :: row in rows && row.sequence == n.oldest.order)
         && (exists row :: row in rows && row.sequence == n.newest.order)
         && n.knownRevision == 0 && n.revisionSum == 0 && n.reachedNewest && !n.reachedOldest
  }

  /** The page has a row of a stored post. */
  ghost predicate Shares(cache: Cache, rows: seq<Post>) {
    exists row :: row in rows && row.id in cache.posts
  }

  /** The save of the page is aborted. */
  ghost predicate PageAborts(cache: Cache, request: Request, rows: seq<Post>, exhausted: bool) {
    match request
    case Root =>
      SaveThrows(
        if cache.coverage.None? || Shares(cache, rows) then cache else EMPTY_CACHE, rows,
        SaveOptions(true, false, false, true))
    case Before(cursor) =>
      cache.coverage.Some? && cursor in cache.posts
      && SaveThrows(cache, rows, SaveOptions(true, false, exhausted, false))
    case After(cursor) =>
      cache.coverage.Some? && cursor in cache.posts
      && SaveThrows(cache, rows, SaveOptions(true, false, false, exhausted))
  }

  /** What becomes of the window: a latest page is added to it if they share a
      post and takes its place otherwise; a page next to a cursor is added if
      the cursor is stored and changes nothing otherwise. */
  ghost predicate PageMoved(before: Cache, request: Request, rows: seq<Post>, exhausted: bool, after: Cache) {
    match request
    case Root =>
      if before.coverage.Some? && Shares(before, rows) then
        if PageAborts(before, request, rows, exhausted) then after == before
        else PageAdded(before, rows, request, exhausted, after)
      else
        if PageAborts(before, request, rows, exhausted) then after == EMPTY_CACHE else PageAlone(rows, after)
    case _ =>
      if before.coverage.None? || request.cursor !in before.posts || PageAborts(before, request, rows, exhausted)
      then after == before
      else PageAdded(before, rows, request, exhausted, after)
  }

  /** The saved rows of a page and the coverage after them. */
  lemma SavedPage(log: Log, cache: Cache, rows: seq<Post>, options: SaveOptions)
    requires WellFormed(log) && PostsGenuine(log, cache.posts) && Spanned(cache) && AllGenuine(log, rows)
    requires options.extendCoverage && rows != [] && !SaveThrows(cache, rows, options)
    ensures var after := PostWindow.SavePosts(cache, rows, options);
            && NoneLost(cache.posts, after.posts) && RowsStored(rows, after.posts)
            && FromPage(cache.posts, rows, after.posts)
            && Extended(cache, rows, options, after)
            && (cache.coverage.Some? ==>
                  var c, n := cache.coverage.value, after.coverage.value;
                  && n.reachedOldest == (c.reachedOldest || (News(cache.posts, rows) && options.reachedOldest))
                  && n.reachedNewest == (c.reachedNewest || (News(cache.posts, rows) && options.reachedNewest)))
  {
    hide WellFormed, PostsGenuine, Spanned, AllGenuine, NoneLost, RowsStored, FromPage, News, Extended, SaveFirst;
    ExtendingSave(log, cache, rows, options);
    SavedRows(cache.posts, cache.coverage, rows, |rows|);
    assert rows[..|rows|] == rows;
  }

  /** When a page connects, in the words of the code. */
  lemma PageConnects(cache: Cache, request: Request, rows: seq<Post>)
    ensures var known := !request.Root? && request.cursor in cache.posts;
            PageConnection(cache, request, rows)
            == if cache.coverage.Some?
               then (if request.Root? then (if Shares(cache, rows) then Apply else ReplaceWindow)
                     else if known then Apply else Ignore)
               else if request.Root? then Apply else Ignore
  {
    assert Overlaps(cache.posts, rows) <==> Shares(cache, rows) by {
      if Shares(cache, rows) {
        var row :| row in rows && row.id in cache.posts;
        var k :| 0 <= k < |rows| && rows[k] == row;
        assert rows[k].id in cache.posts;
      }
    }
  }

  lemma PageMoves(log: Log, cache: Cache, request: Request, rows: seq<Post>, exhausted: bool)
    requires WellFormed(log) && PostsGenuine(log, cache.posts) && Spanned(cache) && AllGenuine(log, rows)
    ensures PageMoved(cache, request, rows, exhausted, PostWindow.ReconcilePostPage(cache, request, rows, exhausted))
  {
    hide WellFormed, PostsGenuine, AllGenuine, News, Shares, Inside, SavePosts, SaveThrows, PageConnection;
    PageConnects(cache, request, rows);
    var connection, options := PageConnection(cache, request, rows), PageOptions(request, exhausted);
    EmptyIsSpanned(log);
    if rows == [] {
      assert !Shares(cache, rows) by { NobodyShares(cache); }
      NothingThrows(cache, options);
      NothingThrows(EMPTY_CACHE, options);
    } else if !connection.Ignore? {
      var window := if connection.ReplaceWindow? then EMPTY_CACHE else cache;
      if SaveThrows(window, rows, options) {
        ThrownChangesNothing(window, rows, options);
      } else {
        SavedPage(log, window, rows, options);
      }
    }
  }

  lemma EmptyIsSpanned(log: Log)
    ensures PostsGenuine(log, map[]) && Spanned(EMPTY_CACHE)
  {
  }

  lemma NobodyShares(cache: Cache)
    ensures !Shares(cache, [])
  {
  }

  // --- live events --------------------------------------------------------------------------

  /** What becomes of the window when one row arrives by itself. A row past a
      window that reaches the newest is appended, and one without a window
      starts it, if the event may do that; every other row is stored exactly if
      its post is stored or belongs inside. */
  ghost predicate EventMoved(before: Cache, post: Post, liveAppend: bool, after: Cache) {
    var stored := before.(posts := before.posts[post.id := post]);
    if post.id in before.posts && (post.revision < before.posts[post.id].revision || Collides(before.posts, post))
    then after == before
    else
      match before.coverage
      case None =>
        if liveAppend
        then after == stored.(coverage := Some(Coverage(BoundaryOf(post), BoundaryOf(post), true, false, 0, 0)))
        else after == if post.id in before.posts then stored else before
      case Some(c) =>
        if liveAppend && c.reachedNewest && c.newest.order < post.sequence
        then after == stored.(coverage := Some(c.(newest := BoundaryOf(post))))
        else after == if post.id in before.posts || c.oldest.order <= post.sequence <= c.newest.order then stored
                      else before
  }

  lemma OneRowSaved(posts: Posts, coverage: Option<Coverage>, extend: bool, post: Post)
    requires post.sequence > 0
    ensures SaveFirst(posts, coverage, extend, [post], 1)
         == if Collides(posts, post) then Thrown
            else if post.id in posts && post.revision < posts[post.id].revision then Saving(posts, [])
            else if extend || post.id in posts || Inside(coverage, post.sequence)
            then Saving(posts[post.id := post], [post])
            else Saving(posts, [])
  {
    hide Inside;
    assert SaveFirst(posts, coverage, extend, [post], 1)
        == SaveOne(SaveFirst(posts, coverage, extend, [post], 0), coverage, extend, post);
  }

  lemma OneRowCovers(coverage: Option<Coverage>, post: Post, options: SaveOptions)
    requires coverage.None? || coverage.value.oldest.order <= coverage.value.newest.order < post.sequence
    ensures NextPostWindowCoverage(coverage, [post], options)
         == Some(match coverage
                 case None =>
                   Coverage(BoundaryOf(post), BoundaryOf(post), options.reachedNewest, options.reachedOldest, 0, 0)
                 case Some(c) =>
                   c.(newest := BoundaryOf(post), reachedNewest := c.reachedNewest || options.reachedNewest,
                      reachedOldest := c.reachedOldest || options.reachedOldest))
  {
    assert OldestOf([post]) == post && NewestOf([post]) == post;
  }

  lemma EventMoves(cache: Cache, post: Post, liveAppend: bool)
    requires Spanned(cache) && post.sequence > 0
    ensures EventMoved(
              cache, post, liveAppend,
              PostWindow.SavePosts(cache, [post], SaveOptions(false, liveAppend, false, liveAppend)))
  {
    hide SaveFirst, NextPostWindowCoverage, Spanned, ShouldExtendPostCoverage;
    var options := SaveOptions(false, liveAppend, false, liveAppend);
    var extend := ShouldExtendPostCoverage(cache.coverage, options, [post]);
    EventExtends(cache.coverage, post, liveAppend);
    SpannedInOrder(cache);
    OneRowSaved(cache.posts, cache.coverage, extend, post);
    if extend {
      OneRowCovers(cache.coverage, post, options);
    }
    if SaveFirst(cache.posts, cache.coverage, extend, [post], 1) == Saving(cache.posts, []) {
      assert NextPostWindowCoverage(cache.coverage, [], options).None? by { NothingCovers(cache.coverage, options); }
    }
  }

  lemma EventExtends(coverage: Option<Coverage>, post: Post, liveAppend: bool)
    ensures ShouldExtendPostCoverage(coverage, SaveOptions(false, liveAppend, false, liveAppend), [post])
       <==> liveAppend
            && (coverage.Some? ==> coverage.value.reachedNewest && coverage.value.newest.order < post.sequence)
  {
    assert [post][0] == post;
  }

  lemma NothingCovers(coverage: Option<Coverage>, options: SaveOptions)
    ensures NextPostWindowCoverage(coverage, [], options).None?
  {
  }

  lemma SpannedInOrder(cache: Cache)
    requires Spanned(cache)
    ensures cache.coverage.None? ==> cache.posts == map[]
    ensures cache.coverage.Some? ==> cache.coverage.value.oldest.order <= cache.coverage.value.newest.order
  {
  }
}
