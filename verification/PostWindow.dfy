/** The cached part of one conversation and its proof of coverage: what each
    transaction of the repository does to them, as functions on values. */
module PostWindow {
  import opened Basics
  import opened PostModel

  datatype Boundary = Boundary(id: PostId, order: nat)

  /** Every row between newest and oldest has been observed, up to knownRevision. */
  datatype Coverage = Coverage(
    newest: Boundary,
    oldest: Boundary,
    reachedNewest: bool,
    reachedOldest: bool,
    knownRevision: nat,
    revisionSum: nat)

  type Posts = map<PostId, Post>

  datatype Cache = Cache(posts: Posts, coverage: Option<Coverage>)

  const EMPTY_CACHE: Cache := Cache(map[], None)

  datatype SaveOptions = SaveOptions(extendCoverage: bool, liveAppend: bool, reachedOldest: bool, reachedNewest: bool)

  const OVERLAY: SaveOptions := SaveOptions(false, false, false, false)

  // --- coverage.ts and revision.ts ----------------------------------------------------------

  function BoundaryOf(post: Post): Boundary { Boundary(post.id, post.sequence) }

  predicate Inside(coverage: Option<Coverage>, sequence: nat) {
    coverage.Some? && coverage.value.oldest.order <= sequence <= coverage.value.newest.order
  }

  predicate ShouldExtendPostCoverage(current: Option<Coverage>, options: SaveOptions, incoming: seq<Post>) {
    options.extendCoverage
    || (options.liveAppend
        && (current.None?
            || (current.value.reachedNewest
                && forall k :: 0 <= k < |incoming| ==> incoming[k].sequence > current.value.newest.order)))
  }

  datatype Connection = Ignore | Apply | ReplaceWindow

  function ConnectPostPage(hasCoverage: bool, hasCursor: bool, cursorInConversation: bool, overlaps: bool): Connection {
    if !hasCoverage && !hasCursor then Apply
    else if hasCoverage && hasCursor then (if cursorInConversation then Apply else Ignore)
    else if hasCoverage then (if overlaps then Apply else ReplaceWindow)
    else Ignore
  }

  datatype Decision = Skip | Put | Collision

  function DecideRevisionedWrite(previous: Option<Post>, incoming: Post): Decision {
    if previous.Some? && previous.value.revision > incoming.revision then Skip
    else if previous.Some? && previous.value.revision == incoming.revision && previous.value != incoming then Collision
    else Put
  }

  function OldestOf(rows: seq<Post>): (oldest: Post)
    requires rows != []
    ensures oldest in rows && forall row :: row in rows ==> oldest.sequence <= row.sequence
  {
    if |rows| == 1 then rows[0]
    else
      var last := rows[|rows| - 1];
      var before := OldestOf(rows[..|rows| - 1]);
      assert forall row :: row in rows <==> row in rows[..|rows| - 1] || row == last;
      if last.sequence < before.sequence then last else before
  }

  function NewestOf(rows: seq<Post>): (newest: Post)
    requires rows != []
    ensures newest in rows && forall row :: row in rows ==> row.sequence <= newest.sequence
  {
    if |rows| == 1 then rows[0]
    else
      var last := rows[|rows| - 1];
      var before := NewestOf(rows[..|rows| - 1]);
      assert forall row :: row in rows <==> row in rows[..|rows| - 1] || row == last;
      if last.sequence > before.sequence then last else before
  }

  function NextPostWindowCoverage(current: Option<Coverage>, written: seq<Post>,
      options: SaveOptions): Option<Coverage>
  {
    if written == [] then None
    else
      var oldest, newest := BoundaryOf(OldestOf(written)), BoundaryOf(NewestOf(written));
      match current
      case None => Some(Coverage(newest, oldest, options.reachedNewest, options.reachedOldest, 0, 0))
      case Some(c) =>
        Some(Coverage(
          if newest.order > c.newest.order then newest else c.newest,
          if oldest.order < c.oldest.order then oldest else c.oldest,
          c.reachedNewest || options.reachedNewest,
          c.reachedOldest || options.reachedOldest,
          c.knownRevision,
          c.revisionSum))
  }

  // --- savePosts ----------------------------------------------------------------------------

  /** The transaction in progress; a thrown error aborts it. */
  datatype Saving = Saving(posts: Posts, written: seq<Post>) | Thrown

  function Previous(posts: Posts, id: PostId): Option<Post> {
    if id in posts then Some(posts[id]) else None
  }

  function SaveOne(saving: Saving, coverage: Option<Coverage>, extend: bool, post: Post): Saving
    requires saving.Saving?
  {
    if post.sequence == 0 then Thrown
    else
      var previous := Previous(saving.posts, post.id);
      if !extend && previous.None? && !Inside(coverage, post.sequence) then saving
      else
        match DecideRevisionedWrite(previous, post)
        case Skip => saving
        case Collision => Thrown
        case Put => Saving(saving.posts[post.id := post], saving.written + [post])
  }

  function SaveFirst(posts: Posts, coverage: Option<Coverage>, extend: bool, incoming: seq<Post>, count: nat): Saving
    requires count <= |incoming|
  {
    if count == 0 then Saving(posts, [])
    else
      var before := SaveFirst(posts, coverage, extend, incoming, count - 1);
      if before.Thrown? then Thrown else SaveOne(before, coverage, extend, incoming[count - 1])
  }

  function SavePosts(cache: Cache, incoming: seq<Post>, options: SaveOptions): Cache {
    if incoming == [] then cache
    else
      var extend := ShouldExtendPostCoverage(cache.coverage, options, incoming);
      var saving := SaveFirst(cache.posts, cache.coverage, extend, incoming, |incoming|);
      if saving.Thrown? then cache
      else
        var next := NextPostWindowCoverage(cache.coverage, saving.written, options);
        Cache(saving.posts, if extend && next.Some? then next else cache.coverage)
  }

  /** The save was aborted by one of its rows. */
  predicate SaveThrows(cache: Cache, incoming: seq<Post>, options: SaveOptions) {
    SaveFirst(
      cache.posts, cache.coverage, ShouldExtendPostCoverage(cache.coverage, options, incoming), incoming,
      |incoming|).Thrown?
  }

  // --- the other transactions ---------------------------------------------------------------

  datatype Request = Root | Before(cursor: PostId) | After(cursor: PostId)

  predicate Overlaps(posts: Posts, incoming: seq<Post>) {
    exists k :: 0 <= k < |incoming| && incoming[k].id in posts
  }

  function PageOptions(request: Request, exhausted: bool): SaveOptions {
    SaveOptions(true, false, request.Before? && exhausted, !request.Before? && (request.Root? || exhausted))
  }

  function PageConnection(cache: Cache, request: Request, incoming: seq<Post>): Connection {
    ConnectPostPage(
      cache.coverage.Some?, !request.Root?, !request.Root? && request.cursor in cache.posts,
      Overlaps(cache.posts, incoming))
  }

  function ReconcilePostPage(cache: Cache, request: Request, incoming: seq<Post>, exhausted: bool): Cache {
    var connection := PageConnection(cache, request, incoming);
    if connection.Ignore? then cache
    else
      var window := if connection.ReplaceWindow? then EMPTY_CACHE else cache;
      if incoming != [] then SavePosts(window, incoming, PageOptions(request, exhausted))
      else if cache.coverage.Some? && exhausted && window.coverage.Some? then
        var c := window.coverage.value;
        window.(coverage := Some(c.(
          reachedOldest := c.reachedOldest || request.Before?, reachedNewest := c.reachedNewest || !request.Before?)))
      else window
  }

  function AdvancePostRevision(cache: Cache, revision: nat, revisionSum: Option<nat>): Cache {
    match cache.coverage
    case None => cache
    case Some(c) =>
      cache.(coverage := Some(c.(
        knownRevision := Max(c.knownRevision, revision),
        revisionSum := if revisionSum.Some? then revisionSum.value else c.revisionSum)))
  }

  predicate InOrder(rows: seq<Post>) {
    forall j, k :: 0 <= j < k < |rows| ==> rows[j].sequence <= rows[k].sequence
  }

  /** A row put behind those that do not come after it. */
  function Inserted(rows: seq<Post>, row: Post): (more: seq<Post>)
    ensures forall other :: other in more <==> other in rows || other == row
    ensures InOrder(rows) ==> InOrder(more)
  {
    if rows == [] then [row]
    else
      var last := rows[|rows| - 1];
      assert rows == rows[..|rows| - 1] + [last];
      if last.sequence <= row.sequence then rows + [row]
      else
        var before := Inserted(rows[..|rows| - 1], row);
        assert InOrder(rows) ==>
            forall k :: 0 <= k < |before| ==> before[k] in before && before[k].sequence <= last.sequence;
        before + [last]
  }

  /** The rows past the window that a revision pull appends to it, in the order
      of their sequences. */
  function Appended(coverage: Option<Coverage>, rows: seq<Post>): (appended: seq<Post>)
    ensures InOrder(appended)
    ensures forall row :: row in appended <==>
              && coverage.Some? && coverage.value.reachedNewest
              && row in rows && row.sequence > coverage.value.newest.order
  {
    if rows == [] then []
    else
      var last := rows[|rows| - 1];
      assert rows == rows[..|rows| - 1] + [last];
      var before := Appended(coverage, rows[..|rows| - 1]);
      if coverage.Some? && coverage.value.reachedNewest && last.sequence > coverage.value.newest.order
      then Inserted(before, last) else before
  }

  const APPEND_OPTIONS: SaveOptions := SaveOptions(true, false, false, true)

  /** No two rows of one post. */
  predicate Distinct(rows: seq<Post>) {
    forall j, k :: 0 <= j < k < |rows| ==> rows[j].id != rows[k].id
  }

  lemma {:induction false} InsertedIsDistinct(rows: seq<Post>, row: Post)
    requires Distinct(rows) && forall other :: other in rows ==> other.id != row.id
    ensures Distinct(Inserted(rows, row))
  {
    if rows != [] {
      var last := rows[|rows| - 1];
      assert rows == rows[..|rows| - 1] + [last];
      if last.sequence > row.sequence {
        InsertedIsDistinct(rows[..|rows| - 1], row);
        var before := Inserted(rows[..|rows| - 1], row);
        forall k | 0 <= k < |before| ensures before[k].id != last.id {
          assert before[k] in before;
          if before[k] != row {
            var j :| 0 <= j < |rows| - 1 && rows[j] == before[k];
          }
        }
      }
    }
  }

  lemma {:induction false} AppendedIsDistinct(coverage: Option<Coverage>, rows: seq<Post>)
    requires Distinct(rows)
    ensures Distinct(Appended(coverage, rows))
  {
    if rows != [] {
      var last := rows[|rows| - 1];
      assert rows == rows[..|rows| - 1] + [last];
      AppendedIsDistinct(coverage, rows[..|rows| - 1]);
      var before := Appended(coverage, rows[..|rows| - 1]);
      forall other | other in before ensures other.id != last.id {
        var j :| 0 <= j < |rows| - 1 && rows[j] == other;
      }
      if coverage.Some? && coverage.value.reachedNewest && last.sequence > coverage.value.newest.order {
        InsertedIsDistinct(before, last);
      }
    }
  }

  // --- evicting a prefix --------------------------------------------------------------------

  /** The evicted rows all come before the retained ones. */
  predicate IsPrefix(posts: Posts, doomed: set<PostId>) {
    && doomed <= posts.Keys
    && forall gone, kept :: gone in doomed && kept in posts && kept !in doomed ==>
        posts[gone].sequence < posts[kept].sequence
  }

  predicate IsLowest(posts: Posts, id: PostId) {
    id in posts && forall other :: other in posts ==> posts[id].sequence <= posts[other].sequence
  }

  predicate IsHighest(posts: Posts, id: PostId) {
    id in posts && forall other :: other in posts ==> posts[other].sequence <= posts[id].sequence
  }

  /** The cache after a prefix of its rows was deleted. */
  ghost predicate EvictedTo(cache: Cache, doomed: set<PostId>, after: Cache) {
    && IsPrefix(cache.posts, doomed)
    && after.posts == cache.posts - doomed
    && match cache.coverage
       case None => after.coverage.None?
       case Some(c) =>
         if after.posts == map[] then after.coverage.None?
         else
           && after.coverage.Some?
           && var n := after.coverage.value;
              && IsLowest(after.posts, n.oldest.id) && n.oldest.order == after.posts[n.oldest.id].sequence
              && IsHighest(after.posts, n.newest.id) && n.newest.order == after.posts[n.newest.id].sequence
              && n == c.(oldest := n.oldest, newest := n.newest, reachedOldest := false)
  }
}
