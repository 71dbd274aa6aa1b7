/** The repository's transactions on one conversation, as they are carried out:
    rows and coverage are changed in place, and each method is proved against
    the function that says what it does to the window. */
module PostRepository {
  import opened Basics
  import opened PostCollisions
  import opened PostModel
  import opened PostWindow
  import opened WindowInvariant
  import opened WindowMoves
  import opened WindowSteps

  const MAX_RECORD_DELETES_PER_TRANSACTION: nat := 64
  const MAX_WINDOW_ROWS: nat := 200

  /** What decides over the rows a trim may take: the rows the device keeps for
      their age, if it keeps any for that reason, and those a save protects. */
  datatype Retention = Retention(recent: Option<set<PostId>>, claimed: set<PostId>)

  // --- rows in the order of the index -------------------------------------------------------

  /** Rows are stored under their own ids, and no two share a sequence. */
  predicate Keyed(posts: Posts) {
    && (forall id :: id in posts ==> posts[id].id == id)
    && (forall one, other :: one in posts && other in posts && posts[one].sequence == posts[other].sequence ==>
        one == other)
  }

  ghost predicate OrderedRows(posts: Posts, rows: seq<Post>) {
    && (forall j, k :: 0 <= j < k < |rows| ==> rows[j].sequence < rows[k].sequence)
    && (forall k :: 0 <= k < |rows| ==> rows[k].id in posts && posts[rows[k].id] == rows[k])
    && (forall id :: id in posts ==> posts[id] in rows)
  }

  /** The rows so far are in order and come before all the rest. */
  ghost predicate Listed(posts: Posts, rest: Posts, rows: seq<Post>) {
    && rest.Keys <= posts.Keys && (forall id :: id in rest ==> rest[id] == posts[id])
    && (forall j, k :: 0 <= j < k < |rows| ==> rows[j].sequence < rows[k].sequence)
    && (forall k :: 0 <= k < |rows| ==> rows[k].id in posts && posts[rows[k].id] == rows[k])
    && (forall id :: id in posts ==> id in rest || posts[id] in rows)
    && (forall k, id :: 0 <= k < |rows| && id in rest ==> rows[k].sequence < posts[id].sequence)
  }

  lemma AllUnlisted(posts: Posts)
    ensures Listed(posts, posts, [])
  {
  }

  lemma ListedMore(posts: Posts, rest: Posts, rows: seq<Post>, id: PostId)
    requires Keyed(posts) && Listed(posts, rest, rows) && IsLowest(rest, id)
    ensures Listed(posts, rest - {id}, rows + [rest[id]])
  {
    hide IsLowest, Keyed;
    LowestComesFirst(posts, rest, id);
    var more := rows + [posts[id]];
    assert forall k :: 0 <= k < |more| ==> more[k] == if k < |rows| then rows[k] else posts[id];
    forall other | other in posts ensures other in rest - {id} || posts[other] in more {
      if posts[other] in rows {
        var k :| 0 <= k < |rows| && rows[k] == posts[other];
        assert more[k] == posts[other];
      } else {
        assert more[|rows|] == posts[id];
      }
    }
    forall j, k | 0 <= j < k < |more| ensures more[j].sequence < more[k].sequence {
      assert more[j] == rows[j];
    }
  }

  lemma LowestComesFirst(posts: Posts, rest: Posts, id: PostId)
    requires Keyed(posts) && IsLowest(rest, id)
    requires forall other :: other in rest ==> other in posts && rest[other] == posts[other]
    ensures id in rest && posts[id].id == id
    ensures forall other :: other in rest && other != id ==> posts[id].sequence < posts[other].sequence
  {
    forall other | other in rest && other != id ensures posts[id].sequence < posts[other].sequence {
      assert posts[other].sequence != posts[id].sequence;
    }
  }

  lemma NothingLeft(posts: Posts, rows: seq<Post>)
    requires Listed(posts, map[], rows)
    ensures OrderedRows(posts, rows)
  {
  }

  function Ids(rows: seq<Post>): set<PostId> { set row | row in rows :: row.id }

  lemma GenuineIsKeyed(log: Log, posts: Posts)
    requires WellFormed(log) && PostsGenuine(log, posts)
    ensures Keyed(posts)
  {
    forall one, other | one in posts && other in posts && posts[one].sequence == posts[other].sequence
      ensures one == other
    {
      SameSequence(log, posts[one], posts[other]);
    }
  }

  lemma {:induction false} LowestExists(posts: Posts)
    requires posts != map[]
    ensures exists id :: IsLowest(posts, id)
    decreases |posts|
  {
    var id :| id in posts;
    var others := posts - {id};
    if others == map[] {
      assert forall other :: other in posts ==> other == id || other in others;
      assert IsLowest(posts, id);
    } else {
      LowestExists(others);
      var lowest :| IsLowest(others, lowest);
      assert forall other :: other in posts ==> other == id || other in others;
      assert IsLowest(posts, if posts[id].sequence <= posts[lowest].sequence then id else lowest);
    }
  }

  lemma {:induction false} OrderIsUnique(posts: Posts, one: seq<Post>, other: seq<Post>)
    requires Keyed(posts) && OrderedRows(posts, one) && OrderedRows(posts, other)
    ensures one == other
    decreases |one|
  {
    if one != [] {
      assert posts[one[0].id] in other && posts[other[0].id] in one;
      var rest := posts - {one[0].id};
      AfterFirst(posts, one);
      AfterFirst(posts, other);
      OrderIsUnique(rest, one[1..], other[1..]);
    }
  }

  lemma AfterFirst(posts: Posts, rows: seq<Post>)
    requires Keyed(posts) && OrderedRows(posts, rows) && rows != []
    ensures Keyed(posts - {rows[0].id}) && OrderedRows(posts - {rows[0].id}, rows[1..])
  {
    forall id | id in posts - {rows[0].id} ensures posts[id] in rows[1..] {
      var k :| 0 <= k < |rows| && rows[k] == posts[id];
      assert rows[1..][k - 1] == posts[id];
    }
  }

  /** Deleting the first rows leaves the others in order. */
  lemma AfterPrefix(posts: Posts, rows: seq<Post>, count: nat)
    requires Keyed(posts) && OrderedRows(posts, rows) && count <= |rows|
    ensures Keyed(posts - Ids(rows[..count])) && OrderedRows(posts - Ids(rows[..count]), rows[count..])
    ensures IsPrefix(posts, Ids(rows[..count]))
  {
    var doomed := Ids(rows[..count]);
    forall k | 0 <= k < |rows| ensures rows[k].id in doomed <==> k < count {
      if k < count {
        assert rows[..count][k] == rows[k];
      }
    }
    forall id | id in posts - doomed ensures posts[id] in rows[count..] {
      var k :| 0 <= k < |rows| && rows[k] == posts[id];
      assert rows[count..][k - count] == posts[id];
    }
    forall gone, kept | gone in doomed && kept in posts && kept !in doomed
      ensures posts[gone].sequence < posts[kept].sequence
    {
      var j :| 0 <= j < |rows| && rows[j] == posts[gone];
      var k :| 0 <= k < |rows| && rows[k] == posts[kept];
      assert j < count <= k;
    }
  }

  lemma FirstAndLast(posts: Posts, rows: seq<Post>)
    requires OrderedRows(posts, rows) && rows != []
    ensures IsLowest(posts, rows[0].id) && IsHighest(posts, rows[|rows| - 1].id)
  {
    forall id | id in posts
      ensures posts[rows[0].id].sequence <= posts[id].sequence <= posts[rows[|rows| - 1].id].sequence
    {
      var k :| 0 <= k < |rows| && rows[k] == posts[id];
    }
  }

  // --- what an eviction takes ---------------------------------------------------------------

  /** How many leading rows go: as many as asked for, but nothing from the first
      protected row on unless protected rows may go too. */
  predicate TakesPrefix(rows: seq<Post>, count: nat, claimed: set<PostId>, allowProtected: bool, taken: nat) {
    && taken <= count && taken <= |rows|
    && (allowProtected || forall k :: 0 <= k < taken ==> rows[k].id !in claimed)
    && (taken == count || taken == |rows| || (!allowProtected && rows[taken].id in claimed))
  }

  predicate TakesProtected(rows: seq<Post>, claimed: set<PostId>, taken: nat)
    requires taken <= |rows|
  {
    exists k :: 0 <= k < taken && rows[k].id in claimed
  }

  /** Two prefixes deleted one after the other are one prefix. */
  lemma EvictedTwice(start: Cache, first: set<PostId>, between: Cache, second: set<PostId>, end: Cache)
    requires EvictedTo(start, first, between) && EvictedTo(between, second, end)
    ensures EvictedTo(start, first + second, end)
  {
    assert start.posts - (first + second) == (start.posts - first) - second;
  }

  /** A save of the repository ends with a trim that may evict old rows. */
  ghost predicate Trimmed(before: Cache, after: Cache) {
    after == before || exists doomed :: EvictedTo(before, doomed, after)
  }

  /** How many rows a trim asks to delete: all but the newest ones of the window,
      or all before the first recent one. */
  predicate TrimCount(rows: seq<Post>, retention: Retention, count: nat) {
    match retention.recent
    case None => count == if |rows| > MAX_WINDOW_ROWS then |rows| - MAX_WINDOW_ROWS else 0
    case Some(recent) =>
      && count <= |rows| && (forall k :: 0 <= k < count ==> rows[k].id !in recent)
      && (count < |rows| ==> rows[count].id in recent)
  }

  ghost predicate TrimsTo(before: Cache, retention: Retention, rows: seq<Post>, count: nat, taken: nat, after: Cache) {
    && OrderedRows(before.posts, rows) && TrimCount(rows, retention, count)
    && TakesPrefix(rows, count, retention.claimed, false, taken)
    && if count == 0 then after == before else EvictedTo(before, Ids(rows[..taken]), after)
  }

  /** The rows that a trim asks for go, up to the first protected one. */
  ghost predicate TrimmedTo(before: Cache, retention: Retention, after: Cache) {
    exists rows: seq<Post>, count: nat, taken: nat :: TrimsTo(before, retention, rows, count, taken, after)
  }

  lemma TrimIsTrimmed(before: Cache, retention: Retention, after: Cache)
    requires TrimmedTo(before, retention, after)
    ensures Trimmed(before, after)
  {
    var rows: seq<Post>, count: nat, taken: nat :| TrimsTo(before, retention, rows, count, taken, after);
  }

  /** A trim takes no recent and no protected row. */
  lemma TrimSpares(before: Cache, retention: Retention, after: Cache, id: PostId)
    requires TrimmedTo(before, retention, after) && id in before.posts && id !in after.posts
    ensures id !in retention.claimed && (retention.recent.Some? ==> id !in retention.recent.value)
  {
    var rows: seq<Post>, count: nat, taken: nat :| TrimsTo(before, retention, rows, count, taken, after);
    assert id in Ids(rows[..taken]);
    var row :| row in rows[..taken] && row.id == id;
    var k :| 0 <= k < taken && rows[..taken][k] == row;
    assert rows[k].id == id;
  }

  /** A row at or before this one is among these. */
  ghost predicate From(posts: Posts, ids: set<PostId>, id: PostId)
    requires id in posts
  {
    exists other :: other in posts && other in ids && posts[other].sequence <= posts[id].sequence
  }

  function Newer(posts: Posts, id: PostId): set<PostId>
    requires id in posts
  {
    set other | other in posts && posts[id].sequence < posts[other].sequence
  }

  /** A row survives a trim that starts from these rows: some row at or before
      it is protected, or is recent; without a limit of age, it is one of the
      newest 200. */
  ghost predicate Survives(posts: Posts, retention: Retention, id: PostId)
    requires id in posts
  {
    || From(posts, retention.claimed, id)
    || match retention.recent
       case None => |Newer(posts, id)| < 200
       case Some(recent) => From(posts, recent, id)
  }

  lemma {:induction false} IdsCount(rows: seq<Post>)
    requires PostWindow.Distinct(rows)
    ensures |Ids(rows)| == |rows|
  {
    if rows != [] {
      var front, last := rows[..|rows| - 1], rows[|rows| - 1];
      assert rows == front + [last];
      assert Ids(rows) == Ids(front) + {last.id};
      IdsCount(front);
      assert last.id !in Ids(front);
    }
  }

  lemma NewerCount(posts: Posts, rows: seq<Post>, k: nat)
    requires Keyed(posts) && OrderedRows(posts, rows) && k < |rows|
    ensures |Newer(posts, rows[k].id)| == |rows| - 1 - k
  {
    var rest := rows[k + 1..];
    assert PostWindow.Distinct(rest) by {
      forall i, j | 0 <= i < j < |rest| ensures rest[i].id != rest[j].id {
        assert rest[i] == rows[k + 1 + i] && rest[j] == rows[k + 1 + j];
      }
    }
    IdsCount(rest);
    NewerAre(posts, rows, k);
  }

  lemma NewerAre(posts: Posts, rows: seq<Post>, k: nat)
    requires Keyed(posts) && OrderedRows(posts, rows) && k < |rows|
    ensures Newer(posts, rows[k].id) == Ids(rows[k + 1..])
  {
    var rest := rows[k + 1..];
    forall other | other in Newer(posts, rows[k].id) ensures other in Ids(rest) {
      var j :| 0 <= j < |rows| && rows[j] == posts[other];
      assert rest[j - k - 1] == posts[other];
    }
    forall other | other in Ids(rest) ensures other in Newer(posts, rows[k].id) {
      var j :| 0 <= j < |rest| && rest[j].id == other;
      assert rows[k + 1 + j] == rest[j];
    }
  }

  lemma FromIs(posts: Posts, rows: seq<Post>, ids: set<PostId>, k: nat)
    requires Keyed(posts) && OrderedRows(posts, rows) && k < |rows|
    ensures From(posts, ids, rows[k].id) <==> exists j :: 0 <= j <= k && rows[j].id in ids
  {
    if From(posts, ids, rows[k].id) {
      var other :| other in posts && other in ids && posts[other].sequence <= rows[k].sequence;
      var j :| 0 <= j < |rows| && rows[j] == posts[other];
      assert j <= k && rows[j].id in ids;
    }
  }

  lemma SurvivesFrom(posts: Posts, retention: Retention, rows: seq<Post>, count: nat, taken: nat, k: nat)
    requires Keyed(posts) && OrderedRows(posts, rows) && TrimCount(rows, retention, count) && k < |rows|
    requires TakesPrefix(rows, count, retention.claimed, false, taken)
    ensures Survives(posts, retention, rows[k].id) <==> taken <= k
  {
    hide Keyed, OrderedRows;
    FromIs(posts, rows, retention.claimed, k);
    if retention.recent.Some? {
      FromIs(posts, rows, retention.recent.value, k);
    }
    NewerCount(posts, rows, k);
  }

  /** Exactly the surviving rows are left, as they were. */
  lemma TrimIsExact(before: Cache, retention: Retention, after: Cache)
    requires Keyed(before.posts) && TrimmedTo(before, retention, after)
    ensures forall id :: id in after.posts <==> id in before.posts && Survives(before.posts, retention, id)
    ensures forall id :: id in after.posts ==> after.posts[id] == before.posts[id]
  {
    hide Survives, Keyed;
    var rows: seq<Post>, count: nat, taken: nat :| TrimsTo(before, retention, rows, count, taken, after);
    forall id | id in before.posts ensures id in after.posts <==> Survives(before.posts, retention, id) {
      var k :| 0 <= k < |rows| && rows[k] == before.posts[id];
      KeyedId(before.posts, id);
      SurvivesFrom(before.posts, retention, rows, count, taken, k);
      InPrefix(before.posts, rows, taken, k);
    }
  }

  lemma KeyedId(posts: Posts, id: PostId)
    requires Keyed(posts) && id in posts
    ensures posts[id].id == id
  {
  }

  lemma InPrefix(posts: Posts, rows: seq<Post>, taken: nat, k: nat)
    requires OrderedRows(posts, rows) && taken <= |rows| && k < |rows|
    ensures rows[k].id in Ids(rows[..taken]) <==> k < taken
  {
    if k < taken {
      assert rows[..taken][k] == rows[k];
    }
  }

  lemma TrimKeepsGenuine(log: Log, before: Cache, after: Cache)
    requires PostsGenuine(log, before.posts) && Trimmed(before, after)
    ensures PostsGenuine(log, after.posts)
  {
  }

  lemma SaveIsGenuine(log: Log, cache: Cache, incoming: seq<Post>, options: SaveOptions)
    requires WellFormed(log) && PostsGenuine(log, cache.posts) && AllGenuine(log, incoming)
    ensures PostsGenuine(log, SavePosts(cache, incoming, options).posts)
  {
    hide WellFormed, PostsGenuine, AllGenuine, ShouldExtendPostCoverage;
    if incoming != [] && !SaveThrows(cache, incoming, options) {
      SaveFirstIs(
        log, cache.posts, cache.coverage, ShouldExtendPostCoverage(cache.coverage, options, incoming), incoming,
        |incoming|);
    }
  }

  class ConversationCache {
    var posts: Posts
    var coverage: Option<Coverage>

    ghost function Contents(): Cache
      reads this
    {
      Cache(posts, coverage)
    }

    constructor ()
      ensures Contents() == EMPTY_CACHE
    {
      posts, coverage := map[], None;
    }

    // --- saving -----------------------------------------------------------------------------

    static method ExtendedCoverage(current: Option<Coverage>, written: seq<Post>, options: SaveOptions)
      returns (next: Option<Coverage>)
      ensures next == NextPostWindowCoverage(current, written, options)
    {
      if written == [] {
        return None;
      }
      var oldest, newest := written[0], written[0];
      for i := 0 to |written|
        invariant i == 0 ==> oldest == written[0] && newest == written[0]
        invariant i > 0 ==> oldest == OldestOf(written[..i]) && newest == NewestOf(written[..i])
      {
        assert written[..i + 1][..i] == written[..i];
        if written[i].sequence < oldest.sequence {
          oldest := written[i];
        }
        if written[i].sequence > newest.sequence {
          newest := written[i];
        }
      }
      assert written[..|written|] == written;
      var writtenOldest, writtenNewest := BoundaryOf(oldest), BoundaryOf(newest);
      match current
      case None =>
        next := Some(Coverage(writtenNewest, writtenOldest, options.reachedNewest, options.reachedOldest, 0, 0));
      case Some(c) =>
        next := Some(Coverage(
          if writtenNewest.order > c.newest.order then writtenNewest else c.newest,
          if writtenOldest.order < c.oldest.order then writtenOldest else c.oldest,
          c.reachedNewest || options.reachedNewest,
          c.reachedOldest || options.reachedOldest,
          c.knownRevision,
          c.revisionSum));
    }

    /** One transaction: every admissible row is put, or none. */
    method SaveTransaction(incoming: seq<Post>, options: SaveOptions) returns (thrown: bool)
      modifies this
      ensures Contents() == PostWindow.SavePosts(old(Contents()), incoming, options)
      ensures thrown <==> SaveThrows(old(Contents()), incoming, options)
    {
      if incoming == [] {
        return false;
      }
      var extend := ShouldExtendPostCoverage(coverage, options, incoming);
      var stored, written := posts, [];
      for i := 0 to |incoming|
        invariant SaveFirst(posts, coverage, extend, incoming, i) == Saving(stored, written)
        invariant posts == old(posts) && coverage == old(coverage)
      {
        var post := incoming[i];
        assert SaveFirst(posts, coverage, extend, incoming, i + 1)
            == SaveOne(Saving(stored, written), coverage, extend, post);
        if post.sequence == 0 {
          ThrownStays(posts, coverage, extend, incoming, i + 1, |incoming|);
          return true;
        }
        var previous := Previous(stored, post.id);
        if !extend && previous.None? && !Inside(coverage, post.sequence) {
          continue;
        }
        var decision := DecideRevisionedWrite(previous, post);
        if decision.Collision? {
          ThrownStays(posts, coverage, extend, incoming, i + 1, |incoming|);
          return true;
        }
        if decision.Skip? {
          continue;
        }
        stored := stored[post.id := post];
        written := written + [post];
      }
      var next := ExtendedCoverage(coverage, written, options);
      posts := stored;
      if extend && next.Some? {
        coverage := next;
      }
      return false;
    }

    // --- evicting ---------------------------------------------------------------------------

    /** The rows as the index by conversation and sequence lists them. */
    method IndexedRows() returns (rows: seq<Post>)
      requires Keyed(posts)
      ensures OrderedRows(posts, rows)
    {
      hide Listed, Keyed, OrderedRows;
      AllUnlisted(posts);
      rows := [];
      var rest := posts;
      while rest != map[]
        invariant Listed(posts, rest, rows)
        decreases |rest|
      {
        LowestExists(rest);
        var id :| IsLowest(rest, id);
        ListedMore(posts, rest, rows, id);
        rows := rows + [rest[id]];
        rest := rest - {id};
      }
      NothingLeft(posts, rows);
    }

    /** One transaction of an eviction. */
    method DeleteBatch(remaining: nat, claimed: set<PostId>, allowProtected: bool)
      returns (deleted: nat, deletedProtected: bool, ghost rows: seq<Post>)
      requires Keyed(posts) && remaining > 0
      modifies this
      ensures OrderedRows(old(posts), rows)
      ensures TakesPrefix(rows, Min(remaining, MAX_RECORD_DELETES_PER_TRANSACTION), claimed, allowProtected, deleted)
      ensures deletedProtected == TakesProtected(rows, claimed, deleted)
      ensures EvictedTo(old(Contents()), Ids(rows[..deleted]), Contents())
      ensures Keyed(posts) && OrderedRows(posts, rows[deleted..])
    {
      var ordered := IndexedRows();
      rows := ordered;
      deleted, deletedProtected := 0, false;
      while deleted < |ordered| && deleted < Min(remaining, MAX_RECORD_DELETES_PER_TRANSACTION)
            && (allowProtected || ordered[deleted].id !in claimed)
        invariant deleted <= |ordered| && deleted <= Min(remaining, MAX_RECORD_DELETES_PER_TRANSACTION)
        invariant allowProtected || forall k :: 0 <= k < deleted ==> ordered[k].id !in claimed
        invariant deletedProtected == TakesProtected(ordered, claimed, deleted)
      {
        if ordered[deleted].id in claimed {
          deletedProtected := true;
        }
        deleted := deleted + 1;
      }
      AfterPrefix(posts, ordered, deleted);
      var retained := ordered[deleted..];
      posts := posts - Ids(ordered[..deleted]);
      if coverage.None? {
      } else if retained == [] {
        assert posts == map[];
        coverage := None;
      } else {
        FirstAndLast(posts, retained);
        assert retained[0].id in posts;
        coverage := Some(coverage.value.(
          oldest := BoundaryOf(retained[0]), newest := BoundaryOf(retained[|retained| - 1]), reachedOldest := false));
      }
    }

    /** The eviction of a prefix, some rows per transaction. Where the batches
        begin and end does not show in the result. */
    method DeleteConversationPostPrefix(count: nat, claimed: set<PostId>, allowProtected: bool)
      returns (deletedProtected: bool, ghost rows: seq<Post>, ghost taken: nat)
      requires Keyed(posts)
      modifies this
      ensures OrderedRows(old(posts), rows)
      ensures TakesPrefix(rows, count, claimed, allowProtected, taken)
      ensures deletedProtected == TakesProtected(rows, claimed, taken)
      ensures count == 0 ==> Contents() == old(Contents())
      ensures count > 0 ==> EvictedTo(old(Contents()), Ids(rows[..taken]), Contents())
      ensures Keyed(posts)
    {
      hide EvictedTo, OrderedRows, Ids, TakesProtected, Keyed, EvictedSoFar, TakesPrefix;
      ghost var start := Contents();
      var remaining: nat := count;
      deletedProtected := false;
      rows := IndexedRows();
      NothingEvicted(start, rows, claimed, allowProtected);
      taken := 0;
      while remaining > 0
        invariant taken + remaining == count && Keyed(posts)
        invariant EvictedSoFar(
                    start, rows, claimed, allowProtected, taken, deletedProtected, remaining < count, Contents())
        decreases remaining
      {
        ghost var between := Contents();
        var deleted, someProtected, batch := DeleteBatch(remaining, claimed, allowProtected);
        EvictedMore(start, rows, claimed, allowProtected, taken, deletedProtected, remaining, remaining < count,
                    between, batch, deleted, someProtected, Contents());
        deletedProtected := deletedProtected || someProtected;
        taken := taken + deleted;
        if deleted == 0 {
          EvictedAll(start, rows, claimed, allowProtected, count, taken, deletedProtected, true, Contents());
          return;
        }
        remaining := remaining - deleted;
      }
      EvictedAll(start, rows, claimed, allowProtected, count, taken, deletedProtected, count > 0, Contents());
    }

    /** Old rows go after a save: all before the first recent one, or all but
        the newest rows of the window, and no protected one. */
    method TrimConversationPosts(retention: Retention)
      requires Keyed(posts)
      modifies this
      ensures TrimmedTo(old(Contents()), retention, Contents()) && Keyed(posts)
    {
      hide EvictedTo, Keyed, OrderedRows, Ids;
      var rows := IndexedRows();
      var count: nat := 0;
      if retention.recent.None? {
        count := if |rows| > MAX_WINDOW_ROWS then |rows| - MAX_WINDOW_ROWS else 0;
      } else {
        while count < |rows| && rows[count].id !in retention.recent.value
          invariant count <= |rows|
          invariant forall k :: 0 <= k < count ==> rows[k].id !in retention.recent.value
        {
          count := count + 1;
        }
      }
      var _, ordered, taken := DeleteConversationPostPrefix(count, retention.claimed, false);
      OrderIsUnique(old(posts), ordered, rows);
      assert TrimsTo(old(Contents()), retention, rows, count, taken, Contents());
    }

    // --- the repository's operations --------------------------------------------------------

    /** A save and its trim, unless a row of it aborts the save. */
    method SavePosts(incoming: seq<Post>, options: SaveOptions, retention: Retention, ghost log: Log)
      returns (thrown: bool)
      requires WellFormed(log) && PostsGenuine(log, posts) && AllGenuine(log, incoming)
      modifies this
      ensures thrown <==> SaveThrows(old(Contents()), incoming, options)
      ensures thrown ==> Contents() == old(Contents())
      ensures Trimmed(PostWindow.SavePosts(old(Contents()), incoming, options), Contents())
      ensures PostsGenuine(log, posts)
    {
      hide WellFormed, PostsGenuine, AllGenuine, EvictedTo, SaveThrows, Keyed, PostWindow.SavePosts, TrimmedTo;
      SaveIsGenuine(log, Contents(), incoming, options);
      thrown := SaveTransaction(incoming, options);
      if thrown {
        ThrownChangesNothing(old(Contents()), incoming, options);
        return;
      }
      if incoming == [] {
        return;
      }
      ghost var saved := Contents();
      GenuineIsKeyed(log, posts);
      TrimConversationPosts(retention);
      TrimIsTrimmed(saved, retention, Contents());
      TrimKeepsGenuine(log, saved, Contents());
    }

    /** A live event: an overlay, or the next row of a window that reaches the newest. */
    method ApplyPostVersion(post: Post, liveAppend: bool, retention: Retention, ghost log: Log) returns (thrown: bool)
      requires WellFormed(log) && PostsGenuine(log, posts) && Genuine(log, post)
      modifies this
      ensures thrown <==> Collides(old(posts), post)
      ensures thrown ==> Contents() == old(Contents())
      ensures Spanned(old(Contents())) ==>
                EventMoved(
                  old(Contents()), post, liveAppend,
                  PostWindow.SavePosts(old(Contents()), [post], SaveOptions(false, liveAppend, false, liveAppend)))
      ensures Trimmed(
                PostWindow.SavePosts(old(Contents()), [post], SaveOptions(false, liveAppend, false, liveAppend)),
                Contents())
      ensures PostsGenuine(log, posts)
    {
      GenuineIsSequenced(log, post);
      if Spanned(Contents()) {
        EventMoves(Contents(), post, liveAppend);
      }
      SaveThrowsIff(Contents(), [post], SaveOptions(false, liveAppend, false, liveAppend));
      thrown := SavePosts([post], SaveOptions(false, liveAppend, false, liveAppend), retention, log);
    }

    method ClearConversationPostWindow()
      modifies this
      ensures Contents() == EMPTY_CACHE
    {
      posts, coverage := map[], None;
    }

    /** A page. A window it does not connect with is dropped before the page is
        saved, and stays dropped if the save is aborted. */
    method ReconcilePostPage(
      request: Request, incoming: seq<Post>, exhausted: bool, retention: Retention, ghost log: Log)
      returns (thrown: bool)
      requires WellFormed(log) && PostsGenuine(log, posts) && AllGenuine(log, incoming)
      modifies this
      ensures thrown <==> PageAborts(old(Contents()), request, incoming, exhausted)
      ensures Spanned(old(Contents())) ==>
                PageMoved(old(Contents()), request, incoming, exhausted,
                          PostWindow.ReconcilePostPage(old(Contents()), request, incoming, exhausted))
      ensures Trimmed(PostWindow.ReconcilePostPage(old(Contents()), request, incoming, exhausted), Contents())
      ensures PostsGenuine(log, posts)
    {
      hide WellFormed, EvictedTo, PostWindow.SavePosts, SaveFirst, PageMoved, Spanned;
      PageConnects(Contents(), request, incoming);
      if Spanned(Contents()) {
        PageMoves(log, Contents(), request, incoming, exhausted);
      }
      var hadCoverage := coverage.Some?;
      var cursorInConversation := hadCoverage && !request.Root? && request.cursor in posts;
      var overlaps := hadCoverage && request.Root? && Overlaps(posts, incoming);
      var connection := ConnectPostPage(hadCoverage, !request.Root?, cursorInConversation, overlaps);
      if connection.Ignore? {
        return false;
      }
      if connection.ReplaceWindow? {
        ClearConversationPostWindow();
      }
      if incoming != [] {
        var options := SaveOptions(
          true, false, request.Before? && exhausted, !request.Before? && (!request.After? || exhausted));
        thrown := SavePosts(incoming, options, retention, log);
        return;
      }
      NothingThrows(Contents(), PageOptions(request, exhausted));
      NothingThrows(old(Contents()), PageOptions(request, exhausted));
      if hadCoverage && exhausted && coverage.Some? {
        coverage := Some(coverage.value.(
          reachedOldest := coverage.value.reachedOldest || request.Before?,
          reachedNewest := coverage.value.reachedNewest || !request.Before?));
      }
      return false;
    }

    method AdvancePostRevision(revision: nat, revisionSum: Option<nat>)
      modifies this
      ensures Contents() == PostWindow.AdvancePostRevision(old(Contents()), revision, revisionSum)
      ensures posts == old(posts) && (old(coverage).None? ==> coverage.None?)
      ensures old(coverage).Some? ==>
                && coverage.Some?
                && var was, now := old(coverage).value, coverage.value;
                   && now.knownRevision == (if was.knownRevision < revision then revision else was.knownRevision)
                   && now.revisionSum == (if revisionSum.None? then was.revisionSum else revisionSum.value)
                   && now.newest == was.newest && now.oldest == was.oldest
                   && now.reachedNewest == was.reachedNewest && now.reachedOldest == was.reachedOldest
    {
      if coverage.None? {
        return;
      }
      coverage := Some(coverage.value.(
        knownRevision := Max(coverage.value.knownRevision, revision),
        revisionSum := if revisionSum.Some? then revisionSum.value else coverage.value.revisionSum));
    }

    /** The commit of a pull: the rows overlay the window, those past its newest
        end are appended, and only then is the revision published. An aborted
        save ends it. */
    method ReconcilePostRevisions(
      rows: seq<Post>, revision: nat, revisionSum: Option<nat>, retention: Retention, ghost log: Log)
      returns (thrown: bool, ghost saved: Cache, ghost extended: Cache)
      requires WellFormed(log) && PostsGenuine(log, posts) && AllGenuine(log, rows)
      modifies this
      ensures old(coverage).None? ==> !thrown && Contents() == old(Contents())
      ensures old(coverage).Some? ==>
                && Trimmed(PostWindow.SavePosts(old(Contents()), rows, OVERLAY), saved)
                && (thrown <==> || SaveThrows(old(Contents()), rows, OVERLAY)
                                || SaveThrows(saved, Appended(old(coverage), rows), APPEND_OPTIONS))
                && (thrown ==> Contents() == saved)
                && (SaveThrows(old(Contents()), rows, OVERLAY) ==> saved == old(Contents()))
                && (!thrown ==>
                      && Trimmed(PostWindow.SavePosts(saved, Appended(old(coverage), rows), APPEND_OPTIONS), extended)
                      && Contents() == PostWindow.AdvancePostRevision(extended, revision, revisionSum))
    {
      hide WellFormed, PostsGenuine, EvictedTo, SaveThrows, PostWindow.SavePosts;
      saved, extended := Contents(), Contents();
      var before := coverage;
      if before.None? {
        return false, saved, extended;
      }
      thrown := SavePosts(rows, OVERLAY, retention, log);
      saved := Contents();
      if thrown {
        return;
      }
      NothingThrows(saved, APPEND_OPTIONS);
      NothingToSave(saved, APPEND_OPTIONS);
      if before.value.reachedNewest {
        var appended := Appended(before, rows);
        if appended != [] {
          thrown := SavePosts(appended, APPEND_OPTIONS, retention, log);
          if thrown {
            return;
          }
        }
      } else {
        NoneAppended(before, rows);
      }
      extended := Contents();
      AdvancePostRevision(revision, revisionSum);
    }
  }

  lemma NoneAppended(coverage: Option<Coverage>, rows: seq<Post>)
    requires coverage.Some? && !coverage.value.reachedNewest
    ensures Appended(coverage, rows) == []
  {
    assert forall row :: row !in Appended(coverage, rows);
  }

  /** What an eviction has done after some of its batches. */
  ghost predicate EvictedSoFar(
    start: Cache, rows: seq<Post>, claimed: set<PostId>, allowProtected: bool, taken: nat, deletedProtected: bool,
    begun: bool, now: Cache)
  {
    && OrderedRows(start.posts, rows) && taken <= |rows|
    && Keyed(now.posts) && OrderedRows(now.posts, rows[taken..])
    && (allowProtected || forall k :: 0 <= k < taken ==> rows[k].id !in claimed)
    && deletedProtected == TakesProtected(rows, claimed, taken)
    && if begun then EvictedTo(start, Ids(rows[..taken]), now) else taken == 0 && now == start
  }

  /** The next row may not go, or there is none. */
  predicate Stops(rows: seq<Post>, claimed: set<PostId>, allowProtected: bool, taken: nat)
    requires taken <= |rows|
  {
    taken == |rows| || (!allowProtected && rows[taken].id in claimed)
  }

  lemma NothingEvicted(start: Cache, rows: seq<Post>, claimed: set<PostId>, allowProtected: bool)
    requires Keyed(start.posts) && OrderedRows(start.posts, rows)
    ensures EvictedSoFar(start, rows, claimed, allowProtected, 0, false, false, start)
  {
    hide Keyed, OrderedRows;
    assert rows[0..] == rows;
  }

  lemma EvictedMore(
    start: Cache, rows: seq<Post>, claimed: set<PostId>, allowProtected: bool, taken: nat, deletedProtected: bool,
    remaining: nat, begun: bool, between: Cache, batch: seq<Post>, deleted: nat, someProtected: bool, now: Cache)
    requires EvictedSoFar(start, rows, claimed, allowProtected, taken, deletedProtected, begun, between)
    requires OrderedRows(between.posts, batch) && remaining > 0
    requires TakesPrefix(
               batch, Min(remaining, MAX_RECORD_DELETES_PER_TRANSACTION), claimed, allowProtected, deleted)
    requires someProtected == TakesProtected(batch, claimed, deleted)
    requires EvictedTo(between, Ids(batch[..deleted]), now)
    requires Keyed(now.posts) && OrderedRows(now.posts, batch[deleted..])
    ensures deleted <= remaining
    ensures EvictedSoFar(
              start, rows, claimed, allowProtected, taken + deleted, deletedProtected || someProtected, true, now)
    ensures deleted == 0 ==> Stops(rows, claimed, allowProtected, taken)
  {
    hide EvictedTo, OrderedRows, Ids, TakesProtected, Keyed;
    OrderIsUnique(between.posts, batch, rows[taken..]);
    BatchExtends(rows, taken, deleted, claimed);
    if begun {
      EvictedTwice(start, Ids(rows[..taken]), between, Ids(batch[..deleted]), now);
    } else {
      NothingTaken(rows);
    }
    if deleted == 0 && taken < |rows| {
      assert batch[0] == rows[taken];
    }
  }

  lemma EvictedAll(
    start: Cache, rows: seq<Post>, claimed: set<PostId>, allowProtected: bool, count: nat, taken: nat,
    deletedProtected: bool, begun: bool, now: Cache)
    requires EvictedSoFar(start, rows, claimed, allowProtected, taken, deletedProtected, begun, now) && taken <= count
    requires taken == count || Stops(rows, claimed, allowProtected, taken)
    ensures TakesPrefix(rows, count, claimed, allowProtected, taken) && OrderedRows(start.posts, rows)
    ensures deletedProtected == TakesProtected(rows, claimed, taken) && Keyed(now.posts)
    ensures if begun then EvictedTo(start, Ids(rows[..taken]), now) else now == start
  {
    hide EvictedTo, OrderedRows, Ids, TakesProtected, Keyed;
  }

  lemma NothingTaken(rows: seq<Post>)
    ensures rows[0..] == rows && forall ids: set<PostId> :: Ids(rows[..0]) + ids == ids
  {
  }

  lemma BatchExtends(rows: seq<Post>, taken: nat, deleted: nat, claimed: set<PostId>)
    requires taken + deleted <= |rows|
    ensures rows[taken..][deleted..] == rows[taken + deleted..]
    ensures Ids(rows[..taken]) + Ids(rows[taken..][..deleted]) == Ids(rows[..taken + deleted])
    ensures TakesProtected(rows, claimed, taken + deleted)
         <==> TakesProtected(rows, claimed, taken) || TakesProtected(rows[taken..], claimed, deleted)
    ensures forall k :: taken <= k < taken + deleted ==> rows[k] == rows[taken..][k - taken]
  {
    assert rows[..taken + deleted] == rows[..taken] + rows[taken..][..deleted];
    if TakesProtected(rows, claimed, taken + deleted) {
      var k :| 0 <= k < taken + deleted && rows[k].id in claimed;
      if taken <= k {
        assert rows[taken..][k - taken].id in claimed;
      }
    }
    if TakesProtected(rows[taken..], claimed, deleted) {
      var k :| 0 <= k < deleted && rows[taken..][k].id in claimed;
      assert rows[taken + k].id in claimed;
    }
  }
}
