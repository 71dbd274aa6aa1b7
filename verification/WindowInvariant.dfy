/** What the cache may claim about the server, and that every transaction of the
    repository keeps those claims true. */
module WindowInvariant {
  import opened Basics
  import opened PostModel
  import opened PostWindow

  /** Every cached row came from the server. */
  ghost predicate PostsGenuine(log: Log, posts: Posts) {
    forall id :: id in posts ==> posts[id].id == id && Genuine(log, posts[id])
  }

  ghost predicate AllGenuine(log: Log, rows: seq<Post>) {
    forall row :: row in rows ==> Genuine(log, row)
  }

  /** The coverage names stored rows and spans all of them; no rows, no coverage. */
  ghost predicate Spanned(cache: Cache) {
    match cache.coverage
    case None => cache.posts == map[]
    case Some(c) =>
      && c.oldest.id in cache.posts && cache.posts[c.oldest.id].sequence == c.oldest.order
      && c.newest.id in cache.posts && cache.posts[c.newest.id].sequence == c.newest.order
      && forall id :: id in cache.posts ==> Inside(cache.coverage, cache.posts[id].sequence)
  }

  /** This version of its post is stored. */
  predicate Exact(log: Log, posts: Posts, revision: nat)
    requires IsRevision(log, revision)
  {
    var id := Version(log, revision).id;
    id in posts && posts[id].revision == revision
  }

  predicate InWindow(log: Log, cache: Cache, revision: nat) {
    Current(log, revision) && Inside(cache.coverage, Version(log, revision).sequence)
  }

  /** The server's post lies past the newest end of the window. */
  predicate Past(log: Log, cache: Cache, revision: nat) {
    && cache.coverage.Some? && Current(log, revision)
    && cache.coverage.value.newest.order < Version(log, revision).sequence
  }

  function Known(cache: Cache): nat {
    if cache.coverage.Some? then cache.coverage.value.knownRevision else 0
  }

  /** Up to a revision, everything inside the window is stored as it is now. */
  ghost predicate ExactUpTo(log: Log, cache: Cache, through: nat) {
    forall r: nat :: InWindow(log, cache, r) && r <= through ==> Exact(log, cache.posts, r)
  }

  /** Nothing past the window was last changed by a revision up to this one. */
  ghost predicate NothingPast(log: Log, cache: Cache, through: nat) {
    forall r: nat :: Past(log, cache, r) ==> through < r
  }

  ghost predicate ReachesOldest(log: Log, cache: Cache) {
    cache.coverage.Some? && cache.coverage.value.reachedOldest ==>
      forall r: nat :: Current(log, r) ==> cache.coverage.value.oldest.order <= Version(log, r).sequence
  }

  /** A stored sum is zero or the sum of a server state the window knows. */
  ghost predicate SumSound(log: Log, cache: Cache) {
    cache.coverage.Some? && cache.coverage.value.revisionSum != 0 ==>
      exists known: nat ::
        known <= Known(cache) && known <= |log| && SumOf(log, known) == cache.coverage.value.revisionSum
  }

  function SumOf(log: Log, known: nat): nat
    requires known <= |log|
  {
    RevisionSum(log[..known])
  }

  /** The invariant of the cache. */
  ghost predicate Sound(log: Log, cache: Cache) {
    && WellFormed(log)
    && PostsGenuine(log, cache.posts)
    && Spanned(cache)
    && ExactUpTo(log, cache, Known(cache))
    && (cache.coverage.Some? ==> cache.coverage.value.reachedNewest)
    && NothingPast(log, cache, Known(cache))
    && ReachesOldest(log, cache)
    && Known(cache) <= |log|
    && SumSound(log, cache)
  }

  lemma EmptyIsSound(log: Log)
    requires WellFormed(log)
    ensures Sound(log, EMPTY_CACHE)
  {
  }

  // --- saving rows --------------------------------------------------------------------------

  predicate Admitted(posts: Posts, coverage: Option<Coverage>, extend: bool, row: Post) {
    extend || row.id in posts || Inside(coverage, row.sequence)
  }

  /** No row is lost or replaced by an older version. */
  ghost predicate NoneLost(before: Posts, after: Posts) {
    forall id :: id in before ==> id in after && before[id].revision <= after[id].revision
  }

  ghost predicate AdmittedStored(
    posts: Posts, coverage: Option<Coverage>, extend: bool, rows: seq<Post>, after: Posts)
  {
    forall row :: row in rows && Admitted(posts, coverage, extend, row) ==>
      row.id in after && row.revision <= after[row.id].revision
  }

  ghost predicate WrittenAdmitted(
    posts: Posts, coverage: Option<Coverage>, extend: bool, rows: seq<Post>, written: seq<Post>)
  {
    forall row :: row in written ==> row in rows && Admitted(posts, coverage, extend, row)
  }

  ghost predicate StoredExplained(posts: Posts, saving: Saving)
    requires saving.Saving?
  {
    && (forall row :: row in saving.written ==> row.id in saving.posts)
    && (forall id :: id in saving.posts ==> id in posts || exists row :: row in saving.written && row.id == id)
  }

  /** What the loop of a save has done after its first rows. */
  ghost predicate SavedSoFar(
    log: Log, posts: Posts, coverage: Option<Coverage>, extend: bool, rows: seq<Post>, saving: Saving)
  {
    && saving.Saving?
    && PostsGenuine(log, saving.posts)
    && NoneLost(posts, saving.posts)
    && AdmittedStored(posts, coverage, extend, rows, saving.posts)
    && WrittenAdmitted(posts, coverage, extend, rows, saving.written)
    && StoredExplained(posts, saving)
  }

  lemma NothingSaved(log: Log, posts: Posts, coverage: Option<Coverage>, extend: bool)
    requires PostsGenuine(log, posts)
    ensures SavedSoFar(log, posts, coverage, extend, [], Saving(posts, []))
  {
  }

  lemma GenuineIsSequenced(log: Log, row: Post)
    requires WellFormed(log) && Genuine(log, row)
    ensures row.sequence > 0
  {
  }

  lemma {:induction false} SaveFirstIs(
    log: Log, posts: Posts, coverage: Option<Coverage>, extend: bool, incoming: seq<Post>, count: nat)
    requires WellFormed(log) && PostsGenuine(log, posts) && AllGenuine(log, incoming) && count <= |incoming|
    requires SaveFirst(posts, coverage, extend, incoming, count).Saving?
    ensures SavedSoFar(
              log, posts, coverage, extend, incoming[..count], SaveFirst(posts, coverage, extend, incoming, count))
  {
    hide SavedSoFar, WellFormed, PostsGenuine, SaveOne, Genuine;
    if count == 0 {
      NothingSaved(log, posts, coverage, extend);
      assert incoming[..0] == [];
    } else {
      SaveFirstIs(log, posts, coverage, extend, incoming, count - 1);
      GenuineIsSequenced(log, incoming[count - 1]);
      var before := SaveFirst(posts, coverage, extend, incoming, count - 1);
      assert incoming[..count] == incoming[..count - 1] + [incoming[count - 1]];
      assert AllGenuine(log, incoming[..count - 1]);
      SaveOneIs(log, posts, coverage, extend, incoming[..count - 1], before, incoming[count - 1]);
    }
  }

  lemma SaveOneIs(
    log: Log, posts: Posts, coverage: Option<Coverage>, extend: bool, rows: seq<Post>, saving: Saving, row: Post)
    requires WellFormed(log) && AllGenuine(log, rows) && Genuine(log, row) && row.sequence > 0
    requires SavedSoFar(log, posts, coverage, extend, rows, saving)
    requires SaveOne(saving, coverage, extend, row).Saving?
    ensures SavedSoFar(log, posts, coverage, extend, rows + [row], SaveOne(saving, coverage, extend, row))
  {
    hide Inside, WellFormed, SaveOne, PostsGenuine, Genuine, AllGenuine, StoredExplained, Admitted, AdmittedStored,
      WrittenAdmitted;
    var after := SaveOne(saving, coverage, extend, row);
    SaveOneKeepsRows(log, saving, coverage, extend, row);
    AdmittedStays(posts, coverage, extend, rows, saving.posts, after.posts, row);
    if after != saving {
      AdmittedBefore(log, posts, coverage, extend, rows, saving, row);
      WrittenStays(posts, saving, row);
    }
    MoreRowsAdmit(posts, coverage, extend, rows, saving.written, row);
  }

  lemma AdmittedStays(
    posts: Posts, coverage: Option<Coverage>, extend: bool, rows: seq<Post>, before: Posts, after: Posts, row: Post)
    requires AdmittedStored(posts, coverage, extend, rows, before) && NoneLost(posts, before) && NoneLost(before, after)
    requires Admitted(before, coverage, extend, row) ==> row.id in after && row.revision <= after[row.id].revision
    ensures AdmittedStored(posts, coverage, extend, rows + [row], after)
  {
  }

  lemma MoreRowsAdmit(
    posts: Posts, coverage: Option<Coverage>, extend: bool, rows: seq<Post>, written: seq<Post>, row: Post)
    requires WrittenAdmitted(posts, coverage, extend, rows, written)
    ensures WrittenAdmitted(posts, coverage, extend, rows + [row], written)
    ensures Admitted(posts, coverage, extend, row) ==>
              WrittenAdmitted(posts, coverage, extend, rows + [row], written + [row])
  {
  }

  /** Rows of one post agree on its sequence, so a row that is admitted because
      an earlier row of its post was stored is admitted by itself. */
  lemma AdmittedBefore(
    log: Log, posts: Posts, coverage: Option<Coverage>, extend: bool, rows: seq<Post>, saving: Saving, row: Post)
    requires WellFormed(log) && AllGenuine(log, rows) && Genuine(log, row)
    requires SavedSoFar(log, posts, coverage, extend, rows, saving)
    requires Admitted(saving.posts, coverage, extend, row)
    ensures Admitted(posts, coverage, extend, row)
  {
    if row.id in saving.posts && row.id !in posts {
      var earlier :| earlier in saving.written && earlier.id == row.id;
      SameSequence(log, earlier, row);
    }
  }

  lemma SameSequence(log: Log, first: Post, second: Post)
    requires WellFormed(log) && Genuine(log, first) && Genuine(log, second)
    ensures first.id == second.id <==> first.sequence == second.sequence
  {
    assert log[first.revision - 1].id == log[second.revision - 1].id
           <==> log[first.revision - 1].sequence == log[second.revision - 1].sequence;
  }

  lemma SaveOneKeepsRows(log: Log, saving: Saving, coverage: Option<Coverage>, extend: bool, row: Post)
    requires saving.Saving? && PostsGenuine(log, saving.posts) && Genuine(log, row) && row.sequence > 0
    requires SaveOne(saving, coverage, extend, row).Saving?
    ensures var after := SaveOne(saving, coverage, extend, row);
            && PostsGenuine(log, after.posts)
            && (forall id :: id in saving.posts ==>
                  id in after.posts && saving.posts[id].revision <= after.posts[id].revision)
            && (Admitted(saving.posts, coverage, extend, row) ==>
                  row.id in after.posts && row.revision <= after.posts[row.id].revision)
            && (after == saving || after == Saving(saving.posts[row.id := row], saving.written + [row]))
            && (after != saving ==> Admitted(saving.posts, coverage, extend, row))
  {
  }

  lemma WrittenStays(posts: Posts, saving: Saving, row: Post)
    requires saving.Saving? && StoredExplained(posts, saving)
    ensures StoredExplained(posts, Saving(saving.posts[row.id := row], saving.written + [row]))
  {
    var after := Saving(saving.posts[row.id := row], saving.written + [row]);
    assert row in after.written;
    forall id | id in after.posts ensures id in posts || exists other :: other in after.written && other.id == id {
      if id in saving.posts && id !in posts {
        var other :| other in saving.written && other.id == id;
        assert other in after.written;
      }
    }
  }

  // --- what a save means for the window -----------------------------------------------------

  /** Present versions that were stored are still stored, and present versions
      among the admitted rows are stored now. */
  lemma SavedIsExact(
    log: Log, posts: Posts, coverage: Option<Coverage>, extend: bool, rows: seq<Post>, saving: Saving, revision: nat)
    requires PostsGenuine(log, posts) && AllGenuine(log, rows) && SavedSoFar(log, posts, coverage, extend, rows, saving)
    requires Current(log, revision)
    requires || Exact(log, posts, revision)
             || (Has(rows, revision) && (extend || Inside(coverage, Version(log, revision).sequence)))
    ensures Exact(log, saving.posts, revision)
  {
    var id := Version(log, revision).id;
    if !Exact(log, posts, revision) {
      var row :| row in rows && row.revision == revision;
      assert row.id == id;
    }
    assert id in saving.posts && revision <= saving.posts[id].revision;
    CurrentIsNewest(log, revision, saving.posts[id]);
  }

  /** A stored row keeps its sequence through a save. */
  lemma SequenceStays(log: Log, posts: Posts, saving: Saving, id: PostId)
    requires WellFormed(log) && saving.Saving?
    requires PostsGenuine(log, posts) && PostsGenuine(log, saving.posts) && NoneLost(posts, saving.posts) && id in posts
    ensures id in saving.posts && saving.posts[id].sequence == posts[id].sequence
  {
    SameSequence(log, posts[id], saving.posts[id]);
  }

  /** Where a row that is new in the store comes from. */
  lemma NewRow(
    log: Log, posts: Posts, coverage: Option<Coverage>, extend: bool, rows: seq<Post>, saving: Saving, id: PostId)
    returns (row: Post)
    requires WellFormed(log) && AllGenuine(log, rows) && SavedSoFar(log, posts, coverage, extend, rows, saving)
    requires id in saving.posts && id !in posts
    ensures row in saving.written && row in rows && row.id == id
    ensures Admitted(posts, coverage, extend, row) && saving.posts[id].sequence == row.sequence
  {
    row :| row in saving.written && row.id == id;
    SameSequence(log, row, saving.posts[id]);
  }

  /** Present versions that were stored, or are among these rows, are stored. */
  ghost predicate ExactAfter(
    log: Log, before: Posts, rows: seq<Post>, coverage: Option<Coverage>, extend: bool, after: Posts)
  {
    forall r: nat :: Current(log, r)
      && (Exact(log, before, r) || (Has(rows, r) && (extend || Inside(coverage, Version(log, r).sequence))))
      ==> Exact(log, after, r)
  }

  lemma SaveIsExact(log: Log, posts: Posts, coverage: Option<Coverage>, extend: bool, rows: seq<Post>, saving: Saving)
    requires PostsGenuine(log, posts) && AllGenuine(log, rows) && SavedSoFar(log, posts, coverage, extend, rows, saving)
    ensures ExactAfter(log, posts, rows, coverage, extend, saving.posts)
  {
    hide PostsGenuine, AllGenuine, Has, WellFormed, NoneLost, AdmittedStored, WrittenAdmitted, StoredExplained;
    forall r: nat | Current(log, r)
      && (Exact(log, posts, r) || (Has(rows, r) && (extend || Inside(coverage, Version(log, r).sequence))))
      ensures Exact(log, saving.posts, r)
    {
      SavedIsExact(log, posts, coverage, extend, rows, saving, r);
    }
  }

  /** A save that does not extend the coverage leaves it as it is; one that is
      aborted leaves everything. */
  lemma OverlaySave(log: Log, cache: Cache, rows: seq<Post>, options: SaveOptions)
    requires WellFormed(log) && PostsGenuine(log, cache.posts) && Spanned(cache) && AllGenuine(log, rows)
    requires !ShouldExtendPostCoverage(cache.coverage, options, rows)
    ensures var after := SavePosts(cache, rows, options);
            && after.coverage == cache.coverage
            && PostsGenuine(log, after.posts) && Spanned(after)
            && (SaveThrows(cache, rows, options) ==> after == cache)
            && (!SaveThrows(cache, rows, options) ==>
                  ExactAfter(log, cache.posts, rows, cache.coverage, false, after.posts))
  {
    hide WellFormed, PostsGenuine, Spanned, AllGenuine, NoneLost, AdmittedStored, WrittenAdmitted, StoredExplained, Has;
    if rows == [] {
      assert forall r: nat :: !Has(rows, r) by { NoneHere(); }
    } else if !SaveThrows(cache, rows, options) {
      assert rows[..|rows|] == rows;
      SaveFirstIs(log, cache.posts, cache.coverage, false, rows, |rows|);
      var saving := SaveFirst(cache.posts, cache.coverage, false, rows, |rows|);
      SaveIsExact(log, cache.posts, cache.coverage, false, rows, saving);
      OverlayIsSpanned(log, cache, rows, saving);
    }
  }

  lemma NoneHere()
    ensures forall r: nat :: !Has([], r)
  {
  }

  lemma OverlayIsSpanned(log: Log, cache: Cache, rows: seq<Post>, saving: Saving)
    requires WellFormed(log) && PostsGenuine(log, cache.posts) && Spanned(cache) && AllGenuine(log, rows)
    requires SavedSoFar(log, cache.posts, cache.coverage, false, rows, saving)
    ensures Spanned(Cache(saving.posts, cache.coverage))
  {
    hide WellFormed, Genuine;
    forall id | id in saving.posts ensures Inside(cache.coverage, saving.posts[id].sequence) {
      if id in cache.posts {
        SequenceStays(log, cache.posts, saving, id);
      } else {
        var row := NewRow(log, cache.posts, cache.coverage, false, rows, saving, id);
      }
    }
    if cache.coverage.Some? {
      SequenceStays(log, cache.posts, saving, cache.coverage.value.oldest.id);
      SequenceStays(log, cache.posts, saving, cache.coverage.value.newest.id);
    }
  }

  /** Where the coverage ends after an extending save: at an old end or at a saved row. */
  ghost predicate Extended(before: Cache, rows: seq<Post>, options: SaveOptions, after: Cache) {
    && after.coverage.Some?
    && var n := after.coverage.value;
       && (forall row :: row in rows ==> Inside(after.coverage, row.sequence))
       && match before.coverage
          case None =>
            && n.knownRevision == 0 && n.revisionSum == 0
            && n.reachedNewest == options.reachedNewest && n.reachedOldest == options.reachedOldest
            && (exists row :: row in rows && row.sequence == n.oldest.order)
            && (exists row :: row in rows && row.sequence == n.newest.order)
          case Some(c) =>
            && n.knownRevision == c.knownRevision && n.revisionSum == c.revisionSum
            && (c.reachedNewest ==> n.reachedNewest) && (n.reachedNewest ==> c.reachedNewest || options.reachedNewest)
            && (n.reachedOldest ==> c.reachedOldest || options.reachedOldest)
            && n.oldest.order <= c.oldest.order && c.newest.order <= n.newest.order
            && (n.oldest.order == c.oldest.order || exists row :: row in rows && row.sequence == n.oldest.order)
            && (n.newest.order == c.newest.order || exists row :: row in rows && row.sequence == n.newest.order)
  }

  lemma ExtendingSave(log: Log, cache: Cache, rows: seq<Post>, options: SaveOptions)
    requires WellFormed(log) && PostsGenuine(log, cache.posts) && Spanned(cache) && AllGenuine(log, rows)
    requires rows != [] && ShouldExtendPostCoverage(cache.coverage, options, rows) && !SaveThrows(cache, rows, options)
    ensures var after := SavePosts(cache, rows, options);
            && PostsGenuine(log, after.posts) && Spanned(after)
            && ExactAfter(log, cache.posts, rows, cache.coverage, true, after.posts)
            && Extended(cache, rows, options, after)
  {
    hide WellFormed, PostsGenuine, Spanned, AllGenuine, NoneLost, AdmittedStored, WrittenAdmitted, StoredExplained,
      NextPostWindowCoverage, Extended, ExactAfter;
    assert rows[..|rows|] == rows;
    SaveFirstIs(log, cache.posts, cache.coverage, true, rows, |rows|);
    var saving := SaveFirst(cache.posts, cache.coverage, true, rows, |rows|);
    SaveIsExact(log, cache.posts, cache.coverage, true, rows, saving);
    ExtendedIsSpanned(log, cache, rows, options, saving);
  }

  /** The hull of the old coverage and the written rows. */
  lemma HullOf(coverage: Option<Coverage>, written: seq<Post>, options: SaveOptions)
    requires written != []
    ensures var next := NextPostWindowCoverage(coverage, written, options);
            && next.Some?
            && (forall row :: row in written ==> Inside(next, row.sequence))
            && (forall sequence: nat :: Inside(coverage, sequence) ==> Inside(next, sequence))
            && ((coverage.Some? && next.value.oldest == coverage.value.oldest)
                || (exists row :: row in written && BoundaryOf(row) == next.value.oldest))
            && ((coverage.Some? && next.value.newest == coverage.value.newest)
                || (exists row :: row in written && BoundaryOf(row) == next.value.newest))
  {
    assert OldestOf(written) in written && NewestOf(written) in written;
  }

  lemma ExtendedIsSpanned(log: Log, cache: Cache, rows: seq<Post>, options: SaveOptions, saving: Saving)
    requires WellFormed(log) && PostsGenuine(log, cache.posts) && Spanned(cache) && AllGenuine(log, rows) && rows != []
    requires SavedSoFar(log, cache.posts, cache.coverage, true, rows, saving)
    ensures var next := NextPostWindowCoverage(cache.coverage, saving.written, options);
            var after := Cache(saving.posts, if next.Some? then next else cache.coverage);
            Spanned(after) && Extended(cache, rows, options, after)
  {
    var next := NextPostWindowCoverage(cache.coverage, saving.written, options);
    var after := Cache(saving.posts, if next.Some? then next else cache.coverage);
    assert rows[0] in rows && rows[0].id in saving.posts;
    if saving.written != [] {
      HullOf(cache.coverage, saving.written, options);
    }
    assert after.coverage.Some?;
    ExtendedRowsInside(log, cache, rows, saving, after);
    EndpointsStored(log, cache, rows, options, saving, after);
    ExtendedFlags(cache, rows, options, saving, after);
  }

  lemma ExtendedRowsInside(log: Log, cache: Cache, rows: seq<Post>, saving: Saving, after: Cache)
    requires WellFormed(log) && PostsGenuine(log, cache.posts) && Spanned(cache) && AllGenuine(log, rows)
    requires SavedSoFar(log, cache.posts, cache.coverage, true, rows, saving) && after.posts == saving.posts
    requires forall row :: row in saving.written ==> Inside(after.coverage, row.sequence)
    requires forall sequence: nat :: Inside(cache.coverage, sequence) ==> Inside(after.coverage, sequence)
    ensures forall id :: id in after.posts ==> Inside(after.coverage, after.posts[id].sequence)
    ensures forall row :: row in rows ==> Inside(after.coverage, row.sequence)
  {
    hide WellFormed, Genuine;
    forall id | id in saving.posts ensures Inside(after.coverage, saving.posts[id].sequence) {
      if id in cache.posts {
        SequenceStays(log, cache.posts, saving, id);
      } else {
        var row := NewRow(log, cache.posts, cache.coverage, true, rows, saving, id);
      }
    }
    forall row | row in rows ensures Inside(after.coverage, row.sequence) {
      assert row.id in saving.posts;
      SameSequence(log, row, saving.posts[row.id]);
    }
  }

  lemma EndpointsStored(log: Log, cache: Cache, rows: seq<Post>, options: SaveOptions, saving: Saving, after: Cache)
    requires WellFormed(log) && PostsGenuine(log, cache.posts) && Spanned(cache) && AllGenuine(log, rows)
    requires SavedSoFar(log, cache.posts, cache.coverage, true, rows, saving) && after.posts == saving.posts
    requires after.coverage.Some?
    requires after.coverage
          == if saving.written != [] then NextPostWindowCoverage(cache.coverage, saving.written, options)
             else cache.coverage
    ensures var c := after.coverage.value;
            && c.oldest.id in after.posts && after.posts[c.oldest.id].sequence == c.oldest.order
            && c.newest.id in after.posts && after.posts[c.newest.id].sequence == c.newest.order
  {
    hide WellFormed, Genuine, NextPostWindowCoverage;
    if cache.coverage.Some? {
      SequenceStays(log, cache.posts, saving, cache.coverage.value.oldest.id);
      SequenceStays(log, cache.posts, saving, cache.coverage.value.newest.id);
    }
    if saving.written != [] {
      HullOf(cache.coverage, saving.written, options);
      forall row | row in saving.written ensures saving.posts[row.id].sequence == row.sequence {
        SameSequence(log, row, saving.posts[row.id]);
      }
    }
  }

  lemma ExtendedFlags(cache: Cache, rows: seq<Post>, options: SaveOptions, saving: Saving, after: Cache)
    requires saving.Saving? && WrittenAdmitted(cache.posts, cache.coverage, true, rows, saving.written)
    requires after.coverage.Some?
    requires after.coverage
          == if saving.written != [] then NextPostWindowCoverage(cache.coverage, saving.written, options)
             else cache.coverage
    requires forall row :: row in rows ==> Inside(after.coverage, row.sequence)
    ensures Extended(cache, rows, options, after)
  {
    if saving.written != [] {
      assert OldestOf(saving.written) in rows && NewestOf(saving.written) in rows;
    }
  }
}
