/** When a save of rows is aborted. Two rows of one revision collide if they do
    not show the same, and rows of the server do not always show the same. */
module PostCollisions {
  import opened Basics
  import opened PostModel
  import opened PostWindow

  lemma {:induction false} ThrownStays(
    posts: Posts, coverage: Option<Coverage>, extend: bool, incoming: seq<Post>, from: nat, count: nat)
    requires from <= count <= |incoming| && SaveFirst(posts, coverage, extend, incoming, from).Thrown?
    ensures SaveFirst(posts, coverage, extend, incoming, count).Thrown?
    decreases count
  {
    if from < count {
      ThrownStays(posts, coverage, extend, incoming, from, count - 1);
    }
  }

  /** Up to its first occurrence among the incoming rows, a post is stored as it was. */
  lemma {:induction false} UntouchedRow(
    posts: Posts, coverage: Option<Coverage>, extend: bool, incoming: seq<Post>, count: nat, id: PostId)
    requires count <= |incoming| && forall j :: 0 <= j < count ==> incoming[j].id != id
    requires SaveFirst(posts, coverage, extend, incoming, count).Saving?
    ensures Previous(SaveFirst(posts, coverage, extend, incoming, count).posts, id) == Previous(posts, id)
  {
    if count > 0 {
      UntouchedRow(posts, coverage, extend, incoming, count - 1, id);
    }
  }

  /** The row meets a stored row of its revision that shows something else. */
  predicate Collides(posts: Posts, row: Post) {
    row.id in posts && posts[row.id].revision == row.revision && posts[row.id] != row
  }

  predicate SomeCollides(posts: Posts, rows: seq<Post>) {
    exists row :: row in rows && Collides(posts, row)
  }

  /** A row without a sequence, or one that disagrees with the stored row of its
      revision, aborts the whole save. */
  lemma InvalidRowAborts(cache: Cache, incoming: seq<Post>, options: SaveOptions, k: nat)
    requires k < |incoming|
    requires || incoming[k].sequence == 0
             || (Collides(cache.posts, incoming[k]) && forall j :: 0 <= j < k ==> incoming[j].id != incoming[k].id)
    ensures SaveThrows(cache, incoming, options) && SavePosts(cache, incoming, options) == cache
  {
    hide ShouldExtendPostCoverage;
    var extend := ShouldExtendPostCoverage(cache.coverage, options, incoming);
    if SaveFirst(cache.posts, cache.coverage, extend, incoming, k).Saving? && incoming[k].sequence != 0 {
      UntouchedRow(cache.posts, cache.coverage, extend, incoming, k, incoming[k].id);
    }
    assert SaveFirst(cache.posts, cache.coverage, extend, incoming, k + 1).Thrown?;
    ThrownStays(cache.posts, cache.coverage, extend, incoming, k + 1, |incoming|);
  }

  predicate Sequenced(rows: seq<Post>) {
    forall row :: row in rows ==> row.sequence > 0
  }

  lemma {:induction false} NoneCollides(
    posts: Posts, coverage: Option<Coverage>, extend: bool, incoming: seq<Post>, count: nat)
    requires count <= |incoming| && Distinct(incoming) && Sequenced(incoming) && !SomeCollides(posts, incoming)
    ensures SaveFirst(posts, coverage, extend, incoming, count).Saving?
  {
    if count > 0 {
      NoneCollides(posts, coverage, extend, incoming, count - 1);
      UntouchedRow(posts, coverage, extend, incoming, count - 1, incoming[count - 1].id);
      assert incoming[count - 1] in incoming;
    }
  }

  /** Rows of different posts are saved, unless one of them meets a stored row of
      its revision that shows something else. */
  lemma SaveThrowsIff(cache: Cache, incoming: seq<Post>, options: SaveOptions)
    requires Distinct(incoming) && Sequenced(incoming)
    ensures SaveThrows(cache, incoming, options) <==> SomeCollides(cache.posts, incoming)
  {
    hide ShouldExtendPostCoverage;
    var extend := ShouldExtendPostCoverage(cache.coverage, options, incoming);
    if SomeCollides(cache.posts, incoming) {
      var row :| row in incoming && Collides(cache.posts, row);
      var k :| 0 <= k < |incoming| && incoming[k] == row;
      InvalidRowAborts(cache, incoming, options, k);
    } else {
      NoneCollides(cache.posts, cache.coverage, extend, incoming, |incoming|);
    }
  }

  // --- rows of one revision that differ -----------------------------------------------------

  /** While a reply is stored, the post it answers is edited and starts with
      another brief: the reply still has its revision, and its row as the server
      now has it no longer fits the stored one. */
  lemma EditedParentCollides(log: Log, cache: Cache, reply: nat, edited: Entry, options: SaveOptions)
    requires IsRevision(log, reply) && Version(log, reply).replyTo == Some(edited.id)
    requires FullRow(log, reply).content.replyBrief != Some(edited.brief)
    requires Previous(cache.posts, Version(log, reply).id) == Some(FullRow(log, reply))
    ensures SaveThrows(cache, [FullRow(log + [edited], reply)], options)
  {
    EditedParentChangesRow(log, reply, edited);
    InvalidRowAborts(cache, [FullRow(log + [edited], reply)], options, 0);
  }

  /** A stored post that an event brought in full and a list that shows it cut. */
  lemma CutRowCollides(log: Log, cache: Cache, revision: nat, options: SaveOptions)
    requires IsRevision(log, revision) && |Version(log, revision).text| > POST_PREVIEW_LENGTH
    requires Previous(cache.posts, Version(log, revision).id) == Some(FullRow(log, revision))
    ensures SaveThrows(cache, [ListedRow(log, revision)], options)
  {
    ListedIsFullIff(log, revision);
    InvalidRowAborts(cache, [ListedRow(log, revision)], options, 0);
  }

  /** Rows as they arrive, before names are put in. */
  predicate Raw(rows: seq<Post>) {
    forall row :: row in rows ==> row.content.names.None?
  }

  /** The save stores the row: its post is there in no newer version, or it lies inside the window. */
  predicate Touches(cache: Cache, row: Post) {
    if row.id in cache.posts then cache.posts[row.id].revision <= row.revision else Inside(cache.coverage, row.sequence)
  }

  /** After rows were laid over the window without an error, a row of them is
      stored as it came exactly when it touches the window. */
  lemma {:induction false} OverlaidRow(cache: Cache, rows: seq<Post>, count: nat, k: nat)
    requires k < count <= |rows| && Distinct(rows)
    requires SaveFirst(cache.posts, cache.coverage, false, rows, count).Saving?
    ensures var posts := SaveFirst(cache.posts, cache.coverage, false, rows, count).posts;
            && (Touches(cache, rows[k]) ==> Previous(posts, rows[k].id) == Some(rows[k]))
            && (!Touches(cache, rows[k]) ==> Previous(posts, rows[k].id) == Previous(cache.posts, rows[k].id))
    decreases count
  {
    if k < count - 1 {
      OverlaidRow(cache, rows, count - 1, k);
      assert rows[k].id != rows[count - 1].id;
    } else {
      UntouchedRow(cache.posts, cache.coverage, false, rows, k, rows[k].id);
    }
  }

  /** The second save of rows that were laid over the window before, now with
      names in them: it is aborted if and only if one of them touched the window. */
  lemma MaterializedCollidesIff(cache: Cache, rows: seq<Post>, users: Users)
    requires Distinct(rows) && Sequenced(rows) && Raw(rows) && !SaveThrows(cache, rows, OVERLAY)
    ensures SaveThrows(SavePosts(cache, rows, OVERLAY), AllMaterialized(rows, users), OVERLAY)
       <==> exists row :: row in rows && Touches(cache, row)
  {
    var after, named := SavePosts(cache, rows, OVERLAY), AllMaterialized(rows, users);
    SaveThrowsIff(after, named, OVERLAY);
    if rows != [] {
      assert after.posts == SaveFirst(cache.posts, cache.coverage, false, rows, |rows|).posts;
      forall k | 0 <= k < |rows| ensures Collides(after.posts, named[k]) <==> Touches(cache, rows[k]) {
        OverlaidRow(cache, rows, |rows|, k);
      }
      assert forall k :: 0 <= k < |rows| ==> named[k] in named && rows[k] in rows;
    }
  }
}
