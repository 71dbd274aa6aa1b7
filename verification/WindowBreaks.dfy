/** From every live event that starts a window and does not fit the pull in
    flight, and from every pull that starts too late, some run of steps that all
    fit ends with a window that disagrees with the server. So fitting is exactly
    what keeps the window right. */
module WindowBreaks {
  import opened Basics
  import opened PostModel
  import opened PostCollisions
  import opened PostWindow
  import opened WindowInvariant
  import opened WindowMisfits
  import opened WindowProtocol
  import opened WindowRuns
  import opened WindowSteps

  /** Whatever comes next, as long as no step disturbs a pull, the window agrees
      with the server. */
  ghost predicate StaysRight(w: World) {
    forall worlds: seq<World>, steps: seq<Step> ::
      IsPath(worlds, steps) && worlds[0] == w && Undisturbed(worlds, steps) ==>
        Agrees(worlds[|steps|].log, worlds[|steps|].cache)
  }

  /** A run of steps that all fit, to a window that disagrees with the server. */
  ghost predicate Breaks(w: World, worlds: seq<World>, steps: seq<Step>) {
    && IsPath(worlds, steps) && worlds[0] == w && Undisturbed(worlds, steps)
    && !Agrees(worlds[|steps|].log, worlds[|steps|].cache)
  }

  lemma StepThenBreak(w: World, step: Step, next: World, worlds: seq<World>, steps: seq<Step>)
    requires Next(w, step, next) && Fits(w, step) && Breaks(next, worlds, steps)
    ensures Breaks(w, [w] + worlds, [step] + steps)
  {
    hide Next, Fits, Agrees;
    var all, moves := [w] + worlds, [step] + steps;
    forall i | 0 <= i < |moves| ensures Next(all[i], moves[i], all[i + 1]) && Fits(all[i], moves[i]) {
      if i > 0 {
        assert all[i] == worlds[i - 1] && all[i + 1] == worlds[i] && moves[i] == steps[i - 1];
      }
    }
  }

  lemma BrokenNow(w: World)
    requires !Agrees(w.log, w.cache)
    ensures Breaks(w, [w], [])
  {
    hide Next, Fits, Agrees;
  }

  // --- changes on the server ----------------------------------------------------------------

  /** A version that agrees with all others about whose place it has, and that
      is of a known post or the newest. */
  lemma AppendIsWellFormed(log: Log, entry: Entry)
    requires WellFormed(log) && entry.sequence > 0
    requires forall k :: 0 <= k < |log| ==> (log[k].id == entry.id <==> log[k].sequence == entry.sequence)
    requires (exists k :: 0 <= k < |log| && log[k].id == entry.id)
          || (forall k :: 0 <= k < |log| ==> log[k].sequence <= entry.sequence)
    ensures WellFormed(log + [entry])
  {
    hide NewPostsLast;
    AppendKeepsOrder(log, entry);
  }

  lemma AppendKeepsOrder(log: Log, entry: Entry)
    requires NewPostsLast(log)
    requires (exists k :: 0 <= k < |log| && log[k].id == entry.id)
          || (forall k :: 0 <= k < |log| ==> log[k].sequence <= entry.sequence)
    ensures NewPostsLast(log + [entry])
  {
    var longer := log + [entry];
    forall i, j | 0 <= i < j < |longer| && longer[i].sequence > longer[j].sequence
      ensures exists k :: 0 <= k < j && longer[k].id == longer[j].id
    {
      var k :| 0 <= k < |log| && log[k].id == longer[j].id && k < j;
      assert longer[k].id == longer[j].id;
    }
  }

  /** An edit that repeats a version is a change of its post alone. */
  lemma EditIsWellFormed(log: Log, revision: nat)
    requires WellFormed(log) && IsRevision(log, revision)
    ensures WellFormed(log + [Version(log, revision)])
  {
    assert log[revision - 1].id == Version(log, revision).id;
    AppendIsWellFormed(log, Version(log, revision));
  }

  lemma StaysCurrent(log: Log, entry: Entry, r: nat)
    requires Current(log, r) && entry.id != Version(log, r).id
    ensures Current(log + [entry], r) && Version(log + [entry], r) == Version(log, r)
  {
  }

  /** The length of the longest id. */
  function Longest(log: Log): (length: nat)
    ensures forall k :: 0 <= k < |log| ==> |log[k].id| <= length
  {
    if log == [] then 0
    else
      var before := Longest(log[..|log| - 1]);
      assert forall k :: 0 <= k < |log| - 1 ==> log[k] == log[..|log| - 1][k];
      if |log[|log| - 1].id| > before then |log[|log| - 1].id| else before
  }

  function Highest(log: Log): (sequence: nat)
    ensures forall k :: 0 <= k < |log| ==> log[k].sequence <= sequence
  {
    if log == [] then 0
    else
      var before := Highest(log[..|log| - 1]);
      assert forall k :: 0 <= k < |log| - 1 ==> log[k] == log[..|log| - 1][k];
      if log[|log| - 1].sequence > before then log[|log| - 1].sequence else before
  }

  /** A post that is not on the server yet. */
  function Fresh(log: Log): Entry {
    Entry(seq(Longest(log) + 1, _ => 'p'), Highest(log) + 1, None, "", "", None)
  }

  lemma FreshIsNew(log: Log)
    requires WellFormed(log)
    ensures WellFormed(log + [Fresh(log)])
    ensures forall k :: 0 <= k < |log| ==> log[k].id != Fresh(log).id && log[k].sequence < Fresh(log).sequence
  {
    hide Longest, Highest;
    forall k | 0 <= k < |log| ensures log[k].id != Fresh(log).id && log[k].sequence < Fresh(log).sequence {
      assert |log[k].id| < |Fresh(log).id|;
    }
    AppendIsWellFormed(log, Fresh(log));
  }

  // --- after the pull -----------------------------------------------------------------------

  /** Once a lagging revision is claimed as known, the next new post shows it. */
  lemma BreakWhenKnown(w: World, r: nat) returns (worlds: seq<World>, steps: seq<Step>)
    requires Regular(w.log, w.cache) && Lagging(w.log, w.cache, r) && r <= Known(w.cache)
    ensures Breaks(w, worlds, steps)
  {
    hide Next, Fits, Agrees, IsPath, Undisturbed, Breaks, Regular, Lagging;
    LaggingDisagrees(w.log, w.cache, r);
    if !Past(w.log, w.cache, r) {
      worlds, steps := [w], [];
      BrokenNow(w);
    } else {
      var changed := World(w.log + [Fresh(w.log)], w.cache, w.pull);
      var post := FullRow(changed.log, |changed.log|);
      var shown := World(changed.log, SavePosts(w.cache, [post], EventOptions(true)), w.pull);
      FreshStep(w);
      NewPostShows(w, post, r);
      BrokenNow(shown);
      LiveStep(changed, post);
      StepThenBreak(changed, Event(post, true), shown, [shown], []);
      assert [changed] + [shown] == [changed, shown] && [Event(post, true)] + [] == [Event(post, true)];
      StepThenBreak(w, Change(Fresh(w.log)), changed, [changed, shown], [Event(post, true)]);
      worlds, steps := [w] + [changed, shown], [Change(Fresh(w.log))] + [Event(post, true)];
    }
  }

  lemma FreshStep(w: World)
    requires Regular(w.log, w.cache)
    ensures Next(w, Change(Fresh(w.log)), World(w.log + [Fresh(w.log)], w.cache, w.pull))
    ensures Fits(w, Change(Fresh(w.log)))
  {
    FreshIsNew(w.log);
  }

  /** A live event for a window that is there. */
  lemma LiveStep(w: World, post: Post)
    requires Genuine(w.log, post) && w.cache.coverage.Some?
    ensures Next(w, Event(post, true), World(w.log, SavePosts(w.cache, [post], EventOptions(true)), w.pull))
    ensures Fits(w, Event(post, true))
  {
  }

  lemma NewPostShows(w: World, post: Post, r: nat)
    requires Regular(w.log, w.cache) && Lagging(w.log, w.cache, r) && r <= Known(w.cache) && Past(w.log, w.cache, r)
    requires var log := w.log + [Fresh(w.log)]; post == FullRow(log, |log|)
    ensures w.cache.coverage.Some?
    ensures !Agrees(w.log + [Fresh(w.log)], SavePosts(w.cache, [post], EventOptions(true)))
  {
    hide SavePosts, SaveThrows, Spanned, Agrees;
    var log, options := w.log + [Fresh(w.log)], EventOptions(true);
    FreshIsNew(w.log);
    GrownIsRegular(w.log, w.cache, Fresh(w.log));
    StaysCurrent(w.log, Fresh(w.log), r);
    NewestIsStored(w.log, w.cache);
    assert Version(log, |log|) == Fresh(w.log);
    assert post.sequence > w.cache.coverage.value.newest.order && post.id !in w.cache.posts;
    SaveThrowsIff(w.cache, [post], options);
    AppendLags(log, w.cache, [post], options, r);
    LaggingDisagrees(log, SavePosts(w.cache, [post], options), r);
    assert post in [post];
  }

  lemma GrownIsRegular(log: Log, cache: Cache, entry: Entry)
    requires Regular(log, cache) && WellFormed(log + [entry])
    ensures Regular(log + [entry], cache)
  {
    hide WellFormed, Spanned, PostsGenuine;
    ServerKeepsGenuine(log, log + [entry], cache.posts);
  }

  lemma NewestIsStored(log: Log, cache: Cache)
    requires Regular(log, cache) && cache.coverage.Some?
    ensures exists k :: 0 <= k < |log| && log[k].sequence == cache.coverage.value.newest.order
    ensures forall id :: id in cache.posts ==> exists k :: 0 <= k < |log| && log[k].id == id
  {
    hide WellFormed;
    forall id | id in cache.posts
      ensures exists k :: 0 <= k < |log| && log[k].id == id && log[k].sequence == cache.posts[id].sequence
    {
      var k := cache.posts[id].revision - 1;
      assert log[k].id == id;
    }
  }

  // --- the rest of the pull -----------------------------------------------------------------

  /** None of these rows is as new as this one of its post. */
  predicate Overtakes(post: Post, rows: seq<Post>) {
    forall row :: row in rows && row.id == post.id ==> row.revision < post.revision
  }

  lemma {:induction false} PointSaves(log: Log, post: Post, rows: seq<Post>, count: nat)
    requires WellFormed(log) && Genuine(log, post) && AllGenuine(log, rows) && Overtakes(post, rows) && count <= |rows|
    ensures var window := SingleWindow(post);
            SaveFirst(window.posts, window.coverage, false, rows, count) == Saving(window.posts, [])
  {
    hide WellFormed, Genuine, SaveOne;
    if count > 0 {
      PointSaves(log, post, rows, count - 1);
      var window, row := SingleWindow(post), rows[count - 1];
      assert row in rows;
      GenuineIsSequenced(log, row);
      SameSequence(log, row, post);
      PointSavesOne(post, row);
    }
  }

  lemma PointSavesOne(post: Post, row: Post)
    requires row.sequence > 0 && (row.id == post.id <==> row.sequence == post.sequence)
    requires row.id == post.id ==> row.revision < post.revision
    ensures var saving := Saving(map[post.id := post], []);
            SaveOne(saving, SingleWindow(post).coverage, false, row) == saving
  {
  }

  /** Rows that say nothing newer leave the window of one post as it is. */
  lemma PointUnchanged(log: Log, post: Post, rows: seq<Post>)
    requires WellFormed(log) && Genuine(log, post) && AllGenuine(log, rows) && Overtakes(post, rows)
    ensures !SaveThrows(SingleWindow(post), rows, OVERLAY)
    ensures SavePosts(SingleWindow(post), rows, OVERLAY) == SingleWindow(post)
  {
    hide WellFormed, Genuine, AllGenuine, Overtakes;
    PointSaves(log, post, rows, |rows|);
  }

  lemma PointIsRegular(log: Log, post: Post)
    requires WellFormed(log) && Genuine(log, post)
    ensures Regular(log, SingleWindow(post))
  {
    hide WellFormed;
  }

  /** The pull goes on with steps that fit in any state. */
  lemma PullStepFits(w: World, step: Step)
    requires step.PullPage? || step.PullReadCoverage? || step.PullSaveRows? || step.PullAppend? || step.PullAdvance?
    ensures Fits(w, step)
  {
  }

  lemma BreakFromAdvancing(w: World, r: nat) returns (worlds: seq<World>, steps: seq<Step>)
    requires Regular(w.log, w.cache) && Lagging(w.log, w.cache, r)
    requires w.pull.Some? && w.pull.value.Advancing? && r <= w.pull.value.through
    ensures Breaks(w, worlds, steps)
  {
    hide Regular, Lagging, Breaks, AdvancePostRevision, Fits;
    var pull := w.pull.value;
    AdvanceLags(w.log, w.cache, pull.through, pull.sum, r);
    var next := World(w.log, AdvancePostRevision(w.cache, pull.through, pull.sum), None);
    worlds, steps := BreakWhenKnown(next, r);
    PullStepFits(w, PullAdvance);
    StepThenBreak(w, PullAdvance, next, worlds, steps);
    worlds, steps := [w] + worlds, [PullAdvance] + steps;
  }

  /** What the rows of a pull are, whatever the window is. */
  ghost predicate Pulled(log: Log, pull: Pull) {
    && pull.through <= |log|
    && match pull
       case Snapped(_, _) => true
       case Collecting(through, _, after, cursor, rows, done) =>
         && after <= cursor <= |log| && cursor <= Max(after, through) && (done ==> through <= cursor)
         && PulledRows(log, through, rows)
         && (forall row :: row in rows ==> after < row.revision <= cursor)
         && Collected(log, after, cursor, rows)
       case Overlaying(through, _, rows, appended, _) =>
         && PulledRows(log, through, rows) && PulledRows(log, through, appended)
         && forall row :: row in appended ==> row in rows
       case Appending(through, _, appended, _) => PulledRows(log, through, appended)
       case Advancing(through, _) => true
  }

  lemma ServerKeepsPulled(before: Log, after: Log, cache: Cache, pull: Pull)
    requires PullSound(before, cache, pull) && before <= after
    ensures Pulled(after, pull)
  {
    hide PulledRows, Collected;
    match pull
    case Collecting(through, _, known, cursor, rows, _) =>
      ServerKeepsCollected(before, after, known, cursor, rows);
      ServerKeepsRows(before, after, through, rows);
    case Overlaying(through, _, rows, appended, _) =>
      ServerKeepsRows(before, after, through, rows);
      ServerKeepsRows(before, after, through, appended);
    case Appending(through, _, appended, _) =>
      ServerKeepsRows(before, after, through, appended);
    case _ =>
  }

  /** The window of one post, the revision it lags behind with, and the pull
      that will not bring it. */
  ghost predicate Doomed(w: World, post: Post, r: nat) {
    && WellFormed(w.log) && Genuine(w.log, post) && w.cache == SingleWindow(post) && Lagging(w.log, w.cache, r)
    && w.pull.Some? && Pulled(w.log, w.pull.value) && r <= w.pull.value.through
    && match w.pull.value
       case Snapped(_, _) => false
       case Collecting(through, _, after, _, _, _) => r <= after && Outruns(w.log, after, through, post)
       case Overlaying(_, _, rows, appended, _) =>
         && Overtakes(post, rows) && !Has(appended, r) && (!Has(rows, r) || Past(w.log, w.cache, r))
       case Appending(_, _, appended, _) => Overtakes(post, appended) && !Has(appended, r)
       case Advancing(_, _) => true
  }

  /** A pull of this range brings nothing as new as this row of its post. */
  ghost predicate Outruns(log: Log, after: nat, through: nat, post: Post)
    requires through <= |log|
  {
    forall q: nat :: Current(log[..through], q) && after < q <= through && Version(log[..through], q).id == post.id ==>
      q < post.revision
  }

  lemma BreakFromAppending(w: World, post: Post, r: nat) returns (worlds: seq<World>, steps: seq<Step>)
    requires Doomed(w, post, r) && w.pull.value.Appending?
    ensures Breaks(w, worlds, steps)
  {
    hide WellFormed, Genuine, Lagging, Regular, Has, Breaks, SaveThrows, SavePosts, Fits;
    var pull := w.pull.value;
    PointIsRegular(w.log, post);
    PointTakes(w.log, post, pull.appended);
    AppendLags(w.log, w.cache, pull.appended, APPEND_OPTIONS, r);
    var advancing := Advancing(pull.through, pull.sum);
    var next := World(w.log, SavePosts(w.cache, pull.appended, APPEND_OPTIONS), Some(advancing));
    worlds, steps := BreakFromAdvancing(next, r);
    PullStepFits(w, PullAppend);
    StepThenBreak(w, PullAppend, next, worlds, steps);
    worlds, steps := [w] + worlds, [PullAppend] + steps;
  }

  /** No row of these collides with the one row of the window. */
  lemma PointTakes(log: Log, post: Post, rows: seq<Post>)
    requires WellFormed(log) && AllGenuine(log, rows) && Distinct(rows) && Overtakes(post, rows)
    ensures !SaveThrows(SingleWindow(post), rows, APPEND_OPTIONS)
  {
    hide SaveThrows, WellFormed;
    forall row | row in rows ensures row.sequence > 0 {
      GenuineIsSequenced(log, row);
    }
    SaveThrowsIff(SingleWindow(post), rows, APPEND_OPTIONS);
  }

  lemma BreakFromSaving(w: World, post: Post, r: nat) returns (worlds: seq<World>, steps: seq<Step>)
    requires Doomed(w, post, r) && w.pull.value.Overlaying?
    ensures Breaks(w, worlds, steps)
  {
    hide WellFormed, Genuine, Lagging, Has, Breaks, SaveThrows, SavePosts, Fits, PulledRows;
    var pull := w.pull.value;
    RowsAreGenuine(w.log, pull.through, pull.rows);
    PointUnchanged(w.log, post, pull.rows);
    var next := World(w.log, w.cache, Some(Appending(pull.through, pull.sum, pull.appended, pull.edge)));
    assert Doomed(next, post, r);
    worlds, steps := BreakFromAppending(next, post, r);
    PullStepFits(w, PullSaveRows);
    StepThenBreak(w, PullSaveRows, next, worlds, steps);
    worlds, steps := [w] + worlds, [PullSaveRows] + steps;
  }

  /** The rows of a collected range bring nothing that this row does not overtake. */
  lemma RowsAreOvertaken(log: Log, after: nat, through: nat, post: Post, rows: seq<Post>)
    requires through <= |log| && PulledRows(log, through, rows) && Outruns(log, after, through, post)
    requires forall row :: row in rows ==> after < row.revision
    ensures Overtakes(post, rows)
  {
    forall row | row in rows && row.id == post.id ensures row.revision < post.revision {
      assert Version(log[..through], row.revision) == Version(log, row.revision);
    }
  }

  lemma BreakWhenCollected(w: World, post: Post, r: nat) returns (worlds: seq<World>, steps: seq<Step>)
    requires Doomed(w, post, r) && w.pull.value.Collecting? && w.pull.value.done
    ensures Breaks(w, worlds, steps)
  {
    hide WellFormed, Genuine, Lagging, Breaks, Fits;
    var pull := w.pull.value;
    var saving := CommitOf(pull, w.cache.coverage);
    var next := World(w.log, w.cache, Some(saving));
    RowsAreOvertaken(w.log, pull.after, pull.through, post, pull.rows);
    CommitIsPulled(w.log, post, pull);
    assert !Has(saving.rows, r) && !Has(saving.appended, r);
    assert Doomed(next, post, r);
    worlds, steps := BreakFromSaving(next, post, r);
    PullStepFits(w, PullReadCoverage);
    StepThenBreak(w, PullReadCoverage, next, worlds, steps);
    worlds, steps := [w] + worlds, [PullReadCoverage] + steps;
  }

  lemma CommitIsPulled(log: Log, post: Post, pull: Pull)
    requires pull.Collecting? && pull.done && Pulled(log, pull)
    ensures Pulled(log, CommitOf(pull, SingleWindow(post).coverage))
  {
    hide Genuine;
    AppendedIsDistinct(SingleWindow(post).coverage, pull.rows);
  }

  lemma BreakFromCollecting(w: World, post: Post, r: nat) returns (worlds: seq<World>, steps: seq<Step>)
    requires Doomed(w, post, r) && w.pull.value.Collecting?
    ensures Breaks(w, worlds, steps)
  {
    if w.pull.value.done {
      worlds, steps := BreakWhenCollected(w, post, r);
    } else {
      hide Breaks, Fits, Doomed, Next, Renders;
      var limit, page := LastPage(w.log, w.pull.value);
      var step, next := LastPageStep(w, post, r, limit, page);
      worlds, steps := BreakWhenCollected(next, post, r);
      PullStepFits(w, step);
      StepThenBreak(w, step, next, worlds, steps);
      worlds, steps := [w] + worlds, [step] + steps;
    }
  }

  lemma LastPageStep(w: World, post: Post, r: nat, limit: nat, page: seq<Post>) returns (step: Step, next: World)
    requires Doomed(w, post, r) && w.pull.value.Collecting? && !w.pull.value.done
    requires 1 <= limit && |page| < limit && Renders(w.log, PageRevisions(w.log, w.pull.value, limit), page)
    ensures step.PullPage? && Next(w, step, next)
    ensures Doomed(next, post, r) && next.pull.value.Collecting? && next.pull.value.done
  {
    hide WellFormed, Genuine, Lagging, SavePosts, SaveThrows, Has, Renders, PageRevisions, PulledRows, Collected,
      Outruns, AllGenuine, AllMaterialized, SingleWindow;
    var pull := w.pull.value;
    step := PullPage(limit, page, map[]);
    next := World(w.log, w.cache, Some(WithPage(pull, AllMaterialized(page, map[]), limit)));
    CollectedMore(w.log, pull, page, map[], limit);
    PageIsOvertaken(w.log, pull, page, limit, post);
    PointUnchanged(w.log, post, page);
  }

  /** All that is left of the range in one page. */
  lemma LastPage(log: Log, pull: Pull) returns (limit: nat, page: seq<Post>)
    requires pull.Collecting? && pull.through <= |log|
    ensures 1 <= limit && |page| < limit && Renders(log, PageRevisions(log, pull, limit), page)
  {
    var revisions := ChangedRevisions(log, pull.cursor, pull.through);
    ChangedRevisionsAreExact(log, pull.cursor, pull.through);
    limit := |revisions| + 1;
    assert revisions[..|revisions|] == revisions;
    assert forall k :: 0 <= k < |revisions| ==> revisions[k] in revisions && IsRevision(log, revisions[k]);
    page := seq(|revisions|, k requires 0 <= k < |revisions| => FullRow(log, revisions[k]));
  }

  lemma PageIsOvertaken(log: Log, pull: Pull, page: seq<Post>, limit: nat, post: Post)
    requires pull.Collecting? && pull.through <= |log| && 1 <= limit && pull.after <= pull.cursor
    requires Renders(log, PageRevisions(log, pull, limit), page) && Outruns(log, pull.after, pull.through, post)
    ensures AllGenuine(log, page) && Overtakes(post, page)
  {
    hide Renders, PageRevisions, Has;
    PageIsExact(log, pull, limit, page);
    forall row | row in page && row.id == post.id ensures row.revision < post.revision {
      CurrentWas(log[..pull.through], log, row.revision);
    }
  }

  lemma BreakDoomed(w: World, post: Post, r: nat) returns (worlds: seq<World>, steps: seq<Step>)
    requires Doomed(w, post, r)
    ensures Breaks(w, worlds, steps)
  {
    hide Breaks;
    match w.pull.value
    case Collecting(_, _, _, _, _, _) => worlds, steps := BreakFromCollecting(w, post, r);
    case Overlaying(_, _, _, _, _) => worlds, steps := BreakFromSaving(w, post, r);
    case Appending(_, _, _, _) => worlds, steps := BreakFromAppending(w, post, r);
    case Advancing(_, _) =>
      PointIsRegular(w.log, post);
      worlds, steps := BreakFromAdvancing(w, r);
  }

  // --- every misfit breaks the window -------------------------------------------------------

  /** This version at or past the place of a row is one that the pull will not bring. */
  ghost predicate Missed(w: World, post: Post, r: nat) {
    && Current(w.log, r) && post.sequence <= Version(w.log, r).sequence && r != post.revision
    && w.pull.Some? && r <= w.pull.value.through
    && match w.pull.value
       case Snapped(_, _) => false
       case Collecting(_, _, after, _, _, _) => r <= after
       case Overlaying(_, _, rows, appended, _) =>
         !Has(appended, r) && (post.sequence == Version(w.log, r).sequence ==> !Has(rows, r))
       case Appending(_, _, appended, _) => !Has(appended, r)
       case Advancing(_, _) => true
  }

  lemma MisfitMisses(w: World, post: Post) returns (r: nat)
    requires Inv(w) && Genuine(w.log, post) && !StartFits(w, post.revision)
    ensures Missed(w, post, r)
  {
    hide Sound, Genuine, PulledRows, Has;
    GenuineIsRevision(w.log, post);
    match w.pull.value
    case Collecting(through, _, after, _, _, _) => r := NotOnly(w.log, post.revision, Min(after, through));
    case Advancing(through, _) => r := NotOnly(w.log, post.revision, through);
    case Overlaying(through, _, rows, appended, edge) =>
      r := NotBridged(w.log, post.revision, through, edge, rows);
      NotAppended(w.log, through, edge, rows, appended, r);
    case Appending(through, _, appended, edge) =>
      r := NotBridged(w.log, post.revision, through, edge, appended);
      NotAppended(w.log, through, edge, appended, appended, r);
  }

  lemma NotOnly(log: Log, revision: nat, through: nat) returns (r: nat)
    requires IsRevision(log, revision) && !OnlyVersion(log, revision, through)
    ensures Current(log, r) && r <= through && Version(log, revision).sequence <= Version(log, r).sequence
    ensures r != revision
  {
    r :| Current(log, r) && r <= through && r != revision
         && Version(log, revision).sequence <= Version(log, r).sequence;
  }

  lemma NotBridged(log: Log, revision: nat, through: nat, edge: nat, rows: seq<Post>) returns (r: nat)
    requires IsRevision(log, revision)
    requires !(EdgeFits(log, revision, through, edge) && Bridged(log, revision, through, rows))
    ensures Current(log, r) && r <= through && r != revision
    ensures if Version(log, revision).sequence == Version(log, r).sequence then !Has(rows, r)
            else Version(log, revision).sequence < Version(log, r).sequence <= edge
  {
    hide Has;
    if EdgeFits(log, revision, through, edge) {
      r :| Current(log, r) && r <= through && Version(log, r).sequence == Version(log, revision).sequence
           && r != revision && !Has(rows, r);
    } else {
      r :| Current(log, r) && r <= through && Version(log, revision).sequence < Version(log, r).sequence
           && Version(log, r).sequence <= edge;
    }
  }

  lemma NotAppended(log: Log, through: nat, edge: nat, rows: seq<Post>, appended: seq<Post>, r: nat)
    requires through <= |log| && PulledRows(log, through, appended) && AppendComplete(log, through, edge, appended)
    requires Current(log, r) && forall row :: row in appended ==> row in rows
    requires !Has(rows, r) || Version(log, r).sequence <= edge
    ensures !Has(appended, r)
  {
  }

  /** A missed version of the post itself: the rows of the pull leave the post alone. */
  lemma SamePostIsDoomed(w: World, post: Post, next: World, r: nat)
    requires Inv(w) && Genuine(w.log, post) && Missed(w, post, r) && post.sequence == Version(w.log, r).sequence
    requires next == World(w.log, SingleWindow(post), w.pull)
    ensures Doomed(next, post, r)
  {
    hide Sound, Collected, Pending, AppendComplete, PastEdge, KnownBehind, AgreesUpTo, Genuine, WellFormed;
    SoundIsWellFormed(w.log, w.cache);
    var pull := w.pull.value;
    ServerKeepsPulled(w.log, w.log, w.cache, pull);
    SingleLags(w.log, post, r);
    CurrentWas(w.log[..pull.through], w.log, r);
    match pull
    case Collecting(through, _, after, _, _, _) => OutrunBySelf(w.log, after, through, post, r);
    case Overlaying(through, _, rows, _, _) => OvertakenBySelf(w.log, through, post, rows, r);
    case Appending(through, _, appended, _) => OvertakenBySelf(w.log, through, post, appended, r);
    case Advancing(_, _) =>
  }

  lemma SingleLags(log: Log, post: Post, r: nat)
    requires WellFormed(log) && Genuine(log, post) && Current(log, r) && r != post.revision
    requires post.sequence <= Version(log, r).sequence
    ensures Lagging(log, SingleWindow(post), r)
    ensures post.sequence == Version(log, r).sequence ==> post.id == Version(log, r).id
    ensures post.sequence != Version(log, r).sequence ==>
              Past(log, SingleWindow(post), r) && post.id != Version(log, r).id
  {
    assert log[post.revision - 1].id == log[r - 1].id <==> log[post.revision - 1].sequence == log[r - 1].sequence;
  }

  lemma CurrentIsRevision(log: Log)
    ensures forall q: nat :: Current(log, q) ==> IsRevision(log, q)
  {
  }

  lemma OutrunBySelf(log: Log, after: nat, through: nat, post: Post, r: nat)
    requires through <= |log| && Current(log[..through], r) && r <= after && Version(log[..through], r).id == post.id
    ensures Outruns(log, after, through, post)
  {
    hide Current;
    forall q: nat | Current(log[..through], q) && IsRevision(log[..through], q)
                  && Version(log[..through], q).id == post.id
      ensures q == r
    {
      CurrentIsUnique(log[..through], q, r);
    }
    assert forall q: nat :: Current(log[..through], q) ==> IsRevision(log[..through], q) by {
      CurrentIsRevision(log[..through]);
    }
  }

  lemma PresentRow(log: Log, was: Log, row: Post, r: nat)
    requires was <= log && Genuine(log, row) && Current(was, row.revision) && Current(was, r)
    requires row.id == Version(was, r).id
    ensures row.revision == r
  {
    CurrentIsUnique(was, row.revision, r);
  }

  lemma OvertakenBySelf(log: Log, through: nat, post: Post, rows: seq<Post>, r: nat)
    requires through <= |log| && PulledRows(log, through, rows) && Current(log[..through], r)
    requires IsRevision(log[..through], r) && Version(log[..through], r).id == post.id && !Has(rows, r)
    ensures Overtakes(post, rows)
  {
    hide Current, Genuine;
    forall row | row in rows ensures row.id == post.id ==> row.revision == r {
      if row.id == post.id {
        PresentRow(log, log[..through], row, r);
      }
    }
  }

  /** A row that is newer than the whole pull, of a post before the missed version. */
  lemma EarlierPostIsDoomed(w: World, cache: Cache, log: Log, post: Post, newer: Post, next: World, r: nat)
    requires Missed(World(log, cache, w.pull), post, r) && PullSound(log, cache, w.pull.value) && log <= w.log
    requires WellFormed(w.log) && Genuine(w.log, newer) && Current(w.log, r) && |log| < newer.revision
    requires newer.sequence < Version(w.log, r).sequence && next == World(w.log, SingleWindow(newer), w.pull)
    ensures Doomed(next, newer, r)
  {
    hide WellFormed, Genuine, Collected, Pending, AppendComplete, PastEdge, KnownBehind, AgreesUpTo;
    ServerKeepsPulled(log, w.log, cache, w.pull.value);
    SingleLags(w.log, newer, r);
  }

  /** The started window's post is edited, and the event of the edit arrives. */
  lemma EditSteps(w: World, post: Post) returns (changed: World, edited: Post, shown: World)
    requires WellFormed(w.log) && Genuine(w.log, post) && w.cache == SingleWindow(post)
    ensures changed == World(w.log + [Version(w.log, post.revision)], w.cache, w.pull) && WellFormed(changed.log)
    ensures Genuine(changed.log, edited) && edited.revision == |changed.log| && edited.sequence == post.sequence
    ensures Next(w, Change(Version(w.log, post.revision)), changed) && Fits(w, Change(Version(w.log, post.revision)))
    ensures shown == World(changed.log, SingleWindow(edited), w.pull)
    ensures Next(changed, Event(edited, false), shown) && Fits(changed, Event(edited, false))
  {
    hide WellFormed;
    EditIsWellFormed(w.log, post.revision);
    var log := w.log + [Version(w.log, post.revision)];
    changed := World(log, w.cache, w.pull);
    edited := FullRow(log, |log|);
    shown := World(log, SingleWindow(edited), w.pull);
    GenuineIsSequenced(log, edited);
    PointReplaced(post, edited);
  }

  lemma PointReplaced(post: Post, newer: Post)
    requires newer.id == post.id && newer.sequence == post.sequence && newer.sequence > 0
    requires post.revision < newer.revision
    ensures SavePosts(SingleWindow(post), [newer], EventOptions(false)) == SingleWindow(newer)
  {
    var window := SingleWindow(post);
    var saving := SaveFirst(window.posts, window.coverage, false, [newer], 0);
    assert SaveFirst(window.posts, window.coverage, false, [newer], 1)
        == SaveOne(saving, window.coverage, false, newer);
    assert window.posts[newer.id := newer] == SingleWindow(newer).posts;
  }

  lemma MisfitBreaks(w: World, post: Post, next: World) returns (worlds: seq<World>, steps: seq<Step>)
    requires Inv(w) && Next(w, Event(post, true), next) && w.cache.coverage.None? && !StartFits(w, post.revision)
    ensures Breaks(next, worlds, steps)
  {
    hide Inv, StartFits, Doomed, Missed, Breaks, Fits;
    StartKeepsInvIff(w, post, next);
    InvParts(w);
    var r := MisfitMisses(w, post);
    MissedParts(w, post, r);
    if post.sequence == Version(w.log, r).sequence {
      SamePostIsDoomed(w, post, next, r);
      worlds, steps := BreakDoomed(next, post, r);
    } else {
      var changed, edited, shown := EditSteps(next, post);
      SingleLags(w.log, post, r);
      StaysCurrent(w.log, Version(w.log, post.revision), r);
      EarlierPostIsDoomed(changed, w.cache, w.log, post, edited, shown, r);
      worlds, steps := BreakDoomed(shown, edited, r);
      StepThenBreak(changed, Event(edited, false), shown, worlds, steps);
      worlds, steps := [changed] + worlds, [Event(edited, false)] + steps;
      StepThenBreak(next, Change(Version(w.log, post.revision)), changed, worlds, steps);
      worlds, steps := [next] + worlds, [Change(Version(w.log, post.revision))] + steps;
    }
  }

  lemma InvParts(w: World)
    requires Inv(w)
    ensures WellFormed(w.log) && (w.pull.Some? ==> PullSound(w.log, w.cache, w.pull.value))
  {
  }

  lemma MissedParts(w: World, post: Post, r: nat)
    requires Missed(w, post, r)
    ensures Current(w.log, r) && post.sequence <= Version(w.log, r).sequence && r != post.revision && w.pull.Some?
  {
  }

  /** A live event that starts a window while a pull is in flight is safe if and
      only if it fits: otherwise some run ends with a window that claims to know
      a revision and does not hold it. */
  lemma StartIsSafeIff(w: World, post: Post, next: World)
    requires Inv(w) && Next(w, Event(post, true), next) && w.cache.coverage.None?
    ensures StartFits(w, post.revision) <==> StaysRight(next)
  {
    hide Inv, StartFits, Next, Fits, Agrees;
    if StartFits(w, post.revision) {
      StartKeepsInvIff(w, post, next);
      forall worlds: seq<World>, steps: seq<Step> |
        IsPath(worlds, steps) && worlds[0] == next && Undisturbed(worlds, steps)
        ensures Agrees(worlds[|steps|].log, worlds[|steps|].cache)
      {
        PathKeepsInv(worlds, steps, |steps|);
        InvAgrees(worlds[|steps|]);
      }
    } else {
      var worlds, steps := MisfitBreaks(w, post, next);
      assert IsPath(worlds, steps);
    }
  }

  lemma InvAgrees(w: World)
    requires Inv(w)
    ensures Agrees(w.log, w.cache)
  {
    SoundAgrees(w.log, w.cache);
  }

  // --- every pull that starts too late breaks the window ------------------------------------

  /** Editing a post takes its listed revision out of a range that ends before the edit. */
  lemma {:induction false} EditLeavesRange(log: Log, q: nat, after: nat, through: nat)
    requires Current(log, q) && through <= |log|
    ensures |ChangedRevisions(log + [Version(log, q)], after, through)|
         == |ChangedRevisions(log, after, through)| - (if after < q <= through then 1 else 0)
    decreases through
  {
    if after < through {
      EditLeavesRange(log, q, after, through - 1);
      EditRetires(log, q, through);
    }
  }

  lemma EditRetires(log: Log, q: nat, r: nat)
    requires Current(log, q) && IsRevision(log, r)
    ensures Current(log + [Version(log, q)], r) <==> Current(log, r) && r != q
  {
    var longer := log + [Version(log, q)];
    assert longer[|log|] == Version(log, q);
    if Current(log, r) && r != q {
      CurrentIsDistinct(log, q, r);
      StaysCurrent(log, Version(log, q), r);
    }
    if Current(longer, r) {
      CurrentWas(log, longer, r);
    }
  }

  lemma CurrentIsDistinct(log: Log, q: nat, r: nat)
    requires Current(log, q) && Current(log, r) && q != r
    ensures Version(log, q).id != Version(log, r).id
  {
  }

  /** A pull that began at or after a lagging revision: once every post of its
      range has changed again, it commits nothing and publishes. */
  lemma BreakFromRead(w: World, r: nat) returns (worlds: seq<World>, steps: seq<Step>)
    requires Regular(w.log, w.cache) && Lagging(w.log, w.cache, r) && w.pull.Some?
    requires var p := w.pull.value;
             p.Collecting? && !p.done && p.rows == [] && p.cursor == p.after && r <= p.after < p.through <= |w.log|
    ensures Breaks(w, worlds, steps)
    decreases |ChangedRevisions(w.log, w.pull.value.after, w.pull.value.through)|
  {
    hide Breaks, Fits, Next, Regular, Lagging, ChangedRevisions;
    var pull := w.pull.value;
    var left := ChangedRevisions(w.log, pull.after, pull.through);
    if left == [] {
      worlds, steps := BreakWithNothing(w, r);
    } else {
      var step, next := EditStep(w, r, left[0]);
      worlds, steps := BreakFromRead(next, r);
      StepThenBreak(w, step, next, worlds, steps);
      worlds, steps := [w] + worlds, [step] + steps;
    }
  }

  lemma EditStep(w: World, r: nat, q: nat) returns (step: Step, next: World)
    requires Regular(w.log, w.cache) && Lagging(w.log, w.cache, r) && w.pull.Some? && w.pull.value.Collecting?
    requires w.pull.value.through <= |w.log| && r <= w.pull.value.after
    requires q in ChangedRevisions(w.log, w.pull.value.after, w.pull.value.through)
    ensures Next(w, step, next) && Fits(w, step) && next.cache == w.cache && next.pull == w.pull
    ensures Regular(next.log, next.cache) && Lagging(next.log, next.cache, r) && |w.log| <= |next.log|
    ensures |ChangedRevisions(next.log, w.pull.value.after, w.pull.value.through)|
          < |ChangedRevisions(w.log, w.pull.value.after, w.pull.value.through)|
  {
    hide ChangedRevisions, WellFormed, PostsGenuine, Spanned;
    var pull := w.pull.value;
    ChangedRevisionsAreExact(w.log, pull.after, pull.through);
    step := Change(Version(w.log, q));
    next := World(w.log + [Version(w.log, q)], w.cache, w.pull);
    EditIsWellFormed(w.log, q);
    GrownIsRegular(w.log, w.cache, Version(w.log, q));
    CurrentIsDistinct(w.log, q, r);
    StaysCurrent(w.log, Version(w.log, q), r);
    EditLeavesRange(w.log, q, pull.after, pull.through);
  }

  /** Nothing is listed, so nothing is saved, and the revision is published. */
  lemma BreakWithNothing(w: World, r: nat) returns (worlds: seq<World>, steps: seq<Step>)
    requires Regular(w.log, w.cache) && Lagging(w.log, w.cache, r) && w.pull.Some?
    requires var p := w.pull.value;
             && p.Collecting? && !p.done && p.rows == [] && p.cursor == p.after && r <= p.after < p.through <= |w.log|
             && ChangedRevisions(w.log, p.after, p.through) == []
    ensures Breaks(w, worlds, steps)
  {
    hide Breaks, Fits, Regular, AdvancePostRevision;
    var p := w.pull.value;
    var edge := w.cache.coverage.value.newest.order;
    var collected := World(w.log, w.cache, Some(p.(done := true, cursor := p.through)));
    var saving := World(w.log, w.cache, Some(Overlaying(p.through, p.sum, [], [], edge)));
    var appending := World(w.log, w.cache, Some(Appending(p.through, p.sum, [], edge)));
    var advancing := World(w.log, w.cache, Some(Advancing(p.through, p.sum)));
    worlds, steps := BreakFromAdvancing(advancing, r);
    NothingThrows(w.cache, APPEND_OPTIONS);
    NothingThrows(w.cache, OVERLAY);
    PullStepFits(appending, PullAppend);
    StepThenBreak(appending, PullAppend, advancing, worlds, steps);
    PullStepFits(saving, PullSaveRows);
    StepThenBreak(saving, PullSaveRows, appending, [appending] + worlds, [PullAppend] + steps);
    worlds, steps := [appending] + worlds, [PullAppend] + steps;
    PullStepFits(collected, PullReadCoverage);
    StepThenBreak(collected, PullReadCoverage, saving, [saving] + worlds, [PullSaveRows] + steps);
    worlds, steps := [saving] + worlds, [PullSaveRows] + steps;
    EmptyPageStep(w, collected);
    PullStepFits(w, PullPage(1, [], map[]));
    StepThenBreak(w, PullPage(1, [], map[]), collected, [collected] + worlds, [PullReadCoverage] + steps);
    worlds, steps := [w] + ([collected] + worlds), [PullPage(1, [], map[])] + ([PullReadCoverage] + steps);
  }

  lemma EmptyPageStep(w: World, next: World)
    requires w.pull.Some? && w.pull.value.Collecting? && !w.pull.value.done && w.pull.value.rows == []
    requires w.pull.value.cursor < w.pull.value.through <= |w.log|
    requires ChangedRevisions(w.log, w.pull.value.cursor, w.pull.value.through) == []
    requires next == World(w.log, w.cache, Some(w.pull.value.(done := true, cursor := w.pull.value.through)))
    ensures Next(w, PullPage(1, [], map[]), next)
  {
    NothingToSave(w.cache, OVERLAY);
    assert AllMaterialized([], map[]) == [] && w.pull.value.rows + [] == [];
  }

  lemma LeftOut(log: Log, cache: Cache, through: nat) returns (r: nat)
    requires Sound(log, cache) && !NothingLeftOut(log, cache, through)
    ensures r <= through && Regular(log, cache) && Lagging(log, cache, r)
  {
    hide Sound, Regular, Lagging;
    r :| Known(cache) < r <= through && Current(log, r)
         && ((InWindow(log, cache, r) && !Exact(log, cache.posts, r)) || Past(log, cache, r));
    SoundIsRegular(log, cache, r);
  }

  lemma ReadBreaks(w: World, after: nat, next: World) returns (worlds: seq<World>, steps: seq<Step>)
    requires Inv(w) && Next(w, PullRead(after), next) && !ReadFits(w, after)
    ensures Breaks(next, worlds, steps)
  {
    hide Breaks, Sound, Fits, Regular, Lagging;
    var r := LeftOut(w.log, w.cache, Min(after, w.pull.value.through));
    if w.pull.value.sum.Some? || w.pull.value.through <= after {
      KnownReadFits(w, after);
    }
    worlds, steps := BreakFromRead(next, r);
  }

  /** A pull may start at a revision if and only if nothing the window needs was
      changed between its known revision and that one: otherwise some run ends
      with a window that disagrees with the server. */
  lemma ReadIsSafeIff(w: World, after: nat, next: World)
    requires Inv(w) && Next(w, PullRead(after), next)
    ensures ReadFits(w, after) <==> StaysRight(next)
  {
    hide Inv, ReadFits, Fits, Agrees;
    if ReadFits(w, after) {
      ReadKeepsInvIff(w, after, next);
      forall worlds: seq<World>, steps: seq<Step> |
        IsPath(worlds, steps) && worlds[0] == next && Undisturbed(worlds, steps)
        ensures Agrees(worlds[|steps|].log, worlds[|steps|].cache)
      {
        PathKeepsInv(worlds, steps, |steps|);
        InvAgrees(worlds[|steps|]);
      }
    } else {
      var worlds, steps := ReadBreaks(w, after, next);
      assert IsPath(worlds, steps);
    }
  }
}
