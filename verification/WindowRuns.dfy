/** Whole runs of the window protocol: which steps disturb a pull in flight, and
    what the window claims as long as none does. */
module WindowRuns {
  import opened Basics
  import opened PostModel
  import opened PostCollisions
  import opened PostWindow
  import opened WindowInvariant
  import opened WindowProtocol
  import opened WindowSteps

  // --- a window that starts while a pull is in flight ---------------------------------------

  /** Up to a revision, the server's only present post at or after this version's
      place is this version itself. */
  ghost predicate OnlyVersion(log: Log, revision: nat, through: nat)
    requires IsRevision(log, revision)
  {
    forall r: nat :: Current(log, r) && r <= through && Version(log, revision).sequence <= Version(log, r).sequence ==>
      r == revision
  }

  /** The present version of this version's post is the version itself, is among
      these rows, or is newer than the pull. */
  ghost predicate Bridged(log: Log, revision: nat, through: nat, rows: seq<Post>)
    requires IsRevision(log, revision)
  {
    forall r: nat :: Current(log, r) && r <= through && Version(log, r).sequence == Version(log, revision).sequence ==>
      r == revision || Has(rows, r)
  }

  /** What the pull is about and lies past this version also lies past the edge. */
  ghost predicate EdgeFits(log: Log, revision: nat, through: nat, edge: nat)
    requires IsRevision(log, revision)
  {
    forall r: nat :: Current(log, r) && r <= through && Version(log, revision).sequence < Version(log, r).sequence ==>
      edge < Version(log, r).sequence
  }

  /** What the pull in flight needs of a live event that starts a window. */
  ghost predicate StartFits(w: World, revision: nat) {
    && IsRevision(w.log, revision)
    && (w.pull.Some? ==>
          match w.pull.value
          case Snapped(_, _) => true
          case Collecting(through, _, after, _, _, _) => OnlyVersion(w.log, revision, Min(after, through))
          case Overlaying(through, _, rows, _, edge) =>
            EdgeFits(w.log, revision, through, edge) && Bridged(w.log, revision, through, rows)
          case Appending(through, _, appended, edge) =>
            EdgeFits(w.log, revision, through, edge) && Bridged(w.log, revision, through, appended)
          case Advancing(through, _) => OnlyVersion(w.log, revision, through))
  }

  /** The window of one live event. */
  function SingleWindow(post: Post): Cache {
    Cache(map[post.id := post], Some(Coverage(BoundaryOf(post), BoundaryOf(post), true, false, 0, 0)))
  }

  lemma SingleStart(post: Post)
    requires post.sequence > 0
    ensures SavePosts(EMPTY_CACHE, [post], EventOptions(true)) == SingleWindow(post)
  {
    var saving := SaveFirst(map[], None, true, [post], 0);
    assert SaveFirst(map[], None, true, [post], 1) == SaveOne(saving, None, true, post);
    assert saving.written + [post] == [post];
  }

  /** A live event that starts a window keeps the invariant exactly when it fits
      the pull in flight. */
  lemma StartKeepsInvIff(w: World, post: Post, next: World)
    requires Inv(w) && Next(w, Event(post, true), next) && w.cache.coverage.None?
    ensures next.cache == SingleWindow(post) && Sound(next.log, next.cache)
    ensures Inv(next) <==> StartFits(w, post.revision)
  {
    hide Sound, SavePosts, Genuine, PullSound, StartFits;
    SoundIsWellFormed(w.log, w.cache);
    NoCoverageNoPosts(w.log, w.cache);
    GenuineIsSequenced(w.log, post);
    LiveCreateKeepsSound(w.log, w.cache, post);
    SingleStart(post);
    if w.pull.Some? {
      SingleFitsIff(w.log, w.cache, post, w.pull.value);
      assert w == World(w.log, w.cache, Some(w.pull.value));
    } else {
      FitsWithoutPull(w, post);
    }
  }

  lemma FitsWithoutPull(w: World, post: Post)
    requires Genuine(w.log, post) && w.pull.None?
    ensures StartFits(w, post.revision)
  {
  }

  lemma NoCoverageNoPosts(log: Log, cache: Cache)
    requires Sound(log, cache) && cache.coverage.None?
    ensures cache == EMPTY_CACHE
  {
  }

  lemma SingleFitsIff(log: Log, before: Cache, post: Post, pull: Pull)
    requires WellFormed(log) && Genuine(log, post) && PullSound(log, before, pull)
    ensures PullSound(log, SingleWindow(post), pull) <==> StartFits(World(log, before, Some(pull)), post.revision)
  {
    hide WellFormed, Genuine, Collected, AppendComplete, PulledRows, Has, Pending, PastEdge, AgreesUpTo,
      KnownBehind, OnlyVersion, Bridged, EdgeFits;
    GenuineIsRevision(log, post);
    match pull
    case Snapped(_, _) =>
    case Collecting(through, _, after, _, _, _) => SingleAgreesIff(log, post, Min(after, through));
    case Overlaying(through, _, rows, _, edge) =>
      SingleIsPendingIff(log, post, through, edge, rows);
      SingleKnowsNothing(log, post, through, pull.appended);
    case Appending(through, _, appended, edge) =>
      SingleIsPendingIff(log, post, through, edge, appended);
      SingleKnowsNothing(log, post, through, appended);
    case Advancing(through, _) => SingleAgreesIff(log, post, through);
  }

  lemma GenuineIsRevision(log: Log, post: Post)
    requires Genuine(log, post)
    ensures IsRevision(log, post.revision) && post.sequence == Version(log, post.revision).sequence
  {
  }

  lemma SingleInterval(log: Log, post: Post, r: nat)
    requires WellFormed(log) && Genuine(log, post) && Current(log, r)
    ensures var window := SingleWindow(post);
            && (InWindow(log, window, r) <==> Version(log, r).sequence == post.sequence)
            && (Past(log, window, r) <==> post.sequence < Version(log, r).sequence)
            && (InWindow(log, window, r) ==> (Exact(log, window.posts, r) <==> r == post.revision))
  {
  }

  lemma SingleAgreesIff(log: Log, post: Post, through: nat)
    requires WellFormed(log) && Genuine(log, post)
    ensures IsRevision(log, post.revision)
    ensures AgreesUpTo(log, SingleWindow(post), through) <==> OnlyVersion(log, post.revision, through)
  {
    hide WellFormed;
    var window := SingleWindow(post);
    forall r: nat | Current(log, r) && r <= through
      ensures InWindow(log, window, r) <==> Version(log, r).sequence == Version(log, post.revision).sequence
      ensures Past(log, window, r) <==> Version(log, post.revision).sequence < Version(log, r).sequence
      ensures InWindow(log, window, r) ==> (Exact(log, window.posts, r) <==> r == post.revision)
    {
      SingleInterval(log, post, r);
    }
  }

  lemma SingleKnowsNothing(log: Log, post: Post, through: nat, appended: seq<Post>)
    ensures KnownBehind(log, SingleWindow(post), through, appended)
  {
  }

  lemma SingleIsPendingIff(log: Log, post: Post, through: nat, edge: nat, rows: seq<Post>)
    requires WellFormed(log) && Genuine(log, post)
    ensures IsRevision(log, post.revision)
    ensures Pending(log, SingleWindow(post), through, rows) <==> Bridged(log, post.revision, through, rows)
    ensures PastEdge(log, SingleWindow(post), through, edge) <==> EdgeFits(log, post.revision, through, edge)
  {
    hide WellFormed, Has;
    var window := SingleWindow(post);
    forall r: nat | Current(log, r) && r <= through
      ensures InWindow(log, window, r) <==> Version(log, r).sequence == Version(log, post.revision).sequence
      ensures Past(log, window, r) <==> Version(log, post.revision).sequence < Version(log, r).sequence
      ensures InWindow(log, window, r) ==> (Exact(log, window.posts, r) <==> r == post.revision)
    {
      SingleInterval(log, post, r);
    }
  }

  /** An event with the newest post in its present version always fits. */
  lemma NewestAlwaysFits(w: World, revision: nat)
    requires Inv(w) && Current(w.log, revision)
    requires forall r: nat :: Current(w.log, r) ==> Version(w.log, r).sequence <= Version(w.log, revision).sequence
    ensures StartFits(w, revision)
  {
    hide Sound, ExactUpTo, NothingPast, Pending, Collected, AppendComplete, PulledRows, Has;
    SoundIsWellFormed(w.log, w.cache);
    forall r: nat | Current(w.log, r) && Version(w.log, revision).sequence <= Version(w.log, r).sequence
      ensures r == revision
    {
      SequenceIdentifies(w.log, r, revision);
    }
  }

  // --- what the device can check ------------------------------------------------------------

  /** The version that created its post. */
  predicate Created(log: Log, revision: nat) {
    IsRevision(log, revision) && forall k :: 0 <= k < revision - 1 ==> log[k].id != log[revision - 1].id
  }

  /** The revision up to which the pull in flight takes the window for complete. */
  function Bound(pull: Pull): nat {
    match pull
    case Snapped(_, _) => 0
    case Collecting(through, _, after, _, _, _) => Min(after, through)
    case _ => pull.through
  }

  /** The creation of a post that is not older than this bound always fits. */
  lemma CreationFits(w: World, revision: nat)
    requires WellFormed(w.log) && Created(w.log, revision) && (w.pull.Some? ==> Bound(w.pull.value) <= revision)
    ensures StartFits(w, revision)
  {
    hide WellFormed, Has;
    forall r: nat | Current(w.log, r) && Version(w.log, revision).sequence <= Version(w.log, r).sequence
      ensures revision <= r
    {
      LargerIsLater(w.log, revision, r);
    }
  }

  /** A version at or past the place of a post that was just created is no older. */
  lemma LargerIsLater(log: Log, created: nat, r: nat)
    requires WellFormed(log) && Created(log, created) && IsRevision(log, r)
    requires Version(log, created).sequence <= Version(log, r).sequence
    ensures created <= r
  {
  }

  /** A step that does not disturb the pull in flight. */
  ghost predicate Fits(w: World, step: Step) {
    && (StartsWindow(w, step) ==> StartFits(w, step.post.revision))
    && (step.PullRead? && w.pull.Some? ==> ReadFits(w, step.after))
    && (step.PagePublish? ==> PublishFits(w, step.revision))
  }

  /** What a device can check before a step: the event announces a new post, not
      older than what the pull in flight covers, and a pull does not start
      beyond the known revision, nor does a page publish beyond it. */
  predicate Guarded(w: World, step: Step) {
    && (StartsWindow(w, step) ==>
          Created(w.log, step.post.revision) && (w.pull.Some? ==> Bound(w.pull.value) <= step.post.revision))
    && (step.PullRead? ==> step.after <= Known(w.cache))
    && (step.PagePublish? ==> step.revision <= Known(w.cache))
  }

  lemma KnownPublishFits(w: World, revision: nat)
    requires Inv(w) && revision <= Known(w.cache)
    ensures PublishFits(w, revision)
  {
    hide Sound, Has, PulledRows, Collected, AppendComplete, Pending, PastEdge, AgreesUpTo;
    PublishedWindow(w.log, w.cache, revision);
  }

  lemma GuardedFits(w: World, step: Step)
    requires Inv(w) && Guarded(w, step)
    ensures Fits(w, step)
  {
    hide Sound;
    SoundIsWellFormed(w.log, w.cache);
    if StartsWindow(w, step) {
      CreationFits(w, step.post.revision);
    }
    if step.PullRead? && w.pull.Some? {
      KnownReadFits(w, step.after);
    }
    if step.PagePublish? {
      KnownPublishFits(w, step.revision);
    }
  }

  // --- every step keeps the invariant -------------------------------------------------------

  lemma EventKeepsInv(w: World, post: Post, liveAppend: bool, next: World)
    requires Inv(w) && Next(w, Event(post, liveAppend), next)
    requires StartsWindow(w, Event(post, liveAppend)) ==> StartFits(w, post.revision)
    ensures Inv(next)
  {
    hide Sound, Genuine, Careful, SavePosts, SaveThrows;
    var options := EventOptions(liveAppend);
    if !ShouldExtendPostCoverage(w.cache.coverage, options, [post]) {
      OverlayKeepsSound(w.log, w.cache, [post], options);
      if w.pull.Some? {
        CarefulKeepsPull(w.log, w.cache, next.cache, w.pull.value);
      }
    } else if w.cache.coverage.Some? {
      LiveAppendKeepsSound(w.log, w.cache, post);
      if w.pull.Some? {
        LiveKeepsPull(w.log, w.cache, next.cache, w.pull.value);
      }
    } else {
      StartKeepsInvIff(w, post, next);
    }
  }

  lemma SoundIsWellFormed(log: Log, cache: Cache)
    requires Sound(log, cache)
    ensures WellFormed(log) && Known(cache) <= |log|
  {
  }

  lemma CarefulKeepsInv(w: World, next: World)
    requires Inv(w) && Sound(w.log, next.cache) && Careful(w.log, w.cache, next.cache)
    requires next == w.(cache := next.cache)
    ensures Inv(next)
  {
    hide Sound, Careful;
    if w.pull.Some? {
      CarefulKeepsPull(w.log, w.cache, next.cache, w.pull.value);
    }
  }

  lemma ChangeKeepsInv(w: World, entry: Entry, next: World)
    requires Inv(w) && Next(w, Change(entry), next)
    ensures Inv(next)
  {
    hide Sound, WellFormed;
    SoundIsWellFormed(w.log, w.cache);
    ServerKeepsSound(w.log, next.log, w.cache);
    if w.pull.Some? {
      ServerKeepsPull(w.log, next.log, w.cache, w.pull.value);
    }
  }

  lemma SnapshotKeepsInv(w: World, step: Step, next: World)
    requires Inv(w) && Next(w, step, next) && (step.PullSnapshot? || step.PullTarget?)
    ensures Inv(next)
  {
    hide Sound;
    assert w.log[..|w.log|] == w.log;
  }

  /** Everything but a live event that starts a window unfit for the pull in
      flight, a pull that starts too late and a page that publishes too much keeps
      the invariant, whatever the interleaving. */
  lemma StepKeepsInv(w: World, step: Step, next: World)
    requires Inv(w) && Next(w, step, next) && Fits(w, step)
    ensures Inv(next)
  {
    hide Sound, Careful, AdvancePostRevision, SavePosts, ReconcilePostPage, PullSound, Has, Answers, SaveThrows;
    match step
    case Change(entry) => ChangeKeepsInv(w, entry, next);
    case Page(request, limit, incoming) =>
      PageKeepsSound(w.log, w.cache, request, limit, incoming);
      CarefulKeepsInv(w, next);
    case PagePublish(revision) => PublishKeepsInvIff(w, revision, next);
    case Event(post, liveAppend) => EventKeepsInv(w, post, liveAppend, next);
    case Evict(doomed) =>
      EvictKeepsSound(w.log, w.cache, doomed, next.cache);
      CarefulKeepsInv(w, next);
    case Clear =>
      SoundIsWellFormed(w.log, w.cache);
      ClearKeepsSound(w.log, w.cache);
      CarefulKeepsInv(w, next);
    case PullSnapshot => SnapshotKeepsInv(w, step, next);
    case PullTarget(through) => SnapshotKeepsInv(w, step, next);
    case PullSkip =>
    case PullRead(after) => ReadKeepsInvIff(w, after, next);
    case PullPage(limit, page, users) => PageContinuesPull(w, limit, page, users, next);
    case PullReadCoverage => CommitBegins(w, next);
    case PullSaveRows => RowsAreSaved(w, next);
    case PullAppend => RowsAreAppended(w, next);
    case PullAdvance => RevisionIsPublished(w, next);
    case PullAbandon =>
  }

  // --- whole runs ---------------------------------------------------------------------------

  ghost predicate IsPath(worlds: seq<World>, steps: seq<Step>) {
    && |worlds| == |steps| + 1
    && forall i :: 0 <= i < |steps| ==> Next(worlds[i], steps[i], worlds[i + 1])
  }

  ghost predicate IsRun(worlds: seq<World>, steps: seq<Step>) {
    IsPath(worlds, steps) && worlds[0] == INITIAL
  }

  /** No step disturbs the pull that is then in flight, if any. */
  ghost predicate Undisturbed(worlds: seq<World>, steps: seq<Step>)
    requires |worlds| == |steps| + 1
  {
    forall i :: 0 <= i < |steps| ==> Fits(worlds[i], steps[i])
  }

  predicate AllGuarded(worlds: seq<World>, steps: seq<Step>)
    requires |worlds| == |steps| + 1
  {
    forall i :: 0 <= i < |steps| ==> Guarded(worlds[i], steps[i])
  }

  lemma {:induction false} PathKeepsInv(worlds: seq<World>, steps: seq<Step>, k: nat)
    requires IsPath(worlds, steps) && Undisturbed(worlds, steps) && Inv(worlds[0]) && k <= |steps|
    ensures Inv(worlds[k])
  {
    hide Inv, Next, Fits;
    if k > 0 {
      PathKeepsInv(worlds, steps, k - 1);
      StepKeepsInv(worlds[k - 1], steps[k - 1], worlds[k]);
    }
  }

  lemma InitialIsSound()
    ensures Inv(INITIAL)
  {
    EmptyIsSound([]);
  }

  lemma RunKeepsInv(worlds: seq<World>, steps: seq<Step>, k: nat)
    requires IsRun(worlds, steps) && Undisturbed(worlds, steps) && k <= |steps|
    ensures Inv(worlds[k])
  {
    hide Inv, Next, Fits;
    InitialIsSound();
    PathKeepsInv(worlds, steps, k);
  }

  /** Steps that the device has checked disturb nothing. */
  lemma {:induction false} GuardedRunKeepsInv(worlds: seq<World>, steps: seq<Step>, k: nat)
    requires IsRun(worlds, steps) && AllGuarded(worlds, steps) && k <= |steps|
    ensures Inv(worlds[k])
  {
    hide PullSound, Next, Fits, Guarded, Sound;
    if k == 0 {
      InitialIsSound();
    } else {
      GuardedRunKeepsInv(worlds, steps, k - 1);
      SoundIsWellFormed(worlds[k - 1].log, worlds[k - 1].cache);
      GuardedFits(worlds[k - 1], steps[k - 1]);
      StepKeepsInv(worlds[k - 1], steps[k - 1], worlds[k]);
    }
  }

  /** What a reader of the cache relies on: up to the known revision, the server
      posts inside the window are stored in their present versions. */
  ghost predicate Agrees(log: Log, cache: Cache) {
    forall r: nat :: InWindow(log, cache, r) && r <= Known(cache) ==>
      Exact(log, cache.posts, r) && Shows(Version(log, r), cache.posts[Version(log, r).id].content)
  }

  lemma SoundAgrees(log: Log, cache: Cache)
    requires Sound(log, cache)
    ensures Agrees(log, cache)
  {
    hide NothingPast, ReachesOldest, SumSound;
  }

  /** The main claim of the cache: in every run in which no step disturbs a pull
      the window agrees with the server. */
  lemma WindowAgreesWithServer(worlds: seq<World>, steps: seq<Step>, k: nat)
    requires IsRun(worlds, steps) && Undisturbed(worlds, steps) && k <= |steps|
    ensures Agrees(worlds[k].log, worlds[k].cache)
  {
    RunKeepsInv(worlds, steps, k);
    SoundAgrees(worlds[k].log, worlds[k].cache);
  }

  /** The same for the runs of a device that checks its steps. */
  lemma GuardedWindowAgrees(worlds: seq<World>, steps: seq<Step>, k: nat)
    requires IsRun(worlds, steps) && AllGuarded(worlds, steps) && k <= |steps|
    ensures Agrees(worlds[k].log, worlds[k].cache)
  {
    GuardedRunKeepsInv(worlds, steps, k);
    SoundAgrees(worlds[k].log, worlds[k].cache);
  }

  /** The window holds exactly the server's present posts of its interval. */
  ghost predicate Equals(log: Log, cache: Cache) {
    && (forall r: nat :: InWindow(log, cache, r) ==> Exact(log, cache.posts, r))
    && (forall id :: id in cache.posts ==> Current(log, cache.posts[id].revision))
  }

  lemma UpToDateWindowEquals(log: Log, cache: Cache)
    requires Sound(log, cache) && Known(cache) == |log|
    ensures Equals(log, cache)
  {
    hide NothingPast, ReachesOldest, SumSound;
    forall id | id in cache.posts ensures Current(log, cache.posts[id].revision) {
      var latest := LatestVersion(log, cache.posts[id].revision);
      assert InWindow(log, cache, latest);
    }
  }

  /** Equal sums mean that nothing was created or edited since the sum was
      stored, so skipping the pull loses nothing. */
  lemma SkippedPullLosesNothing(log: Log, cache: Cache, through: nat)
    requires Sound(log, cache) && cache.coverage.Some? && through <= |log|
    requires cache.coverage.value.revisionSum == SumOf(log, through)
    ensures through <= Known(cache)
    ensures through == |log| ==> Equals(log, cache)
  {
    if cache.coverage.value.revisionSum == 0 {
      SumIsMonotone([], log[..through]);
    } else {
      var known: nat :|
        known <= Known(cache) && known <= |log| && SumOf(log, known) == cache.coverage.value.revisionSum;
      if known <= through {
        SumIsMonotone(log[..known], log[..through]);
      }
    }
    if through == |log| {
      UpToDateWindowEquals(log, cache);
    }
  }
}
