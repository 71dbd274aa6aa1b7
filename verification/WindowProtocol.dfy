/** One conversation seen by one device: the server moves, pages and events
    arrive, rows are evicted, and one revision pull is under way, its
    transactions interleaved with all the rest. Two kinds of pull commit alike:
    the sync round, which starts at the known revision and knows the revision
    sum of the server, and the one of an open chat, which starts wherever the
    chat believes to be. */
module WindowProtocol {
  import opened Basics
  import opened PostModel
  import opened PostCollisions
  import opened PostWindow
  import opened WindowInvariant
  import opened WindowSteps

  /** How far a pull has come. `edge` is the newest end of the window when the
      pull began to commit. */
  datatype Pull =
    | Snapped(through: nat, sum: Option<nat>)
    | Collecting(through: nat, sum: Option<nat>, after: nat, cursor: nat, rows: seq<Post>, done: bool)
    | Overlaying(through: nat, sum: Option<nat>, rows: seq<Post>, appended: seq<Post>, edge: nat)
    | Appending(through: nat, sum: Option<nat>, appended: seq<Post>, edge: nat)
    | Advancing(through: nat, sum: Option<nat>)

  datatype World = World(log: Log, cache: Cache, pull: Option<Pull>)

  datatype Step =
    | Change(entry: Entry)
    | Page(request: Request, limit: nat, incoming: seq<Post>)
    | PagePublish(revision: nat)
    | Event(post: Post, liveAppend: bool)
    | Evict(doomed: set<PostId>)
    | Clear
    | PullSnapshot
    | PullTarget(through: nat)
    | PullSkip
    | PullRead(after: nat)
    | PullPage(limit: nat, page: seq<Post>, users: Users)
    | PullReadCoverage
    | PullSaveRows
    | PullAppend
    | PullAdvance
    | PullAbandon

  const INITIAL: World := World([], EMPTY_CACHE, None)

  function EventOptions(liveAppend: bool): SaveOptions { SaveOptions(false, liveAppend, false, liveAppend) }

  /** The revisions of the next page of a pull. */
  function PageRevisions(log: Log, pull: Pull, limit: nat): seq<nat>
    requires pull.Collecting? && pull.through <= |log|
  {
    var revisions := ChangedRevisions(log, pull.cursor, pull.through);
    revisions[..Min(limit, |revisions|)]
  }

  /** These are rows of these revisions, in this order. */
  predicate Renders(log: Log, revisions: seq<nat>, page: seq<Post>) {
    && |page| == |revisions|
    && forall k :: 0 <= k < |page| ==> page[k].revision == revisions[k] && Genuine(log, page[k])
  }

  /** The pull after one more page. */
  function WithPage(pull: Pull, page: seq<Post>, limit: nat): Pull
    requires pull.Collecting? && 1 <= limit
  {
    if |page| < limit then pull.(rows := pull.rows + page, cursor := Max(pull.cursor, pull.through), done := true)
    else pull.(rows := pull.rows + page, cursor := page[|page| - 1].revision)
  }

  /** A page is saved as it came, an aborted save is passed over, and the pull
      goes on with its rows with names put in. An aborted save of the commit
      ends the pull. */
  ghost predicate Next(w: World, step: Step, next: World) {
    match step
    case Change(entry) => WellFormed(w.log + [entry]) && next == w.(log := w.log + [entry])
    case Page(request, limit, incoming) =>
      && Answers(w.log, w.cache, request, limit, incoming)
      && next == w.(cache := ReconcilePostPage(w.cache, request, incoming, |incoming| < limit))
    case PagePublish(revision) =>
      revision <= |w.log| && next == w.(cache := AdvancePostRevision(w.cache, revision, None))
    case Event(post, liveAppend) =>
      && Genuine(w.log, post)
      && next == w.(cache := SavePosts(w.cache, [post], EventOptions(liveAppend)))
    case Evict(doomed) => EvictedTo(w.cache, doomed, next.cache) && next == w.(cache := next.cache)
    case Clear => next == w.(cache := EMPTY_CACHE)
    case PullSnapshot => w.pull.None? && next == w.(pull := Some(Snapped(|w.log|, Some(RevisionSum(w.log)))))
    case PullTarget(through) =>
      w.pull.None? && through <= |w.log| && next == w.(pull := Some(Snapped(through, None)))
    case PullSkip =>
      && w.pull.Some? && w.pull.value.Snapped?
      && w.cache.coverage.Some? && w.pull.value.sum == Some(w.cache.coverage.value.revisionSum)
      && next == w.(pull := None)
    case PullRead(after) =>
      && w.pull.Some? && w.pull.value.Snapped?
      && var p := w.pull.value;
         && (if p.sum.Some? then after == Known(w.cache) else after < p.through)
         && next == w.(pull := Some(Collecting(p.through, p.sum, after, after, [], p.through <= after)))
    case PullPage(limit, page, users) =>
      && 1 <= limit && w.pull.Some? && w.pull.value.Collecting? && !w.pull.value.done && w.pull.value.through <= |w.log|
      && Renders(w.log, PageRevisions(w.log, w.pull.value, limit), page)
      && next == World(w.log, SavePosts(w.cache, page, OVERLAY),
                       Some(WithPage(w.pull.value, AllMaterialized(page, users), limit)))
    case PullReadCoverage =>
      && w.pull.Some? && w.pull.value.Collecting? && w.pull.value.done
      && next == w.(pull := if w.cache.coverage.None? then None else Some(CommitOf(w.pull.value, w.cache.coverage)))
    case PullSaveRows =>
      && w.pull.Some? && w.pull.value.Overlaying?
      && var p := w.pull.value;
         next == if SaveThrows(w.cache, p.rows, OVERLAY) then w.(pull := None)
                 else World(w.log, SavePosts(w.cache, p.rows, OVERLAY),
                            Some(Appending(p.through, p.sum, p.appended, p.edge)))
    case PullAppend =>
      && w.pull.Some? && w.pull.value.Appending?
      && var p := w.pull.value;
         next == if SaveThrows(w.cache, p.appended, APPEND_OPTIONS) then w.(pull := None)
                 else World(w.log, SavePosts(w.cache, p.appended, APPEND_OPTIONS), Some(Advancing(p.through, p.sum)))
    case PullAdvance =>
      && w.pull.Some? && w.pull.value.Advancing?
      && var p := w.pull.value;
         next == World(w.log, AdvancePostRevision(w.cache, p.through, p.sum), None)
    case PullAbandon => next == w.(pull := None)
  }

  /** The pull when its commit has read the coverage. */
  function CommitOf(pull: Pull, coverage: Option<Coverage>): Pull
    requires pull.Collecting? && coverage.Some?
  {
    Overlaying(pull.through, pull.sum, pull.rows, Appended(coverage, pull.rows), coverage.value.newest.order)
  }

  /** A live event that starts a window. */
  predicate StartsWindow(w: World, step: Step) { step.Event? && step.liveAppend && w.cache.coverage.None? }

  // --- what a pull relies on ----------------------------------------------------------------

  /** Every present version with a revision in the range has been collected. */
  ghost predicate Collected(log: Log, after: nat, through: nat, rows: seq<Post>) {
    forall r: nat :: after < r <= through && Current(log, r) ==> Has(rows, r)
  }

  /** Rows of different posts, each present when the server was at this revision. */
  ghost predicate PulledRows(log: Log, through: nat, rows: seq<Post>)
    requires through <= |log|
  {
    && AllGenuine(log, rows) && Distinct(rows)
    && forall row :: row in rows ==> row.revision <= through && Current(log[..through], row.revision)
  }

  /** What the window lacks up to a revision is among these rows. */
  ghost predicate Pending(log: Log, cache: Cache, through: nat, rows: seq<Post>) {
    forall r: nat :: InWindow(log, cache, r) && r <= through ==> Exact(log, cache.posts, r) || Has(rows, r)
  }

  /** Everything past the edge that the pull is about is appended. */
  ghost predicate AppendComplete(log: Log, through: nat, edge: nat, appended: seq<Post>) {
    && (forall row :: row in appended ==> edge < row.sequence)
    && (forall r: nat :: Current(log, r) && r <= through && edge < Version(log, r).sequence ==> Has(appended, r))
  }

  /** What the pull is about and lies past the window also lies past the edge. */
  ghost predicate PastEdge(log: Log, cache: Cache, through: nat, edge: nat) {
    forall r: nat :: Past(log, cache, r) && r <= through ==> edge < Version(log, r).sequence
  }

  /** What the window knows beyond the pull lies before all that is appended. */
  ghost predicate KnownBehind(log: Log, cache: Cache, through: nat, appended: seq<Post>) {
    forall r: nat, row :: Current(log, r) && through < r <= Known(cache) && row in appended ==>
      Version(log, r).sequence < row.sequence
  }

  /** Up to a revision the window is as the server has it, and reaches the newest post. */
  ghost predicate AgreesUpTo(log: Log, cache: Cache, through: nat) {
    ExactUpTo(log, cache, through) && NothingPast(log, cache, through)
  }

  ghost predicate PullSound(log: Log, cache: Cache, pull: Pull) {
    && pull.through <= |log| && (pull.sum.Some? ==> pull.sum.value == SumOf(log, pull.through))
    && match pull
       case Snapped(_, _) => true
       case Collecting(through, _, after, cursor, rows, done) =>
         && after <= cursor <= |log| && cursor <= Max(after, through) && (done ==> through <= cursor)
         && PulledRows(log, through, rows)
         && (forall row :: row in rows ==> after < row.revision <= cursor)
         && Collected(log, after, cursor, rows)
         && AgreesUpTo(log, cache, Min(after, through))
       case Overlaying(through, _, rows, appended, edge) =>
         && PulledRows(log, through, rows)
         && PulledRows(log, through, appended) && (forall row :: row in appended ==> row in rows)
         && Pending(log, cache, through, rows)
         && AppendComplete(log, through, edge, appended)
         && PastEdge(log, cache, through, edge) && KnownBehind(log, cache, through, appended)
       case Appending(through, _, appended, edge) =>
         && PulledRows(log, through, appended)
         && Pending(log, cache, through, appended)
         && AppendComplete(log, through, edge, appended)
         && PastEdge(log, cache, through, edge) && KnownBehind(log, cache, through, appended)
       case Advancing(through, _) => AgreesUpTo(log, cache, through)
  }

  ghost predicate Inv(w: World) {
    Sound(w.log, w.cache) && (w.pull.Some? ==> PullSound(w.log, w.cache, w.pull.value))
  }

  // --- interference with a pull -------------------------------------------------------------

  lemma CarefulKeepsAgreement(log: Log, before: Cache, after: Cache, through: nat)
    requires Careful(log, before, after) && AgreesUpTo(log, before, through)
    ensures AgreesUpTo(log, after, through)
  {
  }

  lemma CarefulKeepsPull(log: Log, before: Cache, after: Cache, pull: Pull)
    requires PullSound(log, before, pull) && Careful(log, before, after)
    ensures PullSound(log, after, pull)
  {
    hide PulledRows, Collected, AppendComplete, Careful, Has, AgreesUpTo, KnownBehind;
    match pull
    case Snapped(_, _) =>
    case Collecting(through, _, known, _, _, _) =>
      CarefulKeepsAgreement(log, before, after, Min(known, through));
    case Overlaying(through, _, rows, _, edge) =>
      CarefulKeepsPending(log, before, after, through, edge, rows);
      CarefulKeepsBehind(log, before, after, through, pull.appended);
    case Appending(through, _, appended, edge) =>
      CarefulKeepsPending(log, before, after, through, edge, appended);
      CarefulKeepsBehind(log, before, after, through, appended);
    case Advancing(through, _) =>
      CarefulKeepsAgreement(log, before, after, through);
  }

  lemma CarefulKeepsPending(log: Log, before: Cache, after: Cache, through: nat, edge: nat, rows: seq<Post>)
    requires Careful(log, before, after) && Pending(log, before, through, rows)
    requires PastEdge(log, before, through, edge)
    ensures Pending(log, after, through, rows) && PastEdge(log, after, through, edge)
  {
    hide Has;
  }

  lemma CarefulKeepsBehind(log: Log, before: Cache, after: Cache, through: nat, appended: seq<Post>)
    requires (Careful(log, before, after) || Live(log, before, after)) && KnownBehind(log, before, through, appended)
    ensures KnownBehind(log, after, through, appended)
  {
  }

  lemma LiveKeepsAgreement(log: Log, before: Cache, after: Cache, through: nat)
    requires Live(log, before, after) && AgreesUpTo(log, before, through)
    ensures AgreesUpTo(log, after, through)
  {
  }

  lemma LiveKeepsPull(log: Log, before: Cache, after: Cache, pull: Pull)
    requires PullSound(log, before, pull) && Live(log, before, after)
    ensures PullSound(log, after, pull)
  {
    hide PulledRows, Collected, Live, Has, AgreesUpTo, KnownBehind;
    match pull
    case Snapped(_, _) =>
    case Collecting(through, _, known, _, _, _) =>
      LiveKeepsAgreement(log, before, after, Min(known, through));
    case Overlaying(through, _, rows, appended, edge) =>
      LiveKeepsPending(log, before, after, through, edge, rows, appended);
      CarefulKeepsBehind(log, before, after, through, appended);
    case Appending(through, _, appended, edge) =>
      LiveKeepsPending(log, before, after, through, edge, appended, appended);
      CarefulKeepsBehind(log, before, after, through, appended);
    case Advancing(through, _) =>
      LiveKeepsAgreement(log, before, after, through);
  }

  lemma LiveKeepsPending(
    log: Log, before: Cache, after: Cache, through: nat, edge: nat, rows: seq<Post>, appended: seq<Post>)
    requires Live(log, before, after) && Pending(log, before, through, rows)
    requires AppendComplete(log, through, edge, appended) && (forall row :: row in appended ==> row in rows)
    requires PastEdge(log, before, through, edge)
    ensures Pending(log, after, through, rows) && PastEdge(log, after, through, edge)
  {
    forall r: nat | InWindow(log, after, r) && r <= through ensures Exact(log, after.posts, r) || Has(rows, r) {
      if Past(log, before, r) {
        var row :| row in appended && row.revision == r;
      }
    }
  }

  lemma ServerKeepsPull(before: Log, after: Log, cache: Cache, pull: Pull)
    requires PullSound(before, cache, pull) && Grows(before, after) && Known(cache) <= |before|
    ensures PullSound(after, cache, pull)
  {
    hide PulledRows, Collected, Has, Pending, AppendComplete, PastEdge, KnownBehind, AgreesUpTo, WellFormed;
    assert before[..pull.through] == after[..pull.through];
    match pull
    case Snapped(_, _) =>
    case Collecting(through, _, known, cursor, rows, _) =>
      ServerKeepsAgreement(before, after, cache, Min(known, through));
      ServerKeepsCollected(before, after, known, cursor, rows);
      ServerKeepsRows(before, after, through, rows);
    case Overlaying(through, _, rows, appended, edge) =>
      ServerKeepsPending(before, after, cache, through, rows);
      ServerKeepsEdge(before, after, cache, through, edge, appended);
      ServerKeepsAppended(before, after, through, edge, appended);
      ServerKeepsRows(before, after, through, rows);
      ServerKeepsRows(before, after, through, appended);
    case Appending(through, _, appended, edge) =>
      ServerKeepsPending(before, after, cache, through, appended);
      ServerKeepsEdge(before, after, cache, through, edge, appended);
      ServerKeepsAppended(before, after, through, edge, appended);
      ServerKeepsRows(before, after, through, appended);
    case Advancing(through, _) =>
      ServerKeepsAgreement(before, after, cache, through);
  }

  lemma ServerKeepsAgreement(before: Log, after: Log, cache: Cache, through: nat)
    requires before <= after && through <= |before| && AgreesUpTo(before, cache, through)
    ensures AgreesUpTo(after, cache, through)
  {
    ServerKeepsExact(before, after, cache, through);
    ServerKeepsPast(before, after, cache, through);
  }

  lemma ServerKeepsRows(before: Log, after: Log, through: nat, rows: seq<Post>)
    requires before <= after && through <= |before| && PulledRows(before, through, rows)
    ensures PulledRows(after, through, rows)
  {
    assert before[..through] == after[..through];
  }

  /** A post that changes while its page is under way leaves the range. */
  lemma ServerKeepsCollected(before: Log, after: Log, known: nat, cursor: nat, rows: seq<Post>)
    requires before <= after && cursor <= |before| && Collected(before, known, cursor, rows)
    ensures Collected(after, known, cursor, rows)
  {
    forall r: nat | known < r <= cursor && Current(after, r) ensures Has(rows, r) {
      CurrentWas(before, after, r);
    }
  }

  lemma ServerKeepsPending(before: Log, after: Log, cache: Cache, through: nat, rows: seq<Post>)
    requires before <= after && through <= |before|
    requires Pending(before, cache, through, rows)
    ensures Pending(after, cache, through, rows)
  {
    hide Has;
    forall r: nat | InWindow(after, cache, r) && r <= through ensures Exact(after, cache.posts, r) || Has(rows, r) {
      CurrentWas(before, after, r);
      assert InWindow(before, cache, r);
    }
  }

  lemma ServerKeepsEdge(before: Log, after: Log, cache: Cache, through: nat, edge: nat, appended: seq<Post>)
    requires before <= after && through <= |before| && Known(cache) <= |before|
    requires PastEdge(before, cache, through, edge) && KnownBehind(before, cache, through, appended)
    ensures PastEdge(after, cache, through, edge) && KnownBehind(after, cache, through, appended)
  {
    forall r: nat | Past(after, cache, r) && r <= through ensures edge < Version(after, r).sequence {
      CurrentWas(before, after, r);
      assert Past(before, cache, r);
    }
    forall r: nat, row | Current(after, r) && through < r <= Known(cache) && row in appended
      ensures Version(after, r).sequence < row.sequence
    {
      CurrentWas(before, after, r);
    }
  }

  lemma ServerKeepsAppended(before: Log, after: Log, through: nat, edge: nat, appended: seq<Post>)
    requires before <= after && through <= |before| && AppendComplete(before, through, edge, appended)
    ensures AppendComplete(after, through, edge, appended)
  {
    hide Has;
    forall r: nat | Current(after, r) && r <= through && edge < Version(after, r).sequence
      ensures Has(appended, r)
    {
      CurrentWas(before, after, r);
    }
  }

  // --- the steps of a pull ------------------------------------------------------------------

  /** Nothing between the known revision and this one is missing inside the
      window or lies past it. */
  ghost predicate NothingLeftOut(log: Log, cache: Cache, through: nat) {
    forall r: nat :: Known(cache) < r <= through && Current(log, r) ==>
      && (InWindow(log, cache, r) ==> Exact(log, cache.posts, r))
      && !Past(log, cache, r)
  }

  ghost predicate ReadFits(w: World, after: nat)
    requires w.pull.Some?
  {
    NothingLeftOut(w.log, w.cache, Min(after, w.pull.value.through))
  }

  /** A page may publish a revision along with its rows. */
  ghost predicate PublishFits(w: World, revision: nat) {
    && NothingLeftOut(w.log, w.cache, revision)
    && (w.pull.Some? ==>
          var published := AdvancePostRevision(w.cache, revision, None);
          match w.pull.value
          case Overlaying(through, _, _, appended, _) => KnownBehind(w.log, published, through, appended)
          case Appending(through, _, appended, _) => KnownBehind(w.log, published, through, appended)
          case _ => true)
  }

  /** The revision that a page publishes keeps the invariant exactly when nothing
      the window needs was left out up to it, and a commit under way appends
      nothing before what it then knows. */
  lemma PublishKeepsInvIff(w: World, revision: nat, next: World)
    requires Inv(w) && Next(w, PagePublish(revision), next)
    ensures Inv(next) <==> PublishFits(w, revision)
  {
    hide Sound, Has, PulledRows, Collected, AppendComplete, KnownBehind;
    KnownIsSound(w.log, w.cache);
    PublishedWindow(w.log, w.cache, revision);
    if NothingLeftOut(w.log, w.cache, revision) {
      AdvanceKeepsSound(w.log, w.cache, revision, None);
    } else if Sound(next.log, next.cache) {
      KnownIsSound(next.log, next.cache);
    }
  }

  /** Publishing moves nothing. */
  lemma PublishedWindow(log: Log, cache: Cache, revision: nat)
    ensures var after := AdvancePostRevision(cache, revision, None);
            && after.posts == cache.posts
            && Known(after) == (if cache.coverage.Some? then Max(Known(cache), revision) else 0)
            && (forall r: nat :: InWindow(log, after, r) <==> InWindow(log, cache, r))
            && (forall r: nat :: Past(log, after, r) <==> Past(log, cache, r))
    ensures cache.coverage.None? ==> NothingLeftOut(log, cache, revision)
  {
  }

  /** A pull may start anywhere, and keeps the invariant exactly when it leaves
      out nothing the window needs. */
  lemma ReadKeepsInvIff(w: World, after: nat, next: World)
    requires Inv(w) && Next(w, PullRead(after), next)
    ensures Inv(next) <==> ReadFits(w, after)
  {
    hide Sound, Has;
    KnownIsSound(w.log, w.cache);
  }

  /** Starting at the known revision, or below it, is always right. */
  lemma KnownReadFits(w: World, after: nat)
    requires w.pull.Some? && after <= Known(w.cache)
    ensures ReadFits(w, after)
  {
  }

  lemma KnownIsSound(log: Log, cache: Cache)
    requires Sound(log, cache)
    ensures Known(cache) <= |log| && AgreesUpTo(log, cache, Known(cache))
  {
  }

  lemma PageIsExact(log: Log, pull: Pull, limit: nat, page: seq<Post>)
    requires pull.Collecting? && pull.through <= |log| && 1 <= limit
    requires Renders(log, PageRevisions(log, pull, limit), page)
    ensures |page| <= limit
    ensures forall row :: row in page ==>
              Genuine(log, row) && Current(log, row.revision) && pull.cursor < row.revision <= pull.through
    ensures forall j, k :: 0 <= j < k < |page| ==> page[j].revision < page[k].revision
    ensures forall r: nat ::
              (pull.cursor < r && Current(log, r)
               && r <= if |page| < limit then pull.through else page[|page| - 1].revision)
              ==> Has(page, r)
  {
    hide Current, Genuine, Has;
    ChangedRevisionsAreExact(log, pull.cursor, pull.through);
    var all, some := ChangedRevisions(log, pull.cursor, pull.through), PageRevisions(log, pull, limit);
    assert forall k :: 0 <= k < |some| ==> some[k] == all[k] && all[k] in all;
    forall r: nat | pull.cursor < r && Current(log, r)
                  && r <= (if |page| < limit then pull.through else page[|page| - 1].revision)
      ensures Has(page, r)
    {
      assert |page| == limit ==> page[limit - 1].revision == some[limit - 1];
      assert r in all;
      var k :| 0 <= k < |all| && all[k] == r;
      assert k < |page|;
      FoundAt(page, k);
    }
  }

  lemma FoundAt(rows: seq<Post>, k: nat)
    requires k < |rows|
    ensures Has(rows, rows[k].revision)
  {
  }

  lemma NamedRows(log: Log, page: seq<Post>, users: Users)
    requires AllGenuine(log, page)
    ensures var named := AllMaterialized(page, users);
            && AllGenuine(log, named)
            && (forall r: nat :: Has(page, r) <==> Has(named, r))
            && (forall row :: row in named ==> exists k :: 0 <= k < |page| && named[k] == row)
            && (Distinct(page) ==> Distinct(named))
  {
    var named := AllMaterialized(page, users);
    forall k | 0 <= k < |page| ensures Genuine(log, named[k]) {
      assert page[k] in page;
    }
    forall r: nat ensures Has(page, r) <==> Has(named, r) {
      if Has(page, r) {
        var k :| 0 <= k < |page| && page[k].revision == r;
        FoundAt(named, k);
      }
      if Has(named, r) {
        var k :| 0 <= k < |page| && named[k].revision == r;
        FoundAt(page, k);
      }
    }
  }

  lemma PageContinuesPull(w: World, limit: nat, page: seq<Post>, users: Users, next: World)
    requires Inv(w) && Next(w, PullPage(limit, page, users), next)
    ensures Inv(next)
  {
    hide Sound, Genuine, Current, Has, Careful, SaveThrows, PageRevisions;
    var pull := w.pull.value;
    PageIsExact(w.log, pull, limit, page);
    OverlayKeepsSound(w.log, w.cache, page, OVERLAY);
    CarefulKeepsPull(w.log, w.cache, next.cache, pull);
    CollectedMore(w.log, pull, page, users, limit);
  }

  lemma CollectedMore(log: Log, pull: Pull, page: seq<Post>, users: Users, limit: nat)
    requires pull.Collecting? && pull.through <= |log| && 1 <= limit
    requires Renders(log, PageRevisions(log, pull, limit), page)
    requires PulledRows(log, pull.through, pull.rows) && Collected(log, pull.after, pull.cursor, pull.rows)
    requires forall row :: row in pull.rows ==> pull.after < row.revision <= pull.cursor
    requires pull.after <= pull.cursor <= |log| && pull.cursor <= Max(pull.after, pull.through)
    ensures var more := WithPage(pull, AllMaterialized(page, users), limit);
            && more.after <= more.cursor <= |log| && more.cursor <= Max(more.after, more.through)
            && (more.done && !pull.done ==> more.through <= more.cursor)
            && PulledRows(log, more.through, more.rows)
            && (forall row :: row in more.rows ==> more.after < row.revision <= more.cursor)
            && Collected(log, more.after, more.cursor, more.rows)
  {
    hide Genuine, Current, Has, Renders, Distinct, AllGenuine, PulledRows, Collected, AllMaterialized;
    PageIsExact(log, pull, limit, page);
    var named := AllMaterialized(page, users);
    NamedPage(log, pull, page, users, limit);
    var more := WithPage(pull, named, limit);
    PulledMore(log, pull.through, pull.cursor, pull.rows, named);
    CollectedFurther(log, pull.after, pull.cursor, more.cursor, pull.rows, named);
  }

  /** Putting names in changes nothing of what a pull relies on. */
  lemma NamedPage(log: Log, pull: Pull, page: seq<Post>, users: Users, limit: nat)
    requires pull.Collecting? && pull.through <= |log| && 1 <= limit
    requires Renders(log, PageRevisions(log, pull, limit), page)
    ensures var named := AllMaterialized(page, users);
            var cursor := WithPage(pull, named, limit).cursor;
            && AllGenuine(log, named) && |named| <= limit
            && cursor == (if |page| < limit then Max(pull.cursor, pull.through) else page[|page| - 1].revision)
            && (forall row :: row in named ==>
                  pull.cursor < row.revision <= pull.through && row.revision <= cursor && Current(log, row.revision))
            && (forall j, k :: 0 <= j < k < |named| ==> named[j].revision < named[k].revision)
            && (|named| == limit ==> pull.cursor < cursor <= pull.through)
            && (forall r: nat :: pull.cursor < r <= cursor && Current(log, r) && r <= pull.through ==> Has(named, r))
  {
    hide Genuine, Current, Has, Renders, PageRevisions, Distinct;
    PageIsExact(log, pull, limit, page);
    NamedRows(log, page, users);
    var named := AllMaterialized(page, users);
    forall row | row in named
      ensures pull.cursor < row.revision <= pull.through && Current(log, row.revision)
      ensures |page| == limit ==> row.revision <= page[limit - 1].revision
    {
      var k :| 0 <= k < |page| && named[k] == row;
      assert page[k] in page;
    }
    if |page| == limit {
      assert page[limit - 1] in page;
    }
  }

  lemma CollectedFurther(log: Log, after: nat, cursor: nat, further: nat, rows: seq<Post>, page: seq<Post>)
    requires Collected(log, after, cursor, rows)
    requires forall r: nat :: cursor < r <= further && Current(log, r) ==> Has(page, r)
    ensures Collected(log, after, further, rows + page)
  {
    hide Has, Current;
    forall r: nat | after < r <= further && Current(log, r) ensures Has(rows + page, r) {
      HasEither(rows, page, r);
    }
  }

  lemma HasEither(first: seq<Post>, second: seq<Post>, r: nat)
    ensures Has(first + second, r) <==> Has(first, r) || Has(second, r)
  {
    if Has(first, r) {
      var row :| row in first && row.revision == r;
      assert row in first + second;
    }
    if Has(second, r) {
      var row :| row in second && row.revision == r;
      assert row in first + second;
    }
  }

  /** Later pages hold other posts: a post changed since is not in an earlier page. */
  lemma PulledMore(log: Log, through: nat, cursor: nat, rows: seq<Post>, page: seq<Post>)
    requires through <= |log| && PulledRows(log, through, rows) && AllGenuine(log, page)
    requires forall row :: row in rows ==> row.revision <= cursor
    requires forall row :: row in page ==> cursor < row.revision <= through && Current(log, row.revision)
    requires forall j, k :: 0 <= j < k < |page| ==> page[j].revision < page[k].revision
    ensures PulledRows(log, through, rows + page)
  {
    hide Current, Genuine;
    var was, both := log[..through], rows + page;
    forall row | row in page ensures Current(was, row.revision) {
      CurrentWas(was, log, row.revision);
    }
    forall j, k | 0 <= j < k < |both| ensures both[j].id != both[k].id {
      if k >= |rows| {
        assert both[j] in both && both[k] in both && both[k] in page;
        assert both[j].revision < both[k].revision by {
          assert j < |rows| ==> both[j] in rows;
        }
        if both[j].id == both[k].id {
          SamePresent(log, was, both[j], both[k]);
        }
      }
    }
  }

  lemma SamePresent(log: Log, was: Log, first: Post, second: Post)
    requires was <= log && Genuine(log, first) && Genuine(log, second) && first.id == second.id
    requires Current(was, first.revision) && Current(was, second.revision)
    ensures first.revision == second.revision
  {
    CurrentIsUnique(was, first.revision, second.revision);
  }

  lemma CommitBegins(w: World, next: World)
    requires Inv(w) && Next(w, PullReadCoverage, next)
    ensures Inv(next)
  {
    hide Sound, Has, Genuine, PastEdge, KnownBehind;
    if w.cache.coverage.Some? {
      var pull := w.pull.value;
      SoundReachesNewest(w.log, w.cache);
      AppendedAreComplete(w.log, w.cache, pull);
      AppendedIsDistinct(w.cache.coverage, pull.rows);
      KnownIsSound(w.log, w.cache);
      NewestIsEdge(w.log, w.cache, pull.through, Appended(w.cache.coverage, pull.rows));
      forall r: nat | InWindow(w.log, w.cache, r) && r <= pull.through
        ensures Exact(w.log, w.cache.posts, r) || Has(pull.rows, r)
      {
      }
    }
  }

  lemma NewestIsEdge(log: Log, cache: Cache, through: nat, appended: seq<Post>)
    requires cache.coverage.Some? && AgreesUpTo(log, cache, Known(cache))
    requires forall row :: row in appended ==> cache.coverage.value.newest.order < row.sequence
    ensures PastEdge(log, cache, through, cache.coverage.value.newest.order)
    ensures KnownBehind(log, cache, through, appended)
  {
    forall r: nat | Current(log, r) && r <= Known(cache)
      ensures Version(log, r).sequence <= cache.coverage.value.newest.order
    {
      assert !Past(log, cache, r);
    }
  }

  lemma AppendedAreComplete(log: Log, cache: Cache, pull: Pull)
    requires PullSound(log, cache, pull) && pull.Collecting? && pull.done
    requires cache.coverage.Some? && cache.coverage.value.reachedNewest
    ensures AppendComplete(log, pull.through, cache.coverage.value.newest.order, Appended(cache.coverage, pull.rows))
  {
    var edge, appended := cache.coverage.value.newest.order, Appended(cache.coverage, pull.rows);
    forall r: nat | Current(log, r) && r <= pull.through && edge < Version(log, r).sequence ensures Has(appended, r) {
      assert Past(log, cache, r);
      assert Has(pull.rows, r);
      var row :| row in pull.rows && row.revision == r;
      assert row in appended;
    }
  }

  lemma SoundReachesNewest(log: Log, cache: Cache)
    requires Sound(log, cache) && cache.coverage.Some?
    ensures cache.coverage.value.reachedNewest
  {
  }

  lemma RowsAreSaved(w: World, next: World)
    requires Inv(w) && Next(w, PullSaveRows, next)
    ensures Inv(next)
  {
    hide Sound, Has, SaveThrows, Careful, SavePosts, PastEdge, KnownBehind, AppendComplete, PulledRows;
    var pull := w.pull.value;
    if !SaveThrows(w.cache, pull.rows, OVERLAY) {
      RowsAreGenuine(w.log, pull.through, pull.rows);
      OverlayKeepsSound(w.log, w.cache, pull.rows, OVERLAY);
      CarefulKeepsPull(w.log, w.cache, next.cache, pull);
      forall r: nat | InWindow(w.log, next.cache, r) && r <= pull.through
        ensures Exact(w.log, next.cache.posts, r)
      {
        assert InWindow(w.log, w.cache, r);
      }
    }
  }

  lemma RowsAreGenuine(log: Log, through: nat, rows: seq<Post>)
    requires through <= |log| && PulledRows(log, through, rows)
    ensures AllGenuine(log, rows)
  {
  }

  /** Appending may bridge a gap to a window that was replaced meanwhile, or
      start a window where there is none; what it newly spans lies past the edge. */
  lemma AppendedSpan(log: Log, cache: Cache, through: nat, edge: nat, appended: seq<Post>, after: Cache, r: nat)
    requires Spanned(cache) && AppendComplete(log, through, edge, appended)
    requires PastEdge(log, cache, through, edge) && KnownBehind(log, cache, through, appended)
    requires NothingPast(log, cache, Known(cache)) && Extended(cache, appended, APPEND_OPTIONS, after)
    requires InWindow(log, after, r) && !Inside(cache.coverage, Version(log, r).sequence)
    ensures if r <= through then Has(appended, r) else Known(cache) < r
  {
    hide Has;
    if cache.coverage.Some? && cache.coverage.value.newest.order < Version(log, r).sequence {
      assert Past(log, cache, r);
    } else {
      var row :| row in appended && row.sequence == after.coverage.value.oldest.order;
      assert edge < Version(log, r).sequence;
    }
  }

  lemma RowsAreAppended(w: World, next: World)
    requires Inv(w) && Next(w, PullAppend, next)
    ensures Inv(next)
  {
    hide Spanned, PostsGenuine, SavePosts, SumSound, ReachesOldest, ExactUpTo, NothingPast, Has, SaveThrows, PulledRows,
      AppendComplete, PastEdge, KnownBehind, Pending, AgreesUpTo, WellFormed;
    var pull := w.pull.value;
    RowsAreGenuine(w.log, pull.through, pull.appended);
    if SaveThrows(w.cache, pull.appended, APPEND_OPTIONS) {
    } else if pull.appended == [] {
      assert next.cache == w.cache by { NothingToSave(w.cache, APPEND_OPTIONS); }
      NothingPending(w.log, w.cache, pull.through, pull.edge);
    } else {
      ExtendingSave(w.log, w.cache, pull.appended, APPEND_OPTIONS);
      forall r: nat | InWindow(w.log, next.cache, r) && !Inside(w.cache.coverage, Version(w.log, r).sequence)
        ensures if r <= pull.through then Has(pull.appended, r) else Known(w.cache) < r
      {
        AppendedSpan(w.log, w.cache, pull.through, pull.edge, pull.appended, next.cache, r);
      }
      ExtendKeepsSound(w.log, w.cache, pull.appended, APPEND_OPTIONS);
      AppendedIsExact(w.log, w.cache, pull.through, pull.edge, pull.appended, next.cache);
    }
  }

  lemma NothingPending(log: Log, cache: Cache, through: nat, edge: nat)
    requires Pending(log, cache, through, []) && AppendComplete(log, through, edge, [])
    requires PastEdge(log, cache, through, edge)
    ensures AgreesUpTo(log, cache, through)
  {
    NoneHere();
  }

  lemma AppendedIsExact(log: Log, cache: Cache, through: nat, edge: nat, appended: seq<Post>, after: Cache)
    requires Pending(log, cache, through, appended)
    requires AppendComplete(log, through, edge, appended) && PastEdge(log, cache, through, edge)
    requires appended != [] && AllGenuine(log, appended) && Extended(cache, appended, APPEND_OPTIONS, after)
    requires ExactAfter(log, cache.posts, appended, cache.coverage, true, after.posts)
    requires forall r: nat ::
               InWindow(log, after, r) && !Inside(cache.coverage, Version(log, r).sequence) && r <= through ==>
                 Has(appended, r)
    ensures AgreesUpTo(log, after, through)
  {
    forall r: nat | InWindow(log, after, r) && r <= through ensures Exact(log, after.posts, r) {
      if Inside(cache.coverage, Version(log, r).sequence) {
        assert InWindow(log, cache, r);
      }
    }
  }

  lemma RevisionIsPublished(w: World, next: World)
    requires Inv(w) && Next(w, PullAdvance, next)
    ensures Inv(next)
  {
    hide Sound;
    AdvanceKeepsSound(w.log, w.cache, w.pull.value.through, w.pull.value.sum);
  }
}
