/** Three runs of the window protocol, step by step, in which one step does not
    fit and the window then claims a revision it does not hold. */
module WindowRaces {
  import opened Basics
  import opened PostModel
  import opened PostWindow
  import opened WindowBreaks
  import opened WindowInvariant
  import opened WindowMisfits
  import opened WindowProtocol
  import opened WindowRuns
  import opened WindowSteps

  const DRAFT: Entry := Entry("a", 1, None, "draft", "draft", None)
  const EDITED: Entry := Entry("a", 1, None, "edited", "edited", None)
  const OTHER: Entry := Entry("b", 2, None, "other", "other", None)

  /** A post is written and edited, and another one follows. */
  const LATEST: Log := [DRAFT, EDITED, OTHER]

  function RowOf(revision: nat): Post
    requires IsRevision(LATEST, revision)
  {
    FullRow(LATEST, revision)
  }

  lemma TwoPosts(draft: Entry, edited: Entry, other: Entry)
    requires draft.id == edited.id && draft.sequence == edited.sequence && draft.sequence > 0
    requires draft.id != other.id && draft.sequence < other.sequence
    ensures WellFormed([draft]) && WellFormed([draft, edited]) && WellFormed([draft, edited, other])
  {
    hide WellFormed;
    NoPosts();
    AppendIsWellFormed([], draft);
    assert [] + [draft] == [draft] && [draft][0].id == edited.id;
    AppendIsWellFormed([draft], edited);
    assert [draft] + [edited] == [draft, edited];
    AppendIsWellFormed([draft, edited], other);
    assert [draft, edited] + [other] == [draft, edited, other];
  }

  lemma NoPosts()
    ensures WellFormed([])
  {
  }

  lemma LatestIs()
    ensures WellFormed([DRAFT]) && WellFormed([DRAFT, EDITED]) && WellFormed(LATEST)
    ensures !Current(LATEST, 1) && Current(LATEST, 2) && Current(LATEST, 3)
    ensures Genuine([DRAFT], RowOf(1))
    ensures ChangedRevisions(LATEST, 2, 3) == [3] && ChangedRevisions(LATEST, 0, 2) == [2]
  {
    hide WellFormed;
    TwoPosts(DRAFT, EDITED, OTHER);
    assert LATEST[1].id == LATEST[0].id;
    assert !Current(LATEST, 1);
    assert ChangedRevisions(LATEST, 0, 0) == [] && ChangedRevisions(LATEST, 0, 1) == [];
    assert ChangedRevisions(LATEST, 2, 2) == [];
  }

  lemma LatestGrows()
    ensures [] + [DRAFT] == [DRAFT] && [DRAFT] + [EDITED] == [DRAFT, EDITED] && [DRAFT, EDITED] + [OTHER] == LATEST
  {
  }

  lemma RowsStartWindows(revision: nat)
    requires IsRevision(LATEST, revision)
    ensures SavePosts(EMPTY_CACHE, [RowOf(revision)], EventOptions(true)) == SingleWindow(RowOf(revision))
  {
    SingleStart(RowOf(revision));
  }

  // --- a pull that starts where the chat believes to be -------------------------------------

  /** The window holds the draft, and the chat has shown the edit. */
  function LateWorld(k: nat): World {
    match k
    case 0 => INITIAL
    case 1 => World([DRAFT], EMPTY_CACHE, None)
    case 2 => World([DRAFT], SingleWindow(RowOf(1)), None)
    case 3 => World([DRAFT, EDITED], SingleWindow(RowOf(1)), None)
    case 4 => World(LATEST, SingleWindow(RowOf(1)), None)
    case 5 => World(LATEST, SingleWindow(RowOf(1)), Some(Snapped(3, None)))
    case _ => World(LATEST, SingleWindow(RowOf(1)), Some(Collecting(3, None, 2, 2, [], false)))
  }

  function LateStep(k: nat): Step {
    match k
    case 0 => Change(DRAFT)
    case 1 => Event(RowOf(1), true)
    case 2 => Change(EDITED)
    case 3 => Change(OTHER)
    case 4 => PullTarget(3)
    case _ => PullRead(2)
  }

  lemma LateSetsOut(k: nat)
    requires k < 6
    ensures Next(LateWorld(k), LateStep(k), LateWorld(k + 1))
    ensures k < 5 ==> Fits(LateWorld(k), LateStep(k))
  {
    hide SavePosts, WellFormed, FullRow, SingleWindow, ReadFits, PublishFits;
    LatestIs();
    LatestGrows();
    if k == 1 {
      RowsStartWindows(1);
    }
  }

  /** The chat pulls what follows the edit, which the window does not hold, and
      publishes the revision of the other post. */
  lemma LateReadBreaksWindow() returns (worlds: seq<World>, steps: seq<Step>)
    ensures IsRun(worlds, steps) && |steps| > 5
    ensures forall i :: 0 <= i < |steps| && i != 5 ==> Fits(worlds[i], steps[i])
    ensures worlds[5] == World(LATEST, SingleWindow(RowOf(1)), Some(Snapped(3, None))) && steps[5] == PullRead(2)
    ensures Known(worlds[5].cache) == 0 && !ReadFits(worlds[5], 2)
    ensures !Agrees(worlds[|steps|].log, worlds[|steps|].cache)
  {
    hide Next, Fits, Agrees, Breaks, IsPath, Undisturbed;
    LateIsDoomed();
    var rest, more := BreakDoomed(LateWorld(6), RowOf(1), 2);
    worlds := seq(6, k requires 0 <= k < 6 => LateWorld(k)) + rest;
    steps := seq(6, k requires 0 <= k < 6 => LateStep(k)) + more;
    BrokenRun(LateWorld(6), rest, more);
    forall i | 0 <= i < |steps|
      ensures Next(worlds[i], steps[i], worlds[i + 1]) && (i != 5 ==> Fits(worlds[i], steps[i]))
    {
      if i < 6 {
        LateSetsOut(i);
      } else {
        assert worlds[i] == rest[i - 6] && worlds[i + 1] == rest[i - 5] && steps[i] == more[i - 6];
      }
    }
    PathOf(worlds, steps);
    LateMisses();
    assert worlds[|steps|] == rest[|more|];
  }

  lemma PathOf(worlds: seq<World>, steps: seq<Step>)
    requires |worlds| == |steps| + 1
    requires forall i :: 0 <= i < |steps| ==> Next(worlds[i], steps[i], worlds[i + 1])
    ensures IsPath(worlds, steps)
  {
  }

  lemma BrokenRun(w: World, worlds: seq<World>, steps: seq<Step>)
    requires Breaks(w, worlds, steps)
    ensures |worlds| == |steps| + 1 && worlds[0] == w && !Agrees(worlds[|steps|].log, worlds[|steps|].cache)
    ensures forall i :: 0 <= i < |steps| ==> Next(worlds[i], steps[i], worlds[i + 1]) && Fits(worlds[i], steps[i])
  {
    hide Next, Fits, Agrees;
  }

  lemma LateMisses()
    ensures Known(LateWorld(5).cache) == 0 && !ReadFits(LateWorld(5), 2)
  {
    LatestIs();
    assert InWindow(LATEST, SingleWindow(RowOf(1)), 2) && !Exact(LATEST, SingleWindow(RowOf(1)).posts, 2);
  }

  lemma LateIsDoomed()
    ensures Doomed(LateWorld(6), RowOf(1), 2)
  {
    hide WellFormed;
    LatestIs();
    assert LATEST[..3] == LATEST;
  }

  // --- a page that publishes a revision -----------------------------------------------------

  /** The window after a page of what follows the draft. */
  function PagedCache(): Cache { ReconcilePostPage(SingleWindow(RowOf(1)), After("a"), [RowOf(3)], true) }

  function PagedWorld(k: nat): World {
    if k < 5 then LateWorld(k)
    else if k == 5 then World(LATEST, PagedCache(), None)
    else World(LATEST, AdvancePostRevision(PagedCache(), 3, None), None)
  }

  function PagedStep(k: nat): Step {
    if k < 4 then LateStep(k) else if k == 4 then Page(After("a"), 10, [RowOf(3)]) else PagePublish(3)
  }

  lemma OtherIsPage()
    ensures IsPage(LATEST, After("a"), 1, 10, [RowOf(3)])
  {
    LatestIs();
    assert [RowOf(3)][0] == RowOf(3) && RowOf(3) in [RowOf(3)];
    assert forall r: nat :: Current(LATEST, r) ==> r == 2 || r == 3;
    assert Has([RowOf(3)], 3);
  }

  lemma PagedLags()
    ensures Lagging(LATEST, PagedCache(), 2) && Regular(LATEST, PagedCache()) && InWindow(LATEST, PagedCache(), 2)
    ensures Known(PagedCache()) == 0
  {
    hide SavePosts, SaveThrows, WellFormed;
    LatestIs();
    PointIsRegular(LATEST, RowOf(1));
    AppendLags(LATEST, SingleWindow(RowOf(1)), [RowOf(3)], PageOptions(After("a"), true), 2);
    NotPastItself(LATEST, PagedCache(), "a", 2);
  }

  /** A stored post lies inside the window in every version. */
  lemma NotPastItself(log: Log, cache: Cache, id: PostId, r: nat)
    requires Regular(log, cache) && Lagging(log, cache, r) && id in cache.posts && Version(log, r).id == id
    ensures InWindow(log, cache, r)
  {
    hide WellFormed;
    assert log[cache.posts[id].revision - 1].id == log[r - 1].id;
    OnePlace(log, cache.posts[id].revision, r);
  }

  lemma OnePlace(log: Log, one: nat, other: nat)
    requires WellFormed(log) && IsRevision(log, one) && IsRevision(log, other)
    requires Version(log, one).id == Version(log, other).id
    ensures Version(log, one).sequence == Version(log, other).sequence
  {
  }

  lemma PagedSteps(k: nat)
    requires k < 6
    ensures Next(PagedWorld(k), PagedStep(k), PagedWorld(k + 1)) && (k < 5 ==> Fits(PagedWorld(k), PagedStep(k)))
  {
    if k < 4 {
      LateSetsOut(k);
    } else {
      hide SavePosts, WellFormed, IsPage;
      OtherIsPage();
      assert "a" in SingleWindow(RowOf(1)).posts && SingleWindow(RowOf(1)).posts["a"].sequence == 1;
    }
  }

  /** A chat with the draft in its window loads the posts after it and publishes
      the revision of its conversation: the edit is never pulled. */
  lemma PagePublishBreaksWindow() returns (worlds: seq<World>, steps: seq<Step>)
    ensures IsRun(worlds, steps) && |steps| == 6
    ensures forall i :: 0 <= i < 5 ==> Fits(worlds[i], steps[i])
    ensures steps[4] == Page(After("a"), 10, [RowOf(3)]) && steps[5] == PagePublish(3) && !PublishFits(worlds[5], 3)
    ensures !Agrees(worlds[6].log, worlds[6].cache)
  {
    hide Next, Fits, Agrees, IsPath, Lagging, Regular, PagedCache;
    worlds := seq(7, k requires 0 <= k < 7 => PagedWorld(k));
    steps := seq(6, k requires 0 <= k < 6 => PagedStep(k));
    forall i | 0 <= i < |steps|
      ensures Next(worlds[i], steps[i], worlds[i + 1]) && (i < 5 ==> Fits(worlds[i], steps[i]))
    {
      PagedSteps(i);
    }
    PathOf(worlds, steps);
    PagedLags();
    AdvanceLags(LATEST, PagedCache(), 3, None, 2);
    PublishedWindow(LATEST, PagedCache(), 3);
    LaggingDisagrees(LATEST, worlds[6].cache, 2);
    PagedMisses();
  }

  lemma PagedMisses()
    ensures !PublishFits(PagedWorld(5), 3)
  {
    hide WellFormed, PagedCache, Regular;
    PagedLags();
    LatestIs();
  }

  // --- an old event during a commit ---------------------------------------------------------

  /** The window holds the other post; the edit is pulled and about to be
      published when the window is cleared and the draft's event arrives. */
  function StaleWorld(k: nat): World {
    match k
    case 0 => INITIAL
    case 1 => World([DRAFT], EMPTY_CACHE, None)
    case 2 => World([DRAFT, EDITED], EMPTY_CACHE, None)
    case 3 => World(LATEST, EMPTY_CACHE, None)
    case 4 => World(LATEST, SingleWindow(RowOf(3)), None)
    case 5 => World(LATEST, SingleWindow(RowOf(3)), Some(Snapped(2, None)))
    case 6 => World(LATEST, SingleWindow(RowOf(3)), Some(Collecting(2, None, 0, 0, [], false)))
    case 7 => World(LATEST, SingleWindow(RowOf(3)), Some(Collecting(2, None, 0, 2, Pulled2(), true)))
    case 8 => World(LATEST, SingleWindow(RowOf(3)), Some(Overlaying(2, None, Pulled2(), [], 2)))
    case 9 => World(LATEST, SingleWindow(RowOf(3)), Some(Appending(2, None, [], 2)))
    case 10 => World(LATEST, EMPTY_CACHE, Some(Appending(2, None, [], 2)))
    case _ => World(LATEST, SingleWindow(RowOf(1)), Some(Appending(2, None, [], 2)))
  }

  function Pulled2(): seq<Post> { AllMaterialized([RowOf(2)], map[]) }

  function StaleStep(k: nat): Step {
    match k
    case 0 => Change(DRAFT)
    case 1 => Change(EDITED)
    case 2 => Change(OTHER)
    case 3 => Event(RowOf(3), true)
    case 4 => PullTarget(2)
    case 5 => PullRead(0)
    case 6 => PullPage(10, [RowOf(2)], map[])
    case 7 => PullReadCoverage
    case 8 => PullSaveRows
    case 9 => Clear
    case _ => Event(RowOf(1), true)
  }

  lemma StaleSetsOut(k: nat)
    requires k < 11 && !(6 <= k < 9)
    ensures Next(StaleWorld(k), StaleStep(k), StaleWorld(k + 1))
    ensures k < 10 ==> Fits(StaleWorld(k), StaleStep(k))
  {
    hide SavePosts, WellFormed, ChangedRevisions, FullRow, SingleWindow, PublishFits;
    LatestIs();
    LatestGrows();
    if k == 3 {
      RowsStartWindows(3);
    } else if k == 10 {
      RowsStartWindows(1);
    }
  }

  lemma StaleCollects(k: nat)
    requires 6 <= k < 9
    ensures Next(StaleWorld(k), StaleStep(k), StaleWorld(k + 1)) && Fits(StaleWorld(k), StaleStep(k))
  {
    hide SavePosts, SaveThrows, WellFormed, ChangedRevisions;
    LatestIs();
    NothingBeside([RowOf(2)]);
    NothingBeside(Pulled2());
    if k == 6 {
      assert PageRevisions(LATEST, StaleWorld(6).pull.value, 10) == [2];
      assert [] + Pulled2() == Pulled2();
    } else if k == 7 {
      assert Appended(SingleWindow(RowOf(3)).coverage, Pulled2()) == [];
    }
  }

  /** The edit does not touch the window of the other post. */
  lemma NothingBeside(rows: seq<Post>)
    requires |rows| == 1 && rows[0].id == "a" && rows[0].sequence == 1 && Genuine(LATEST, rows[0])
    ensures !SaveThrows(SingleWindow(RowOf(3)), rows, OVERLAY)
    ensures SavePosts(SingleWindow(RowOf(3)), rows, OVERLAY) == SingleWindow(RowOf(3))
  {
    LatestIs();
    PointUnchanged(LATEST, RowOf(3), rows);
  }

  lemma StaleStartBreaksWindow() returns (worlds: seq<World>, steps: seq<Step>)
    ensures IsRun(worlds, steps) && |steps| > 10
    ensures forall i :: 0 <= i < |steps| && i != 10 ==> Fits(worlds[i], steps[i])
    ensures StartsWindow(worlds[10], steps[10]) && !StartFits(worlds[10], steps[10].post.revision)
    ensures !Agrees(worlds[|steps|].log, worlds[|steps|].cache)
  {
    hide Next, Fits, Agrees, Breaks, IsPath, Undisturbed, StartFits;
    StaleIsDoomed();
    var rest, more := BreakDoomed(StaleWorld(11), RowOf(1), 2);
    worlds := seq(11, k requires 0 <= k < 11 => StaleWorld(k)) + rest;
    steps := seq(11, k requires 0 <= k < 11 => StaleStep(k)) + more;
    BrokenRun(StaleWorld(11), rest, more);
    forall i | 0 <= i < |steps|
      ensures Next(worlds[i], steps[i], worlds[i + 1]) && (i != 10 ==> Fits(worlds[i], steps[i]))
    {
      if 6 <= i < 9 {
        StaleCollects(i);
      } else if i < 11 {
        StaleSetsOut(i);
      } else {
        assert worlds[i] == rest[i - 11] && worlds[i + 1] == rest[i - 10] && steps[i] == more[i - 11];
      }
    }
    PathOf(worlds, steps);
    assert worlds[|steps|] == rest[|more|];
  }

  lemma StaleIsDoomed()
    ensures Doomed(StaleWorld(11), RowOf(1), 2) && !StartFits(StaleWorld(10), 1)
  {
    hide WellFormed;
    LatestIs();
    NoneHere();
    assert Version(LATEST, 1).sequence == Version(LATEST, 2).sequence;
  }
}
