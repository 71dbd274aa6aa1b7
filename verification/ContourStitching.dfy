/** Stitching loose contour segments into paths: the segments are the edges of a
    multigraph over point ids, and every path is a maximal trail of it. */
module ContourStitching {
  import opened Basics

  datatype Point = Point(id: nat, x: real, y: real)

  datatype Segment = Segment(p1: Point, p2: Point)

  /** An end of a segment as seen from its other end; the segment is named by its
      place in the list. */
  datatype Edge = Edge(point: Point, seg: nat)

  predicate Touches(segment: Segment, id: nat) { segment.p1.id == id || segment.p2.id == id }

  predicate Joins(segment: Segment, one: nat, other: nat) {
    (segment.p1.id == one && segment.p2.id == other) || (segment.p2.id == one && segment.p1.id == other)
  }

  predicate Ends(segment: Segment, point: Point) { point == segment.p1 || point == segment.p2 }

  /** What is stored under a point id once the first segments were entered. */
  function EdgesOf(segments: seq<Segment>, count: nat, id: nat): (edges: seq<Edge>)
    requires count <= |segments|
    ensures forall e :: e in edges ==>
              e.seg < count && Joins(segments[e.seg], id, e.point.id) && Ends(segments[e.seg], e.point)
    ensures forall s :: 0 <= s < count && Touches(segments[s], id) ==> exists e :: e in edges && e.seg == s
  {
    if count == 0 then []
    else
      var s := segments[count - 1];
      var before := EdgesOf(segments, count - 1, id);
      var first := if s.p1.id == id then [Edge(s.p2, count - 1)] else [];
      var second := if s.p2.id == id then [Edge(s.p1, count - 1)] else [];
      assert s.p1.id == id ==> Edge(s.p2, count - 1) in before + first + second;
      assert s.p2.id == id ==> Edge(s.p1, count - 1) in before + first + second;
      before + first + second
  }

  function Lookup(adjacent: map<nat, seq<Edge>>, id: nat): seq<Edge> {
    if id in adjacent then adjacent[id] else []
  }

  /** A path with the segments it runs along, each of them once. */
  ghost predicate IsTrail(segments: seq<Segment>, path: seq<Point>, trail: seq<nat>) {
    && |path| == |trail| + 1
    && (forall k :: 0 <= k < |trail| ==> trail[k] < |segments| && Joins(segments[trail[k]], path[k].id, path[k + 1].id))
    && (forall j, k :: 0 <= j < k < |trail| ==> trail[j] != trail[k])
    && (forall k :: 0 <= k < |path| ==> OnTrail(segments, path, trail, k))
  }

  /** The point is, with its coordinates, an end of a segment beside it. */
  predicate OnTrail(segments: seq<Segment>, path: seq<Point>, trail: seq<nat>, k: nat)
    requires k < |path| == |trail| + 1
  {
    || (k < |trail| && trail[k] < |segments| && Ends(segments[trail[k]], path[k]))
    || (0 < k && trail[k - 1] < |segments| && Ends(segments[trail[k - 1]], path[k]))
  }

  function SegmentsIn(trail: seq<nat>): set<nat> { set s | s in trail }

  /** Nothing unvisited is left at this point. */
  ghost predicate Exhausted(segments: seq<Segment>, visited: set<nat>, id: nat) {
    forall s :: 0 <= s < |segments| && Touches(segments[s], id) ==> s in visited
  }

  lemma TrailGrows(segments: seq<Segment>, path: seq<Point>, trail: seq<nat>, edge: Edge)
    requires IsTrail(segments, path, trail) && edge.seg !in trail && edge.seg < |segments|
    requires Joins(segments[edge.seg], path[|path| - 1].id, edge.point.id) && Ends(segments[edge.seg], edge.point)
    ensures IsTrail(segments, path + [edge.point], trail + [edge.seg])
  {
    var more, trails := path + [edge.point], trail + [edge.seg];
    forall k | 0 <= k < |more| ensures OnTrail(segments, more, trails, k) {
      if k < |path| {
        assert OnTrail(segments, path, trail, k);
      }
    }
  }

  lemma TrailGrowsInFront(segments: seq<Segment>, path: seq<Point>, trail: seq<nat>, edge: Edge)
    requires IsTrail(segments, path, trail) && edge.seg !in trail && edge.seg < |segments|
    requires Joins(segments[edge.seg], path[0].id, edge.point.id) && Ends(segments[edge.seg], edge.point)
    ensures IsTrail(segments, [edge.point] + path, [edge.seg] + trail)
  {
    var more, trails := [edge.point] + path, [edge.seg] + trail;
    forall k | 0 <= k < |trails|
      ensures trails[k] < |segments| && Joins(segments[trails[k]], more[k].id, more[k + 1].id)
    {
      if k > 0 {
        assert trails[k] == trail[k - 1] && more[k] == path[k - 1] && more[k + 1] == path[k];
      }
    }
    forall k | 0 <= k < |more| ensures OnTrail(segments, more, trails, k) {
      if k > 0 {
        assert OnTrail(segments, path, trail, k - 1);
      }
    }
  }

  // --- the algorithm ------------------------------------------------------------------------

  method BuildAdjacency(segments: seq<Segment>) returns (adjacent: map<nat, seq<Edge>>)
    ensures forall id: nat :: Lookup(adjacent, id) == EdgesOf(segments, |segments|, id)
  {
    adjacent := map[];
    for k := 0 to |segments|
      invariant forall id: nat :: Lookup(adjacent, id) == EdgesOf(segments, k, id)
    {
      var seg := segments[k];
      if seg.p1.id !in adjacent {
        adjacent := adjacent[seg.p1.id := []];
      }
      if seg.p2.id !in adjacent {
        adjacent := adjacent[seg.p2.id := []];
      }
      adjacent := adjacent[seg.p1.id := adjacent[seg.p1.id] + [Edge(seg.p2, k)]];
      adjacent := adjacent[seg.p2.id := adjacent[seg.p2.id] + [Edge(seg.p1, k)]];
    }
  }

  /** The first edge along an unvisited segment. */
  method NextEdge(edges: seq<Edge>, visited: set<nat>) returns (next: Option<Edge>)
    ensures next.Some? ==> next.value in edges && next.value.seg !in visited
    ensures next.None? ==> forall e :: e in edges ==> e.seg in visited
  {
    for k := 0 to |edges|
      invariant forall j :: 0 <= j < k ==> edges[j].seg in visited
    {
      if edges[k].seg !in visited {
        return Some(edges[k]);
      }
    }
    next := None;
  }

  function All(segments: seq<Segment>): set<nat> { set s {:trigger segments[s]} | 0 <= s < |segments| }

  method ExtendForward(
    segments: seq<Segment>, adjacent: map<nat, seq<Edge>>, start: seq<Point>, visited: set<nat>, ghost along: seq<nat>)
    returns (path: seq<Point>, visitedNow: set<nat>, ghost trail: seq<nat>)
    requires forall id: nat :: Lookup(adjacent, id) == EdgesOf(segments, |segments|, id)
    requires IsTrail(segments, start, along) && SegmentsIn(along) <= visited <= All(segments)
    ensures IsTrail(segments, path, trail) && path[0] == start[0] && along <= trail
    ensures visitedNow == visited + SegmentsIn(trail) <= All(segments)
    ensures forall s :: s in trail && s in visited ==> s in along
    ensures Exhausted(segments, visitedNow, path[|path| - 1].id)
  {
    path, visitedNow, trail := start, visited, along;
    var currId := start[|start| - 1].id;
    while true
      invariant IsTrail(segments, path, trail) && path[0] == start[0] && along <= trail
      invariant visitedNow == visited + SegmentsIn(trail) <= All(segments)
      invariant forall s :: s in trail && s in visited ==> s in along
      invariant currId == path[|path| - 1].id
      decreases All(segments) - visitedNow
    {
      var next := NextEdge(Lookup(adjacent, currId), visitedNow);
      if next.None? {
        break;
      }
      var edge := next.value;
      TrailGrows(segments, path, trail, edge);
      path := path + [edge.point];
      visitedNow := visitedNow + {edge.seg};
      trail := trail + [edge.seg];
      currId := edge.point.id;
    }
  }

  method ExtendBackward(
    segments: seq<Segment>, adjacent: map<nat, seq<Edge>>, start: seq<Point>, visited: set<nat>, ghost along: seq<nat>)
    returns (path: seq<Point>, visitedNow: set<nat>, ghost trail: seq<nat>)
    requires forall id: nat :: Lookup(adjacent, id) == EdgesOf(segments, |segments|, id)
    requires IsTrail(segments, start, along) && SegmentsIn(along) <= visited <= All(segments)
    ensures IsTrail(segments, path, trail) && path[|path| - 1] == start[|start| - 1]
    ensures (forall s :: s in along ==> s in trail) && |along| <= |trail|
    ensures visitedNow == visited + SegmentsIn(trail) <= All(segments)
    ensures forall s :: s in trail && s in visited ==> s in along
    ensures Exhausted(segments, visitedNow, path[0].id)
  {
    path, visitedNow, trail := start, visited, along;
    var currId := start[0].id;
    while true
      invariant IsTrail(segments, path, trail) && path[|path| - 1] == start[|start| - 1]
      invariant (forall s :: s in along ==> s in trail) && |along| <= |trail|
      invariant visitedNow == visited + SegmentsIn(trail) <= All(segments)
      invariant forall s :: s in trail && s in visited ==> s in along
      invariant currId == path[0].id
      decreases All(segments) - visitedNow
    {
      var next := NextEdge(Lookup(adjacent, currId), visitedNow);
      if next.None? {
        break;
      }
      var edge := next.value;
      TrailGrowsInFront(segments, path, trail, edge);
      path := [edge.point] + path;
      visitedNow := visitedNow + {edge.seg};
      trail := [edge.seg] + trail;
      currId := edge.point.id;
    }
  }

  /** The segments on the first trails. */
  function Visited(trails: seq<seq<nat>>, count: nat): set<nat>
    requires count <= |trails|
  {
    set j, s | 0 <= j < count && s in trails[j] :: s
  }

  ghost predicate TrailsSound(segments: seq<Segment>, paths: seq<seq<Point>>, trails: seq<seq<nat>>) {
    && |paths| == |trails|
    && (forall j :: 0 <= j < |paths| ==> trails[j] != [] && IsTrail(segments, paths[j], trails[j]))
  }

  ghost predicate TrailsDisjoint(trails: seq<seq<nat>>) {
    forall i, j, s :: 0 <= i < j < |trails| && s in trails[i] ==> s !in trails[j]
  }

  /** When a path was finished, nothing was left at either of its ends. */
  ghost predicate EndsExhausted(segments: seq<Segment>, paths: seq<seq<Point>>, trails: seq<seq<nat>>)
    requires TrailsSound(segments, paths, trails)
  {
    forall j :: 0 <= j < |paths| ==>
      && Exhausted(segments, Visited(trails, j + 1), paths[j][0].id)
      && Exhausted(segments, Visited(trails, j + 1), paths[j][|paths[j]| - 1].id)
  }

  predicate OnSome(trails: seq<seq<nat>>, s: nat) { exists j :: 0 <= j < |trails| && s in trails[j] }

  /** The segments fall apart into maximal trails. */
  ghost predicate IsStitching(segments: seq<Segment>, paths: seq<seq<Point>>, trails: seq<seq<nat>>) {
    && TrailsSound(segments, paths, trails)
    && TrailsDisjoint(trails)
    && EndsExhausted(segments, paths, trails)
    && forall s: nat :: s < |segments| ==> OnSome(trails, s)
  }

  lemma TrailAppends(segments: seq<Segment>, paths: seq<seq<Point>>, trails: seq<seq<nat>>, path: seq<Point>,
      trail: seq<nat>)
    requires TrailsSound(segments, paths, trails) && TrailsDisjoint(trails) && EndsExhausted(segments, paths, trails)
    requires IsTrail(segments, path, trail) && trail != []
    requires forall s :: s in trail ==> s !in Visited(trails, |trails|)
    requires Exhausted(segments, Visited(trails, |trails|) + SegmentsIn(trail), path[0].id)
    requires Exhausted(segments, Visited(trails, |trails|) + SegmentsIn(trail), path[|path| - 1].id)
    ensures var ps, ts := paths + [path], trails + [trail];
            && TrailsSound(segments, ps, ts) && TrailsDisjoint(ts) && EndsExhausted(segments, ps, ts)
            && Visited(ts, |ts|) == Visited(trails, |trails|) + SegmentsIn(trail)
  {
    hide OnTrail, Exhausted;
    var ps: seq<seq<Point>>, ts := paths + [path], trails + [trail];
    assert Visited(ts, |ts|) == Visited(trails, |trails|) + SegmentsIn(trail) by {
      VisitedSplits(trails, trail);
    }
    forall j: nat | j < |ps|
      ensures Exhausted(segments, Visited(ts, j + 1), ps[j][0].id)
      ensures Exhausted(segments, Visited(ts, j + 1), ps[j][|ps[j]| - 1].id)
    {
      if j < |paths| {
        VisitedPrefix(trails, trail, j + 1);
      }
    }
  }

  lemma VisitedSplits(trails: seq<seq<nat>>, trail: seq<nat>)
    ensures Visited(trails + [trail], |trails| + 1) == Visited(trails, |trails|) + SegmentsIn(trail)
  {
    var ts := trails + [trail];
    forall s ensures s in Visited(ts, |ts|) <==> s in Visited(trails, |trails|) + SegmentsIn(trail) {
      if s in Visited(trails, |trails|) {
        var j :| 0 <= j < |trails| && s in trails[j];
        assert s in ts[j];
      }
      if s in SegmentsIn(trail) {
        assert s in ts[|trails|];
      }
    }
  }

  lemma VisitedPrefix(trails: seq<seq<nat>>, trail: seq<nat>, count: nat)
    requires count <= |trails|
    ensures Visited(trails + [trail], count) == Visited(trails, count)
  {
    var ts := trails + [trail];
    forall s ensures s in Visited(ts, count) <==> s in Visited(trails, count) {
      if s in Visited(trails, count) {
        var j :| 0 <= j < count && s in trails[j];
        assert s in ts[j];
      }
      if s in Visited(ts, count) {
        var j :| 0 <= j < count && s in ts[j];
        assert s in trails[j];
      }
    }
  }

  method StitchSegments(segments: seq<Segment>) returns (paths: seq<seq<Point>>, ghost trails: seq<seq<nat>>)
    ensures IsStitching(segments, paths, trails)
  {
    hide IsTrail, Exhausted, EndsExhausted, TrailsSound, TrailsDisjoint, EdgesOf;
    var adjacent := BuildAdjacency(segments);
    paths, trails := [], [];
    NoTrails(segments);
    var visited: set<nat> := {};
    for k := 0 to |segments|
      invariant TrailsSound(segments, paths, trails) && TrailsDisjoint(trails) && EndsExhausted(segments, paths, trails)
      invariant visited == Visited(trails, |trails|) <= All(segments)
      invariant forall s: nat :: s < k ==> s in visited
    {
      if k in visited {
        continue;
      }
      assert segments[k] == segments[k];
      OneSegment(segments, k);
      var forward, seen, along :=
        ExtendForward(segments, adjacent, [segments[k].p1, segments[k].p2], visited + {k}, [k]);
      SubsetSeen(along, visited + {k}, seen);
      var path, seenAll, trail := ExtendBackward(segments, adjacent, forward, seen, along);
      MoreExhausted(segments, seen, seenAll, forward[|forward| - 1].id);
      assert seenAll == visited + SegmentsIn(trail) && (forall s :: s in trail ==> s !in visited) by {
        TrailIsNew(visited, k, along, seen, trail, seenAll);
      }
      TrailAppends(segments, paths, trails, path, trail);
      paths, trails, visited := paths + [path], trails + [trail], seenAll;
    }
    AllOnTrails(segments, trails, visited);
  }

  lemma NoTrails(segments: seq<Segment>)
    ensures TrailsSound(segments, [], []) && TrailsDisjoint([]) && EndsExhausted(segments, [], [])
  {
  }

  lemma OneSegment(segments: seq<Segment>, k: nat)
    requires k < |segments|
    ensures IsTrail(segments, [segments[k].p1, segments[k].p2], [k]) && SegmentsIn([k]) == {k}
    ensures k in All(segments)
  {
    var path, trail := [segments[k].p1, segments[k].p2], [k];
    assert OnTrail(segments, path, trail, 0) && OnTrail(segments, path, trail, 1);
  }

  lemma SubsetSeen(along: seq<nat>, visited: set<nat>, seen: set<nat>)
    requires seen == visited + SegmentsIn(along)
    ensures SegmentsIn(along) <= seen
  {
  }

  lemma MoreExhausted(segments: seq<Segment>, before: set<nat>, after: set<nat>, id: nat)
    requires Exhausted(segments, before, id) && before <= after
    ensures Exhausted(segments, after, id)
  {
  }

  lemma TrailIsNew(visited: set<nat>, k: nat, along: seq<nat>, seen: set<nat>, trail: seq<nat>, seenAll: set<nat>)
    requires k !in visited && [k] <= along
    requires seen == visited + {k} + SegmentsIn(along) && forall s :: s in along && s in visited + {k} ==> s in [k]
    requires seenAll == seen + SegmentsIn(trail) && forall s :: s in trail && s in seen ==> s in along
    requires forall s :: s in along ==> s in trail
    ensures seenAll == visited + SegmentsIn(trail)
    ensures forall s :: s in trail ==> s !in visited
  {
    assert along[0] == k && along[0] in along;
  }

  lemma AllOnTrails(segments: seq<Segment>, trails: seq<seq<nat>>, visited: set<nat>)
    requires visited == Visited(trails, |trails|) && forall s: nat :: s < |segments| ==> s in visited
    ensures forall s: nat :: s < |segments| ==> OnSome(trails, s)
  {
    forall s: nat | s < |segments| ensures OnSome(trails, s) {
      assert s in Visited(trails, |trails|);
    }
  }

  // --- what a stitching is good for ---------------------------------------------------------

  /** Each segment is on exactly one path, at exactly one place. */
  lemma EverySegmentOnce(segments: seq<Segment>, paths: seq<seq<Point>>, trails: seq<seq<nat>>, s: nat)
    requires IsStitching(segments, paths, trails) && s < |segments|
    ensures exists j, k :: 0 <= j < |trails| && 0 <= k < |trails[j]| && trails[j][k] == s
    ensures forall i, j, k, m ::
              (0 <= i < |trails| && 0 <= j < |trails| && 0 <= k < |trails[i]| && 0 <= m < |trails[j]|
               && trails[i][k] == s && trails[j][m] == s)
              ==> i == j && k == m
  {
    assert OnSome(trails, s);
    var j :| 0 <= j < |trails| && s in trails[j];
    var k :| 0 <= k < |trails[j]| && trails[j][k] == s;
    forall i, j, k, m | 0 <= i < |trails| && 0 <= j < |trails| && 0 <= k < |trails[i]| && 0 <= m < |trails[j]|
      && trails[i][k] == s && trails[j][m] == s
      ensures i == j && k == m
    {
      assert s in trails[i] && s in trails[j];
      assert IsTrail(segments, paths[i], trails[i]);
    }
  }

  lemma PathIsTrail(segments: seq<Segment>, paths: seq<seq<Point>>, trails: seq<seq<nat>>, j: nat)
    requires IsStitching(segments, paths, trails) && j < |paths|
    ensures |paths| == |trails| && trails[j] != [] && IsTrail(segments, paths[j], trails[j])
  {
  }

  lemma OneTrailOnly(segments: seq<Segment>, paths: seq<seq<Point>>, trails: seq<seq<nat>>, i: nat, j: nat, s: nat)
    requires IsStitching(segments, paths, trails) && i < |trails| && j < |trails| && s in trails[i] && s in trails[j]
    ensures i == j
  {
    hide EndsExhausted, TrailsSound;
  }

  lemma SomeTrail(segments: seq<Segment>, paths: seq<seq<Point>>, trails: seq<seq<nat>>, s: nat) returns (j: nat)
    requires IsStitching(segments, paths, trails) && s < |segments|
    ensures j < |trails| == |paths| && s in trails[j]
  {
    hide EndsExhausted, TrailsDisjoint;
    assert OnSome(trails, s);
    j :| 0 <= j < |trails| && s in trails[j];
  }

  lemma EndIsExhausted(segments: seq<Segment>, paths: seq<seq<Point>>, trails: seq<seq<nat>>, j: nat, k: nat, s: nat)
    requires IsStitching(segments, paths, trails) && j < |paths| && (k == 0 || k == |paths[j]| - 1) && k < |paths[j]|
    requires s < |segments| && Touches(segments[s], paths[j][k].id)
    ensures exists i :: 0 <= i <= j && s in trails[i]
  {
    hide IsTrail, TrailsDisjoint;
    assert s in Visited(trails, j + 1);
  }

  /** A point on a path is the end of a segment of the path. */
  lemma PointTouches(segments: seq<Segment>, path: seq<Point>, trail: seq<nat>, k: nat) returns (s: nat)
    requires IsTrail(segments, path, trail) && trail != [] && k < |path|
    ensures s in trail && s < |segments| && Touches(segments[s], path[k].id)
  {
    if k < |trail| {
      s := trail[k];
      assert Joins(segments[s], path[k].id, path[k + 1].id);
    } else {
      s := trail[k - 1];
      assert Joins(segments[s], path[k - 1].id, path[k - 1 + 1].id);
    }
  }

  /** No end of a finished path occurs on a later path. */
  lemma EndsAreLeftBehind(
    segments: seq<Segment>, paths: seq<seq<Point>>, trails: seq<seq<nat>>, early: nat, late: nat, k: nat, end: nat)
    requires IsStitching(segments, paths, trails) && early < late < |paths| && k < |paths[late]|
    requires end < |paths[early]| && (end == 0 || end == |paths[early]| - 1)
    ensures paths[late][k].id != paths[early][end].id
  {
    hide IsTrail, IsStitching;
    PathIsTrail(segments, paths, trails, late);
    var s := PointTouches(segments, paths[late], trails[late], k);
    if paths[late][k].id == paths[early][end].id {
      EndIsExhausted(segments, paths, trails, early, end, s);
      var i :| 0 <= i <= early && s in trails[i];
      OneTrailOnly(segments, paths, trails, i, late, s);
    }
  }

  /** At most two segments meet at any point. */
  ghost predicate AtMostTwo(segments: seq<Segment>) {
    forall id: nat, a, b, c :: 0 <= a < |segments| && 0 <= b < |segments| && 0 <= c < |segments|
      && Touches(segments[a], id) && Touches(segments[b], id) && Touches(segments[c], id)
      ==> a == b || b == c || a == c
  }

  predicate Meet(one: Segment, other: Segment) { Touches(other, one.p1.id) || Touches(other, one.p2.id) }

  /** Segments in a row that meet one after the other. */
  ghost predicate IsChain(segments: seq<Segment>, chain: seq<nat>) {
    && chain != []
    && (forall k :: 0 <= k < |chain| ==> chain[k] < |segments|)
    && (forall k :: 0 <= k < |chain| - 1 ==> Meet(segments[chain[k]], segments[chain[k + 1]]))
  }

  /** Two segments lie in one connected component. */
  ghost predicate Connected(segments: seq<Segment>, one: nat, other: nat) {
    exists chain :: IsChain(segments, chain) && chain[0] == one && chain[|chain| - 1] == other
  }

  /** Where a path passes through a point, its two segments are the only ones there. */
  lemma PassageIsFull(segments: seq<Segment>, path: seq<Point>, trail: seq<nat>, k: nat, s: nat)
    requires IsTrail(segments, path, trail) && AtMostTwo(segments) && 0 < k < |path| - 1
    requires s < |segments| && Touches(segments[s], path[k].id)
    ensures s in trail
  {
    hide OnTrail;
    assert Joins(segments[trail[k - 1]], path[k - 1].id, path[k - 1 + 1].id);
    assert Joins(segments[trail[k]], path[k].id, path[k + 1].id);
    assert trail[k - 1] != trail[k];
    assert Touches(segments[trail[k - 1]], path[k].id) && Touches(segments[trail[k]], path[k].id);
  }

  lemma PlaceOf(segments: seq<Segment>, path: seq<Point>, trail: seq<nat>, s: nat, id: nat) returns (k: nat)
    requires IsTrail(segments, path, trail) && s in trail && s < |segments| && Touches(segments[s], id)
    ensures k < |path| && path[k].id == id
  {
    var m :| 0 <= m < |trail| && trail[m] == s;
    assert Joins(segments[trail[m]], path[m].id, path[m + 1].id);
    k := if path[m].id == id then m else m + 1;
  }

  /** Paths do not meet. */
  lemma PathsAreApart(
    segments: seq<Segment>, paths: seq<seq<Point>>, trails: seq<seq<nat>>, early: nat, late: nat, at: nat, k: nat)
    requires IsStitching(segments, paths, trails) && AtMostTwo(segments)
    requires early < late < |paths| && at < |paths[early]| && k < |paths[late]|
    ensures paths[early][at].id != paths[late][k].id
  {
    hide IsTrail, IsStitching, AtMostTwo;
    PathIsTrail(segments, paths, trails, early);
    PathIsTrail(segments, paths, trails, late);
    if paths[early][at].id == paths[late][k].id {
      if 0 < at < |paths[early]| - 1 {
        var own := PointTouches(segments, paths[late], trails[late], k);
        PassageIsFull(segments, paths[early], trails[early], at, own);
        OneTrailOnly(segments, paths, trails, early, late, own);
      } else {
        EndsAreLeftBehind(segments, paths, trails, early, late, k, at);
      }
    }
  }

  /** A segment that touches a point of a path lies on that path. */
  lemma PointIsClosed(
    segments: seq<Segment>, paths: seq<seq<Point>>, trails: seq<seq<nat>>, j: nat, k: nat, s: nat)
    requires IsStitching(segments, paths, trails) && AtMostTwo(segments)
    requires j < |paths| && k < |paths[j]| && s < |segments| && Touches(segments[s], paths[j][k].id)
    ensures j < |trails| && s in trails[j]
  {
    hide IsTrail, IsStitching, AtMostTwo;
    PathIsTrail(segments, paths, trails, j);
    var i := SomeTrail(segments, paths, trails, s);
    PathIsTrail(segments, paths, trails, i);
    var at := PlaceOf(segments, paths[i], trails[i], s, paths[j][k].id);
    if i < j {
      PathsAreApart(segments, paths, trails, i, j, at, k);
    } else if j < i {
      PathsAreApart(segments, paths, trails, j, i, k, at);
    }
  }

  lemma SegmentIsClosed(segments: seq<Segment>, paths: seq<seq<Point>>, trails: seq<seq<nat>>, j: nat, s: nat,
      other: nat)
    requires IsStitching(segments, paths, trails) && AtMostTwo(segments)
    requires j < |paths| == |trails| && s in trails[j] && s < |segments| && other < |segments|
    requires Meet(segments[s], segments[other])
    ensures other in trails[j]
  {
    hide IsTrail, IsStitching, AtMostTwo;
    PathIsTrail(segments, paths, trails, j);
    var id := if Touches(segments[other], segments[s].p1.id) then segments[s].p1.id else segments[s].p2.id;
    var k := PlaceOf(segments, paths[j], trails[j], s, id);
    PointIsClosed(segments, paths, trails, j, k, other);
  }

  lemma {:induction false} ChainStaysOnPath(
    segments: seq<Segment>, paths: seq<seq<Point>>, trails: seq<seq<nat>>, j: nat, chain: seq<nat>)
    requires IsStitching(segments, paths, trails) && AtMostTwo(segments) && j < |paths| == |trails|
    requires IsChain(segments, chain) && chain[0] in trails[j]
    ensures chain[|chain| - 1] in trails[j]
    decreases |chain|
  {
    hide IsStitching, AtMostTwo;
    if |chain| > 1 {
      var front := chain[..|chain| - 1];
      ChainStaysOnPath(segments, paths, trails, j, front);
      SegmentIsClosed(segments, paths, trails, j, front[|front| - 1], chain[|chain| - 1]);
    }
  }

  /** When at most two segments meet at any point, every path is one whole
      connected component. */
  lemma PathsAreComponents(segments: seq<Segment>, paths: seq<seq<Point>>, trails: seq<seq<nat>>, j: nat, s: nat)
    requires IsStitching(segments, paths, trails) && AtMostTwo(segments) && j < |paths| && s < |segments|
    ensures s in trails[j] <==> Connected(segments, trails[j][0], s)
  {
    hide IsTrail, AtMostTwo, EndsExhausted, TrailsDisjoint;
    if s in trails[j] {
      var m :| 0 <= m < |trails[j]| && trails[j][m] == s;
      var chain := trails[j][..m + 1];
      TrailIsChain(segments, paths[j], trails[j], m + 1);
      assert chain[|chain| - 1] == s;
    }
    if Connected(segments, trails[j][0], s) {
      var chain :| IsChain(segments, chain) && chain[0] == trails[j][0] && chain[|chain| - 1] == s;
      ChainStaysOnPath(segments, paths, trails, j, chain);
    }
  }

  lemma TrailIsChain(segments: seq<Segment>, path: seq<Point>, trail: seq<nat>, count: nat)
    requires IsTrail(segments, path, trail) && 0 < count <= |trail|
    ensures IsChain(segments, trail[..count])
  {
    forall k | 0 <= k < count - 1 ensures Meet(segments[trail[..count][k]], segments[trail[..count][k + 1]]) {
      assert Joins(segments[trail[k]], path[k].id, path[k + 1].id);
      assert Joins(segments[trail[k + 1]], path[k + 1].id, path[k + 2].id);
    }
  }
}
