/**
 * Checks at 0 alone are not enough: a view model and a graph where a part of a part of a node the cascade takes is left
 * behind, and no check counts it, since the way there has taken a stored relationship before, for another field.
 */
module CascadeReuse {
  import opened Wrappers
  import opened Graphs
  import opened Cascades
  import opened CascadeLists
  import opened CascadeDepth

  lemma {:induction false} WayDeclares(schema: Schema, start: ViewId, path: seq<RelId>, way: seq<RelId>, j: nat)
    requires ValidSchema(schema) && start < |schema.views| && j < |way|
    requires Way(schema, start, path, way)
    ensures j == 0 ==> way[0] in schema.views[start].relationships
    ensures j > 0 ==>
      && way[j - 1] < |schema.rels|
      && schema.rels[way[j - 1]].into.View?
      && way[j] in schema.views[schema.rels[way[j - 1]].into.view].relationships
    decreases |way|
  {
    if j > 0 {
      WayDeclares(schema, schema.rels[way[0]].into.view, path + [way[0]], way[1..], j - 1);
    }
  }

  ghost predicate Repeats(schema: Schema, way: seq<RelId>, before: seq<RelId>) {
    var r := Last(way);
    && r < |schema.rels| && schema.rels[r].into.View?
    && schema.rels[r].into.view < |schema.views| && r in schema.views[schema.rels[r].into.view].relationships
    && Count(before, r) >= schema.rels[r].maxDepth
  }

  /** A way one step too far ends in a view's relationship to its own class, taken on the way as often as it may be. */
  lemma {:induction false} BeyondRepeats(schema: Schema, start: ViewId, path: seq<RelId>, way: seq<RelId>)
    requires ValidSchema(schema) && start < |schema.views| && WayBeyond(schema, start, path, way)
    ensures Repeats(schema, way, path + way[..|way| - 1])
    decreases |way|
  {
    if |way| == 1 {
      assert path + way[..0] == path;
    } else {
      var rest := way[1..];
      BeyondRepeats(schema, schema.rels[way[0]].into.view, path + [way[0]], rest);
      assert path + way[..|way| - 1] == path + [way[0]] + rest[..|rest| - 1];
      assert Last(way) == Last(rest);
    }
  }

  lemma {:induction false} CountedIsThere(way: seq<RelId>, r: RelId)
    ensures Count(way, r) > 0 ==> r in way
  {
    if way != [] {
      CountedIsThere(way[..|way| - 1], r);
    }
  }

  // ---- The model and the graph

  const T := Hop("T", Outgoing)
  const P := Hop("P", Outgoing)
  const Q := Hop("Q", Outgoing)

  /** A view of its own class over T, which also leads over P, T and Q, by two other views, back to its own class. */
  const SCHEMA := Schema(
    [ViewModel({}, [0, 1]), ViewModel({}, [2]), ViewModel({}, [3])],
    [Relationship("parts", T, 1, false, true, Target.View(0)), Relationship("first", P, 1, false, true, Target.View(1)),
     Relationship("second", T, 1, false, true, Target.View(2)), Relationship("third", Q, 1, false, true,
         Target.View(0))])

  /** The root leads over P to 1, 1 over T to 2, 2 over Q back to 1, and 2 over T on to 3. */
  const STORE := Store(
    Graph(map[0 := PLAIN, 1 := PLAIN, 2 := PLAIN, 3 := PLAIN],
      map[0 := Edge("P", 0, 1, map[]), 1 := Edge("T", 1, 2, map[]), 2 := Edge("Q", 2, 1, map[]),
          3 := Edge("T", 2, 3, map[])], 4),
    (v, n) => true)

  lemma StepsAre(from: NodeId, r: RelId, link: Link)
    requires r < 4 && ValidSchema(SCHEMA) && Takes(STORE, from, StepOf(SCHEMA, r), link)
    ensures r == 1 ==> from == 0 && link == Link(0, 1)
    ensures r == 0 || r == 2 ==> (from == 1 && link == Link(1, 2)) || (from == 2 && link == Link(3, 3))
    ensures r == 3 ==> from == 2 && link == Link(2, 1)
  {
  }

  lemma SchemaIsValid()
    ensures ValidSchema(SCHEMA)
  {
  }

  /** The view a relationship leads into. */
  function IntoOf(r: RelId): ViewId {
    if r == 1 then 1 else if r == 2 then 2 else 0
  }

  /** One step of a way down the model, taken in the graph. */
  ghost predicate StepGoes(way: seq<RelId>, links: seq<Link>, i: nat)
    requires ValidSchema(SCHEMA) && i < |way| == |links|
  {
    && way[i] < 4
    && way[i] in SCHEMA.views[if i == 0 then 0 else IntoOf(way[i - 1])].relationships
    && Takes(STORE, if i == 0 then 0 else links[i - 1].node, StepOf(SCHEMA, way[i]), links[i])
  }

  ghost predicate Goes(way: seq<RelId>, links: seq<Link>)
    requires ValidSchema(SCHEMA)
  {
    && |links| == |way| && NoEdgeTwice(links)
    && forall i: nat | i < |way| :: StepGoes(way, links, i)
  }

  lemma TakenGoes(way: seq<RelId>, links: seq<Link>)
    requires ValidSchema(SCHEMA) && Taken(SCHEMA, STORE, 0, 0, way, links)
    ensures Goes(way, links)
  {
    FitsAreAsLong(STORE, 0, PatternOf(SCHEMA, way), links);
    PatternIsAsLong(SCHEMA, way);
    forall i: nat | i < |way| ensures StepGoes(way, links, i) {
      WayDeclares(SCHEMA, 0, [], way, i);
      FitsAt(SCHEMA, STORE, 0, way, links, i);
    }
  }

  lemma StepAt(way: seq<RelId>, links: seq<Link>, i: nat)
    requires ValidSchema(SCHEMA) && Goes(way, links) && i < |way|
    ensures way[i] < 4
    ensures way[i] == 1 ==> links[i] == Link(0, 1)
    ensures way[i] == 3 ==> i > 0 && way[i - 1] == 2 && links[i - 1].node == 2 && links[i] == Link(2, 1)
    ensures way[i] == 2 ==> i > 0 && way[i - 1] == 1
    ensures way[i] == 0 ==> i > 0 && (way[i - 1] == 0 || way[i - 1] == 3)
    ensures (way[i] == 0 || way[i] == 2) ==>
      (links[i - 1].node == 1 && links[i] == Link(1, 2)) || (links[i - 1].node == 2 && links[i] == Link(3, 3))
  {
    assert StepGoes(way, links, i);
    assert i > 0 ==> StepGoes(way, links, i - 1);
    StepsAre(if i == 0 then 0 else links[i - 1].node, way[i], links[i]);
  }

  /** No way takes a part: only 1 has one where it is of the view, and the way to it there has come over it. */
  lemma {:induction false} NoPartIsTaken(way: seq<RelId>, links: seq<Link>, i: nat)
    requires ValidSchema(SCHEMA) && Goes(way, links) && i < |way|
    ensures way[i] != 0
  {
    StepAt(way, links, i);
    if way[i] == 0 {
      NoPartIsTaken(way, links, i - 1);
      StepAt(way, links, i - 1);
      StepAt(way, links, i - 2);
      StepAt(way, links, i - 3);
      assert false;
    }
  }

  /** And so none comes to 3. */
  lemma NoneReachesThree(way: seq<RelId>, links: seq<Link>, i: nat)
    requires ValidSchema(SCHEMA) && Goes(way, links) && i < |way|
    ensures links[i].node != 3
  {
    NoPartIsTaken(way, links, i);
    StepAt(way, links, i);
    if way[i] == 2 {
      StepAt(way, links, i - 1);
    }
  }

  lemma ThreeIsNoTarget()
    requires ValidSchema(SCHEMA)
    ensures !InTargets(SCHEMA, STORE, 0, 0, 3)
  {
    if InTargets(SCHEMA, STORE, 0, 0, 3) {
      TargetsAreTaken(SCHEMA, STORE, 0, 0, 3);
      var way, links :| Taken(SCHEMA, STORE, 0, 0, way, links) && EndOf(0, links) == 3;
      TakenGoes(way, links);
      assert links != [];
      NoneReachesThree(way, links, |links| - 1);
      assert false;
    }
  }

  /** No check finds anything: one level further is a second part in one way. */
  lemma ChecksFindNothing()
    requires ValidSchema(SCHEMA)
    ensures ChecksPass(SCHEMA, STORE, 0, 0)
  {
    if !ChecksPass(SCHEMA, STORE, 0, 0) {
      var c, n :| c in CascadeFrom(SCHEMA, EMPTY, 0).beyond && Reaches(STORE, 0, c.nodes, n);
      var v := CheckIsBeyond(c);
      var links :| Fits(STORE, 0, c.nodes, links) && NoEdgeTwice(links);
      BeyondTakesAPart(v.way, links);
    }
  }

  lemma CheckIsBeyond(c: DepthCheck) returns (v: Visit)
    requires ValidSchema(SCHEMA) && c in CascadeFrom(SCHEMA, EMPTY, 0).beyond
    ensures WayBeyond(SCHEMA, 0, [], v.way) && Known(SCHEMA, v.way) && c.nodes == PatternOf(SCHEMA, v.way)
  {
    var s := After(SCHEMA, EMPTY, AllVisits(SCHEMA, 0));
    ChecksAre(SCHEMA, AllVisits(SCHEMA, 0), c.view, c.rel, c.nodes);
    var i :| 0 <= i < |s.beyond| && c == s.beyond[i].(within := c.within);
    assert s.beyond[i] == DepthCheck(c.view, c.rel, c.nodes, []);
    v :| v in AllVisits(SCHEMA, 0) && v.Beyond? && v.pattern == c.nodes;
    AllVisitsAre(SCHEMA, 0, v);
  }

  lemma FitsStart(schema: Schema, store: Store, root: NodeId, way: seq<RelId>, links: seq<Link>, j: nat)
    requires ValidSchema(schema) && Known(schema, way) && j <= |way|
    requires Fits(store, root, PatternOf(schema, way), links)
    ensures |links| == |way| && Known(schema, way[..j])
    ensures Fits(store, root, PatternOf(schema, way[..j]), links[..j])
  {
    FitsAreAsLong(store, root, PatternOf(schema, way), links);
    PatternIsAsLong(schema, way);
    KnownStart(schema, way, j);
    PatternIsAsLong(schema, way[..j]);
    assert links == links[..j] + links[j..];
    FitsBoth(store, root, PatternOf(schema, way[..j]), PatternOf(schema, way[j..]), links[..j], links[j..]);
  }

  /** A way one part too far has come over a part before. */
  lemma BeyondComesOverAPart(way: seq<RelId>) returns (i: nat)
    requires ValidSchema(SCHEMA) && WayBeyond(SCHEMA, 0, [], way)
    ensures Known(SCHEMA, way) && i < |way| - 1 && way[i] == 0
  {
    WaysAreOfRels(SCHEMA, 0, [], way);
    BeyondRepeats(SCHEMA, 0, [], way);
    var before := way[..|way| - 1];
    assert [] + before == before;
    OnlyPartsRepeat(way, before);
    CountedIsThere(before, 0);
    i :| 0 <= i < |before| && before[i] == 0;
  }

  lemma OnlyPartsRepeat(way: seq<RelId>, before: seq<RelId>)
    requires Repeats(SCHEMA, way, before)
    ensures Last(way) == 0 && Count(before, 0) > 0
  {
  }

  lemma BeyondTakesAPart(way: seq<RelId>, links: seq<Link>)
    requires ValidSchema(SCHEMA) && WayBeyond(SCHEMA, 0, [], way) && Known(SCHEMA, way)
    ensures !(Fits(STORE, 0, PatternOf(SCHEMA, way), links) && NoEdgeTwice(links))
  {
    if Fits(STORE, 0, PatternOf(SCHEMA, way), links) && NoEdgeTwice(links) {
      var i := BeyondComesOverAPart(way);
      var last := |way| - 1;
      WayStarts(SCHEMA, 0, [], way, last);
      FitsStart(SCHEMA, STORE, 0, way, links, last);
      TakenGoes(way[..last], links[..last]);
      NoPartIsTaken(way[..last], links[..last], i);
      assert false;
    }
  }

  lemma WayToOne()
    requires ValidSchema(SCHEMA)
    ensures Way(SCHEMA, 0, [], [1, 2, 3])
    ensures PatternOf(SCHEMA, [1, 2, 3]) == [StepOf(SCHEMA, 1), StepOf(SCHEMA, 2), StepOf(SCHEMA, 3)]
  {
    assert Way(SCHEMA, 2, [1, 2], [3]);
    assert [2, 3][1..] == [3] && [1] + [2] == [1, 2];
    assert Way(SCHEMA, 1, [1], [2, 3]);
    assert [1, 2, 3][1..] == [2, 3] && [] + [1] == [1];
    assert PatternOf(SCHEMA, [3]) == [StepOf(SCHEMA, 3)];
    assert PatternOf(SCHEMA, [2, 3]) == [StepOf(SCHEMA, 2), StepOf(SCHEMA, 3)];
  }

  lemma LinksToOne()
    requires ValidSchema(SCHEMA)
    ensures Fits(STORE, 0, [StepOf(SCHEMA, 1), StepOf(SCHEMA, 2), StepOf(SCHEMA, 3)], [Link(0, 1), Link(1, 2),
      Link(2, 1)])
  {
    assert Fits(STORE, 2, [StepOf(SCHEMA, 3)], [Link(2, 1)]);
    assert [Link(1, 2), Link(2, 1)][1..] == [Link(2, 1)];
    assert [StepOf(SCHEMA, 2), StepOf(SCHEMA, 3)][1..] == [StepOf(SCHEMA, 3)];
    assert Fits(STORE, 1, [StepOf(SCHEMA, 2), StepOf(SCHEMA, 3)], [Link(1, 2), Link(2, 1)]);
    assert [Link(0, 1), Link(1, 2), Link(2, 1)][1..] == [Link(1, 2), Link(2, 1)];
    assert [StepOf(SCHEMA, 1), StepOf(SCHEMA, 2), StepOf(SCHEMA, 3)][1..] == [StepOf(SCHEMA, 2), StepOf(SCHEMA, 3)];
  }

  lemma OneIsOfTheView()
    requires ValidSchema(SCHEMA)
    ensures OfView(SCHEMA, STORE, 0, 0, 0, 1)
  {
    WayToOne();
    LinksToOne();
    assert NoEdgeTwice([Link(0, 1), Link(1, 2), Link(2, 1)]) && Last([1, 2, 3]) == 3;
    assert EndOf(0, [Link(0, 1), Link(1, 2), Link(2, 1)]) == 1;
    assert Taken(SCHEMA, STORE, 0, 0, [1, 2, 3], [Link(0, 1), Link(1, 2), Link(2, 1)]);
  }

  /**
   * The delete goes ahead: it takes 1 as one of the view, and leaves 3 behind, which is a part of 2, which is a part of
   * 1. The view's nodes are not closed: 2 is taken as another view's alone.
   */
  lemma ChecksAloneAreNotEnough()
    ensures ValidSchema(SCHEMA) && IsSelf(SCHEMA, 0, 0) && ChecksPass(SCHEMA, STORE, 0, 0)
    ensures OfView(SCHEMA, STORE, 0, 0, 0, 1)
    ensures Takes(STORE, 1, StepOf(SCHEMA, 0), Link(1, 2)) && Takes(STORE, 2, StepOf(SCHEMA, 0), Link(3, 3))
    ensures !InTargets(SCHEMA, STORE, 0, 0, 3)
    ensures !ClosedUnder(SCHEMA, STORE, 0, 0, 0, 0)
  {
    SchemaIsValid();
    ChecksFindNothing();
    OneIsOfTheView();
    ThreeIsNoTarget();
    PartsOfOne();
    ClosedWouldTakeThree();
  }

  lemma PartsOfOne()
    requires ValidSchema(SCHEMA)
    ensures Takes(STORE, 1, StepOf(SCHEMA, 0), Link(1, 2)) && Takes(STORE, 2, StepOf(SCHEMA, 0), Link(3, 3))
  {
  }

  lemma ClosedWouldTakeThree()
    requires ValidSchema(SCHEMA) && OfView(SCHEMA, STORE, 0, 0, 0, 1) && !InTargets(SCHEMA, STORE, 0, 0, 3)
    ensures !ClosedUnder(SCHEMA, STORE, 0, 0, 0, 0)
  {
    PartsOfOne();
    if ClosedUnder(SCHEMA, STORE, 0, 0, 0, 0) {
      assert OfView(SCHEMA, STORE, 0, 0, 0, Link(1, 2).node);
      assert OfView(SCHEMA, STORE, 0, 0, 0, Link(3, 3).node);
      OfViewIsTarget(3);
      assert false;
    }
  }

  lemma OfViewIsTarget(n: NodeId)
    requires ValidSchema(SCHEMA) && OfView(SCHEMA, STORE, 0, 0, 0, n) && n != 0
    ensures InTargets(SCHEMA, STORE, 0, 0, n)
  {
    var way, links :| EndsIn(SCHEMA, way, 0) && Taken(SCHEMA, STORE, 0, 0, way, links) && EndOf(0, links) == n;
    AllVisitsAre(SCHEMA, 0, Followed(way, PatternOf(SCHEMA, way)));
    assert Reaches(STORE, 0, PatternOf(SCHEMA, way), n);
  }
}
