/**
 * What a cascade's depth checks mean (src/backend/CypherBackend.ts:165-185, src/backend/CascadeTargets.ts:88-110): when
 * each counts 0, going down a view's relationship to its own class no further than its maxDepth leaves nothing of it
 * behind, at any depth, but for what a pattern cannot take since it has taken the same stored relationship before.
 */
module CascadeDepth {
  import opened Graphs
  import opened Cascades
  import opened CascadeLists

  // ---- Longer and shorter ways

  ghost predicate EndsIn(schema: Schema, way: seq<RelId>, view: ViewId) {
    way != [] && Last(way) < |schema.rels| && schema.rels[Last(way)].into == Target.View(view)
  }

  lemma {:induction false} CountBoth(a: seq<RelId>, b: seq<RelId>, r: RelId)
    ensures Count(a + b, r) == Count(a, r) + Count(b, r)
    decreases |b|
  {
    if b == [] {
      assert a + b == a;
    } else {
      CountBoth(a, b[..|b| - 1], r);
      assert (a + b)[..|a + b| - 1] == a + b[..|b| - 1];
    }
  }

  /** A way that ends in a view, or has not begun, from which a relationship goes on. */
  ghost predicate LeadsOn(schema: Schema, start: ViewId, path: seq<RelId>, way: seq<RelId>, view: ViewId, r: RelId)
    requires ValidSchema(schema) && start < |schema.views|
  {
    && view < |schema.views| && r in schema.views[view].relationships && !ReadOnly(schema.rels[r])
    && if way == [] then start == view else Way(schema, start, path, way) && EndsIn(schema, way, view)
  }

  /** One step further from a view the way ends in, where it is allowed. */
  lemma {:induction false} WayGoesOn(
      schema: Schema, start: ViewId, path: seq<RelId>, way: seq<RelId>, view: ViewId, r: RelId)
    requires ValidSchema(schema) && start < |schema.views| && LeadsOn(schema, start, path, way, view, r)
    requires Count(path + way, r) < schema.rels[r].maxDepth
    ensures Way(schema, start, path, way + [r])
    decreases |way|
  {
    if way == [] {
      assert path + way == path;
    } else {
      var first, rest, on := way[0], way[1..], way + [r];
      assert on[0] == first && on[1..] == rest + [r] && |on| > 1;
      assert path + way == path + [first] + rest;
      assert rest != [] ==> Last(rest) == Last(way);
      var into := if rest == [] then view else schema.rels[first].into.view;
      assert schema.rels[first].into == Target.View(into);
      WayGoesOn(schema, into, path + [first], rest, view, r);
    }
  }

  /** And the step the recursion stops at, where it is not. */
  lemma {:induction false} WayGoesBeyond(
      schema: Schema, start: ViewId, path: seq<RelId>, way: seq<RelId>, view: ViewId, r: RelId)
    requires ValidSchema(schema) && start < |schema.views| && LeadsOn(schema, start, path, way, view, r)
    requires Count(path + way, r) >= schema.rels[r].maxDepth && schema.rels[r].into == Target.View(view)
    ensures WayBeyond(schema, start, path, way + [r])
    decreases |way|
  {
    if way == [] {
      assert path + way == path;
    } else {
      var first, rest, on := way[0], way[1..], way + [r];
      assert on[0] == first && on[1..] == rest + [r] && |on| > 1;
      assert path + way == path + [first] + rest;
      assert rest != [] ==> Last(rest) == Last(way);
      var into := if rest == [] then view else schema.rels[first].into.view;
      assert schema.rels[first].into == Target.View(into);
      WayGoesBeyond(schema, into, path + [first], rest, view, r);
    }
  }

  /** The start of a way is one, and it ends in the view that declares the next relationship. */
  lemma {:induction false} WayStarts(schema: Schema, start: ViewId, path: seq<RelId>, way: seq<RelId>, j: nat)
    requires ValidSchema(schema) && start < |schema.views| && 0 < j <= |way|
    requires Way(schema, start, path, way) || (j < |way| && WayBeyond(schema, start, path, way))
    ensures Way(schema, start, path, way[..j])
    ensures j < |way| ==> way[j - 1] < |schema.rels| && schema.rels[way[j - 1]].into.View?
    decreases |way|
  {
    var r := way[0];
    if j == 1 {
      assert way[..1] == [r];
    } else {
      var into, rest := schema.rels[r].into.view, way[1..];
      var begun := rest[..j - 1];
      if Way(schema, start, path, way) {
        assert Way(schema, into, path + [r], rest);
      } else {
        assert WayBeyond(schema, into, path + [r], rest);
      }
      WayStarts(schema, into, path + [r], rest, j - 1);
      assert way[..j] == [r] + begun && way[..j][1..] == begun;
      assert rest[j - 2] == way[j - 1];
    }
  }

  lemma {:induction false} PatternBoth(schema: Schema, a: seq<RelId>, b: seq<RelId>)
    requires ValidSchema(schema) && Known(schema, a) && Known(schema, b)
    ensures Known(schema, a + b) && PatternOf(schema, a + b) == PatternOf(schema, a) + PatternOf(schema, b)
    decreases |a|
  {
    if a == [] {
      assert a + b == b;
    } else {
      PatternBoth(schema, a[1..], b);
      assert (a + b)[1..] == a[1..] + b;
    }
  }

  lemma {:induction false} FitsBoth(store: Store, from: NodeId, p: Pattern, q: Pattern, a: seq<Link>, b: seq<Link>)
    requires |p| == |a|
    ensures Fits(store, from, p + q, a + b) <==> Fits(store, from, p, a) && Fits(store, EndOf(from, a), q, b)
    decreases |a|
  {
    if a == [] {
      assert p + q == q && a + b == b;
    } else {
      FitsBoth(store, a[0].node, p[1..], q, a[1..], b);
      assert (p + q)[1..] == p[1..] + q && (a + b)[1..] == a[1..] + b;
    }
  }

  // ---- The nodes of a view

  /** The node is taken as one of the view, or is the root of a cascade of that view. */
  ghost predicate OfView(schema: Schema, store: Store, start: ViewId, root: NodeId, view: ViewId, n: NodeId)
    requires ValidSchema(schema) && start < |schema.views|
  {
    || (start == view && n == root)
    || exists way, links ::
         EndsIn(schema, way, view) && Taken(schema, store, start, root, way, links) && EndOf(root, links) == n
  }

  /** Each check counts no node: what lies one level further is the root or in one of its lists. */
  ghost predicate ChecksPass(schema: Schema, store: Store, start: ViewId, root: NodeId)
    requires ValidSchema(schema) && start < |schema.views|
  {
    forall c <- CascadeFrom(schema, EMPTY, start).beyond, n | Reaches(store, root, c.nodes, n) ::
      n == root || exists p <- c.within :: Reaches(store, root, p, n)
  }

  lemma CheckFinds(schema: Schema, start: ViewId, way: seq<RelId>, view: ViewId) returns (c: DepthCheck)
    requires ValidSchema(schema) && start < |schema.views|
    requires WayBeyond(schema, start, [], way) && EndsIn(schema, way, view)
    ensures c in CascadeFrom(schema, EMPTY, start).beyond
    ensures Known(schema, way) && c.nodes == PatternOf(schema, way)
    ensures forall p <- c.within :: exists v <- AllVisits(schema, start) ::
      v.Followed? && EndsIn(schema, v.way, view) && v.pattern == p
  {
    var vs := AllVisits(schema, start);
    WaysAreOfRels(schema, start, [], way);
    var v := Beyond(way, PatternOf(schema, way));
    AllVisitsAre(schema, start, v);
    ChecksAre(schema, vs, view, Last(way), v.pattern);
    assert v.Beyond? && Last(v.way) == Last(way) && Into(schema, v, view) && v.pattern == v.pattern;
    var s := After(schema, EMPTY, vs);
    var i :| 0 <= i < |s.beyond| && s.beyond[i] == DepthCheck(view, Last(way), v.pattern, []);
    c := CascadeFrom(schema, EMPTY, start).beyond[i];
    assert c.within == ListsOf(s.views, view);
    VisitsAreOfRels(schema, start);
    forall p <- c.within ensures exists f <- vs :: f.Followed? && EndsIn(schema, f.way, view) && f.pattern == p {
      ViewsAre(schema, vs, view, p);
      var f :| f in vs && f.Followed? && Into(schema, f, view) && f.pattern == p;
      assert EndsIn(schema, f.way, view);
    }
  }

  /** A node one level too far is, when the checks pass, the root or one of the view. */
  lemma BeyondIsOfView(
      schema: Schema, store: Store, start: ViewId, root: NodeId, way: seq<RelId>, view: ViewId, links: seq<Link>)
    requires ValidSchema(schema) && start < |schema.views| && ChecksPass(schema, store, start, root)
    requires WayBeyond(schema, start, [], way) && EndsIn(schema, way, view) && Known(schema, way)
    requires Fits(store, root, PatternOf(schema, way), links) && NoEdgeTwice(links)
    ensures EndOf(root, links) == root || OfView(schema, store, start, root, view, EndOf(root, links))
  {
    var n := EndOf(root, links);
    var c := CheckFinds(schema, start, way, view);
    assert Reaches(store, root, c.nodes, n);
    if n != root {
      var p :| p in c.within && Reaches(store, root, p, n);
      var f :| f in AllVisits(schema, start) && f.Followed? && EndsIn(schema, f.way, view) && f.pattern == p;
      AllVisitsAre(schema, start, f);
      var there :| Fits(store, root, p, there) && NoEdgeTwice(there) && EndOf(root, there) == n;
      assert Taken(schema, store, start, root, f.way, there);
    }
  }

  // ---- Closure

  /** Nothing of the view hangs below the nodes the cascade takes of it. */
  ghost predicate ClosedUnder(schema: Schema, store: Store, start: ViewId, root: NodeId, view: ViewId, r: RelId)
    requires ValidSchema(schema) && start < |schema.views| && r < |schema.rels|
  {
    forall s, link | OfView(schema, store, start, root, view, s) && Takes(store, s, StepOf(schema, r), link) ::
      OfView(schema, store, start, root, view, link.node)
  }

  /** Where a stored relationship the way has taken would be taken again, it leads to a node of the view. */
  ghost predicate ReusedStays(schema: Schema, store: Store, start: ViewId, root: NodeId, view: ViewId, r: RelId)
    requires ValidSchema(schema) && start < |schema.views| && r < |schema.rels|
  {
    forall way, links, link |
      && EndsIn(schema, way, view) && Taken(schema, store, start, root, way, links)
      && Takes(store, EndOf(root, links), StepOf(schema, r), link) && Uses(links, link.edge) ::
      OfView(schema, store, start, root, view, link.node)
  }

  /** A relationship of the view to its own class, that a cascade follows. */
  ghost predicate IsSelf(schema: Schema, view: ViewId, r: RelId)
    requires ValidSchema(schema)
  {
    && view < |schema.views|
    && r in schema.views[view].relationships
    && !ReadOnly(schema.rels[r])
    && schema.rels[r].into == Target.View(view)
  }

  /** The root of another view is not one of this view's as well, one level below where the cascade stops. */
  ghost predicate RootIsNotBelow(schema: Schema, store: Store, start: ViewId, root: NodeId, view: ViewId)
    requires ValidSchema(schema) && start < |schema.views|
  {
    start == view || !exists v <- AllVisits(schema, start) ::
      v.Beyond? && EndsIn(schema, v.way, view) && Reaches(store, root, v.pattern, root)
  }

  lemma FitsOneMore(schema: Schema, store: Store, root: NodeId, way: seq<RelId>, r: RelId, links: seq<Link>, link: Link)
    requires ValidSchema(schema) && Known(schema, way) && r < |schema.rels|
    requires Fits(store, root, PatternOf(schema, way), links) && NoEdgeTwice(links)
    requires Takes(store, EndOf(root, links), StepOf(schema, r), link) && !Uses(links, link.edge)
    ensures Known(schema, way + [r])
    ensures Fits(store, root, PatternOf(schema, way + [r]), links + [link]) && NoEdgeTwice(links + [link])
  {
    PatternBoth(schema, way, [r]);
    assert PatternOf(schema, [r]) == [StepOf(schema, r)];
    FitsAreAsLong(store, root, PatternOf(schema, way), links);
    FitsBoth(store, root, PatternOf(schema, way), [StepOf(schema, r)], links, [link]);
  }

  /** A relationship the way has not taken yet leads to a node of the view. */
  lemma FreshStays(
      schema: Schema, store: Store, start: ViewId, root: NodeId, view: ViewId, r: RelId, way: seq<RelId>,
      links: seq<Link>, link: Link)
    requires ValidSchema(schema) && start < |schema.views| && ChecksPass(schema, store, start, root)
    requires IsSelf(schema, view, r) && RootIsNotBelow(schema, store, start, root, view)
    requires if way == [] then start == view && links == []
      else EndsIn(schema, way, view) && Taken(schema, store, start, root, way, links)
    requires Takes(store, EndOf(root, links), StepOf(schema, r), link) && !Uses(links, link.edge)
    ensures OfView(schema, store, start, root, view, link.node)
  {
    assert [] + way == way;
    FitsOneMore(schema, store, root, way, r, links, link);
    var on, onLinks := way + [r], links + [link];
    assert EndsIn(schema, on, view) && EndOf(root, onLinks) == link.node;
    if Count(way, r) < schema.rels[r].maxDepth {
      WayGoesOn(schema, start, [], way, view, r);
      TakenIsOfView(schema, store, start, root, view, on, onLinks);
    } else {
      WayGoesBeyond(schema, start, [], way, view, r);
      BeyondStays(schema, store, start, root, view, on, onLinks);
    }
  }

  lemma TakenIsOfView(
      schema: Schema, store: Store, start: ViewId, root: NodeId, view: ViewId, way: seq<RelId>, links: seq<Link>)
    requires ValidSchema(schema) && start < |schema.views|
    requires EndsIn(schema, way, view) && Taken(schema, store, start, root, way, links)
    ensures OfView(schema, store, start, root, view, EndOf(root, links))
  {
  }

  lemma BeyondStays(
      schema: Schema, store: Store, start: ViewId, root: NodeId, view: ViewId, way: seq<RelId>, links: seq<Link>)
    requires ValidSchema(schema) && start < |schema.views| && ChecksPass(schema, store, start, root)
    requires RootIsNotBelow(schema, store, start, root, view) && Known(schema, way) && EndsIn(schema, way, view)
    requires WayBeyond(schema, start, [], way) && Fits(store, root, PatternOf(schema, way), links) && NoEdgeTwice(links)
    ensures OfView(schema, store, start, root, view, EndOf(root, links))
  {
    BeyondIsOfView(schema, store, start, root, way, view, links);
    if EndOf(root, links) == root && start != view {
      BeyondReaches(schema, store, start, root, view, way, links);
      assert false;
    }
  }

  lemma BeyondReaches(
      schema: Schema, store: Store, start: ViewId, root: NodeId, view: ViewId, way: seq<RelId>, links: seq<Link>)
    requires ValidSchema(schema) && start < |schema.views| && Known(schema, way) && EndsIn(schema, way, view)
    requires WayBeyond(schema, start, [], way) && Fits(store, root, PatternOf(schema, way), links) && NoEdgeTwice(links)
    ensures exists v <- AllVisits(schema, start) ::
      v.Beyond? && EndsIn(schema, v.way, view) && Reaches(store, root, v.pattern, EndOf(root, links))
  {
    var v := Beyond(way, PatternOf(schema, way));
    AllVisitsAre(schema, start, v);
    assert Reaches(store, root, v.pattern, EndOf(root, links));
  }

  /**
   * Bounded unrolling is unbounded reachability: with every check at 0, the view's nodes are closed under a
   * relationship to their own class exactly when those stay that a way would have to take twice.
   */
  lemma ChecksMeanClosed(schema: Schema, store: Store, start: ViewId, root: NodeId, view: ViewId, r: RelId)
    requires ValidSchema(schema) && start < |schema.views| && ChecksPass(schema, store, start, root)
    requires IsSelf(schema, view, r) && RootIsNotBelow(schema, store, start, root, view)
    ensures ClosedUnder(schema, store, start, root, view, r) <==> ReusedStays(schema, store, start, root, view, r)
  {
    if ReusedStays(schema, store, start, root, view, r) {
      forall s, link | OfView(schema, store, start, root, view, s) && Takes(store, s, StepOf(schema, r), link)
        ensures OfView(schema, store, start, root, view, link.node)
      {
        if start == view && s == root {
          FreshStays(schema, store, start, root, view, r, [], [], link);
        } else {
          var way, links :| EndsIn(schema, way, view) && Taken(schema, store, start, root, way, links)
            && EndOf(root, links) == s;
          if !Uses(links, link.edge) {
            FreshStays(schema, store, start, root, view, r, way, links, link);
          }
        }
      }
    }
  }

  // ---- When nothing is taken twice

  /** Whether two relationships of one type may take a stored one the same way round, or the other. */
  predicate Alike(a: Direction, b: Direction) {
    (a != Incoming && b != Incoming) || (a != Outgoing && b != Outgoing)
  }

  predicate Opposed(a: Direction, b: Direction) {
    (a != Incoming && b != Outgoing) || (a != Outgoing && b != Incoming)
  }

  /**
   * What the view models must be like: each relationship of the same type the cascade follows leads into the view where
   * it may take a stored relationship the same way round, and out of it where it may the other.
   */
  ghost predicate SameTypeIsOfView(schema: Schema, start: ViewId, view: ViewId, r: RelId)
    requires ValidSchema(schema) && start < |schema.views| && r < |schema.rels|
  {
    forall way | Way(schema, start, [], way) && Last(way) < |schema.rels|
      && schema.rels[Last(way)].hop.kind == schema.rels[r].hop.kind ::
      var q := schema.rels[Last(way)];
      && (Alike(q.hop.direction, schema.rels[r].hop.direction) ==> q.into == Target.View(view))
      && (Opposed(q.hop.direction, schema.rels[r].hop.direction) ==>
            if |way| == 1 then start == view else EndsIn(schema, way[..|way| - 1], view))
  }

  lemma {:induction false} KnownStart(schema: Schema, way: seq<RelId>, j: nat)
    requires ValidSchema(schema) && Known(schema, way) && j <= |way|
    ensures Known(schema, way[..j]) && Known(schema, way[j..])
    ensures PatternOf(schema, way) == PatternOf(schema, way[..j]) + PatternOf(schema, way[j..])
  {
    assert way == way[..j] + way[j..];
    PatternBoth(schema, way[..j], way[j..]);
  }

  /** What a way has taken when it is cut, and the step it takes next. */
  lemma TakenStarts(
      schema: Schema, store: Store, start: ViewId, root: NodeId, way: seq<RelId>, links: seq<Link>, j: nat)
    requires ValidSchema(schema) && start < |schema.views| && Taken(schema, store, start, root, way, links)
    requires j < |links|
    ensures |way| == |links| && Known(schema, way)
    ensures j > 0 ==> Taken(schema, store, start, root, way[..j], links[..j])
    ensures Takes(store, EndOf(root, links[..j]), StepOf(schema, way[j]), links[j])
  {
    FitsAreAsLong(store, root, PatternOf(schema, way), links);
    PatternIsAsLong(schema, way);
    KnownStart(schema, way, j);
    PatternIsAsLong(schema, way[..j]);
    assert links == links[..j] + links[j..];
    FitsBoth(store, root, PatternOf(schema, way[..j]), PatternOf(schema, way[j..]), links[..j], links[j..]);
    if j > 0 {
      WayStarts(schema, start, [], way, j);
    }
  }

  /** The node a way is at after some of its steps, where it is then in the view. */
  lemma OnTheWay(
      schema: Schema, store: Store, start: ViewId, root: NodeId, view: ViewId, way: seq<RelId>, links: seq<Link>,
      j: nat)
    requires ValidSchema(schema) && start < |schema.views| && Taken(schema, store, start, root, way, links)
    requires j <= |links| && j <= |way| && if j == 0 then start == view else EndsIn(schema, way[..j], view)
    ensures OfView(schema, store, start, root, view, EndOf(root, links[..j]))
  {
    if 0 < j < |links| {
      TakenStarts(schema, store, start, root, way, links, j);
    } else if j > 0 {
      FitsAreAsLong(store, root, PatternOf(schema, way), links);
      PatternIsAsLong(schema, way);
      assert way[..j] == way && links[..j] == links;
    }
  }

  /** One stored relationship taken twice is taken the same way round, or back. */
  lemma EitherWayRound(e: Edge, a: NodeId, q: Hop, b: NodeId, c: NodeId, r: Hop, d: NodeId)
    requires Steps(e, a, q, b) && Steps(e, c, r, d)
    ensures q.kind == r.kind
    ensures (Alike(q.direction, r.direction) && b == d) || (Opposed(q.direction, r.direction) && a == d)
  {
  }

  lemma ReusedIsOfView(
      schema: Schema, store: Store, start: ViewId, root: NodeId, view: ViewId, r: RelId, way: seq<RelId>,
      links: seq<Link>, link: Link)
    requires ValidSchema(schema) && start < |schema.views| && r < |schema.rels|
    requires SameTypeIsOfView(schema, start, view, r)
    requires EndsIn(schema, way, view) && Taken(schema, store, start, root, way, links)
    requires Takes(store, EndOf(root, links), StepOf(schema, r), link) && Uses(links, link.edge)
    ensures OfView(schema, store, start, root, view, link.node)
  {
    var j :| 0 <= j < |links| && links[j].edge == link.edge;
    TakenStarts(schema, store, start, root, way, links, j);
    var q, mine := schema.rels[way[j]].hop, schema.rels[r].hop;
    EitherWayRound(
      store.g.edges[link.edge], EndOf(root, links[..j]), q, links[j].node, EndOf(root, links), mine, link.node);
    StepIsOfView(schema, store, start, root, view, r, way, links, j);
    if Alike(q.direction, mine.direction) && links[j].node == link.node {
      assert EndOf(root, links[..j + 1]) == links[j].node;
      OnTheWay(schema, store, start, root, view, way, links, j + 1);
    } else {
      OnTheWay(schema, store, start, root, view, way, links, j);
    }
  }

  /** What a step of the same type as a view's relationship to its own class leads into, and out of. */
  lemma StepIsOfView(
      schema: Schema, store: Store, start: ViewId, root: NodeId, view: ViewId, r: RelId, way: seq<RelId>,
      links: seq<Link>, j: nat)
    requires ValidSchema(schema) && start < |schema.views| && r < |schema.rels|
    requires SameTypeIsOfView(schema, start, view, r) && Taken(schema, store, start, root, way, links)
    requires j < |way| && schema.rels[way[j]].hop.kind == schema.rels[r].hop.kind
    ensures var q, mine := schema.rels[way[j]].hop, schema.rels[r].hop;
      && (Alike(q.direction, mine.direction) ==> EndsIn(schema, way[..j + 1], view))
      && (Opposed(q.direction, mine.direction) ==> if j == 0 then start == view else EndsIn(schema, way[..j], view))
  {
    var upTo := way[..j + 1];
    WayStarts(schema, start, [], way, j + 1);
    assert Last(upTo) == way[j] && upTo[..j] == way[..j];
  }

  /** With such models the checks at 0 mean that nothing of the view is left below, however deep the graph goes. */
  lemma ChecksMeanNothingLeft(schema: Schema, store: Store, start: ViewId, root: NodeId, view: ViewId, r: RelId)
    requires ValidSchema(schema) && start < |schema.views| && ChecksPass(schema, store, start, root)
    requires IsSelf(schema, view, r) && RootIsNotBelow(schema, store, start, root, view)
    requires SameTypeIsOfView(schema, start, view, r)
    ensures ClosedUnder(schema, store, start, root, view, r)
  {
    ChecksMeanClosed(schema, store, start, root, view, r);
    forall way, links, link |
      && EndsIn(schema, way, view) && Taken(schema, store, start, root, way, links)
      && Takes(store, EndOf(root, links), StepOf(schema, r), link) && Uses(links, link.edge)
      ensures OfView(schema, store, start, root, view, link.node)
    {
      ReusedIsOfView(schema, store, start, root, view, r, way, links, link);
    }
  }

  /** A walk down one relationship, each step from where the one before led. */
  predicate IsWalk(schema: Schema, store: Store, r: RelId, from: NodeId, walk: seq<Link>)
    requires ValidSchema(schema) && r < |schema.rels|
  {
    forall k: nat {:trigger walk[k]} | k < |walk| ::
      Takes(store, if k == 0 then from else walk[k - 1].node, StepOf(schema, r), walk[k])
  }

  /** And so for every walk down that relationship, of any length, from any node of the view. */
  lemma {:induction false} NothingIsLeftAtAnyDepth(
      schema: Schema, store: Store, start: ViewId, root: NodeId, view: ViewId, r: RelId, from: NodeId, walk: seq<Link>)
    requires ValidSchema(schema) && start < |schema.views| && r < |schema.rels|
    requires ClosedUnder(schema, store, start, root, view, r) && OfView(schema, store, start, root, view, from)
    requires IsWalk(schema, store, r, from, walk)
    ensures OfView(schema, store, start, root, view, EndOf(from, walk))
    decreases |walk|
  {
    if walk != [] {
      var first := walk[0];
      assert Takes(store, from, StepOf(schema, r), first);
      forall k: nat | k < |walk[1..]|
        ensures Takes(store, if k == 0 then first.node else walk[1..][k - 1].node, StepOf(schema, r), walk[1..][k])
      {
        assert walk[1..][k] == walk[k + 1];
      }
      NothingIsLeftAtAnyDepth(schema, store, start, root, view, r, first.node, walk[1..]);
    }
  }
}
