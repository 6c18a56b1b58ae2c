/**
 * Which nodes a load of a view holds whatever its engine lists first (src/backend/ViewProjector.ts:101-137), and so
 * when a cascade takes the nodes a load holds and no others (src/backend/CascadeTargets.ts:46-55).
 */
module CascadeCertain {
  import opened Graphs
  import opened Cascades
  import opened CascadeLoads

  /**
   * Whether a load comes to the node, going on from a view's node, whatever is listed first: over some match of a list,
   * or over every match of a field of one node, of which there is one.
   */
  ghost predicate Certain(
      schema: Schema, store: Store, root: NodeId, view: ViewId, path: seq<RelId>, trail: seq<Link>, n: NodeId)
    requires ValidSchema(schema) && view < |schema.views|
    decreases Measure(schema, path), 2
  {
    exists r <- schema.views[view].relationships ::
      !ReadOnly(schema.rels[r]) && Count(path, r) < schema.rels[r].maxDepth
      && FieldLeads(schema, store, root, path, trail, r, n)
  }

  ghost predicate FieldLeads(
      schema: Schema, store: Store, root: NodeId, path: seq<RelId>, trail: seq<Link>, r: RelId, n: NodeId)
    requires ValidSchema(schema) && r < |schema.rels| && Count(path, r) < schema.rels[r].maxDepth
    decreases Measure(schema, path), 1
  {
    var from, step := EndOf(root, trail), StepOf(schema, r);
    if schema.rels[r].isCollection then
      exists link :: Takes(store, from, step, link) && Leads(schema, store, root, path, trail, r, link, n)
    else
      && (exists link :: Takes(store, from, step, link))
      && forall link | Takes(store, from, step, link) :: Leads(schema, store, root, path, trail, r, link, n)
  }

  /** Whether a match is, or certainly leads to, the node, over relationships none of which is taken twice. */
  ghost predicate Leads(
      schema: Schema, store: Store, root: NodeId, path: seq<RelId>, trail: seq<Link>, r: RelId, link: Link, n: NodeId)
    requires ValidSchema(schema) && r < |schema.rels| && Count(path, r) < schema.rels[r].maxDepth
    decreases Measure(schema, path), 0
  {
    StepTakesOne(schema, path, r, |schema.rels|);
    && !Uses(trail, link.edge)
    && (link.node == n
        || (schema.rels[r].into.View?
            && Certain(schema, store, root, schema.rels[r].into.view, path + [r], trail + [link], n)))
  }

  /** A way on from where a load has come to, that it reads, and that takes no relationship twice. */
  ghost predicate ReadsOn(
      schema: Schema, store: Store, root: NodeId, firsts: Firsts, view: ViewId, path: seq<RelId>, trail: seq<Link>,
      way: seq<RelId>, links: seq<Link>)
    requires ValidSchema(schema) && view < |schema.views|
  {
    && Way(schema, view, path, way) && Known(schema, way)
    && Fits(store, EndOf(root, trail), PatternOf(schema, way), links)
    && AllRead(schema, firsts, path, trail, way, links)
    && NoEdgeTwice(trail + links)
  }

  lemma ReadsOnIsLoaded(
      schema: Schema, store: Store, root: NodeId, firsts: Firsts, view: ViewId, way: seq<RelId>, links: seq<Link>)
    requires ValidSchema(schema) && view < |schema.views|
    ensures ReadsOn(schema, store, root, firsts, view, [], [], way, links)
      <==> IsLoaded(schema, store, firsts, view, root, way, links)
  {
    LoadedIsTaken(schema, store, firsts, view, root, way, links);
    assert [] + links == links;
  }

  lemma LastRead(
      schema: Schema, store: Store, root: NodeId, firsts: Firsts, view: ViewId, path: seq<RelId>, trail: seq<Link>,
      r: RelId, link: Link, more: seq<Link>)
    requires ValidSchema(schema) && view < |schema.views| && r in schema.views[view].relationships
    requires !ReadOnly(schema.rels[r]) && Count(path, r) < schema.rels[r].maxDepth
    ensures ReadsOn(schema, store, root, firsts, view, path, trail, [r], [link] + more) <==>
      && Takes(store, EndOf(root, trail), StepOf(schema, r), link) && IsRead(schema, firsts, r, path, trail, link)
      && NoEdgeTwice(trail + [link]) && more == []
  {
    var links := [link] + more;
    assert [r] + [] == [r] && [r][1..] == [] && links[1..] == more;
    FitsStep(schema, store, EndOf(root, trail), r, [], links);
    assert Known(schema, [r]) && PatternOf(schema, []) == [];
    assert Fits(store, link.node, [], more) <==> more == [];
    assert more == [] ==> trail + links == trail + [link];
    assert Way(schema, view, path, [r]);
    assert AllRead(schema, firsts, path, trail, [r], links) <==> IsRead(schema, firsts, r, path, trail, link);
    assert Fits(store, EndOf(root, trail), PatternOf(schema, [r]), links)
      <==> Takes(store, EndOf(root, trail), StepOf(schema, r), link) && more == [];
  }

  lemma OneMoreRead(
      schema: Schema, store: Store, root: NodeId, firsts: Firsts, view: ViewId, path: seq<RelId>, trail: seq<Link>,
      r: RelId, link: Link, rest: seq<RelId>, more: seq<Link>)
    requires ValidSchema(schema) && view < |schema.views| && r in schema.views[view].relationships
    requires !ReadOnly(schema.rels[r]) && Count(path, r) < schema.rels[r].maxDepth && rest != []
    ensures ReadsOn(schema, store, root, firsts, view, path, trail, [r] + rest, [link] + more) <==>
      && Takes(store, EndOf(root, trail), StepOf(schema, r), link) && IsRead(schema, firsts, r, path, trail, link)
      && schema.rels[r].into.View?
      && ReadsOn(schema, store, root, firsts, schema.rels[r].into.view, path + [r], trail + [link], rest, more)
  {
    var way, links := [r] + rest, [link] + more;
    assert way[1..] == rest && links[1..] == more && trail + links == trail + [link] + more;
    FitsStep(schema, store, EndOf(root, trail), r, rest, links);
    assert EndOf(root, trail + [link]) == link.node;
  }

  lemma Extended(trail: seq<Link>, link: Link)
    requires NoEdgeTwice(trail)
    ensures NoEdgeTwice(trail + [link]) <==> !Uses(trail, link.edge)
  {
    if NoEdgeTwice(trail + [link]) {
      forall i | 0 <= i < |trail| ensures trail[i].edge != link.edge {
        assert (trail + [link])[i].edge != (trail + [link])[|trail|].edge;
      }
    }
  }

  /** What is certain is read, whatever is listed first. */
  lemma {:induction false} CertainIsRead(
      schema: Schema, store: Store, root: NodeId, firsts: Firsts, view: ViewId, path: seq<RelId>, trail: seq<Link>,
      n: NodeId) returns (way: seq<RelId>, links: seq<Link>)
    requires ValidSchema(schema) && view < |schema.views| && AreFirsts(schema, store, root, firsts)
    requires Certain(schema, store, root, view, path, trail, n) && NoEdgeTwice(trail)
    ensures ReadsOn(schema, store, root, firsts, view, path, trail, way, links)
    ensures links != [] && links[|links| - 1].node == n
    decreases Measure(schema, path)
  {
    var r := LeadingField(schema, store, root, view, path, trail, n);
    var link := FieldMatch(schema, store, root, firsts, path, trail, r, n);
    Extended(trail, link);
    if link.node == n {
      LastRead(schema, store, root, firsts, view, path, trail, r, link, []);
      assert [link] + [] == [link];
      way, links := [r], [link];
    } else {
      var into := GoesDown(schema, store, root, path, trail, r, link, n);
      var rest, more := CertainIsRead(schema, store, root, firsts, into, path + [r], trail + [link], n);
      OneMoreRead(schema, store, root, firsts, view, path, trail, r, link, rest, more);
      way, links := [r] + rest, [link] + more;
    }
  }

  lemma LeadingField(
      schema: Schema, store: Store, root: NodeId, view: ViewId, path: seq<RelId>, trail: seq<Link>, n: NodeId)
      returns (r: RelId)
    requires ValidSchema(schema) && view < |schema.views| && Certain(schema, store, root, view, path, trail, n)
    ensures r in schema.views[view].relationships && !ReadOnly(schema.rels[r])
    ensures Count(path, r) < schema.rels[r].maxDepth && FieldLeads(schema, store, root, path, trail, r, n)
  {
    r :| r in schema.views[view].relationships && !ReadOnly(schema.rels[r])
      && Count(path, r) < schema.rels[r].maxDepth && FieldLeads(schema, store, root, path, trail, r, n);
  }

  lemma GoesDown(
      schema: Schema, store: Store, root: NodeId, path: seq<RelId>, trail: seq<Link>, r: RelId, link: Link, n: NodeId)
      returns (into: ViewId)
    requires ValidSchema(schema) && r < |schema.rels| && Count(path, r) < schema.rels[r].maxDepth
    requires Leads(schema, store, root, path, trail, r, link, n) && link.node != n
    ensures schema.rels[r].into == Target.View(into) && into < |schema.views|
    ensures Certain(schema, store, root, into, path + [r], trail + [link], n)
    ensures Measure(schema, path + [r]) < Measure(schema, path) && !Uses(trail, link.edge)
  {
    StepTakesOne(schema, path, r, |schema.rels|);
    into := schema.rels[r].into.view;
  }

  lemma FieldMatch(
      schema: Schema, store: Store, root: NodeId, firsts: Firsts, path: seq<RelId>, trail: seq<Link>, r: RelId,
      n: NodeId) returns (link: Link)
    requires ValidSchema(schema) && r < |schema.rels| && Count(path, r) < schema.rels[r].maxDepth
    requires AreFirsts(schema, store, root, firsts) && FieldLeads(schema, store, root, path, trail, r, n)
    ensures Takes(store, EndOf(root, trail), StepOf(schema, r), link) && IsRead(schema, firsts, r, path, trail, link)
    ensures Leads(schema, store, root, path, trail, r, link, n)
  {
    var from, step := EndOf(root, trail), StepOf(schema, r);
    if schema.rels[r].isCollection {
      link :| Takes(store, from, step, link) && Leads(schema, store, root, path, trail, r, link, n);
    } else {
      assert HeadFits(schema, store, root, firsts, path, r, trail);
      link := firsts(path + [r], trail);
    }
  }

  // ---- An order that keeps away from a node

  /** A match that does not lead to the node, where there is one. */
  ghost function Away(
      schema: Schema, store: Store, root: NodeId, path: seq<RelId>, trail: seq<Link>, r: RelId, n: NodeId)
      : (link: Link)
    requires ValidSchema(schema) && r < |schema.rels|
    ensures (exists it :: Takes(store, EndOf(root, trail), StepOf(schema, r), it)) ==>
      Takes(store, EndOf(root, trail), StepOf(schema, r), link)
    ensures Count(path, r) < schema.rels[r].maxDepth && !schema.rels[r].isCollection ==>
      (exists it :: Takes(store, EndOf(root, trail), StepOf(schema, r), it)) ==>
      !FieldLeads(schema, store, root, path, trail, r, n) ==> !Leads(schema, store, root, path, trail, r, link, n)
  {
    var from, step := EndOf(root, trail), StepOf(schema, r);
    if Count(path, r) < schema.rels[r].maxDepth
       && exists it :: Takes(store, from, step, it) && !Leads(schema, store, root, path, trail, r, it, n)
    then
      var it :| Takes(store, from, step, it) && !Leads(schema, store, root, path, trail, r, it, n);
      it
    else AMatch(store, from, step)
  }

  ghost function KeepingAway(schema: Schema, store: Store, root: NodeId, n: NodeId): Firsts
    requires ValidSchema(schema)
  {
    (p: seq<RelId>, trail: seq<Link>) =>
      if p == [] || p[|p| - 1] >= |schema.rels| then Link(0, 0)
      else Away(schema, store, root, p[..|p| - 1], trail, p[|p| - 1], n)
  }

  lemma AwayIsFirst(schema: Schema, store: Store, root: NodeId, path: seq<RelId>, trail: seq<Link>, r: RelId, n: NodeId)
    requires ValidSchema(schema) && r < |schema.rels|
    ensures KeepingAway(schema, store, root, n)(path + [r], trail) == Away(schema, store, root, path, trail, r, n)
  {
    var p := path + [r];
    assert p[..|p| - 1] == path && p[|p| - 1] == r;
  }

  lemma AwayIsFirsts(schema: Schema, store: Store, root: NodeId, n: NodeId)
    requires ValidSchema(schema)
    ensures AreFirsts(schema, store, root, KeepingAway(schema, store, root, n))
  {
    forall path: seq<RelId>, r: RelId, trail: seq<Link> | r < |schema.rels|
      ensures HeadFits(schema, store, root, KeepingAway(schema, store, root, n), path, r, trail)
    {
      AwayIsFirst(schema, store, root, path, trail, r, n);
    }
  }

  /** A match such an order reads, where the field does not certainly lead to the node. */
  lemma ReadIsAway(
      schema: Schema, store: Store, root: NodeId, path: seq<RelId>, trail: seq<Link>, r: RelId, link: Link, n: NodeId)
    requires ValidSchema(schema) && r < |schema.rels| && Count(path, r) < schema.rels[r].maxDepth
    requires !FieldLeads(schema, store, root, path, trail, r, n)
    requires Takes(store, EndOf(root, trail), StepOf(schema, r), link)
    requires IsRead(schema, KeepingAway(schema, store, root, n), r, path, trail, link)
    ensures !Leads(schema, store, root, path, trail, r, link, n)
  {
    AwayIsFirst(schema, store, root, path, trail, r, n);
  }

  lemma StaysAway(
      schema: Schema, store: Store, root: NodeId, view: ViewId, path: seq<RelId>, trail: seq<Link>, r: RelId,
      link: Link, n: NodeId)
    requires ValidSchema(schema) && view < |schema.views| && !Certain(schema, store, root, view, path, trail, n)
    requires r in schema.views[view].relationships && !ReadOnly(schema.rels[r])
    requires Count(path, r) < schema.rels[r].maxDepth && !Uses(trail, link.edge)
    requires Takes(store, EndOf(root, trail), StepOf(schema, r), link)
    requires IsRead(schema, KeepingAway(schema, store, root, n), r, path, trail, link)
    ensures link.node != n
    ensures schema.rels[r].into.View? ==>
      !Certain(schema, store, root, schema.rels[r].into.view, path + [r], trail + [link], n)
  {
    ReadIsAway(schema, store, root, path, trail, r, link, n);
  }

  /** What is not certain is not read in that order. */
  lemma {:induction false} UncertainIsNotRead(
      schema: Schema, store: Store, root: NodeId, view: ViewId, path: seq<RelId>, trail: seq<Link>, n: NodeId,
      way: seq<RelId>, links: seq<Link>)
    requires ValidSchema(schema) && view < |schema.views| && !Certain(schema, store, root, view, path, trail, n)
    requires NoEdgeTwice(trail)
    requires ReadsOn(schema, store, root, KeepingAway(schema, store, root, n), view, path, trail, way, links)
    ensures links != [] && links[|links| - 1].node != n
    decreases |way|
  {
    var firsts := KeepingAway(schema, store, root, n);
    var r, link, rest, more := FirstRead(schema, store, root, firsts, view, path, trail, way, links);
    StaysAway(schema, store, root, view, path, trail, r, link, n);
    if rest != [] {
      var into := schema.rels[r].into.view;
      UncertainIsNotRead(schema, store, root, into, path + [r], trail + [link], n, rest, more);
    }
  }

  /** A way that is read, as its first step and the rest. */
  lemma FirstRead(
      schema: Schema, store: Store, root: NodeId, firsts: Firsts, view: ViewId, path: seq<RelId>, trail: seq<Link>,
      way: seq<RelId>, links: seq<Link>)
      returns (r: RelId, link: Link, rest: seq<RelId>, more: seq<Link>)
    requires ValidSchema(schema) && view < |schema.views| && NoEdgeTwice(trail)
    requires ReadsOn(schema, store, root, firsts, view, path, trail, way, links)
    ensures way == [r] + rest && links == [link] + more
    ensures r in schema.views[view].relationships && !ReadOnly(schema.rels[r])
    ensures Count(path, r) < schema.rels[r].maxDepth
    ensures Takes(store, EndOf(root, trail), StepOf(schema, r), link) && IsRead(schema, firsts, r, path, trail, link)
    ensures NoEdgeTwice(trail + [link]) && !Uses(trail, link.edge)
    ensures if rest == [] then more == []
      else
        && schema.rels[r].into.View?
        && ReadsOn(schema, store, root, firsts, schema.rels[r].into.view, path + [r], trail + [link], rest, more)
  {
    FitsAreAsLong(store, EndOf(root, trail), PatternOf(schema, way), links);
    PatternIsAsLong(schema, way);
    r, link, rest, more := way[0], links[0], way[1..], links[1..];
    assert trail + links == trail + [link] + more;
    StartOfTrail(trail + [link], more);
    Extended(trail, link);
    if rest == [] {
      assert way == [r];
      LastRead(schema, store, root, firsts, view, path, trail, r, link, more);
    } else {
      OneMoreRead(schema, store, root, firsts, view, path, trail, r, link, rest, more);
    }
  }

  lemma StartOfTrail(a: seq<Link>, b: seq<Link>)
    requires NoEdgeTwice(a + b)
    ensures NoEdgeTwice(a)
  {
    forall i, j | 0 <= i < j < |a| ensures a[i].edge != a[j].edge {
      assert (a + b)[i] == a[i] && (a + b)[j] == a[j];
    }
  }

  // ---- Which nodes the two agree on

  /** A node is in every load, whatever its engine lists first, if and only if a load certainly comes to it. */
  lemma CertainIffAlwaysLoaded(schema: Schema, store: Store, view: ViewId, root: NodeId, n: NodeId)
    requires ValidSchema(schema) && view < |schema.views|
    ensures Certain(schema, store, root, view, [], [], n)
      <==> forall firsts | AreFirsts(schema, store, root, firsts) :: InLoad(schema, store, firsts, view, root, n)
  {
    if Certain(schema, store, root, view, [], [], n) {
      forall firsts | AreFirsts(schema, store, root, firsts) ensures InLoad(schema, store, firsts, view, root, n) {
        var way, links := CertainIsRead(schema, store, root, firsts, view, [], [], n);
        ReadsOnIsLoaded(schema, store, root, firsts, view, way, links);
      }
    } else {
      var firsts := KeepingAway(schema, store, root, n);
      AwayIsFirsts(schema, store, root, n);
      forall way, links | IsLoaded(schema, store, firsts, view, root, way, links) ensures EndOf(root, links) != n {
        ReadsOnIsLoaded(schema, store, root, firsts, view, way, links);
        UncertainIsNotRead(schema, store, root, view, [], [], n, way, links);
      }
    }
  }

  /**
   * The flat list holds the nodes a load holds and no others, whatever is listed first, if and only if a load certainly
   * comes to each node of the list.
   */
  lemma SameNodesIffCertain(schema: Schema, store: Store, view: ViewId, root: NodeId)
    requires ValidSchema(schema) && view < |schema.views|
    ensures (forall firsts, n | AreFirsts(schema, store, root, firsts) ::
               InTargets(schema, store, view, root, n) <==> InLoad(schema, store, firsts, view, root, n))
      <==> forall n | InTargets(schema, store, view, root, n) :: Certain(schema, store, root, view, [], [], n)
  {
    forall n ensures Certain(schema, store, root, view, [], [], n)
      <==> forall firsts | AreFirsts(schema, store, root, firsts) :: InLoad(schema, store, firsts, view, root, n)
    {
      CertainIffAlwaysLoaded(schema, store, view, root, n);
    }
    forall firsts, n | InLoad(schema, store, firsts, view, root, n) ensures InTargets(schema, store, view, root, n) {
      LoadedAreTargets(schema, store, firsts, view, root, n);
    }
  }

  // ---- Two relationships to one node

  /** The root is owned by one node twice. */
  const TWICE := Store(
    Graph(map[0 := PLAIN, 1 := PLAIN],
      map[0 := Edge("OWNED_BY", 0, 1, map[]), 1 := Edge("OWNED_BY", 0, 1, map[])], 2),
    (v, n) => true)

  /** A field of one node has two matches, of which a load holds one, and the list and every load hold its node. */
  lemma TwiceIsCertain()
    ensures ValidSchema(ONE) && Certain(ONE, TWICE, 0, 0, [], [], 1) && !OnlyMatches(ONE, TWICE, 0, 0)
  {
    assert Takes(TWICE, 0, StepOf(ONE, 0), Link(0, 1)) && Takes(TWICE, 0, StepOf(ONE, 0), Link(1, 1));
    forall link | Takes(TWICE, 0, StepOf(ONE, 0), link) ensures Leads(ONE, TWICE, 0, [], [], 0, link, 1) {
    }
    assert 0 in ONE.views[0].relationships && FieldLeads(ONE, TWICE, 0, [], [], 0, 1);
    assert PatternOf(ONE, [0]) == [StepOf(ONE, 0)];
    assert Taken(ONE, TWICE, 0, 0, [0], [Link(0, 1)]);
    assert [Link(0, 1)][..0] == [];
    assert !OnlyMatch(ONE, TWICE, 0, [0], [Link(0, 1)], 0);
  }
}
